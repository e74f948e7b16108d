/** The read-only request handlers: lookups, `login`, `read_users_me`,
    `get_contacts` and `get_messages`, as functions of the stored tables. */
module Queries {
  import opened Results
  import opened Seqs
  import opened Models
  import opened Credentials

  /** The error a handler raises: an HTTP status code and its detail text. */
  datatype HttpError = HttpError(statusCode: nat, detail: string)

  // ---------------------------------------------------------------- lookups

  /** `query(User).filter(User.username == name).first()`. */
  function FindUserByUsername(users: seq<User>, name: string): (r: Option<User>)
    ensures r.Some? ==> r.value in users && r.value.username == name
    ensures r.None? <==> forall u :: u in users ==> u.username != name
  {
    First(Filter(users, (u: User) => u.username == name))
  }

  /** `query(User).get(id)`: the user with primary key `id`. */
  function FindUserById(users: seq<User>, id: nat): (r: Option<User>)
    ensures r.Some? ==> r.value in users && r.value.id == id
    ensures r.None? <==> !HasUser(users, id)
  {
    First(Filter(users, (u: User) => u.id == id))
  }

  /** The first stored edge from `owner` to `target`, if any. */
  function FindEdge(contacts: seq<Contact>, owner: nat, target: nat): (r: Option<Contact>)
    ensures r.Some? ==> r.value in contacts && r.value.userId == owner && r.value.contactId == target
    ensures r.None? <==> !EdgeExists(contacts, owner, target)
  {
    First(Filter(contacts, (c: Contact) => c.userId == owner && c.contactId == target))
  }

  /** Under the unique constraint, looking up a stored user's name finds that user. */
  lemma FindStoredUsername(users: seq<User>, u: User)
    requires UniqueUsernames(users)
    requires u in users
    ensures FindUserByUsername(users, u.username) == Some(u)
  {
    var r := FindUserByUsername(users, u.username);
    UsernameDeterminesUser(users, r.value, u);
  }

  // ---------------------------------------------------------------- login

  /** What `login` returns on success. */
  datatype TokenResponse = TokenResponse(accessToken: Payload, tokenType: string)

  /** `login`: the user named `username` must exist and `password` must verify against
      the stored hash; then the token payload has subject `username` and an expiry one
      token lifetime after `now`. Both failures give the same 401 error. */
  function Login(cfg: Config, users: seq<User>, username: string, password: string, now: nat): (r: Result<TokenResponse, HttpError>)
    ensures r.Success? ==> exists u :: u in users && u.username == username && cfg.verifyPassword(password, u.hashedPassword)
    ensures (forall u :: u in users ==> u.username != username) ==> r.Failure?
    ensures r.Failure? ==> r.error == HttpError(401, "Invalid credentials")
    ensures r.Success? ==> r.value.tokenType == "bearer"
    ensures r.Success? ==> r.value.accessToken.Keys == {"sub", "exp"}
    ensures r.Success? ==> r.value.accessToken["sub"] == Text(username)
    ensures r.Success? ==> r.value.accessToken["exp"] == Instant(now + 60 * cfg.accessTokenExpireMinutes)
  {
    var found := FindUserByUsername(users, username);
    if found.None? || !cfg.verifyPassword(password, found.value.hashedPassword) then
      Failure(HttpError(401, "Invalid credentials"))
    else
      Success(TokenResponse(CreateAccessToken(map["sub" := Text(found.value.username)], now, cfg.accessTokenExpireMinutes), "bearer"))
  }

  /** With unique usernames, `login` succeeds exactly when the named user's stored
      hash verifies the password (the converse of `Login`'s first postcondition). */
  lemma LoginSucceedsIff(cfg: Config, users: seq<User>, u: User, password: string, now: nat)
    requires UniqueUsernames(users)
    requires u in users
    ensures Login(cfg, users, u.username, password, now).Success? <==> cfg.verifyPassword(password, u.hashedPassword)
  {
    FindStoredUsername(users, u);
  }

  // ---------------------------------------------------------------- read_users_me

  /** What `read_users_me` returns: the profile columns, never the password hash. */
  datatype Profile = Profile(id: nat, username: string, about: string, profilePicture: string)

  function ReadUsersMe(current: User): (r: Profile)
    ensures r.id == current.id && r.username == current.username
    ensures r.about == current.about && r.profilePicture == current.profilePicture
  {
    Profile(current.id, current.username, current.about, current.profilePicture)
  }

  // ---------------------------------------------------------------- get_contacts

  /** One element of the `get_contacts` answer. */
  datatype ContactEntry = ContactEntry(id: nat, username: string, lastMessage: string)

  /** The preview text `get_contacts` puts on every entry. */
  const LAST_MESSAGE_PLACEHOLDER: string := "..."

  /** The stored edges whose owner is `me`, in stored order. */
  function OwnedEdges(contacts: seq<Contact>, me: nat): (r: seq<Contact>)
  {
    Filter(contacts, (c: Contact) => c.userId == me)
  }

  /** `get_contacts`: one entry per edge owned by `me`, in stored order, carrying the
      contact's id and username and the placeholder preview. The source dereferences
      the contact's user row without a check, so every such edge must point at a user. */
  function GetContacts(users: seq<User>, contacts: seq<Contact>, me: nat): (r: seq<ContactEntry>)
    requires forall c :: c in contacts && c.userId == me ==> HasUser(users, c.contactId)
    ensures |r| == |OwnedEdges(contacts, me)|
    ensures forall k :: 0 <= k < |r| ==>
      && r[k].id == OwnedEdges(contacts, me)[k].contactId
      && r[k].lastMessage == LAST_MESSAGE_PLACEHOLDER
      && exists u :: u in users && u.id == r[k].id && u.username == r[k].username
  {
    var owned := OwnedEdges(contacts, me);
    assert forall c :: c in owned ==> HasUser(users, c.contactId);
    seq(|owned|, k requires 0 <= k < |owned| => EntryOf(users, owned[k]))
  }

  /** The entry `get_contacts` builds for one edge. */
  function EntryOf(users: seq<User>, c: Contact): (e: ContactEntry)
    requires HasUser(users, c.contactId)
    ensures e.id == c.contactId && e.lastMessage == LAST_MESSAGE_PLACEHOLDER
    ensures exists u :: u in users && u.id == e.id && u.username == e.username
  {
    var u := FindUserById(users, c.contactId).value;
    ContactEntry(c.contactId, u.username, LAST_MESSAGE_PLACEHOLDER)
  }

  /** Adding an edge owned by `me` appends exactly its entry to `me`'s contact list;
      an edge owned by someone else leaves `me`'s list as it was. */
  lemma {:induction false} GetContactsAfterAdd(users: seq<User>, contacts: seq<Contact>, me: nat, c: Contact, u: User)
    requires UniqueUserIds(users)
    requires forall d :: d in contacts && d.userId == me ==> HasUser(users, d.contactId)
    requires u in users && c.contactId == u.id
    ensures GetContacts(users, contacts + [c], me) ==
      GetContacts(users, contacts, me) + (if c.userId == me then [ContactEntry(u.id, u.username, LAST_MESSAGE_PLACEHOLDER)] else [])
  {
    var p := (d: Contact) => d.userId == me;
    FilterAppend(contacts, [c], p);
    FilterSingleton(c, p);
    var owned := OwnedEdges(contacts, me);
    var owned' := OwnedEdges(contacts + [c], me);
    var added := if c.userId == me then [c] else [];
    assert owned' == owned + added;

    var found := FindUserById(users, u.id);
    IdDeterminesUser(users, found.value, u);
    var entry := ContactEntry(u.id, u.username, LAST_MESSAGE_PLACEHOLDER);
    assert EntryOf(users, c) == entry;

    var before := GetContacts(users, contacts, me);
    var after := GetContacts(users, contacts + [c], me);
    var extra := if c.userId == me then [entry] else [];
    assert |after| == |before| + |extra|;
    forall k | 0 <= k < |after|
      ensures after[k] == (before + extra)[k]
    {
      if k < |owned| {
        assert owned'[k] == owned[k];
      } else {
        assert owned'[k] == c;
      }
    }
  }

  // ---------------------------------------------------------------- get_messages

  /** A message belongs to the conversation of `a` and `b`, whichever sent it. */
  predicate InConversation(m: Message, a: nat, b: nat)
  {
    (m.senderId == a && m.receiverId == b) || (m.senderId == b && m.receiverId == a)
  }

  /** The `filter` of `get_messages`, in stored order. */
  function ConversationRows(messages: seq<Message>, me: nat, other: nat): (r: seq<Message>)
  {
    Filter(messages, (m: Message) => InConversation(m, me, other))
  }

  /** Places `m` in front of the first element of `s` whose timestamp is not earlier. */
  function InsertByTimestamp(m: Message, s: seq<Message>): (r: seq<Message>)
    requires TimestampsOrdered(s)
    ensures TimestampsOrdered(r)
    ensures multiset(r) == multiset(s) + multiset{m}
    ensures |r| == |s| + 1
    ensures r[0] == m || (s != [] && r[0] == s[0])
  {
    if s == [] then [m]
    else if m.timestamp <= s[0].timestamp then
      PrependKeepsTimestampOrder(m, s);
      [m] + s
    else
      var rest := InsertByTimestamp(m, s[1..]);
      InsertBehindHead(m, s, rest);
      [s[0]] + rest
  }

  /** The recursive step of the insertion: when `m` goes behind the head of `s`, the
      head followed by `m` inserted into the tail is ordered and holds `s` and `m`. */
  lemma InsertBehindHead(m: Message, s: seq<Message>, rest: seq<Message>)
    requires s != [] && TimestampsOrdered(s) && s[0].timestamp < m.timestamp
    requires TimestampsOrdered(rest) && |rest| == |s|
    requires multiset(rest) == multiset(s[1..]) + multiset{m}
    requires rest[0] == m || (|s| > 1 && rest[0] == s[1])
    ensures TimestampsOrdered([s[0]] + rest)
    ensures multiset([s[0]] + rest) == multiset(s) + multiset{m}
  {
    assert s == [s[0]] + s[1..];
    PrependKeepsTimestampOrder(s[0], rest);
  }

  /** A message no later than the head of an ordered sequence can go in front of it. */
  lemma PrependKeepsTimestampOrder(x: Message, t: seq<Message>)
    requires TimestampsOrdered(t)
    requires t != [] ==> x.timestamp <= t[0].timestamp
    ensures TimestampsOrdered([x] + t)
  {
    var u := [x] + t;
    forall i, j | 0 <= i < j < |u| ensures u[i].timestamp <= u[j].timestamp {
      if i > 0 {
        assert u[i] == t[i - 1] && u[j] == t[j - 1];
      } else {
        assert u[j] == t[j - 1];
        assert t[0].timestamp <= t[j - 1].timestamp;
      }
    }
  }

  /** `order_by(Message.timestamp)`: a stable sort on the timestamp. */
  function OrderByTimestamp(s: seq<Message>): (r: seq<Message>)
    ensures TimestampsOrdered(r)
    ensures multiset(r) == multiset(s)
    ensures |r| == |s|
  {
    if s == [] then []
    else
      assert s == [s[0]] + s[1..];
      InsertByTimestamp(s[0], OrderByTimestamp(s[1..]))
  }

  /** One element of the `get_messages` answer. */
  datatype MessageView = MessageView(id: nat, content: string, timestamp: nat, senderId: nat)

  function ViewOf(m: Message): (r: MessageView)
  {
    MessageView(m.id, m.content, m.timestamp, m.senderId)
  }

  function Views(s: seq<Message>): (r: seq<MessageView>)
  {
    seq(|s|, k requires 0 <= k < |s| => ViewOf(s[k]))
  }

  /** `get_messages`: the messages between `me` and `contactId`, in either direction,
      ordered by timestamp. The soft-delete flag is not consulted. */
  function GetMessages(messages: seq<Message>, me: nat, contactId: nat): (r: seq<MessageView>)
    ensures |r| == |ConversationRows(messages, me, contactId)|
    ensures forall k, l :: 0 <= k <= l < |r| ==> r[k].timestamp <= r[l].timestamp
  {
    Views(OrderByTimestamp(ConversationRows(messages, me, contactId)))
  }

  /** The conversation filter is symmetric in its two participants. */
  lemma ConversationRowsSymmetric(messages: seq<Message>, a: nat, b: nat)
    ensures ConversationRows(messages, a, b) == ConversationRows(messages, b, a)
  {
    FilterCongruent(messages, (m: Message) => InConversation(m, a, b), (m: Message) => InConversation(m, b, a));
  }

  /** Asking for the conversation from either side gives the same ordered answer. */
  lemma GetMessagesSymmetric(messages: seq<Message>, a: nat, b: nat)
    ensures GetMessages(messages, a, b) == GetMessages(messages, b, a)
  {
    ConversationRowsSymmetric(messages, a, b);
  }

  /** `get_messages` answers with exactly the views of the messages exchanged, in
      either direction, between the two users. */
  lemma GetMessagesMembers(messages: seq<Message>, me: nat, contactId: nat, v: MessageView)
    ensures v in GetMessages(messages, me, contactId) <==>
      exists m :: m in messages && InConversation(m, me, contactId) && v == ViewOf(m)
  {
    var rows := ConversationRows(messages, me, contactId);
    var ordered := OrderByTimestamp(rows);
    if v in GetMessages(messages, me, contactId) {
      var k :| 0 <= k < |ordered| && v == ViewOf(ordered[k]);
      assert ordered[k] in multiset(ordered);
      assert ordered[k] in rows;
    }
    if m :| m in messages && InConversation(m, me, contactId) && v == ViewOf(m) {
      assert m in rows;
      assert m in multiset(ordered);
      var k :| 0 <= k < |ordered| && ordered[k] == m;
      assert GetMessages(messages, me, contactId)[k] == v;
    }
  }

  /** Filtering a sequence of messages keeps timestamp order. */
  lemma {:induction false} FilterKeepsTimestampOrder(s: seq<Message>, p: Message -> bool)
    requires TimestampsOrdered(s)
    ensures TimestampsOrdered(Filter(s, p))
  {
    if s != [] {
      FilterKeepsTimestampOrder(s[1..], p);
      var rest := Filter(s[1..], p);
      forall x | x in rest ensures s[0].timestamp <= x.timestamp {
        var i :| 0 <= i < |s[1..]| && s[1..][i] == x;
        assert s[i + 1] == x;
      }
    }
  }

  /** Sorting a sequence that is already in timestamp order changes nothing. */
  lemma {:induction false} OrderByTimestampOfOrdered(s: seq<Message>)
    requires TimestampsOrdered(s)
    ensures OrderByTimestamp(s) == s
  {
    if s != [] {
      OrderByTimestampOfOrdered(s[1..]);
      assert s == [s[0]] + s[1..];
    }
  }

  /** When messages are stored in send order (the store keeps them so), `get_messages`
      lists the conversation in send order. */
  lemma GetMessagesInSendOrder(messages: seq<Message>, me: nat, contactId: nat)
    requires TimestampsOrdered(messages)
    ensures GetMessages(messages, me, contactId) == Views(ConversationRows(messages, me, contactId))
  {
    FilterKeepsTimestampOrder(messages, (m: Message) => InConversation(m, me, contactId));
    OrderByTimestampOfOrdered(ConversationRows(messages, me, contactId));
  }

  /** A message sent no earlier than every stored one appears last in the conversation
      of its two users and in no other conversation. */
  lemma GetMessagesAfterSend(messages: seq<Message>, m: Message, me: nat, contactId: nat)
    requires TimestampsOrdered(messages + [m])
    ensures GetMessages(messages + [m], me, contactId) ==
      GetMessages(messages, me, contactId) + (if InConversation(m, me, contactId) then [ViewOf(m)] else [])
  {
    assert TimestampsOrdered(messages) by {
      forall i, j | 0 <= i < j < |messages| ensures messages[i].timestamp <= messages[j].timestamp {
        assert messages[i] == (messages + [m])[i] && messages[j] == (messages + [m])[j];
      }
    }
    GetMessagesInSendOrder(messages + [m], me, contactId);
    GetMessagesInSendOrder(messages, me, contactId);
    var p := (x: Message) => InConversation(x, me, contactId);
    FilterAppend(messages, [m], p);
    FilterSingleton(m, p);
    var before := ConversationRows(messages, me, contactId);
    var extra := if InConversation(m, me, contactId) then [m] else [];
    assert ConversationRows(messages + [m], me, contactId) == before + extra;
    assert Views(before + extra) == Views(before) + Views(extra);
  }

  /** Two messages of one conversation, the second sent no earlier than the first, are
      listed in that order with their own senders. */
  lemma GetMessagesTwoInSendOrder(first: Message, second: Message, a: nat, b: nat)
    requires first.timestamp <= second.timestamp
    requires InConversation(first, a, b) && InConversation(second, a, b)
    ensures GetMessages([first, second], a, b) == [ViewOf(first), ViewOf(second)]
  {
    var none: seq<Message> := [];
    var one := none + [first];
    var two := one + [second];
    assert GetMessages(none, a, b) == [];
    GetMessagesAfterSend(none, first, a, b);
    assert TimestampsOrdered(two);
    GetMessagesAfterSend(one, second, a, b);
    assert two == [first, second];
  }
}
