/** The store behind the state-changing handlers `signup`, `add_contact` and
    `send_message`: the three tables, the next primary key of each, and the clock
    that stamps new messages. Each handler runs as one atomic step. */
module Store {
  import opened Results
  import opened Seqs
  import opened Models
  import opened Credentials
  import opened Queries

  class ChatStore {
    /** The password primitives and token lifetime, fixed at start-up. */
    const config: Config

    var users: seq<User>
    var contacts: seq<Contact>
    var messages: seq<Message>

    /** The primary key the next inserted row of each table receives. */
    var nextUserId: nat
    var nextContactId: nat
    var nextMessageId: nat

    /** The current time, in seconds. It only moves forward. */
    var clock: nat

    /** The schema constraints hold, every key handed out is below the next one, and
        no stored message is stamped later than the clock. */
    ghost predicate Valid()
      reads this
    {
      && Consistent(users, contacts, messages)
      && (forall u :: u in users ==> u.id < nextUserId)
      && (forall c :: c in contacts ==> c.id < nextContactId)
      && (forall m :: m in messages ==> m.id < nextMessageId && m.timestamp <= clock)
    }

    /** An empty database; keys start at 1. */
    constructor (config: Config, startTime: nat)
      ensures Valid()
      ensures this.config == config && clock == startTime
      ensures users == [] && contacts == [] && messages == []
      ensures nextUserId == 1 && nextContactId == 1 && nextMessageId == 1
    {
      this.config := config;
      users, contacts, messages := [], [], [];
      nextUserId, nextContactId, nextMessageId := 1, 1, 1;
      clock := startTime;
    }

    /** Time passes between requests. */
    method AdvanceClock(elapsed: nat)
      requires Valid()
      modifies this`clock
      ensures Valid()
      ensures clock == old(clock) + elapsed
    {
      clock := clock + elapsed;
    }

    /** `signup`: a taken username is refused with 400 and nothing changes; otherwise
        exactly one user is appended, with the hashed password and the column defaults. */
    method Signup(username: string, password: string) returns (r: Result<string, HttpError>)
      requires Valid()
      modifies this`users, this`nextUserId
      ensures Valid()
      ensures (exists u :: u in old(users) && u.username == username) ==>
        && r == Failure(HttpError(400, "Username already registered"))
        && users == old(users) && nextUserId == old(nextUserId)
      ensures (forall u :: u in old(users) ==> u.username != username) ==>
        && r == Success("User created successfully")
        && users == old(users) + [User(old(nextUserId), username, config.hashPassword(password), DEFAULT_ABOUT, DEFAULT_PROFILE_PICTURE)]
        && nextUserId == old(nextUserId) + 1
    {
      var existing := FindUserByUsername(users, username);
      if existing.Some? {
        return Failure(HttpError(400, "Username already registered"));
      }
      var created := User(nextUserId, username, config.hashPassword(password), DEFAULT_ABOUT, DEFAULT_PROFILE_PICTURE);
      users := users + [created];
      nextUserId := nextUserId + 1;
      AddUserKeepsUsernamesUnique(old(users), created);
      MoreUsersKeepReferences(old(users), [created], contacts, messages);
      return Success("User created successfully");
    }

    /** `add_contact` for the authenticated user `me`: an unknown name gives 404, an edge
        that is already stored gives 400, and in both cases nothing changes; otherwise
        exactly the edge (me, contact) is appended. Adding oneself is allowed. */
    method AddContact(me: nat, contactUsername: string) returns (r: Result<string, HttpError>)
      requires Valid()
      requires HasUser(users, me)
      modifies this`contacts, this`nextContactId
      ensures Valid()
      ensures (forall u :: u in users ==> u.username != contactUsername) ==>
        && r == Failure(HttpError(404, "User not found"))
        && contacts == old(contacts) && nextContactId == old(nextContactId)
      ensures forall u :: u in users && u.username == contactUsername && EdgeExists(old(contacts), me, u.id) ==>
        && r == Failure(HttpError(400, "Contact already added"))
        && contacts == old(contacts) && nextContactId == old(nextContactId)
      ensures forall u :: u in users && u.username == contactUsername && !EdgeExists(old(contacts), me, u.id) ==>
        && r == Success("Contact added successfully")
        && contacts == old(contacts) + [Contact(old(nextContactId), me, u.id)]
        && nextContactId == old(nextContactId) + 1
    {
      var contact := FindUserByUsername(users, contactUsername);
      if contact.None? {
        return Failure(HttpError(404, "User not found"));
      }
      forall u | u in users && u.username == contactUsername ensures u == contact.value {
        UsernameDeterminesUser(users, u, contact.value);
      }
      var existing := FindEdge(contacts, me, contact.value.id);
      if existing.Some? {
        return Failure(HttpError(400, "Contact already added"));
      }
      var edge := Contact(nextContactId, me, contact.value.id);
      contacts := contacts + [edge];
      nextContactId := nextContactId + 1;
      assert HasUser(users, edge.contactId);
      AddEdgeKeepsEdgesDistinct(old(contacts), edge);
      return Success("Contact added successfully");
    }

    /** `send_message` from the authenticated user `me`: an unknown receiver gives 404
        and nothing changes; otherwise exactly one message is appended, from `me` to the
        receiver, with the content as given (empty content too), stamped with the
        current clock and not deleted. */
    method SendMessage(me: nat, receiverUsername: string, content: string) returns (r: Result<string, HttpError>)
      requires Valid()
      requires HasUser(users, me)
      modifies this`messages, this`nextMessageId
      ensures Valid()
      ensures (forall u :: u in users ==> u.username != receiverUsername) ==>
        && r == Failure(HttpError(404, "Receiver not found"))
        && messages == old(messages) && nextMessageId == old(nextMessageId)
      ensures forall u :: u in users && u.username == receiverUsername ==>
        && r == Success("Message sent successfully")
        && messages == old(messages) + [Message(old(nextMessageId), me, u.id, content, clock, false)]
        && nextMessageId == old(nextMessageId) + 1
    {
      var receiver := FindUserByUsername(users, receiverUsername);
      if receiver.None? {
        return Failure(HttpError(404, "Receiver not found"));
      }
      forall u | u in users && u.username == receiverUsername ensures u == receiver.value {
        UsernameDeterminesUser(users, u, receiver.value);
      }
      var sent := Message(nextMessageId, me, receiver.value.id, content, clock, false);
      messages := messages + [sent];
      nextMessageId := nextMessageId + 1;
      assert HasUser(users, sent.receiverId);
      return Success("Message sent successfully");
    }
  }

  /** A user who has just signed up can log in with the same password, provided the
      hasher and verifier agree on it, and their profile shows the default about text
      and picture. */
  lemma LoginAfterSignup(cfg: Config, users: seq<User>, id: nat, username: string, password: string, now: nat)
    requires UniqueUsernames(users)
    requires forall u :: u in users ==> u.username != username
    requires cfg.verifyPassword(password, cfg.hashPassword(password))
    ensures var stored := users + [User(id, username, cfg.hashPassword(password), DEFAULT_ABOUT, DEFAULT_PROFILE_PICTURE)];
      && Login(cfg, stored, username, password, now).Success?
      && FindUserByUsername(stored, username).Some?
      && ReadUsersMe(FindUserByUsername(stored, username).value) == Profile(id, username, DEFAULT_ABOUT, DEFAULT_PROFILE_PICTURE)
  {
    var created := User(id, username, cfg.hashPassword(password), DEFAULT_ABOUT, DEFAULT_PROFILE_PICTURE);
    var stored := users + [created];
    AddUserKeepsUsernamesUnique(users, created);
    FindStoredUsername(stored, created);
    LoginSucceedsIff(cfg, stored, created, password, now);
  }

  /** Two users sign up; a second signup under a taken name is refused, and adding
      the same contact twice stores one edge. */
  method ContactScenario(cfg: Config)
  {
    var store := new ChatStore(cfg, 100);
    assert store.users == [] && store.nextUserId == 1;
    var r := store.Signup("alice", "secret");
    assert r.Success?;
    var alice := User(1, "alice", cfg.hashPassword("secret"), DEFAULT_ABOUT, DEFAULT_PROFILE_PICTURE);
    assert store.users == [alice];
    r := store.Signup("bob", "hunter2");
    var bob := User(2, "bob", cfg.hashPassword("hunter2"), DEFAULT_ABOUT, DEFAULT_PROFILE_PICTURE);
    assert store.users == [alice, bob];
    r := store.Signup("alice", "other");
    assert store.users[0] == alice;
    assert r == Failure(HttpError(400, "Username already registered"));

    assert bob in store.users;
    r := store.AddContact(1, "bob");
    assert r.Success? && store.contacts == [Contact(1, 1, 2)];
    assert EdgeExists(store.contacts, 1, 2);
    r := store.AddContact(1, "bob");
    assert r == Failure(HttpError(400, "Contact already added"));
    assert store.contacts == [Contact(1, 1, 2)];
  }
}
