/** The three tables of the chat store (users, contacts, messages), the defaults a
    new row takes, and the integrity constraints the schema declares. */
module Models {

  /** A row of `users`. `hashedPassword` is whatever the password hasher produced. */
  datatype User = User(id: nat, username: string, hashedPassword: string, about: string, profilePicture: string)

  /** A row of `contacts`: the directed edge "`userId` added `contactId`". */
  datatype Contact = Contact(id: nat, userId: nat, contactId: nat)

  /** A row of `messages`. `timestamp` is a reading of the store's clock (seconds). */
  datatype Message = Message(id: nat, senderId: nat, receiverId: nat, content: string, timestamp: nat, isDeleted: bool)

  /** Column defaults of a new user. */
  const DEFAULT_ABOUT: string := "Hey there! I'm using FastAPI Chat"
  const DEFAULT_PROFILE_PICTURE: string := "default.jpg"

  /** Some row of `users` has primary key `id`. */
  ghost predicate HasUser(users: seq<User>, id: nat)
  {
    exists u :: u in users && u.id == id
  }

  /** The unique constraint on `users.username`. */
  ghost predicate UniqueUsernames(users: seq<User>)
  {
    forall i, j :: 0 <= i < |users| && 0 <= j < |users| && i != j ==> users[i].username != users[j].username
  }

  /** Primary keys of the three tables. */
  ghost predicate UniqueUserIds(users: seq<User>)
  {
    forall i, j :: 0 <= i < |users| && 0 <= j < |users| && i != j ==> users[i].id != users[j].id
  }

  ghost predicate UniqueContactIds(contacts: seq<Contact>)
  {
    forall i, j :: 0 <= i < |contacts| && 0 <= j < |contacts| && i != j ==> contacts[i].id != contacts[j].id
  }

  ghost predicate UniqueMessageIds(messages: seq<Message>)
  {
    forall i, j :: 0 <= i < |messages| && 0 <= j < |messages| && i != j ==> messages[i].id != messages[j].id
  }

  /** Foreign keys `contacts.user_id` and `contacts.contact_id` into `users.id`. */
  ghost predicate ContactsReferToUsers(users: seq<User>, contacts: seq<Contact>)
  {
    forall c :: c in contacts ==> HasUser(users, c.userId) && HasUser(users, c.contactId)
  }

  /** Foreign keys `messages.sender_id` and `messages.receiver_id` into `users.id`. */
  ghost predicate MessagesReferToUsers(users: seq<User>, messages: seq<Message>)
  {
    forall m :: m in messages ==> HasUser(users, m.senderId) && HasUser(users, m.receiverId)
  }

  /** The ordered edge (owner, target) is stored. */
  ghost predicate EdgeExists(contacts: seq<Contact>, owner: nat, target: nat)
  {
    exists c :: c in contacts && c.userId == owner && c.contactId == target
  }

  /** No ordered pair (user_id, contact_id) is stored twice. */
  ghost predicate NoDuplicateEdges(contacts: seq<Contact>)
  {
    forall i, j :: 0 <= i < |contacts| && 0 <= j < |contacts| && i != j ==>
      contacts[i].userId != contacts[j].userId || contacts[i].contactId != contacts[j].contactId
  }

  /** Timestamps do not decrease along a sequence of messages. */
  predicate TimestampsOrdered(messages: seq<Message>)
  {
    forall i, j :: 0 <= i < j < |messages| ==> messages[i].timestamp <= messages[j].timestamp
  }

  /** The schema's constraints on the three tables (unique usernames, primary keys,
      foreign keys), plus two facts the handlers maintain: no ordered contact pair is
      stored twice (the duplicate check of `add_contact`), and messages are stored in
      send order (the clock never goes back). */
  ghost predicate Consistent(users: seq<User>, contacts: seq<Contact>, messages: seq<Message>)
  {
    && UniqueUsernames(users)
    && UniqueUserIds(users)
    && UniqueContactIds(contacts)
    && UniqueMessageIds(messages)
    && ContactsReferToUsers(users, contacts)
    && MessagesReferToUsers(users, messages)
    && NoDuplicateEdges(contacts)
    && TimestampsOrdered(messages)
  }

  /** Under the unique constraint, a username determines the user row. */
  lemma UsernameDeterminesUser(users: seq<User>, u: User, v: User)
    requires UniqueUsernames(users)
    requires u in users && v in users && u.username == v.username
    ensures u == v
  {
    var i :| 0 <= i < |users| && users[i] == u;
    var j :| 0 <= j < |users| && users[j] == v;
    assert i == j;
  }

  /** Under the primary key, an id determines the user row. */
  lemma IdDeterminesUser(users: seq<User>, u: User, v: User)
    requires UniqueUserIds(users)
    requires u in users && v in users && u.id == v.id
    ensures u == v
  {
    var i :| 0 <= i < |users| && users[i] == u;
    var j :| 0 <= j < |users| && users[j] == v;
    assert i == j;
  }

  /** A user whose name is not yet taken can be appended without breaking the unique
      constraint on usernames. */
  lemma AddUserKeepsUsernamesUnique(users: seq<User>, u: User)
    requires UniqueUsernames(users)
    requires forall v :: v in users ==> v.username != u.username
    ensures UniqueUsernames(users + [u])
  {
    var stored := users + [u];
    forall i, j | 0 <= i < |stored| && 0 <= j < |stored| && i != j
      ensures stored[i].username != stored[j].username
    {
      if i < |users| && j < |users| {
        assert stored[i] == users[i] && stored[j] == users[j];
      } else if i < |users| {
        assert stored[i] in users;
      } else {
        assert stored[j] in users;
      }
    }
  }

  /** An edge whose ordered pair is not yet stored can be appended without storing any
      pair twice. */
  lemma AddEdgeKeepsEdgesDistinct(contacts: seq<Contact>, c: Contact)
    requires NoDuplicateEdges(contacts)
    requires !EdgeExists(contacts, c.userId, c.contactId)
    ensures NoDuplicateEdges(contacts + [c])
  {
    var stored := contacts + [c];
    forall i, j | 0 <= i < |stored| && 0 <= j < |stored| && i != j
      ensures stored[i].userId != stored[j].userId || stored[i].contactId != stored[j].contactId
    {
      if i < |contacts| && j < |contacts| {
        assert stored[i] == contacts[i] && stored[j] == contacts[j];
      } else if i < |contacts| {
        assert stored[i] in contacts;
      } else {
        assert stored[j] in contacts;
      }
    }
  }

  /** Adding users keeps every existing reference to a user valid. */
  lemma MoreUsersKeepReferences(users: seq<User>, added: seq<User>, contacts: seq<Contact>, messages: seq<Message>)
    requires ContactsReferToUsers(users, contacts)
    requires MessagesReferToUsers(users, messages)
    ensures ContactsReferToUsers(users + added, contacts)
    ensures MessagesReferToUsers(users + added, messages)
  {
    forall id | HasUser(users, id) ensures HasUser(users + added, id) {
      var u :| u in users && u.id == id;
      assert u in users + added;
    }
  }
}
