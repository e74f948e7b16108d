# FastChat messaging store, modelled in Dafny

FastChat is a small chat backend. Users sign up and log in. They add other users
as contacts and exchange direct messages. Its state is three database tables:
`users`, `contacts` (directed "A added B" edges) and `messages`.

This project models that store and the request handlers of `main.py` that read
and change it. It proves what each handler promises about the three tables.

- `results.dfy` — `Option` and `Result`, the outcome of a lookup and of a handler.
- `seqs.dfy` — `Filter` and `First`, the two query shapes the handlers use
  (`filter(...).all()` and `filter(...).first()`), with their algebra.
- `models.dfy` — the `User`, `Contact` and `Message` rows of `models.py`, the
  column defaults, and the schema's integrity constraints as predicates. These are
  unique usernames, unique primary keys and foreign keys into `users.id`. Two
  further predicates say that no ordered contact pair is stored twice and that
  messages are stored in timestamp order.
- `credentials.dfy` — the password primitives and token lifetime as one
  configuration value, and the payload built by `create_access_token`.
- `queries.dfy` — the handlers that only read: the username/id/edge lookups,
  `login`, `read_users_me`, `get_contacts` and `get_messages`. Each is a function
  of the tables.
- `store.dfy` — class `ChatStore`. It holds the three tables, the next primary key
  of each table and a clock. Its methods `Signup`, `AddContact` and `SendMessage`
  are the three handlers that write. Each keeps the invariant `Valid()`, and each
  states its error outcome (nothing changes) and its success outcome (exactly one
  row is appended). The module also has cross-handler lemmas and a verified
  client scenario.

Conventions:
- Time is a natural-number clock in seconds, owned by the store. It only moves
  forward (`AdvanceClock`). A new message is stamped with the current clock.
  Token expiry is `now + 60 * ACCESS_TOKEN_EXPIRE_MINUTES`.
- Primary keys come from per-table counters that start at 1, as an
  autoincrementing integer primary key does when rows are never deleted.
- Handler failures are `HttpError(statusCode, detail)`, with the source's codes
  and texts. A success carries the source's confirmation text.
- The authenticated current user is a parameter `me` that must be the id of a
  stored user.
- `get_messages` sorts with `order_by(Message.timestamp)`, modelled as a stable
  sort on the timestamp (`OrderByTimestamp`). The store keeps messages in
  timestamp order, so the sort returns the conversation in send order
  (`GetMessagesInSendOrder`).
- `Message.is_deleted` (models.py:29) is never set, and `get_messages`
  (main.py:144-147) does not filter on it. The model follows the code:
  `GetMessages` ignores the flag, and no operation sets it.

## Model

| member | source | states |
|---|---|---|
| Models.UsernameDeterminesUser | models.py:9 | under the unique constraint, two stored users with the same username are the same row |
| Models.IdDeterminesUser | models.py:8 | under the primary key, two stored users with the same id are the same row |
| Models.AddUserKeepsUsernamesUnique | models.py:9 | appending a user whose name is not taken keeps usernames unique |
| Models.AddEdgeKeepsEdgesDistinct | main.py:68-78 | appending an edge whose ordered pair is not stored keeps every ordered pair stored at most once |
| Models.MoreUsersKeepReferences | models.py:18-26 | adding users keeps every contact and message endpoint a reference to an existing user |
| Credentials.CreateAccessToken | main.py:51-55 | the payload has exactly the input claims plus `exp`; `exp` is `now` plus the lifetime in minutes; every other input claim is kept unchanged |
| Queries.FindUserByUsername | main.py:29 | the lookup returns a stored user with that username, and finds nothing exactly when no stored user has it |
| Queries.FindUserById | main.py:135 | the lookup returns a stored user with that id, and finds nothing exactly when no user has the id |
| Queries.FindEdge | main.py:68-71 | the lookup returns a stored edge from owner to target, and finds nothing exactly when no such edge is stored |
| Queries.FindStoredUsername | main.py:40 | with unique usernames, looking up a stored user's name returns that user |
| Queries.Login | main.py:40-48 | success implies a user with that username exists and the password verifies against its hash; an unknown username fails; every failure is 401 "Invalid credentials"; a success is a bearer token whose payload is exactly `sub` = the username and `exp` = now plus the lifetime |
| Queries.LoginSucceedsIff | main.py:40-47 | with unique usernames, login as a stored user succeeds if and only if the password verifies against that user's hash |
| Queries.ReadUsersMe | main.py:119-126 | the profile carries exactly the current user's id, username, about text and profile picture; its type has no password hash field, so the hash is never returned |
| Queries.GetContacts | main.py:131-139 | one entry per edge owned by the current user, in stored order; each entry has the contact's id, the username of the stored user with that id, and the placeholder "..." |
| Queries.EntryOf | main.py:133-137 | the entry for an edge has the contact's id, the username of a stored user with that id, and the placeholder "..." |
| Queries.GetContactsAfterAdd | main.py:131-139 | appending an edge owned by the current user appends exactly its entry (contact id, contact username, "...") to that user's list; an edge owned by someone else leaves the list unchanged |
| Queries.InsertByTimestamp | main.py:147 | inserting into a timestamp-ordered sequence gives a timestamp-ordered sequence holding the old elements plus the new one |
| Queries.OrderByTimestamp | main.py:147 | the result is in non-decreasing timestamp order and is a permutation of the input |
| Queries.OrderByTimestampOfOrdered | main.py:147 | sorting a sequence already in timestamp order returns it unchanged |
| Queries.GetMessages | main.py:144-157 | the answer has one element per message of the conversation, in non-decreasing timestamp order |
| Queries.GetMessagesMembers | main.py:144-157 | a view is in the answer if and only if it is the view of a stored message sent from me to the other user or from the other user to me; `is_deleted` plays no part |
| Queries.ConversationRowsSymmetric | main.py:144-146 | the conversation filter selects the same rows whichever of the two users asks |
| Queries.GetMessagesSymmetric | main.py:144-157 | the answer for (me, other) equals the answer for (other, me) |
| Queries.GetMessagesInSendOrder | main.py:144-157 | when messages are stored in timestamp order, the answer is the conversation's messages in stored (send) order |
| Queries.GetMessagesAfterSend | main.py:144-157 | a message stamped no earlier than every stored one appears last in its own conversation's answer and changes no other conversation |
| Queries.GetMessagesTwoInSendOrder | main.py:144-157 | two messages of one conversation, sent in that order, are listed in that order, each with its own sender id |
| Store.ChatStore.constructor | models.py:5-29 | an empty store satisfies the invariant; the first key of every table is 1 |
| Store.ChatStore.AdvanceClock | models.py:28 | the clock moves forward by the elapsed time and the invariant is kept |
| Store.ChatStore.Signup | main.py:28-36 | a taken username gives 400 "Username already registered" and users are unchanged; otherwise exactly one user is appended, with the next id, the hashed password and the default about text and picture; the invariant is kept |
| Store.ChatStore.AddContact | main.py:59-79 | an unknown name gives 404 "User not found"; an existing edge (me, contact) gives 400 "Contact already added"; in both cases contacts are unchanged. Otherwise exactly the edge (me, contact) is appended; self-contact is allowed; the invariant (including no duplicate edges) is kept |
| Store.ChatStore.SendMessage | main.py:83-99 | an unknown receiver gives 404 "Receiver not found" and messages are unchanged; otherwise exactly one message is appended, from me to the receiver, with the content as given (empty allowed), stamped with the clock and not deleted; the invariant is kept |
| Store.LoginAfterSignup | main.py:119-126 | after a signup, logging in with the same password succeeds (when the verifier accepts the hasher's output), and `read_users_me` for that user shows the new id, the username and the default about text and picture |

## Left out

- Password hashing, password verification and JWT signing live in `auth.py`,
  which is not part of this model. They are the function-valued fields of
  `Credentials.Config`, together with the token lifetime. The token is modelled
  as its payload. Signature and encoding are not modelled.
- `get_current_user` (token decoding, expiry check, user resolution) is also in
  `auth.py`. The handlers take the authenticated user's id `me`, and their
  precondition is that it names a stored user.
- The 401 response's `WWW-Authenticate: Bearer` header is not modelled, only its
  status code and detail.
- Page routes and templates (main.py:101-115), the static mount, the `get_db`
  session plumbing and `create_all` are framework glue.
- `schemas.py` has request and response shapes only; its field names are the
  method parameters. `static/js/chat.js` is browser presentation and polling.
- Concurrency: each handler runs as one atomic step. The race between the
  check and the insert in `signup` and `add_contact` is not modelled.
- `datetime.utcnow` and `DateTime` precision: time is an unbounded natural
  clock in seconds.
- The database engine is configured in `database.py`, which is not part of this
  model. The model assumes autoincrementing integer primary keys that start at 1
  and are never reused, since no row is ever deleted.
- Integer width: ids and timestamps are unbounded naturals; any width limit of
  the database's integer columns is not modelled.
- Password hashing is modelled as a deterministic function of the password; a
  salted hasher's random salt is not modelled. No contract depends on two
  hashes of one password being equal.
- Queries.GetMessages: `order_by` on timestamp alone leaves the order of equal
  timestamps to the database; the model fixes one admissible order (stored order).
- Queries.GetContacts: the query has no `order_by`, so the database decides the
  row order; the model fixes stored (insertion) order, and
  `GetContactsAfterAdd` relies on that order when it says a new entry comes last.
- Queries.GetContacts: the source crashes when an owned edge points at a
  missing user. The model instead requires that every owned edge points at a
  stored user, which the store's foreign-key invariant guarantees.
- Soft delete: no operation sets `is_deleted`, and no query filters on it.
