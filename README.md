# CampusConnect persistence core in Dafny

This project models the persistence logic of the CampusConnect server
(`index.js`). CampusConnect is a campus social network with accounts,
profiles, friend requests, direct messages and abuse reports. Every HTTP
route and socket.io handler of the core is a method of the class
`Server.CampusServer`. Each method checks its input and then reads and
changes five in-memory tables in the same order the handler does. The
tables are the MongoDB collections `user`, `profiles`, `friends`, `messages`
and `signalements`. A sixth field maps each socket.io room name to the
sockets that joined it. A handler that emits an event returns that event
with the set of rooms it targets; nothing is delivered.

Files:

- `wrappers.dfy`: the `Option` type.
- `ids.dfy`: MongoDB object identifiers.
  - `new ObjectId(s)` is `Parse`. It accepts exactly 24 hex digits in either case, and anything else is the exception.
  - `toString()` is the canonical text: 24 lower-case hex digits.
- `seqs.dfy`: the store operations on a table kept in insertion order, which the model takes as the store's natural order.
  - `findOne` is `Find` or `Lookup`, the first match.
  - `find` is `Filter`.
  - `deleteOne` is `DeleteOne` or `RemoveAt` of the first match.
  - `deleteMany` is `Reject`.
  - Also lemmas about unique keys.
- `documents.dfy`: the documents of the five collections.
  - The `$set` patches and the `$addToSet` of interests.
  - The relationship status.
  - `serializeMessage`.
- `queries.dfy`: the filters the handlers build.
  - The two-direction pair match.
  - The account cascade filters.
  - The status listing and its counterpart map.
  - The date sort of a conversation.
- `events.dfy`: the socket.io events and their payloads.
- `server.dfy`: the class `CampusServer` and the lemmas its handlers rely on.

The class invariant `Valid()` has five parts:

- Account ids are unique.
- Each account has exactly one profile, and each profile belongs to an account.
- No profile lists an interest twice: registration starts with `[]` and `$addToSet` adds only what is missing.
- At most one relationship exists per unordered pair of users, in either direction and with any status.
- Message ids are unique.

Every mutating handler preserves `Valid()`. Email uniqueness is not part of
the invariant, because `PUT /user/:id` can `$set` an email another account
already uses.

Inputs the server does not compute are parameters of the methods:

- The `_id` the store generates on insert. An `_id` that is already taken makes the insert fail with 500 and changes nothing.
- The clock (`new Date()`), as an integer instant.
- The bcrypt hash produced at registration.
- `bcrypt.compare`, passed as a function parameter.

A request field that is missing or falsy is the empty string. A 500 answer
stands for an exception the model can name: an id text `new ObjectId`
refuses, or a duplicate `_id`.

The code behaves as follows where one might expect otherwise, and the model
follows the code:

- Deleting an account does not delete the relationships that name it. The `friends` cascade filters on `userId` and `friendId` (`index.js:180-182`), but relationship documents are only written with `senderId` and `receiverId` (`index.js:286-292`). `Queries.CascadeAsWrittenRemovesNothing` proves that the cascade removes nothing, and `Server.CampusServer.DeleteUser` promises `friends == old(friends)`. The account-deletion answer also carries no cascade counts.
- A malformed identifier makes `new ObjectId` throw inside the handler's `try`. The answer is therefore 500, not 400.
- The status listing picks the counterpart by comparing `r.senderId.toString()` with the raw route parameter. For an id written with upper-case hex digits, that comparison never holds, so every record resolves to its sender. The caller can then be listed as their own friend (`Queries.UpperCaseIdListsCaller`). For an id in canonical form the listing is exactly the other parties (`Queries.FriendIdsOfRenderedId`).
- Only the socket handler `send_friend_request` emits `friend_request_received`. The route `POST /friends/user` notifies nobody.

## Model

| member | source | states |
|---|---|---|
| Ids.Parse | index.js:174 | `new ObjectId(s)` succeeds exactly on 24-hex-digit texts; any other text is the exception |
| Ids.ParseRendered | index.js:325 | parsing the `toString()` of an identifier gives back that identifier |
| Ids.RenderParsed | index.js:325 | a parsed identifier renders back to its source text iff that text was already lower-case |
| Ids.ParseIgnoresCase | index.js:174 | two texts that differ only in digit case name the same identifier |
| Seqs.Find | index.js:95 | `findOne`: the index of the first row with the key, and None iff no row has it |
| Seqs.Lookup | index.js:137 | `findOne`: the first row with the key (no earlier row has it), and None iff no row has it |
| Seqs.DeleteOne | index.js:175 | `deleteOne` on a unique key removes exactly the row with that key; the other rows and key uniqueness stay |
| Seqs.Filter | index.js:310-317 | `find`: exactly the rows satisfying the filter, each matching row as often as the table holds it |
| Seqs.FilterConcat | index.js:310-317 | the model's `find` keeps table order: filtering a table split in two is filtering each part, front part first |
| Seqs.Reject | index.js:183-185 | `deleteMany`: the rows left are exactly those not matching the filter, each as often as the table held it |
| Seqs.FilterRejectSplit | index.js:437-444 | `deletedCount` of a `deleteMany` equals the number of matching rows; matched and kept rows make up the table |
| Seqs.RemoveAt | index.js:419-430 | removing one row keeps the others in order and takes exactly that row out of the multiset |
| Seqs.UniqueFilter | index.js:328-330 | a `find` over a table with a unique key returns rows with a unique key |
| Seqs.UniqueReject | index.js:183-185 | `deleteMany` keeps a key unique |
| Documents.ApplyAccountPatch | index.js:158-161 | `$set` on an account overwrites exactly the supplied fields and never the identifier |
| Documents.NewProfile | index.js:106-119 | the registration profile carries the names and sexe given, empty texts, no interests and `isTutor` false |
| Documents.ApplyProfilePatch | index.js:223-226 | `$set` on a profile overwrites exactly the supplied fields, `createdAt` included; owner and interests are kept |
| Documents.AddToSetEach | index.js:217-221 | `$addToSet` with `$each` keeps the existing array as a prefix, yields the union and adds no duplicate |
| Documents.UpdatedProfile | index.js:214-226 | the profile update is the interests union followed by the `$set` of the other given fields |
| Documents.ParseNewStatus | index.js:368-372 | a new status is accepted iff it is "accepted" or "refused", and never pending |
| Documents.RelationshipField | index.js:286-292 | of the user references, a relationship document has only `senderId` and `receiverId`; `userId` and `friendId` find nothing |
| Documents.SerializeMessage | index.js:76-84 | `serializeMessage` renders every reference as canonical text and keeps content and date |
| Documents.SerializeAll | index.js:469 | `messages.map(serializeMessage)`, entry by entry |
| Documents.ReadSerializedMessage | index.js:76-84 | a serialized message reads back iff its three references are identifier texts |
| Documents.SerializeRoundTrip | index.js:76-84 | serializing a message and reading it back gives the stored message |
| Queries.MatchesPairIffKey | index.js:266-277 | the two-direction `$or` matches a record iff its unordered pair is `{a, b}` |
| Queries.FindPair | index.js:266-277 | the first record of the pair in either direction (no earlier record matches), and None iff no record matches |
| Queries.FindPairSymmetric | index.js:266-277 | the pair lookup does not depend on which party is named first |
| Queries.Between | index.js:461-464 | the two-direction message filter selects a message iff its sender and receiver are exactly the pair |
| Queries.Involves | index.js:183-185 | the account cascade on messages selects a message iff the account is its sender or receiver, so every message between that account and anyone |
| Queries.CascadeFilterAsWritten | index.js:180-182 | the `userId`/`friendId` filter of the account cascade selects no relationship document |
| Queries.RelatedWith | index.js:312-315 | the status listing selects a record iff it has the status and the id is one of its two parties |
| Queries.OwnedByOneOf | index.js:329 | `$in` selects a profile iff its owner is listed; it looks only at the owner, and an empty list selects none |
| Queries.CascadeAsWrittenRemovesNothing | index.js:180-182 | the account cascade on `friends` removes no relationship |
| Queries.CascadeAsWrittenKeepsReferences | index.js:180-182 | a relationship naming the deleted account survives that cascade |
| Queries.CounterpartAsWritten | index.js:324-326 | the counterpart is the receiver when the rendered sender equals the parameter, and the sender otherwise |
| Queries.FriendIds | index.js:324-326 | the counterpart map applied to each relation, in order |
| Queries.FriendIdsOfRenderedId | index.js:310-326 | for a canonical id, the counterparts are exactly the other parties of its relationships with that status |
| Queries.UpperCaseIdListsCaller | index.js:324-326 | for an upper-case id, a request the caller sent lists the caller as the counterpart |
| Queries.InsertByDate | index.js:466 | inserting into a date-sorted list keeps it sorted and adds exactly that message |
| Queries.InsertAfterHead | index.js:466 | a message placed after an older head keeps the list sorted and adds exactly that message |
| Queries.SortByDate | index.js:466 | `sort({ createdAt: 1 })` yields a permutation in non-decreasing date order |
| Queries.Conversation | index.js:459-467 | the `find` and `sort` of a conversation: date-sorted, and the same messages as the pair filter, each as often |
| Queries.ConversationExactly | index.js:459-467 | a conversation holds exactly the messages between the pair in either direction, as often as stored, sorted by date |
| Queries.ConversationSymmetric | index.js:459-467 | the model's conversation of a pair (ties in table order) does not depend on which user is named first |
| Queries.ConversationIsStoreAnswer | index.js:459-467 | the model's conversation is sorted by date and a permutation of the pair's messages, one of the answers the store may give |
| Queries.StoreConversationSymmetric | index.js:459-467 | every answer the store may give, with ties in any order, is an answer for the pair named the other way round |
| Queries.BetweenSymmetric | index.js:461-464 | the two-direction message filter selects the same messages for `(a, b)` and `(b, a)` |
| Server.ParseBoth | index.js:269-274 | both request ids parse iff both are identifier texts, each to its own `new ObjectId` |
| Server.CampusServer.Audience | index.js:531 | the sockets an `io.to(...)` emit reaches: exactly those that joined one of the target rooms |
| Server.CampusServer.RegisterUser | index.js:89-129 | 400 iff a field is missing or the email is used; otherwise one account with the hash and one default profile are appended under the new id (201), after which the email is in use, or 500 on a taken `_id`; nothing changes on failure |
| Server.CampusServer.Login | index.js:131-152 | 400 on a missing field, 404 iff no account has the email, 401 iff the password does not match; otherwise the profile of that account |
| Server.CampusServer.UpdateUser | index.js:154-169 | 500 iff the id is not an identifier text, 404 iff no account has it; otherwise only that account is patched, and success is by match |
| Server.CampusServer.DeleteUser | index.js:171-194 | 404 iff the account is absent; otherwise exactly the account, its profile and every message it sent or received are removed, the other accounts and profiles keeping their order; relationships are unchanged and the account is gone for a second attempt |
| Server.CampusServer.UpdateProfile | index.js:214-236 | 500 iff the id is not an identifier text; the owner's profile becomes the updated profile and is answered; an id without a profile changes nothing and answers none |
| Server.CampusServer.SendFriendRequest | index.js:255-301 | 400 iff a field is missing or a record of the pair exists in either direction; otherwise exactly one pending record is appended, one record per pair holds, and the pair is then found in either direction |
| Server.CampusServer.SocketSendFriendRequest | index.js:637-667 | a notice exists iff both ids parse and the pair is free; the pending record is then appended and `friend_request_received` goes to the receiver's room only; otherwise nothing changes |
| Server.CampusServer.InsertRequest | index.js:286-292 | appending the pending record of a free pair keeps one record per pair |
| Server.CampusServer.FriendsByStatus | index.js:304-345 | 400 iff the id is missing, 500 iff it does not parse; otherwise the profiles owned by the counterparts, without repeated owners; for a canonical id exactly the profiles of its friends with that status, and empty when it has none |
| Server.CampusServer.UpdateFriendStatus | index.js:359-406 | 400 iff a field is missing or the status is not accepted/refused, 404 iff no record of the pair; otherwise only that record's status and `updatedAt` change, and both parties then see each other under the new status |
| Server.CampusServer.DeleteFriend | index.js:409-451 | 404 iff no record of the pair, with messages untouched; otherwise that record and exactly the messages between the pair go, the count answered equals those removed, and the conversation is then empty |
| Server.CampusServer.RemovePairRecord | index.js:419-433 | the `deleteOne` removes the pair's record, keeps one record per pair and leaves none for the pair |
| Server.CampusServer.RemovePairMessages | index.js:436-444 | the `deleteMany` leaves exactly the messages not between the pair, answers their number and leaves the conversation empty |
| Server.CampusServer.GetConversation | index.js:456-475 | 500 iff an id does not parse; otherwise the serialized conversation: one entry per message between the pair, each reading back as such a message, dates non-decreasing, none missing |
| Server.CampusServer.SendMessage | index.js:504-538 | 400 iff a field is missing; otherwise exactly one message is appended, the payload carries the request's texts and reads back as the stored message, and the event targets the receiver's and the sender's rooms |
| Server.CampusServer.SocketSendMessage | index.js:610-634 | an event exists iff both ids parse and the `_id` is free; the message is then appended and `receive_message` targets both rooms; otherwise nothing changes |
| Server.CampusServer.StoreMessage | index.js:519 | `insertOne` succeeds iff the `_id` is free, appending exactly the message |
| Server.CampusServer.EditMessage | index.js:543-569 | 400 iff the content is empty, 404 iff no message has the id or the content is unchanged; otherwise only that message's content changes and `message_edited` targets the stored sender and receiver |
| Server.CampusServer.FileReport | index.js:574-590 | 400 iff a field is missing; otherwise exactly one report with the raw texts is appended |
| Server.CampusServer.JoinRoom | index.js:599-607 | the socket joins the room named by the user id; no other room changes and no membership is lost |
| Server.NoneOwnedByEmpty | index.js:319-321 | an empty counterpart list selects no profile, which matches the early empty answer |
| Server.DropPair | index.js:419-433 | removing the pair's record keeps one record per pair and leaves none for the pair |
| Server.DropConversation | index.js:437-444 | the message cascade keeps ids unique, counts the messages removed and leaves no conversation |
| Server.NoPairLeft | index.js:419-433 | with the pair's key gone, no record matches the pair in either direction |
| Server.NoConversationLeft | index.js:437-442 | after the cascade the pair's conversation is empty |
| Server.ConversationPayload | index.js:456-475 | the serialized conversation meets every part of the conversation answer |
| Server.ConversationLength | index.js:459-469 | the serialized conversation has one entry per stored message between the pair |
| Server.ConversationDates | index.js:466-469 | the serialized conversation's timestamps are non-decreasing |
| Server.ReadBackConversation | index.js:469 | each serialized entry reads back as a stored message between the pair |
| Server.CompleteConversation | index.js:459-469 | every stored message between the pair appears in the serialized conversation |
| Server.SentMessageInConversation | index.js:504-519 | a message stored by `/send` appears in its pair's conversation, whichever user is named first |

## Left out

- Express and HTTP wiring, the MongoDB connection setup and `dbReady`, and the SIGINT handler are plumbing.
- The upload route and `/file/:userId` are not modelled, nor is `multer`. They are filesystem renames, `sendFile`, and file names built from `Date.now()`.
- `GET /profiles/user/:id` and `GET /profiles/users` are not part of this model.
- Socket.io delivery, ordering, deduplication, connect and disconnect are not modelled. A handler returns the event it would emit and the rooms it targets. The room socket.io gives each socket automatically is not modelled either.
- Each handler runs atomically. The race between `findOne` and `insertOne` in friend-request creation, and any other interleaving of concurrent requests, is not modelled. The one-record-per-pair invariant holds only under that assumption.
- Store and network failures are not modelled. The only 500 paths are a refused identifier text and a duplicate generated `_id`.
- The two `new Date()` calls of one handler are a single `now` instant.
- Dates are integer instants, not ISO-8601 text.
- Seqs.Find / Seqs.Lookup / Seqs.Filter: a query without `sort` returns rows in insertion order. MongoDB leaves that order unspecified; a collection scan gives insertion order in practice. The first account `Login` checks among several sharing an email, and the order of `FriendsByStatus`'s answer, rest on this choice.
- Queries.SortByDate: messages with equal `createdAt` (two sends in the same millisecond) are kept in table order. MongoDB leaves their order unspecified; `Queries.StoreConversation` states every order the store may return, and `Queries.ConversationSymmetric` is sequence equality only under the model's tie order.
- Server.CampusServer.UpdateUser: the `$set` body is limited to `email`, `password` and `createdAt`. Arbitrary extra fields and an `_id` in the body are not modelled. The password given here is stored as sent, unhashed, as in the code.
- Server.CampusServer.UpdateProfile: the `$set` body is limited to the profile's fields other than `userId`: the names, `sexe`, `bio`, `filiere`, `niveau`, `isTutor`, `campus`, `photoUrl` and `createdAt`. Extra fields, `userId` and `_id` in the body are not modelled.
- Text fields of a request are strings, and `isTutor` in a profile update is a boolean. Other JSON types in those places are not modelled. Neither are the inputs the driver's `ObjectId` constructor accepts besides text, such as byte buffers or numbers.
- A socket event without ids, for which the driver would generate fresh identifiers, is not modelled.
- The bcrypt cost factor and the hash algorithm are not modelled. The hash is a parameter and `compare` is a function parameter.
- The duplicate route `/conversation/:userId1/:userId2` (`index.js:480-499`) behaves like `/messages/conversation/...` and is modelled once, by `GetConversation`.
- Server.CampusServer.Login: when the account has no profile the code answers 200 with a null profile. Under the class invariant every account has a profile, so that case does not arise here.
- Human-readable response messages and the `toString()` rendering of `userId` in answered profiles are not modelled. Identifiers are held in canonical text already.
- The `_id` that `insertOne` gives each relationship document is not modelled; no handler reads it.
- HTTP status codes are named by the answer kinds `Ok`, `Created`, `BadRequest`, `Unauthorized`, `NotFound` and `ServerError` (200, 201, 400, 401, 404, 500); the response bodies are not modelled.
