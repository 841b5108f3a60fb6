/**
 * The CampusConnect server: the five collections as in-memory tables, the
 * socket.io rooms as a map from room name to the sockets that joined it, and
 * every HTTP route and socket handler of the core as a method that checks its
 * input, then reads and changes the tables in the order the handler does.
 *
 * Each handler runs atomically here. Identifiers the store would generate
 * (`insertedId`) and the clock (`new Date()`) are parameters. A `500` answer
 * stands for the exceptions the model can name: a text `new ObjectId` refuses,
 * and an insert whose generated `_id` is already taken.
 */
module Server {
  import opened Wrappers
  import opened Ids
  import opened Seqs
  import opened Documents
  import opened Queries
  import opened Events

  datatype HttpStatus = Ok | Created | BadRequest | Unauthorized | NotFound | ServerError

  /** A live connection. */
  type SocketId = nat

  /** Both identifiers of a request, or None when `new ObjectId` throws on either. */
  function ParseBoth(a: string, b: string): (r: Option<(ObjectId, ObjectId)>)
    ensures r.Some? <==> IsObjectIdText(a) && IsObjectIdText(b)
    ensures r.Some? ==> Parse(a) == Some(r.value.0) && Parse(b) == Some(r.value.1)
  {
    match (Parse(a), Parse(b))
    case (Some(x), Some(y)) => Some((x, y))
    case _ => None
  }

  /** At most one relationship for any unordered pair of users, in either direction. */
  ghost predicate OnePerPair(fs: seq<Relationship>) {
    Unique(fs, PairKey)
  }

  /** Account ids are unique, and accounts and profiles are in one-to-one correspondence by owner. */
  ghost predicate AccountsLinked(users: seq<Account>, profiles: seq<Profile>) {
    && Unique(users, AccountId)
    && Unique(profiles, ProfileOwner)
    && Keys(profiles, ProfileOwner) == Keys(users, AccountId)
  }

  /** `$addToSet` keeps each profile's `interests` free of duplicates. */
  ghost predicate InterestsAreSets(profiles: seq<Profile>) {
    forall p :: p in profiles ==> NoDuplicates(p.interests)
  }

  /** The sockets that joined room `name`. */
  function Members(rooms: map<string, set<SocketId>>, name: string): set<SocketId> {
    if name in rooms then rooms[name] else {}
  }

  class CampusServer {
    var users: seq<Account>
    var profiles: seq<Profile>
    var friends: seq<Relationship>
    var messages: seq<Message>
    var signalements: seq<Report>
    var rooms: map<string, set<SocketId>>

    /**
     * Account ids are unique; each account has exactly one profile and each
     * profile belongs to an account; no profile lists an interest twice; no
     * two relationships share an unordered pair; message ids are unique.
     */
    ghost predicate Valid()
      reads this
    {
      && AccountsLinked(users, profiles)
      && InterestsAreSets(profiles)
      && OnePerPair(friends)
      && Unique(messages, MessageId)
    }

    constructor ()
      ensures Valid()
      ensures users == [] && profiles == [] && friends == [] && messages == [] && signalements == []
      ensures rooms == map[]
    {
      users, profiles, friends, messages, signalements := [], [], [], [], [];
      rooms := map[];
    }

    /** The sockets an event addressed to `targets` reaches; a room nobody joined reaches none. */
    function Audience(targets: set<string>): (r: set<SocketId>)
      reads this
      ensures forall s :: s in r <==> exists t :: t in targets && s in Members(rooms, t)
    {
      set t, s | t in targets && t in rooms && s in rooms[t] :: s
    }

    // ===================== accounts and profiles =====================

    /** `POST /register/user`. `hashed` is what `bcrypt.hash(password, 10)` returned. */
    method RegisterUser(firstName: string, lastName: string, email: string, password: string, sexe: string,
                        hashed: string, newId: ObjectId, now: int)
      returns (status: HttpStatus, userId: Option<string>)
      requires Valid()
      modifies this`users, this`profiles
      ensures Valid()
      ensures status == BadRequest <==>
        firstName == "" || lastName == "" || email == "" || password == "" || sexe == "" ||
        email in Keys(old(users), AccountEmail)
      ensures status == ServerError <==>
        status != BadRequest && newId in Keys(old(users), AccountId)
      ensures status in {BadRequest, ServerError, Created}
      ensures status != Created ==> users == old(users) && profiles == old(profiles) && userId == None
      ensures status == Created ==>
        && users == old(users) + [Account(newId, email, hashed, now)]
        && profiles == old(profiles) + [NewProfile(newId, firstName, lastName, sexe, now)]
        && userId == Some(newId)
      ensures status == Created ==> email in Keys(users, AccountEmail) && newId in Keys(users, AccountId)
    {
      if firstName == "" || lastName == "" || email == "" || password == "" || sexe == "" {
        return BadRequest, None;
      }
      if Find(users, AccountEmail, email).Some? {
        return BadRequest, None;
      }
      if Find(users, AccountId, newId).Some? {
        // insertOne fails on the duplicate `_id`
        return ServerError, None;
      }
      UniqueAppend(users, Account(newId, email, hashed, now), AccountId);
      UniqueAppend(profiles, NewProfile(newId, firstName, lastName, sexe, now), ProfileOwner);
      users := users + [Account(newId, email, hashed, now)];
      profiles := profiles + [NewProfile(newId, firstName, lastName, sexe, now)];
      assert users[|users| - 1] == Account(newId, email, hashed, now);
      status, userId := Created, Some(newId);
    }

    /** `POST /login/user`. `compare` stands for `bcrypt.compare`. */
    method Login(email: string, password: string, compare: (string, string) -> bool)
      returns (status: HttpStatus, profile: Option<Profile>)
      requires Valid()
      ensures status == BadRequest <==> email == "" || password == ""
      ensures status == NotFound <==>
        email != "" && password != "" && Lookup(users, AccountEmail, email).None?
      ensures status == Unauthorized <==>
        email != "" && password != "" && Lookup(users, AccountEmail, email).Some? &&
        !compare(password, Lookup(users, AccountEmail, email).value.password)
      ensures status in {BadRequest, NotFound, Unauthorized, Ok}
      ensures status != Ok ==> profile == None
      ensures status == Ok ==>
        && profile.Some? && profile.value in profiles
        && profile.value.userId == Lookup(users, AccountEmail, email).value.id
    {
      if email == "" || password == "" {
        return BadRequest, None;
      }
      var user := Lookup(users, AccountEmail, email);
      if user.None? {
        return NotFound, None;
      }
      if !compare(password, user.value.password) {
        return Unauthorized, None;
      }
      assert user.value.id in Keys(users, AccountId) by {
        var k :| 0 <= k < |users| && users[k] == user.value;
      }
      profile := Lookup(profiles, ProfileOwner, user.value.id);
      status := Ok;
    }

    /** `PUT /user/:id`: `$set` of the body on the account; success is by match, not by change. */
    method UpdateUser(id: string, patch: AccountPatch) returns (status: HttpStatus)
      requires Valid()
      modifies this`users
      ensures Valid()
      ensures status == ServerError <==> !IsObjectIdText(id)
      ensures status == NotFound <==>
        IsObjectIdText(id) && Parse(id).value !in Keys(old(users), AccountId)
      ensures status in {ServerError, NotFound, Ok}
      ensures status != Ok ==> users == old(users)
      ensures status == Ok ==>
        var k := Find(old(users), AccountId, Parse(id).value).value;
        users == old(users)[k := ApplyAccountPatch(old(users)[k], patch)]
    {
      var o := Parse(id);
      if o.None? {
        return ServerError;
      }
      var k := Find(users, AccountId, o.value);
      if k.None? {
        return NotFound;
      }
      UniqueUpdate(users, k.value, ApplyAccountPatch(users[k.value], patch), AccountId);
      users := users[k.value := ApplyAccountPatch(users[k.value], patch)];
      status := Ok;
    }

    /**
     * `DELETE /delete/user/:id`: the account, its profile and every message it
     * sent or received are removed. The relationship cascade filters on the
     * fields `userId` and `friendId`, which relationship documents do not
     * have, so relationships are left as they were.
     */
    method DeleteUser(id: string) returns (status: HttpStatus)
      requires Valid()
      modifies this`users, this`profiles, this`friends, this`messages
      ensures Valid()
      ensures status == ServerError <==> !IsObjectIdText(id)
      ensures status == NotFound <==>
        IsObjectIdText(id) && Parse(id).value !in Keys(old(users), AccountId)
      ensures status in {ServerError, NotFound, Ok}
      ensures status != Ok ==>
        users == old(users) && profiles == old(profiles) && friends == old(friends) && messages == old(messages)
      ensures status == Ok ==>
        var o := Parse(id).value;
        && (forall a :: a in users <==> a in old(users) && a.id != o)
        && (forall p :: p in profiles <==> p in old(profiles) && p.userId != o)
        && |users| == |old(users)| - 1 && |profiles| == |old(profiles)| - 1
        && users == RemoveAt(old(users), Find(old(users), AccountId, o).value)
        && profiles == RemoveAt(old(profiles), Find(old(profiles), ProfileOwner, o).value)
        && o !in Keys(users, AccountId)
        && messages == Reject(old(messages), Involves(o))
        && friends == old(friends)
    {
      var o := Parse(id);
      if o.None? {
        return ServerError;
      }
      var oid := o.value;
      if Find(users, AccountId, oid).None? {
        return NotFound;
      }
      users := DeleteOne(users, AccountId, oid);
      profiles := DeleteOne(profiles, ProfileOwner, oid);
      CascadeAsWrittenRemovesNothing(friends, oid);
      friends := Reject(friends, CascadeFilterAsWritten(oid));
      messages := Reject(messages, Involves(oid));
      UniqueReject(old(messages), Involves(oid), MessageId);
      status := Ok;
    }

    /**
     * `PUT /profiles/user/:id`: `interests`, when given, are added by
     * `$addToSet`, then the other fields are `$set`; the answer carries the
     * profile read back, or none when no profile has that owner.
     */
    method UpdateProfile(id: string, interests: Option<seq<string>>, patch: ProfilePatch)
      returns (status: HttpStatus, profile: Option<Profile>)
      requires Valid()
      modifies this`profiles
      ensures Valid()
      ensures status == ServerError <==> !IsObjectIdText(id)
      ensures status in {ServerError, Ok}
      ensures status == ServerError ==> profiles == old(profiles) && profile == None
      ensures status == Ok && Parse(id).value !in Keys(old(profiles), ProfileOwner) ==>
        profiles == old(profiles) && profile == None
      ensures status == Ok && Parse(id).value in Keys(old(profiles), ProfileOwner) ==>
        var j := Find(old(profiles), ProfileOwner, Parse(id).value).value;
        && profiles == old(profiles)[j := UpdatedProfile(old(profiles)[j], interests, patch)]
        && profile == Some(profiles[j])
    {
      var o := Parse(id);
      if o.None? {
        return ServerError, None;
      }
      var j := Find(profiles, ProfileOwner, o.value);
      if j.Some? {
        var p := profiles[j.value];
        if interests.Some? {
          // the `$addToSet` update
          p := p.(interests := AddToSetEach(p.interests, interests.value));
        }
        // the `$set` update
        p := ApplyProfilePatch(p, patch);
        UniqueUpdate(profiles, j.value, p, ProfileOwner);
        profiles := profiles[j.value := p];
        profile := Some(p);
      } else {
        profile := None;
      }
      status := Ok;
    }

    // ===================== relationships =====================

    /**
     * `POST /friends/user`: a `pending` request is inserted unless a
     * relationship of the pair exists in either direction, whatever its status.
     */
    method SendFriendRequest(senderId: string, receiverId: string, now: int) returns (status: HttpStatus)
      requires Valid()
      modifies this`friends
      ensures Valid()
      ensures status == BadRequest <==>
        senderId == "" || receiverId == "" ||
        (ParseBoth(senderId, receiverId).Some? &&
         FindPair(old(friends), ParseBoth(senderId, receiverId).value.0, ParseBoth(senderId, receiverId).value.1).Some?)
      ensures status == ServerError <==>
        senderId != "" && receiverId != "" && ParseBoth(senderId, receiverId).None?
      ensures status in {BadRequest, ServerError, Created}
      ensures status != Created ==> friends == old(friends)
      ensures status == Created ==>
        var (a, b) := ParseBoth(senderId, receiverId).value;
        && friends == old(friends) + [Relationship(a, b, Pending, now, now)]
        && FindPair(friends, b, a).Some?
    {
      if senderId == "" || receiverId == "" {
        return BadRequest;
      }
      var ids := ParseBoth(senderId, receiverId);
      if ids.None? {
        return ServerError;
      }
      var (a, b) := ids.value;
      if FindPair(friends, a, b).Some? {
        return BadRequest;
      }
      InsertRequest(a, b, now);
      status := Created;
    }

    /**
     * `send_friend_request` on a socket: the same check and insert without
     * the presence check of the route; a duplicate or an unparsable id is
     * dropped silently, and a new request is announced to the receiver's room
     * only.
     */
    method SocketSendFriendRequest(senderId: string, receiverId: string, now: int) returns (notice: Option<Event>)
      requires Valid()
      modifies this`friends
      ensures Valid()
      ensures notice.Some? <==>
        ParseBoth(senderId, receiverId).Some? &&
        FindPair(old(friends), ParseBoth(senderId, receiverId).value.0, ParseBoth(senderId, receiverId).value.1).None?
      ensures notice.None? ==> friends == old(friends)
      ensures notice.Some? ==>
        var (a, b) := ParseBoth(senderId, receiverId).value;
        && friends == old(friends) + [Relationship(a, b, Pending, now, now)]
        && notice.value == Event(FriendRequestReceived, {receiverId}, FriendRequestNotice(senderId))
    {
      var ids := ParseBoth(senderId, receiverId);
      if ids.None? {
        return None;
      }
      var (a, b) := ids.value;
      if FindPair(friends, a, b).Some? {
        return None;
      }
      InsertRequest(a, b, now);
      notice := Some(Event(FriendRequestReceived, {receiverId}, FriendRequestNotice(senderId)));
    }

    /** The insert both request handlers share, once the pair is known to be free. */
    method InsertRequest(a: ObjectId, b: ObjectId, now: int)
      requires Valid() && FindPair(friends, a, b).None?
      modifies this`friends
      ensures Valid()
      ensures friends == old(friends) + [Relationship(a, b, Pending, now, now)]
      ensures FindPair(friends, a, b).Some? && FindPair(friends, b, a).Some?
    {
      var r := Relationship(a, b, Pending, now, now);
      forall i | 0 <= i < |friends| ensures PairKey(friends[i]) != PairKey(r) {
        MatchesPairIffKey(friends[i], a, b);
      }
      UniqueAppend(friends, r, PairKey);
      friends := friends + [r];
      FindPairSymmetric(friends, a, b);
      assert MatchesPair(friends[|friends| - 1], a, b);
    }

    /**
     * `GET /friends/{accepted|refused|pending}/user/:id`: the profiles of the
     * counterparts of every relationship of `id` with the given status, in
     * profile-table order; an id with no such relationship gets an empty list.
     */
    method FriendsByStatus(id: string, st: Status) returns (status: HttpStatus, result: seq<Profile>)
      requires Valid()
      ensures status == BadRequest <==> id == ""
      ensures status == ServerError <==> id != "" && !IsObjectIdText(id)
      ensures status in {BadRequest, ServerError, Ok}
      ensures status != Ok ==> result == []
      ensures status == Ok ==>
        var o := Parse(id).value;
        result == Filter(profiles, OwnedByOneOf(FriendIds(Filter(friends, RelatedWith(o, st)), id)))
      ensures status == Ok ==> Unique(result, ProfileOwner)
      ensures status == Ok && IsCanonical(id) ==>
        forall p :: p in result <==> p in profiles && FriendVia(friends, Parse(id).value, st, p.userId)
    {
      if id == "" {
        return BadRequest, [];
      }
      var o := Parse(id);
      if o.None? {
        return ServerError, [];
      }
      var relations := Filter(friends, RelatedWith(o.value, st));
      var friendIds := FriendIds(relations, id);
      if |relations| == 0 {
        result := [];
        assert result == Filter(profiles, OwnedByOneOf(friendIds)) by {
          NoneOwnedByEmpty(profiles, friendIds);
        }
      } else {
        result := Filter(profiles, OwnedByOneOf(friendIds));
      }
      UniqueFilter(profiles, OwnedByOneOf(friendIds), ProfileOwner);
      if IsCanonical(id) {
        RenderParsed(id);
        FriendIdsOfRenderedId(friends, o.value, st);
      }
      status := Ok;
    }

    /**
     * `PUT /friends/user`: sets `status` and `updatedAt` on the relationship
     * of the pair, in either direction; answering by match, so setting the
     * status a record already has still succeeds.
     */
    method UpdateFriendStatus(senderId: string, receiverId: string, newStatus: string, now: int)
      returns (status: HttpStatus)
      requires Valid()
      modifies this`friends
      ensures Valid()
      ensures status == BadRequest <==>
        senderId == "" || receiverId == "" || newStatus == "" || ParseNewStatus(newStatus).None?
      ensures status == ServerError <==>
        status != BadRequest && ParseBoth(senderId, receiverId).None?
      ensures status == NotFound <==>
        status != BadRequest && ParseBoth(senderId, receiverId).Some? &&
        FindPair(old(friends), ParseBoth(senderId, receiverId).value.0, ParseBoth(senderId, receiverId).value.1).None?
      ensures status in {BadRequest, ServerError, NotFound, Ok}
      ensures status != Ok ==> friends == old(friends)
      ensures status == Ok ==>
        var (a, b) := ParseBoth(senderId, receiverId).value;
        var st := ParseNewStatus(newStatus).value;
        var k := FindPair(old(friends), a, b).value;
        && friends == old(friends)[k := old(friends)[k].(status := st, updatedAt := now)]
        && FriendVia(friends, a, st, b) && FriendVia(friends, b, st, a)
    {
      if senderId == "" || receiverId == "" || newStatus == "" {
        return BadRequest;
      }
      var st := ParseNewStatus(newStatus);
      if st.None? {
        return BadRequest;
      }
      var ids := ParseBoth(senderId, receiverId);
      if ids.None? {
        return ServerError;
      }
      var (a, b) := ids.value;
      var k := FindPair(friends, a, b);
      if k.None? {
        return NotFound;
      }
      var r := friends[k.value].(status := st.value, updatedAt := now);
      UniqueUpdate(friends, k.value, r, PairKey);
      friends := friends[k.value := r];
      assert friends[k.value] in friends;
      status := Ok;
    }

    /**
     * `DELETE /friends/user`: removes the relationship of the pair (either
     * direction) and then every message between the two users, answering
     * with the number of messages removed.
     */
    method DeleteFriend(senderId: string, receiverId: string) returns (status: HttpStatus, deletedMessages: nat)
      requires Valid()
      modifies this`friends, this`messages
      ensures Valid()
      ensures status == BadRequest <==> senderId == "" || receiverId == ""
      ensures status == ServerError <==>
        status != BadRequest && ParseBoth(senderId, receiverId).None?
      ensures status == NotFound <==>
        status != BadRequest && ParseBoth(senderId, receiverId).Some? &&
        FindPair(old(friends), ParseBoth(senderId, receiverId).value.0, ParseBoth(senderId, receiverId).value.1).None?
      ensures status in {BadRequest, ServerError, NotFound, Ok}
      ensures status != Ok ==> friends == old(friends) && messages == old(messages) && deletedMessages == 0
      ensures status == Ok ==>
        var a, b := ParseBoth(senderId, receiverId).value.0, ParseBoth(senderId, receiverId).value.1;
        && friends == RemoveAt(old(friends), FindPair(old(friends), a, b).value)
        && FindPair(friends, a, b).None?
        && messages == Reject(old(messages), Between(a, b))
        && deletedMessages == |Filter(old(messages), Between(a, b))| == |old(messages)| - |messages|
        && Conversation(messages, a, b) == []
    {
      if senderId == "" || receiverId == "" {
        return BadRequest, 0;
      }
      var ids := ParseBoth(senderId, receiverId);
      if ids.None? {
        return ServerError, 0;
      }
      var a, b := ids.value.0, ids.value.1;
      var k := FindPair(friends, a, b);
      if k.None? {
        return NotFound, 0;
      }
      RemovePairRecord(a, b);
      deletedMessages := RemovePairMessages(a, b);
      status := Ok;
    }

    /** The `deleteOne` of `DeleteFriend`: the pair's record goes, one record per pair still holds. */
    method RemovePairRecord(a: ObjectId, b: ObjectId)
      requires Valid() && FindPair(friends, a, b).Some?
      modifies this`friends
      ensures Valid()
      ensures friends == RemoveAt(old(friends), FindPair(old(friends), a, b).value)
      ensures FindPair(friends, a, b).None?
    {
      var k := FindPair(friends, a, b).value;
      DropPair(friends, a, b);
      friends := RemoveAt(friends, k);
    }

    /** The `deleteMany` of `DeleteFriend`: every message between the pair goes, and their number is answered. */
    method RemovePairMessages(a: ObjectId, b: ObjectId) returns (deleted: nat)
      requires Valid()
      modifies this`messages
      ensures Valid()
      ensures messages == Reject(old(messages), Between(a, b))
      ensures deleted == |Filter(old(messages), Between(a, b))| == |old(messages)| - |messages|
      ensures Conversation(messages, a, b) == []
    {
      DropConversation(messages, a, b);
      var kept := Reject(messages, Between(a, b));
      deleted := |messages| - |kept|;
      messages := kept;
      assert AccountsLinked(users, profiles) && OnePerPair(friends);
    }

    // ===================== messages =====================

    /** `GET /messages/conversation/:senderId/:receiverId` (and its duplicate `/conversation/...`). */
    method GetConversation(userA: string, userB: string) returns (status: HttpStatus, result: seq<SerializedMessage>)
      ensures status == ServerError <==> ParseBoth(userA, userB).None?
      ensures status in {ServerError, Ok}
      ensures status == ServerError ==> result == []
      ensures status == Ok ==>
        var (a, b) := ParseBoth(userA, userB).value;
        && result == SerializeAll(Conversation(messages, a, b))
        && ConversationAnswer(messages, a, b, result)
    {
      var ids := ParseBoth(userA, userB);
      if ids.None? {
        return ServerError, [];
      }
      var (a, b) := ids.value;
      ConversationPayload(messages, a, b);
      result := SerializeAll(Conversation(messages, a, b));
      status := Ok;
    }

    /**
     * `POST /send`: stores the message, answers with a payload built from
     * the request's own strings, and emits `receive_message` to the rooms of
     * the receiver and of the sender.
     */
    method SendMessage(senderId: string, receiverId: string, content: string, newId: ObjectId, now: int)
      returns (status: HttpStatus, payload: Option<SerializedMessage>, event: Option<Event>)
      requires Valid()
      modifies this`messages
      ensures Valid()
      ensures status == BadRequest <==> senderId == "" || receiverId == "" || content == ""
      ensures status == ServerError <==>
        status != BadRequest && (ParseBoth(senderId, receiverId).None? || newId in Keys(old(messages), MessageId))
      ensures status in {BadRequest, ServerError, Ok}
      ensures status != Ok ==> messages == old(messages) && payload == None && event == None
      ensures status == Ok ==>
        var (a, b) := ParseBoth(senderId, receiverId).value;
        && messages == old(messages) + [Message(newId, a, b, content, now)]
        && payload == Some(SerializedMessage(newId, senderId, receiverId, content, now))
        && ReadSerializedMessage(payload.value) == Some(Message(newId, a, b, content, now))
        && event == Some(Event(ReceiveMessage, {receiverId, senderId}, MessagePayload(payload.value)))
    {
      if senderId == "" || receiverId == "" || content == "" {
        return BadRequest, None, None;
      }
      var ids := ParseBoth(senderId, receiverId);
      if ids.None? {
        return ServerError, None, None;
      }
      var (a, b) := ids.value;
      var ok := StoreMessage(Message(newId, a, b, content, now));
      if !ok {
        return ServerError, None, None;
      }
      ParseRendered(newId);
      var p := SerializedMessage(newId, senderId, receiverId, content, now);
      status, payload := Ok, Some(p);
      event := Some(Event(ReceiveMessage, {receiverId, senderId}, MessagePayload(p)));
    }

    /**
     * `send_message` on a socket: no presence check on the fields; a message
     * whose ids `new ObjectId` refuses, or whose `_id` is taken, is dropped
     * silently; otherwise it is stored and `receive_message` is emitted to
     * the receiver's and the sender's rooms.
     */
    method SocketSendMessage(senderId: string, receiverId: string, content: string, newId: ObjectId, now: int)
      returns (event: Option<Event>)
      requires Valid()
      modifies this`messages
      ensures Valid()
      ensures event.Some? <==> ParseBoth(senderId, receiverId).Some? && newId !in Keys(old(messages), MessageId)
      ensures event.None? ==> messages == old(messages)
      ensures event.Some? ==>
        var (a, b) := ParseBoth(senderId, receiverId).value;
        && messages == old(messages) + [Message(newId, a, b, content, now)]
        && event.value == Event(ReceiveMessage, {receiverId, senderId},
                                MessagePayload(SerializedMessage(newId, senderId, receiverId, content, now)))
    {
      var ids := ParseBoth(senderId, receiverId);
      if ids.None? {
        return None;
      }
      var (a, b) := ids.value;
      var ok := StoreMessage(Message(newId, a, b, content, now));
      if !ok {
        return None;
      }
      event := Some(Event(ReceiveMessage, {receiverId, senderId},
                          MessagePayload(SerializedMessage(newId, senderId, receiverId, content, now))));
    }

    /** `insertOne` on `messages`: refused when the generated `_id` is already taken. */
    method StoreMessage(m: Message) returns (ok: bool)
      requires Valid()
      modifies this`messages
      ensures Valid()
      ensures ok <==> m.id !in Keys(old(messages), MessageId)
      ensures ok ==> messages == old(messages) + [m]
      ensures !ok ==> messages == old(messages)
    {
      if Find(messages, MessageId, m.id).Some? {
        return false;
      }
      UniqueAppend(messages, m, MessageId);
      messages := messages + [m];
      ok := true;
    }

    /**
     * `PUT /edit/:messageId`: replaces the content of the message with that
     * id. An unknown id and an unchanged content both answer 404. The
     * `message_edited` event goes to the rooms of the stored sender and
     * receiver, not to ids the caller supplies.
     */
    method EditMessage(messageId: string, content: string) returns (status: HttpStatus, event: Option<Event>)
      requires Valid()
      modifies this`messages
      ensures Valid()
      ensures status == BadRequest <==> content == ""
      ensures status == ServerError <==> content != "" && !IsObjectIdText(messageId)
      ensures status == NotFound <==>
        content != "" && IsObjectIdText(messageId) &&
        (Lookup(old(messages), MessageId, Parse(messageId).value).None? ||
         Lookup(old(messages), MessageId, Parse(messageId).value).value.content == content)
      ensures status in {BadRequest, ServerError, NotFound, Ok}
      ensures status != Ok ==> messages == old(messages) && event == None
      ensures status == Ok ==>
        var k := Find(old(messages), MessageId, Parse(messageId).value).value;
        var stored := old(messages)[k];
        && messages == old(messages)[k := stored.(content := content)]
        && event == Some(Event(MessageEdited, {stored.receiverId, stored.senderId},
                               MessagePayload(SerializeMessage(stored.(content := content)))))
    {
      if content == "" {
        return BadRequest, None;
      }
      var o := Parse(messageId);
      if o.None? {
        return ServerError, None;
      }
      var k := Find(messages, MessageId, o.value);
      if k.None? || messages[k.value].content == content {
        // modifiedCount is 0
        return NotFound, None;
      }
      var updated := messages[k.value].(content := content);
      UniqueUpdate(messages, k.value, updated, MessageId);
      messages := messages[k.value := updated];
      var p := SerializeMessage(updated);
      status, event := Ok, Some(Event(MessageEdited, {p.receiverId, p.senderId}, MessagePayload(p)));
    }

    // ===================== reports and rooms =====================

    /** `POST /signalement`: the report is appended with the ids as raw strings. */
    method FileReport(reporterId: string, reportedId: string, reason: string, now: int) returns (status: HttpStatus)
      modifies this`signalements
      ensures status == BadRequest <==> reporterId == "" || reportedId == "" || reason == ""
      ensures status in {BadRequest, Created}
      ensures status == BadRequest ==> signalements == old(signalements)
      ensures status == Created ==> signalements == old(signalements) + [Report(reporterId, reportedId, reason, now)]
    {
      if reporterId == "" || reportedId == "" || reason == "" {
        return BadRequest;
      }
      signalements := signalements + [Report(reporterId, reportedId, reason, now)];
      status := Created;
    }

    /**
     * `join_chat` and `join_notifications`: both put the socket in the room
     * named by the user id it sends; no other room changes.
     */
    method JoinRoom(socket: SocketId, userId: string)
      modifies this`rooms
      ensures rooms == old(rooms)[userId := Members(old(rooms), userId) + {socket}]
      ensures socket in Audience({userId})
      ensures forall t :: t != userId ==> Members(rooms, t) == Members(old(rooms), t)
      ensures forall t :: Members(old(rooms), t) <= Members(rooms, t)
    {
      rooms := rooms[userId := Members(rooms, userId) + {socket}];
      assert socket in rooms[userId];
    }
  }

  // ===================== facts the handlers rely on =====================

  /** An empty `$in` list selects no profile. */
  lemma NoneOwnedByEmpty(ps: seq<Profile>, ids: seq<ObjectId>)
    requires |ids| == 0
    ensures Filter(ps, OwnedByOneOf(ids)) == []
  {
    FilterNone(ps, OwnedByOneOf(ids));
  }

  /** Removing the pair's record keeps one record per pair and leaves none for this pair. */
  lemma DropPair(fs: seq<Relationship>, a: ObjectId, b: ObjectId)
    requires OnePerPair(fs) && FindPair(fs, a, b).Some?
    ensures OnePerPair(RemoveAt(fs, FindPair(fs, a, b).value))
    ensures FindPair(RemoveAt(fs, FindPair(fs, a, b).value), a, b).None?
  {
    var k := FindPair(fs, a, b).value;
    RemoveUniqueRow(fs, k, PairKey);
    MatchesPairIffKey(fs[k], a, b);
    NoPairLeft(RemoveAt(fs, k), a, b);
  }

  /** The message cascade of a relationship deletion: ids stay unique, the count adds up, no conversation is left. */
  lemma DropConversation(ms: seq<Message>, a: ObjectId, b: ObjectId)
    requires Unique(ms, MessageId)
    ensures Unique(Reject(ms, Between(a, b)), MessageId)
    ensures |Filter(ms, Between(a, b))| == |ms| - |Reject(ms, Between(a, b))|
    ensures Conversation(Reject(ms, Between(a, b)), a, b) == []
  {
    FilterRejectSplit(ms, Between(a, b));
    UniqueReject(ms, Between(a, b), MessageId);
    NoConversationLeft(ms, a, b);
  }

  /** Once the pair's only record is gone, no record of the pair remains. */
  lemma NoPairLeft(fs: seq<Relationship>, a: ObjectId, b: ObjectId)
    requires {a, b} !in Keys(fs, PairKey)
    ensures FindPair(fs, a, b).None?
  {
    forall i | 0 <= i < |fs| ensures !MatchesPair(fs[i], a, b) {
      MatchesPairIffKey(fs[i], a, b);
      assert PairKey(fs[i]) in Keys(fs, PairKey);
    }
  }

  /** After the cascade of a relationship deletion, the pair has no conversation left. */
  lemma NoConversationLeft(ms: seq<Message>, a: ObjectId, b: ObjectId)
    ensures Conversation(Reject(ms, Between(a, b)), a, b) == []
  {
    var rest := Reject(ms, Between(a, b));
    assert forall i :: 0 <= i < |rest| ==> !Between(a, b)(rest[i]) by {
      forall i | 0 <= i < |rest| ensures !Between(a, b)(rest[i]) {
        assert rest[i] in rest;
      }
    }
    FilterNone(rest, Between(a, b));
  }

  /**
   * What a conversation answer promises: one entry per stored message between
   * the two users, each reading back as such a message, dates non-decreasing.
   */
  ghost predicate ConversationAnswer(ms: seq<Message>, a: ObjectId, b: ObjectId, result: seq<SerializedMessage>) {
    && |result| == |Filter(ms, Between(a, b))|
    && (forall i, j :: 0 <= i < j < |result| ==> result[i].timestamp <= result[j].timestamp)
    && (forall i :: 0 <= i < |result| ==>
          ReadSerializedMessage(result[i]).Some? &&
          var m := ReadSerializedMessage(result[i]).value;
          m in ms && PairOr(m.senderId, m.receiverId, a, b))
    && (forall m :: m in ms && PairOr(m.senderId, m.receiverId, a, b) ==> SerializeMessage(m) in result)
  }

  lemma ConversationPayload(ms: seq<Message>, a: ObjectId, b: ObjectId)
    ensures ConversationAnswer(ms, a, b, SerializeAll(Conversation(ms, a, b)))
  {
    ConversationLength(ms, a, b);
    ConversationDates(ms, a, b);
    ReadBackConversation(ms, a, b);
    CompleteConversation(ms, a, b);
  }

  lemma ConversationLength(ms: seq<Message>, a: ObjectId, b: ObjectId)
    ensures |SerializeAll(Conversation(ms, a, b))| == |Filter(ms, Between(a, b))|
  {
    var c := Conversation(ms, a, b);
    ConversationExactly(ms, a, b);
    calc {
      |SerializeAll(c)|;
      |c|;
      |multiset(c)|;
      |multiset(Filter(ms, Between(a, b)))|;
      |Filter(ms, Between(a, b))|;
    }
  }

  lemma ConversationDates(ms: seq<Message>, a: ObjectId, b: ObjectId)
    ensures var result := SerializeAll(Conversation(ms, a, b));
      forall i, j :: 0 <= i < j < |result| ==> result[i].timestamp <= result[j].timestamp
  {
    var c := Conversation(ms, a, b);
    var result := SerializeAll(c);
    ConversationExactly(ms, a, b);
    forall i, j | 0 <= i < j < |result| ensures result[i].timestamp <= result[j].timestamp {
      assert result[i].timestamp == c[i].createdAt && result[j].timestamp == c[j].createdAt;
    }
  }

  lemma ReadBackConversation(ms: seq<Message>, a: ObjectId, b: ObjectId)
    ensures var result := SerializeAll(Conversation(ms, a, b));
      forall i :: 0 <= i < |result| ==>
        ReadSerializedMessage(result[i]).Some? &&
        var m := ReadSerializedMessage(result[i]).value;
        m in ms && PairOr(m.senderId, m.receiverId, a, b)
  {
    var c := Conversation(ms, a, b);
    var result := SerializeAll(c);
    ConversationExactly(ms, a, b);
    forall i | 0 <= i < |result|
      ensures ReadSerializedMessage(result[i]).Some? &&
        var m := ReadSerializedMessage(result[i]).value;
        m in ms && PairOr(m.senderId, m.receiverId, a, b)
    {
      SerializeRoundTrip(c[i]);
      assert c[i] in c;
    }
  }

  lemma CompleteConversation(ms: seq<Message>, a: ObjectId, b: ObjectId)
    ensures forall m :: m in ms && PairOr(m.senderId, m.receiverId, a, b) ==>
      SerializeMessage(m) in SerializeAll(Conversation(ms, a, b))
  {
    var c := Conversation(ms, a, b);
    var result := SerializeAll(c);
    ConversationExactly(ms, a, b);
    forall m | m in ms && PairOr(m.senderId, m.receiverId, a, b)
      ensures SerializeMessage(m) in result
    {
      var i :| 0 <= i < |c| && c[i] == m;
      assert result[i] == SerializeMessage(m);
    }
  }

  /** A message `/send` stores shows up in the conversation of its sender and receiver, in either order. */
  lemma SentMessageInConversation(ms: seq<Message>, m: Message)
    ensures SerializeMessage(m) in SerializeAll(Conversation(ms + [m], m.senderId, m.receiverId))
    ensures SerializeMessage(m) in SerializeAll(Conversation(ms + [m], m.receiverId, m.senderId))
  {
    assert m in ms + [m];
    CompleteConversation(ms + [m], m.senderId, m.receiverId);
    CompleteConversation(ms + [m], m.receiverId, m.senderId);
  }
}
