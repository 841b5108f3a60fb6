/**
 * The documents of the five collections (`user`, `profiles`, `friends`,
 * `messages`, `signalements`), the partial updates the routes apply to them,
 * and the serialized form of a message that leaves the server.
 * Dates are integer instants supplied by the caller.
 */
module Documents {
  import opened Wrappers
  import opened Ids

  // ----- accounts (`user` collection) -----

  /** `password` holds whatever was stored: the bcrypt hash at registration. */
  datatype Account = Account(id: ObjectId, email: string, password: string, createdAt: int)

  function AccountId(a: Account): ObjectId { a.id }
  function AccountEmail(a: Account): string { a.email }

  /** The fields a `PUT /user/:id` body may `$set`; None means absent from the body. */
  datatype AccountPatch = AccountPatch(email: Option<string>, password: Option<string>, createdAt: Option<int>)

  function Pick<T>(given: Option<T>, current: T): (r: T)
    ensures given.Some? ==> r == given.value
    ensures given.None? ==> r == current
  {
    if given.Some? then given.value else current
  }

  /** `$set` of an account patch: the supplied fields are overwritten, the identifier never. */
  function ApplyAccountPatch(a: Account, patch: AccountPatch): (r: Account)
    ensures r.id == a.id
    ensures r.email == Pick(patch.email, a.email)
    ensures r.password == Pick(patch.password, a.password)
    ensures r.createdAt == Pick(patch.createdAt, a.createdAt)
  {
    Account(a.id, Pick(patch.email, a.email), Pick(patch.password, a.password), Pick(patch.createdAt, a.createdAt))
  }

  // ----- profiles -----

  datatype Profile = Profile(
    userId: ObjectId, firstName: string, lastName: string, sexe: string,
    bio: string, filiere: string, niveau: string, interests: seq<string>,
    isTutor: bool, campus: string, photoUrl: string, createdAt: int)

  function ProfileOwner(p: Profile): ObjectId { p.userId }

  /** The profile registration inserts beside a new account. */
  function NewProfile(userId: ObjectId, firstName: string, lastName: string, sexe: string, now: int): (p: Profile)
    ensures p.userId == userId && p.firstName == firstName && p.lastName == lastName && p.sexe == sexe
    ensures p.interests == [] && !p.isTutor
    ensures p.bio == p.filiere == p.niveau == p.campus == p.photoUrl == ""
    ensures p.createdAt == now
  {
    Profile(userId, firstName, lastName, sexe, "", "", "", [], false, "", "", now)
  }

  /**
   * The fields of a `PUT /profiles/user/:id` body other than `interests`;
   * None means absent from the body. A `createdAt` in the body overwrites the
   * date registration gave the profile.
   */
  datatype ProfilePatch = ProfilePatch(
    firstName: Option<string>, lastName: Option<string>, sexe: Option<string>,
    bio: Option<string>, filiere: Option<string>, niveau: Option<string>,
    isTutor: Option<bool>, campus: Option<string>, photoUrl: Option<string>,
    createdAt: Option<int>)

  /** `$set` of a profile patch: supplied fields are overwritten; owner and interests are kept. */
  function ApplyProfilePatch(p: Profile, patch: ProfilePatch): (r: Profile)
    ensures r.userId == p.userId && r.interests == p.interests
    ensures r.createdAt == Pick(patch.createdAt, p.createdAt)
    ensures r.firstName == Pick(patch.firstName, p.firstName)
    ensures r.lastName == Pick(patch.lastName, p.lastName)
    ensures r.sexe == Pick(patch.sexe, p.sexe)
    ensures r.bio == Pick(patch.bio, p.bio)
    ensures r.filiere == Pick(patch.filiere, p.filiere)
    ensures r.niveau == Pick(patch.niveau, p.niveau)
    ensures r.isTutor == Pick(patch.isTutor, p.isTutor)
    ensures r.campus == Pick(patch.campus, p.campus)
    ensures r.photoUrl == Pick(patch.photoUrl, p.photoUrl)
  {
    p.(firstName := Pick(patch.firstName, p.firstName),
       lastName := Pick(patch.lastName, p.lastName),
       sexe := Pick(patch.sexe, p.sexe),
       bio := Pick(patch.bio, p.bio),
       filiere := Pick(patch.filiere, p.filiere),
       niveau := Pick(patch.niveau, p.niveau),
       isTutor := Pick(patch.isTutor, p.isTutor),
       campus := Pick(patch.campus, p.campus),
       photoUrl := Pick(patch.photoUrl, p.photoUrl),
       createdAt := Pick(patch.createdAt, p.createdAt))
  }

  predicate NoDuplicates(s: seq<string>) {
    forall i, j :: 0 <= i < j < |s| ==> s[i] != s[j]
  }

  /**
   * `$addToSet: { interests: { $each: items } }`: each item, in order, is
   * appended unless the array already holds it (including items appended
   * earlier in the same call).
   */
  function AddToSetEach(existing: seq<string>, items: seq<string>): (r: seq<string>)
    ensures |existing| <= |r| && r[..|existing|] == existing
    ensures forall x :: x in r <==> x in existing || x in items
    ensures NoDuplicates(existing) ==> NoDuplicates(r)
    decreases |items|
  {
    if items == [] then existing
    else if items[0] in existing then AddToSetEach(existing, items[1..])
    else
      var grown := existing + [items[0]];
      assert grown[..|existing|] == existing;
      var r := AddToSetEach(grown, items[1..]);
      assert r[..|existing|] == r[..|grown|][..|existing|];
      r
  }

  /**
   * What `PUT /profiles/user/:id` makes of a stored profile: the given
   * interests are added by `$addToSet`, then the other given fields are `$set`.
   */
  function UpdatedProfile(p: Profile, interests: Option<seq<string>>, patch: ProfilePatch): (r: Profile)
    ensures r.userId == p.userId && r.createdAt == Pick(patch.createdAt, p.createdAt)
    ensures |p.interests| <= |r.interests| && r.interests[..|p.interests|] == p.interests
    ensures forall x :: x in r.interests <==> x in p.interests || (interests.Some? && x in interests.value)
    ensures NoDuplicates(p.interests) ==> NoDuplicates(r.interests)
    ensures r.firstName == Pick(patch.firstName, p.firstName) && r.lastName == Pick(patch.lastName, p.lastName)
    ensures r.sexe == Pick(patch.sexe, p.sexe) && r.bio == Pick(patch.bio, p.bio)
    ensures r.filiere == Pick(patch.filiere, p.filiere) && r.niveau == Pick(patch.niveau, p.niveau)
    ensures r.isTutor == Pick(patch.isTutor, p.isTutor) && r.campus == Pick(patch.campus, p.campus)
    ensures r.photoUrl == Pick(patch.photoUrl, p.photoUrl)
  {
    var grown := if interests.Some? then p.(interests := AddToSetEach(p.interests, interests.value)) else p;
    ApplyProfilePatch(grown, patch)
  }

  // ----- friend requests (`friends` collection) -----

  datatype Status = Pending | Accepted | Refused

  function StatusText(st: Status): string {
    match st
    case Pending => "pending"
    case Accepted => "accepted"
    case Refused => "refused"
  }

  /** The body `status` of `PUT /friends/user`: only "accepted" and "refused" are allowed. */
  function ParseNewStatus(s: string): (r: Option<Status>)
    ensures r.Some? <==> s == "accepted" || s == "refused"
    ensures r.Some? ==> StatusText(r.value) == s && r.value != Pending
  {
    if s == "accepted" then Some(Accepted)
    else if s == "refused" then Some(Refused)
    else None
  }

  /**
   * A friend request. Its references are written under the fields `senderId`
   * and `receiverId`; the document's own `_id` is not modelled, as no handler
   * reads it.
   */
  datatype Relationship = Relationship(senderId: ObjectId, receiverId: ObjectId, status: Status, createdAt: int, updatedAt: int)

  /** Looking up a user reference of a relationship document by its field name; `userId` and `friendId` find nothing. */
  function RelationshipField(r: Relationship, name: string): (v: Option<ObjectId>)
    ensures v.Some? <==> name == "senderId" || name == "receiverId"
  {
    if name == "senderId" then Some(r.senderId)
    else if name == "receiverId" then Some(r.receiverId)
    else None
  }

  // ----- messages and reports -----

  datatype Message = Message(id: ObjectId, senderId: ObjectId, receiverId: ObjectId, content: string, createdAt: int)

  function MessageId(m: Message): ObjectId { m.id }

  /** A `signalements` document: the ids are stored as the raw strings of the request. */
  datatype Report = Report(reporterId: string, reportedId: string, reason: string, createdAt: int)

  /** A message as it leaves the server: every reference rendered as a string. */
  datatype SerializedMessage = SerializedMessage(id: string, senderId: string, receiverId: string, content: string, timestamp: int)

  /** `serializeMessage`: identifiers rendered by `toString()`, the date kept as its instant. */
  function SerializeMessage(m: Message): (p: SerializedMessage)
    ensures IsCanonical(p.id) && IsCanonical(p.senderId) && IsCanonical(p.receiverId)
    ensures p.content == m.content && p.timestamp == m.createdAt
  {
    SerializedMessage(m.id, m.senderId, m.receiverId, m.content, m.createdAt)
  }

  /** `messages.map(serializeMessage)`. */
  function SerializeAll(ms: seq<Message>): (r: seq<SerializedMessage>)
    ensures |r| == |ms|
    ensures forall i :: 0 <= i < |ms| ==> r[i] == SerializeMessage(ms[i])
  {
    seq(|ms|, i requires 0 <= i < |ms| => SerializeMessage(ms[i]))
  }

  /** How a client reads a serialized message back: each reference parsed as an identifier. */
  function ReadSerializedMessage(p: SerializedMessage): (r: Option<Message>)
    ensures r.Some? <==> IsObjectIdText(p.id) && IsObjectIdText(p.senderId) && IsObjectIdText(p.receiverId)
  {
    match (Parse(p.id), Parse(p.senderId), Parse(p.receiverId))
    case (Some(id), Some(s), Some(r)) => Some(Message(id, s, r, p.content, p.timestamp))
    case _ => None
  }

  /** Serialization loses nothing: reading a serialized message back gives the stored message. */
  lemma SerializeRoundTrip(m: Message)
    ensures ReadSerializedMessage(SerializeMessage(m)) == Some(m)
  {
    ParseRendered(m.id);
    ParseRendered(m.senderId);
    ParseRendered(m.receiverId);
  }
}
