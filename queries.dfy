/**
 * The filters the handlers hand to the store, written as predicates on
 * documents: the two-direction pair match (`$or` over sender and receiver),
 * the participant match of the account cascade, the status listing and its
 * counterpart map, and the `sort({ createdAt: 1 })` of a conversation.
 */
module Queries {
  import opened Wrappers
  import opened Ids
  import opened Seqs
  import opened Documents

  // ----- the pair filter -----

  /** `$or: [{senderId: a, receiverId: b}, {senderId: b, receiverId: a}]` on the two fields. */
  predicate PairOr(sender: ObjectId, receiver: ObjectId, a: ObjectId, b: ObjectId) {
    (sender == a && receiver == b) || (sender == b && receiver == a)
  }

  predicate MatchesPair(r: Relationship, a: ObjectId, b: ObjectId) {
    PairOr(r.senderId, r.receiverId, a, b)
  }

  /** The unordered pair a relationship is about. */
  function PairKey(r: Relationship): set<ObjectId> {
    {r.senderId, r.receiverId}
  }

  /** The two-direction filter selects exactly the records whose unordered pair is `{a, b}`. */
  lemma MatchesPairIffKey(r: Relationship, a: ObjectId, b: ObjectId)
    ensures MatchesPair(r, a, b) <==> PairKey(r) == {a, b}
  {
    if PairKey(r) == {a, b} {
      assert a in PairKey(r) && b in PairKey(r);
      assert r.senderId in {a, b} && r.receiverId in {a, b};
    }
  }

  /** Index of the first relationship of the unordered pair `{a, b}`, either direction. */
  function FindPair(fs: seq<Relationship>, a: ObjectId, b: ObjectId): (r: Option<nat>)
    ensures r.Some? ==> r.value < |fs| && MatchesPair(fs[r.value], a, b)
    ensures r.Some? ==> forall j :: 0 <= j < r.value ==> !MatchesPair(fs[j], a, b)
    ensures r.None? <==> forall i :: 0 <= i < |fs| ==> !MatchesPair(fs[i], a, b)
  {
    var r := Find(fs, PairKey, {a, b});
    if r.Some? then
      MatchesPairIffKey(fs[r.value], a, b);
      assert forall j :: 0 <= j < r.value ==> !MatchesPair(fs[j], a, b) by {
        forall j | 0 <= j < r.value ensures !MatchesPair(fs[j], a, b) {
          MatchesPairIffKey(fs[j], a, b);
        }
      }
      r
    else
      assert forall i :: 0 <= i < |fs| ==> !MatchesPair(fs[i], a, b) by {
        forall i | 0 <= i < |fs| ensures !MatchesPair(fs[i], a, b) {
          MatchesPairIffKey(fs[i], a, b);
          assert PairKey(fs[i]) in Keys(fs, PairKey);
        }
      }
      r
  }

  /** The lookup does not depend on which party is named first. */
  lemma FindPairSymmetric(fs: seq<Relationship>, a: ObjectId, b: ObjectId)
    ensures FindPair(fs, a, b) == FindPair(fs, b, a)
  {
    assert {a, b} == {b, a};
  }

  /** The message filter of a conversation and of the relationship cascade. */
  function Between(a: ObjectId, b: ObjectId): (f: Message -> bool)
    ensures forall m :: f(m) <==> {m.senderId, m.receiverId} == {a, b}
  {
    var f := (m: Message) => PairOr(m.senderId, m.receiverId, a, b);
    assert forall m :: f(m) <==> {m.senderId, m.receiverId} == {a, b} by {
      forall m: Message ensures f(m) <==> {m.senderId, m.receiverId} == {a, b} {
        MatchesPairIffKey(Relationship(m.senderId, m.receiverId, Pending, 0, 0), a, b);
      }
    }
    f
  }

  /** `$or: [{senderId: o}, {receiverId: o}]` on messages. */
  function Involves(o: ObjectId): (f: Message -> bool)
    ensures forall m :: f(m) <==> o in {m.senderId, m.receiverId}
    ensures forall m, x :: Between(o, x)(m) ==> f(m)
  {
    (m: Message) => m.senderId == o || m.receiverId == o
  }

  // ----- the account cascade on `friends` -----

  /** The friends filter of account deletion, `$or: [{userId: o}, {friendId: o}]`, as written. */
  function CascadeFilterAsWritten(o: ObjectId): (f: Relationship -> bool)
    ensures forall r :: !f(r)
  {
    (r: Relationship) => RelationshipField(r, "userId") == Some(o) || RelationshipField(r, "friendId") == Some(o)
  }

  /**
   * Relationship documents have no `userId` or `friendId` field, so the
   * cascade of account deletion removes no relationship at all.
   */
  lemma {:induction false} CascadeAsWrittenRemovesNothing(fs: seq<Relationship>, o: ObjectId)
    ensures Reject(fs, CascadeFilterAsWritten(o)) == fs
  {
    if fs != [] {
      CascadeAsWrittenRemovesNothing(fs[1..], o);
      assert fs == [fs[0]] + fs[1..];
    }
  }

  /** Whatever the records say, a record naming the deleted account survives the cascade. */
  lemma CascadeAsWrittenKeepsReferences(fs: seq<Relationship>, o: ObjectId, r: Relationship)
    requires r in fs && (r.senderId == o || r.receiverId == o)
    ensures r in Reject(fs, CascadeFilterAsWritten(o))
  {
    CascadeAsWrittenRemovesNothing(fs, o);
  }

  // ----- listing by status -----

  /** `$or: [{senderId: o, status}, {receiverId: o, status}]`. */
  function RelatedWith(o: ObjectId, st: Status): (f: Relationship -> bool)
    ensures forall r :: f(r) <==> r.status == st && o in PairKey(r)
  {
    (r: Relationship) => (r.senderId == o && r.status == st) || (r.receiverId == o && r.status == st)
  }

  /**
   * `r.senderId.toString() === id ? r.receiverId : r.senderId`: the rendered
   * sender is compared with the raw route parameter.
   */
  function CounterpartAsWritten(r: Relationship, id: string): (c: ObjectId)
    ensures c == r.senderId || c == r.receiverId
    ensures r.senderId == id ==> c == r.receiverId
    ensures r.senderId != id ==> c == r.senderId
  {
    if r.senderId == id then r.receiverId else r.senderId
  }

  function FriendIds(rels: seq<Relationship>, id: string): (r: seq<ObjectId>)
    ensures |r| == |rels|
    ensures forall i :: 0 <= i < |rels| ==> r[i] == CounterpartAsWritten(rels[i], id)
  {
    seq(|rels|, i requires 0 <= i < |rels| => CounterpartAsWritten(rels[i], id))
  }

  /** `{ userId: { $in: ids } }` on profiles. */
  function OwnedByOneOf(ids: seq<ObjectId>): (f: Profile -> bool)
    ensures forall p: Profile, q: Profile :: p.userId == q.userId ==> f(p) == f(q)
    ensures forall p :: f(p) <==> exists i :: 0 <= i < |ids| && ids[i] == p.userId
    ensures |ids| == 0 ==> forall p :: !f(p)
  {
    (p: Profile) => p.userId in ids
  }

  /** `x` is the other party of some relationship of `o` with status `st`. */
  ghost predicate FriendVia(fs: seq<Relationship>, o: ObjectId, st: Status, x: ObjectId) {
    exists r :: r in fs && r.status == st &&
      ((r.senderId == o && r.receiverId == x) || (r.receiverId == o && r.senderId == x))
  }

  /**
   * For an id given as the server renders it, the counterpart map yields
   * exactly the other parties of `o`'s relationships with that status.
   */
  lemma FriendIdsOfRenderedId(fs: seq<Relationship>, o: ObjectId, st: Status)
    ensures forall x :: x in FriendIds(Filter(fs, RelatedWith(o, st)), o) <==> FriendVia(fs, o, st, x)
  {
    forall x | x in FriendIds(Filter(fs, RelatedWith(o, st)), o) ensures FriendVia(fs, o, st, x) {
      ListedIsFriend(fs, o, st, x);
    }
    forall x | FriendVia(fs, o, st, x) ensures x in FriendIds(Filter(fs, RelatedWith(o, st)), o) {
      FriendIsListed(fs, o, st, x);
    }
  }

  lemma ListedIsFriend(fs: seq<Relationship>, o: ObjectId, st: Status, x: ObjectId)
    requires x in FriendIds(Filter(fs, RelatedWith(o, st)), o)
    ensures FriendVia(fs, o, st, x)
  {
    var rels := Filter(fs, RelatedWith(o, st));
    var ids := FriendIds(rels, o);
    var i :| 0 <= i < |ids| && ids[i] == x;
    var r := rels[i];
    assert r in rels;
    assert r in fs && RelatedWith(o, st)(r);
  }

  lemma FriendIsListed(fs: seq<Relationship>, o: ObjectId, st: Status, x: ObjectId)
    requires FriendVia(fs, o, st, x)
    ensures x in FriendIds(Filter(fs, RelatedWith(o, st)), o)
  {
    var rels := Filter(fs, RelatedWith(o, st));
    var r :| r in fs && r.status == st &&
      ((r.senderId == o && r.receiverId == x) || (r.receiverId == o && r.senderId == x));
    assert RelatedWith(o, st)(r);
    assert r in rels;
    var i :| 0 <= i < |rels| && rels[i] == r;
    assert FriendIds(rels, o)[i] == x;
  }

  /**
   * For an id given with upper-case digits, the rendered sender never equals
   * the parameter, so every record resolves to its sender: for a request the
   * caller sent, the caller is listed as their own counterpart.
   */
  lemma UpperCaseIdListsCaller(fs: seq<Relationship>, id: string, st: Status, r: Relationship)
    requires IsObjectIdText(id) && !IsCanonical(id)
    requires r in fs && r.senderId == Parse(id).value && r.status == st
    ensures Parse(id).value in FriendIds(Filter(fs, RelatedWith(Parse(id).value, st)), id)
  {
    var o := Parse(id).value;
    RenderParsed(id);
    var rels := Filter(fs, RelatedWith(o, st));
    assert RelatedWith(o, st)(r);
    var i :| 0 <= i < |rels| && rels[i] == r;
    assert FriendIds(rels, id)[i] == o;
  }

  // ----- conversations -----

  ghost predicate SortedByDate(s: seq<Message>) {
    forall i, j :: 0 <= i < j < |s| ==> s[i].createdAt <= s[j].createdAt
  }

  lemma SortedCons(x: Message, s: seq<Message>)
    requires SortedByDate(s)
    requires forall y :: y in s ==> x.createdAt <= y.createdAt
    ensures SortedByDate([x] + s)
  {
    var r := [x] + s;
    forall i, j | 0 <= i < j < |r| ensures r[i].createdAt <= r[j].createdAt {
      if i == 0 { assert r[j] == s[j - 1] && s[j - 1] in s; } else { assert r[i] == s[i - 1] && r[j] == s[j - 1]; }
    }
  }

  /** Places `m` before the first message that is not older than it. */
  function InsertByDate(m: Message, s: seq<Message>): (r: seq<Message>)
    requires SortedByDate(s)
    ensures SortedByDate(r)
    ensures multiset(r) == multiset(s) + multiset{m}
  {
    if s == [] || m.createdAt <= s[0].createdAt then
      SortedCons(m, s);
      [m] + s
    else
      var rest := InsertByDate(m, s[1..]);
      InsertAfterHead(m, s, rest);
      [s[0]] + rest
  }

  /** Keeping the head of `s` in front of `m` inserted into the tail keeps the order. */
  lemma InsertAfterHead(m: Message, s: seq<Message>, rest: seq<Message>)
    requires SortedByDate(s) && s != [] && s[0].createdAt < m.createdAt
    requires SortedByDate(rest) && multiset(rest) == multiset(s[1..]) + multiset{m}
    ensures SortedByDate([s[0]] + rest)
    ensures multiset([s[0]] + rest) == multiset(s) + multiset{m}
  {
    assert s == [s[0]] + s[1..];
    forall x | x in rest ensures s[0].createdAt <= x.createdAt {
      assert x in multiset(rest);
      if x != m {
        assert x in multiset(s[1..]);
        var k :| 0 <= k < |s[1..]| && s[1..][k] == x;
        assert s[k + 1] == x;
      }
    }
    SortedCons(s[0], rest);
  }

  /**
   * `sort({ createdAt: 1 })`: ascending by date. The store leaves the order of
   * messages with the same date unspecified; this definition keeps them in
   * table order, a choice of the model (`StoreConversation` admits every order).
   */
  function SortByDate(s: seq<Message>): (r: seq<Message>)
    ensures SortedByDate(r)
    ensures multiset(r) == multiset(s)
  {
    if s == [] then []
    else
      assert s == [s[0]] + s[1..];
      InsertByDate(s[0], SortByDate(s[1..]))
  }

  /** The messages between `a` and `b`, in either direction, sorted by date. */
  function Conversation(ms: seq<Message>, a: ObjectId, b: ObjectId): (r: seq<Message>)
    ensures SortedByDate(r)
    ensures multiset(r) == multiset(Filter(ms, Between(a, b)))
  {
    SortByDate(Filter(ms, Between(a, b)))
  }

  /**
   * A conversation holds exactly the messages between the two users, each as
   * often as it is stored, in non-decreasing date order.
   */
  lemma ConversationExactly(ms: seq<Message>, a: ObjectId, b: ObjectId)
    ensures SortedByDate(Conversation(ms, a, b))
    ensures multiset(Conversation(ms, a, b)) == multiset(Filter(ms, Between(a, b)))
    ensures forall m :: m in Conversation(ms, a, b) <==> m in ms && PairOr(m.senderId, m.receiverId, a, b)
  {
    var c := Conversation(ms, a, b);
    var f := Filter(ms, Between(a, b));
    forall m ensures m in c <==> m in f {
      assert m in c <==> m in multiset(c);
      assert m in f <==> m in multiset(f);
    }
  }

  /**
   * Every answer the store may give for the conversation of `a` and `b`:
   * the messages between them, each as often as stored, in non-decreasing
   * date order, with messages of the same date in any order.
   */
  ghost predicate StoreConversation(r: seq<Message>, ms: seq<Message>, a: ObjectId, b: ObjectId) {
    SortedByDate(r) && multiset(r) == multiset(Filter(ms, Between(a, b)))
  }

  /** The model's conversation is one of the answers the store may give. */
  lemma ConversationIsStoreAnswer(ms: seq<Message>, a: ObjectId, b: ObjectId)
    ensures StoreConversation(Conversation(ms, a, b), ms, a, b)
  {
  }

  /**
   * Whatever order the store picks among messages of the same date, the
   * answers it may give do not depend on which user is named first.
   */
  lemma StoreConversationSymmetric(r: seq<Message>, ms: seq<Message>, a: ObjectId, b: ObjectId)
    ensures StoreConversation(r, ms, a, b) <==> StoreConversation(r, ms, b, a)
  {
    BetweenSymmetric(ms, a, b);
  }

  /**
   * The model's conversation of a pair does not depend on which user is named
   * first; with ties kept in table order, the two sequences are equal.
   */
  lemma ConversationSymmetric(ms: seq<Message>, a: ObjectId, b: ObjectId)
    ensures Conversation(ms, a, b) == Conversation(ms, b, a)
  {
    BetweenSymmetric(ms, a, b);
  }

  lemma {:induction false} BetweenSymmetric(ms: seq<Message>, a: ObjectId, b: ObjectId)
    ensures Filter(ms, Between(a, b)) == Filter(ms, Between(b, a))
  {
    if ms != [] {
      BetweenSymmetric(ms[1..], a, b);
    }
  }
}
