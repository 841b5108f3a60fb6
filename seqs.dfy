/**
 * The collection operations the server asks of its store, over a table kept
 * as a sequence in insertion order, which the model takes as the store's
 * natural order (the store itself leaves the order of an unsorted query
 * unspecified): `findOne` is the first match,
 * `find` and `deleteMany` keep or drop every match, `deleteOne` removes the
 * first match. A key function names the field a unique index would sit on.
 */
module Seqs {
  import opened Wrappers

  /** The set of keys present in a table. */
  function Keys<T, K>(s: seq<T>, key: T -> K): set<K> {
    set i | 0 <= i < |s| :: key(s[i])
  }

  /** No two rows of the table share a key. */
  ghost predicate Unique<T, K>(s: seq<T>, key: T -> K) {
    forall i, j :: 0 <= i < j < |s| ==> key(s[i]) != key(s[j])
  }

  /** `findOne({field: v})`: the index of the first row whose key is `v`. */
  function Find<T, K(==)>(s: seq<T>, key: T -> K, v: K): (r: Option<nat>)
    ensures r.Some? ==> r.value < |s| && key(s[r.value]) == v
    ensures r.Some? ==> forall j :: 0 <= j < r.value ==> key(s[j]) != v
    ensures r.None? <==> v !in Keys(s, key)
  {
    if s == [] then None
    else if key(s[0]) == v then Some(0)
    else match Find(s[1..], key, v)
      case None =>
        assert Keys(s, key) == {key(s[0])} + Keys(s[1..], key) by {
          forall x | x in Keys(s, key) ensures x in {key(s[0])} + Keys(s[1..], key) {
            var i :| 0 <= i < |s| && key(s[i]) == x;
            if i > 0 { assert key(s[1..][i - 1]) == x; }
          }
        }
        None
      case Some(k) => Some(k + 1)
  }

  /** `findOne({field: v})` returning the row itself. */
  function Lookup<T, K(==)>(s: seq<T>, key: T -> K, v: K): (r: Option<T>)
    ensures r.Some? ==> r.value in s && key(r.value) == v
    ensures r.Some? ==> exists k :: 0 <= k < |s| && s[k] == r.value && forall j :: 0 <= j < k ==> key(s[j]) != v
    ensures r.None? <==> v !in Keys(s, key)
  {
    match Find(s, key, v)
    case Some(k) => Some(s[k])
    case None => None
  }

  /**
   * `deleteOne({field: v})`: the first row with key `v` is removed, if any.
   * On a table with unique keys that is the one row with key `v`.
   */
  function DeleteOne<T(!new), K(==)>(s: seq<T>, key: T -> K, v: K): (r: seq<T>)
    ensures v !in Keys(s, key) ==> r == s
    ensures v in Keys(s, key) ==> |r| == |s| - 1
    ensures Unique(s, key) ==> Unique(r, key) && Keys(r, key) == Keys(s, key) - {v}
    ensures Unique(s, key) ==> forall x :: x in r <==> x in s && key(x) != v
  {
    match Find(s, key, v)
    case None => s
    case Some(k) =>
      RemoveUniqueRow(s, k, key);
      RemoveAt(s, k)
  }

  lemma RemoveUniqueRow<T(!new), K>(s: seq<T>, k: nat, key: T -> K)
    requires k < |s|
    ensures Unique(s, key) ==> Unique(RemoveAt(s, k), key)
    ensures Unique(s, key) ==> Keys(RemoveAt(s, k), key) == Keys(s, key) - {key(s[k])}
    ensures Unique(s, key) ==> forall x :: x in RemoveAt(s, k) <==> x in s && key(x) != key(s[k])
  {
    var r := RemoveAt(s, k);
    if Unique(s, key) {
      UniqueRemoveAt(s, k, key);
      forall x ensures x in r <==> x in s && key(x) != key(s[k]) {
        if x in r {
          var i :| 0 <= i < |r| && r[i] == x;
          if i < k { assert s[i] == x; } else { assert s[i + 1] == x; }
        }
        if x in s && key(x) != key(s[k]) {
          var i :| 0 <= i < |s| && s[i] == x;
          if i < k { assert r[i] == x; } else { assert i != k; assert r[i - 1] == x; }
        }
      }
    }
  }

  /** `find(filter)`: the rows that match, in table order. */
  function Filter<T(!new)>(s: seq<T>, p: T -> bool): (r: seq<T>)
    ensures |r| <= |s|
    ensures forall x :: x in r <==> x in s && p(x)
    ensures multiset(r) <= multiset(s)
    ensures forall x {:trigger multiset(r)[x]} :: p(x) ==> multiset(r)[x] == multiset(s)[x]
  {
    if s == [] then []
    else
      assert s == [s[0]] + s[1..];
      (if p(s[0]) then [s[0]] else []) + Filter(s[1..], p)
  }

  /** `deleteMany(filter)`: the rows that remain, in table order. */
  function Reject<T(!new)>(s: seq<T>, p: T -> bool): (r: seq<T>)
    ensures |r| <= |s|
    ensures forall x :: x in r <==> x in s && !p(x)
    ensures multiset(r) <= multiset(s)
    ensures forall x {:trigger multiset(r)[x]} :: !p(x) ==> multiset(r)[x] == multiset(s)[x]
  {
    if s == [] then []
    else
      assert s == [s[0]] + s[1..];
      (if p(s[0]) then [] else [s[0]]) + Reject(s[1..], p)
  }

  /** Every row is either kept by `find` or removed by `deleteMany`, never both. */
  lemma {:induction false} FilterRejectSplit<T(!new)>(s: seq<T>, p: T -> bool)
    ensures |Filter(s, p)| + |Reject(s, p)| == |s|
    ensures multiset(Filter(s, p)) + multiset(Reject(s, p)) == multiset(s)
  {
    if s != [] {
      FilterRejectSplit(s[1..], p);
      assert s == [s[0]] + s[1..];
    }
  }

  /** `find` keeps table order: filtering a table split in two filters each part, front part first. */
  lemma {:induction false} FilterConcat<T(!new)>(s: seq<T>, t: seq<T>, p: T -> bool)
    ensures Filter(s + t, p) == Filter(s, p) + Filter(t, p)
  {
    if s == [] {
      assert s + t == t;
    } else {
      var x, rest := s[0], s[1..];
      FilterConcat(rest, t, p);
      SplitHead(s, t);
      FilterCons(x, rest, p);
      FilterCons(x, rest + t, p);
      ConcatAssoc(if p(x) then [x] else [], Filter(rest, p), Filter(t, p));
    }
  }

  lemma SplitHead<T>(s: seq<T>, t: seq<T>)
    requires s != []
    ensures s == [s[0]] + s[1..]
    ensures s + t == [s[0]] + (s[1..] + t)
  {
  }

  lemma ConcatAssoc<T>(a: seq<T>, b: seq<T>, c: seq<T>)
    ensures a + (b + c) == (a + b) + c
  {
  }

  lemma FilterCons<T(!new)>(x: T, s: seq<T>, p: T -> bool)
    ensures Filter([x] + s, p) == (if p(x) then [x] else []) + Filter(s, p)
  {
    var xs := [x] + s;
    assert xs[0] == x && xs[1..] == s;
  }

  /** `deleteOne`: the table without its row at index `k`. */
  function RemoveAt<T>(s: seq<T>, k: nat): (r: seq<T>)
    requires k < |s|
    ensures |r| == |s| - 1
    ensures forall i :: 0 <= i < k ==> r[i] == s[i]
    ensures forall i :: k <= i < |r| ==> r[i] == s[i + 1]
    ensures multiset(r) == multiset(s) - multiset{s[k]}
  {
    assert s == s[..k] + [s[k]] + s[k + 1..];
    s[..k] + s[k + 1..]
  }

  lemma UniqueAppend<T, K>(s: seq<T>, x: T, key: T -> K)
    requires Unique(s, key) && key(x) !in Keys(s, key)
    ensures Unique(s + [x], key)
    ensures Keys(s + [x], key) == Keys(s, key) + {key(x)}
  {
    var t := s + [x];
    forall i, j | 0 <= i < j < |t| ensures key(t[i]) != key(t[j]) {
      if j == |s| { assert key(t[i]) in Keys(s, key); }
    }
    forall y | y in Keys(t, key) ensures y in Keys(s, key) + {key(x)} {
      var i :| 0 <= i < |t| && key(t[i]) == y;
      if i < |s| { assert key(s[i]) == y; }
    }
    forall y | y in Keys(s, key) ensures y in Keys(t, key) {
      var i :| 0 <= i < |s| && key(s[i]) == y;
      assert key(t[i]) == y;
    }
    assert key(t[|s|]) == key(x);
  }

  lemma UniqueRemoveAt<T, K>(s: seq<T>, k: nat, key: T -> K)
    requires k < |s| && Unique(s, key)
    ensures Unique(RemoveAt(s, k), key)
    ensures Keys(RemoveAt(s, k), key) == Keys(s, key) - {key(s[k])}
  {
    var t := RemoveAt(s, k);
    forall i, j | 0 <= i < j < |t| ensures key(t[i]) != key(t[j]) {
      var i', j' := if i < k then i else i + 1, if j < k then j else j + 1;
      assert t[i] == s[i'] && t[j] == s[j'];
    }
    forall y | y in Keys(t, key) ensures y in Keys(s, key) - {key(s[k])} {
      var i :| 0 <= i < |t| && key(t[i]) == y;
      var i' := if i < k then i else i + 1;
      assert t[i] == s[i'];
    }
    forall y | y in Keys(s, key) - {key(s[k])} ensures y in Keys(t, key) {
      var i :| 0 <= i < |s| && key(s[i]) == y;
      if i < k { assert key(t[i]) == y; } else { assert key(t[i - 1]) == y; }
    }
  }

  lemma UniqueUpdate<T, K>(s: seq<T>, k: nat, x: T, key: T -> K)
    requires k < |s| && Unique(s, key) && key(x) == key(s[k])
    ensures Unique(s[k := x], key)
    ensures Keys(s[k := x], key) == Keys(s, key)
  {
    var t := s[k := x];
    assert forall i :: 0 <= i < |s| ==> key(t[i]) == key(s[i]);
  }

  lemma {:induction false} UniqueFilter<T(!new), K>(s: seq<T>, p: T -> bool, key: T -> K)
    requires Unique(s, key)
    ensures Unique(Filter(s, p), key)
    ensures Keys(Filter(s, p), key) <= Keys(s, key)
  {
    if s != [] {
      UniqueFilter(s[1..], p, key);
      var rest := Filter(s[1..], p);
      assert Keys(s[1..], key) <= Keys(s, key) by {
        forall y | y in Keys(s[1..], key) ensures y in Keys(s, key) {
          var i :| 0 <= i < |s[1..]| && key(s[1..][i]) == y;
          assert key(s[i + 1]) == y;
        }
      }
      if p(s[0]) {
        assert key(s[0]) !in Keys(s[1..], key) by {
          forall i | 0 <= i < |s[1..]| ensures key(s[1..][i]) != key(s[0]) {
            assert s[1..][i] == s[i + 1];
          }
        }
        UniqueAppend([], s[0], key);
        var t := [s[0]] + rest;
        forall i, j | 0 <= i < j < |t| ensures key(t[i]) != key(t[j]) {
          if i == 0 {
            assert key(t[j]) in Keys(rest, key);
          }
        }
        forall y | y in Keys(t, key) ensures y in Keys(s, key) {
          var i :| 0 <= i < |t| && key(t[i]) == y;
          if i == 0 { assert key(s[0]) == y; } else { assert key(rest[i - 1]) == y; }
        }
      }
    }
  }

  lemma {:induction false} UniqueReject<T(!new), K>(s: seq<T>, p: T -> bool, key: T -> K)
    requires Unique(s, key)
    ensures Unique(Reject(s, p), key)
  {
    if s != [] {
      UniqueReject(s[1..], p, key);
      var rest := Reject(s[1..], p);
      if !p(s[0]) {
        var t := [s[0]] + rest;
        forall i, j | 0 <= i < j < |t| ensures key(t[i]) != key(t[j]) {
          if i == 0 {
            assert t[j] in rest;
            var k :| 0 <= k < |s[1..]| && s[1..][k] == t[j];
            assert s[k + 1] == t[j];
          }
        }
      }
    }
  }

  /** A filter that matches no row selects nothing. */
  lemma {:induction false} FilterNone<T(!new)>(s: seq<T>, p: T -> bool)
    requires forall i :: 0 <= i < |s| ==> !p(s[i])
    ensures Filter(s, p) == []
  {
    if s != [] {
      FilterNone(s[1..], p);
    }
  }
}
