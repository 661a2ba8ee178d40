/**
 * Python's stable `sorted`/`list.sort(key=...)` as an insertion sort over a
 * comparison `le` ("the key of a is at most the key of b"). The same sort
 * stands for an SQL ORDER BY over an in-memory row sequence; on text keys
 * the database orders by its collation, which a comparison given here only
 * approximates.
 */
module Sorting {

  /** le compares every pair and is transitive: it orders elements by some key. */
  ghost predicate TotalPreorder<T(!new)>(le: (T, T) -> bool) {
    && (forall a, b :: le(a, b) || le(b, a))
    && (forall a, b, c :: le(a, b) && le(b, c) ==> le(a, c))
  }

  predicate SortedBy<T>(s: seq<T>, le: (T, T) -> bool) {
    forall i, j :: 0 <= i < j < |s| ==> le(s[i], s[j])
  }

  /** Puts x in front of the first element whose key is not below x's key. */
  function Insert<T>(x: T, s: seq<T>, le: (T, T) -> bool): (r: seq<T>)
    ensures |r| == |s| + 1
    ensures multiset(r) == multiset(s) + multiset{x}
  {
    if s == [] then [x]
    else if le(x, s[0]) then [x] + s
    else
      assert s == [s[0]] + s[1..];
      [s[0]] + Insert(x, s[1..], le)
  }

  /** Stable sort: elements with equal keys keep their relative order. */
  function SortBy<T>(s: seq<T>, le: (T, T) -> bool): (r: seq<T>)
    ensures |r| == |s|
    ensures multiset(r) == multiset(s)
  {
    if s == [] then []
    else
      assert s == [s[0]] + s[1..];
      Insert(s[0], SortBy(s[1..], le), le)
  }

  lemma {:induction false} InsertSorted<T(!new)>(x: T, s: seq<T>, le: (T, T) -> bool)
    requires TotalPreorder(le) && SortedBy(s, le)
    ensures SortedBy(Insert(x, s, le), le)
    decreases |s|
  {
    if s != [] && !le(x, s[0]) {
      InsertSorted(x, s[1..], le);
      var r := Insert(x, s, le);
      var t := Insert(x, s[1..], le);
      assert r == [s[0]] + t;
      assert le(s[0], x);
      forall j | 0 < j < |r| ensures le(s[0], r[j]) {
        assert r[j] in multiset(t);
        assert r[j] in multiset(s[1..]) + multiset{x};
        if r[j] != x {
          assert r[j] in s[1..];
          var k :| 0 <= k < |s[1..]| && s[1..][k] == r[j];
          assert s[k + 1] == r[j];
        }
      }
    }
  }

  /** SortBy returns its input in key order (and, by its contract, as a permutation). */
  lemma {:induction false} SortBySorted<T(!new)>(s: seq<T>, le: (T, T) -> bool)
    requires TotalPreorder(le)
    ensures SortedBy(SortBy(s, le), le)
  {
    if s != [] {
      SortBySorted(s[1..], le);
      InsertSorted(s[0], SortBy(s[1..], le), le);
    }
  }

  /** [a] when a's key equals y's, else nothing. */
  function Keyed<T>(a: T, y: T, le: (T, T) -> bool): seq<T> {
    if le(a, y) && le(y, a) then [a] else []
  }

  /** The elements of s whose key equals y's, in their order in s. */
  function KeyClass<T>(s: seq<T>, y: T, le: (T, T) -> bool): (r: seq<T>)
    ensures |r| <= |s|
    ensures s != [] ==> r == Keyed(s[0], y, le) + KeyClass(s[1..], y, le)
  {
    if s == [] then []
    else Keyed(s[0], y, le) + KeyClass(s[1..], y, le)
  }

  /** An element below x's key never shares a key with x, so the two commute in a key class. */
  lemma KeyedSwap<T(!new)>(x: T, a: T, rest: seq<T>, y: T, le: (T, T) -> bool)
    requires TotalPreorder(le) && !le(x, a)
    ensures Keyed(a, y, le) + (Keyed(x, y, le) + rest) == Keyed(x, y, le) + (Keyed(a, y, le) + rest)
  {
    assert le(x, y) && le(y, x) && le(a, y) && le(y, a) ==> le(x, a);
    if Keyed(x, y, le) == [] {
      assert Keyed(x, y, le) + rest == rest;
    } else {
      assert Keyed(a, y, le) == [];
    }
  }

  /** Inserting x puts it in front of every element of its own key. */
  lemma {:induction false} InsertKeyClass<T(!new)>(x: T, s: seq<T>, y: T, le: (T, T) -> bool)
    requires TotalPreorder(le)
    ensures KeyClass(Insert(x, s, le), y, le) == Keyed(x, y, le) + KeyClass(s, y, le)
    decreases |s|
  {
    var r := Insert(x, s, le);
    if s == [] {
      assert r == [x] && r[1..] == [];
    } else if le(x, s[0]) {
      assert r[0] == x && r[1..] == s;
    } else {
      InsertKeyClass(x, s[1..], y, le);
      assert r[0] == s[0] && r[1..] == Insert(x, s[1..], le);
      KeyedSwap(x, s[0], KeyClass(s[1..], y, le), y, le);
    }
  }

  /**
   * SortBy is stable: for every key, the elements carrying it come out in
   * the order they went in.
   */
  lemma {:induction false} SortByStable<T(!new)>(s: seq<T>, y: T, le: (T, T) -> bool)
    requires TotalPreorder(le)
    ensures KeyClass(SortBy(s, le), y, le) == KeyClass(s, y, le)
  {
    if s != [] {
      SortByStable(s[1..], y, le);
      InsertKeyClass(s[0], SortBy(s[1..], le), y, le);
    }
  }
}
