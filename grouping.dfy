/**
 * Grouping rows by a key in order of first appearance: the shape of the
 * `defaultdict` loops of the report routes. The first row of a key creates
 * its entry (`start`), and every row of that key, the first included,
 * updates it (`step`). Python dicts keep insertion order, so the entries
 * come out in the order their keys first appear.
 */
module Grouping {

  /** Some row has key k. */
  predicate Mentions<R, K(==,!new)>(rows: seq<R>, key: R -> K, k: K) {
    exists j :: 0 <= j < |rows| && key(rows[j]) == k
  }

  lemma MentionsSnoc<R, K(!new)>(rows: seq<R>, key: R -> K, k: K)
    requires rows != []
    ensures Mentions(rows, key, k) <==> Mentions(rows[..|rows| - 1], key, k) || key(rows[|rows| - 1]) == k
  {
    var front := rows[..|rows| - 1];
    if Mentions(front, key, k) {
      var j :| 0 <= j < |front| && key(front[j]) == k;
      assert key(rows[j]) == k;
    }
    if Mentions(rows, key, k) && key(rows[|rows| - 1]) != k {
      var j :| 0 <= j < |rows| && key(rows[j]) == k;
      assert key(front[j]) == k;
    }
  }

  /** The distinct keys of the rows, in order of first appearance. */
  function Keys<R, K(==,!new)>(rows: seq<R>, key: R -> K): (ks: seq<K>)
    ensures forall a, b :: 0 <= a < b < |ks| ==> ks[a] != ks[b]
    ensures forall k :: k in ks <==> Mentions(rows, key, k)
  {
    if rows == [] then []
    else
      var front := Keys(rows[..|rows| - 1], key);
      var k := key(rows[|rows| - 1]);
      assert forall x :: Mentions(rows, key, x) <==> Mentions(rows[..|rows| - 1], key, x) || k == x by {
        forall x ensures Mentions(rows, key, x) <==> Mentions(rows[..|rows| - 1], key, x) || k == x {
          MentionsSnoc(rows, key, x);
        }
      }
      if k in front then front else front + [k]
  }

  /** The rows with key k, in row order. */
  function Members<R, K(==,!new)>(rows: seq<R>, key: R -> K, k: K): (rs: seq<R>)
    ensures |rs| <= |rows|
    ensures forall j :: 0 <= j < |rs| ==> key(rs[j]) == k && rs[j] in rows
    ensures rs != [] <==> Mentions(rows, key, k)
  {
    if rows == [] then []
    else
      MentionsSnoc(rows, key, k);
      var last := rows[|rows| - 1];
      Members(rows[..|rows| - 1], key, k) + (if key(last) == k then [last] else [])
  }

  /** A longer row sequence keeps the first row of every key it already had. */
  lemma MembersFirst<R, K(!new)>(rows: seq<R>, key: R -> K, k: K)
    requires rows != [] && Members(rows[..|rows| - 1], key, k) != []
    ensures Members(rows, key, k)[0] == Members(rows[..|rows| - 1], key, k)[0]
  {
  }

  /** One more element of a prefix. */
  lemma PrefixSnoc<T>(s: seq<T>, j: nat)
    requires j < |s|
    ensures s[..j + 1] == s[..j] + [s[j]]
  {
  }

  lemma PrefixAll<T>(s: seq<T>)
    ensures s[..|s|] == s
  {
  }

  /** Left fold: a, updated by each row in turn. */
  function Fold<R, A>(a: A, rs: seq<R>, step: (A, R) -> A): A {
    if rs == [] then a else step(Fold(a, rs[..|rs| - 1], step), rs[|rs| - 1])
  }

  lemma FoldSnoc<R, A>(a: A, rs: seq<R>, r: R, step: (A, R) -> A)
    ensures Fold(a, rs + [r], step) == step(Fold(a, rs, step), r)
  {
    assert (rs + [r])[..|rs|] == rs;
  }

  /** The entry of one group: created from its first row, then updated by each of its rows. */
  function Entry<R, A>(rs: seq<R>, start: R -> A, step: (A, R) -> A): A
    requires rs != []
  {
    Fold(start(rs[0]), rs, step)
  }

  /** The keys seen so far, in first-appearance order, and one entry per key. */
  datatype Groups<K, A> = Groups(order: seq<K>, entries: map<K, A>)

  /** One row of the loop: create the entry of an unseen key, then update the row's entry. */
  function Absorb<R, K(==,!new), A>(g: Groups<K, A>, row: R, key: R -> K, start: R -> A, step: (A, R) -> A): (h: Groups<K, A>)
    ensures key(row) in h.entries
    ensures forall k :: k in h.entries <==> k in g.entries || k == key(row)
  {
    var k := key(row);
    if k in g.entries then Groups(g.order, g.entries[k := step(g.entries[k], row)])
    else Groups(g.order + [k], g.entries[k := step(start(row), row)])
  }

  /** The groups after the whole loop. */
  function GroupAll<R, K(==,!new), A>(rows: seq<R>, key: R -> K, start: R -> A, step: (A, R) -> A): Groups<K, A> {
    if rows == [] then Groups([], map[])
    else Absorb(GroupAll(rows[..|rows| - 1], key, start, step), rows[|rows| - 1], key, start, step)
  }

  lemma GroupAllSnoc<R, K(!new), A>(rows: seq<R>, i: nat, key: R -> K, start: R -> A, step: (A, R) -> A)
    requires i < |rows|
    ensures GroupAll(rows[..i + 1], key, start, step) == Absorb(GroupAll(rows[..i], key, start, step), rows[i], key, start, step)
  {
    var p := rows[..i + 1];
    assert p[..|p| - 1] == rows[..i];
    assert p[|p| - 1] == rows[i];
  }

  /** The groups hold, for each key in first-appearance order, the entry of that key's rows. */
  ghost predicate Grouped<R, K(!new), A>(rows: seq<R>, g: Groups<K, A>, key: R -> K, start: R -> A, step: (A, R) -> A) {
    && g.order == Keys(rows, key)
    && (forall k :: k in g.entries <==> k in g.order)
    && (forall k :: k in g.entries ==> Members(rows, key, k) != [] && g.entries[k] == Entry(Members(rows, key, k), start, step))
  }

  /** The one-pass loop groups the rows: its result is the declarative grouping. */
  lemma {:induction false} GroupAllGrouped<R, K(!new), A>(rows: seq<R>, key: R -> K, start: R -> A, step: (A, R) -> A)
    ensures Grouped(rows, GroupAll(rows, key, start, step), key, start, step)
  {
    if rows != [] {
      var front := rows[..|rows| - 1];
      var row := rows[|rows| - 1];
      GroupAllGrouped(front, key, start, step);
      var g := GroupAll(front, key, start, step);
      var h := Absorb(g, row, key, start, step);
      forall k | k in h.entries
        ensures Members(rows, key, k) != [] && h.entries[k] == Entry(Members(rows, key, k), start, step)
      {
        if k != key(row) {
          assert Members(rows, key, k) == Members(front, key, k) + [];
          assert Members(front, key, k) + [] == Members(front, key, k);
        } else if k in g.entries {
          FoldSnoc(start(Members(front, key, k)[0]), Members(front, key, k), row, step);
        } else {
          assert Members(rows, key, k) == [] + [row];
          FoldSnoc(start(row), [], row, step);
        }
      }
    }
  }

  /** The loop of a grouping route: one pass over the rows, creating and updating entries. */
  method GroupRows<R, K(==,!new), A>(rows: seq<R>, key: R -> K, start: R -> A, step: (A, R) -> A) returns (g: Groups<K, A>)
    ensures g == GroupAll(rows, key, start, step)
    ensures Grouped(rows, g, key, start, step)
  {
    g := Groups([], map[]);
    var i := 0;
    while i < |rows|
      invariant 0 <= i <= |rows|
      invariant g == GroupAll(rows[..i], key, start, step)
    {
      GroupAllSnoc(rows, i, key, start, step);
      g := Absorb(g, rows[i], key, start, step);
      i := i + 1;
    }
    assert rows[..|rows|] == rows;
    GroupAllGrouped(rows, key, start, step);
  }
}
