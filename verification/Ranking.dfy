/** Ordering by descending score, ties by ascending index: the comparator both
    sorts of the postprocess use. It is total, so any sorting algorithm must
    produce the same arrangement (ArrangementUnique). */
module Ranking {

  predicate Precedes(score: seq<real>, a: nat, b: nat)
    requires a < |score| && b < |score|
  {
    score[a] > score[b] || (score[a] == score[b] && a < b)
  }

  predicate Within(score: seq<real>, order: seq<nat>) {
    forall i :: 0 <= i < |order| ==> order[i] < |score|
  }

  predicate Arranged(score: seq<real>, order: seq<nat>)
    requires Within(score, order)
  {
    forall i, j :: 0 <= i < j < |order| ==> Precedes(score, order[i], order[j])
  }

  function Elems(order: seq<nat>): set<nat> { set i | i in order }

  function Insert(score: seq<real>, x: nat, order: seq<nat>): (r: seq<nat>)
    requires x < |score| && Within(score, order)
    ensures Within(score, r) && |r| == |order| + 1
  {
    if order == [] then [x]
    else if Precedes(score, x, order[0]) then [x] + order
    else [order[0]] + Insert(score, x, order[1..])
  }

  /** `std::sort` of the indices in `keep`. */
  function Sort(score: seq<real>, keep: seq<nat>): (r: seq<nat>)
    requires Within(score, keep)
    ensures Within(score, r) && |r| == |keep|
  {
    if keep == [] then [] else Insert(score, keep[0], Sort(score, keep[1..]))
  }

  lemma {:induction false} InsertArranges(score: seq<real>, x: nat, order: seq<nat>)
    requires x < |score| && Within(score, order) && Arranged(score, order) && x !in order
    ensures Arranged(score, Insert(score, x, order))
    ensures Elems(Insert(score, x, order)) == Elems(order) + {x}
  {
    if order == [] {
    } else if Precedes(score, x, order[0]) {
      assert Insert(score, x, order) == [x] + order;
    } else {
      var rest := order[1..];
      InsertArranges(score, x, rest);
      assert order == [order[0]] + rest;
      var tail := Insert(score, x, rest);
      forall j | 0 <= j < |tail| ensures Precedes(score, order[0], tail[j]) {
        assert tail[j] in Elems(rest) + {x};
        if tail[j] != x {
          assert tail[j] in rest;
        }
      }
      assert Insert(score, x, order) == [order[0]] + tail;
    }
  }

  predicate Distinct(order: seq<nat>) {
    forall i, j :: 0 <= i < j < |order| ==> order[i] != order[j]
  }

  /** Sorting arranges exactly the given indices. */
  lemma {:induction false} SortArranges(score: seq<real>, keep: seq<nat>)
    requires Within(score, keep) && Distinct(keep)
    ensures Arranged(score, Sort(score, keep)) && Elems(Sort(score, keep)) == Elems(keep)
  {
    if keep != [] {
      SortArranges(score, keep[1..]);
      var tail := Sort(score, keep[1..]);
      assert keep[0] in tail <==> keep[0] in Elems(tail);
      InsertArranges(score, keep[0], tail);
      assert keep == [keep[0]] + keep[1..];
    }
  }

  /** Only one arrangement of a set of indices exists. */
  lemma {:induction false} ArrangementUnique(score: seq<real>, a: seq<nat>, b: seq<nat>)
    requires Within(score, a) && Within(score, b)
    requires Arranged(score, a) && Arranged(score, b) && Elems(a) == Elems(b)
    ensures a == b
  {
    if a == [] || b == [] {
      NoElems(a);
      NoElems(b);
    } else {
      assert a[0] in Elems(b) && b[0] in Elems(a);
      var i :| 0 <= i < |b| && b[i] == a[0];
      var j :| 0 <= j < |a| && a[j] == b[0];
      assert a[0] == b[0];
      assert Elems(a[1..]) == Elems(a) - {a[0]} by { TailElems(score, a); }
      assert Elems(b[1..]) == Elems(b) - {b[0]} by { TailElems(score, b); }
      ArrangementUnique(score, a[1..], b[1..]);
    }
  }

  lemma NoElems(order: seq<nat>)
    ensures Elems(order) == {} <==> order == []
  {
    if order != [] {
      assert order[0] in Elems(order);
    }
  }

  lemma TailElems(score: seq<real>, a: seq<nat>)
    requires a != [] && Within(score, a) && Arranged(score, a)
    ensures Elems(a[1..]) == Elems(a) - {a[0]}
  {
    assert a == [a[0]] + a[1..];
  }

  /** Whatever is left out of the first `n` ranks after all of them. */
  lemma TopNIsTop(score: seq<real>, keep: seq<nat>, n: nat, x: nat)
    requires Within(score, keep) && Distinct(keep) && n <= |keep|
    requires x in keep && x !in Sort(score, keep)[..n]
    ensures forall i :: 0 <= i < n ==> Precedes(score, Sort(score, keep)[i], x)
  {
    SortArranges(score, keep);
    var order := Sort(score, keep);
    assert x in Elems(order);
    var j :| 0 <= j < |order| && order[j] == x;
    assert forall k :: 0 <= k < n ==> order[k] in order[..n];
  }
}
