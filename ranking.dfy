/** `sorted(restaurants, key=_score)[:k]`: Python's `sorted` is a stable
    ascending sort, so restaurants are ordered by score and, among equal
    scores, by their position in the input. The order is computed on
    positions: `StableOrder(scores)` lists the indices `0 .. |scores| - 1`
    in the order `sorted` puts them. */
module Ranking {
  import opened Seqs

  /** The score both app variants give a restaurant without a usable
      position (`1e9`), so that it sorts after every located one. */
  const Sentinel: real := 1000000000.0

  /** Distances a haversine on Earth can return (at most half the Earth's
      circumference, about 20000 km) stay far below the sentinel. */
  ghost predicate BelowSentinel(dist: (real, real) -> real) {
    forall lat, lon :: dist(lat, lon) < 2.0 * Sentinel
  }

  /** Position `i` comes before position `j` in a stable ascending sort. */
  predicate Before(scores: seq<real>, i: nat, j: nat)
    requires i < |scores| && j < |scores|
  {
    scores[i] < scores[j] || (scores[i] == scores[j] && i < j)
  }

  ghost predicate InRange(scores: seq<real>, o: seq<nat>) {
    forall a :: 0 <= a < |o| ==> o[a] < |scores|
  }

  /** Every earlier position of `o` comes before every later one. */
  ghost predicate Sorted(scores: seq<real>, o: seq<nat>)
    requires InRange(scores, o)
  {
    forall a, b :: 0 <= a < b < |o| ==> Before(scores, o[a], o[b])
  }

  /** Inserts position `i` behind every position that comes before it. */
  function Insert(scores: seq<real>, o: seq<nat>, i: nat): (r: seq<nat>)
    requires i < |scores| && InRange(scores, o)
    ensures |r| == |o| + 1 && InRange(scores, r)
    ensures multiset(r) == multiset(o) + multiset{i}
  {
    if o == [] then [i]
    else if Before(scores, i, o[0]) then [i] + o
    else
      assert o == [o[0]] + o[1..];
      [o[0]] + Insert(scores, o[1..], i)
  }

  /** Putting a position before a sorted order that it precedes entirely
      gives a sorted order. */
  lemma SortedCons(scores: seq<real>, h: nat, rest: seq<nat>)
    requires h < |scores| && InRange(scores, rest) && Sorted(scores, rest)
    requires forall x :: x in rest ==> Before(scores, h, x)
    ensures InRange(scores, [h] + rest) && Sorted(scores, [h] + rest)
  {
    var o := [h] + rest;
    forall a, b | 0 <= a < b < |o| ensures Before(scores, o[a], o[b]) {
      if a == 0 {
        assert o[b] == rest[b - 1];
      } else {
        assert o[a] == rest[a - 1] && o[b] == rest[b - 1];
      }
    }
  }

  /** Insertion keeps a sorted order sorted. */
  lemma {:induction false} InsertSorted(scores: seq<real>, o: seq<nat>, i: nat)
    requires i < |scores| && InRange(scores, o)
    requires Sorted(scores, o) && i !in o
    ensures Sorted(scores, Insert(scores, o, i))
  {
    if o == [] {
    } else if Before(scores, i, o[0]) {
      assert forall b :: 0 <= b < |o| ==> Before(scores, i, o[b]);
      SortedCons(scores, i, o);
    } else {
      assert o == [o[0]] + o[1..];
      var rest := Insert(scores, o[1..], i);
      InsertSorted(scores, o[1..], i);
      forall x | x in rest ensures Before(scores, o[0], x) {
        assert multiset(rest)[x] > 0;
        assert x in o[1..] || x == i;
      }
      SortedCons(scores, o[0], rest);
    }
  }

  /** Inserting a new position into a sorted duplicate-free order gives a
      sorted duplicate-free order holding one more position. */
  lemma InsertFacts(scores: seq<real>, o: seq<nat>, i: nat)
    requires i < |scores| && InRange(scores, o)
    requires NoDup(o) && Sorted(scores, o) && i !in o
    ensures forall x :: x in Insert(scores, o, i) <==> x in o || x == i
    ensures NoDup(Insert(scores, o, i)) && Sorted(scores, Insert(scores, o, i))
  {
    var r := Insert(scores, o, i);
    InsertSorted(scores, o, i);
    forall x ensures x in r <==> x in o || x == i {
      assert x in r <==> multiset(r)[x] > 0;
      assert x in o <==> multiset(o)[x] > 0;
    }
    forall x ensures multiset(r)[x] <= 1 {
      NoDupCountAtMostOne(o, x);
    }
    NoDupFromCounts(r);
  }

  /** Inserting position `n - 1` into the stable order of the first
      `n - 1` positions gives the stable order of the first `n`. */
  lemma SortPrefixStep(scores: seq<real>, prev: seq<nat>, n: nat)
    requires 0 < n <= |scores| && |prev| == n - 1 && InRange(scores, prev)
    requires forall x :: x in prev <==> 0 <= x < n - 1
    requires NoDup(prev) && Sorted(scores, prev)
    ensures var o := Insert(scores, prev, n - 1);
      && |o| == n && InRange(scores, o)
      && (forall x :: x in o <==> 0 <= x < n)
      && NoDup(o) && Sorted(scores, o)
  {
    InsertFacts(scores, prev, n - 1);
  }

  /** The stable order of the first `n` positions. */
  function SortPrefix(scores: seq<real>, n: nat): (o: seq<nat>)
    requires n <= |scores|
    ensures |o| == n && InRange(scores, o)
    ensures forall x :: x in o <==> 0 <= x < n
    ensures NoDup(o) && Sorted(scores, o)
  {
    if n == 0 then []
    else
      var prev := SortPrefix(scores, n - 1);
      SortPrefixStep(scores, prev, n);
      Insert(scores, prev, n - 1)
  }

  /** The order `sorted(..., key=...)` produces: a permutation of all
      positions, ascending by score, equal scores in input order. */
  function StableOrder(scores: seq<real>): (o: seq<nat>)
    ensures |o| == |scores| && InRange(scores, o)
    ensures forall x :: x in o <==> 0 <= x < |scores|
    ensures NoDup(o) && Sorted(scores, o)
  {
    SortPrefix(scores, |scores|)
  }

  /** `sorted(rs, key=score)[:k]`, with `scores[i]` the score of `rs[i]`. */
  function TopK<R>(rs: seq<R>, scores: seq<real>, k: nat): (r: seq<R>)
    requires |scores| == |rs|
    ensures |r| == if k < |rs| then k else |rs|
    ensures forall j :: 0 <= j < |r| ==> r[j] == rs[StableOrder(scores)[j]]
  {
    var o := StableOrder(scores);
    var n := if k < |rs| then k else |rs|;
    seq(n, j requires 0 <= j < n => rs[o[j]])
  }

  /** In the sorted order scores never decrease, and two positions with the
      same score keep their input order. */
  lemma {:induction false} StableOrderAscending(scores: seq<real>, a: nat, b: nat)
    requires a < b < |scores|
    ensures scores[StableOrder(scores)[a]] <= scores[StableOrder(scores)[b]]
    ensures scores[StableOrder(scores)[a]] == scores[StableOrder(scores)[b]] ==>
              StableOrder(scores)[a] < StableOrder(scores)[b]
  {
    var o := StableOrder(scores);
    assert Before(scores, o[a], o[b]);
  }

  /** `sorted(rs, key=...)[:k]` lists its restaurants by ascending score. */
  lemma TopKAscending<R>(rs: seq<R>, scores: seq<real>, k: nat)
    requires |scores| == |rs|
    ensures forall a, b :: 0 <= a < b < |TopK(rs, scores, k)| ==>
              scores[StableOrder(scores)[a]] <= scores[StableOrder(scores)[b]]
  {
    forall a, b | 0 <= a < b < |TopK(rs, scores, k)|
      ensures scores[StableOrder(scores)[a]] <= scores[StableOrder(scores)[b]]
    {
      StableOrderAscending(scores, a, b);
    }
  }

  /** When no score exceeds `sentinel`, every position scored below it comes
      before every position scored exactly `sentinel`. */
  lemma SentinelLast(scores: seq<real>, sentinel: real, a: nat, b: nat)
    requires forall i :: 0 <= i < |scores| ==> scores[i] <= sentinel
    requires a < |scores| && b < |scores|
    requires scores[StableOrder(scores)[a]] == sentinel
    requires scores[StableOrder(scores)[b]] < sentinel
    ensures b < a
  {
    var o := StableOrder(scores);
    if a < b {
      StableOrderAscending(scores, a, b);
    }
    assert a != b;
  }

  /** `[0, 1, ..., n - 1]`. */
  function Iota(n: nat): (r: seq<nat>)
    ensures |r| == n && forall j :: 0 <= j < n ==> r[j] == j
  {
    if n == 0 then [] else Iota(n - 1) + [n - 1]
  }

  /** Inserting a position that comes after every listed one appends it. */
  lemma {:induction false} InsertLast(scores: seq<real>, o: seq<nat>, i: nat)
    requires i < |scores| && InRange(scores, o)
    requires forall a :: 0 <= a < |o| ==> Before(scores, o[a], i)
    ensures Insert(scores, o, i) == o + [i]
  {
    if o != [] {
      InsertLast(scores, o[1..], i);
    }
  }

  /** When all scores are equal, the sort keeps the input order. */
  lemma {:induction false} EqualScoresKeepOrder(scores: seq<real>, n: nat)
    requires n <= |scores|
    requires forall i :: 0 <= i < |scores| ==> scores[i] == scores[0]
    ensures SortPrefix(scores, n) == Iota(n)
  {
    if n > 0 {
      EqualScoresKeepOrder(scores, n - 1);
      InsertLast(scores, Iota(n - 1), n - 1);
    }
  }

  /** When all scores are equal, `sorted(rs, key=...)[:k]` is `rs[:k]`. */
  lemma EqualScoresTopK<R>(rs: seq<R>, scores: seq<real>, k: nat)
    requires |scores| == |rs|
    requires forall i :: 0 <= i < |scores| ==> scores[i] == scores[0]
    ensures TopK(rs, scores, k) == rs[..if k < |rs| then k else |rs|]
  {
    EqualScoresKeepOrder(scores, |scores|);
  }
}
