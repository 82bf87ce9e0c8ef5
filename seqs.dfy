/** Python list operations the app relies on: list comprehensions with an
    `if` filter, `list.remove`, and lists that never hold a value twice. */
module Seqs {

  /** `[x for x in s if p(x)]`: keeps exactly the elements that pass, with
      their multiplicities, in their original order (see FilterAppend). */
  function Filter<T(==, !new)>(s: seq<T>, p: T -> bool): (r: seq<T>)
    ensures |r| <= |s|
    ensures forall x :: x in r ==> x in s && p(x)
    ensures forall x :: multiset(r)[x] == if p(x) then multiset(s)[x] else 0
  {
    if s == [] then []
    else
      assert s == [s[0]] + s[1..];
      (if p(s[0]) then [s[0]] else []) + Filter(s[1..], p)
  }

  /** `a` is `b` with some elements left out and the rest in their
      original order. */
  predicate Subseq<T(==)>(a: seq<T>, b: seq<T>)
    decreases |b|
  {
    if a == [] then true
    else if b == [] then false
    else (a[0] == b[0] && Subseq(a[1..], b[1..])) || Subseq(a, b[1..])
  }

  /** A filter keeps its elements in input order. */
  lemma {:induction false} FilterSubseq<T(!new)>(s: seq<T>, p: T -> bool)
    ensures Subseq(Filter(s, p), s)
  {
    if s != [] {
      assert s == [s[0]] + s[1..];
      var rest := Filter(s[1..], p);
      FilterSubseq(s[1..], p);
      if p(s[0]) {
        assert Filter(s, p) == [s[0]] + rest;
        assert Filter(s, p)[1..] == rest;
      } else {
        assert Filter(s, p) == rest;
      }
    }
  }

  /** Filtering distributes over concatenation: the filter keeps the
      relative order of the elements it keeps. */
  lemma {:induction false} FilterAppend<T(!new)>(s: seq<T>, t: seq<T>, p: T -> bool)
    ensures Filter(s + t, p) == Filter(s, p) + Filter(t, p)
  {
    if s == [] {
      assert s + t == t;
    } else {
      var st := s + t;
      var head: seq<T> := if p(s[0]) then [s[0]] else [];
      assert st[0] == s[0] && st[1..] == s[1..] + t;
      FilterAppend(s[1..], t, p);
      assert Filter(st, p) == head + Filter(st[1..], p);
      assert Filter(s, p) == head + Filter(s[1..], p);
      AppendAssoc(head, Filter(s[1..], p), Filter(t, p));
    }
  }

  lemma AppendAssoc<T>(a: seq<T>, b: seq<T>, c: seq<T>)
    ensures a + (b + c) == (a + b) + c
  {
  }

  /** A list in which no value occurs twice. */
  ghost predicate NoDup<T>(s: seq<T>) {
    forall i, j :: 0 <= i < j < |s| ==> s[i] != s[j]
  }

  lemma NoDupAppend<T>(s: seq<T>, x: T)
    requires NoDup(s) && x !in s
    ensures NoDup(s + [x])
  {
  }

  /** `list.remove(x)`: drops the first occurrence of `x` (Python raises when
      there is none; this function then returns the list unchanged). */
  function RemoveFirst<T(==)>(s: seq<T>, x: T): (r: seq<T>)
    ensures multiset(r) == multiset(s) - multiset{x}
    ensures forall y :: y in r ==> y in s
    ensures x in s ==> |r| == |s| - 1
    ensures x !in s ==> r == s
  {
    if s == [] then []
    else if s[0] == x then
      assert s == [s[0]] + s[1..];
      s[1..]
    else
      assert s == [s[0]] + s[1..];
      [s[0]] + RemoveFirst(s[1..], x)
  }

  /** `list.remove(x)` removes the FIRST occurrence: `x` sits at position
      `i`, does not occur before it, and the result is the list with just
      that position cut out, every other element kept in order. */
  lemma {:induction false} RemoveFirstAt<T>(s: seq<T>, x: T) returns (i: nat)
    requires x in s
    ensures i < |s| && s[i] == x && x !in s[..i]
    ensures RemoveFirst(s, x) == s[..i] + s[i + 1..]
  {
    if s[0] == x {
      i := 0;
    } else {
      var t := s[1..];
      assert s == [s[0]] + t;
      assert x in t;
      var j := RemoveFirstAt(t, x);
      i := j + 1;
      CutAfterCons(s[0], t, j);
    }
  }

  /** Cutting position `j + 1` out of `[a] + t` is cutting `j` out of `t`. */
  lemma CutAfterCons<T>(a: T, t: seq<T>, j: nat)
    requires j < |t|
    ensures ([a] + t)[..j + 1] == [a] + t[..j]
    ensures [a] + (t[..j] + t[j + 1..]) == ([a] + t)[..j + 1] + ([a] + t)[j + 2..]
  {
    assert ([a] + t)[j + 2..] == t[j + 1..];
  }

  /** Removing from a duplicate-free list keeps it duplicate-free and removes
      the value completely. */
  lemma {:induction false} RemoveFirstNoDup<T>(s: seq<T>, x: T)
    requires NoDup(s)
    ensures NoDup(RemoveFirst(s, x)) && x !in RemoveFirst(s, x)
  {
    if s != [] {
      assert s == [s[0]] + s[1..];
      assert NoDup(s[1..]);
      assert s[0] !in s[1..];
      if s[0] != x {
        var rest := RemoveFirst(s[1..], x);
        RemoveFirstNoDup(s[1..], x);
        assert multiset(s[1..])[s[0]] == 0;
        assert multiset(rest)[s[0]] == 0;
        assert s[0] !in rest;
        assert RemoveFirst(s, x) == [s[0]] + rest;
      }
    }
  }

  /** In a duplicate-free list every value occurs at most once. */
  lemma {:induction false} NoDupCountAtMostOne<T>(s: seq<T>, v: T)
    requires NoDup(s)
    ensures multiset(s)[v] <= 1
  {
    if s != [] {
      assert s == [s[0]] + s[1..];
      NoDupCountAtMostOne(s[1..], v);
      if s[0] == v {
        assert v !in s[1..];
      }
    }
  }

  /** A list in which every value occurs at most once has no duplicates. */
  lemma {:induction false} NoDupFromCounts<T>(s: seq<T>)
    requires forall x :: multiset(s)[x] <= 1
    ensures NoDup(s)
  {
    if s != [] {
      assert s == [s[0]] + s[1..];
      assert multiset(s) == multiset{s[0]} + multiset(s[1..]);
      assert multiset(s)[s[0]] <= 1;
      assert multiset(s[1..])[s[0]] == 0;
      forall x ensures multiset(s[1..])[x] <= 1 {
        assert multiset(s)[x] <= 1;
      }
      NoDupFromCounts(s[1..]);
    }
  }

  /** Filtering a duplicate-free list leaves it duplicate-free. */
  lemma FilterNoDup<T(!new)>(s: seq<T>, p: T -> bool)
    ensures NoDup(s) ==> NoDup(Filter(s, p))
  {
    if NoDup(s) {
      forall x ensures multiset(Filter(s, p))[x] <= 1 {
        NoDupCountAtMostOne(s, x);
      }
      NoDupFromCounts(Filter(s, p));
    }
  }
}
