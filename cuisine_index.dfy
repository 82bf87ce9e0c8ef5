/** The `by_cuisine` dictionary both app variants build at load time:
    every restaurant is appended, in input order, to the list stored under
    its normalised cuisine (`dict.setdefault(key, []).append(r)`). The key
    function is a parameter; both variants pass `_norm(r["cuisine"])`. */
module CuisineIndex {
  import opened Seqs

  /** The restaurants of `rs` stored under key `k`, in input order. */
  function Group<R(==, !new)>(rs: seq<R>, key: R -> string, k: string): seq<R> {
    Filter(rs, r => key(r) == k)
  }

  /** Appending one restaurant extends exactly the group of its own key. */
  lemma GroupSnoc<R(!new)>(rs: seq<R>, x: R, key: R -> string, k: string)
    ensures Group(rs + [x], key, k) == Group(rs, key, k) + (if key(x) == k then [x] else [])
  {
    FilterAppend(rs, [x], r => key(r) == k);
    assert Filter([x], r => key(r) == k) == (if key(x) == k then [x] else []) by {
      assert [x][1..] == [];
    }
  }

  /** A key that no restaurant has gets an empty group. */
  lemma GroupOfAbsentKey<R(!new)>(rs: seq<R>, key: R -> string, k: string)
    requires k !in KeySet(rs, key)
    ensures Group(rs, key, k) == []
  {
    var g := Group(rs, key, k);
    assert forall x :: multiset(g)[x] == 0;
    assert multiset(g) == multiset{};
  }

  /** The keys that occur in `rs`. */
  ghost function KeySet<R>(rs: seq<R>, key: R -> string): set<string> {
    set r | r in rs :: key(r)
  }

  lemma KeySetSnoc<R>(rs: seq<R>, x: R, key: R -> string)
    ensures KeySet(rs + [x], key) == KeySet(rs, key) + {key(x)}
  {
    forall k | k in KeySet(rs + [x], key) ensures k in KeySet(rs, key) + {key(x)} {
      var r :| r in rs + [x] && key(r) == k;
      if r != x {
        assert r in rs;
      }
    }
  }

  /** Each restaurant belongs to its own key's group, as often as it occurs,
      and a group holds only restaurants with its key. */
  lemma GroupPlacement<R(!new)>(rs: seq<R>, key: R -> string)
    ensures forall r :: r in rs ==> multiset(Group(rs, key, key(r)))[r] == multiset(rs)[r]
    ensures forall k, r :: r in Group(rs, key, k) ==> key(r) == k
  {
  }

  /** One `setdefault(key(x), []).append(x)` turns the index of `rs` into the
      index of `rs + [x]`. */
  lemma AppendStep<R(!new)>(rs: seq<R>, x: R, key: R -> string, prev: map<string, seq<R>>)
    requires prev.Keys == KeySet(rs, key)
    requires forall k :: k in prev ==> prev[k] == Group(rs, key, k)
    ensures var next := prev[key(x) := (if key(x) in prev then prev[key(x)] else []) + [x]];
      && next.Keys == KeySet(rs + [x], key)
      && forall k :: k in next ==> next[k] == Group(rs + [x], key, k)
  {
    var next := prev[key(x) := (if key(x) in prev then prev[key(x)] else []) + [x]];
    KeySetSnoc(rs, x, key);
    forall k | k in next
      ensures next[k] == Group(rs + [x], key, k)
    {
      GroupSnoc(rs, x, key, k);
      if k == key(x) && k !in prev {
        GroupOfAbsentKey(rs, key, k);
      }
    }
  }

  /** The loop at module level: one `setdefault(...).append(r)` per restaurant.
      The index has one entry per key that occurs, each entry is that key's
      group in input order, and every restaurant sits in its own key's list
      as often as it occurs in the input and in no other list. */
  method Build<R(==, !new)>(rs: seq<R>, key: R -> string) returns (index: map<string, seq<R>>)
    ensures index.Keys == KeySet(rs, key)
    ensures forall k :: k in index ==> index[k] == Group(rs, key, k)
    ensures forall r :: r in rs ==> multiset(index[key(r)])[r] == multiset(rs)[r]
    ensures forall k, r :: k in index && r in index[k] ==> key(r) == k
  {
    index := map[];
    for i := 0 to |rs|
      invariant index.Keys == KeySet(rs[..i], key)
      invariant forall k :: k in index ==> index[k] == Group(rs[..i], key, k)
    {
      AppendStep(rs[..i], rs[i], key, index);
      var k := key(rs[i]);
      var bucket := if k in index then index[k] else [];
      index := index[k := bucket + [rs[i]]];
      assert rs[..i + 1] == rs[..i] + [rs[i]];
    }
    assert rs[..|rs|] == rs;
    GroupPlacement(rs, key);
  }
}
