/** The engine of `AtomCharm/Main.py` (NYC Food Swipe v2.5): liked dishes are
    stored by name without duplicates, badges unlock at 3, 7 and 15 likes,
    the dietary filter is a case-insensitive substring test, a missing
    restaurant position is looked up with a geocoder, and the recommendation
    list is as long as the list of likes. */
module SwipeMain {
  import opened Options
  import opened Seqs
  import opened Text
  import opened Moods
  import Ranking
  import Levels
  import Badges
  import CuisineIndex

  // ---------------------------------------------------------------- records

  /** `MOOD_KEYWORDS`: the cuisine substring a mood rewards. */
  function MoodKeyword(m: Mood): string
    requires m != Any
  {
    match m
    case Comforting => "comfort"
    case Healthy => "healthy"
    case Adventurous => "spicy"
  }

  /** A dish record; a missing `Dietary_Restrictions` field reads as "". */
  datatype Dish = Dish(name: string, culture: string, dietary: string, mood: Option<string>)

  /** A restaurant record; `lat`/`lon` may be missing. */
  datatype Restaurant = Restaurant(name: string, cuisine: string, address: string,
                                   lat: Option<real>, lon: Option<real>)

  /** `BADGE_THRESH`. */
  const BadgeThresh: seq<(nat, string)> := [(3, "Taster ×3"), (7, "Foodie ×7"), (15, "Gourmand ×15")]

  /** XP awarded for a newly liked dish. */
  const LikeXp: nat := 10

  // ---------------------------------------------------------------- badges

  /** The badges `n` likes have reached. */
  function Earned(n: nat): set<string> {
    Badges.Earned(BadgeThresh, n)
  }

  /** The badge table spelled out: each badge is reached exactly at its
      threshold. */
  lemma EarnedTable(n: nat)
    ensures Earned(n) ==
      (if n >= 15 then {"Taster ×3", "Foodie ×7", "Gourmand ×15"}
       else if n >= 7 then {"Taster ×3", "Foodie ×7"}
       else if n >= 3 then {"Taster ×3"}
       else {})
  {
    assert BadgeThresh[0] == (3, "Taster ×3");
    assert BadgeThresh[1] == (7, "Foodie ×7");
    assert BadgeThresh[2] == (15, "Gourmand ×15");
    if n >= 15 {
      assert "Taster ×3" in Earned(n) && "Foodie ×7" in Earned(n) && "Gourmand ×15" in Earned(n);
    } else if n >= 7 {
      assert "Taster ×3" in Earned(n) && "Foodie ×7" in Earned(n);
    } else if n >= 3 {
      assert "Taster ×3" in Earned(n);
    }
  }

  // ---------------------------------------------------------------- filter

  /** The Swipe page's test: every selected dietary tag occurs, ignoring
      case, as a substring of the dish's restrictions text, and the mood is
      "Any" or equals the dish's mood. */
  predicate Passes(d: Dish, diet: seq<string>, mood: Mood)
    ensures diet == [] && mood == Any ==> Passes(d, diet, mood)
    ensures Passes(d, diet, mood) && mood != Any ==> d.mood.Some?
  {
    && (forall t :: t in diet ==> Contains(Lower(d.dietary), Lower(t)))
    && (mood == Any || d.mood == Some(MoodName(mood)))
  }

  /** How many of the first `n` dishes pass the filter. */
  function CountMatches(foods: seq<Dish>, diet: seq<string>, mood: Mood, n: nat): (c: nat)
    requires n <= |foods|
    ensures c <= n
  {
    if n == 0 then 0
    else CountMatches(foods, diet, mood, n - 1) + (if Passes(foods[n - 1], diet, mood) then 1 else 0)
  }

  lemma {:induction false} CountMatchesMonotone(foods: seq<Dish>, diet: seq<string>, mood: Mood, m: nat, n: nat)
    requires m <= n <= |foods|
    ensures CountMatches(foods, diet, mood, m) <= CountMatches(foods, diet, mood, n)
    decreases n - m
  {
    if m < n {
      CountMatchesMonotone(foods, diet, mood, m, n - 1);
    }
  }

  /** The mini progress indicator `cur_index/total_matches` for the dish at
      `idx`: when the shown dish passes the filter, the position among the
      matches is at least 1 and at most the number of matches, so the
      division never divides by zero and the bar stays within [0, 1]. */
  function MatchProgress(foods: seq<Dish>, diet: seq<string>, mood: Mood, idx: nat): (r: (nat, nat))
    requires idx < |foods| && Passes(foods[idx], diet, mood)
    ensures 1 <= r.0 <= r.1
  {
    CountMatchesMonotone(foods, diet, mood, idx + 1, |foods|);
    (CountMatches(foods, diet, mood, idx + 1), CountMatches(foods, diet, mood, |foods|))
  }

  // ---------------------------------------------------------------- catalogue

  /** The `by_cuisine` key of a restaurant. */
  function CuisineKey(r: Restaurant): string {
    Norm(r.cuisine)
  }

  /** The `by_cuisine` build loop over the raw restaurants: one entry per
      normalised cuisine that occurs, each holding that cuisine's
      restaurants in file order; every restaurant is filed under its own
      key as often as it occurs, and under no other key. */
  method ByCuisine(restaurants: seq<Restaurant>) returns (byCuisine: map<string, seq<Restaurant>>)
    ensures byCuisine.Keys == CuisineIndex.KeySet(restaurants, CuisineKey)
    ensures forall k :: k in byCuisine ==> byCuisine[k] == CuisineIndex.Group(restaurants, CuisineKey, k)
    ensures forall r :: r in restaurants ==> multiset(byCuisine[Norm(r.cuisine)])[r] == multiset(restaurants)[r]
    ensures forall k, r :: k in byCuisine && r in byCuisine[k] ==> Norm(r.cuisine) == k
  {
    byCuisine := CuisineIndex.Build(restaurants, CuisineKey);
  }

  // ---------------------------------------------------------------- lookups

  /** `_find_food(name)`: the first dish with that name, if any. */
  function FindFood(foods: seq<Dish>, name: string): (r: Option<Dish>)
    ensures r.Some? ==> r.value in foods && r.value.name == name
    ensures r.None? <==> forall f :: f in foods ==> f.name != name
  {
    if foods == [] then None
    else if foods[0].name == name then Some(foods[0])
    else
      assert foods == [foods[0]] + foods[1..];
      FindFood(foods[1..], name)
  }

  /** `next(...)` stops at the first match: the dish found sits at an
      index `i` and no dish before `i` carries the name. */
  lemma {:induction false} FindFoodFirst(foods: seq<Dish>, name: string) returns (i: nat)
    requires FindFood(foods, name).Some?
    ensures i < |foods| && foods[i] == FindFood(foods, name).value
    ensures forall j :: 0 <= j < i ==> foods[j].name != name
  {
    if foods[0].name == name {
      i := 0;
    } else {
      var k := FindFoodFirst(foods[1..], name);
      i := k + 1;
    }
  }

  /** Some dish in the catalogue has this name. */
  ghost predicate InCatalog(foods: seq<Dish>, name: string) {
    exists f :: f in foods && f.name == name
  }

  /** The Favorites search: the liked names that contain the query, ignoring
      case, in the order they were liked. */
  function SearchFavourites(likes: seq<string>, query: string): (visible: seq<string>)
    ensures forall n :: n in visible <==> n in likes && Contains(Lower(n), Lower(query))
    ensures NoDup(likes) ==> NoDup(visible)
    ensures Subseq(visible, likes)
  {
    var v := Filter(likes, n => Contains(Lower(n), Lower(query)));
    FilterSubseq(likes, n => Contains(Lower(n), Lower(query)));
    assert forall n :: n in likes && Contains(Lower(n), Lower(query)) ==> multiset(v)[n] > 0;
    FilterNoDup(likes, n => Contains(Lower(n), Lower(query)));
    v
  }

  // ---------------------------------------------------------------- recommendations

  /** `liked_cuis`: the culture of every liked name found in the catalogue,
      in like order. */
  function LikedCultures(foods: seq<Dish>, likes: seq<string>): (cs: seq<string>)
    ensures |cs| <= |likes|
    ensures (forall n :: n in likes ==> InCatalog(foods, n)) ==> |cs| == |likes|
    ensures (forall n :: n in likes ==> InCatalog(foods, n)) ==>
              forall i :: 0 <= i < |likes| ==>
                FindFood(foods, likes[i]).Some? && cs[i] == FindFood(foods, likes[i]).value.culture
  {
    if likes == [] then []
    else
      var f := FindFood(foods, likes[0]);
      assert forall n :: n in likes[1..] ==> n in likes;
      assert InCatalog(foods, likes[0]) ==> f.Some?;
      (if f.Some? then [f.value.culture] else []) + LikedCultures(foods, likes[1..])
  }

  /** `order` lists the set `set(cs)` once per element, in the order the
      comprehension visits it (Python's set order, not modelled further). */
  ghost predicate Enumerates(order: seq<string>, cs: seq<string>) {
    NoDup(order) && forall c :: c in order <==> c in cs
  }

  /** How many of `cs` normalise to `k`: what a count by normalised culture
      would give. */
  function NormCount(cs: seq<string>, k: string): (n: nat)
    ensures n <= |cs|
  {
    if cs == [] then 0 else (if Norm(cs[0]) == k then 1 else 0) + NormCount(cs[1..], k)
  }

  /** `freq = {_norm(c): liked_cuis.count(c) for c in set(liked_cuis)}` with
      the set visited in the order `order`. Each raw culture writes its own
      raw count under its normalised key, so when two spellings share a key
      the one visited last decides the entry. */
  function Freq(cs: seq<string>, order: seq<string>): (freq: map<string, nat>)
    ensures |freq| <= |order|
    ensures forall k :: k in freq ==> freq[k] <= |cs|
  {
    if order == [] then map[]
    else
      var init := order[..|order| - 1];
      var last := order[|order| - 1];
      RawCountAtMostNormCount(cs, last);
      Freq(cs, init)[Norm(last) := multiset(cs)[last]]
  }

  /** The keys of `freq` are the normalised visited cultures. */
  lemma {:induction false} FreqKeys(cs: seq<string>, order: seq<string>)
    ensures Freq(cs, order).Keys == set c | c in order :: Norm(c)
  {
    if order != [] {
      var init := order[..|order| - 1];
      var last := order[|order| - 1];
      assert order == init + [last];
      FreqKeys(cs, init);
      FreqSnoc(cs, init, last);
      KeysSnoc(init, last);
    }
  }

  lemma KeysSnoc(order: seq<string>, last: string)
    ensures (set c | c in order + [last] :: Norm(c)) == (set c | c in order :: Norm(c)) + {Norm(last)}
  {
    var after := set c | c in order + [last] :: Norm(c);
    var before := set c | c in order :: Norm(c);
    forall x | x in after ensures x in before + {Norm(last)} {
      var c :| c in order + [last] && Norm(c) == x;
      if c != last {
        assert c in order;
      }
    }
    forall x | x in before + {Norm(last)} ensures x in after {
      if x in before {
        var c :| c in order && Norm(c) == x;
        assert c in order + [last];
      } else {
        assert last in order + [last];
      }
    }
  }

  /** Every entry of `freq` holds the raw count of a visited culture with
      that key: the last one visited. */
  lemma {:induction false} FreqEntry(cs: seq<string>, order: seq<string>, k: string) returns (c: string)
    requires k in Freq(cs, order)
    ensures c in order && Norm(c) == k && Freq(cs, order)[k] == multiset(cs)[c]
  {
    var init := order[..|order| - 1];
    var last := order[|order| - 1];
    if Norm(last) == k {
      c := last;
    } else {
      c := FreqEntry(cs, init, k);
      assert c in order;
    }
  }

  /** A raw culture is counted no more often than all cultures sharing its
      normalised form. */
  lemma {:induction false} RawCountAtMostNormCount(cs: seq<string>, c: string)
    ensures multiset(cs)[c] <= NormCount(cs, Norm(c))
  {
    if cs != [] {
      assert cs == [cs[0]] + cs[1..];
      RawCountAtMostNormCount(cs[1..], c);
    }
  }

  /** When every raw spelling in `cs` differs from `c`'s normalised form
      except `c` itself, counting `c` and counting its key agree. */
  lemma {:induction false} RawCountIsNormCount(cs: seq<string>, c: string)
    requires forall x :: x in cs && Norm(x) == Norm(c) ==> x == c
    ensures multiset(cs)[c] == NormCount(cs, Norm(c))
  {
    if cs != [] {
      assert cs == [cs[0]] + cs[1..];
      RawCountIsNormCount(cs[1..], c);
    }
  }

  /** Every key of `freq` is a normalised liked culture and vice versa, and
      an entry is never more than the number of likes with that key: last
      write wins, so colliding spellings are under-counted, never summed. */
  lemma FreqBounds(cs: seq<string>, order: seq<string>)
    requires Enumerates(order, cs)
    ensures Freq(cs, order).Keys == set c | c in cs :: Norm(c)
    ensures forall k :: k in Freq(cs, order) ==> 1 <= Freq(cs, order)[k] <= NormCount(cs, k)
  {
    var freq := Freq(cs, order);
    FreqKeys(cs, order);
    forall k | k in freq ensures 1 <= freq[k] <= NormCount(cs, k) {
      var c := FreqEntry(cs, order, k);
      RawCountAtMostNormCount(cs, c);
    }
  }

  /** When no two liked spellings normalise alike, `freq` maps each
      normalised culture to the number of likes with that culture. */
  lemma FreqWithoutCollisions(cs: seq<string>, order: seq<string>)
    requires Enumerates(order, cs)
    requires forall x, y :: x in cs && y in cs && Norm(x) == Norm(y) ==> x == y
    ensures forall c :: c in cs ==> Norm(c) in Freq(cs, order) && Freq(cs, order)[Norm(c)] == NormCount(cs, Norm(c))
  {
    var freq := Freq(cs, order);
    FreqKeys(cs, order);
    forall c | c in cs ensures Norm(c) in freq && freq[Norm(c)] == NormCount(cs, Norm(c)) {
      assert Norm(c) in freq;
      var c' := FreqEntry(cs, order, Norm(c));
      assert c' == c;
      RawCountIsNormCount(cs, c);
    }
  }

  /** Two spellings of one cuisine: "Chinese" and "chinese" were each liked
      once, yet `freq["chinese"]` is 1, not 2. */
  lemma FreqCollisionUndercounts()
    ensures Freq(["Chinese", "chinese"], ["Chinese", "chinese"]) == map["chinese" := 1]
    ensures NormCount(["Chinese", "chinese"], "chinese") == 2
  {
    NormChinese();
    FreqOfTwoSpellings("Chinese", "chinese");
    NormCountOfTwoSpellings("Chinese", "chinese");
  }

  /** One more culture visited writes its raw count under its key,
      overwriting whatever was there. */
  lemma FreqSnoc(cs: seq<string>, order: seq<string>, c: string)
    ensures Freq(cs, order + [c]) == Freq(cs, order)[Norm(c) := multiset(cs)[c]]
  {
    assert (order + [c])[..|order|] == order;
  }

  /** Visiting two cultures writes the first one's count, then the second's. */
  lemma FreqPair(cs: seq<string>, a: string, b: string)
    ensures Freq(cs, [a, b]) == map[Norm(a) := multiset(cs)[a]][Norm(b) := multiset(cs)[b]]
  {
    FreqSnoc(cs, [], a);
    assert [] + [a] == [a];
    FreqSnoc(cs, [a], b);
    assert [a] + [b] == [a, b];
  }

  /** Two different spellings of one key, each liked once: the entry is 1. */
  lemma FreqOfTwoSpellings(a: string, b: string)
    requires a != b && Norm(a) == Norm(b)
    ensures Freq([a, b], [a, b]) == map[Norm(a) := 1]
  {
    FreqPair([a, b], a, b);
    assert multiset([a, b])[a] == 1 && multiset([a, b])[b] == 1;
  }

  /** ... while two likes share that key. */
  lemma NormCountOfTwoSpellings(a: string, b: string)
    requires Norm(a) == Norm(b)
    ensures NormCount([a, b], Norm(a)) == 2
  {
    var cs := [a, b];
    assert cs[1..] == [b];
    assert cs[1..][1..] == [];
  }

  lemma NormChinese()
    ensures Norm("Chinese") == "chinese" && Norm("chinese") == "chinese"
  {
    NormCapitalChinese();
    NormSmallChinese();
  }

  lemma NormCapitalChinese()
    ensures Norm("Chinese") == "chinese"
  {
    var rest := "hinese";
    assert ['C'] + rest == "Chinese";
    assert ['c'] + rest == "chinese";
    NormCapitalised('C', rest);
    assert LowerChar('C') == 'c';
  }

  lemma NormSmallChinese()
    ensures Norm("chinese") == "chinese"
  {
    var w := "chinese";
    assert w[0] == 'c' && w[|w| - 1] == 'e';
    NormOfKey(w);
  }

  /** The position `_score` uses: the stored one when both coordinates are
      truthy, otherwise whatever the geocoder answers for the address. */
  function Resolve(r: Restaurant, geocode: string -> Option<(real, real)>): (p: Option<(real, real)>)
    ensures p == geocode(r.address) || (Truthy(r.lat) && Truthy(r.lon))
    ensures Truthy(r.lat) && Truthy(r.lon) ==> p == Some((r.lat.value, r.lon.value))
    ensures Truthy(r.lat) && Truthy(r.lon) ==> p.Some? && p.value.0 != 0.0 && p.value.1 != 0.0
  {
    if Truthy(r.lat) && Truthy(r.lon) then Some((r.lat.value, r.lon.value)) else geocode(r.address)
  }

  /** `if lat and lon`: a position was found and neither coordinate is 0. */
  predicate Resolvable(r: Restaurant, geocode: string -> Option<(real, real)>)
    ensures Truthy(r.lat) && Truthy(r.lon) ==> Resolvable(r, geocode)
    ensures !(Truthy(r.lat) && Truthy(r.lon)) && geocode(r.address).None? ==> !Resolvable(r, geocode)
  {
    var p := Resolve(r, geocode);
    p.Some? && p.value.0 != 0.0 && p.value.1 != 0.0
  }

  /** `base`: twice the cuisine's like frequency, plus 1 when a mood is
      chosen and its keyword occurs in the normalised cuisine. */
  function Affinity(r: Restaurant, freq: map<string, nat>, mood: Mood): (a: nat)
    ensures a / 2 == MapGet(freq, Norm(r.cuisine), 0)
    ensures a % 2 == 1 ==> mood != Any
  {
    MapGet(freq, Norm(r.cuisine), 0) * 2
      + (if mood != Any && Contains(Norm(r.cuisine), MoodKeyword(mood)) then 1 else 0)
  }

  /** `_score(r)`: half the distance to Times Square minus the affinity, or
      the sentinel 1e9 when no position resolves. `dist(lat, lon)` is the
      haversine distance from the point to Times Square. */
  function Score(r: Restaurant, freq: map<string, nat>, mood: Mood,
                 geocode: string -> Option<(real, real)>, dist: (real, real) -> real): (s: real)
    ensures !Resolvable(r, geocode) ==> s == Ranking.Sentinel
    ensures Resolvable(r, geocode) ==>
              var p := Resolve(r, geocode).value;
              s <= dist(p.0, p.1) / 2.0 && (Affinity(r, freq, mood) > 0 ==> s < dist(p.0, p.1) / 2.0)
  {
    if Resolvable(r, geocode) then
      var p := Resolve(r, geocode).value;
      dist(p.0, p.1) / 2.0 - Affinity(r, freq, mood) as real
    else Ranking.Sentinel
  }

  /** With realistic distances, a restaurant scores the sentinel exactly
      when its position cannot be resolved. */
  lemma ScoreSentinelIff(r: Restaurant, freq: map<string, nat>, mood: Mood,
                         geocode: string -> Option<(real, real)>, dist: (real, real) -> real)
    requires Ranking.BelowSentinel(dist)
    ensures Score(r, freq, mood, geocode, dist) <= Ranking.Sentinel
    ensures Score(r, freq, mood, geocode, dist) == Ranking.Sentinel <==> !Resolvable(r, geocode)
  {
    if Resolvable(r, geocode) {
      var p := Resolve(r, geocode).value;
      assert dist(p.0, p.1) < 2.0 * Ranking.Sentinel;
    }
  }

  /** The score of every restaurant, in input order. */
  function Scores(rs: seq<Restaurant>, freq: map<string, nat>, mood: Mood,
                  geocode: string -> Option<(real, real)>, dist: (real, real) -> real): (s: seq<real>)
    ensures |s| == |rs|
  {
    seq(|rs|, i requires 0 <= i < |rs| => Score(rs[i], freq, mood, geocode, dist))
  }

  /** `ranked = sorted(restaurants, key=_score)[:len(likes)]`, with `freq`
      built from the likes. The list has one entry per like (fewer when
      there are fewer restaurants), drawn from the restaurants in ascending
      score. */
  function Ranked(foods: seq<Dish>, likes: seq<string>, order: seq<string>, rs: seq<Restaurant>,
                  mood: Mood, geocode: string -> Option<(real, real)>, dist: (real, real) -> real): (ranked: seq<Restaurant>)
    requires Enumerates(order, LikedCultures(foods, likes))
    ensures |ranked| == if |likes| < |rs| then |likes| else |rs|
    ensures forall j :: 0 <= j < |ranked| ==> ranked[j] in rs
    ensures forall a, b :: 0 <= a < b < |ranked| ==>
              Score(ranked[a], Freq(LikedCultures(foods, likes), order), mood, geocode, dist)
              <= Score(ranked[b], Freq(LikedCultures(foods, likes), order), mood, geocode, dist)
    ensures forall j :: 0 <= j < |ranked| ==>
              ranked[j] == rs[Ranking.StableOrder(Scores(rs, Freq(LikedCultures(foods, likes), order), mood, geocode, dist))[j]]
  {
    var freq := Freq(LikedCultures(foods, likes), order);
    TopKByScore(rs, freq, mood, geocode, dist, |likes|);
    Ranking.TopK(rs, Scores(rs, freq, mood, geocode, dist), |likes|)
  }

  /** The first `k` restaurants of the stable sort by `_score` come in
      ascending score. */
  lemma TopKByScore(rs: seq<Restaurant>, freq: map<string, nat>, mood: Mood,
                    geocode: string -> Option<(real, real)>, dist: (real, real) -> real, k: nat)
    ensures var ranked := Ranking.TopK(rs, Scores(rs, freq, mood, geocode, dist), k);
            forall a, b :: 0 <= a < b < |ranked| ==>
              Score(ranked[a], freq, mood, geocode, dist) <= Score(ranked[b], freq, mood, geocode, dist)
  {
    var scores := Scores(rs, freq, mood, geocode, dist);
    var ranked := Ranking.TopK(rs, scores, k);
    Ranking.TopKAscending(rs, scores, k);
    assert forall j :: 0 <= j < |ranked| ==>
             scores[Ranking.StableOrder(scores)[j]] == Score(ranked[j], freq, mood, geocode, dist);
  }

  /** Every restaurant whose position resolves is ranked before every one
      that scores the sentinel. */
  lemma RankedResolvableFirst(foods: seq<Dish>, likes: seq<string>, order: seq<string>, rs: seq<Restaurant>,
                              mood: Mood, geocode: string -> Option<(real, real)>, dist: (real, real) -> real,
                              a: nat, b: nat)
    requires Enumerates(order, LikedCultures(foods, likes))
    requires Ranking.BelowSentinel(dist)
    requires a < b < |Ranked(foods, likes, order, rs, mood, geocode, dist)|
    requires Resolvable(Ranked(foods, likes, order, rs, mood, geocode, dist)[b], geocode)
    ensures Resolvable(Ranked(foods, likes, order, rs, mood, geocode, dist)[a], geocode)
  {
    var freq := Freq(LikedCultures(foods, likes), order);
    var ranked := Ranked(foods, likes, order, rs, mood, geocode, dist);
    ScoreSentinelIff(ranked[a], freq, mood, geocode, dist);
    ScoreSentinelIff(ranked[b], freq, mood, geocode, dist);
  }

  /** When no restaurant's position resolves (the geocoder always fails),
      every score is the sentinel and the ranking keeps the input order. */
  lemma RankedInputOrderWhenNoneResolve(foods: seq<Dish>, likes: seq<string>, order: seq<string>, rs: seq<Restaurant>,
                                        mood: Mood, geocode: string -> Option<(real, real)>, dist: (real, real) -> real)
    requires Enumerates(order, LikedCultures(foods, likes))
    requires forall r :: r in rs ==> !Resolvable(r, geocode)
    ensures Ranked(foods, likes, order, rs, mood, geocode, dist) == rs[..if |likes| < |rs| then |likes| else |rs|]
  {
    var freq := Freq(LikedCultures(foods, likes), order);
    var scores := Scores(rs, freq, mood, geocode, dist);
    assert forall i :: 0 <= i < |scores| ==> scores[i] == Ranking.Sentinel;
    Ranking.EqualScoresTopK(rs, scores, |likes|);
  }

  /** Two ranked restaurants at the same distance from Times Square are
      ordered by affinity: the one whose cuisine was liked more (or that gets
      the mood bonus) comes first. */
  lemma RankedAffinityBreaksDistanceTie(foods: seq<Dish>, likes: seq<string>, order: seq<string>, rs: seq<Restaurant>,
                                        mood: Mood, geocode: string -> Option<(real, real)>, dist: (real, real) -> real,
                                        a: nat, b: nat)
    requires Enumerates(order, LikedCultures(foods, likes))
    requires a < |Ranked(foods, likes, order, rs, mood, geocode, dist)|
    requires b < |Ranked(foods, likes, order, rs, mood, geocode, dist)|
    requires var ranked := Ranked(foods, likes, order, rs, mood, geocode, dist);
      && Resolvable(ranked[a], geocode) && Resolvable(ranked[b], geocode)
      && var pa := Resolve(ranked[a], geocode).value;
         var pb := Resolve(ranked[b], geocode).value;
         dist(pa.0, pa.1) == dist(pb.0, pb.1)
    requires var ranked := Ranked(foods, likes, order, rs, mood, geocode, dist);
      var freq := Freq(LikedCultures(foods, likes), order);
      Affinity(ranked[a], freq, mood) > Affinity(ranked[b], freq, mood)
    ensures a < b
  {
    var ranked := Ranked(foods, likes, order, rs, mood, geocode, dist);
    var freq := Freq(LikedCultures(foods, likes), order);
    var sa := Score(ranked[a], freq, mood, geocode, dist);
    var sb := Score(ranked[b], freq, mood, geocode, dist);
    assert sa < sb;
    assert b < a ==> sb <= sa;
    assert a != b;
  }

  /** Likes of two Chinese dishes and one Indian dish give
      `freq == {"chinese": 2, "indian": 1}`. */
  lemma FreqTwoChineseOneIndian()
    ensures Freq(["Chinese", "Chinese", "Indian"], ["Chinese", "Indian"]) == map["chinese" := 2, "indian" := 1]
  {
    NormChinese();
    NormIndian();
    var cs := ["Chinese", "Chinese", "Indian"];
    var order := ["Chinese", "Indian"];
    assert order[..1] == ["Chinese"];
    assert order[..1][..0] == [];
    assert multiset(cs)["Chinese"] == 2;
    assert multiset(cs)["Indian"] == 1;
  }

  lemma NormIndian()
    ensures Norm("Indian") == "indian"
  {
    var rest := "ndian";
    assert ['I'] + rest == "Indian";
    assert ['i'] + rest == "indian";
    NormCapitalised('I', rest);
    assert LowerChar('I') == 'i';
  }

  // ---------------------------------------------------------------- profile

  /** The Profile page's `levels` table. */
  const ProfileLevels: seq<Levels.Level> :=
    [Levels.Level("Foodie", 0), Levels.Level("Gourmet", 150), Levels.Level("Epicurean", 300)]

  /** The Profile level and, below the top level, the progress fraction
      towards the next one (`None` is "Max level reached!"). */
  method Profile(xp: int) returns (level: string, pct: Option<real>)
    ensures level == if xp >= 300 then "Epicurean" else if xp >= 150 then "Gourmet" else "Foodie"
    ensures pct.Some? <==> 0 <= xp < 300
    ensures pct.Some? ==> 0.0 <= pct.value < 1.0
    ensures 0 <= xp < 150 ==> pct == Some(xp as real / 150.0)
    ensures 150 <= xp < 300 ==> pct == Some((xp - 150) as real / 150.0)
  {
    Levels.LastReachedOfThree(ProfileLevels, xp);
    assert ProfileLevels[0] == Levels.Level("Foodie", 0);
    assert ProfileLevels[1] == Levels.Level("Gourmet", 150);
    assert ProfileLevels[2] == Levels.Level("Epicurean", 300);
    var curr, next := Levels.CurrentLevel(ProfileLevels, xp);
    level := curr.name;
    if next.Some? {
      pct := Some(Levels.Progress(curr, next.value, xp));
      if xp < 150 {
        assert curr.threshold == 0 && next.value.threshold == 150;
        assert Levels.Progress(curr, next.value, xp) == xp as real / 150.0;
      } else {
        assert curr.threshold == 150 && next.value.threshold == 300;
        assert Levels.Progress(curr, next.value, xp) == (xp - 150) as real / 150.0;
      }
    } else {
      pct := None;
    }
  }

  // ---------------------------------------------------------------- session

  /** `st.session_state` for one browser session over the loaded catalogue
      `foods`. The ghost field `peak` is the largest number of likes held
      since the session started or the stats were last cleared. */
  class Session {
    const foods: seq<Dish>
    var idx: nat
    var likes: seq<string>
    var dislikes: seq<string>
    var notes: map<string, string>
    var badges: set<string>
    var reviews: map<string, seq<(int, string)>>
    var xp: int
    ghost var peak: nat

    /** Holds in every reachable state: likes are catalogue names without
        duplicates, the XP covers 10 per like, and the badges are exactly
        those reached by the largest like count since the last reset. */
    ghost predicate Valid()
      reads this
    {
      && NoDup(likes)
      && (forall n :: n in likes ==> InCatalog(foods, n))
      && LikeXp * |likes| <= xp
      && |likes| <= peak
      && badges == Earned(peak)
    }

    /** Holds in every state reached without a Favorites "Remove": the XP is
        exactly 10 per like and the like count is its own maximum. */
    ghost predicate Balanced()
      reads this
    {
      xp == LikeXp * |likes| && peak == |likes|
    }

    /** The session initialisation `update(idx=0, likes=[], ...)`. */
    constructor (foods: seq<Dish>)
      ensures this.foods == foods
      ensures idx == 0 && likes == [] && dislikes == [] && notes == map[]
      ensures badges == {} && reviews == map[] && xp == 0
      ensures Valid() && Balanced()
    {
      this.foods := foods;
      idx, likes, dislikes, notes := 0, [], [], map[];
      badges, reviews, xp := {}, map[], 0;
      peak := 0;
    }

    /** `_current()`: wraps the cursor into the catalogue and returns the
        dish under it (Python raises on an empty catalogue; no page calls it
        then). */
    method Current() returns (d: Dish)
      requires |foods| > 0
      modifies this`idx
      ensures idx == old(idx) % |foods| && d == foods[idx]
    {
      idx := idx % |foods|;
      d := foods[idx];
    }

    /** `_next()`. */
    method Next()
      modifies this`idx
      ensures idx == old(idx) + 1
    {
      idx := idx + 1;
    }

    /** `_award(b)`: adds the badge when it is new. */
    method Award(b: string)
      modifies this`badges
      ensures badges == old(badges) + {b}
    {
      if b !in badges {
        badges := badges + {b};
      }
    }

    /** `_check_badges()`: awards every badge whose threshold the current
        like count reaches; nothing is removed, and a second call changes
        nothing. */
    method CheckBadges()
      modifies this`badges
      ensures badges == old(badges) + Earned(|likes|)
      ensures Earned(|likes|) <= old(badges) ==> badges == old(badges)
    {
      for i := 0 to |BadgeThresh|
        invariant badges == old(badges) + Badges.EarnedUpTo(BadgeThresh, i, |likes|)
      {
        Badges.EarnedStep(BadgeThresh, i, |likes|);
        if |likes| >= BadgeThresh[i].0 {
          Award(BadgeThresh[i].1);
        }
      }
    }

    /** `_like()`: a dish not liked before is appended to `likes` and earns
        10 XP and any badge now reached; liking it again changes none of
        `likes`, `xp` and `badges`. Either way the cursor moves past it. */
    method Like()
      requires |foods| > 0 && Valid()
      modifies this`idx, this`likes, this`xp, this`badges, this`peak
      ensures idx == old(idx) % |foods| + 1
      ensures var nm := foods[old(idx) % |foods|].name;
        if nm in old(likes) then
          likes == old(likes) && xp == old(xp) && badges == old(badges)
        else
          likes == old(likes) + [nm] && xp == old(xp) + LikeXp && badges == old(badges) + Earned(|likes|)
      ensures Valid()
      ensures old(Balanced()) ==> Balanced()
    {
      var d := Current();
      var nm := d.name;
      if nm !in likes {
        NoDupAppend(likes, nm);
        likes := likes + [nm];
        xp := xp + LikeXp;
        if peak < |likes| {
          Badges.EarnedMonotone(BadgeThresh, peak, |likes|);
          peak := |likes|;
        }
        Badges.EarnedMonotone(BadgeThresh, |likes|, peak);
        CheckBadges();
      }
      Next();
    }

    /** `_dislike()`: the dish is appended to `dislikes` (again if it is
        already there) and the cursor moves past it. */
    method Dislike()
      requires |foods| > 0 && Valid()
      modifies this`idx, this`dislikes
      ensures idx == old(idx) % |foods| + 1
      ensures dislikes == old(dislikes) + [foods[old(idx) % |foods|].name]
      ensures Valid()
    {
      var d := Current();
      dislikes := dislikes + [d.name];
      Next();
    }

    /** `_surprise()`: jumps to the position `random.randrange(len(foods))`
        picked, given here as `pick`. */
    method Surprise(pick: nat)
      requires pick < |foods|
      modifies this`idx
      ensures idx == pick && idx < |foods|
    {
      idx := pick;
    }

    /** The "Restart" button once every dish has been seen. */
    method Restart()
      modifies this`idx
      ensures idx == 0
    {
      idx := 0;
    }

    /** "Clear stats": likes, dislikes and badges are emptied and the XP is
        zero; notes, reviews and the cursor stay. */
    method ClearStats()
      modifies this`likes, this`dislikes, this`badges, this`xp, this`peak
      ensures likes == [] && dislikes == [] && badges == {} && xp == 0
      ensures Valid() && Balanced()
    {
      likes, dislikes, badges, xp := [], [], {}, 0;
      peak := 0;
    }

    /** The personal note under the shown dish: a non-blank text is stored
        under that dish's name, replacing any earlier note; a blank one
        leaves the notes alone. */
    method SaveNote(note: string)
      requires idx < |foods|
      modifies this`notes
      ensures notes == if IsBlank(note) then old(notes) else old(notes)[foods[idx].name := note]
    {
      if !IsBlank(note) {
        notes := notes[foods[idx].name := note];
      }
    }

    /** Favorites "Remove": the name leaves `likes`, while `xp` and `badges`
        stay as they were, so the XP may now exceed 10 per like. */
    method Remove(name: string)
      requires name in likes && Valid()
      modifies this`likes
      ensures likes == RemoveFirst(old(likes), name)
      ensures name !in likes && |likes| == |old(likes)| - 1
      ensures Valid()
    {
      RemoveFirstNoDup(likes, name);
      likes := RemoveFirst(likes, name);
    }

    /** The wrap-around of `_current()` leaves a cursor inside the catalogue
        where it is. */
    static lemma ModOfSmaller(i: nat, n: nat)
      requires i < n
      ensures i % n == i
    {
    }

    /** The Swipe page's `while` loop: from the cursor, skip every dish that
        fails the filter. It stops at the first passing dish or at the end
        of the catalogue; a cursor already past the end is left alone. */
    method SkipToMatch(diet: seq<string>, mood: Mood)
      modifies this`idx
      ensures old(idx) <= idx
      ensures idx < |foods| ==> Passes(foods[idx], diet, mood)
      ensures old(idx) < |foods| ==> idx <= |foods|
      ensures old(idx) >= |foods| ==> idx == old(idx)
      ensures forall j :: old(idx) <= j < idx && j < |foods| ==> !Passes(foods[j], diet, mood)
    {
      ghost var start := idx;
      while idx < |foods|
        invariant start <= idx
        invariant start < |foods| ==> idx <= |foods|
        invariant start >= |foods| ==> idx == start
        invariant forall j :: start <= j < idx && j < |foods| ==> !Passes(foods[j], diet, mood)
        decreases |foods| - idx
      {
        ghost var here := idx;
        ModOfSmaller(here, |foods|);
        var d := Current();
        var ok := Passes(d, diet, mood);
        if ok {
          break;
        }
        Next();
      }
    }
  }
}
