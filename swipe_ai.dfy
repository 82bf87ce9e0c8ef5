/** The engine of `AtomCharm/aimatch.py` (the offline variant): raw records
    are cleaned at load time, every right swipe stores the dish with the day
    it was liked (duplicates included), badges unlock at 10, 25 and 50 likes
    plus a "Weekly Explorer" badge for three cultures in a week, the dietary
    filter is exact tag membership, restaurants are scored from stored
    positions only, and the recommendation list holds at most 20 entries. */
module SwipeAi {
  import opened Options
  import opened Seqs
  import opened Text
  import opened Moods
  import Ranking
  import Levels
  import Badges
  import CuisineIndex

  // ---------------------------------------------------------------- records

  /** `MOOD_TAG.get(mood)`: the restaurant tag a mood rewards; "Any" has
      none. */
  function MoodTag(m: Mood): Option<string> {
    match m
    case Any => None
    case Comforting => Some("comfort")
    case Healthy => Some("salad")
    case Adventurous => Some("spicy")
  }

  /** A dish record. A missing `name` or `culture` reads as "", missing
      `tags` as the empty list. */
  datatype Dish = Dish(name: string, culture: string, tags: seq<string>,
                       mood: Option<string>, image: Option<string>)

  /** A restaurant record; `lat`, `lon` and `photo` may be missing. */
  datatype Restaurant = Restaurant(name: string, cuisine: string, address: string, tags: seq<string>,
                                   lat: Option<real>, lon: Option<real>, photo: Option<string>)

  /** A liked dish: the dish record plus the `date` of the swipe, written
      here as a day number (`str(date)` and `date.fromisoformat` are
      inverse, so only the day matters). */
  datatype Like = Like(dish: Dish, date: int)

  /** The count-badge table of `_check_badges`. */
  const CountBadges: seq<(nat, string)> := [(10, "Taster ×10"), (25, "Foodie ×25"), (50, "Gourmand ×50")]

  const WeeklyExplorer: string := "Weekly Explorer"

  /** XP per right swipe. */
  const LikeXp: nat := 10

  /** Length of the Recommended list. */
  const TopN: nat := 20

  // ---------------------------------------------------------------- images

  const Placeholder: string := "https://via.placeholder.com/400x300.png?text=No+Image"
  const UnsplashHost: string := "images.unsplash.com"
  const UnsplashQuery: string := "?auto=format&fit=crop&w=800&q=80"

  /** `_fix_img(url)`: a missing or empty URL becomes the placeholder; an
      Unsplash URL without a query string gets the resizing query; any other
      URL is kept. The result is never empty. */
  function FixImg(url: Option<string>): (r: string)
    ensures url.None? || url.value == [] ==> r == Placeholder
    ensures url.Some? && url.value != [] && '?' in url.value ==> r == url.value
    ensures url.Some? && url.value != [] && !Contains(url.value, UnsplashHost) ==> r == url.value
    ensures url.Some? && url.value != [] && Contains(url.value, UnsplashHost) && '?' !in url.value ==>
              r == url.value + UnsplashQuery
    ensures r != []
  {
    if url.Some? && url.value != [] && Contains(url.value, UnsplashHost) && '?' !in url.value then
      url.value + UnsplashQuery
    else if url.Some? && url.value != [] then url.value
    else Placeholder
  }

  /** Fixing a fixed URL changes nothing: every result either already has a
      query string or is not an Unsplash URL. */
  lemma FixImgIdempotent(url: Option<string>)
    ensures FixImg(Some(FixImg(url))) == FixImg(url)
  {
    var r := FixImg(url);
    assert Placeholder[39] == '?';
    if url.Some? && url.value != [] && Contains(url.value, UnsplashHost) && '?' !in url.value {
      assert r[|url.value|] == UnsplashQuery[0];
    }
    assert r == url.GetOr([]) || '?' in r;
  }

  // ---------------------------------------------------------------- load + clean

  /** `f.get("name") and f.get("culture")`. */
  predicate KeepDish(f: Dish)
    ensures KeepDish(f) ==> |f.name| >= 1 && |f.culture| >= 1
    ensures f.name == [] || f.culture == [] ==> !KeepDish(f)
  {
    f.name != [] && f.culture != []
  }

  /** `r.get("name") and r.get("cuisine")`. */
  predicate KeepRestaurant(r: Restaurant)
    ensures KeepRestaurant(r) ==> |r.name| >= 1 && |r.cuisine| >= 1
    ensures r.name == [] || r.cuisine == [] ==> !KeepRestaurant(r)
  {
    r.name != [] && r.cuisine != []
  }

  /** The `by_cuisine` key of a restaurant. */
  function CuisineKey(r: Restaurant): string {
    Norm(r.cuisine)
  }

  /** The load-and-clean block: records without a name or culture (cuisine)
      are dropped, every other record is kept as often as it occurs and in
      file order, and `by_cuisine` files every kept restaurant under its
      normalised cuisine, in order. */
  method LoadCatalog(foodsRaw: seq<Dish>, restaurantsRaw: seq<Restaurant>)
    returns (foods: seq<Dish>, restaurants: seq<Restaurant>, byCuisine: map<string, seq<Restaurant>>)
    ensures foods == Filter(foodsRaw, KeepDish)
    ensures forall f :: multiset(foods)[f] == if KeepDish(f) then multiset(foodsRaw)[f] else 0
    ensures restaurants == Filter(restaurantsRaw, KeepRestaurant)
    ensures forall r :: multiset(restaurants)[r] == if KeepRestaurant(r) then multiset(restaurantsRaw)[r] else 0
    ensures byCuisine.Keys == CuisineIndex.KeySet(restaurants, CuisineKey)
    ensures forall k :: k in byCuisine ==> byCuisine[k] == CuisineIndex.Group(restaurants, CuisineKey, k)
    ensures forall k, r :: k in byCuisine && r in byCuisine[k] ==> KeepRestaurant(r) && Norm(r.cuisine) == k
  {
    foods := Filter(foodsRaw, KeepDish);
    restaurants := Filter(restaurantsRaw, KeepRestaurant);
    byCuisine := CuisineIndex.Build(restaurants, CuisineKey);
  }

  // ---------------------------------------------------------------- filter

  /** The Swipe page's test: the dish carries every selected dietary tag
      (exactly, case-sensitively), and the mood is "Any" or equals the
      dish's mood. */
  predicate Passes(d: Dish, diet: seq<string>, mood: Mood)
    ensures diet == [] && mood == Any ==> Passes(d, diet, mood)
    ensures Passes(d, diet, mood) && mood != Any ==> d.mood.Some?
  {
    && (forall t :: t in diet ==> t in d.tags)
    && (mood == Any || d.mood == Some(MoodName(mood)))
  }

  // ---------------------------------------------------------------- badges

  /** The count badges `n` likes have reached. */
  function Earned(n: nat): set<string> {
    Badges.Earned(CountBadges, n)
  }

  /** The count-badge table spelled out; "Weekly Explorer" is never a count
      badge. */
  lemma EarnedTable(n: nat)
    ensures Earned(n) ==
      (if n >= 50 then {"Taster ×10", "Foodie ×25", "Gourmand ×50"}
       else if n >= 25 then {"Taster ×10", "Foodie ×25"}
       else if n >= 10 then {"Taster ×10"}
       else {})
    ensures WeeklyExplorer !in Earned(n)
  {
    assert CountBadges[0] == (10, "Taster ×10");
    assert CountBadges[1] == (25, "Foodie ×25");
    assert CountBadges[2] == (50, "Gourmand ×50");
    if n >= 50 {
      assert "Taster ×10" in Earned(n) && "Foodie ×25" in Earned(n) && "Gourmand ×50" in Earned(n);
    } else if n >= 25 {
      assert "Taster ×10" in Earned(n) && "Foodie ×25" in Earned(n);
    } else if n >= 10 {
      assert "Taster ×10" in Earned(n);
    }
    assert WeeklyExplorer[0] == 'W';
  }

  /** A like counts for the Weekly Explorer badge on day `today` when it
      was made on or after `today - 7`. */
  predicate Recent(l: Like, today: int)
    ensures today <= l.date ==> Recent(l, today)
    ensures l.date < today - 7 ==> !Recent(l, today)
  {
    l.date >= today - 7
  }

  /** `{d["culture"] for d in likes if date >= week_ago}`: the raw cultures
      (not normalised) of the recent likes. */
  function RecentCultures(likes: seq<Like>, today: int): (rc: set<string>)
    ensures |rc| <= |likes|
    ensures (forall l :: l in likes ==> !Recent(l, today)) ==> rc == {}
  {
    CulturesBound(likes, today);
    set l | l in likes && Recent(l, today) :: l.dish.culture
  }

  /** At most one culture per like. */
  lemma {:induction false} CulturesBound(likes: seq<Like>, today: int)
    ensures |set l | l in likes && Recent(l, today) :: l.dish.culture| <= |likes|
  {
    if likes != [] {
      var init := likes[..|likes| - 1];
      var last := likes[|likes| - 1];
      assert likes == init + [last];
      CulturesBound(init, today);
      var before := set l | l in init && Recent(l, today) :: l.dish.culture;
      var after := set l | l in likes && Recent(l, today) :: l.dish.culture;
      assert after <= before + {last.dish.culture};
      assert |before + {last.dish.culture}| <= |before| + 1;
      SubsetCard(after, before + {last.dish.culture});
    }
  }

  lemma SubsetCard(a: set<string>, b: set<string>)
    requires a <= b
    ensures |a| <= |b|
  {
    assert b == a + (b - a);
  }

  /** The Weekly Explorer condition: three or more different recent
      cultures, which takes at least three likes. */
  predicate Explorer(likes: seq<Like>, today: int)
    ensures Explorer(likes, today) ==> |likes| >= 3
  {
    |RecentCultures(likes, today)| >= 3
  }

  /** Positions `i`, `j`, `k` hold recent likes of pairwise different
      cultures. */
  predicate DistinctRecent(likes: seq<Like>, today: int, i: nat, j: nat, k: nat) {
    && i < |likes| && j < |likes| && k < |likes|
    && Recent(likes[i], today) && Recent(likes[j], today) && Recent(likes[k], today)
    && likes[i].dish.culture != likes[j].dish.culture
    && likes[j].dish.culture != likes[k].dish.culture
    && likes[i].dish.culture != likes[k].dish.culture
  }

  /** Three recent likes whose cultures differ pairwise. */
  ghost predicate ThreeRecentCultures(likes: seq<Like>, today: int) {
    exists i: nat, j: nat, k: nat :: DistinctRecent(likes, today, i, j, k)
  }

  /** A set holding three distinct elements has at least three. */
  lemma {:induction false} ThreeDistinctCardinality(s: set<string>, a: string, b: string, c: string)
    requires a in s && b in s && c in s && a != b && b != c && a != c
    ensures |s| >= 3
  {
    var t := {a, b, c};
    assert |t| == 3;
    assert t <= s;
    assert s == t + (s - t);
    assert |s| == |t| + |s - t|;
  }

  /** A set with at least three elements holds three distinct ones. */
  lemma {:induction false} PickThree(s: set<string>) returns (a: string, b: string, c: string)
    requires |s| >= 3
    ensures a in s && b in s && c in s && a != b && b != c && a != c
  {
    a :| a in s;
    var s1 := s - {a};
    assert |s1| == |s| - 1;
    b :| b in s1;
    var s2 := s1 - {b};
    assert |s2| == |s1| - 1;
    c :| c in s2;
  }

  /** Three distinct recent cultures come from three recent likes. */
  lemma ExplorerHasThreeCultures(likes: seq<Like>, today: int)
    requires Explorer(likes, today)
    ensures ThreeRecentCultures(likes, today)
  {
    var a, b, c := PickThree(RecentCultures(likes, today));
    var i := RecentWitness(likes, today, a);
    var j := RecentWitness(likes, today, b);
    var k := RecentWitness(likes, today, c);
    assert DistinctRecent(likes, today, i, j, k);
  }

  /** A recent culture is the culture of some recent like. */
  lemma RecentWitness(likes: seq<Like>, today: int, c: string) returns (i: nat)
    requires c in RecentCultures(likes, today)
    ensures i < |likes| && Recent(likes[i], today) && likes[i].dish.culture == c
  {
    var l :| l in likes && Recent(l, today) && l.dish.culture == c;
    i :| 0 <= i < |likes| && likes[i] == l;
  }

  /** Three recent likes of pairwise different cultures give three recent
      cultures. */
  lemma ThreeCulturesMakeExplorer(likes: seq<Like>, today: int, i: nat, j: nat, k: nat)
    requires DistinctRecent(likes, today, i, j, k)
    ensures Explorer(likes, today)
  {
    var cs := RecentCultures(likes, today);
    assert likes[i] in likes && likes[j] in likes && likes[k] in likes;
    ThreeDistinctCardinality(cs, likes[i].dish.culture, likes[j].dish.culture, likes[k].dish.culture);
  }

  /** The Weekly Explorer badge is due exactly when three recent likes have
      pairwise different cultures. */
  lemma ExplorerIffThreeCultures(likes: seq<Like>, today: int)
    ensures Explorer(likes, today) <==> ThreeRecentCultures(likes, today)
  {
    if Explorer(likes, today) {
      ExplorerHasThreeCultures(likes, today);
    }
    if ThreeRecentCultures(likes, today) {
      var i: nat, j: nat, k: nat :| DistinctRecent(likes, today, i, j, k);
      ThreeCulturesMakeExplorer(likes, today, i, j, k);
    }
  }

  /** A further like never takes away a reached Weekly Explorer condition on
      the same day. */
  lemma ExplorerKeptByLike(likes: seq<Like>, l: Like, today: int)
    ensures RecentCultures(likes, today) <= RecentCultures(likes + [l], today)
    ensures Explorer(likes, today) ==> Explorer(likes + [l], today)
  {
    var before := RecentCultures(likes, today);
    var after := RecentCultures(likes + [l], today);
    forall c | c in before ensures c in after {
      var x :| x in likes && Recent(x, today) && x.dish.culture == c;
      assert x in likes + [l];
    }
    assert |before| <= |after| by {
      assert after == before + (after - before);
    }
  }

  // ---------------------------------------------------------------- reviews

  /** The star values a review list holds all lie on the slider, 1 to 5. */
  predicate StarsOnSlider(rv: seq<(int, string)>) {
    forall i :: 0 <= i < |rv| ==> 1 <= rv[i].0 <= 5
  }

  /** `sum(x[0] for x in rv)`: with slider stars, between one and five
      stars per review. */
  function SumStars(rv: seq<(int, string)>): (s: int)
    ensures StarsOnSlider(rv) ==> |rv| <= s <= 5 * |rv|
  {
    if rv == [] then 0
    else
      assert StarsOnSlider(rv) ==> StarsOnSlider(rv[1..]);
      rv[0].0 + SumStars(rv[1..])
  }

  /** A mean of `n` values, each between 1 and 5, lies between 1 and 5. */
  lemma MeanBounds(s: int, n: int)
    requires 0 < n <= s <= 5 * n
    ensures 1.0 <= s as real / n as real <= 5.0
  {
    var nr := n as real;
    DivMono(nr, s as real, nr);
    DivMono(s as real, 5.0 * nr, nr);
    MulDivCancel(1.0, nr);
    MulDivCancel(5.0, nr);
  }

  /** Dividing by a positive number keeps the order. */
  lemma DivMono(a: real, b: real, d: real)
    requires a <= b && d > 0.0
    ensures a / d <= b / d
  {
    assert b / d - a / d == (b - a) / d;
  }

  lemma MulDivCancel(c: real, d: real)
    requires d > 0.0
    ensures (c * d) / d == c
  {
  }

  /** The "Community rating" line: the mean of the stars, shown only when
      there is a review. With slider stars the mean lies in [1, 5]. */
  function CommunityRating(rv: seq<(int, string)>): (r: Option<real>)
    ensures r.None? <==> rv == []
    ensures r.Some? && StarsOnSlider(rv) ==> 1.0 <= r.value <= 5.0
  {
    if rv == [] then None
    else
      var s := SumStars(rv);
      if StarsOnSlider(rv) then
        MeanBounds(s, |rv|);
        Some(s as real / |rv| as real)
      else
        Some(s as real / |rv| as real)
  }

  /** When every review gave the same stars, the sum is that many stars per
      review. */
  lemma {:induction false} SumOfEqualStars(rv: seq<(int, string)>, stars: int)
    requires forall i :: 0 <= i < |rv| ==> rv[i].0 == stars
    ensures SumStars(rv) == stars * |rv|
  {
    if rv != [] {
      var n := |rv|;
      SumOfEqualStars(rv[1..], stars);
      assert SumStars(rv) == stars + SumStars(rv[1..]);
      MulStep(stars, n);
    }
  }

  lemma MulStep(a: int, n: int)
    ensures a * n == a + a * (n - 1)
  {
  }

  /** `(x * n) / n == x` on reals. */
  lemma MeanOfEqual(x: int, n: int)
    requires n > 0
    ensures (x * n) as real / n as real == x as real
  {
    assert (x * n) as real == x as real * n as real;
    MulDivCancel(x as real, n as real);
  }

  /** When every review gave the same stars, the community rating is that
      number of stars. */
  lemma EqualStarsRating(rv: seq<(int, string)>, stars: int)
    requires rv != []
    requires forall i :: 0 <= i < |rv| ==> rv[i].0 == stars
    ensures CommunityRating(rv) == Some(stars as real)
  {
    SumOfEqualStars(rv, stars);
    MeanOfEqual(stars, |rv|);
  }

  // ---------------------------------------------------------------- recommendations

  /** `liked = [_norm(d["culture"]) for d in likes]`. */
  function LikedKeys(likes: seq<Like>): (liked: seq<string>)
    ensures |liked| == |likes|
    ensures forall i :: 0 <= i < |likes| ==> liked[i] == Norm(likes[i].dish.culture)
  {
    seq(|likes|, i requires 0 <= i < |likes| => Norm(likes[i].dish.culture))
  }

  /** `{c: liked.count(c) for c in set(liked)}`: one entry per distinct
      element, and looking any text up (with 0 for a missing one) gives how
      often it occurs. */
  function Counts(liked: seq<string>): (counts: map<string, nat>)
    ensures forall c :: c in counts <==> c in liked
    ensures forall c :: MapGet(counts, c, 0) == multiset(liked)[c]
  {
    map c | c in liked :: multiset(liked)[c]
  }

  /** One more element adds one to its own count and leaves every other
      count as it was. */
  lemma CountsSnoc(liked: seq<string>, k: string)
    ensures forall c :: MapGet(Counts(liked + [k]), c, 0) == MapGet(Counts(liked), c, 0) + (if c == k then 1 else 0)
  {
    assert multiset(liked + [k]) == multiset(liked) + multiset{k};
  }

  /** `freq`: the like count of every normalised culture liked. */
  function Freq(likes: seq<Like>): (freq: map<string, nat>)
    ensures forall i :: 0 <= i < |likes| ==> Norm(likes[i].dish.culture) in freq
    ensures forall k :: k in freq ==> freq[k] >= 1
  {
    var liked := LikedKeys(likes);
    assert forall i :: 0 <= i < |likes| ==> liked[i] in liked;
    CountsPositive(liked);
    Counts(liked)
  }

  /** Every key of the count comprehension occurs, so its entry is at
      least 1. */
  lemma CountsPositive(liked: seq<string>)
    ensures forall k :: k in Counts(liked) ==> Counts(liked)[k] >= 1
  {
    forall k | k in Counts(liked) ensures Counts(liked)[k] >= 1 {
      assert MapGet(Counts(liked), k, 0) == multiset(liked)[k];
    }
  }

  /** The likes whose culture normalises to `k`. */
  function CultureIs(k: string): Like -> bool {
    (l: Like) => Norm(l.dish.culture) == k
  }

  lemma LikedKeysSnoc(likes: seq<Like>, l: Like)
    ensures LikedKeys(likes + [l]) == LikedKeys(likes) + [Norm(l.dish.culture)]
  {
    var before := LikedKeys(likes);
    var after := LikedKeys(likes + [l]);
    forall i | 0 <= i < |after| ensures after[i] == (before + [Norm(l.dish.culture)])[i] {
      assert (likes + [l])[i] == if i < |likes| then likes[i] else l;
    }
  }

  /** A right swipe adds one to the entry of its own normalised culture
      (creating it at 1) and leaves every other entry as it was. */
  lemma FreqAfterLike(likes: seq<Like>, l: Like)
    ensures forall c :: MapGet(Freq(likes + [l]), c, 0) ==
                        MapGet(Freq(likes), c, 0) + (if c == Norm(l.dish.culture) then 1 else 0)
  {
    LikedKeysSnoc(likes, l);
    CountsSnoc(LikedKeys(likes), Norm(l.dish.culture));
  }

  /** `freq` counts, for every key, exactly the likes with that normalised
      culture, so differently spelled cultures with one key are summed. */
  lemma {:induction false} FreqCountsLikes(likes: seq<Like>, k: string)
    ensures MapGet(Freq(likes), k, 0) == |Filter(likes, CultureIs(k))|
  {
    if likes == [] {
      assert Freq(likes) == map[];
    } else {
      var init := likes[..|likes| - 1];
      var last := likes[|likes| - 1];
      assert likes == init + [last];
      FreqCountsLikes(init, k);
      FreqAfterLike(init, last);
      FilterAppend(init, [last], CultureIs(k));
      assert Filter([last], CultureIs(k)) == if Norm(last.dish.culture) == k then [last] else [] by {
        assert [last][1..] == [];
      }
    }
  }

  /** `base`: twice the cuisine's like count, plus 1 when the chosen mood
      has a tag and the restaurant carries it. */
  function Affinity(r: Restaurant, freq: map<string, nat>, mood: Mood): (a: nat)
    ensures a / 2 == MapGet(freq, Norm(r.cuisine), 0)
    ensures a % 2 == 1 ==> MoodTag(mood).Some?
  {
    MapGet(freq, Norm(r.cuisine), 0) * 2
      + (if MoodTag(mood).Some? && MoodTag(mood).value in r.tags then 1 else 0)
  }

  /** `if lat and lon`: both stored coordinates are present and non-zero.
      There is no geocoder in this variant. */
  predicate Located(r: Restaurant)
    ensures Located(r) ==> r.lat.Some? && r.lon.Some? && r.lat.value != 0.0 && r.lon.value != 0.0
    ensures r.lat.None? || r.lon.None? ==> !Located(r)
  {
    Truthy(r.lat) && Truthy(r.lon)
  }

  /** `_score(r)`: half the distance to Times Square minus the affinity, or
      the sentinel 1e9 for a restaurant without a stored position.
      `dist(lat, lon)` is the haversine distance from the point to Times
      Square. */
  function Score(r: Restaurant, freq: map<string, nat>, mood: Mood, dist: (real, real) -> real): (s: real)
    ensures !Located(r) ==> s == Ranking.Sentinel
    ensures Located(r) ==>
              s <= dist(r.lat.value, r.lon.value) / 2.0
              && (Affinity(r, freq, mood) > 0 ==> s < dist(r.lat.value, r.lon.value) / 2.0)
  {
    if Located(r) then dist(r.lat.value, r.lon.value) / 2.0 - Affinity(r, freq, mood) as real
    else Ranking.Sentinel
  }

  /** With realistic distances, a restaurant scores the sentinel exactly
      when it has no stored position. */
  lemma ScoreSentinelIff(r: Restaurant, freq: map<string, nat>, mood: Mood, dist: (real, real) -> real)
    requires Ranking.BelowSentinel(dist)
    ensures Score(r, freq, mood, dist) <= Ranking.Sentinel
    ensures Score(r, freq, mood, dist) == Ranking.Sentinel <==> !Located(r)
  {
    if Located(r) {
      assert dist(r.lat.value, r.lon.value) < 2.0 * Ranking.Sentinel;
    }
  }

  /** The score of every restaurant, in input order. */
  function Scores(rs: seq<Restaurant>, freq: map<string, nat>, mood: Mood, dist: (real, real) -> real): (s: seq<real>)
    ensures |s| == |rs|
  {
    seq(|rs|, i requires 0 <= i < |rs| => Score(rs[i], freq, mood, dist))
  }

  /** `ranked = sorted(restaurants, key=_score)[:20]`, with `freq` built
      from the likes: at most 20 restaurants, drawn from the input in
      ascending score. */
  function Ranked(likes: seq<Like>, rs: seq<Restaurant>, mood: Mood, dist: (real, real) -> real): (ranked: seq<Restaurant>)
    ensures |ranked| == if TopN < |rs| then TopN else |rs|
    ensures forall j :: 0 <= j < |ranked| ==> ranked[j] in rs
    ensures forall a, b :: 0 <= a < b < |ranked| ==>
              Score(ranked[a], Freq(likes), mood, dist) <= Score(ranked[b], Freq(likes), mood, dist)
    ensures forall j :: 0 <= j < |ranked| ==>
              ranked[j] == rs[Ranking.StableOrder(Scores(rs, Freq(likes), mood, dist))[j]]
  {
    TopKByScore(rs, Freq(likes), mood, dist, TopN);
    Ranking.TopK(rs, Scores(rs, Freq(likes), mood, dist), TopN)
  }

  /** The first `k` restaurants of the stable sort by `_score` come in
      ascending score. */
  lemma TopKByScore(rs: seq<Restaurant>, freq: map<string, nat>, mood: Mood, dist: (real, real) -> real, k: nat)
    ensures var ranked := Ranking.TopK(rs, Scores(rs, freq, mood, dist), k);
            forall a, b :: 0 <= a < b < |ranked| ==>
              Score(ranked[a], freq, mood, dist) <= Score(ranked[b], freq, mood, dist)
  {
    var scores := Scores(rs, freq, mood, dist);
    var ranked := Ranking.TopK(rs, scores, k);
    Ranking.TopKAscending(rs, scores, k);
    assert forall j :: 0 <= j < |ranked| ==>
             scores[Ranking.StableOrder(scores)[j]] == Score(ranked[j], freq, mood, dist);
  }

  /** Every ranked restaurant with a stored position comes before every
      one without. */
  lemma RankedLocatedFirst(likes: seq<Like>, rs: seq<Restaurant>, mood: Mood, dist: (real, real) -> real,
                           a: nat, b: nat)
    requires Ranking.BelowSentinel(dist)
    requires a < b < |Ranked(likes, rs, mood, dist)|
    requires Located(Ranked(likes, rs, mood, dist)[b])
    ensures Located(Ranked(likes, rs, mood, dist)[a])
  {
    var ranked := Ranked(likes, rs, mood, dist);
    ScoreSentinelIff(ranked[a], Freq(likes), mood, dist);
    ScoreSentinelIff(ranked[b], Freq(likes), mood, dist);
  }

  /** When no restaurant has a stored position, every score is the
      sentinel and the list is the first 20 restaurants in input order. */
  lemma RankedInputOrderWhenNoneLocated(likes: seq<Like>, rs: seq<Restaurant>, mood: Mood, dist: (real, real) -> real)
    requires forall r :: r in rs ==> !Located(r)
    ensures Ranked(likes, rs, mood, dist) == rs[..if TopN < |rs| then TopN else |rs|]
  {
    var scores := Scores(rs, Freq(likes), mood, dist);
    assert forall i :: 0 <= i < |scores| ==> scores[i] == Ranking.Sentinel;
    Ranking.EqualScoresTopK(rs, scores, TopN);
  }

  /** Two ranked restaurants at the same distance from Times Square are
      ordered by affinity: the one whose cuisine was liked more (or that
      carries the mood's tag) comes first. */
  lemma RankedAffinityBreaksDistanceTie(likes: seq<Like>, rs: seq<Restaurant>, mood: Mood, dist: (real, real) -> real,
                                        a: nat, b: nat)
    requires a < |Ranked(likes, rs, mood, dist)| && b < |Ranked(likes, rs, mood, dist)|
    requires var ranked := Ranked(likes, rs, mood, dist);
      && Located(ranked[a]) && Located(ranked[b])
      && dist(ranked[a].lat.value, ranked[a].lon.value) == dist(ranked[b].lat.value, ranked[b].lon.value)
    requires var ranked := Ranked(likes, rs, mood, dist);
      Affinity(ranked[a], Freq(likes), mood) > Affinity(ranked[b], Freq(likes), mood)
    ensures a < b
  {
    var ranked := Ranked(likes, rs, mood, dist);
    var sa := Score(ranked[a], Freq(likes), mood, dist);
    var sb := Score(ranked[b], Freq(likes), mood, dist);
    assert sa < sb;
    assert b < a ==> sb <= sa;
    assert a != b;
  }

  // ---------------------------------------------------------------- profile

  /** The Profile page's `levels` table. */
  const ProfileLevels: seq<Levels.Level> :=
    [Levels.Level("Foodie", 0), Levels.Level("Gourmet", 200), Levels.Level("Epicurean", 500)]

  /** The Profile level and, below the top level, the progress fraction
      towards the next one (`None` is "Max level reached!"). */
  method Profile(xp: int) returns (level: string, pct: Option<real>)
    ensures level == if xp >= 500 then "Epicurean" else if xp >= 200 then "Gourmet" else "Foodie"
    ensures pct.Some? <==> 0 <= xp < 500
    ensures pct.Some? ==> 0.0 <= pct.value < 1.0
    ensures 0 <= xp < 200 ==> pct == Some(xp as real / 200.0)
    ensures 200 <= xp < 500 ==> pct == Some((xp - 200) as real / 300.0)
  {
    Levels.LastReachedOfThree(ProfileLevels, xp);
    assert ProfileLevels[0] == Levels.Level("Foodie", 0);
    assert ProfileLevels[1] == Levels.Level("Gourmet", 200);
    assert ProfileLevels[2] == Levels.Level("Epicurean", 500);
    var curr, next := Levels.CurrentLevel(ProfileLevels, xp);
    level := curr.name;
    if next.Some? {
      pct := Some(Levels.Progress(curr, next.value, xp));
      if xp < 200 {
        assert curr.threshold == 0 && next.value.threshold == 200;
        assert Levels.Progress(curr, next.value, xp) == xp as real / 200.0;
      } else {
        assert curr.threshold == 200 && next.value.threshold == 500;
        assert Levels.Progress(curr, next.value, xp) == (xp - 200) as real / 300.0;
      }
    } else {
      pct := None;
    }
  }

  /** `_check_badges()` after the `n`-th like keeps the count badges exactly
      those `n` likes reach. */
  lemma BadgesAfterLike(badges: set<string>, n: nat, explorer: bool)
    requires n >= 1 && badges - {WeeklyExplorer} == Earned(n - 1)
    ensures (badges + Earned(n) + (if explorer then {WeeklyExplorer} else {})) - {WeeklyExplorer} == Earned(n)
  {
    Badges.EarnedMonotone(CountBadges, n - 1, n);
    EarnedTable(n);
  }

  /** Every stored review has slider stars and a non-blank comment. */
  predicate ReviewsOk(reviews: map<string, seq<(int, string)>>) {
    && (forall rk :: rk in reviews ==> StarsOnSlider(reviews[rk]))
    && (forall rk :: rk in reviews ==> CommentsGiven(reviews[rk]))
  }

  /** Every review in the list has a non-blank comment. */
  predicate CommentsGiven(rv: seq<(int, string)>) {
    forall i :: 0 <= i < |rv| ==> !IsBlank(rv[i].1)
  }

  /** Appending a review with slider stars and a non-blank comment keeps
      every stored review well-formed. */
  lemma ReviewsOkAppend(reviews: map<string, seq<(int, string)>>, rk: string, stars: int, comment: string)
    requires ReviewsOk(reviews) && 1 <= stars <= 5 && !IsBlank(comment)
    ensures ReviewsOk(reviews[rk := MapGet(reviews, rk, []) + [(stars, comment)]])
  {
    var before := MapGet(reviews, rk, []);
    assert StarsOnSlider(before) && CommentsGiven(before);
    ReviewAppend(before, stars, comment);
  }

  lemma ReviewAppend(rv: seq<(int, string)>, stars: int, comment: string)
    requires StarsOnSlider(rv) && CommentsGiven(rv)
    requires 1 <= stars <= 5 && !IsBlank(comment)
    ensures StarsOnSlider(rv + [(stars, comment)]) && CommentsGiven(rv + [(stars, comment)])
  {
    var after := rv + [(stars, comment)];
    forall i | 0 <= i < |after| ensures 1 <= after[i].0 <= 5 && !IsBlank(after[i].1) {
      if i < |rv| {
        assert after[i] == rv[i];
      }
    }
  }

  // ---------------------------------------------------------------- session

  /** `st.session_state` for one browser session over the cleaned catalogue
      `foods`. Notes are keyed by the cursor position (the source's key is
      the text `note_<idx>`, which determines the position). */
  class Session {
    const foods: seq<Dish>
    var idx: nat
    var likes: seq<Like>
    var dislikes: seq<Dish>
    var notes: map<nat, string>
    var badges: set<string>
    var reviews: map<string, seq<(int, string)>>
    var xp: int
    /** Some like of this session met the Weekly Explorer condition on the
        day it was made. */
    ghost var explored: bool

    /** Holds in every reachable state: the XP is exactly 10 per like, every
        liked or disliked dish comes from the catalogue, the count badges
        are exactly those the like count reaches, the only other badge is
        Weekly Explorer and it is held only after some like met its
        condition, and every stored review has slider stars and a non-blank
        comment. */
    ghost predicate Valid()
      reads this
    {
      && xp == LikeXp * |likes|
      && (forall l :: l in likes ==> l.dish in foods)
      && (forall d :: d in dislikes ==> d in foods)
      && badges - {WeeklyExplorer} == Earned(|likes|)
      && (WeeklyExplorer in badges ==> explored)
      && ReviewsOk(reviews)
    }

    /** The session initialisation `update(idx=0, likes=[], ...)`. */
    constructor (foods: seq<Dish>)
      ensures this.foods == foods
      ensures idx == 0 && likes == [] && dislikes == [] && notes == map[]
      ensures badges == {} && reviews == map[] && xp == 0 && !explored
      ensures Valid()
    {
      this.foods := foods;
      idx, likes, dislikes, notes := 0, [], [], map[];
      badges, reviews, xp := {}, map[], 0;
      explored := false;
      EarnedTable(0);
    }

    /** `_dish()`: the dish under the cursor (Python raises past the end;
        the buttons and keys only act while a dish is shown). */
    method Current() returns (d: Dish)
      requires idx < |foods|
      ensures d == foods[idx]
    {
      d := foods[idx];
    }

    /** `_advance()`. */
    method Advance()
      modifies this`idx
      ensures idx == old(idx) + 1
    {
      idx := idx + 1;
    }

    /** `_award(b)`: adds the badge when it is new. */
    method Award(b: string)
      modifies this`badges
      ensures badges == old(badges) + {b}
    {
      if b !in badges {
        badges := badges + {b};
      }
    }

    /** `_check_badges()` on day `today`: awards every count badge the like
        count reaches, and Weekly Explorer when the recent likes span three
        cultures; nothing is removed. */
    method CheckBadges(today: int)
      modifies this`badges
      ensures badges == old(badges) + Earned(|likes|) + (if Explorer(likes, today) then {WeeklyExplorer} else {})
    {
      for i := 0 to |CountBadges|
        invariant badges == old(badges) + Badges.EarnedUpTo(CountBadges, i, |likes|)
      {
        Badges.EarnedStep(CountBadges, i, |likes|);
        if |likes| >= CountBadges[i].0 {
          Award(CountBadges[i].1);
        }
      }
      if |RecentCultures(likes, today)| >= 3 {
        Award(WeeklyExplorer);
      }
    }

    /** `_left()`: the dish is appended to `dislikes` and the cursor moves
        on. */
    method Left()
      requires idx < |foods| && Valid()
      modifies this`idx, this`dislikes
      ensures dislikes == old(dislikes) + [foods[old(idx)]]
      ensures idx == old(idx) + 1
      ensures Valid()
    {
      var d := Current();
      dislikes := dislikes + [d];
      Advance();
    }

    /** `_right()` on day `today`: the dish is appended to `likes` with the
        date, even when it was liked before; the XP grows by 10, the badges
        now due are awarded, and the cursor moves on. */
    method Right(today: int)
      requires idx < |foods| && Valid()
      modifies this`idx, this`likes, this`xp, this`badges, this`explored
      ensures likes == old(likes) + [Like(foods[old(idx)], today)]
      ensures xp == old(xp) + LikeXp
      ensures badges == old(badges) + Earned(|likes|) + (if Explorer(likes, today) then {WeeklyExplorer} else {})
      ensures explored == (old(explored) || Explorer(likes, today))
      ensures idx == old(idx) + 1
      ensures Valid()
    {
      var d := Current();
      likes := likes + [Like(d, today)];
      xp := xp + LikeXp;
      explored := explored || Explorer(likes, today);
      BadgesAfterLike(badges, |likes|, Explorer(likes, today));
      CheckBadges(today);
      Advance();
    }

    /** The Swipe page's `while` loop: from the cursor, skip every dish that
        fails the filter. It stops at the first passing dish or at the end
        of the catalogue; a cursor already past the end is left alone. */
    method SkipToMatch(diet: seq<string>, mood: Mood)
      modifies this`idx
      ensures old(idx) <= idx
      ensures idx < |foods| ==> Passes(foods[idx], diet, mood)
      ensures old(idx) < |foods| ==> idx <= |foods|
      ensures old(idx) >= |foods| ==> idx == old(idx)
      ensures forall j :: old(idx) <= j < idx ==> !Passes(foods[j], diet, mood)
    {
      ghost var start := idx;
      while idx < |foods|
        invariant start <= idx
        invariant start < |foods| ==> idx <= |foods|
        invariant start >= |foods| ==> idx == start
        invariant forall j :: start <= j < idx ==> j < |foods| && !Passes(foods[j], diet, mood)
        decreases |foods| - idx
      {
        var d := Current();
        var ok := Passes(d, diet, mood);
        if ok {
          break;
        }
        Advance();
      }
    }

    /** The "Restart" button once every dish has been seen. */
    method Restart()
      modifies this`idx
      ensures idx == 0
    {
      idx := 0;
    }

    /** The personal note: a non-blank text is stored under the cursor
        position, replacing any earlier note; a blank one leaves the notes
        alone. */
    method SaveNote(note: string)
      modifies this`notes
      ensures notes == if IsBlank(note) then old(notes) else old(notes)[idx := note]
    {
      if !IsBlank(note) {
        notes := notes[idx := note];
      }
    }

    /** "Submit review" for restaurant `rk`: with a non-blank comment the
        pair `(stars, comment)` is appended to that restaurant's list;
        a blank comment stores nothing. */
    method SubmitReview(rk: string, stars: int, comment: string)
      requires 1 <= stars <= 5 && Valid()
      modifies this`reviews
      ensures reviews == if IsBlank(comment) then old(reviews)
                         else old(reviews)[rk := MapGet(old(reviews), rk, []) + [(stars, comment)]]
      ensures Valid()
    {
      if !IsBlank(comment) {
        ReviewsOkAppend(reviews, rk, stars, comment);
        reviews := reviews[rk := MapGet(reviews, rk, []) + [(stars, comment)]];
      }
    }
  }
}
