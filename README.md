# NYC Food Swipe engine, modelled in Dafny

NYC Food Swipe is a Streamlit app for swiping through dishes and getting NYC
restaurant suggestions. A user swipes dishes left or right, collects XP and
badges, filters by dietary tags and mood, and gets restaurants ranked by
cuisine affinity and distance to Times Square. The repository ships two
variants of the app:

- `AtomCharm/Main.py` (v2.5) stores liked dish names without duplicates. Its
  badges unlock at 3/7/15 likes. Its dietary filter is a case-insensitive
  substring test. It geocodes restaurants that have no stored position, and it
  recommends as many restaurants as there are likes.
- `AtomCharm/aimatch.py` (the offline variant) cleans the raw records at load
  time. It stores every right swipe with its date, duplicates included. Its
  badges unlock at 10/25/50 likes, plus "Weekly Explorer". Its dietary filter
  is exact tag membership. It scores from stored positions only, and it
  recommends at most 20 restaurants.

Each variant is modelled in its own module: `SwipeMain` in `swipe_main.dfy`
and `SwipeAi` in `swipe_ai.dfy`. In each one, the session state
(`st.session_state`) is a `Session` class whose methods are the state
transitions. The logic the two variants share is written once, generic over
what differs, in these modules:

- `Text`: `strip`, `lower`, `in` and `_norm`.
- `Seqs`: filtering comprehensions, `list.remove`, duplicate-free lists.
- `Badges`: the threshold badge table.
- `CuisineIndex`: the `by_cuisine` build loop, used by both variants (`SwipeMain.ByCuisine`, `SwipeAi.LoadCatalog`).
- `Ranking`: the stable `sorted(..., key=...)[:k]`.
- `Levels`: the Profile level loop and progress fraction.
- `Options` and `Moods`: small shared types.

Outside inputs become parameters:

- The haversine distance to Times Square is an abstract function
  `dist(lat, lon)`.
- The geocoder in `Main.py` is an oracle `string -> Option<(real, real)>`.
- The random positions from `random.randrange` are given as parameters.
- "Today" is an integer day number.
- Python's set iteration order in `Main.py`'s `freq` comprehension is a given
  duplicate-free enumeration `order`.

Two divisions in the code have no guard, and the model proves that none is
needed:

- The code does not clamp the level progress fraction. `Levels.Progress`
  proves that it lies in [0, 1) whenever it is shown.
- `cur_index/total_matches` (`AtomCharm/Main.py:141`) has no zero guard.
  `SwipeMain.MatchProgress` proves that the denominator is at least 1
  whenever a dish is shown.

## Model

| member | source | states |
|---|---|---|
| Text.Lower | AtomCharm/Main.py:30 | `lower()` keeps the length and lower-cases each character on its own (ASCII letters) |
| Text.TrimStart | AtomCharm/Main.py:30 | the result is a suffix; everything cut off is whitespace; the result does not start with whitespace |
| Text.TrimEnd | AtomCharm/Main.py:30 | the result is a prefix; everything cut off is whitespace; the result does not end with whitespace |
| Text.Strip | AtomCharm/Main.py:30 | `strip()` is the slice of its input left after cutting only whitespace from each end, and does not start or end with whitespace |
| Text.StripUnpadded | AtomCharm/Main.py:30 | a text with no whitespace at either end is its own `strip()` |
| Text.BlankIffAllSpace | AtomCharm/Main.py:155 | `not s.strip()` holds exactly when every character is whitespace |
| Text.Norm | AtomCharm/Main.py:30 | `_norm(s)` is at most as long as `s`, has no whitespace at either end and no ASCII capital, and is empty exactly when `s` is blank |
| Text.NormIdempotent | AtomCharm/aimatch.py:44-45 | `_norm(_norm(s)) == _norm(s)`, so a stored key finds its own entry again |
| Text.NormOfKey | AtomCharm/Main.py:30 | a text with no surrounding whitespace and no ASCII capital is its own `_norm` key |
| Text.NormCapitalised | AtomCharm/Main.py:30 | `_norm` of a capitalised word without surrounding whitespace lower-cases its first letter and keeps the rest |
| Text.Contains | AtomCharm/Main.py:127 | `sub in s`: the empty text is in every text, and a text found is never longer than the one searched |
| Text.ContainsIffSlice | AtomCharm/Main.py:127 | `sub in s` holds exactly when `sub` equals the slice of `s` starting at some position |
| Seqs.Filter | AtomCharm/aimatch.py:69-70 | a filtering comprehension keeps exactly the passing elements, each as often as it occurs |
| Seqs.FilterAppend | AtomCharm/aimatch.py:69-70 | filtering distributes over concatenation, so the kept elements stay in input order |
| Seqs.FilterSubseq | AtomCharm/Main.py:161 | a filtering comprehension's result is a subsequence of its input: the kept elements stay in input order |
| Seqs.FilterNoDup | AtomCharm/Main.py:161 | filtering a duplicate-free list gives a duplicate-free list |
| Seqs.NoDupAppend | AtomCharm/Main.py:85-86 | appending a value not in the list keeps it duplicate-free |
| Seqs.RemoveFirst | AtomCharm/Main.py:171 | `list.remove(x)` takes away one occurrence of `x` and nothing else, shortening the list by one when `x` is present |
| Seqs.RemoveFirstAt | AtomCharm/Main.py:171 | the occurrence removed is the first one: `x` sits at some index `i` with no `x` before it, and the result is the list without index `i`, the rest in order |
| Seqs.RemoveFirstNoDup | AtomCharm/Main.py:171 | in a duplicate-free list, removing `x` removes it completely and keeps the list duplicate-free |
| Seqs.NoDupCountAtMostOne | AtomCharm/Main.py:85 | a duplicate-free list holds each value at most once |
| Seqs.NoDupFromCounts | AtomCharm/Main.py:85 | a list holding each value at most once is duplicate-free |
| Badges.EarnedStep | AtomCharm/Main.py:81 | one more table entry adds its badge exactly when its threshold is reached |
| Badges.EarnedMonotone | AtomCharm/Main.py:81 | more likes never reach fewer badges |
| CuisineIndex.GroupSnoc | AtomCharm/Main.py:67 | appending a restaurant extends exactly the group of its own key |
| CuisineIndex.GroupOfAbsentKey | AtomCharm/Main.py:67 | a key no restaurant has gets no entries |
| CuisineIndex.KeySetSnoc | AtomCharm/Main.py:67 | appending a restaurant adds exactly its key to the key set |
| CuisineIndex.GroupPlacement | AtomCharm/Main.py:66-67 | each restaurant sits in its own key's group as often as it occurs, and a group holds only its own key |
| CuisineIndex.AppendStep | AtomCharm/Main.py:67 | one `setdefault(key, []).append(r)` turns the index of `rs` into the index of `rs + [r]` |
| CuisineIndex.Build | AtomCharm/Main.py:66-67 | `by_cuisine` has one entry per occurring key, each entry is that key's restaurants in input order, and every restaurant is filed under its own key as often as it occurs and under no other key |
| SwipeMain.ByCuisine | AtomCharm/Main.py:66-67 | `by_cuisine` over the raw restaurants has one entry per normalised cuisine, each holding that cuisine's restaurants in file order; every restaurant is filed under its own key as often as it occurs and under no other key |
| Ranking.Insert | AtomCharm/Main.py:196 | one insertion step adds exactly one position to the order |
| Ranking.SortedCons | AtomCharm/Main.py:196 | putting a position in front of a sorted order it precedes keeps the order sorted |
| Ranking.InsertSorted | AtomCharm/Main.py:196 | insertion keeps a stably sorted order sorted |
| Ranking.InsertFacts | AtomCharm/Main.py:196 | insertion into a sorted duplicate-free order gives a sorted duplicate-free order with exactly one more position |
| Ranking.SortPrefixStep | AtomCharm/Main.py:196 | inserting position `n - 1` extends the stable order of the first `n - 1` positions to the first `n` |
| Ranking.SortPrefix | AtomCharm/Main.py:196 | the stable order of the first `n` positions is a duplicate-free, sorted arrangement of exactly those positions |
| Ranking.StableOrder | AtomCharm/Main.py:196 | `sorted(key=...)` is a permutation of all positions, ascending by score, with equal scores in input order |
| Ranking.TopK | AtomCharm/Main.py:196 | `sorted(rs, key=...)[:k]` has `min(k, len(rs))` entries, taken from `rs` in stable order |
| Ranking.StableOrderAscending | AtomCharm/Main.py:196 | in the sorted order scores never decrease, and equal scores keep their input order |
| Ranking.TopKAscending | AtomCharm/aimatch.py:212 | the prefix of the sorted list is ascending in score |
| Ranking.SentinelLast | AtomCharm/Main.py:193-196 | when no score exceeds the sentinel, every position scoring below it comes before every position scoring exactly the sentinel |
| Ranking.InsertLast | AtomCharm/aimatch.py:212 | a position coming after all listed ones is appended |
| Ranking.EqualScoresKeepOrder | AtomCharm/aimatch.py:212 | when all scores are equal, the stable order is the input order |
| Ranking.EqualScoresTopK | AtomCharm/aimatch.py:212 | when all scores are equal, `sorted(rs, key=...)[:k]` is `rs[:k]` |
| Levels.LastReached | AtomCharm/Main.py:263-265 | the last table entry whose threshold the XP reaches; no later entry is reached; `None` when none is |
| Levels.CurrentLevel | AtomCharm/Main.py:263-265 | the loop sets `curr` to the last reached entry and `nxt` to the entry after it; with nothing reached it keeps the first entry and no next one; a next level implies `curr.threshold <= xp < nxt.threshold` |
| Levels.Progress | AtomCharm/Main.py:268-269 | the progress fraction lies in [0, 1) |
| Levels.GreatestReached | AtomCharm/Main.py:262-265 | with ascending thresholds, the current level has the greatest threshold not above the XP |
| Levels.LastReachedOfThree | AtomCharm/aimatch.py:237-241 | in a three-level table the current level is the last one whose threshold the XP reaches |
| SwipeMain.EarnedTable | AtomCharm/Main.py:23 | badges reached at n likes: "Taster ×3" from 3, "Foodie ×7" from 7, "Gourmand ×15" from 15 |
| SwipeMain.Passes | AtomCharm/Main.py:127 | with no tag and mood "Any" every dish passes; a dish without a mood passes only under "Any" |
| SwipeMain.CountMatches | AtomCharm/Main.py:139-140 | the number of passing dishes among the first `n` is at most `n` |
| SwipeMain.CountMatchesMonotone | AtomCharm/Main.py:139-140 | a longer prefix never has fewer matches |
| SwipeMain.MatchProgress | AtomCharm/Main.py:139-141 | when the shown dish passes the filter, `1 <= cur_index <= total_matches`, so the division is defined and at most 1 |
| SwipeMain.FindFood | AtomCharm/Main.py:76 | `_find_food` returns a catalogue dish with that name, and `None` exactly when no dish has it |
| SwipeMain.FindFoodFirst | AtomCharm/Main.py:76 | `next(...)` returns the first dish with that name: it sits at some index `i` and no dish before `i` has the name |
| SwipeMain.SearchFavourites | AtomCharm/Main.py:161 | the visible favourites are exactly the liked names containing the query, ignoring case, in like order (a subsequence of the likes); duplicate-free likes give a duplicate-free view |
| SwipeMain.LikedCultures | AtomCharm/Main.py:181 | `liked_cuis` has at most one culture per like; when every liked name is in the catalogue it has exactly one per like, and entry `i` is the culture of the first dish named `likes[i]` |
| SwipeMain.NormCount | AtomCharm/Main.py:182 | the number of liked cultures with a given normalised form (the reference count) is at most the number of likes |
| SwipeMain.Freq | AtomCharm/Main.py:182 | `freq` has at most one entry per visited culture, and no entry exceeds the number of liked cultures |
| SwipeMain.FreqKeys | AtomCharm/Main.py:182 | the keys of `freq` are exactly the normalised visited cultures |
| SwipeMain.KeysSnoc | AtomCharm/Main.py:182 | one more visited culture adds exactly its normalised form to the keys |
| SwipeMain.FreqEntry | AtomCharm/Main.py:182 | every entry of `freq` holds the raw count of a visited culture with that key |
| SwipeMain.RawCountAtMostNormCount | AtomCharm/Main.py:182 | a raw culture's count never exceeds the count of its normalised form |
| SwipeMain.RawCountIsNormCount | AtomCharm/Main.py:182 | without another spelling of the same key, the raw count equals the normalised count |
| SwipeMain.FreqBounds | AtomCharm/Main.py:181-182 | `freq` has exactly the normalised liked cultures as keys, and each entry lies between 1 and the number of likes with that key: colliding spellings are under-counted, never summed |
| SwipeMain.FreqWithoutCollisions | AtomCharm/Main.py:182 | when no two liked spellings share a key, each entry is the number of likes with that key |
| SwipeMain.FreqSnoc | AtomCharm/Main.py:182 | visiting one more culture overwrites its key with its raw count (last write wins) |
| SwipeMain.FreqPair | AtomCharm/Main.py:182 | visiting two cultures writes the first one's count, then the second one's |
| SwipeMain.FreqOfTwoSpellings | AtomCharm/Main.py:182 | two different spellings of one key, each liked once, give that key the entry 1 |
| SwipeMain.NormCountOfTwoSpellings | AtomCharm/Main.py:182 | two spellings of one key count as two likes of that key |
| SwipeMain.FreqCollisionUndercounts | AtomCharm/Main.py:182 | likes of "Chinese" and "chinese" give `{"chinese": 1}` although two likes share the key |
| SwipeMain.FreqTwoChineseOneIndian | AtomCharm/Main.py:182 | two "Chinese" likes and one "Indian" like give `{"chinese": 2, "indian": 1}` |
| SwipeMain.Resolve | AtomCharm/Main.py:189-192 | the position is the geocoder's answer unless both stored coordinates are truthy, and then it is exactly the stored pair (both non-zero), with no geocoder call |
| SwipeMain.Resolvable | AtomCharm/Main.py:193 | `if lat and lon` after resolution: stored truthy coordinates always pass; without them and without a geocoder answer the test fails |
| SwipeMain.Affinity | AtomCharm/Main.py:186-188 | half the affinity (rounded down) is the like count of the cuisine's key, so the mood bonus never outweighs one like; an odd affinity needs a chosen mood |
| SwipeMain.Score | AtomCharm/Main.py:185-193 | an unresolvable restaurant scores 1e9; a resolvable one scores at most half its distance, strictly less when its affinity is positive |
| SwipeMain.ScoreSentinelIff | AtomCharm/Main.py:185-193 | with realistic distances every score is at most 1e9, and a score is exactly 1e9 when no stored or geocoded position resolves |
| SwipeMain.Ranked | AtomCharm/Main.py:196 | `ranked` has `min(len(likes), len(restaurants))` entries, all drawn from the restaurants, in ascending `_score`; entry `j` is the restaurant at position `j` of the stable sort by `_score` |
| SwipeMain.RankedResolvableFirst | AtomCharm/Main.py:189-196 | every ranked restaurant whose position resolves comes before every one that does not |
| SwipeMain.RankedInputOrderWhenNoneResolve | AtomCharm/Main.py:196 | when no position resolves, `ranked` is the restaurants' prefix in input order |
| SwipeMain.RankedAffinityBreaksDistanceTie | AtomCharm/Main.py:185-196 | of two ranked resolvable restaurants at the same distance from Times Square, the one with the higher affinity (likes of its cuisine, mood bonus) comes first |
| SwipeMain.Profile | AtomCharm/Main.py:262-271 | Foodie below 150 XP, Gourmet from 150, Epicurean from 300; below 300 the progress is `xp/150` or `(xp-150)/150` and lies in [0, 1); from 300 there is no progress bar |
| SwipeMain.Session.constructor | AtomCharm/Main.py:70-71 | the initial state is empty with XP 0 and cursor 0, and satisfies the session invariant |
| SwipeMain.Session.Current | AtomCharm/Main.py:74 | `_current()` wraps the cursor modulo the catalogue size and returns the dish under it |
| SwipeMain.Session.Next | AtomCharm/Main.py:75 | `_next()` advances the cursor by one |
| SwipeMain.Session.Award | AtomCharm/Main.py:78-80 | `_award(b)` adds `b` and nothing else |
| SwipeMain.Session.CheckBadges | AtomCharm/Main.py:81 | `_check_badges()` adds exactly the badges the like count reaches, removes none, and changes nothing when they are all held |
| SwipeMain.Session.Like | AtomCharm/Main.py:83-87 | a new name is appended with +10 XP and the badges now due; a name already liked leaves likes, XP and badges unchanged; the cursor always moves on; the invariant (duplicate-free likes, XP exactly 10 per like unless a favourite was removed) is kept |
| SwipeMain.Session.Dislike | AtomCharm/Main.py:88 | the current name is appended to dislikes (repeats allowed) and the cursor moves on; likes, XP and badges are untouched |
| SwipeMain.Session.Surprise | AtomCharm/Main.py:89 | the cursor jumps to the picked position inside the catalogue |
| SwipeMain.Session.Restart | AtomCharm/Main.py:131 | "Restart" sets the cursor to 0 |
| SwipeMain.Session.ClearStats | AtomCharm/Main.py:103 | likes, dislikes and badges are emptied and XP is 0; notes, reviews and cursor stay |
| SwipeMain.Session.SaveNote | AtomCharm/Main.py:154-155 | a non-blank note is stored under the shown dish's name; a blank one changes nothing |
| SwipeMain.Session.Remove | AtomCharm/Main.py:171 | Favorites "Remove" deletes the name from likes and leaves XP and badges as they were |
| SwipeMain.Session.SkipToMatch | AtomCharm/Main.py:125-131 | the skip loop ends either past the catalogue or on a passing dish, and every dish it skipped fails the filter |
| SwipeAi.FixImg | AtomCharm/aimatch.py:60-63 | a missing or empty URL becomes the placeholder; the query is appended only to Unsplash URLs without `?`; any other URL is kept; the result is never empty |
| SwipeAi.FixImgIdempotent | AtomCharm/aimatch.py:60-63 | `_fix_img(_fix_img(u)) == _fix_img(u)` |
| SwipeAi.LoadCatalog | AtomCharm/aimatch.py:69-74 | `foods` and `restaurants` are exactly the raw records with a name and a culture (cuisine), with their multiplicities and in file order; `by_cuisine` groups the cleaned restaurants by normalised cuisine, in order |
| SwipeAi.KeepDish | AtomCharm/aimatch.py:69 | a dish is kept only with a non-empty name and a non-empty culture |
| SwipeAi.KeepRestaurant | AtomCharm/aimatch.py:70 | a restaurant is kept only with a non-empty name and a non-empty cuisine |
| SwipeAi.Passes | AtomCharm/aimatch.py:121-122 | with no tag and mood "Any" every dish passes; a dish without a mood passes only under "Any" |
| SwipeAi.EarnedTable | AtomCharm/aimatch.py:100-103 | count badges: "Taster ×10" from 10 likes, "Foodie ×25" from 25, "Gourmand ×50" from 50; "Weekly Explorer" is never a count badge |
| SwipeAi.Recent | AtomCharm/aimatch.py:104-105 | a like dated today (or later) is recent; one dated more than seven days before today is not |
| SwipeAi.RecentCultures | AtomCharm/aimatch.py:104-105 | there are at most as many recent cultures as likes, and none when no like is dated within the last week |
| SwipeAi.Explorer | AtomCharm/aimatch.py:104-105 | the Weekly Explorer condition needs at least three likes |
| SwipeAi.RecentWitness | AtomCharm/aimatch.py:104-105 | every recent culture is the culture of some like dated within the last week |
| SwipeAi.ExplorerHasThreeCultures | AtomCharm/aimatch.py:104-106 | when the badge condition holds, three recent likes have pairwise different cultures |
| SwipeAi.ThreeCulturesMakeExplorer | AtomCharm/aimatch.py:104-106 | three recent likes with pairwise different cultures make the badge condition hold |
| SwipeAi.ExplorerIffThreeCultures | AtomCharm/aimatch.py:104-106 | "Weekly Explorer" is due exactly when three likes dated on or after `today - 7` have pairwise different cultures |
| SwipeAi.ExplorerKeptByLike | AtomCharm/aimatch.py:104-106 | a further like never removes a recent culture, so a reached Weekly Explorer condition stays reached the same day |
| SwipeAi.SumStars | AtomCharm/aimatch.py:177 | with slider stars the total lies between one and five stars per review |
| SwipeAi.CommunityRating | AtomCharm/aimatch.py:176-177 | the rating is shown exactly when there is a review, and with slider stars it lies in [1, 5] |
| SwipeAi.SumOfEqualStars | AtomCharm/aimatch.py:177 | equal stars sum to stars times the number of reviews |
| SwipeAi.EqualStarsRating | AtomCharm/aimatch.py:176-177 | when every review gave the same stars, the rating is that number of stars |
| SwipeAi.LikedKeys | AtomCharm/aimatch.py:202 | `liked` holds the normalised culture of each like, in like order |
| SwipeAi.Counts | AtomCharm/aimatch.py:203 | the count comprehension has one key per distinct element, and its entry is that element's number of occurrences |
| SwipeAi.CountsSnoc | AtomCharm/aimatch.py:203 | one more element adds one to its own count only |
| SwipeAi.Freq | AtomCharm/aimatch.py:202-203 | every like's normalised culture is a key, and every entry is at least 1 |
| SwipeAi.LikedKeysSnoc | AtomCharm/aimatch.py:202 | one more like appends its normalised culture |
| SwipeAi.FreqAfterLike | AtomCharm/aimatch.py:202-203 | a right swipe adds one to its own normalised culture's entry and leaves every other entry as it was |
| SwipeAi.FreqCountsLikes | AtomCharm/aimatch.py:202-203 | each entry is the number of likes whose culture normalises to the key (0 for a non-key), so spellings sharing a key are summed |
| SwipeAi.Affinity | AtomCharm/aimatch.py:206-207 | half the affinity (rounded down) is the like count of the cuisine's key, so the mood bonus never outweighs one like; an odd affinity needs a mood with a tag |
| SwipeAi.Located | AtomCharm/aimatch.py:209 | `if lat and lon`: a located restaurant has both stored coordinates, both non-zero; a missing coordinate is never located |
| SwipeAi.Score | AtomCharm/aimatch.py:205-210 | a restaurant without a stored position scores 1e9; one with a position scores at most half its distance, strictly less when its affinity is positive |
| SwipeAi.ScoreSentinelIff | AtomCharm/aimatch.py:205-210 | with realistic distances every score is at most 1e9, and a score is exactly 1e9 when a stored coordinate is missing or zero |
| SwipeAi.Ranked | AtomCharm/aimatch.py:212 | `ranked` has `min(20, len(restaurants))` entries, all drawn from the restaurants, in ascending `_score`; entry `j` is the restaurant at position `j` of the stable sort by `_score` |
| SwipeAi.RankedLocatedFirst | AtomCharm/aimatch.py:208-212 | every ranked restaurant with a stored position comes before every one without |
| SwipeAi.RankedInputOrderWhenNoneLocated | AtomCharm/aimatch.py:212 | without stored positions, `ranked` is the first 20 restaurants in input order |
| SwipeAi.RankedAffinityBreaksDistanceTie | AtomCharm/aimatch.py:205-212 | of two ranked located restaurants at the same distance from Times Square, the one with the higher affinity (likes of its cuisine, mood tag) comes first |
| SwipeAi.Profile | AtomCharm/aimatch.py:237-249 | Foodie below 200 XP, Gourmet from 200, Epicurean from 500; below 500 the progress is `xp/200` or `(xp-200)/300` and lies in [0, 1); from 500 there is no progress bar |
| SwipeAi.Session.constructor | AtomCharm/aimatch.py:77-80 | the initial state is empty with XP 0 and cursor 0, and satisfies the session invariant |
| SwipeAi.Session.Current | AtomCharm/aimatch.py:94 | `_dish()` is the dish under the cursor |
| SwipeAi.Session.Advance | AtomCharm/aimatch.py:95 | `_advance()` moves the cursor by one |
| SwipeAi.Session.Award | AtomCharm/aimatch.py:96-98 | `_award(b)` adds `b` and nothing else |
| SwipeAi.Session.CheckBadges | AtomCharm/aimatch.py:100-106 | `_check_badges()` adds exactly the count badges reached, plus "Weekly Explorer" when the recent likes span three cultures, and removes nothing |
| SwipeAi.Session.Left | AtomCharm/aimatch.py:108-109 | the dish is appended to dislikes and the cursor moves on; the invariant is kept |
| SwipeAi.Session.Right | AtomCharm/aimatch.py:111-113 | the dish is appended to likes with today's date, even if liked before; XP grows by exactly 10; the badges due are awarded; the cursor moves on; `xp == 10 * len(likes)` is kept, and "Weekly Explorer" is held only after some like met its condition |
| SwipeAi.Session.SkipToMatch | AtomCharm/aimatch.py:119-124 | the skip loop ends either past the catalogue or on a dish carrying every selected tag and matching the mood, and every dish it skipped fails that test |
| SwipeAi.Session.Restart | AtomCharm/aimatch.py:141 | "Restart" sets the cursor to 0 |
| SwipeAi.Session.SaveNote | AtomCharm/aimatch.py:164-166 | a non-blank note is stored under the cursor position; a blank one changes nothing |
| SwipeAi.Session.SubmitReview | AtomCharm/aimatch.py:171-174 | a review with a non-blank comment is appended to the restaurant's list; a blank comment stores nothing; stored reviews keep slider stars and non-blank comments |

## Left out

- Streamlit rendering is not modelled: pages, CSS, cards, toasts, balloons, captions, `st.rerun`/`st.stop`. Only the state changes these trigger are modelled.
- The folium maps and the 100 random red markers (`AtomCharm/Main.py:198-240`, `AtomCharm/aimatch.py:213-220`) are presentation and randomness.
- `_haversine` is floating-point trigonometry. It is the abstract `dist` parameter, and its results are assumed to stay below twice the sentinel (`Ranking.BelowSentinel`). Scores are exact reals, not IEEE doubles.
- `_geocode`/Nominatim is a network call. It is the `geocode` oracle. The `lru_cache`/`st.cache_data` memoisation is not modelled.
- Image fetching and disk caching (`_cache_path`, `_get_bytes`) are I/O and hashing.
- `_maps` and `_tweet` are thin wrappers over URL quoting.
- JSON loading (`_load_json`, `_safe_json`) is file I/O. The inputs are already-parsed record sequences.
- `Main.py` records are assumed to carry every field it indexes directly: dish `name` (`AtomCharm/Main.py:76`) and `culture` (`AtomCharm/Main.py:181`), restaurant `cuisine` (`AtomCharm/Main.py:67`) and `address` (`AtomCharm/Main.py:191`). Python raises `KeyError` when one is missing. Only `Dietary_Restrictions` has a default (the empty string), and a missing `mood` reads as `None`. In `aimatch.py` a record missing its name or culture (cuisine) is dropped at load, as `SwipeAi.LoadCatalog` states.
- `random.choice` restaurant pairing, and the end-of-catalogue suggestion in `aimatch.py`, are random. `random.randrange` is the `pick` parameter of `Surprise`.
- The Profile statistics (favourite cuisine via `max` over a set, average price) depend on set iteration order and floating point.
- The Favorites sort orders and the de-duplicated view in `aimatch.py` are display only.
- The Favorites note lookup `foods.index(d)` (`AtomCharm/aimatch.py:194`) is not modelled. A stored like is the dish with an extra `date` field (`AtomCharm/aimatch.py:112`), so it equals no catalogue record that lacks the same `date` field, and for such a catalogue Python raises `ValueError` there for every like.
- Keyboard shortcuts only call `_left`/`_right`, which are modelled.
- `Text.Lower` lower-cases ASCII letters only. Python's full Unicode case mapping is not modelled.
- `SwipeMain.Freq`: Python's set iteration order is not modelled. It is the `order` parameter: any duplicate-free enumeration of the liked cultures (`SwipeMain.Enumerates`).
- `SwipeAi.Session.SaveNote`: the note key is the cursor position rather than the text `note_<idx>`. The two determine each other.
- `SwipeAi.Like`: dates are integer day numbers. `str(date.today())` followed by `date.fromisoformat` gives back the same day, so only the day number matters.
- `SwipeMain.Session.Current`: the model requires a non-empty catalogue. Python raises `ZeroDivisionError` on an empty one. `SwipeAi.Session.Current` requires the cursor to be inside the catalogue, where Python would raise `IndexError`.
- `SwipeMain.Session.Remove` requires the name to be liked. Python's `list.remove` raises otherwise, and the button only exists for liked names.
- `SwipeMain.Session`: `reviews` is initialised but never written in `Main.py`, so no review operation is modelled for this variant.
