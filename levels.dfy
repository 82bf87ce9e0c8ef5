/** The Profile page's level progression: a table of `(name, threshold)`
    pairs is scanned in order and every entry whose threshold the XP has
    reached becomes the current level, with the entry after it (if any) as
    the next level; the progress bar shows how far the XP has come from the
    current threshold towards the next one. */
module Levels {
  import opened Options

  datatype Level = Level(name: string, threshold: int)

  /** The last position of the table whose threshold `xp` has reached. */
  function LastReached(levels: seq<Level>, xp: int): (r: Option<nat>)
    ensures r.Some? ==> r.value < |levels| && levels[r.value].threshold <= xp
    ensures r.Some? ==> forall j :: r.value < j < |levels| ==> xp < levels[j].threshold
    ensures r.None? ==> forall j :: 0 <= j < |levels| ==> xp < levels[j].threshold
  {
    if levels == [] then None
    else if levels[|levels| - 1].threshold <= xp then Some(|levels| - 1)
    else LastReached(levels[..|levels| - 1], xp)
  }

  /** The entry after position `k`, if there is one. */
  function After(levels: seq<Level>, k: nat): Option<Level> {
    if k + 1 < |levels| then Some(levels[k + 1]) else None
  }

  /** The loop that sets `curr, nxt`. It starts from the first entry and no
      next level; when no threshold is reached it stays there. When a next
      level is reported, the XP lies in `[curr.threshold, nxt.threshold)`,
      which is what makes the progress division safe. */
  method CurrentLevel(levels: seq<Level>, xp: int) returns (curr: Level, next: Option<Level>)
    requires |levels| > 0
    ensures LastReached(levels, xp).Some? ==>
              curr == levels[LastReached(levels, xp).value] &&
              next == After(levels, LastReached(levels, xp).value)
    ensures LastReached(levels, xp).None? ==> curr == levels[0] && next == None
    ensures next.Some? ==> curr.threshold <= xp < next.value.threshold
  {
    curr, next := levels[0], None;
    for i := 0 to |levels|
      invariant LastReached(levels[..i], xp).Some? ==>
                  curr == levels[LastReached(levels[..i], xp).value] &&
                  next == After(levels, LastReached(levels[..i], xp).value)
      invariant LastReached(levels[..i], xp).None? ==> curr == levels[0] && next == None
    {
      assert levels[..i + 1][..i] == levels[..i];
      if xp >= levels[i].threshold {
        curr := levels[i];
        next := if i + 1 < |levels| then Some(levels[i + 1]) else None;
      }
    }
    assert levels[..|levels|] == levels;
  }

  /** `(xp - curr.threshold) / (next.threshold - curr.threshold)`. */
  function Progress(curr: Level, next: Level, xp: int): (pct: real)
    requires curr.threshold <= xp < next.threshold
    ensures 0.0 <= pct < 1.0
  {
    (xp - curr.threshold) as real / (next.threshold - curr.threshold) as real
  }

  /** In a table with ascending thresholds, the current level is the entry
      with the greatest threshold not above the XP. */
  lemma GreatestReached(levels: seq<Level>, xp: int, j: nat)
    requires forall a, b :: 0 <= a < b < |levels| ==> levels[a].threshold <= levels[b].threshold
    requires j < |levels| && levels[j].threshold <= xp
    ensures LastReached(levels, xp).Some?
    ensures levels[j].threshold <= levels[LastReached(levels, xp).value].threshold <= xp
  {
  }

  /** In a three-entry table the current level is the last entry whose
      threshold the XP reaches, whatever the order of the thresholds. */
  lemma LastReachedOfThree(levels: seq<Level>, xp: int)
    requires |levels| == 3
    ensures LastReached(levels, xp) ==
      if xp >= levels[2].threshold then Some(2)
      else if xp >= levels[1].threshold then Some(1)
      else if xp >= levels[0].threshold then Some(0)
      else None
  {
    var two := levels[..2];
    var one := two[..1];
    assert one[..0] == [];
    assert LastReached(one, xp) == if xp >= levels[0].threshold then Some(0) else None;
    assert LastReached(two, xp) ==
      if xp >= levels[1].threshold then Some(1) else LastReached(one, xp);
  }
}
