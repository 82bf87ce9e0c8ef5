/** Count badges: both app variants keep a table of `(threshold, name)`
    pairs and, after a like, award every badge whose threshold the number of
    likes has reached (`for n, b in table: if len(likes) >= n: _award(b)`). */
module Badges {

  /** The badges among the first `k` table entries that `n` likes reach. */
  function EarnedUpTo(table: seq<(nat, string)>, k: nat, n: nat): set<string>
    requires k <= |table|
  {
    set j | 0 <= j < k && table[j].0 <= n :: table[j].1
  }

  /** The badges `n` likes reach. */
  function Earned(table: seq<(nat, string)>, n: nat): set<string> {
    EarnedUpTo(table, |table|, n)
  }

  /** One more table entry adds its badge exactly when its threshold is
      reached: the step of the awarding loop. */
  lemma EarnedStep(table: seq<(nat, string)>, i: nat, n: nat)
    requires i < |table|
    ensures EarnedUpTo(table, i + 1, n) ==
            EarnedUpTo(table, i, n) + (if table[i].0 <= n then {table[i].1} else {})
  {
  }

  /** More likes never reach fewer badges. */
  lemma EarnedMonotone(table: seq<(nat, string)>, m: nat, n: nat)
    requires m <= n
    ensures Earned(table, m) <= Earned(table, n)
  {
  }
}
