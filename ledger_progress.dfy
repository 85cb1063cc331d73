/**
 * The level engine of the competency page (`M.addLevel`, `M.removeLevel`) on
 * values: what one step does to an AC's `level` and `dates`, and the invariant
 * the steps keep.
 */
module Progress {
  import opened Wrappers
  import opened Text

  const MaxLevel := 5

  /** An ISO timestamp from `new Date().toISOString()`, which is never empty. */
  type Timestamp = s: string | s != "" witness "1970-01-01T00:00:00.000Z"

  /**
   * The mutable part of an AC: its `level` (None while the property is
   * undefined) and its `dates`, mapping each reached level to the timestamp at
   * which it was reached (an AC without `dates` has the empty map).
   */
  datatype Progress = Progress(level: Option<int>, dates: map<int, string>)

  /** The level as the engine reads it: undefined counts as 0. */
  function CurrentLevel(p: Progress): int {
    p.level.GetOr(0)
  }

  /**
   * The ledger invariant: the level is within 0..5 and every recorded date
   * belongs to a level from 1 up to the current one and holds a timestamp.
   */
  predicate Consistent(p: Progress) {
    && 0 <= CurrentLevel(p) <= MaxLevel
    && forall k :: k in p.dates ==> 1 <= k <= CurrentLevel(p) && p.dates[k] != ""
  }

  /** `M.addLevel` on one AC: whether it succeeded and the AC's new state. */
  function AddLevelStep(p: Progress, now: Timestamp): (r: (bool, Progress))
    ensures r.0 <==> CurrentLevel(p) < MaxLevel
    ensures r.1.level == Some(if r.0 then CurrentLevel(p) + 1 else CurrentLevel(p))
    ensures r.0 ==> r.1.dates.Keys == p.dates.Keys + {CurrentLevel(p) + 1}
    ensures r.0 ==> r.1.dates[CurrentLevel(p) + 1] == now
    ensures r.0 ==> forall k :: k in p.dates && k != CurrentLevel(p) + 1 ==> r.1.dates[k] == p.dates[k]
    ensures !r.0 ==> r.1.dates == p.dates
  {
    var level := CurrentLevel(p);
    if level < MaxLevel then
      (true, Progress(Some(level + 1), p.dates[level + 1 := now]))
    else
      (false, Progress(Some(level), p.dates))
  }

  /** `M.removeLevel` on one AC: whether it succeeded and the AC's new state. */
  function RemoveLevelStep(p: Progress): (r: (bool, Progress))
    ensures r.0 <==> CurrentLevel(p) > 0
    ensures r.1.level == Some(if r.0 then CurrentLevel(p) - 1 else CurrentLevel(p))
    ensures r.0 && CurrentLevel(p) in p.dates && p.dates[CurrentLevel(p)] != "" ==>
              r.1.dates == p.dates - {CurrentLevel(p)}
    ensures !r.0 || CurrentLevel(p) !in p.dates || p.dates[CurrentLevel(p)] == "" ==> r.1.dates == p.dates
  {
    var level := CurrentLevel(p);
    if level > 0 then
      var dates := if level in p.dates && p.dates[level] != "" then p.dates - {level} else p.dates;
      (true, Progress(Some(level - 1), dates))
    else
      (false, Progress(Some(level), p.dates))
  }

  /** A step of the level engine, as the page's add and remove buttons trigger it. */
  datatype Step = Add(now: Timestamp) | Remove

  function Apply(p: Progress, step: Step): Progress {
    match step
    case Add(now) => AddLevelStep(p, now).1
    case Remove => RemoveLevelStep(p).1
  }

  function Replay(p: Progress, steps: seq<Step>): Progress
    decreases |steps|
  {
    if steps == [] then p else Replay(Apply(p, steps[0]), steps[1..])
  }

  lemma AddLevelKeepsConsistent(p: Progress, now: Timestamp)
    requires Consistent(p)
    ensures Consistent(AddLevelStep(p, now).1)
  {
  }

  lemma RemoveLevelKeepsConsistent(p: Progress)
    requires Consistent(p)
    ensures Consistent(RemoveLevelStep(p).1)
  {
  }

  /** From a consistent state, any sequence of button presses keeps the ledger invariant. */
  lemma {:induction false} ReplayKeepsConsistent(p: Progress, steps: seq<Step>)
    requires Consistent(p)
    ensures Consistent(Replay(p, steps))
    decreases |steps|
  {
    if steps != [] {
      match steps[0] {
        case Add(now) => AddLevelKeepsConsistent(p, now);
        case Remove => RemoveLevelKeepsConsistent(p);
      }
      ReplayKeepsConsistent(Apply(p, steps[0]), steps[1..]);
    }
  }

  /**
   * Dates in level order are in chronological order (ISO timestamps compare
   * chronologically as strings).
   */
  predicate Chronological(dates: map<int, string>) {
    forall k1, k2 :: k1 in dates && k2 in dates && k1 < k2 ==> LessEq(dates[k1], dates[k2])
  }

  predicate NotBefore(now: string, dates: map<int, string>) {
    forall k :: k in dates ==> LessEq(dates[k], now)
  }

  /** With a clock that never goes back, raising a level keeps the dates chronological. */
  lemma AddLevelKeepsChronological(p: Progress, now: Timestamp)
    requires Consistent(p) && Chronological(p.dates) && NotBefore(now, p.dates)
    ensures Chronological(AddLevelStep(p, now).1.dates)
  {
  }

  lemma RemoveLevelKeepsChronological(p: Progress)
    requires Chronological(p.dates)
    ensures Chronological(RemoveLevelStep(p).1.dates)
  {
  }
}
