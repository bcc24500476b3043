/** Calendar-day keys and the two streak computations: the active streak
    anchored at today, and the longest historical run with its bounds. */
module Calendar {
  import opened Types

  predicate StrictlyIncreasing(u: seq<int>)
  {
    forall i, j :: 0 <= i < j < |u| ==> u[i] < u[j]
  }

  /** The day key of every record, in record order (duplicates kept). */
  function DayKeys(ws: seq<Workout>): (ks: seq<int>)
    ensures |ks| == |ws|
    ensures forall i :: 0 <= i < |ws| ==> ks[i] == DayKey(ws[i].date)
  {
    seq(|ws|, i requires 0 <= i < |ws| => DayKey(ws[i].date))
  }

  /** Puts `x` into its place in `u`, leaving `u` alone when the day is already there. */
  function InsertDay(x: int, u: seq<int>): (r: seq<int>)
    requires StrictlyIncreasing(u)
    ensures StrictlyIncreasing(r)
    ensures forall d :: d in r <==> d == x || d in u
    ensures x in u ==> r == u
    ensures |r| <= |u| + 1
    decreases |u|
  {
    if |u| == 0 then [x]
    else if x < u[0] then [x] + u
    else if x == u[0] then u
    else
      var rest := InsertDay(x, u[1..]);
      assert u == [u[0]] + u[1..];
      PrependIncreasing(u[0], rest);
      [u[0]] + rest
  }

  lemma PrependIncreasing(a: int, u: seq<int>)
    requires StrictlyIncreasing(u) && forall d :: d in u ==> a < d
    ensures StrictlyIncreasing([a] + u)
  {
    forall i, j | 0 <= i < j < |[a] + u| ensures ([a] + u)[i] < ([a] + u)[j] {
      assert u[j - 1] in u;
    }
  }

  /** The distinct day keys in ascending order (a `Set` of day strings, sorted). */
  function SortedDays(keys: seq<int>): (u: seq<int>)
    ensures StrictlyIncreasing(u)
    ensures forall d :: d in u <==> d in keys
    ensures |u| <= |keys|
  {
    if |keys| == 0 then []
    else
      var p := SortedDays(keys[..|keys| - 1]);
      assert keys == keys[..|keys| - 1] + [keys[|keys| - 1]];
      InsertDay(keys[|keys| - 1], p)
  }

  /** Two records on the same UTC day give one streak day, so the day list is shorter than the record list. */
  lemma {:induction false} SameDayCountsOnce(ks: seq<int>, i: nat, j: nat)
    requires i < j < |ks| && ks[i] == ks[j]
    ensures |SortedDays(ks)| < |ks|
  {
    var n := |ks| - 1;
    var p := SortedDays(ks[..n]);
    if j == n {
      assert ks[i] in ks[..n];
      assert ks[n] in p;
    } else {
      SameDayCountsOnce(ks[..n], i, j);
    }
  }

  // ---------------------------------------------------------------------
  // Active streak: walk the distinct days from the newest, one day back per match.

  /** Number of consecutive days, ending at `today`, that are workout days, provided the newest
      day is today; 0 as soon as the newest day is anything else. */
  function ActiveStreak(u: seq<int>, today: int): (r: nat)
    requires StrictlyIncreasing(u)
    ensures r <= |u|
    ensures r > 0 ==> u[|u| - 1] == today
    ensures forall d :: today - r < d <= today ==> d in u
    ensures |u| > 0 && u[|u| - 1] == today ==> today - r !in u
    decreases |u|
  {
    if |u| == 0 || u[|u| - 1] != today then 0
    else
      var p := u[..|u| - 1];
      var r' := ActiveStreak(p, today - 1);
      BelowNewest(u);
      assert u == p + [today];
      1 + r'
  }

  /** The newest day bounds every day, and the day before it bounds the rest. */
  lemma BelowNewest(u: seq<int>)
    requires StrictlyIncreasing(u) && |u| > 0
    ensures forall k :: 0 <= k < |u| - 1 ==> u[k] < u[|u| - 1]
    ensures forall k :: 0 <= k < |u| - 1 ==> u[k] <= u[|u| - 2]
  {
  }

  /** Some record falls on day `d`. */
  ghost predicate TrainedOn(ws: seq<Workout>, d: int)
  {
    exists i :: 0 <= i < |ws| && DayKey(ws[i].date) == d
  }

  /** No record is dated after day `today`. */
  ghost predicate NoLaterWorkout(ws: seq<Workout>, today: int)
  {
    forall i :: 0 <= i < |ws| ==> DayKey(ws[i].date) <= today
  }

  /** The distinct sorted day list holds exactly the days some record falls on. */
  lemma WorkoutDays(ws: seq<Workout>)
    ensures forall d :: d in SortedDays(DayKeys(ws)) <==> TrainedOn(ws, d)
    ensures |SortedDays(DayKeys(ws))| <= |ws|
  {
    var ks := DayKeys(ws);
    forall d | d in ks ensures TrainedOn(ws, d) {
      var i :| 0 <= i < |ks| && ks[i] == d;
    }
    forall d | TrainedOn(ws, d) ensures d in ks {
      var i :| 0 <= i < |ws| && DayKey(ws[i].date) == d;
      assert ks[i] == d;
    }
  }

  /** The active streak of a record list on the UTC day of `now`: the days before today that
      continue it are all workout days, it is positive exactly when today is a workout day and
      no record is dated later, and then the day before the streak is not a workout day. */
  function WorkoutStreak(ws: seq<Workout>, now: int): (r: nat)
    ensures r <= |ws|
    ensures forall d :: DayKey(now) - r < d <= DayKey(now) ==> TrainedOn(ws, d)
    ensures r > 0 <==> TrainedOn(ws, DayKey(now)) && NoLaterWorkout(ws, DayKey(now))
    ensures NoLaterWorkout(ws, DayKey(now)) ==> !TrainedOn(ws, DayKey(now) - r)
  {
    var u := SortedDays(DayKeys(ws));
    var r := ActiveStreak(u, DayKey(now));
    ActiveStreakOfWorkouts(ws, u, DayKey(now), r);
    r
  }

  /** The active streak over the day list, read back in terms of the records. */
  lemma ActiveStreakOfWorkouts(ws: seq<Workout>, u: seq<int>, today: int, r: nat)
    requires u == SortedDays(DayKeys(ws)) && r == ActiveStreak(u, today)
    ensures r <= |ws|
    ensures forall d :: today - r < d <= today ==> TrainedOn(ws, d)
    ensures r > 0 <==> TrainedOn(ws, today) && NoLaterWorkout(ws, today)
    ensures NoLaterWorkout(ws, today) ==> !TrainedOn(ws, today - r)
  {
    WorkoutDays(ws);
    NewestBoundsAll(ws, u);
    if |u| > 0 {
      BelowNewest(u);
      if TrainedOn(ws, today) && NoLaterWorkout(ws, today) {
        var k :| 0 <= k < |u| && u[k] == today;
        var i :| 0 <= i < |ws| && DayKey(ws[i].date) == u[|u| - 1];
        assert u[|u| - 1] == today;
      }
    }
  }

  /** Every record's day is at most the newest listed day, and the newest is a record's day. */
  lemma NewestBoundsAll(ws: seq<Workout>, u: seq<int>)
    requires StrictlyIncreasing(u) && forall d :: d in u <==> TrainedOn(ws, d)
    ensures |u| > 0 ==> forall i :: 0 <= i < |ws| ==> DayKey(ws[i].date) <= u[|u| - 1]
    ensures |u| > 0 ==> TrainedOn(ws, u[|u| - 1])
    ensures |u| == 0 ==> forall d :: !TrainedOn(ws, d)
  {
    if |u| > 0 {
      BelowNewest(u);
      forall i | 0 <= i < |ws| ensures DayKey(ws[i].date) <= u[|u| - 1] {
        assert TrainedOn(ws, DayKey(ws[i].date));
        var k :| 0 <= k < |u| && u[k] == DayKey(ws[i].date);
      }
      assert u[|u| - 1] in u;
    }
  }


  // ---------------------------------------------------------------------
  // Longest historical streak.

  /** Length of the run of one-day steps that ends at index `j`. */
  function RunEndingAt(u: seq<int>, j: nat): (r: nat)
    requires j < |u|
    ensures 1 <= r <= j + 1
  {
    if j == 0 || u[j] - u[j - 1] != 1 then 1 else 1 + RunEndingAt(u, j - 1)
  }

  /** The longest run ending strictly before index `k` (0 when `k` is 0). */
  function MaxRunBefore(u: seq<int>, k: nat): (m: nat)
    requires k <= |u|
    ensures k == 0 <==> m == 0
  {
    if k == 0 then 0
    else
      var p := MaxRunBefore(u, k - 1);
      if RunEndingAt(u, k - 1) > p then RunEndingAt(u, k - 1) else p
  }

  /** No run ending before index `k` is longer than `MaxRunBefore(u, k)`. */
  lemma {:induction false} MaxRunBeforeBounds(u: seq<int>, k: nat)
    requires k <= |u|
    ensures forall j :: 0 <= j < k ==> RunEndingAt(u, j) <= MaxRunBefore(u, k)
  {
    if k > 0 {
      MaxRunBeforeBounds(u, k - 1);
    }
  }

  /** Where the first run of maximal length ends. */
  function FirstArgMax(u: seq<int>, k: nat): (i: nat)
    requires 0 < k <= |u|
    ensures i < k && RunEndingAt(u, i) == MaxRunBefore(u, k)
  {
    if k == 1 then 0
    else if RunEndingAt(u, k - 1) > MaxRunBefore(u, k - 1) then k - 1
    else FirstArgMax(u, k - 1)
  }

  /** Every run ending before the first maximal one is shorter. */
  lemma {:induction false} FirstArgMaxIsFirst(u: seq<int>, k: nat)
    requires 0 < k <= |u|
    ensures forall j :: 0 <= j < FirstArgMax(u, k) ==> RunEndingAt(u, j) < MaxRunBefore(u, k)
  {
    if k > 1 {
      if RunEndingAt(u, k - 1) > MaxRunBefore(u, k - 1) {
        MaxRunBeforeBounds(u, k - 1);
      } else {
        FirstArgMaxIsFirst(u, k - 1);
      }
    }
  }

  /** The latest index `i <= k` reached by a one-day step, or 0 when there is none. */
  function LastStep(u: seq<int>, k: nat): (i: nat)
    requires k < |u|
    ensures i <= k
    ensures i > 0 ==> u[i] - u[i - 1] == 1
  {
    if k == 0 then 0
    else if u[k] - u[k - 1] == 1 then k
    else LastStep(u, k - 1)
  }

  /** No one-day step comes after `LastStep(u, k)` up to `k`. */
  lemma {:induction false} LastStepIsLast(u: seq<int>, k: nat)
    requires k < |u|
    ensures forall j :: LastStep(u, k) < j <= k ==> u[j] - u[j - 1] != 1
  {
    if k > 0 && u[k] - u[k - 1] != 1 {
      LastStepIsLast(u, k - 1);
    }
  }

  /** The loop variables of the scan: `best` is maxStreak, `current` the run in progress. */
  datatype ScanState = ScanState(best: nat, current: nat, start: int, end: int)

  datatype StreakRun = StreakRun(length: nat, start: int, end: int)

  /** One pass of the loop body at index `i`. With `overwriteEnd` the end is reassigned on
      every one-day step, as the loop does; without it the end is set only with a new maximum. */
  function Step(u: seq<int>, i: nat, s: ScanState, overwriteEnd: bool): (r: ScanState)
    requires 1 <= i < |u|
    requires 1 <= s.current <= i
    ensures 1 <= r.current <= i + 1
  {
    if u[i] - u[i - 1] == 1 then
      s.(current := s.current + 1, end := if overwriteEnd then u[i] else s.end)
    else if s.current > s.best then
      ScanState(s.current, 1, u[i - s.current], u[i - 1])
    else
      s.(current := 1)
  }

  /** The loop run for indices `i .. |u|-1`. */
  function Scan(u: seq<int>, i: nat, s: ScanState, overwriteEnd: bool): (r: ScanState)
    requires 1 <= i <= |u|
    requires 1 <= s.current <= i
    ensures 1 <= r.current <= |u|
    decreases |u| - i
  {
    if i == |u| then s else Scan(u, i + 1, Step(u, i, s, overwriteEnd), overwriteEnd)
  }

  /** The longest-streak scan over the ascending distinct days, including the check after the loop. */
  function LongestStreak(u: seq<int>, overwriteEnd: bool): StreakRun
    requires |u| > 0
  {
    var s := Scan(u, 1, ScanState(0, 1, u[0], u[0]), overwriteEnd);
    if s.current > s.best then StreakRun(s.current, u[|u| - s.current], u[|u| - 1])
    else StreakRun(s.best, s.start, s.end)
  }

  /** The run lengths inside a run count up one by one. */
  lemma {:induction false} RunBack(u: seq<int>, j: nat, t: nat)
    requires j < |u| && t < RunEndingAt(u, j)
    ensures RunEndingAt(u, j - t) == RunEndingAt(u, j) - t
    ensures u[j - t] == u[j] - t
  {
    if t > 0 {
      RunBack(u, j - 1, t - 1);
    }
  }

  /** Walking into a run of length `c` that starts at index `b`. */
  lemma {:induction false} Segment(u: seq<int>, b: nat, c: nat, t: nat)
    requires 1 <= c && b + c <= |u| && RunEndingAt(u, b + c - 1) == c && t <= c
    ensures MaxRunBefore(u, b + t) == if t > MaxRunBefore(u, b) then t else MaxRunBefore(u, b)
    ensures t > MaxRunBefore(u, b) ==> FirstArgMax(u, b + t) == b + t - 1
    ensures t <= MaxRunBefore(u, b) && b > 0 ==> FirstArgMax(u, b + t) == FirstArgMax(u, b)
  {
    if t > 0 {
      Segment(u, b, c, t - 1);
      RunBack(u, b + c - 1, c - t);
    }
  }

  ghost predicate ScanInv(u: seq<int>, i: nat, s: ScanState, overwriteEnd: bool)
  {
    && 1 <= s.current <= i <= |u|
    && s.current == RunEndingAt(u, i - 1)
    && s.best == MaxRunBefore(u, i - s.current)
    && (i - s.current == 0 ==> s.start == u[0])
    && (!overwriteEnd && i - s.current == 0 ==> s.end == u[0])
    && (i - s.current > 0 ==> s.start == u[FirstArgMax(u, i - s.current) - s.best + 1])
    && (overwriteEnd ==> s.end == u[LastStep(u, i - 1)])
    && (!overwriteEnd && i - s.current > 0 ==> s.end == u[FirstArgMax(u, i - s.current)])
  }

  lemma StepOnRun(u: seq<int>, i: nat, s: ScanState, overwriteEnd: bool)
    requires ScanInv(u, i, s, overwriteEnd) && i < |u| && u[i] - u[i - 1] == 1
    ensures ScanInv(u, i + 1, Step(u, i, s, overwriteEnd), overwriteEnd)
  {
    var s' := Step(u, i, s, overwriteEnd);
    assert RunEndingAt(u, i) == s.current + 1;
    assert LastStep(u, i) == i;
    assert i + 1 - s'.current == i - s.current;
  }

  /** A run of length `c` that ends at index `i - 1` and beats every earlier run. */
  lemma NewBestFacts(u: seq<int>, i: nat, c: nat)
    requires 1 <= c <= i < |u| && u[i] - u[i - 1] != 1
    requires c == RunEndingAt(u, i - 1) && c > MaxRunBefore(u, i - c)
    ensures MaxRunBefore(u, i) == c && FirstArgMax(u, i) == i - 1
    ensures RunEndingAt(u, i) == 1 && LastStep(u, i) == LastStep(u, i - 1)
    ensures c >= 2 ==> LastStep(u, i - 1) == i - 1
    ensures c == 1 ==> i - c == 0 || MaxRunBefore(u, i - c) == 0
  {
    Segment(u, i - c, c, c);
    if c >= 2 {
      RunBack(u, i - 1, 1);
    }
  }

  /** A run of length `c` that ends at index `i - 1` and does not beat the best so far. */
  lemma KeepBestFacts(u: seq<int>, i: nat, c: nat)
    requires 1 <= c <= i < |u| && u[i] - u[i - 1] != 1
    requires c == RunEndingAt(u, i - 1) && c <= MaxRunBefore(u, i - c)
    ensures i - c > 0
    ensures MaxRunBefore(u, i) == MaxRunBefore(u, i - c) && FirstArgMax(u, i) == FirstArgMax(u, i - c)
    ensures RunEndingAt(u, i) == 1 && LastStep(u, i) == LastStep(u, i - 1)
  {
    Segment(u, i - c, c, c);
  }

  lemma StepNewBest(u: seq<int>, i: nat, s: ScanState, overwriteEnd: bool)
    requires ScanInv(u, i, s, overwriteEnd) && i < |u| && u[i] - u[i - 1] != 1 && s.current > s.best
    ensures ScanInv(u, i + 1, Step(u, i, s, overwriteEnd), overwriteEnd)
  {
    NewBestFacts(u, i, s.current);
    assert Step(u, i, s, overwriteEnd) == ScanState(s.current, 1, u[i - s.current], u[i - 1]);
  }

  lemma StepKeepBest(u: seq<int>, i: nat, s: ScanState, overwriteEnd: bool)
    requires ScanInv(u, i, s, overwriteEnd) && i < |u| && u[i] - u[i - 1] != 1 && s.current <= s.best
    ensures ScanInv(u, i + 1, Step(u, i, s, overwriteEnd), overwriteEnd)
  {
    KeepBestFacts(u, i, s.current);
    assert Step(u, i, s, overwriteEnd) == s.(current := 1);
  }

  lemma {:induction false} ScanKeepsInv(u: seq<int>, i: nat, s: ScanState, overwriteEnd: bool)
    requires ScanInv(u, i, s, overwriteEnd)
    ensures ScanInv(u, |u|, Scan(u, i, s, overwriteEnd), overwriteEnd)
    decreases |u| - i
  {
    if i < |u| {
      if u[i] - u[i - 1] == 1 {
        StepOnRun(u, i, s, overwriteEnd);
      } else if s.current > s.best {
        StepNewBest(u, i, s, overwriteEnd);
      } else {
        StepKeepBest(u, i, s, overwriteEnd);
      }
      ScanKeepsInv(u, i + 1, Step(u, i, s, overwriteEnd), overwriteEnd);
    }
  }

  /** The scan, read off index by index: the maximum run, where the first maximal run
      starts, and where the end variable is left. */
  lemma LongestStreakIndices(u: seq<int>, overwriteEnd: bool)
    requires |u| > 0
    ensures LongestStreak(u, overwriteEnd).length == MaxRunBefore(u, |u|)
    ensures LongestStreak(u, overwriteEnd).start == u[FirstArgMax(u, |u|) - MaxRunBefore(u, |u|) + 1]
    ensures overwriteEnd ==> LongestStreak(u, overwriteEnd).end == u[LastStep(u, |u| - 1)]
    ensures !overwriteEnd ==> LongestStreak(u, overwriteEnd).end == u[FirstArgMax(u, |u|)]
  {
    var s0 := ScanState(0, 1, u[0], u[0]);
    assert ScanInv(u, 1, s0, overwriteEnd);
    ScanKeepsInv(u, 1, s0, overwriteEnd);
    var s := Scan(u, 1, s0, overwriteEnd);
    if s.current > s.best {
      FinishNewBest(u, s, overwriteEnd);
    } else {
      FinishKeepBest(u, s, overwriteEnd);
    }
  }

  lemma FinishNewBest(u: seq<int>, s: ScanState, overwriteEnd: bool)
    requires |u| > 0 && ScanInv(u, |u|, s, overwriteEnd) && s.current > s.best
    ensures MaxRunBefore(u, |u|) == s.current
    ensures FirstArgMax(u, |u|) == |u| - 1
    ensures overwriteEnd ==> LastStep(u, |u| - 1) == |u| - 1
  {
    Segment(u, |u| - s.current, s.current, s.current);
    if s.current >= 2 {
      RunBack(u, |u| - 1, 1);
    }
  }

  lemma FinishKeepBest(u: seq<int>, s: ScanState, overwriteEnd: bool)
    requires |u| > 0 && ScanInv(u, |u|, s, overwriteEnd) && s.current <= s.best
    ensures MaxRunBefore(u, |u|) == s.best
    ensures FirstArgMax(u, |u|) == FirstArgMax(u, |u| - s.current)
  {
    Segment(u, |u| - s.current, s.current, s.current);
  }

  /** `m` consecutive calendar days starting at `d` are all workout days. */
  ghost predicate ConsecutiveDays(u: seq<int>, d: int, m: nat)
  {
    forall x :: d <= x < d + m ==> x in u
  }

  /** In an ascending list of distinct days, a day and the day after it sit side by side. */
  lemma Adjacent(u: seq<int>, a: nat, b: nat)
    requires StrictlyIncreasing(u) && a < |u| && b < |u| && u[b] == u[a] + 1
    ensures b == a + 1
  {
    GapBoth(u, a, b);
  }

  /** Distinct ascending integers are at least as far apart as their positions. */
  lemma {:induction false} Gap(u: seq<int>, i: nat, j: nat)
    requires StrictlyIncreasing(u) && i <= j < |u|
    ensures u[j] - u[i] >= j - i
    decreases j - i
  {
    if i < j {
      Gap(u, i + 1, j);
    }
  }

  lemma GapBoth(u: seq<int>, a: nat, b: nat)
    requires StrictlyIncreasing(u) && a < |u| && b < |u|
    ensures a <= b ==> u[b] - u[a] >= b - a
    ensures b <= a ==> u[a] - u[b] >= a - b
  {
    if a <= b {
      Gap(u, a, b);
    } else {
      Gap(u, b, a);
    }
  }

  function IndexOfDay(u: seq<int>, d: int): (k: nat)
    requires d in u
    ensures k < |u| && u[k] == d
  {
    if u[0] == d then 0 else 1 + IndexOfDay(u[1..], d)
  }

  /** A block of `m` consecutive workout days ends a run of at least `m` steps. */
  lemma {:induction false} BlockIsRun(u: seq<int>, d: int, m: nat)
    requires StrictlyIncreasing(u) && m >= 1 && ConsecutiveDays(u, d, m)
    ensures RunEndingAt(u, IndexOfDay(u, d + m - 1)) >= m
  {
    assert d + (m - 1) in u;
    if m > 1 {
      BlockIsRun(u, d, m - 1);
      assert d + (m - 2) in u;
      var j := IndexOfDay(u, d + m - 1);
      var j' := IndexOfDay(u, d + m - 2);
      Adjacent(u, j', j);
    }
  }

  /** A run of length `m` ending at index `k` is a block of `m` consecutive days. */
  lemma RunIsBlock(u: seq<int>, k: nat)
    requires k < |u|
    ensures ConsecutiveDays(u, u[k] - RunEndingAt(u, k) + 1, RunEndingAt(u, k))
    ensures u[k - RunEndingAt(u, k) + 1] == u[k] - RunEndingAt(u, k) + 1
  {
    var m := RunEndingAt(u, k);
    forall x | u[k] - m + 1 <= x < u[k] + 1 ensures x in u {
      RunBack(u, k, u[k] - x);
    }
    RunBack(u, k, m - 1);
  }

  /** The longest block is attained at the first maximal run, and no block is longer. */
  lemma LongestBlock(u: seq<int>)
    requires |u| > 0 && StrictlyIncreasing(u)
    ensures ConsecutiveDays(u, u[FirstArgMax(u, |u|)] - MaxRunBefore(u, |u|) + 1, MaxRunBefore(u, |u|))
    ensures forall d, m: nat :: ConsecutiveDays(u, d, m) ==> m <= MaxRunBefore(u, |u|)
    ensures forall d :: ConsecutiveDays(u, d, MaxRunBefore(u, |u|)) ==>
              u[FirstArgMax(u, |u|)] - MaxRunBefore(u, |u|) + 1 <= d
  {
    var k := FirstArgMax(u, |u|);
    var len := MaxRunBefore(u, |u|);
    RunIsBlock(u, k);
    MaxRunBeforeBounds(u, |u|);
    forall d, m: nat | ConsecutiveDays(u, d, m) ensures m <= len {
      if m >= 1 {
        BlockIsRun(u, d, m);
        assert RunEndingAt(u, IndexOfDay(u, d + m - 1)) >= m;
      }
    }
    forall d | ConsecutiveDays(u, d, MaxRunBefore(u, |u|))
      ensures u[FirstArgMax(u, |u|)] - MaxRunBefore(u, |u|) + 1 <= d
    {
      EarliestBlock(u, d);
    }
  }

  lemma EarliestBlock(u: seq<int>, d: int)
    requires |u| > 0 && StrictlyIncreasing(u) && ConsecutiveDays(u, d, MaxRunBefore(u, |u|))
    ensures u[FirstArgMax(u, |u|)] - MaxRunBefore(u, |u|) + 1 <= d
  {
    var k := FirstArgMax(u, |u|);
    var len := MaxRunBefore(u, |u|);
    BlockIsRun(u, d, len);
    var j := IndexOfDay(u, d + len - 1);
    MaxRunBeforeBounds(u, |u|);
    FirstArgMaxIsFirst(u, |u|);
    assert RunEndingAt(u, j) == len;
    assert k <= j;
    GapBoth(u, k, j);
  }

  /** Where the end variable is left when it is reassigned on every one-day step. */
  lemma LastStepDay(u: seq<int>)
    requires |u| > 0 && StrictlyIncreasing(u)
    ensures var e := u[LastStep(u, |u| - 1)];
            || (e in u && e - 1 in u && forall d :: d in u && d - 1 in u ==> d <= e)
            || (e == u[0] && forall d :: d in u ==> d - 1 !in u)
  {
    var i := LastStep(u, |u| - 1);
    StepDaysUpToLastStep(u);
    if i > 0 {
      assert u[i] in u && u[i - 1] in u;
    }
  }

  /** Every day whose previous day is a workout day is a one-day step at or before `LastStep`. */
  lemma StepDaysUpToLastStep(u: seq<int>)
    requires |u| > 0 && StrictlyIncreasing(u)
    ensures forall d :: d in u && d - 1 in u ==> LastStep(u, |u| - 1) > 0 && d <= u[LastStep(u, |u| - 1)]
  {
    forall d | d in u && d - 1 in u ensures LastStep(u, |u| - 1) > 0 && d <= u[LastStep(u, |u| - 1)] {
      StepDayUpToLastStep(u, d);
    }
  }

  lemma StepDayUpToLastStep(u: seq<int>, d: int)
    requires |u| > 0 && StrictlyIncreasing(u) && d in u && d - 1 in u
    ensures LastStep(u, |u| - 1) > 0 && d <= u[LastStep(u, |u| - 1)]
  {
    var i := LastStep(u, |u| - 1);
    var j := IndexOfDay(u, d);
    var j' := IndexOfDay(u, d - 1);
    Adjacent(u, j', j);
    assert u[j] - u[j - 1] == 1;
    LastStepIsLast(u, |u| - 1);
    assert j <= i;
    GapBoth(u, j, i);
  }

  /** What the longest-streak scan reports, in calendar terms. Its length is the longest block of
      consecutive workout days; its start opens the earliest such block. With the end reassigned
      on every one-day step, the end is the latest day whose previous day is also a workout day
      (or the first day when there is none), not necessarily the end of the longest block;
      without that reassignment the end closes the reported block. */
  lemma LongestStreakSpec(u: seq<int>, overwriteEnd: bool)
    requires |u| > 0 && StrictlyIncreasing(u)
    ensures LongestStreak(u, overwriteEnd).length >= 1
    ensures ConsecutiveDays(u, LongestStreak(u, overwriteEnd).start, LongestStreak(u, overwriteEnd).length)
    ensures forall d, m: nat :: ConsecutiveDays(u, d, m) ==> m <= LongestStreak(u, overwriteEnd).length
    ensures forall d :: ConsecutiveDays(u, d, LongestStreak(u, overwriteEnd).length) ==>
              LongestStreak(u, overwriteEnd).start <= d
    ensures !overwriteEnd ==>
              LongestStreak(u, overwriteEnd).end == LongestStreak(u, overwriteEnd).start + LongestStreak(u, overwriteEnd).length - 1
    ensures overwriteEnd ==>
              var e := LongestStreak(u, overwriteEnd).end;
              || (e in u && e - 1 in u && forall d :: d in u && d - 1 in u ==> d <= e)
              || (e == u[0] && forall d :: d in u ==> d - 1 !in u)
  {
    LongestStreakIndices(u, overwriteEnd);
    RunIsBlock(u, FirstArgMax(u, |u|));
    LongestBlock(u);
    if overwriteEnd {
      LastStepDay(u);
    }
  }

  /** `m` consecutive days starting at `d` all have a record. */
  ghost predicate ConsecutiveWorkoutDays(ws: seq<Workout>, d: int, m: nat)
  {
    forall x :: d <= x < d + m ==> TrainedOn(ws, x)
  }

  /** `d` is a workout day and so is the day before it. */
  ghost predicate FollowsWorkoutDay(ws: seq<Workout>, d: int)
  {
    TrainedOn(ws, d) && TrainedOn(ws, d - 1)
  }

  /** The longest-streak scan over the distinct days of a non-empty record list, in terms of the
      records: the longest block of consecutive workout days, starting at the earliest such
      block. Without the end reassignment the end closes that block; with it, the end is the
      latest workout day whose previous day is also one, or the first workout day when no two
      workout days are adjacent. */
  function HistoryStreak(ws: seq<Workout>, overwriteEnd: bool): (r: StreakRun)
    requires |ws| > 0
    ensures r.length >= 1
    ensures ConsecutiveWorkoutDays(ws, r.start, r.length)
    ensures forall d, m: nat :: ConsecutiveWorkoutDays(ws, d, m) ==> m <= r.length
    ensures forall d :: ConsecutiveWorkoutDays(ws, d, r.length) ==> r.start <= d
    ensures !overwriteEnd ==> r.end == r.start + r.length - 1
    ensures overwriteEnd ==>
              || (FollowsWorkoutDay(ws, r.end) && forall d :: FollowsWorkoutDay(ws, d) ==> d <= r.end)
              || (TrainedOn(ws, r.end) && (forall d :: TrainedOn(ws, d) ==> r.end <= d)
                  && forall d :: !FollowsWorkoutDay(ws, d))
  {
    var u := SortedDays(DayKeys(ws));
    WorkoutDays(ws);
    assert TrainedOn(ws, DayKey(ws[0].date));
    LongestStreakSpec(u, overwriteEnd);
    BlocksAreWorkoutBlocks(ws, u);
    FirstDayIsEarliest(u);
    LongestStreak(u, overwriteEnd)
  }

  /** When no two workout days are adjacent, the scan starts at the earliest workout day. */
  lemma OneDayStreakStart(ws: seq<Workout>, overwriteEnd: bool)
    requires |ws| > 0
    ensures HistoryStreak(ws, overwriteEnd).length <= 1 ==>
              && TrainedOn(ws, HistoryStreak(ws, overwriteEnd).start)
              && forall d :: TrainedOn(ws, d) ==> HistoryStreak(ws, overwriteEnd).start <= d
  {
    var r := HistoryStreak(ws, overwriteEnd);
    if r.length <= 1 {
      assert ConsecutiveWorkoutDays(ws, r.start, 1);
      forall d | TrainedOn(ws, d) ensures r.start <= d {
        assert ConsecutiveWorkoutDays(ws, d, 1);
      }
    }
  }

  /** Blocks of listed days are blocks of workout days. */
  lemma BlocksAreWorkoutBlocks(ws: seq<Workout>, u: seq<int>)
    requires forall d :: d in u <==> TrainedOn(ws, d)
    ensures forall d, m: nat :: ConsecutiveDays(u, d, m) <==> ConsecutiveWorkoutDays(ws, d, m)
  {
  }

  /** The first listed day is the earliest. */
  lemma FirstDayIsEarliest(u: seq<int>)
    requires |u| > 0 && StrictlyIncreasing(u)
    ensures forall d :: d in u ==> u[0] <= d
  {
  }
}
