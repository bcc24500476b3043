/** The workout endpoints' statistics: the weekly count with the most frequent exercise,
    and the all-time performance summary (heaviest lift, longest streak, most frequent). */
module WorkoutController {
  import opened Types
  import opened Collections
  import opened Calendar
  import opened Aggregates

  datatype WeekStats = WeekStats(totalWorkouts: nat, mostFrequent: string)

  /** The records of the last seven days: how many there are, and the name logged most often
      with ties going to the name seen first; "None" when nothing was logged, or when that name
      is the empty one, which reads as false. */
  function WorkoutsStats(ws: seq<Workout>): (r: WeekStats)
    ensures r.totalWorkouts == |ws|
    ensures |Names(ws)| == 0 ==> r.mostFrequent == "None"
    ensures |Names(ws)| > 0 && "" !in Names(ws) ==> EarliestMostFrequent(Names(ws), r.mostFrequent)
    ensures r.mostFrequent == "None" || EarliestMostFrequent(Names(ws), r.mostFrequent)
    ensures forall x :: x != "" && EarliestMostFrequent(Names(ws), x) ==> r.mostFrequent == x
    ensures EarliestMostFrequent(Names(ws), "") ==> r.mostFrequent == "None"
  {
    var p := FirstMostFrequent(Distinct(Names(ws)), Names(ws));
    FirstMostFrequentOfNames(Names(ws));
    EarliestMostFrequentIsUnique(Names(ws));
    WeekStats(|ws|, if p.name.Some? && p.name.value != "" then p.name.value else "None")
  }

  /** The performance summary. `longestStreak` is the reported length, absent ("N/A") unless
      it exceeds one day; `streakBounds` holds the start and end the scan leaves behind. The
      end is the latest workout day whose previous day is also one (or the first workout day
      when there is none), whichever block it closes. */
  datatype Performance = Performance(
    heaviestLift: real,
    heaviestLiftExercise: string,
    longestStreak: Option<nat>,
    streakBounds: Option<(int, int)>,
    mostFrequent: string,
    mostFrequentCount: nat)

  /** What an empty history reports. */
  const NO_PERFORMANCE: Performance := Performance(0.0, "N/A", None, None, "N/A", 0)

  /** The all-time summary over every record. The heaviest set (strictly heavier replaces, from
      0 and "N/A") with the first exercise to reach it; the longest block of consecutive workout
      days with its bounds, the end reassigned on every one-day step as the scan does; and the
      name logged most often, ties going to the name seen first. */
  function WorkoutPerformance(ws: seq<Workout>): (r: Performance)
    ensures |ws| == 0 ==> r == NO_PERFORMANCE
    ensures forall k :: 0 <= k < |Lifts(ws)| ==> Lifts(ws)[k].entry.weight <= r.heaviestLift
    ensures r.heaviestLift >= 0.0
    ensures r.heaviestLift == 0.0 ==> r.heaviestLiftExercise == "N/A"
    ensures r.heaviestLift > 0.0 ==>
              exists k :: 0 <= k < |Lifts(ws)| && Lifts(ws)[k].entry.weight == r.heaviestLift
                          && Lifts(ws)[k].exercise == r.heaviestLiftExercise
                          && forall j :: 0 <= j < k ==> Lifts(ws)[j].entry.weight < r.heaviestLift
    ensures |ws| > 0 <==> r.streakBounds.Some?
    ensures r.longestStreak.Some? ==> r.longestStreak.value > 1 && r.streakBounds.Some?
    ensures r.longestStreak.Some? ==> ConsecutiveWorkoutDays(ws, r.streakBounds.value.0, r.longestStreak.value)
    ensures r.longestStreak.Some? ==> forall d, m: nat :: ConsecutiveWorkoutDays(ws, d, m) ==> m <= r.longestStreak.value
    ensures r.longestStreak.Some? ==> forall d :: ConsecutiveWorkoutDays(ws, d, r.longestStreak.value) ==>
              r.streakBounds.value.0 <= d
    ensures |ws| > 0 && r.longestStreak.None? ==> forall d, m: nat :: ConsecutiveWorkoutDays(ws, d, m) ==> m <= 1
    ensures |ws| > 0 && r.longestStreak.None? ==>
              TrainedOn(ws, r.streakBounds.value.0) && forall d :: TrainedOn(ws, d) ==> r.streakBounds.value.0 <= d
    ensures |ws| > 0 ==>
              var end := r.streakBounds.value.1;
              || (FollowsWorkoutDay(ws, end) && forall d :: FollowsWorkoutDay(ws, d) ==> d <= end)
              || (TrainedOn(ws, end) && (forall d :: TrainedOn(ws, d) ==> end <= d)
                  && forall d :: !FollowsWorkoutDay(ws, d))
    ensures |Names(ws)| == 0 ==> r.mostFrequent == "N/A" && r.mostFrequentCount == 0
    ensures |Names(ws)| > 0 ==> EarliestMostFrequent(Names(ws), r.mostFrequent)
                                && r.mostFrequentCount == Count(Names(ws), r.mostFrequent)
  {
    if |ws| == 0 then NO_PERFORMANCE
    else
      var h := HeaviestLift(Lifts(ws));
      var run := HistoryStreak(ws, true);
      OneDayStreakStart(ws, true);
      var p := FirstMostFrequent(Distinct(Names(ws)), Names(ws));
      FirstMostFrequentOfNames(Names(ws));
      Performance(
        h.weight,
        h.exercise,
        if run.length > 1 then Some(run.length) else None,
        Some((run.start, run.end)),
        if p.name.Some? then p.name.value else "N/A",
        p.count)
  }

  /** The end reported with the longest streak can belong to a later, shorter block: with
      workouts on days 1, 2, 3, 10 and 11 the longest block is days 1 to 3, yet the end left
      behind is day 11. Without the reassignment the end is day 3. */
  lemma StreakEndOverwritten()
    ensures LongestStreak([1, 2, 3, 10, 11], true) == StreakRun(3, 1, 11)
    ensures LongestStreak([1, 2, 3, 10, 11], false) == StreakRun(3, 1, 3)
  {
  }

  /** With the end left at the close of the best block, the bounds always span the reported
      length. */
  function CorrectedHistoryStreak(ws: seq<Workout>): (r: StreakRun)
    requires |ws| > 0
    ensures ConsecutiveWorkoutDays(ws, r.start, r.length)
    ensures forall d, m: nat :: ConsecutiveWorkoutDays(ws, d, m) ==> m <= r.length
    ensures r.end - r.start + 1 == r.length
  {
    HistoryStreak(ws, false)
  }
}
