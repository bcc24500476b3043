/** The profile's fitness statistics: total records, most frequent exercise, heaviest set
    and active streak. */
module UserController {
  import opened Types
  import opened Collections
  import opened Calendar
  import opened Aggregates
  import WorkoutController

  datatype Fitness = Fitness(totalWorkouts: nat, mostFrequent: string, maxWeight: real, streak: nat)

  /** The statistics over every record. The most frequent name comes from a reduce over the
      count keys seeded with "None", which hands ties to the name seen last; the heaviest set
      is a running `Math.max` from 0; the streak counts back from the UTC day of `now`. */
  function FitnessStats(ws: seq<Workout>, now: int): (r: Fitness)
    ensures r.totalWorkouts == |ws|
    ensures |Names(ws)| == 0 ==> r.mostFrequent == "None"
    ensures |Names(ws)| > 0 ==> LatestMostFrequent(Names(ws), r.mostFrequent)
    ensures r.maxWeight >= 0.0
    ensures forall k :: 0 <= k < |Lifts(ws)| ==> Lifts(ws)[k].entry.weight <= r.maxWeight
    ensures r.maxWeight == 0.0 || exists k :: 0 <= k < |Lifts(ws)| && Lifts(ws)[k].entry.weight == r.maxWeight
    ensures r.streak <= |ws|
    ensures forall d :: DayKey(now) - r.streak < d <= DayKey(now) ==> TrainedOn(ws, d)
    ensures r.streak > 0 <==> TrainedOn(ws, DayKey(now)) && NoLaterWorkout(ws, DayKey(now))
    ensures NoLaterWorkout(ws, DayKey(now)) ==> !TrainedOn(ws, DayKey(now) - r.streak)
  {
    LastMostFrequentOfNames(Names(ws), "None");
    Fitness(|ws|, LastMostFrequent(Distinct(Names(ws)), Names(ws), "None"), MaxWeight(Lifts(ws)), WorkoutStreak(ws, now))
  }

  /** The two most-frequent pickers break ties in opposite directions: when two different
      names share the top count, the weekly statistics and the fitness statistics name
      different exercises. */
  lemma TiesGoOppositeWays(ws: seq<Workout>, now: int, x: string, y: string)
    requires x in Names(ws) && y in Names(ws) && x != y && "" !in Names(ws)
    requires Count(Names(ws), x) == Count(Names(ws), y)
    requires forall z :: z in Names(ws) ==> Count(Names(ws), z) <= Count(Names(ws), x)
    ensures WorkoutController.WorkoutsStats(ws).mostFrequent != FitnessStats(ws, now).mostFrequent
  {
    var ns := Names(ws);
    var a := WorkoutController.WorkoutsStats(ws).mostFrequent;
    var b := FitnessStats(ws, now).mostFrequent;
    assert EarliestMostFrequent(ns, a) && LatestMostFrequent(ns, b);
    assert Count(ns, a) == Count(ns, x) == Count(ns, b);
    assert FirstIndex(ns, x) != FirstIndex(ns, y);
    assert FirstIndex(ns, a) <= FirstIndex(ns, x) <= FirstIndex(ns, b);
    assert FirstIndex(ns, a) <= FirstIndex(ns, y) <= FirstIndex(ns, b);
  }

  /** The running `Math.max` and the strict-`>` scan of the performance summary agree on the
      heaviest weight. */
  lemma MaxWeightAgreesWithPerformance(ws: seq<Workout>, now: int)
    ensures FitnessStats(ws, now).maxWeight == WorkoutController.WorkoutPerformance(ws).heaviestLift
  {
    MaxWeightIsHeaviestLift(Lifts(ws));
  }
}
