/** The single-pass statistics the controllers share: running maxima of
    weight and reps, per-name entry counts with the two tie policies in use,
    training volume and average reps per exercise entry. */
module Aggregates {
  import opened Types
  import opened Collections

  // ---------------------------------------------------------------------
  // Running maxima

  /** The heaviest set seen so far and the exercise it belongs to. */
  datatype Heaviest = Heaviest(weight: real, exercise: string)

  /** The running maximum seeded with 0 and "N/A": a set replaces the record only when it is
      strictly heavier, so the first exercise to reach the maximum keeps it. */
  function HeaviestLift(ls: seq<Lift>): (h: Heaviest)
    ensures h.weight >= 0.0
    ensures forall k :: 0 <= k < |ls| ==> ls[k].entry.weight <= h.weight
    ensures h.weight == 0.0 ==> h.exercise == "N/A"
    ensures h.weight > 0.0 ==>
              exists k :: 0 <= k < |ls| && ls[k].entry.weight == h.weight && ls[k].exercise == h.exercise
                          && forall j :: 0 <= j < k ==> ls[j].entry.weight < h.weight
  {
    if |ls| == 0 then Heaviest(0.0, "N/A")
    else
      var n := |ls| - 1;
      var p := HeaviestLift(ls[..n]);
      assert forall k :: 0 <= k < n ==> ls[..n][k] == ls[k];
      if ls[n].entry.weight > p.weight then Heaviest(ls[n].entry.weight, ls[n].exercise) else p
  }

  /** `Math.max` of two numbers. */
  function Max(a: real, b: real): real
  {
    if a >= b then a else b
  }

  /** `maxWeightLifted = Math.max(maxWeightLifted, set.weight)` over every set, from 0. */
  function MaxWeight(ls: seq<Lift>): (m: real)
    ensures m >= 0.0
    ensures forall k :: 0 <= k < |ls| ==> ls[k].entry.weight <= m
    ensures m == 0.0 || exists k :: 0 <= k < |ls| && ls[k].entry.weight == m
  {
    if |ls| == 0 then 0.0
    else
      var n := |ls| - 1;
      assert forall k :: 0 <= k < n ==> ls[..n][k] == ls[k];
      Max(MaxWeight(ls[..n]), ls[n].entry.weight)
  }

  /** The strict-`>` scan and the `Math.max` fold find the same heaviest weight. */
  lemma {:induction false} MaxWeightIsHeaviestLift(ls: seq<Lift>)
    ensures MaxWeight(ls) == HeaviestLift(ls).weight
  {
    if |ls| > 0 {
      MaxWeightIsHeaviestLift(ls[..|ls| - 1]);
    }
  }

  /** The running maximum of reps per set, seeded with 0. */
  function MaxReps(ls: seq<Lift>): (m: real)
    ensures m >= 0.0
    ensures forall k :: 0 <= k < |ls| ==> ls[k].entry.reps <= m
    ensures m == 0.0 || exists k :: 0 <= k < |ls| && ls[k].entry.reps == m
  {
    if |ls| == 0 then 0.0
    else
      var n := |ls| - 1;
      var p := MaxReps(ls[..n]);
      assert forall k :: 0 <= k < n ==> ls[..n][k] == ls[k];
      if ls[n].entry.reps > p then ls[n].entry.reps else p
  }

  // ---------------------------------------------------------------------
  // Most frequent exercise

  /** The name picked so far and its entry count. */
  datatype Pick = Pick(name: Option<string>, count: nat)

  /** The scan `if (count[k] > max) { pick k }` over the keys, seeded with nothing and 0:
      the first key of maximal count, nothing when no key occurs. */
  function FirstMostFrequent(keys: seq<string>, names: seq<string>): (p: Pick)
    ensures forall i :: 0 <= i < |keys| ==> Count(names, keys[i]) <= p.count
    ensures p.name.None? <==> p.count == 0
    ensures p.name.Some? ==>
              exists i :: 0 <= i < |keys| && keys[i] == p.name.value && Count(names, keys[i]) == p.count
                          && forall j :: 0 <= j < i ==> Count(names, keys[j]) < p.count
  {
    if |keys| == 0 then Pick(None, 0)
    else
      var n := |keys| - 1;
      var p := FirstMostFrequent(keys[..n], names);
      assert forall k :: 0 <= k < n ==> keys[..n][k] == keys[k];
      if Count(names, keys[n]) > p.count then Pick(Some(keys[n]), Count(names, keys[n])) else p
  }

  /** `keys.reduce((a, b) => count[a] > count[b] ? a : b, seed)`: the pick changes to the
      next key unless the current pick has strictly more entries. A name that is not a key
      counts 0, as `undefined` compares false. */
  function LastMostFrequent(keys: seq<string>, names: seq<string>, seed: string): (r: string)
    ensures r == seed || r in keys
    ensures Count(names, seed) <= Count(names, r)
    ensures forall i :: 0 <= i < |keys| ==> Count(names, keys[i]) <= Count(names, r)
  {
    if |keys| == 0 then seed
    else
      var n := |keys| - 1;
      var a := LastMostFrequent(keys[..n], names, seed);
      assert forall k :: 0 <= k < n ==> keys[..n][k] == keys[k];
      assert a in keys[..n] ==> a in keys;
      if Count(names, a) > Count(names, keys[n]) then a else keys[n]
  }

  /** No key after position `i` is logged as often as the key at `i`. */
  ghost predicate NotTiedLater(keys: seq<string>, names: seq<string>, i: nat)
    requires i < |keys|
  {
    forall j :: i < j < |keys| ==> Count(names, keys[j]) < Count(names, keys[i])
  }

  /** On a tie the reduce keeps the later key: once some key reaches the seed's count, the
      result is a key that no later key equals or beats. */
  lemma {:induction false} LastMostFrequentIsLast(keys: seq<string>, names: seq<string>, seed: string, i0: nat)
    requires i0 < |keys| && Count(names, seed) <= Count(names, keys[i0])
    ensures exists i: nat :: i < |keys| && keys[i] == LastMostFrequent(keys, names, seed) && NotTiedLater(keys, names, i)
  {
    var n := |keys| - 1;
    var p := keys[..n];
    var a := LastMostFrequent(p, names, seed);
    var r := LastMostFrequent(keys, names, seed);
    if Count(names, a) > Count(names, keys[n]) {
      assert r == a;
      var w: nat := i0;
      if i0 == n {
        assert a != seed;
        w :| w < n && p[w] == a;
      } else {
        assert p[w] == keys[w];
      }
      LastMostFrequentIsLast(p, names, seed, w);
      var i: nat :| i < n && p[i] == a && NotTiedLater(p, names, i);
      assert keys[i] == p[i];
      forall j | i < j < |keys| ensures Count(names, keys[j]) < Count(names, keys[i]) {
        if j < n {
          assert keys[j] == p[j];
        }
      }
      assert NotTiedLater(keys, names, i);
    } else {
      assert r == keys[n];
      assert NotTiedLater(keys, names, n);
    }
  }

  /** The two tie policies agree on how often the picked exercise was logged. */
  lemma MostFrequentPoliciesAgreeOnCount(keys: seq<string>, names: seq<string>, seed: string)
    requires |keys| > 0 && Count(names, seed) <= Count(names, keys[0])
    ensures FirstMostFrequent(keys, names).name.Some? ==>
              Count(names, LastMostFrequent(keys, names, seed)) == FirstMostFrequent(keys, names).count
  {
    var p := FirstMostFrequent(keys, names);
    var r := LastMostFrequent(keys, names, seed);
    if r in keys {
      var i :| 0 <= i < |keys| && keys[i] == r;
      assert Count(names, keys[i]) <= p.count;
    }
  }

  /** `x` is logged most often, and no other name logged as often appeared before it. */
  ghost predicate EarliestMostFrequent(names: seq<string>, x: string)
  {
    && x in names
    && (forall y :: y in names ==> Count(names, y) <= Count(names, x))
    && (forall y :: y in names && Count(names, y) == Count(names, x) ==> FirstIndex(names, x) <= FirstIndex(names, y))
  }

  /** `x` is logged most often, and no other name logged as often appeared after it. */
  ghost predicate LatestMostFrequent(names: seq<string>, x: string)
  {
    && x in names
    && (forall y :: y in names ==> Count(names, y) <= Count(names, x))
    && (forall y :: y in names && Count(names, y) == Count(names, x) ==> FirstIndex(names, y) <= FirstIndex(names, x))
  }

  /** At most one name is the earliest most frequent. */
  lemma EarliestMostFrequentIsUnique(names: seq<string>)
    ensures forall x, y :: EarliestMostFrequent(names, x) && EarliestMostFrequent(names, y) ==> x == y
  {
    forall x, y | EarliestMostFrequent(names, x) && EarliestMostFrequent(names, y) ensures x == y {
      assert Count(names, x) == Count(names, y);
      assert names[FirstIndex(names, x)] == x && names[FirstIndex(names, y)] == y;
    }
  }

  /** Each logged name is one of the first-occurrence keys. */
  lemma KeyOf(names: seq<string>, y: string) returns (j: nat)
    requires y in names
    ensures j < |Distinct(names)| && Distinct(names)[j] == y
  {
    var keys := Distinct(names);
    assert y in keys;
    j :| 0 <= j < |keys| && keys[j] == y;
  }

  /** Keys further along the deduplicated list first appeared later. */
  lemma KeyOrder(names: seq<string>, i: nat, j: nat)
    requires i <= j < |Distinct(names)|
    ensures Distinct(names)[i] in names && Distinct(names)[j] in names
    ensures FirstIndex(names, Distinct(names)[i]) <= FirstIndex(names, Distinct(names)[j])
  {
    var keys := Distinct(names);
    assert keys[i] in keys && keys[j] in keys;
  }

  /** Over the first-occurrence keys, the strict-`>` scan picks the earliest most frequent name,
      and picks nothing only when no name was logged. */
  lemma FirstMostFrequentOfNames(names: seq<string>)
    ensures var p := FirstMostFrequent(Distinct(names), names);
            && (|names| == 0 <==> p.name.None?)
            && (p.name.Some? ==> EarliestMostFrequent(names, p.name.value) && p.count == Count(names, p.name.value))
  {
    var keys := Distinct(names);
    var p := FirstMostFrequent(keys, names);
    if |names| > 0 {
      var k0 := KeyOf(names, names[0]);
      assert Count(names, keys[k0]) >= 1;
      var i := FirstPickIndex(keys, names);
      KeysBoundNames(names, p.count);
      FirstKeyOfCount(names, i);
    }
  }

  /** The position among the keys of the strict scan's pick. */
  lemma FirstPickIndex(keys: seq<string>, names: seq<string>) returns (i: nat)
    requires FirstMostFrequent(keys, names).name.Some?
    ensures var p := FirstMostFrequent(keys, names);
            && i < |keys| && keys[i] == p.name.value && Count(names, keys[i]) == p.count
            && forall j :: 0 <= j < i ==> Count(names, keys[j]) < p.count
  {
    var p := FirstMostFrequent(keys, names);
    i :| 0 <= i < |keys| && keys[i] == p.name.value && Count(names, keys[i]) == p.count
         && forall j :: 0 <= j < i ==> Count(names, keys[j]) < p.count;
  }

  /** A bound on the count of every first-occurrence key bounds every logged name's count. */
  lemma KeysBoundNames(names: seq<string>, c: nat)
    requires forall j :: 0 <= j < |Distinct(names)| ==> Count(names, Distinct(names)[j]) <= c
    ensures forall y :: y in names ==> Count(names, y) <= c
  {
    forall y | y in names ensures Count(names, y) <= c {
      var j := KeyOf(names, y);
    }
  }

  /** A key logged more often than every key before it appeared first among the names logged
      as often. */
  lemma FirstKeyOfCount(names: seq<string>, i: nat)
    requires i < |Distinct(names)|
    requires forall j :: 0 <= j < i ==> Count(names, Distinct(names)[j]) < Count(names, Distinct(names)[i])
    ensures Distinct(names)[i] in names
    ensures forall y :: y in names && Count(names, y) == Count(names, Distinct(names)[i]) ==>
              FirstIndex(names, Distinct(names)[i]) <= FirstIndex(names, y)
  {
    var keys := Distinct(names);
    KeyOrder(names, i, i);
    forall y | y in names && Count(names, y) == Count(names, keys[i])
      ensures FirstIndex(names, keys[i]) <= FirstIndex(names, y)
    {
      var j := KeyOf(names, y);
      assert !(j < i);
      KeyOrder(names, i, j);
    }
  }

  /** Over the first-occurrence keys, the reduce picks the latest most frequent name, and
      returns its seed only when no name was logged. */
  lemma LastMostFrequentOfNames(names: seq<string>, seed: string)
    ensures |names| == 0 ==> LastMostFrequent(Distinct(names), names, seed) == seed
    ensures |names| > 0 ==> LatestMostFrequent(names, LastMostFrequent(Distinct(names), names, seed))
  {
    var keys := Distinct(names);
    var r := LastMostFrequent(keys, names, seed);
    if |names| > 0 {
      var i0 := KeyOf(names, names[0]);
      if seed in names {
        i0 := KeyOf(names, seed);
      }
      LastMostFrequentIsLast(keys, names, seed, i0);
      var i: nat :| i < |keys| && keys[i] == r && NotTiedLater(keys, names, i);
      KeyOrder(names, i, i);
      forall y | y in names ensures Count(names, y) <= Count(names, r) {
        var j := KeyOf(names, y);
      }
      forall y | y in names && Count(names, y) == Count(names, r)
        ensures FirstIndex(names, y) <= FirstIndex(names, r)
      {
        var j := KeyOf(names, y);
        assert !(i < j);
        KeyOrder(names, j, i);
      }
    }
  }

  // ---------------------------------------------------------------------
  // Volume and average reps

  /** `sets.reduce((t, s) => t + s.weight * s.reps, 0)`. */
  function SetsVolume(sets: seq<SetEntry>): real
  {
    if |sets| == 0 then 0.0
    else SetsVolume(sets[..|sets| - 1]) + sets[|sets| - 1].weight * sets[|sets| - 1].reps
  }

  /** The middle `reduce` over one workout's exercises. */
  function ExercisesVolume(es: seq<Exercise>): real
  {
    if |es| == 0 then 0.0
    else ExercisesVolume(es[..|es| - 1]) + SetsVolume(es[|es| - 1].sets)
  }

  /** `calcTotalWeight`: the outer `reduce` over the records. */
  function TotalVolume(ws: seq<Workout>): real
  {
    if |ws| == 0 then 0.0
    else TotalVolume(ws[..|ws| - 1]) + ExercisesVolume(ws[|ws| - 1].exercises)
  }

  /** The flat definition of volume: the sum of weight times reps over a list of sets. */
  function LiftVolume(ls: seq<Lift>): real
  {
    if |ls| == 0 then 0.0
    else LiftVolume(ls[..|ls| - 1]) + ls[|ls| - 1].entry.weight * ls[|ls| - 1].entry.reps
  }

  lemma {:induction false} LiftVolumeAppend(a: seq<Lift>, b: seq<Lift>)
    ensures LiftVolume(a + b) == LiftVolume(a) + LiftVolume(b)
    decreases |b|
  {
    if |b| == 0 {
      assert a + b == a;
    } else {
      assert (a + b)[..|a + b| - 1] == a + b[..|b| - 1];
      assert (a + b)[|a + b| - 1] == b[|b| - 1];
      LiftVolumeAppend(a, b[..|b| - 1]);
    }
  }

  lemma {:induction false} SetsVolumeIsFlat(name: string, sets: seq<SetEntry>)
    ensures SetsVolume(sets) == LiftVolume(SetLifts(name, sets))
  {
    if |sets| > 0 {
      var n := |sets| - 1;
      assert SetLifts(name, sets)[..n] == SetLifts(name, sets[..n]);
      SetsVolumeIsFlat(name, sets[..n]);
    }
  }

  lemma {:induction false} EntryLiftsAppend(a: seq<Exercise>, b: seq<Exercise>)
    ensures EntryLifts(a + b) == EntryLifts(a) + EntryLifts(b)
    decreases |b|
  {
    if |b| == 0 {
      assert a + b == a;
    } else {
      var n := |b| - 1;
      assert (a + b)[..|a + b| - 1] == a + b[..n];
      assert (a + b)[|a + b| - 1] == b[n];
      EntryLiftsAppend(a, b[..n]);
      assert EntryLifts(a + b) == EntryLifts(a + b[..n]) + SetLifts(b[n].name, b[n].sets);
      assert EntryLifts(b) == EntryLifts(b[..n]) + SetLifts(b[n].name, b[n].sets);
    }
  }

  lemma {:induction false} ExercisesVolumeIsFlat(es: seq<Exercise>)
    ensures ExercisesVolume(es) == LiftVolume(EntryLifts(es))
  {
    if |es| > 0 {
      var n := |es| - 1;
      ExercisesVolumeIsFlat(es[..n]);
      SetsVolumeIsFlat(es[n].name, es[n].sets);
      assert EntryLifts(es) == EntryLifts(es[..n]) + SetLifts(es[n].name, es[n].sets);
      LiftVolumeAppend(EntryLifts(es[..n]), SetLifts(es[n].name, es[n].sets));
    }
  }

  /** The nested reduces compute the flat sum of weight times reps over every set of every record. */
  lemma {:induction false} VolumeIsSumOverAllSets(ws: seq<Workout>)
    ensures TotalVolume(ws) == LiftVolume(Lifts(ws))
  {
    if |ws| > 0 {
      var n := |ws| - 1;
      VolumeIsSumOverAllSets(ws[..n]);
      ExercisesVolumeIsFlat(ws[n].exercises);
      assert Entries(ws) == Entries(ws[..n]) + ws[n].exercises;
      EntryLiftsAppend(Entries(ws[..n]), ws[n].exercises);
      LiftVolumeAppend(Lifts(ws[..n]), EntryLifts(ws[n].exercises));
    }
  }

  lemma {:induction false} SetsVolumePositive(sets: seq<SetEntry>)
    requires |sets| > 0 && forall s :: s in sets ==> s.weight > 0.0 && s.reps > 0.0
    ensures SetsVolume(sets) > 0.0
  {
    var n := |sets| - 1;
    var last := sets[n];
    assert last in sets;
    assert last.weight * last.reps > 0.0;
    if n > 0 {
      assert forall s :: s in sets[..n] ==> s in sets;
      SetsVolumePositive(sets[..n]);
    }
  }

  lemma {:induction false} ExercisesVolumePositive(w: Workout, k: nat)
    requires WellFormed(w) && 0 < k <= |w.exercises|
    ensures ExercisesVolume(w.exercises[..k]) > 0.0
  {
    var es := w.exercises[..k];
    assert es[..k - 1] == w.exercises[..k - 1];
    assert es[k - 1] in w.exercises;
    SetsVolumePositive(es[k - 1].sets);
    if k > 1 {
      ExercisesVolumePositive(w, k - 1);
    }
  }

  /** Records the schema admits give a window a positive volume. */
  lemma {:induction false} VolumePositive(ws: seq<Workout>)
    requires |ws| > 0 && forall w :: w in ws ==> WellFormed(w)
    ensures TotalVolume(ws) > 0.0
  {
    var n := |ws| - 1;
    var w := ws[n];
    assert w in ws;
    ExercisesVolumePositive(w, |w.exercises|);
    assert w.exercises[..|w.exercises|] == w.exercises;
    if n > 0 {
      assert forall v :: v in ws[..n] ==> v in ws;
      VolumePositive(ws[..n]);
    }
  }

  /** Reps summed over a list of sets. */
  function RepsSum(ls: seq<Lift>): real
  {
    if |ls| == 0 then 0.0 else RepsSum(ls[..|ls| - 1]) + ls[|ls| - 1].entry.reps
  }

  /** `total / count` for a positive count, 0 otherwise. */
  function Mean(total: real, count: nat): (m: real)
    ensures count == 0 ==> m == 0.0
    ensures count > 0 ==> m * (count as real) == total
  {
    if count == 0 then 0.0 else total / (count as real)
  }

  /** `calcAvgReps`: reps of every set divided by the number of exercise entries (not of sets),
      0 when there is no entry. */
  function AverageReps(ws: seq<Workout>): (avg: real)
    ensures |Entries(ws)| == 0 ==> avg == 0.0
    ensures |Entries(ws)| > 0 ==> avg * (|Entries(ws)| as real) == RepsSum(Lifts(ws))
  {
    Mean(RepsSum(Lifts(ws)), |Entries(ws)|)
  }
}
