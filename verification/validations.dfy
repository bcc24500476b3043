/** The request schemas for creating a workout and a template, as predicates over the
    request bodies, and the record a validated workout body becomes. */
module Validations {
  import opened Types
  import Aggregates

  datatype SetInput = SetInput(reps: real, weight: real, difficulty: string)
  datatype ExerciseInput = ExerciseInput(name: string, bodyPart: string, equipment: string, sets: seq<SetInput>)
  datatype WorkoutInput = WorkoutInput(date: string, exercises: seq<ExerciseInput>)

  /** A template body; its entries carry no body part or equipment, which stay empty here. */
  datatype TemplateInput = TemplateInput(name: string, exercises: seq<ExerciseInput>)

  const WORKOUT_DIFFICULTIES: seq<string> := ["Easy", "Medium", "Hard"]
  const TEMPLATE_DIFFICULTIES: seq<string> := ["Very Easy", "Easy", "Medium", "Hard"]

  /** A positive whole number. */
  predicate PositiveInteger(x: real)
  {
    x > 0.0 && x.Floor as real == x
  }

  /** Reps a positive integer, weight positive, difficulty one of the allowed labels. */
  predicate ValidSet(s: SetInput, difficulties: seq<string>)
  {
    PositiveInteger(s.reps) && s.weight > 0.0 && s.difficulty in difficulties
  }

  predicate ValidWorkoutExercise(e: ExerciseInput)
  {
    && |e.name| > 0 && |e.bodyPart| > 0 && |e.equipment| > 0
    && |e.sets| > 0
    && forall s :: s in e.sets ==> ValidSet(s, WORKOUT_DIFFICULTIES)
  }

  /** The workout body: a non-empty date string and a non-empty list of complete entries. */
  predicate ValidWorkoutInput(w: WorkoutInput)
  {
    && |w.date| > 0
    && |w.exercises| > 0
    && forall e :: e in w.exercises ==> ValidWorkoutExercise(e)
  }

  predicate ValidTemplateExercise(e: ExerciseInput)
  {
    && |e.name| > 0
    && |e.sets| > 0
    && forall s :: s in e.sets ==> ValidSet(s, TEMPLATE_DIFFICULTIES)
  }

  /** The template body: a non-empty name and a non-empty list of named entries with sets. */
  predicate ValidTemplateInput(t: TemplateInput)
  {
    && |t.name| > 0
    && |t.exercises| > 0
    && forall e :: e in t.exercises ==> ValidTemplateExercise(e)
  }

  /** The set as stored. */
  function ToSetEntry(s: SetInput): (r: SetEntry)
    ensures r.weight == s.weight && r.reps == s.reps && r.difficulty == s.difficulty
  {
    SetEntry(s.weight, s.reps, s.difficulty)
  }

  /** The entry as stored: fields and sets carried over one for one. */
  function ToExercise(e: ExerciseInput): (r: Exercise)
    ensures r.name == e.name && r.bodyPart == e.bodyPart && r.equipment == e.equipment
    ensures |r.sets| == |e.sets|
    ensures forall i :: 0 <= i < |e.sets| ==> r.sets[i] == ToSetEntry(e.sets[i])
  {
    Exercise(e.name, e.bodyPart, e.equipment, seq(|e.sets|, i requires 0 <= i < |e.sets| => ToSetEntry(e.sets[i])))
  }

  /** The record a workout body becomes, dated with the timestamp its date string parses to.
      A body the schema accepts is a well-formed record: entries present, each with sets, each
      set with positive weight and reps. */
  function ToWorkout(w: WorkoutInput, date: int): (r: Workout)
    ensures r.date == date && |r.exercises| == |w.exercises|
    ensures forall i :: 0 <= i < |w.exercises| ==> r.exercises[i] == ToExercise(w.exercises[i])
    ensures ValidWorkoutInput(w) ==> WellFormed(r)
  {
    var r := Workout(date, seq(|w.exercises|, i requires 0 <= i < |w.exercises| => ToExercise(w.exercises[i])));
    StoredIsWellFormed(w, r);
    r
  }

  lemma StoredIsWellFormed(w: WorkoutInput, r: Workout)
    requires |r.exercises| == |w.exercises|
    requires forall i :: 0 <= i < |w.exercises| ==> r.exercises[i] == ToExercise(w.exercises[i])
    ensures ValidWorkoutInput(w) ==> WellFormed(r)
  {
    if ValidWorkoutInput(w) {
      forall e | e in r.exercises ensures |e.sets| > 0 && forall s :: s in e.sets ==> s.weight > 0.0 && s.reps > 0.0 {
        var i :| 0 <= i < |r.exercises| && r.exercises[i] == e;
        var x := w.exercises[i];
        assert x in w.exercises;
        forall s | s in e.sets ensures s.weight > 0.0 && s.reps > 0.0 {
          var k :| 0 <= k < |e.sets| && e.sets[k] == s;
          assert x.sets[k] in x.sets;
        }
      }
    }
  }

  /** A validated workout body, once stored, adds a positive volume to any week it falls in. */
  lemma ValidatedWorkoutHasVolume(w: WorkoutInput, date: int)
    requires ValidWorkoutInput(w)
    ensures Aggregates.TotalVolume([ToWorkout(w, date)]) > 0.0
  {
    Aggregates.VolumePositive([ToWorkout(w, date)]);
  }

  /** The entries of a valid workout body, under any non-empty name, make a valid template. */
  lemma WorkoutEntriesMakeTemplate(w: WorkoutInput, name: string)
    requires ValidWorkoutInput(w) && |name| > 0
    ensures ValidTemplateInput(TemplateInput(name, w.exercises))
  {
    forall e | e in w.exercises ensures ValidTemplateExercise(e) {
      assert ValidWorkoutExercise(e);
      forall s | s in e.sets ensures ValidSet(s, TEMPLATE_DIFFICULTIES) {
        assert s.difficulty in WORKOUT_DIFFICULTIES;
      }
    }
  }

  /** The converse fails twice over: a template set may be "Very Easy", and a template entry
      needs no body part or equipment; either makes the entries unacceptable as a workout. */
  lemma TemplateEntriesNeedNotMakeWorkout()
    ensures exists t :: ValidTemplateInput(t) && !ValidWorkoutInput(WorkoutInput("2025-01-06", t.exercises))
                        && forall e :: e in t.exercises ==> |e.bodyPart| > 0 && |e.equipment| > 0
    ensures exists t :: ValidTemplateInput(t) && !ValidWorkoutInput(WorkoutInput("2025-01-06", t.exercises))
                        && forall e, s :: e in t.exercises && s in e.sets ==> s.difficulty in WORKOUT_DIFFICULTIES
  {
    var veryEasy := SetInput(10.0, 20.0, "Very Easy");
    var t1 := TemplateInput("Push", [ExerciseInput("Bench Press", "chest", "barbell", [veryEasy])]);
    assert |veryEasy.difficulty| == 9;
    assert veryEasy.difficulty !in WORKOUT_DIFFICULTIES;
    assert veryEasy in t1.exercises[0].sets;
    assert !ValidWorkoutExercise(t1.exercises[0]);
    assert t1.exercises[0] in t1.exercises;
    assert ValidTemplateInput(t1);
    var easy := SetInput(10.0, 20.0, "Easy");
    var t2 := TemplateInput("Push", [ExerciseInput("Bench Press", "", "", [easy])]);
    assert !ValidWorkoutExercise(t2.exercises[0]);
    assert t2.exercises[0] in t2.exercises;
    assert ValidTemplateInput(t2);
  }

  /** The body with entry `i` replaced by `e`. */
  function WithEntry(exs: seq<ExerciseInput>, i: nat, e: ExerciseInput): (r: seq<ExerciseInput>)
    requires i < |exs|
    ensures |r| == |exs| && r[i] == e && e in r
    ensures forall j :: 0 <= j < |exs| && j != i ==> r[j] == exs[j]
  {
    exs[i := e]
  }

  /** Entry `i` with set `k` replaced by `s`. */
  function WithSet(exs: seq<ExerciseInput>, i: nat, k: nat, s: SetInput): (r: seq<ExerciseInput>)
    requires i < |exs| && k < |exs[i].sets|
    ensures |r| == |exs| && r[i].name == exs[i].name && |r[i].sets| == |exs[i].sets|
    ensures r[i].sets[k] == s && s in r[i].sets && r[i] in r
    ensures forall j :: 0 <= j < |exs| && j != i ==> r[j] == exs[j]
    ensures forall j :: 0 <= j < |exs[i].sets| && j != k ==> r[i].sets[j] == exs[i].sets[j]
  {
    WithEntry(exs, i, exs[i].(sets := exs[i].sets[k := s]))
  }

  /** Every entry rule of the workout schema is enforced: starting from an accepted body,
      emptying the date or the entry list, or an entry's name, body part, equipment or set
      list, is rejected. */
  lemma WorkoutEntryRulesAreEnforced(w: WorkoutInput, i: nat)
    requires ValidWorkoutInput(w) && i < |w.exercises|
    ensures !ValidWorkoutInput(w.(date := "")) && !ValidWorkoutInput(w.(exercises := []))
    ensures var e := w.exercises[i];
            && !ValidWorkoutInput(w.(exercises := WithEntry(w.exercises, i, e.(name := ""))))
            && !ValidWorkoutInput(w.(exercises := WithEntry(w.exercises, i, e.(bodyPart := ""))))
            && !ValidWorkoutInput(w.(exercises := WithEntry(w.exercises, i, e.(equipment := ""))))
            && !ValidWorkoutInput(w.(exercises := WithEntry(w.exercises, i, e.(sets := []))))
  {
  }

  /** Every set rule of the workout schema is enforced: starting from an accepted body, giving
      one set fractional or zero reps, a zero weight or a difficulty outside "Easy", "Medium"
      and "Hard" is rejected. */
  lemma WorkoutSetRulesAreEnforced(w: WorkoutInput, i: nat, k: nat)
    requires ValidWorkoutInput(w) && i < |w.exercises| && k < |w.exercises[i].sets|
    ensures var s := w.exercises[i].sets[k];
            && !ValidWorkoutInput(w.(exercises := WithSet(w.exercises, i, k, s.(reps := 2.5))))
            && !ValidWorkoutInput(w.(exercises := WithSet(w.exercises, i, k, s.(reps := 0.0))))
            && !ValidWorkoutInput(w.(exercises := WithSet(w.exercises, i, k, s.(weight := 0.0))))
            && !ValidWorkoutInput(w.(exercises := WithSet(w.exercises, i, k, s.(difficulty := "Very Easy"))))
  {
    assert (2.5).Floor == 2;
    assert |"Very Easy"| == 9;
  }

  /** Every entry rule of the template schema is enforced: emptying the name, the entry list,
      an entry's name or its set list is rejected. */
  lemma TemplateEntryRulesAreEnforced(t: TemplateInput, i: nat)
    requires ValidTemplateInput(t) && i < |t.exercises|
    ensures !ValidTemplateInput(t.(name := "")) && !ValidTemplateInput(t.(exercises := []))
    ensures var e := t.exercises[i];
            && !ValidTemplateInput(t.(exercises := WithEntry(t.exercises, i, e.(name := ""))))
            && !ValidTemplateInput(t.(exercises := WithEntry(t.exercises, i, e.(sets := []))))
  {
  }

  /** Every set rule of the template schema is enforced, and a "Very Easy" set, which a
      workout refuses, is accepted in a template. */
  lemma TemplateSetRulesAreEnforced(t: TemplateInput, i: nat, k: nat)
    requires ValidTemplateInput(t) && i < |t.exercises| && k < |t.exercises[i].sets|
    ensures var s := t.exercises[i].sets[k];
            && !ValidTemplateInput(t.(exercises := WithSet(t.exercises, i, k, s.(reps := 2.5))))
            && !ValidTemplateInput(t.(exercises := WithSet(t.exercises, i, k, s.(weight := 0.0))))
            && ValidTemplateInput(t.(exercises := WithSet(t.exercises, i, k, s.(difficulty := "Very Easy"))))
  {
    assert (2.5).Floor == 2;
    var e := t.exercises[i];
    assert e in t.exercises;
    var s := e.sets[k];
    assert s in e.sets;
    var exs := WithSet(t.exercises, i, k, s.(difficulty := "Very Easy"));
    forall x | x in exs[i].sets ensures ValidSet(x, TEMPLATE_DIFFICULTIES) {
      var j :| 0 <= j < |exs[i].sets| && exs[i].sets[j] == x;
      if j != k {
        assert e.sets[j] in e.sets;
      }
    }
    forall x | x in exs ensures ValidTemplateExercise(x) {
      var j :| 0 <= j < |exs| && exs[j] == x;
      if j != i {
        assert t.exercises[j] in t.exercises;
      }
    }
  }
}
