/** The records the analytics read: a logged workout holds exercise entries,
    each entry holds its sets. Dates are millisecond timestamps, weights and
    reps are the JavaScript numbers the store keeps. */
module Types {

  /** Milliseconds in one calendar day (1000 * 60 * 60 * 24). */
  const MS_PER_DAY: int := 86400000

  datatype SetEntry = SetEntry(weight: real, reps: real, difficulty: string)

  datatype Exercise = Exercise(name: string, bodyPart: string, equipment: string, sets: seq<SetEntry>)

  /** `date` is the workout's timestamp in milliseconds since the epoch. */
  datatype Workout = Workout(date: int, exercises: seq<Exercise>)

  /** One set together with the name of the exercise entry that owns it. */
  datatype Lift = Lift(exercise: string, entry: SetEntry)

  datatype Option<+T> = None | Some(value: T)

  /** Why a request ends without its payload: the 404 for an empty history,
      or the 500 the controllers' catch blocks send when the body throws. */
  datatype Failure = NoWorkoutsFound | ServerError

  datatype Result<+T> = Ok(value: T) | Err(error: Failure)

  /** The UTC calendar day a timestamp falls in (the date part of its ISO string). */
  function DayKey(t: int): (d: int)
    ensures d * MS_PER_DAY <= t < d * MS_PER_DAY + MS_PER_DAY
  {
    t / MS_PER_DAY
  }

  /** A record as the schema promises it: every entry has a set, every set a positive load. */
  predicate WellFormed(w: Workout)
  {
    && |w.exercises| > 0
    && forall e :: e in w.exercises ==>
         && |e.sets| > 0
         && forall s :: s in e.sets ==> s.weight > 0.0 && s.reps > 0.0
  }

  /** Every exercise entry of a record list, in the order the controllers' nested loops visit them. */
  function Entries(ws: seq<Workout>): seq<Exercise>
  {
    if |ws| == 0 then [] else Entries(ws[..|ws| - 1]) + ws[|ws| - 1].exercises
  }

  /** The name of every entry of a list, in order. */
  function EntryNames(es: seq<Exercise>): (ns: seq<string>)
    ensures |ns| == |es|
    ensures forall i :: 0 <= i < |es| ==> ns[i] == es[i].name
  {
    seq(|es|, i requires 0 <= i < |es| => es[i].name)
  }

  /** The exercise name of every entry of every record, in visiting order. */
  function Names(ws: seq<Workout>): (ns: seq<string>)
    ensures |ns| == |Entries(ws)|
    ensures forall i :: 0 <= i < |ns| ==> ns[i] == Entries(ws)[i].name
  {
    EntryNames(Entries(ws))
  }

  /** The sets of one entry, each tagged with the entry's name. */
  function SetLifts(name: string, sets: seq<SetEntry>): (ls: seq<Lift>)
    ensures |ls| == |sets|
    ensures forall i :: 0 <= i < |sets| ==> ls[i] == Lift(name, sets[i])
  {
    seq(|sets|, i requires 0 <= i < |sets| => Lift(name, sets[i]))
  }

  /** The sets of a list of entries, each tagged with its entry's name. */
  function EntryLifts(es: seq<Exercise>): seq<Lift>
  {
    if |es| == 0 then [] else EntryLifts(es[..|es| - 1]) + SetLifts(es[|es| - 1].name, es[|es| - 1].sets)
  }

  /** Every set of every entry of every record, in the controllers' visiting order. */
  function Lifts(ws: seq<Workout>): seq<Lift>
  {
    EntryLifts(Entries(ws))
  }

  /** The entries visited are exactly the entries of the records. */
  lemma {:induction false} EntriesMembership(ws: seq<Workout>, e: Exercise)
    ensures e in Entries(ws) <==> exists i :: 0 <= i < |ws| && e in ws[i].exercises
  {
    if |ws| > 0 {
      var n := |ws| - 1;
      EntriesMembership(ws[..n], e);
      assert forall i :: 0 <= i < n ==> ws[..n][i] == ws[i];
      if e in ws[n].exercises {
        assert 0 <= n < |ws| && e in ws[n].exercises;
      }
    }
  }

  /** The sets visited are exactly the sets of the entries, each with its entry's name. */
  lemma {:induction false} EntryLiftsMembership(es: seq<Exercise>, l: Lift)
    ensures l in EntryLifts(es) <==> exists i :: 0 <= i < |es| && l.exercise == es[i].name && l.entry in es[i].sets
  {
    if |es| > 0 {
      var n := |es| - 1;
      var e := es[n];
      EntryLiftsMembership(es[..n], l);
      assert forall i :: 0 <= i < n ==> es[..n][i] == es[i];
      var tail := SetLifts(e.name, e.sets);
      if l in tail {
        var k :| 0 <= k < |tail| && tail[k] == l;
        assert l.exercise == es[n].name && l.entry == e.sets[k];
      }
      if l.exercise == e.name && l.entry in e.sets {
        var k :| 0 <= k < |e.sets| && e.sets[k] == l.entry;
        assert tail[k] == l;
      }
    }
  }

  /** A set belongs to the record list's visited sets exactly when some record holds an entry
      of that name containing it. */
  lemma LiftsOfWorkouts(ws: seq<Workout>, l: Lift)
    ensures l in Lifts(ws) <==>
              exists i, e :: 0 <= i < |ws| && e in ws[i].exercises && l.exercise == e.name && l.entry in e.sets
  {
    var es := Entries(ws);
    EntryLiftsMembership(es, l);
    if l in Lifts(ws) {
      var k :| 0 <= k < |es| && l.exercise == es[k].name && l.entry in es[k].sets;
      EntriesMembership(ws, es[k]);
    }
    if exists i, e :: 0 <= i < |ws| && e in ws[i].exercises && l.exercise == e.name && l.entry in e.sets {
      var i, e :| 0 <= i < |ws| && e in ws[i].exercises && l.exercise == e.name && l.entry in e.sets;
      EntriesMembership(ws, e);
      var k :| 0 <= k < |es| && es[k] == e;
    }
  }
}
