/** The progress endpoints: personal bests, rule-based insights, the week-over-week
    comparison, the per-exercise graph points and the list of exercise names. Each takes
    the records its query would fetch, in the query's order. */
module ProgressController {
  import opened Types
  import opened Collections
  import opened Calendar
  import opened Aggregates

  // ---------------------------------------------------------------------
  // Personal bests

  datatype PersonalBests = PersonalBests(heaviestWeight: real, maxReps: real, streak: nat)

  /** The 404 for an empty history; otherwise the heaviest set weight, the most reps in one
      set (both from 0) and the active streak on the UTC day of `now`. */
  function PersonalBest(ws: seq<Workout>, now: int): (r: Result<PersonalBests>)
    ensures r.Err? <==> |ws| == 0
    ensures r.Err? ==> r.error == NoWorkoutsFound
    ensures r.Ok? ==> forall k :: 0 <= k < |Lifts(ws)| ==>
              Lifts(ws)[k].entry.weight <= r.value.heaviestWeight && Lifts(ws)[k].entry.reps <= r.value.maxReps
    ensures r.Ok? ==> r.value.heaviestWeight >= 0.0 && r.value.maxReps >= 0.0
    ensures r.Ok? && r.value.heaviestWeight > 0.0 ==>
              exists k :: 0 <= k < |Lifts(ws)| && Lifts(ws)[k].entry.weight == r.value.heaviestWeight
    ensures r.Ok? && r.value.maxReps > 0.0 ==>
              exists k :: 0 <= k < |Lifts(ws)| && Lifts(ws)[k].entry.reps == r.value.maxReps
    ensures r.Ok? ==> r.value.streak <= |ws|
    ensures r.Ok? ==> forall d :: DayKey(now) - r.value.streak < d <= DayKey(now) ==> TrainedOn(ws, d)
    ensures r.Ok? ==> (r.value.streak > 0 <==> TrainedOn(ws, DayKey(now)) && NoLaterWorkout(ws, DayKey(now)))
    ensures r.Ok? && NoLaterWorkout(ws, DayKey(now)) ==> !TrainedOn(ws, DayKey(now) - r.value.streak)
  {
    if |ws| == 0 then Err(NoWorkoutsFound)
    else
      var ls := Lifts(ws);
      Ok(PersonalBests(HeaviestLift(ls).weight, MaxReps(ls), WorkoutStreak(ws, now)))
  }

  // ---------------------------------------------------------------------
  // Insights

  datatype Insight =
    | PlateauDetected(exercise: string)
    | WorkoutSuggestion
    | RecoveryAlert(days: nat)
    | Info(message: string)

  const START_LOGGING: string := "Start logging your workouts to get AI insights."
  const KEEP_TRACKING: string := "Keep tracking your workouts to receive AI insights."

  /** A plateau needs the oldest record to be at least this many days old. */
  const PLATEAU_DAYS: int := 14
  /** The newest record must have at least this many records behind it, itself included. */
  const SUGGESTION_MIN_WORKOUTS: int := 3
  /** A first set lighter than this triggers the overload suggestion. */
  const SUGGESTION_WEIGHT: real := 100.0
  /** Consecutive days from which a rest day is advised. */
  const RECOVERY_DAYS: nat := 6

  /** The set lists of the entries named `name`, in visiting order: the value the insight
      builds for that name in its map. */
  function SetsOf(es: seq<Exercise>, name: string): (r: seq<seq<SetEntry>>)
    ensures |r| == Count(EntryNames(es), name)
  {
    if |es| == 0 then []
    else
      var n := |es| - 1;
      assert EntryNames(es) == EntryNames(es[..n]) + [es[n].name];
      SetsOf(es[..n], name) + (if es[n].name == name then [es[n].sets] else [])
  }

  /** The first list in the map holds the sets of the first entry of that name, and the last
      list those of the last one. */
  lemma SetsOfEnds(es: seq<Exercise>, name: string)
    requires |SetsOf(es, name)| > 0
    ensures name in EntryNames(es)
    ensures SetsOf(es, name)[0] == es[FirstIndex(EntryNames(es), name)].sets
    ensures SetsOf(es, name)[|SetsOf(es, name)| - 1] == es[LastIndex(EntryNames(es), name)].sets
  {
    SetsOfFirst(es, name);
    SetsOfLast(es, name);
  }

  /** Peeling the last entry off a list, for the names and for the per-name set lists. */
  lemma PeelLast(es: seq<Exercise>, name: string)
    requires |es| > 0
    ensures EntryNames(es) == EntryNames(es[..|es| - 1]) + [es[|es| - 1].name]
    ensures EntryNames(es)[..|es| - 1] == EntryNames(es[..|es| - 1])
    ensures SetsOf(es, name) == SetsOf(es[..|es| - 1], name) + (if es[|es| - 1].name == name then [es[|es| - 1].sets] else [])
  {
    assert EntryNames(es) == EntryNames(es[..|es| - 1]) + [es[|es| - 1].name];
  }

  lemma {:induction false} SetsOfFirst(es: seq<Exercise>, name: string)
    requires |SetsOf(es, name)| > 0
    ensures name in EntryNames(es)
    ensures SetsOf(es, name)[0] == es[FirstIndex(EntryNames(es), name)].sets
  {
    var n := |es| - 1;
    var p := SetsOf(es[..n], name);
    var names := EntryNames(es);
    PeelLast(es, name);
    if |p| > 0 {
      assert name in multiset(EntryNames(es[..n]));
      SetsOfFirst(es[..n], name);
      var k := FirstIndex(EntryNames(es[..n]), name);
      FirstIndexPrefix(names, name, n);
      assert FirstIndex(names, name) == k;
      assert SetsOf(es, name)[0] == p[0] == es[..n][k].sets;
    } else {
      assert name !in multiset(EntryNames(es[..n]));
      assert names[n] == name;
      assert FirstIndex(names, name) == n;
    }
  }

  lemma {:induction false} SetsOfLast(es: seq<Exercise>, name: string)
    requires |SetsOf(es, name)| > 0
    ensures name in EntryNames(es)
    ensures SetsOf(es, name)[|SetsOf(es, name)| - 1] == es[LastIndex(EntryNames(es), name)].sets
  {
    var n := |es| - 1;
    var names := EntryNames(es);
    PeelLast(es, name);
    if es[n].name != name {
      SetsOfLast(es[..n], name);
      var k := LastIndex(EntryNames(es[..n]), name);
      assert LastIndex(names, name) == k;
      assert SetsOf(es, name) == SetsOf(es[..n], name);
      assert es[..n][k] == es[k];
    } else {
      assert names[n] == name;
      assert LastIndex(names, name) == n;
    }
  }

  /** The per-name test: logged at least twice, and the newest and oldest set lists are equal
      (the lists are compared by value). */
  predicate Stagnant(es: seq<Exercise>, name: string)
  {
    var r := SetsOf(es, name);
    |r| >= 2 && r[0] == r[|r| - 1]
  }

  /** What the per-name test means in terms of the entries themselves. */
  lemma StagnantMeaning(es: seq<Exercise>, name: string)
    ensures Stagnant(es, name) <==>
              && Count(EntryNames(es), name) >= 2
              && es[FirstIndex(EntryNames(es), name)].sets == es[LastIndex(EntryNames(es), name)].sets
  {
    if Count(EntryNames(es), name) >= 2 {
      SetsOfEnds(es, name);
    }
  }

  /** The scan over the map's keys from position `i`: the position of the first key that passes
      the per-name test while the time gate is open. */
  function PlateauScan(keys: seq<string>, stagnant: string -> bool, gate: bool, i: nat): (r: Option<nat>)
    requires i <= |keys|
    ensures r.Some? ==> gate && i <= r.value < |keys| && stagnant(keys[r.value])
    ensures r.Some? ==> forall j :: i <= j < r.value ==> !stagnant(keys[j])
    ensures r.None? ==> !gate || forall j :: i <= j < |keys| ==> !stagnant(keys[j])
    decreases |keys| - i
  {
    if i == |keys| then None
    else if gate && stagnant(keys[i]) then Some(i)
    else PlateauScan(keys, stagnant, gate, i + 1)
  }

  /** The plateau rule over records fetched newest first: the first name in insertion order
      whose newest and oldest entries hold equal set lists, provided the oldest record overall
      (not the oldest entry of that name) is at least two weeks older than `now`. */
  function DetectPlateau(ws: seq<Workout>, now: int): (r: Option<string>)
    ensures r.Some? <==> && |ws| > 0
                         && ws[|ws| - 1].date <= now - PLATEAU_DAYS * MS_PER_DAY
                         && exists x :: x in Names(ws) && Stagnant(Entries(ws), x)
    ensures r.Some? ==> r.value in Names(ws) && Stagnant(Entries(ws), r.value)
    ensures r.Some? ==> forall x :: x in Names(ws) && Stagnant(Entries(ws), x) ==>
              FirstIndex(Names(ws), r.value) <= FirstIndex(Names(ws), x)
  {
    if |ws| == 0 then None
    else
      var keys := Distinct(Names(ws));
      var stagnant := x => Stagnant(Entries(ws), x);
      var k := PlateauScan(keys, stagnant, ws[|ws| - 1].date <= now - PLATEAU_DAYS * MS_PER_DAY, 0);
      PlateauKeyOrder(Names(ws), stagnant, k);
      if k.Some? then Some(keys[k.value]) else None
  }

  /** The first stagnant key of the deduplicated names is the stagnant name seen first, and
      when no key is stagnant no name is. */
  lemma PlateauKeyOrder(ns: seq<string>, stagnant: string -> bool, k: Option<nat>)
    requires k.Some? ==> k.value < |Distinct(ns)| && stagnant(Distinct(ns)[k.value])
    requires k.Some? ==> forall j :: 0 <= j < k.value ==> !stagnant(Distinct(ns)[j])
    ensures k.Some? ==> Distinct(ns)[k.value] in ns
    ensures k.Some? ==> forall x :: x in ns && stagnant(x) ==>
              FirstIndex(ns, Distinct(ns)[k.value]) <= FirstIndex(ns, x)
    ensures (forall j :: 0 <= j < |Distinct(ns)| ==> !stagnant(Distinct(ns)[j])) ==>
              forall x :: x in ns ==> !stagnant(x)
  {
    var keys := Distinct(ns);
    if k.Some? {
      var i := k.value;
      assert keys[i] in keys;
      forall x | x in ns && stagnant(x) ensures FirstIndex(ns, keys[i]) <= FirstIndex(ns, x) {
        var j :| 0 <= j < |keys| && keys[j] == x;
        assert i <= j;
      }
    }
    if forall j :: 0 <= j < |keys| ==> !stagnant(keys[j]) {
      forall x | x in ns ensures !stagnant(x) {
        var j :| 0 <= j < |keys| && keys[j] == x;
      }
    }
  }

  /** Whether some entry of the newest record opens with a light set; reading the first set of
      an entry without sets throws, which ends the request with a server error. */
  function SuggestionCheck(es: seq<Exercise>): (r: Result<bool>)
    ensures r.Err? <==> exists i :: 0 <= i < |es| && |es[i].sets| == 0
    ensures r.Err? ==> r.error == ServerError
    ensures r.Ok? ==> (r.value <==> exists i :: 0 <= i < |es| && es[i].sets[0].weight < SUGGESTION_WEIGHT)
  {
    if |es| == 0 then Ok(false)
    else
      var n := |es| - 1;
      var p := SuggestionCheck(es[..n]);
      assert forall i :: 0 <= i < n ==> es[..n][i] == es[i];
      if p.Err? || |es[n].sets| == 0 then Err(ServerError)
      else Ok(p.value || es[n].sets[0].weight < SUGGESTION_WEIGHT)
  }

  /** How many leading neighbouring pairs of the newest-first records lie exactly one day apart. */
  function LeadingDayRun(ws: seq<Workout>): (n: nat)
    ensures |ws| <= 1 ==> n == 0
    ensures |ws| > 1 ==> n < |ws|
    ensures forall i :: 0 <= i < n ==> ws[i].date - ws[i + 1].date == MS_PER_DAY
    ensures n + 1 < |ws| ==> ws[n].date - ws[n + 1].date != MS_PER_DAY
  {
    if |ws| < 2 || ws[0].date - ws[1].date != MS_PER_DAY then 0
    else
      var r := LeadingDayRun(ws[1..]);
      assert forall i :: 0 < i <= |ws[1..]| ==> ws[1..][i - 1] == ws[i];
      1 + r
  }

  /** The position an insight takes in the response. */
  function Rank(i: Insight): nat
  {
    match i
    case PlateauDetected(_) => 0
    case WorkoutSuggestion => 1
    case RecoveryAlert(_) => 2
    case Info(_) => 3
  }

  /** Whether the suggestion fires: no plateau, at least three records, and some entry of the
      newest record whose first set is light. */
  ghost predicate SuggestionFires(ws: seq<Workout>, now: int)
  {
    && |ws| >= SUGGESTION_MIN_WORKOUTS
    && DetectPlateau(ws, now).None?
    && exists i :: 0 <= i < |ws[0].exercises| && |ws[0].exercises[i].sets| > 0
                   && ws[0].exercises[i].sets[0].weight < SUGGESTION_WEIGHT
  }

  /** The insights for records fetched newest first. The empty history gets the start message;
      otherwise the fired insights appear in the order plateau, suggestion, recovery, each at
      most once, and the keep-tracking message stands alone when none fired. The response is
      never empty. An entry without sets in the newest record throws once the suggestion is
      evaluated. */
  function AiInsights(ws: seq<Workout>, now: int): (r: Result<seq<Insight>>)
    ensures |ws| == 0 ==> r == Ok([Info(START_LOGGING)])
    ensures r.Err? <==> && |ws| >= SUGGESTION_MIN_WORKOUTS
                        && DetectPlateau(ws, now).None?
                        && exists i :: 0 <= i < |ws[0].exercises| && |ws[0].exercises[i].sets| == 0
    ensures r.Ok? ==> |r.value| >= 1
    ensures r.Ok? ==> forall i, j :: 0 <= i < j < |r.value| ==> Rank(r.value[i]) < Rank(r.value[j])
    ensures r.Ok? && |ws| > 0 ==> forall x :: PlateauDetected(x) in r.value <==> DetectPlateau(ws, now) == Some(x)
    ensures r.Ok? && |ws| > 0 ==> (WorkoutSuggestion in r.value <==> SuggestionFires(ws, now))
    ensures r.Ok? && |ws| > 0 ==> forall k: nat :: RecoveryAlert(k) in r.value <==>
              k == 1 + LeadingDayRun(ws) && k >= RECOVERY_DAYS
    ensures r.Ok? && |ws| > 0 ==> (r.value == [Info(KEEP_TRACKING)] <==>
              DetectPlateau(ws, now).None? && !SuggestionFires(ws, now) && 1 + LeadingDayRun(ws) < RECOVERY_DAYS)
    ensures r.Ok? && |ws| > 0 ==> forall m :: Info(m) in r.value ==> r.value == [Info(KEEP_TRACKING)]
  {
    if |ws| == 0 then Ok([Info(START_LOGGING)])
    else
      var plateau := DetectPlateau(ws, now);
      var suggestion := if plateau.None? && |ws| >= SUGGESTION_MIN_WORKOUTS then SuggestionCheck(ws[0].exercises) else Ok(false);
      if suggestion.Err? then Err(ServerError)
      else
        var streakCount := 1 + LeadingDayRun(ws);
        Ok(Compose(plateau, suggestion.value, streakCount))
  }

  /** The response assembled from what fired: the fired insights in the order plateau,
      suggestion, recovery, or the keep-tracking message alone when none did. */
  function Compose(plateau: Option<string>, suggest: bool, streakCount: nat): (r: seq<Insight>)
    ensures |r| >= 1
    ensures forall i, j :: 0 <= i < j < |r| ==> Rank(r[i]) < Rank(r[j])
    ensures forall x :: PlateauDetected(x) in r <==> plateau == Some(x)
    ensures WorkoutSuggestion in r <==> suggest
    ensures forall k: nat :: RecoveryAlert(k) in r <==> k == streakCount && k >= RECOVERY_DAYS
    ensures r == [Info(KEEP_TRACKING)] <==> plateau.None? && !suggest && streakCount < RECOVERY_DAYS
    ensures forall m :: Info(m) in r ==> r == [Info(KEEP_TRACKING)]
  {
    var fired := (if plateau.Some? then [PlateauDetected(plateau.value)] else [])
                 + (if suggest then [WorkoutSuggestion] else [])
                 + (if streakCount >= RECOVERY_DAYS then [RecoveryAlert(streakCount)] else []);
    if |fired| == 0 then [Info(KEEP_TRACKING)] else fired
  }

  /** A plateau and a suggestion never appear in the same response. */
  lemma PlateauExcludesSuggestion(ws: seq<Workout>, now: int)
    ensures AiInsights(ws, now).Ok? ==>
              var r := AiInsights(ws, now).value;
              !(WorkoutSuggestion in r && exists x :: PlateauDetected(x) in r)
  {
  }

  /** The time gate reads only the oldest record's date: records with the same entries and the
      same oldest date get the same plateau verdict, whatever the other dates are. */
  lemma PlateauGateReadsOldestDate(ws: seq<Workout>, vs: seq<Workout>, now: int)
    requires |ws| == |vs| && forall i :: 0 <= i < |ws| ==> ws[i].exercises == vs[i].exercises
    requires |ws| > 0 ==> ws[|ws| - 1].date == vs[|vs| - 1].date
    ensures DetectPlateau(ws, now) == DetectPlateau(vs, now)
  {
    SameEntries(ws, vs);
  }

  lemma {:induction false} SameEntries(ws: seq<Workout>, vs: seq<Workout>)
    requires |ws| == |vs| && forall i :: 0 <= i < |ws| ==> ws[i].exercises == vs[i].exercises
    ensures Entries(ws) == Entries(vs)
  {
    if |ws| > 0 {
      var n := |ws| - 1;
      SameEntries(ws[..n], vs[..n]);
    }
  }

  // ---------------------------------------------------------------------
  // The plateau test on stored records

  /** A set list as the plateau test serialises it. The store gives every set subdocument an
      id of its own and serialising a set includes it, so each set appears with its id;
      `ids(i, k)` is the id of set `k` of entry `i`, entries numbered in visiting order. */
  function Serialised(es: seq<Exercise>, ids: (nat, nat) -> nat, i: nat): (r: seq<(nat, SetEntry)>)
    requires i < |es|
    ensures |r| == |es[i].sets|
    ensures forall k :: 0 <= k < |r| ==> r[k] == (ids(i, k), es[i].sets[k])
  {
    seq(|es[i].sets|, k requires 0 <= k < |es[i].sets| => (ids(i, k), es[i].sets[k]))
  }

  /** No two sets of the entries share an id. */
  ghost predicate DistinctIds(es: seq<Exercise>, ids: (nat, nat) -> nat)
  {
    forall i, k, j, l ::
      0 <= i < |es| && 0 <= k < |es[i].sets| && 0 <= j < |es| && 0 <= l < |es[j].sets| && ids(i, k) == ids(j, l)
      ==> i == j && k == l
  }

  /** The per-name test as the program runs it on stored records: logged at least twice, and
      the serialised set lists of the first and last entries of the name (the ends of its map
      list, by `SetsOfEnds`) are the same text. */
  predicate StoredStagnant(es: seq<Exercise>, ids: (nat, nat) -> nat, name: string)
  {
    var ns := EntryNames(es);
    && name in ns
    && Count(ns, name) >= 2
    && Serialised(es, ids, FirstIndex(ns, name)) == Serialised(es, ids, LastIndex(ns, name))
  }

  /** The plateau rule as written, over stored records: the scan of `DetectPlateau` with the
      serialised comparison. */
  function StoredPlateau(ws: seq<Workout>, ids: (nat, nat) -> nat, now: int): (r: Option<string>)
    ensures r.Some? ==> StoredStagnant(Entries(ws), ids, r.value)
  {
    if |ws| == 0 then None
    else
      var keys := Distinct(Names(ws));
      var k := PlateauScan(keys, x => StoredStagnant(Entries(ws), ids, x), ws[|ws| - 1].date <= now - PLATEAU_DAYS * MS_PER_DAY, 0);
      if k.Some? then Some(keys[k.value]) else None
  }

  /** The rule as written reports a plateau iff there is a record, the gate is open and some
      logged name passes the serialised test; the name reported is the first such name. */
  lemma StoredPlateauSpec(ws: seq<Workout>, ids: (nat, nat) -> nat, now: int)
    ensures var r := StoredPlateau(ws, ids, now);
            && (r.Some? <==> && |ws| > 0
                             && ws[|ws| - 1].date <= now - PLATEAU_DAYS * MS_PER_DAY
                             && exists x :: x in Names(ws) && StoredStagnant(Entries(ws), ids, x))
            && (r.Some? ==> r.value in Names(ws)
                            && forall x :: x in Names(ws) && StoredStagnant(Entries(ws), ids, x) ==>
                                 FirstIndex(Names(ws), r.value) <= FirstIndex(Names(ws), x))
  {
    if |ws| > 0 {
      var keys := Distinct(Names(ws));
      var stagnant := x => StoredStagnant(Entries(ws), ids, x);
      var k := PlateauScan(keys, stagnant, ws[|ws| - 1].date <= now - PLATEAU_DAYS * MS_PER_DAY, 0);
      PlateauKeyOrder(Names(ws), stagnant, k);
    }
  }

  /** With every set carrying its own id, as sets entered by hand do, a name passes the
      serialised test exactly when it was logged twice and its first and last entries both have
      no sets: two different entries with sets never serialise alike. */
  lemma StoredNeverStagnant(es: seq<Exercise>, ids: (nat, nat) -> nat, name: string)
    requires DistinctIds(es, ids)
    ensures StoredStagnant(es, ids, name) ==> exists i :: 0 <= i < |es| && es[i].name == name && |es[i].sets| == 0
    ensures var ns := EntryNames(es);
            StoredStagnant(es, ids, name) <==>
              && name in ns && Count(ns, name) >= 2
              && |es[FirstIndex(ns, name)].sets| == 0 && |es[LastIndex(ns, name)].sets| == 0
  {
    var ns := EntryNames(es);
    if name in ns && Count(ns, name) >= 2 {
      FirstBeforeLast(ns, name);
      var f := FirstIndex(ns, name);
      var l := LastIndex(ns, name);
      EntriesSerialiseApart(es, ids, f, l);
      assert es[f].name == name;
      if |es[f].sets| == 0 && |es[l].sets| == 0 {
        assert Serialised(es, ids, f) == [] == Serialised(es, ids, l);
      }
    }
  }

  /** On stored records whose sets all have ids of their own, as sets entered by hand do, and
      which the schema gives at least one set per entry, the plateau rule as written never
      fires. */
  lemma StoredPlateauNeverFires(ws: seq<Workout>, ids: (nat, nat) -> nat, now: int)
    requires DistinctIds(Entries(ws), ids)
    requires forall w :: w in ws ==> WellFormed(w)
    ensures StoredPlateau(ws, ids, now) == None
  {
    var r := StoredPlateau(ws, ids, now);
    EntriesHaveSets(ws);
    if r.Some? {
      StoredNeverStagnant(Entries(ws), ids, r.value);
    }
  }

  /** A squat logged by hand with the same single set on day 0 and on day 20, viewed on day 20: by value
      the sets repeat and the plateau is reported, but each stored set has its own id, so the
      rule as written reports nothing. */
  lemma RepeatedSetsShowNoPlateau()
    ensures var squat := Exercise("Squat", "Legs", "Barbell", [SetEntry(60.0, 5.0, "Medium")]);
            var ws := [Workout(20 * MS_PER_DAY, [squat]), Workout(0, [squat])];
            && DetectPlateau(ws, 20 * MS_PER_DAY) == Some("Squat")
            && StoredPlateau(ws, (i, k) => i, 20 * MS_PER_DAY) == None
  {
    var squat := Exercise("Squat", "Legs", "Barbell", [SetEntry(60.0, 5.0, "Medium")]);
    RepeatedEntry(squat, 20 * MS_PER_DAY, 0, 20 * MS_PER_DAY);
  }

  /** The same squat, but the newer record is a copy of the older one, as repeating the last
      workout makes it: the copied sets keep their ids, so both entries serialise alike and the
      rule as written reports the plateau. */
  lemma CopiedSetsShowPlateau()
    ensures var squat := Exercise("Squat", "Legs", "Barbell", [SetEntry(60.0, 5.0, "Medium")]);
            var ws := [Workout(20 * MS_PER_DAY, [squat]), Workout(0, [squat])];
            StoredPlateau(ws, (i, k) => k, 20 * MS_PER_DAY) == Some("Squat")
  {
    var squat := Exercise("Squat", "Legs", "Barbell", [SetEntry(60.0, 5.0, "Medium")]);
    RepeatedEntryCopied(squat, 20 * MS_PER_DAY, 0, 20 * MS_PER_DAY);
  }

  /** One entry in two records whose sets carry the same ids, as a copied record's do, the
      older record at least two weeks before `now`: the rule as written reports it. */
  lemma RepeatedEntryCopied(e: Exercise, newer: int, older: int, now: int)
    requires older <= now - PLATEAU_DAYS * MS_PER_DAY
    ensures StoredPlateau([Workout(newer, [e]), Workout(older, [e])], (i, k) => k, now) == Some(e.name)
  {
    var ws := [Workout(newer, [e]), Workout(older, [e])];
    var ids := (i: nat, k: nat) => k;
    EntriesOfTwo(ws[0], ws[1]);
    var es := Entries(ws);
    assert es == [e, e];
    var ns := Names(ws);
    assert ns == [e.name, e.name];
    assert Serialised(es, ids, 0) == Serialised(es, ids, 1);
    assert StoredStagnant(es, ids, e.name);
    assert forall x :: x in ns ==> x == e.name;
    StoredPlateauSpec(ws, ids, now);
  }

  /** One entry logged alone in two records, the older one at least two weeks before `now`:
      by value it is a plateau; with one id per set, as stored, it is not. */
  lemma RepeatedEntry(e: Exercise, newer: int, older: int, now: int)
    requires |e.sets| == 1 && e.sets[0].weight > 0.0 && e.sets[0].reps > 0.0
    requires older <= now - PLATEAU_DAYS * MS_PER_DAY
    ensures DetectPlateau([Workout(newer, [e]), Workout(older, [e])], now) == Some(e.name)
    ensures StoredPlateau([Workout(newer, [e]), Workout(older, [e])], (i, k) => i, now) == None
  {
    RepeatedEntryByValue(e, newer, older, now);
    RepeatedEntryAsStored(e, newer, older, now);
  }

  lemma RepeatedEntryByValue(e: Exercise, newer: int, older: int, now: int)
    requires older <= now - PLATEAU_DAYS * MS_PER_DAY
    ensures DetectPlateau([Workout(newer, [e]), Workout(older, [e])], now) == Some(e.name)
  {
    var ws := [Workout(newer, [e]), Workout(older, [e])];
    EntriesOfTwo(ws[0], ws[1]);
    SetsOfTwice(e);
    var ns := Names(ws);
    assert ns == [e.name, e.name];
    assert Stagnant(Entries(ws), e.name);
    assert e.name in ns;
    assert forall x :: x in ns ==> x == e.name;
  }

  lemma RepeatedEntryAsStored(e: Exercise, newer: int, older: int, now: int)
    requires |e.sets| == 1 && e.sets[0].weight > 0.0 && e.sets[0].reps > 0.0
    ensures StoredPlateau([Workout(newer, [e]), Workout(older, [e])], (i, k) => i, now) == None
  {
    var ws := [Workout(newer, [e]), Workout(older, [e])];
    EntriesOfTwo(ws[0], ws[1]);
    assert Entries(ws) == [e, e];
    assert WellFormed(ws[0]) && WellFormed(ws[1]);
    StoredPlateauNeverFires(ws, (i, k) => i, now);
  }

  lemma EntriesOfTwo(a: Workout, b: Workout)
    ensures Entries([a, b]) == a.exercises + b.exercises
  {
    var ws := [a, b];
    assert ws[..1] == [a] && ws[..1][..0] == [];
    assert Entries([a]) == Entries([]) + a.exercises;
    assert Entries(ws) == Entries([a]) + b.exercises;
  }

  lemma SetsOfTwice(e: Exercise)
    ensures SetsOf([e, e], e.name) == [e.sets, e.sets]
  {
    var es := [e, e];
    assert es[..1] == [e] && es[..1][..0] == [];
  }

  /** Two different entries with a set serialise to different text: their first sets carry
      different ids. */
  lemma EntriesSerialiseApart(es: seq<Exercise>, ids: (nat, nat) -> nat, f: nat, l: nat)
    requires DistinctIds(es, ids) && f < l < |es|
    ensures |es[f].sets| > 0 ==> Serialised(es, ids, f) != Serialised(es, ids, l)
  {
    if |es[f].sets| > 0 && |es[l].sets| > 0 {
      assert Serialised(es, ids, f)[0].0 != Serialised(es, ids, l)[0].0;
    }
  }

  /** Every entry of records the schema admits has a set. */
  lemma EntriesHaveSets(ws: seq<Workout>)
    requires forall w :: w in ws ==> WellFormed(w)
    ensures forall i :: 0 <= i < |Entries(ws)| ==> |Entries(ws)[i].sets| > 0
  {
    var es := Entries(ws);
    forall i | 0 <= i < |es| ensures |es[i].sets| > 0 {
      EntriesMembership(ws, es[i]);
      var j :| 0 <= j < |ws| && es[i] in ws[j].exercises;
      assert ws[j] in ws;
    }
  }

  // ---------------------------------------------------------------------
  // Week over week

  datatype WeightTrend = NoWeightChange | MoreWeight(percent: real) | LessWeight(percent: real)
  datatype RepsTrend = NoRepsChange | RepsIncreased(amount: real) | RepsDecreased(amount: real)
  datatype WeeklyReport = NotEnoughData | Compared(weight: WeightTrend, reps: RepsTrend)

  /** The volume message: no comparison without a positive previous volume; otherwise the
      percentage change, reported as "more" when positive and as "less" by its magnitude
      when zero or negative. */
  function WeightChange(last: real, prev: real): (t: WeightTrend)
    ensures prev <= 0.0 <==> t == NoWeightChange
    ensures prev > 0.0 && last > prev ==>
              t.MoreWeight? && t.percent > 0.0 && prev + prev * t.percent / 100.0 == last
    ensures prev > 0.0 && last <= prev ==>
              t.LessWeight? && t.percent >= 0.0 && prev - prev * t.percent / 100.0 == last
  {
    if prev > 0.0 then
      var diff := (last - prev) / prev * 100.0;
      assert prev * diff / 100.0 == last - prev;
      if diff > 0.0 then MoreWeight(diff) else LessWeight(-diff)
    else NoWeightChange
  }

  /** The reps message: no comparison without a positive previous average; otherwise the
      difference, reported as an increase when positive and as a decrease by its magnitude
      when zero or negative. */
  function RepsChange(last: real, prev: real): (t: RepsTrend)
    ensures prev <= 0.0 <==> t == NoRepsChange
    ensures prev > 0.0 && last > prev ==> t.RepsIncreased? && t.amount > 0.0 && prev + t.amount == last
    ensures prev > 0.0 && last <= prev ==> t.RepsDecreased? && t.amount >= 0.0 && last + t.amount == prev
  {
    if prev > 0.0 then
      var diff := last - prev;
      if diff > 0.0 then RepsIncreased(diff) else RepsDecreased(-diff)
    else NoRepsChange
  }

  /** Compares the last seven days with the seven before (each given as its fetched records):
      not enough data unless both hold a record, otherwise the volume change (weight times reps
      summed over every set) and the change in reps per exercise entry. */
  function WeeklyProgress(lastWeek: seq<Workout>, prevWeek: seq<Workout>): (r: WeeklyReport)
    ensures r.NotEnoughData? <==> |lastWeek| == 0 || |prevWeek| == 0
    ensures r.Compared? ==> r.weight == WeightChange(LiftVolume(Lifts(lastWeek)), LiftVolume(Lifts(prevWeek)))
    ensures r.Compared? ==> (r.reps.RepsIncreased? <==> 0.0 < AverageReps(prevWeek) < AverageReps(lastWeek))
    ensures r.Compared? ==> (r.reps.NoRepsChange? <==> AverageReps(prevWeek) <= 0.0)
    ensures r.Compared? ==> r.reps == RepsChange(AverageReps(lastWeek), AverageReps(prevWeek))
  {
    if |lastWeek| == 0 || |prevWeek| == 0 then NotEnoughData
    else
      VolumeIsSumOverAllSets(lastWeek);
      VolumeIsSumOverAllSets(prevWeek);
      Compared(WeightChange(TotalVolume(lastWeek), TotalVolume(prevWeek)),
               RepsChange(AverageReps(lastWeek), AverageReps(prevWeek)))
  }

  /** Two weeks of records the schema admits always compare volumes: the previous week's
      volume is positive, so the message is never the no-change one. */
  lemma WellFormedWeeksCompareVolume(lastWeek: seq<Workout>, prevWeek: seq<Workout>)
    requires |lastWeek| > 0 && |prevWeek| > 0
    requires forall w :: w in prevWeek ==> WellFormed(w)
    ensures WeeklyProgress(lastWeek, prevWeek).Compared?
    ensures !WeeklyProgress(lastWeek, prevWeek).weight.NoWeightChange?
  {
    VolumePositive(prevWeek);
    VolumeIsSumOverAllSets(prevWeek);
  }

  /** An unchanged positive volume is reported as zero percent less, not as no change. */
  lemma SameVolumeReadsAsLess(v: real)
    requires v > 0.0
    ensures WeightChange(v, v) == LessWeight(0.0)
  {
  }

  // ---------------------------------------------------------------------
  // Graph points

  datatype GraphPoint = GraphPoint(date: int, weight: real, reps: real)

  /** The position of the first entry named `name`, as `Array.find` picks it. */
  function FirstNamed(es: seq<Exercise>, name: string): (r: Option<nat>)
    ensures r.Some? ==> r.value < |es| && es[r.value].name == name
    ensures r.Some? ==> forall j :: 0 <= j < r.value ==> es[j].name != name
    ensures r.None? ==> forall j :: 0 <= j < |es| ==> es[j].name != name
  {
    if |es| == 0 then None
    else if es[0].name == name then Some(0)
    else
      var r := FirstNamed(es[1..], name);
      assert forall j :: 0 < j < |es| ==> es[1..][j - 1] == es[j];
      if r.Some? then Some(r.value + 1) else None
  }

  /** The first entry of a record named `name` exists but has no set. */
  ghost predicate EmptyMatch(w: Workout, name: string)
  {
    FirstNamed(w.exercises, name).Some? && |w.exercises[FirstNamed(w.exercises, name).value].sets| == 0
  }

  /** The point a record contributes: its date and the last set of its first entry named
      `name`, nothing without such an entry, and a throw when that entry has no set. */
  function PointOf(w: Workout, name: string): (r: Result<Option<GraphPoint>>)
    ensures r.Err? <==> EmptyMatch(w, name)
    ensures r.Ok? ==> (r.value.None? <==> FirstNamed(w.exercises, name).None?)
    ensures r.Ok? && r.value.Some? ==>
              var e := w.exercises[FirstNamed(w.exercises, name).value];
              r.value.value == GraphPoint(w.date, e.sets[|e.sets| - 1].weight, e.sets[|e.sets| - 1].reps)
  {
    match FirstNamed(w.exercises, name)
    case None => Ok(None)
    case Some(k) =>
      var sets := w.exercises[k].sets;
      if |sets| == 0 then Err(ServerError)
      else Ok(Some(GraphPoint(w.date, sets[|sets| - 1].weight, sets[|sets| - 1].reps)))
  }

  /** The graph series for `name`: one point per record holding the exercise, in record order;
      a record whose matching entry has no set ends the request with a server error. */
  function ProgressGraph(ws: seq<Workout>, name: string): (r: Result<seq<GraphPoint>>)
    ensures r.Err? <==> exists i :: 0 <= i < |ws| && EmptyMatch(ws[i], name)
    ensures r.Ok? ==> |r.value| <= |ws|
    ensures r.Ok? && (forall i :: 0 <= i < |ws| ==> FirstNamed(ws[i].exercises, name).Some?) ==>
              |r.value| == |ws| && forall i :: 0 <= i < |ws| ==> PointOf(ws[i], name) == Ok(Some(r.value[i]))
  {
    if |ws| == 0 then Ok([])
    else
      var head := PointOf(ws[0], name);
      var rest := ProgressGraph(ws[1..], name);
      assert forall i :: 0 < i < |ws| ==> ws[1..][i - 1] == ws[i];
      assert (exists i :: 0 <= i < |ws[1..]| && EmptyMatch(ws[1..][i], name)) ==>
             (exists i :: 0 <= i < |ws| && EmptyMatch(ws[i], name)) by {
        if exists i :: 0 <= i < |ws[1..]| && EmptyMatch(ws[1..][i], name) {
          var i :| 0 <= i < |ws[1..]| && EmptyMatch(ws[1..][i], name);
          assert EmptyMatch(ws[i + 1], name);
        }
      }
      if head.Err? || rest.Err? then Err(ServerError)
      else if head.value.Some? then Ok([head.value.value] + rest.value)
      else Ok(rest.value)
  }

  // ---------------------------------------------------------------------
  // Exercise list

  /** Every exercise name logged, once each, in order of first appearance. */
  function ExerciseList(ws: seq<Workout>): (r: seq<string>)
    ensures forall x :: x in r <==> x in Names(ws)
    ensures forall x :: x in r <==> exists i, e :: 0 <= i < |ws| && e in ws[i].exercises && e.name == x
    ensures NoDuplicates(r)
    ensures forall i, j :: 0 <= i < j < |r| ==> FirstIndex(Names(ws), r[i]) < FirstIndex(Names(ws), r[j])
  {
    NamesMembership(ws);
    Distinct(Names(ws))
  }

  /** A name is logged exactly when some record holds an entry with that name. */
  lemma NamesMembership(ws: seq<Workout>)
    ensures forall x :: x in Names(ws) <==> exists i, e :: 0 <= i < |ws| && e in ws[i].exercises && e.name == x
  {
    var es := Entries(ws);
    var ns := Names(ws);
    forall x | x in ns ensures exists i, e :: 0 <= i < |ws| && e in ws[i].exercises && e.name == x {
      var k :| 0 <= k < |ns| && ns[k] == x;
      EntriesMembership(ws, es[k]);
      var i :| 0 <= i < |ws| && es[k] in ws[i].exercises;
    }
    forall x | exists i, e :: 0 <= i < |ws| && e in ws[i].exercises && e.name == x ensures x in ns {
      var i, e :| 0 <= i < |ws| && e in ws[i].exercises && e.name == x;
      EntriesMembership(ws, e);
      var k :| 0 <= k < |es| && es[k] == e;
      assert ns[k] == x;
    }
  }
}
