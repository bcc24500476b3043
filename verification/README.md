# TrackX workout analytics, modelled in Dafny

TrackX is a workout tracker whose backend stores logged workouts: a workout record has a date
and a list of exercise entries, and each entry has a name, a body part, equipment and a list of
sets. A set has a weight, a rep count and a difficulty. This project models the analytics the
backend computes from those records, and proves what they mean:

- the progress endpoints:
  - personal bests (heaviest set, most reps, active day streak);
  - the rule-based "AI insights" (plateau, overload suggestion, recovery alert);
  - the week-over-week comparison;
  - the per-exercise graph series;
  - the list of exercise names;
- the workout endpoints' weekly statistics and all-time performance summary, including the
  longest streak of consecutive workout days;
- the profile's fitness statistics;
- the request schemas for creating a workout and a template;
- the reminder e-mail scheduler's mapping from a reminder time to a cron expression.

Each endpoint is a pure function of the records its database query would return, in the
query's order. Where the source reads the clock, the current time `now` is a parameter.
Timestamps are integer milliseconds since the epoch. A calendar day is the UTC day,
`t / 86400000`. A request that ends in the catch block is `Err(ServerError)`; personal bests on
an empty history is `Err(NoWorkoutsFound)`, the 404.

Modules, one per source concern:

- `Types` (`types.dfy`): the records. It also gives the flattened views the controllers' nested
  loops visit: every entry, every entry name, every set tagged with its entry's name.
- `Collections` (`collections.dfy`):
  - occurrence counts;
  - first and last occurrence;
  - first-occurrence deduplication, which is the key order of a JavaScript `Set`, `Map` or
    object.
- `Calendar` (`calendar.dfy`):
  - distinct sorted workout days;
  - the active streak counted back from today;
  - the longest-streak scan of the performance summary. Its loop state is a datatype and its
    loop body is a function. The scan is related, index by index, to the longest block of
    consecutive days.
- `Aggregates` (`aggregates.dfy`):
  - running maxima;
  - the two "most frequent exercise" policies. One is a strict `>` scan, where ties go to the
    first name. The other is a `reduce`, where ties go to the last name.
  - training volume, as nested reduces and as a flat sum;
  - average reps.
- `ProgressController`, `WorkoutController`, `UserController` (`progress.dfy`, `workout.dfy`,
  `user.dfy`): the endpoints.
- `Validations` (`validations.dfy`): the two request schemas as predicates, and the record a
  validated workout body becomes.
- `EmailScheduler` (`scheduler.dfy`):
  - the reminder-time table;
  - a reference twelve-hour clock reader;
  - the corrected table.

## Model

| member | source | states |
|---|---|---|
| `Types.EntriesMembership` | TrackX-Backend/src/controller/progress.controller.ts:118-126 | The entries the nested loops visit are exactly the entries held by some record. |
| `Types.EntryLiftsMembership` | TrackX-Backend/src/controller/workout.controller.ts:213-222 | The sets visited over a list of entries are exactly the sets of those entries, each tagged with its owning entry's name. |
| `Types.LiftsOfWorkouts` | TrackX-Backend/src/controller/progress.controller.ts:32-38 | A tagged set is visited exactly when some record holds an entry of that name containing that set. |
| `Collections.Distinct` | TrackX-Backend/src/controller/progress.controller.ts:492-493 | Deduplication keeps exactly the values of the input, each once, in order of first appearance. |
| `Calendar.SortedDays` | TrackX-Backend/src/controller/progress.controller.ts:39-52 | The distinct day list is strictly ascending, holds exactly the listed days, and is no longer than the input. |
| `Calendar.SameDayCountsOnce` | TrackX-Backend/src/controller/user.controller.ts:141-145 | Two records on the same day make the day list strictly shorter than the record list: a day counts once. |
| `Calendar.ActiveStreak` | TrackX-Backend/src/controller/progress.controller.ts:51-67 | Walking back from the newest listed day: every day of the counted span is listed, the count is positive only when the newest day is today, and the day before the span is not listed. |
| `Calendar.WorkoutStreak` | TrackX-Backend/src/controller/user.controller.ts:163-179 | The active streak in terms of the records. Every day of the span ending today has a workout. The streak is positive iff today has a workout and no record is dated later. The day before the span has no workout. The streak never exceeds the number of records. |
| `Calendar.ActiveStreakOfWorkouts` | TrackX-Backend/src/controller/progress.controller.ts:51-67 | The day-list streak read back in terms of the records. These are the same four facts as `WorkoutStreak`. |
| `Calendar.LongestStreakIndices` | TrackX-Backend/src/controller/workout.controller.ts:232-259 | The loop-and-final-check scan yields the maximum run length. Its start is where the first maximal run begins. Its end is the last one-day step when the end is reassigned on every step; otherwise it is where the first maximal run ends. |
| `Calendar.ScanKeepsInv` | TrackX-Backend/src/controller/workout.controller.ts:237-253 | The loop body preserves the relation between its variables and the run lengths of the prefix seen so far. |
| `Calendar.LongestStreakSpec` | TrackX-Backend/src/controller/workout.controller.ts:228-259 | The scan, on an ascending list of distinct days, in calendar terms. The length is that of the longest block of consecutive days. The start opens the earliest such block. Without reassignment the end closes that block. With reassignment the end is the latest day whose previous day is also listed, or the first day when no two days are adjacent. |
| `Calendar.HistoryStreak` | TrackX-Backend/src/controller/workout.controller.ts:224-259 | The same statement, for a non-empty record list and its workout days. |
| `Calendar.LongestBlock` | TrackX-Backend/src/controller/workout.controller.ts:242-252 | The first maximal run of one-day steps is a block of consecutive listed days. No block is longer. No block of that length starts earlier. |
| `Calendar.LastStepDay` | TrackX-Backend/src/controller/workout.controller.ts:242-244 | The day the reassigned end variable holds: the latest day whose previous day is listed, or the first day if there is none. |
| `Aggregates.HeaviestLift` | TrackX-Backend/src/controller/workout.controller.ts:209-222 | Seeded with 0 and "N/A", with strictly heavier sets replacing: the result bounds every set. It is 0 with "N/A" when nothing is positive. Otherwise it is attained, and its exercise is the first one to reach it. |
| `Aggregates.MaxWeight` | TrackX-Backend/src/controller/user.controller.ts:150-153 | The running `Math.max` from 0 bounds every set's weight, is non-negative, and is 0 or attained. |
| `Aggregates.MaxWeightIsHeaviestLift` | TrackX-Backend/src/controller/user.controller.ts:151-153 | The `Math.max` fold and the strict-`>` scan find the same heaviest weight. |
| `Aggregates.MaxReps` | TrackX-Backend/src/controller/progress.controller.ts:36 | The running maximum of reps from 0 bounds every set's reps, is non-negative, and is 0 or attained. |
| `Aggregates.FirstMostFrequent` | TrackX-Backend/src/controller/workout.controller.ts:275-283 | The strict-`>` scan over keys returns a key whose count bounds every key's count. Every earlier key has a strictly lower count. It returns nothing exactly when its count is 0. |
| `Aggregates.LastMostFrequent` | TrackX-Backend/src/controller/user.controller.ts:158-161 | The reduce returns the seed or a key. Its count is at least the seed's count and at least every key's count. |
| `Aggregates.LastMostFrequentIsLast` | TrackX-Backend/src/controller/user.controller.ts:158-161 | Once some key ties or beats the seed, the reduce returns a key that no later key ties or beats: ties go to the later key. |
| `Aggregates.MostFrequentPoliciesAgreeOnCount` | TrackX-Backend/src/controller/workout.controller.ts:275-283 | The two tie policies name exercises logged equally often. |
| `Aggregates.FirstMostFrequentOfNames` | TrackX-Backend/src/controller/workout.controller.ts:267-283 | Over the first-occurrence keys, the scan picks the most frequent name that appeared first. It picks nothing only for an empty list. Its count is that name's count. |
| `Aggregates.LastMostFrequentOfNames` | TrackX-Backend/src/controller/user.controller.ts:147-161 | Over the first-occurrence keys, the reduce picks the most frequent name that appeared last. It keeps the seed only for an empty list. |
| `Aggregates.LiftVolumeAppend` | TrackX-Backend/src/controller/progress.controller.ts:246-261 | Volume is additive over concatenation. |
| `Aggregates.EntryLiftsAppend` | TrackX-Backend/src/controller/progress.controller.ts:250-258 | Flattening entries into tagged sets distributes over concatenation. |
| `Aggregates.SetsVolumeIsFlat` | TrackX-Backend/src/controller/progress.controller.ts:253-256 | The innermost reduce is the flat weight-times-reps sum of the entry's sets. |
| `Aggregates.ExercisesVolumeIsFlat` | TrackX-Backend/src/controller/progress.controller.ts:250-258 | The middle reduce is the flat sum over the entries' sets. |
| `Aggregates.VolumeIsSumOverAllSets` | TrackX-Backend/src/controller/progress.controller.ts:246-261 | `calcTotalWeight`'s nested reduces equal the flat sum of weight times reps over every set of every record. |
| `Aggregates.VolumePositive` | TrackX-Backend/src/controller/progress.controller.ts:246-261 | A non-empty list of records the schema admits has positive volume. |
| `Aggregates.Mean` | TrackX-Backend/src/controller/progress.controller.ts:294 | The average is 0 when nothing was counted; otherwise average times count is the total. |
| `Aggregates.AverageReps` | TrackX-Backend/src/controller/progress.controller.ts:281-295 | Average reps per entry: total reps over every set, divided by the number of entries, or 0 without entries. |
| `ProgressController.PersonalBest` | TrackX-Backend/src/controller/progress.controller.ts:8-67 | The 404 exactly for an empty history. The heaviest weight and the most reps bound every set, are non-negative, and are attained when positive. The streak facts are those of `WorkoutStreak`. |
| `ProgressController.SetsOf` | TrackX-Backend/src/controller/progress.controller.ts:117-126 | The map's list for a name holds one set list per entry with that name. |
| `ProgressController.SetsOfEnds` | TrackX-Backend/src/controller/progress.controller.ts:128-131 | The map's first list is the sets of the first entry with that name. Its last list is the sets of the last such entry. |
| `ProgressController.StagnantMeaning` | TrackX-Backend/src/controller/progress.controller.ts:129-134 | A name is stagnant iff it was logged at least twice and its first and last entries hold equal set lists. |
| `ProgressController.PlateauScan` | TrackX-Backend/src/controller/progress.controller.ts:128-145 | The key loop finds the first key that passes the per-name test while the time gate is open. It finds none when the gate is closed or no key passes. |
| `ProgressController.DetectPlateau` | TrackX-Backend/src/controller/progress.controller.ts:112-145 | A plateau is reported iff there is a record, the oldest record is at least 14 days before `now`, and some logged name is stagnant. The name reported is stagnant, and no stagnant name appeared earlier. |
| `ProgressController.PlateauKeyOrder` | TrackX-Backend/src/controller/progress.controller.ts:117-128 | The first stagnant key in Map order is the stagnant name that appeared first. No stagnant key means no stagnant name. |
| `ProgressController.PlateauGateReadsOldestDate` | TrackX-Backend/src/controller/progress.controller.ts:133-136 | The plateau verdict depends on the dates only through the oldest record's date. |
| `ProgressController.SuggestionCheck` | TrackX-Backend/src/controller/progress.controller.ts:148-159 | The check fails with a server error iff some entry of the newest record has no set. Otherwise it fires iff some entry's first set weighs under 100. |
| `ProgressController.LeadingDayRun` | TrackX-Backend/src/controller/progress.controller.ts:162-173 | The number of leading neighbour pairs exactly one day apart. All counted pairs are one day apart, and the pair after them is not. |
| `ProgressController.AiInsights` | TrackX-Backend/src/controller/progress.controller.ts:87-208 | An empty history gets the start message. The request fails iff the suggestion is evaluated on a newest record with an entry without sets. The response is never empty and follows the order plateau, suggestion, recovery. Each insight appears iff its rule fires. The recovery alert carries the streak count. The keep-tracking message appears iff none fired, and then alone. |
| `ProgressController.Compose` | TrackX-Backend/src/controller/progress.controller.ts:182-195 | The response holds the fired insights in rank order, each iff it fired. Otherwise it holds only the keep-tracking message. |
| `ProgressController.PlateauExcludesSuggestion` | TrackX-Backend/src/controller/progress.controller.ts:148 | A plateau and an overload suggestion never appear together. |
| `ProgressController.WeightChange` | TrackX-Backend/src/controller/progress.controller.ts:266-278 | No comparison iff the previous volume is not positive. Otherwise the change is "more" by a positive percent when the volume grew, and "less" by the magnitude otherwise. The percent applied to the previous volume gives back the last one. |
| `ProgressController.RepsChange` | TrackX-Backend/src/controller/progress.controller.ts:300-311 | No comparison iff the previous average is not positive. Otherwise it is an increase by the positive difference, or a decrease by the magnitude, that recovers the other average. |
| `ProgressController.WeeklyProgress` | TrackX-Backend/src/controller/progress.controller.ts:234-311 | Not enough data iff either week has no record. Otherwise the weight message compares the flat volumes of the two weeks. The reps message compares the two weeks' average reps per entry, so an increase or decrease carries the amount between them. Reps "increased" iff the average grew from a positive previous average. |
| `ProgressController.WellFormedWeeksCompareVolume` | TrackX-Backend/src/controller/progress.controller.ts:246-278 | When the previous week holds records the schema admits, the volumes are always compared. |
| `ProgressController.StoredPlateauSpec` | TrackX-Backend/src/controller/progress.controller.ts:112-145 | The rule as written, comparing set lists as serialised with their ids. A plateau is reported iff there is a record, the oldest record is at least 14 days before `now`, and some logged name passes that comparison. The name reported passes it, and no passing name appeared earlier. |
| `ProgressController.StoredNeverStagnant` | TrackX-Backend/src/controller/progress.controller.ts:128-134 | When every stored set has its own id, as sets entered by hand do, a name passes the serialised comparison iff it was logged twice and its first and last entries both have no sets. |
| `ProgressController.StoredPlateauNeverFires` | TrackX-Backend/src/controller/progress.controller.ts:128-145 | On stored records the schema admits, with distinct set ids, the plateau rule as written reports nothing. |
| `ProgressController.RepeatedEntryCopied` | TrackX-Backend/src/controller/workout.controller.ts:155-169 | A repeated workout copies its entries with their set ids. An entry in two such records, the older one at least 14 days before `now`, is reported as a plateau by the rule as written. |
| `ProgressController.CopiedSetsShowPlateau` | TrackX-Backend/src/controller/workout.controller.ts:155-169 | The squat on day 0, repeated on day 20 with its set ids copied, viewed on day 20: the rule as written reports the plateau. |
| `ProgressController.RepeatedSetsShowNoPlateau` | TrackX-Backend/src/controller/progress.controller.ts:128-145 | Take a squat logged by hand with the same set on day 0 and on day 20, viewed on day 20. Comparing by value reports the plateau; comparing stored sets, each with its own id, does not. |
| `ProgressController.SameVolumeReadsAsLess` | TrackX-Backend/src/controller/progress.controller.ts:270-277 | Equal positive volumes are reported as "0% less", not as no change. |
| `ProgressController.FirstNamed` | TrackX-Backend/src/controller/progress.controller.ts:357-359 | `find` returns the first entry with the name, or nothing when no entry has it. |
| `ProgressController.PointOf` | TrackX-Backend/src/controller/progress.controller.ts:356-368 | A record's point is its date and the last set of its first entry with the name. There is no point without such an entry. It is a server error when that entry has no set. |
| `ProgressController.ProgressGraph` | TrackX-Backend/src/controller/progress.controller.ts:355-370 | A server error iff some record's matching entry has no set. Otherwise there is at most one point per record. When every record holds the exercise, point i is record i's point. |
| `ProgressController.ExerciseList` | TrackX-Backend/src/controller/progress.controller.ts:488-493 | Exactly the names some record holds, each once, in order of first appearance. |
| `ProgressController.NamesMembership` | TrackX-Backend/src/controller/progress.controller.ts:488-490 | A name is in the flattened list iff some record holds an entry with that name. |
| `WorkoutController.WorkoutsStats` | TrackX-Backend/src/controller/workout.controller.ts:87-111 | The count is the number of records. The result is exactly the most frequent name, with ties going to the first appearance. It is "None" when nothing was logged, or when that name is the empty one. |
| `WorkoutController.WorkoutPerformance` | TrackX-Backend/src/controller/workout.controller.ts:195-283 | The fixed "N/A" summary for an empty history. Otherwise it reports three things. The heaviest weight, with the first exercise to reach it. The longest block of consecutive workout days, shown only when longer than one day; its start opens the earliest such block, or is the first workout day. The most frequent name with its count, ties to the first. The streak end is the latest workout day whose previous day is also one, or the first workout day when there is none. |
| `WorkoutController.StreakEndOverwritten` | TrackX-Backend/src/controller/workout.controller.ts:242-258 | On days 1, 2, 3, 10, 11 the reported streak is 3 days from day 1, but the end left behind is day 11. With the end set only with a new maximum, it is day 3. |
| `WorkoutController.CorrectedHistoryStreak` | TrackX-Backend/src/controller/workout.controller.ts:232-259 | With the end set only with a new maximum, the bounds span exactly the reported length of a longest block. |
| `UserController.FitnessStats` | TrackX-Backend/src/controller/user.controller.ts:125-179 | The count is the number of records. The most frequent name goes to the latest appearance on a tie, or is "None" with no entries. The heaviest weight bounds every set and is attained. The active streak is as in `WorkoutStreak`. |
| `UserController.TiesGoOppositeWays` | TrackX-Backend/src/controller/user.controller.ts:158-161 | When two names tie for most frequent, the weekly statistics and the fitness statistics name different exercises. |
| `UserController.MaxWeightAgreesWithPerformance` | TrackX-Backend/src/controller/user.controller.ts:151-153 | The fitness statistics' heaviest weight equals the performance summary's heaviest lift. |
| `Validations.ToExercise` | TrackX-Backend/src/models/workout.model.ts:10-15 | A stored entry carries the body's fields and sets one for one. |
| `Validations.ToWorkout` | TrackX-Backend/src/validations/Workout.ts:3-23 | A stored record keeps the entries one for one, and a body the schema accepts becomes a well-formed record. |
| `Validations.StoredIsWellFormed` | TrackX-Backend/src/validations/Workout.ts:14-22 | Accepted bodies give records in which every entry has sets and every set has a positive weight and positive reps. |
| `Validations.ValidatedWorkoutHasVolume` | TrackX-Backend/src/validations/Workout.ts:14-19 | An accepted workout adds a positive volume. |
| `Validations.WorkoutEntriesMakeTemplate` | TrackX-Backend/src/validations/template.ts:3-21 | The entries of an accepted workout, under any non-empty name, make an accepted template. |
| `Validations.TemplateEntriesNeedNotMakeWorkout` | TrackX-Backend/src/validations/template.ts:8-14 | The converse fails: a "Very Easy" set, or an entry without body part and equipment, is a valid template but not a valid workout. |
| `Validations.WorkoutEntryRulesAreEnforced` | TrackX-Backend/src/validations/Workout.ts:4-22 | Starting from an accepted body, any one of these is rejected: an empty date, no entries, an empty name, body part or equipment, or no sets. |
| `Validations.WorkoutSetRulesAreEnforced` | TrackX-Backend/src/validations/Workout.ts:14-16 | Starting from an accepted body, a set with fractional or zero reps, zero weight, or a difficulty outside Easy, Medium and Hard is rejected. |
| `Validations.TemplateEntryRulesAreEnforced` | TrackX-Backend/src/validations/template.ts:4-20 | Starting from an accepted template, any one of these is rejected: an empty name, no entries, an entry without a name, or an entry without sets. |
| `Validations.TemplateSetRulesAreEnforced` | TrackX-Backend/src/validations/template.ts:12-14 | A template set with fractional reps or zero weight is rejected, and a "Very Easy" set is accepted. |
| `EmailScheduler.Lookup` | TrackX-Backend/src/utility/emailScheduler.ts:12 | The lookup finds nothing iff no pair has the key. Otherwise it finds the value of the first pair with that key. |
| `EmailScheduler.CronTimeWith` | TrackX-Backend/src/utility/emailScheduler.ts:12 | A missing time falls back to 08:00 daily. When a table follows the clock, a known time fires at the hour it names. |
| `EmailScheduler.ClockRoundTrip` | TrackX-Backend/src/models/userSetting.route.ts:14-18 | Every hour of the day written on the twelve-hour clock reads back as that hour. |
| `EmailScheduler.ClockTextIsCanonical` | TrackX-Backend/src/models/userSetting.route.ts:14-18 | Every reading that names an hour is that hour's one spelling. |
| `EmailScheduler.CronTime` | TrackX-Backend/src/utility/emailScheduler.ts:6-13 | The result is one of the three expressions. Every time other than 12:00 PM and 7:00 PM gets 08:00. The three mapped times fire at the hour they name. |
| `EmailScheduler.MappedTimesFollowTheClock` | TrackX-Backend/src/utility/emailScheduler.ts:7-11 | Each pair of the table maps a reading to the daily expression at the hour it names. |
| `EmailScheduler.TwoPmFallsToMorning` | TrackX-Backend/src/utility/emailScheduler.ts:6-13 | "2:00 PM", which the settings record offers and which reads as hour 14, is scheduled at 08:00. |
| `EmailScheduler.CorrectedCronTime` | TrackX-Backend/src/utility/emailScheduler.ts:6-13 | Every time the settings record offers, and every time the original table knew, fires at the hour it names. Anything else gets 08:00. |

## Left out

- Database access: the query filters, the date windows and the sort. Every endpoint takes the
  records its query would return. Where the source sorts newest first (insights, graph), the
  caller supplies that order.
- The clock: `now` is a parameter. The weekly windows computed with `setDate` are part of the
  query and outside the model. The plateau rule's 14-day window is modelled as exactly 14 UTC
  days before `now`; the program's local `setDate` window differs by an hour across a
  daylight-saving change.
- Time zones and daylight saving. A day is the UTC day of the timestamp. The performance summary
  formats local days with `moment`, and the streak walk steps back with local `setDate`; both
  are modelled as UTC days.
- Unit conversion to pounds, `toFixed` rounding, message wording, and the date formatting of the
  graph points. These are presentation only. The numbers before formatting are modelled.
- The PDF progress report, the hourly `cron.schedule` job and the e-mail sending. These are
  I/O with no logic beyond what is modelled.
- Authentication, the CRUD endpoints, and the register, login and settings schemas.
- JavaScript objects list integer-like keys (such as "10") before the other keys. The key
  order here is first appearance for every name.
- `ProgressController.DetectPlateau`: compares set lists by value (weight, reps, difficulty), the
  evidently intended rule. The program serialises stored sets with their ids. So as written it
  fires only when the newest and oldest entries of a name carry the same set ids, as in a
  repeated or template-copied workout, or have no sets. Sets entered by hand never match (see
  Findings). The insights use the value rule.
- Number arithmetic: weights, reps, volumes, percentages and averages are exact reals. The
  program computes with IEEE doubles, whose sums round. Sets of 0.1 and 0.2 at one rep make a
  volume of 0.30000000000000004 there, which reads as more than a previous 0.3. This affects
  `ProgressController.WeeklyProgress`, `ProgressController.WeightChange`,
  `ProgressController.RepsChange`, `ProgressController.SameVolumeReadsAsLess` and
  `Aggregates.AverageReps`.
- `WorkoutController.WorkoutsStats`: counts every name alike. The program counts in a plain
  object. A name that `Object.prototype` already carries ("toString", "constructor",
  "__proto__" and the like) first reads the inherited value, so its count goes wrong or it
  never becomes a key, and the pick can differ. Such names are treated as ordinary names here.
- `WorkoutController.WorkoutPerformance`: the same plain-object count, with the same treatment
  of names that `Object.prototype` carries.
- `UserController.FitnessStats`: the same plain-object count, with the same treatment of names
  that `Object.prototype` carries.
- `EmailScheduler.CronTime`: the table is a plain object. A time that `Object.prototype`
  carries, such as "constructor", "toString" or "__proto__", reads a truthy inherited value that
  the program returns in place of "0 8 * * *". The model gives such times 08:00, as for any
  unknown time. The settings schema's enum keeps such times out of stored settings.
- The exercise count that personal bests computes but never uses.
- Zod's error messages, and bodies of the wrong JSON types. The schemas are predicates over
  well-typed bodies.
- `ProgressController.SuggestionCheck`: scans from the last entry back, where the source
  scans from the first. The result is the same either way.
- `ProgressController.ProgressGraph`: states point i for record i only when every record holds
  the exercise, which the query guarantees. Otherwise it states the error case and the length
  bound.

## Findings

| source | as written | input that shows it | evidently intended | confidence | as-written member | corrected member |
|---|---|---|---|---|---|---|
| TrackX-Backend/src/controller/workout.controller.ts:244 | The streak end is reassigned on every one-day step, so the end shown with the longest streak can belong to a later, shorter streak. | Workouts on days 1, 2, 3, 10 and 11 report 3 days from day 1 to day 11. | The end of the reported longest streak, day 3. | not executed | `WorkoutController.StreakEndOverwritten` | `WorkoutController.CorrectedHistoryStreak` |
| TrackX-Backend/src/controller/progress.controller.ts:134 | The plateau test compares the first and last set lists by their JSON text. Stored sets each carry their own database id, because the set schema (models/workout.model.ts:4-8) does not turn ids off, and the text includes it. So entries whose sets were entered by hand never compare equal. The plateau fires only when the newest and oldest entries of a name carry the same set ids, as in a repeated or template-copied workout, or have no sets. | A squat logged by hand with the same set on day 0 and on day 20, viewed on day 20: no plateau is reported. The same squat repeated from the day-0 record is reported. | The plateau is reported when the sets repeat by weight, reps and difficulty. | not executed | `ProgressController.StoredPlateauNeverFires` | `ProgressController.DetectPlateau` |
| TrackX-Backend/src/utility/emailScheduler.ts:7-12 | The table has no entry for "2:00 PM", one of the three reminder times the settings record offers, so that time falls to the 08:00 default. | A user who picks "2:00 PM" is scheduled with "0 8 * * *". | "0 14 * * *", daily at 14:00. | not executed | `EmailScheduler.TwoPmFallsToMorning` | `EmailScheduler.CorrectedCronTime` |
