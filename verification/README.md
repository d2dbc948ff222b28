# Workout tracker core in Dafny

This project models the logic of a small personal workout tracker. There are
four rotating workout days, A to D. Each day has a roster of exercises with
sets, reps, weight, notes and a completed flag. When a day is finished it is
archived, its flags are cleared and the next day becomes current. A
progress view groups the archived exercises by name. For every name done at
least twice, it summarises the three most recent performances and the trend
of the weight between the last two.

Modules:

- `Wrappers`: `Option` and `Result`.
- `Calendar`: dates as (year, month, day) triples. `Earlier` is the
  order the progress view gets when it parses the stored `dd/mm/yyyy` date.
- `Text`: JavaScript `String.prototype.trim` over the ECMAScript whitespace
  set. It also holds strict total orders on names, with the code-point
  order as one instance.
- `Rotation`: the day cycle, `indexOf`, and `getNextDay`.
- `AddForm`: the add-exercise form draft, its field edits and its submit gate.
- `Tracker`: the main page's session state and each transition it hands to
  its state setters. This covers add, update, toggle, delete, the completion
  query, completing a workout and selecting a day.
- `History`: archived records and the stable newest-first sort.
- `Progress`: `getExerciseProgress`, meaning grouping, filtering,
  summarising and ordering by name. It also holds the grouping step as
  written (see Findings).

Reading `prev[currentDay]` for a day with no list and then spreading or
mapping it throws a `TypeError`. The model returns `Err(DayMissing(day))` in
that case. The completion query and `getCurrentExercises` fall back to the
empty list (`|| []`), and the model does the same.

## Model

| member | source | states |
|---|---|---|
| Text.Trim | src/components/AddExerciseForm.tsx:33 | `trim()` returns a contiguous slice of the name. Everything it drops is whitespace, the slice neither starts nor ends with whitespace, and it is empty exactly when the name is all whitespace |
| Text.Precedes | src/components/ExerciseProgress.tsx:77 | the code-point order, one instance of a name order and not `localeCompare` itself: `a` comes before `b` exactly when `a` is a proper prefix of `b`, or has the smaller code point where the two first differ |
| Text.PrecedesIrreflexive | src/components/ExerciseProgress.tsx:77 | under the code-point order no name comes before itself |
| Text.PrecedesAsymmetric | src/components/ExerciseProgress.tsx:77 | under the code-point order two names are never each before the other |
| Text.PrecedesTransitive | src/components/ExerciseProgress.tsx:77 | the code-point order is transitive |
| Text.PrecedesTotal | src/components/ExerciseProgress.tsx:77 | the code-point order relates any two distinct names one way or the other |
| Text.PrecedesStrictTotal | src/components/ExerciseProgress.tsx:77 | the code-point order meets the strict-total-order requirement the name sort places on its comparator, so it can stand in for `localeCompare` |
| Text.CapitalsFirst | src/components/ExerciseProgress.tsx:77 | where the code-point order differs from `localeCompare`: it puts "Squat" before "bench", while `localeCompare` lists "bench" first |
| Rotation.IndexOf | src/pages/Index.tsx:127 | `indexOf` gives the first position holding the day, or -1 exactly when the day is absent |
| Rotation.NextIn | src/pages/Index.tsx:127-129 | the next day always lies in the rotation, and a day outside it is followed by the first day |
| Rotation.NextInIsRemainder | src/pages/Index.tsx:128 | the next day is the one at `(index + 1) % length`, the wrap-around written as a remainder |
| Rotation.NextDay | src/pages/Index.tsx:132-136 | `getNextDay` always yields one of A, B, C, D |
| Rotation.NextInStep | src/pages/Index.tsx:127-129 | in a rotation of distinct labels, each label is followed by the next position's label, and the last by the first |
| Rotation.AdvanceFrom | src/pages/Index.tsx:127-129 | after k completed days, starting from position i, the current day is the one at position i + k, wrapped once past the end |
| Rotation.FullCycleReturns | src/pages/Index.tsx:127-129 | advancing once per label in the rotation returns to the starting label |
| Rotation.NextDayTable | src/pages/Index.tsx:132-136 | A goes to B, B to C, C to D and D to A, and any other label goes to A |
| Rotation.FourStepsReturn | src/pages/Index.tsx:111-136 | four completed workouts make the day it started on current again |
| AddForm.Change | src/components/AddExerciseForm.tsx:45-50 | `handleChange` sets the named field to the value and keeps every other field |
| AddForm.ChangeDetermined | src/components/AddExerciseForm.tsx:45-50 | the result of `handleChange` is the only draft that both keeps the other fields and holds the new value |
| AddForm.CanSubmit | src/components/AddExerciseForm.tsx:33 | the gate `formData.name.trim()` is truthy exactly when the name has a character other than whitespace |
| AddForm.SubmitDisabled | src/components/AddExerciseForm.tsx:143 | the submit button is disabled exactly when the name is blank |
| AddForm.Submit | src/components/AddExerciseForm.tsx:31-43 | a draft is handed on, unchanged, exactly when its name has a non-whitespace character, and the form then resets to the defaults. Otherwise nothing is added and the form keeps its contents |
| AddForm.DisabledIffRejected | src/components/AddExerciseForm.tsx:33 | the disabled button and the submit gate are exact negations of each other |
| AddForm.InitialDraftRejected | src/components/AddExerciseForm.tsx:23-29 | the empty initial draft (3 sets, 10 reps, weight 0) cannot be submitted, and submitting it leaves it as it is |
| AddForm.PaddedNameKept | src/components/AddExerciseForm.tsx:33-34 | any name that starts or ends with whitespace but has another character passes the gate, and is handed on as typed, different from its trim |
| AddForm.PaddedSquatKept | src/components/AddExerciseForm.tsx:33-34 | example: `" Squat "` is handed on with its spaces, while its trim is `"Squat"` |
| Tracker.Apply | src/pages/Index.tsx:85 | `{ ...ex, [field]: value }` writes the value into the named field and changes no other field |
| Tracker.FromDraft | src/pages/Index.tsx:67-72 | a new exercise carries the draft's fields, the given id, and is not completed |
| Tracker.CurrentExercises | src/pages/Index.tsx:138 | `getCurrentExercises` is the current day's list, or empty when the day has none |
| Tracker.AddExercise | src/pages/Index.tsx:67-77 | it throws exactly when the current day has no list. Otherwise the list grows by one at the end, the earlier entries are kept, the new entry holds the draft, and the current day, archive and other days are untouched |
| Tracker.UpdateMatching | src/pages/Index.tsx:84-86 | length is kept. Entries whose id matches get the value in the named field only, and all other entries are unchanged |
| Tracker.UpdateExercise | src/pages/Index.tsx:81-88 | it throws exactly when the current day has no list, and otherwise replaces only that list with the updated one |
| Tracker.ToggleMatching | src/pages/Index.tsx:93-95 | entries with the id have `completed` flipped and nothing else changed. Other entries are unchanged, and length is kept |
| Tracker.ToggleExercise | src/pages/Index.tsx:90-97 | it throws exactly when the current day has no list, and otherwise replaces only that list with the toggled one |
| Tracker.RemoveMatching | src/pages/Index.tsx:102 | the result is a subsequence of the list (order kept). No entry with the id remains, and exactly the entries with the id are gone |
| Tracker.DeleteExercise | src/pages/Index.tsx:99-104 | it throws exactly when the current day has no list, and otherwise replaces only that list with the filtered one |
| Tracker.IsWorkoutComplete | src/pages/Index.tsx:106-109 | true exactly when the current day has a non-empty list whose entries are all completed. A missing or empty list gives false |
| Tracker.AllCompleted | src/pages/Index.tsx:108 | `every(ex => ex.completed)` holds exactly when all entries are completed |
| Tracker.ResetAll | src/pages/Index.tsx:123 | the reset list has the same entries with the same fields, and only `completed` is cleared |
| Tracker.CompleteWorkout | src/pages/Index.tsx:111-130 | it throws exactly when the current day has no list. Otherwise it puts one snapshot (current day, today, the list as it was) in front of an unchanged archive, clears only that day's flags, leaves the other days alone, and makes the next day current |
| Tracker.SelectDay | src/pages/Index.tsx:161 | selecting a day makes that day current and changes nothing else. Selecting a workout day keeps the state well formed |
| Tracker.UnknownIdIsNoOp | src/pages/Index.tsx:81-104 | updating, toggling or deleting an id no entry carries leaves the state unchanged |
| Tracker.DeleteIdempotent | src/pages/Index.tsx:99-104 | deleting the same id a second time changes nothing |
| Tracker.AddThenDeleteRestores | src/pages/Index.tsx:67-104 | deleting the id of an exercise just added, when no other entry carries it, restores the state |
| Tracker.ToggleTwice | src/pages/Index.tsx:90-97 | toggling the same id twice is the identity |
| Tracker.ToggleBreaksCompletion | src/pages/Index.tsx:90-109 | on a complete day, un-ticking any exercise makes the day incomplete |
| Tracker.ToggleEach | src/pages/Index.tsx:90-97 | toggling a run of ids in turn throws exactly when the run is non-empty and the day has no list. Otherwise only the day's list changes, and each entry's flag is flipped once for every time its id occurs in the run, with its other fields kept |
| Tracker.TickingEachCompletes | src/pages/Index.tsx:90-109 | on a non-empty day with no ticked entry and no repeated id, toggling each entry's id once, in list order, makes the day complete |
| Tracker.DuplicateIdStaysIncomplete | src/pages/Index.tsx:90-109 | a day holding two entries with the same id, toggled once per entry, stays incomplete, because each toggle flips both |
| Tracker.AddBreaksCompletion | src/pages/Index.tsx:67-109 | adding an exercise to a complete day makes it incomplete |
| Tracker.CompleteSnapshotsFinishedDay | src/pages/Index.tsx:106-124 | completing a complete day archives a non-empty snapshot whose exercises are all completed, and leaves that day's live list incomplete |
| Tracker.WellFormedPreserved | src/pages/Index.tsx:26-33 | the initial state has a list for every workout day and points at one. From such a state no transition throws, and each leads to such a state |
| History.InsertByDate | src/components/ExerciseProgress.tsx:60-64 | inserting a record adds exactly that record to the multiset |
| History.InsertOnDate | src/components/ExerciseProgress.tsx:60-64 | among the records of its own date, the inserted record comes first, and other dates keep their records in order |
| History.InsertKeepsNewestFirst | src/components/ExerciseProgress.tsx:60-64 | inserting into a newest-first sequence keeps it newest first |
| History.SortByDate | src/components/ExerciseProgress.tsx:60-64 | the sorted history is a permutation of the records, newest first |
| History.SortKeepsDateOrder | src/components/ExerciseProgress.tsx:60-64 | the sort is stable: records of the same date keep their order |
| History.StableOrderUnique | src/components/ExerciseProgress.tsx:60-64 | two newest-first sequences with the same records in the same order on each date are equal |
| History.AnyStableSortAgrees | src/components/ExerciseProgress.tsx:60-64 | any stable newest-first order of the records is exactly `SortByDate`, so the model pins down what the stable `sort` returns |
| History.SortedHeadIsNewest | src/components/ExerciseProgress.tsx:60-66 | the first sorted record is no older than any record, and it is the first of its date in archive order |
| History.PrefixNewestFirst | src/components/ExerciseProgress.tsx:72 | a prefix of the sorted history is newest first and drawn from it |
| History.SortTwo | src/components/ExerciseProgress.tsx:60-64 | two records already newest first keep their order |
| Progress.RecordOf | src/components/ExerciseProgress.tsx:45-51 | a pushed record carries the workout's date and day and the exercise's sets, reps and weight |
| Progress.RecordOrigin | src/components/ExerciseProgress.tsx:40-53 | every record under a name comes from an archived exercise with that name, and carries that workout's date and day |
| Progress.RecordPresence | src/components/ExerciseProgress.tsx:40-53 | every archived exercise of a name yields its record under that name |
| Progress.Push | src/components/ExerciseProgress.tsx:42-51 | one push appends the record to its name's list (creating the list if needed) and leaves other names alone |
| Progress.FileWorkout | src/components/ExerciseProgress.tsx:41-52 | after the inner loop, each name's list is extended by that workout's records for it, in exercise order |
| Progress.GroupByName | src/components/ExerciseProgress.tsx:40-53 | after the grouping loop, each name maps to exactly its records in archive order. The key list names each group once, and no group is empty |
| Progress.Classify | src/components/ExerciseProgress.tsx:74 | the trend is up, down or stable exactly when the change is positive, negative or zero |
| Progress.Summarize | src/components/ExerciseProgress.tsx:58-75 | for a name with at least two records, the history is the first min(3, n) sorted records, the change is the newest weight minus the second, and the trend classifies it |
| Progress.SummaryStartsWithNewest | src/components/ExerciseProgress.tsx:60-72 | a summary's history starts with a most recent record (the first of that date in archive order), is newest first, and is drawn from the name's records |
| Progress.InsertByName | src/components/ExerciseProgress.tsx:77 | inserting an entry adds exactly that entry to the multiset |
| Progress.InsertByNameAscending | src/components/ExerciseProgress.tsx:77 | for any strict total order on names, inserting an entry with a new name into a list ordered by it keeps the list ordered |
| Progress.SortByName | src/components/ExerciseProgress.tsx:77 | the result is a permutation of the entries. When the comparator is a strict total order and the names are distinct, it is strictly ordered by name under that comparator |
| Progress.PickRepeated | src/components/ExerciseProgress.tsx:56-57 | it keeps exactly the grouped names with at least two records, each once |
| Progress.SummarizeAll | src/components/ExerciseProgress.tsx:58-76 | it gives one summary per kept name, in the same order |
| Progress.PickedEntries | src/components/ExerciseProgress.tsx:56-76 | the summaries have distinct names. Each summarises a name with at least two records using exactly its records, and every such name has one |
| Progress.SortedEntriesSound | src/components/ExerciseProgress.tsx:77 | sorting by name keeps every summary intact |
| Progress.SortedEntriesComplete | src/components/ExerciseProgress.tsx:77 | sorting by name loses no name |
| Progress.Analyse | src/components/ExerciseProgress.tsx:30-80 | a name appears in the result exactly when it has at least two records, and its entry summarises exactly its records. The entries are in strictly increasing order of names under any strict total order standing for `localeCompare` |
| Progress.PushAsWritten | src/components/ExerciseProgress.tsx:42-51 | a push as written throws exactly when the name is new and is inherited from `Object.prototype`. Otherwise it behaves like `Push` |
| Progress.FileAsWritten | src/components/ExerciseProgress.tsx:41-52 | the inner loop as written succeeds exactly when the workout has no exercise with an inherited name, and then files like `FileWorkout` |
| Progress.GroupFromAsWritten | src/components/ExerciseProgress.tsx:40-53 | the outer loop as written succeeds exactly when no remaining workout has an exercise with an inherited name, and then appends each name's records |
| Progress.GroupAsWritten | src/components/ExerciseProgress.tsx:40-53 | the grouping as written throws exactly when some archived exercise has an inherited name, and otherwise agrees with `GroupByName` |
| Progress.InheritedNameBreaksGrouping | src/components/ExerciseProgress.tsx:42-45 | one archived exercise named "toString" makes the grouping as written throw |
| Progress.ExampleRecords | src/components/ExerciseProgress.tsx:40-53 | in a two-workout archive, Squat gets its two records newest workout first, and Bench gets one |
| Progress.SquatExample | src/components/ExerciseProgress.tsx:56-75 | Squat at 60 then 70 is summarised as starting at 70, up by 10. Bench, done once, is not picked |

## Left out

- Loading and saving through `localStorage` with `JSON.parse`/`JSON.stringify` is browser I/O and is not modelled. The code does not fall back to defaults on malformed stored data, and the model claims no such fallback.
- The exercise id comes from `Date.now()`, a clock read. The model takes it as a parameter and does not claim ids are unique. `Tracker.AddThenDeleteRestores` assumes the id is fresh in the day's list, and `Tracker.TickingEachCompletes` assumes the day has no repeated id.
- The completion date comes from `new Date().toLocaleDateString('pt-BR')`, another clock read. It is a parameter `today`, already given as a date triple.
- Dates are (year, month, day) triples, not strings. Splitting the `dd/mm/yyyy` string, `new Date(...)` and `getTime()` are replaced by the lexicographic order on triples, which is what they compute for well-formed dates.
- `localeCompare` depends on the locale. The name sort and `Progress.Analyse` take the order as a parameter: any strict total order on names (`Text.StrictTotal`). The model does not say which one the locale gives. Names a locale ranks as equal, such as canonically equivalent Unicode spellings, are not modelled. `Text.Precedes`, the code-point order, is one such order, but it is not the browser's: `Text.CapitalsFirst` shows where they differ.
- Weight arithmetic uses exact reals, not IEEE doubles, so rounding in `latest.weight - previous.weight` is not modelled. The `formatWeightDiff` display string is left out.
- JSX rendering, icons, trend colours and the dialog's open/close state are presentation only.
- The `currentExercises` prop of the progress view is never used by the code, so it is not modelled.
- `sets`, `reps` and `weight` are reals, like the JavaScript numbers they stand for. Any real, including a fractional or negative one, can be stored. Each field holds a value of its own type. The source's `value: any` in `updateExercise` can put a value of the wrong type into a field, and that is not modelled.
- `Object.entries` lists integer-like keys first. This ordering is not modelled, because the final sort by name decides the order and the names are distinct.
- Progress.SortByName: order is stated only for distinct names and a comparator that is a strict total order. Every call passes map keys, which are distinct, and `Progress.Analyse` requires such a comparator.
- A day label that is an inherited `Object.prototype` name is treated as a missing day. That cannot arise from the four workout days or the day selector.
- The model follows the code as written:
  - `handleSubmit` checks only the trimmed name. The inputs' HTML constraint validation (`required`, `min`, `step`) also gates submission in the browser, and that check is not modelled. No bounds are checked on the update path, where the exercise card writes `Number(input)` outside any form;
  - `completeWorkout` does not check that the day is complete (only the UI gates it);
  - loading does not fail soft;
  - ids are not guaranteed unique.

## Findings

| source | as written | input that shows it | evidently intended | confidence | as-written member | corrected member |
|---|---|---|---|---|---|---|
| src/components/ExerciseProgress.tsx:42-45 | `if (!exerciseMap[name]) exerciseMap[name] = []` on a `{}` object literal, then `exerciseMap[name].push(...)` | an archived exercise named "toString" (or "constructor", "valueOf", ...): the lookup finds the inherited function, so no list is created, and `.push` throws a `TypeError` that stops the progress view | every name gets its own list, as for any other name (an own-property check or a prototype-free map) | high, not executed | Progress.GroupAsWritten, Progress.InheritedNameBreaksGrouping | Progress.GroupByName |
