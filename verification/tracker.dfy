/** The workout session: the roster of exercises per day, the current-day
    marker and the archive of completed workouts, with the transitions the
    main page applies to them. Each transition is the pure function that
    the page passes to its state setter. */
module Tracker {
  import opened Wrappers
  import opened Calendar
  import opened Rotation
  import AddForm

  /** `sets`, `reps` and `weight` are JavaScript numbers. The exercise card
      writes `Number(input)` into them through `updateExercise`, outside any
      form, so fractional or negative values can reach the roster and from
      there the archive. */
  datatype Exercise = Exercise(
    id: int, name: string, sets: real, reps: real, weight: real, completed: bool, notes: string)

  /** A snapshot of one day's exercises taken when the workout was finished. */
  datatype CompletedWorkout = CompletedWorkout(day: string, date: Date, exercises: seq<Exercise>)

  /** Day label to that day's exercises, in display order. */
  type Roster = map<string, seq<Exercise>>

  /** The archive is newest first. */
  datatype Session = Session(currentDay: string, roster: Roster, archive: seq<CompletedWorkout>)

  /** The current day has no entry in the roster: reading it yields
      `undefined`, and spreading or mapping that throws a TypeError. */
  datatype Failure = DayMissing(day: string)

  /** The state the page starts from before anything is restored. */
  const InitialSession: Session :=
    Session("A", map["A" := [], "B" := [], "C" := [], "D" := []], [])

  /** Every workout day has a list and the current day is a workout day. */
  predicate WellFormed(s: Session) {
    && s.currentDay in WorkoutDays
    && forall d :: d in WorkoutDays ==> d in s.roster
  }

  /** The keys of `Exercise`, each of which `updateExercise` can be given. */
  datatype Field = IdField | NameField | SetsField | RepsField | WeightField | CompletedField | NotesField

  /** One `updateExercise(id, field, value)` request, value typed by its field. */
  datatype Update =
    | SetId(id: int)
    | SetName(name: string)
    | SetSets(sets: real)
    | SetReps(reps: real)
    | SetWeight(weight: real)
    | SetCompleted(completed: bool)
    | SetNotes(notes: string)

  function FieldOf(u: Update): Field {
    match u
    case SetId(_) => IdField
    case SetName(_) => NameField
    case SetSets(_) => SetsField
    case SetReps(_) => RepsField
    case SetWeight(_) => WeightField
    case SetCompleted(_) => CompletedField
    case SetNotes(_) => NotesField
  }

  /** `a` and `b` agree on every field other than `f`. */
  predicate AgreeExcept(a: Exercise, b: Exercise, f: Field) {
    && (f == IdField || a.id == b.id)
    && (f == NameField || a.name == b.name)
    && (f == SetsField || a.sets == b.sets)
    && (f == RepsField || a.reps == b.reps)
    && (f == WeightField || a.weight == b.weight)
    && (f == CompletedField || a.completed == b.completed)
    && (f == NotesField || a.notes == b.notes)
  }

  /** `e` holds the value that `u` writes. */
  predicate Holds(e: Exercise, u: Update) {
    match u
    case SetId(v) => e.id == v
    case SetName(v) => e.name == v
    case SetSets(v) => e.sets == v
    case SetReps(v) => e.reps == v
    case SetWeight(v) => e.weight == v
    case SetCompleted(v) => e.completed == v
    case SetNotes(v) => e.notes == v
  }

  /** `{ ...ex, [field]: value }`. */
  function Apply(e: Exercise, u: Update): (r: Exercise)
    ensures AgreeExcept(e, r, FieldOf(u)) && Holds(r, u)
  {
    match u
    case SetId(v) => e.(id := v)
    case SetName(v) => e.(name := v)
    case SetSets(v) => e.(sets := v)
    case SetReps(v) => e.(reps := v)
    case SetWeight(v) => e.(weight := v)
    case SetCompleted(v) => e.(completed := v)
    case SetNotes(v) => e.(notes := v)
  }

  /** The form fields an exercise was created from. */
  function DraftOf(e: Exercise): AddForm.Draft {
    AddForm.Draft(e.name, e.sets, e.reps, e.weight, e.notes)
  }

  /** The exercise built from a submitted draft: the draft's fields, the
      given id, not completed. */
  function FromDraft(d: AddForm.Draft, id: int): (e: Exercise)
    ensures DraftOf(e) == d && e.id == id && !e.completed
  {
    Exercise(id, d.name, d.sets, d.reps, d.weight, false, d.notes)
  }

  /** `getCurrentExercises`: the current day's list, or the empty list when
      the roster has none. */
  function CurrentExercises(s: Session): (r: seq<Exercise>)
    ensures s.currentDay in s.roster ==> r == s.roster[s.currentDay]
    ensures s.currentDay !in s.roster ==> r == []
  {
    if s.currentDay in s.roster then s.roster[s.currentDay] else []
  }

  /** `b` differs from `a` at most in the list of `day`. */
  predicate OnlyDayChanged(a: Roster, b: Roster, day: string) {
    && a.Keys == b.Keys
    && forall d :: d in a && d != day ==> b[d] == a[d]
  }

  /** `t` is `s` with the current day's list replaced by `list`: same
      current day, same archive, every other day untouched. */
  predicate ReplacesCurrent(s: Session, t: Session, list: seq<Exercise>) {
    && t.currentDay == s.currentDay
    && t.archive == s.archive
    && s.currentDay in t.roster
    && t.roster[s.currentDay] == list
    && OnlyDayChanged(s.roster, t.roster, s.currentDay)
  }

  /** The roster with the current day's list replaced. */
  function WithCurrent(s: Session, list: seq<Exercise>): Session {
    s.(roster := s.roster[s.currentDay := list])
  }

  /** `addExercise`: appends one new, not completed exercise carrying the
      draft's fields to the end of the current day's list. */
  function AddExercise(s: Session, d: AddForm.Draft, id: int): (r: Result<Session, Failure>)
    ensures r.Err? <==> s.currentDay !in s.roster
    ensures r.Err? ==> r.error == DayMissing(s.currentDay)
    ensures r.Ok? ==> exists list :: ReplacesCurrent(s, r.value, list)
    ensures r.Ok? ==>
      var before := s.roster[s.currentDay];
      var after := r.value.roster[s.currentDay];
      && |after| == |before| + 1
      && after[..|before|] == before
      && DraftOf(after[|before|]) == d && after[|before|].id == id && !after[|before|].completed
  {
    if s.currentDay !in s.roster then Err(DayMissing(s.currentDay))
    else
      var list := s.roster[s.currentDay] + [FromDraft(d, id)];
      assert ReplacesCurrent(s, WithCurrent(s, list), list);
      Ok(WithCurrent(s, list))
  }

  /** The `map` callback of `updateExercise` over one list: entries whose
      id matches get the new value in the named field; all else stays. */
  function UpdateMatching(list: seq<Exercise>, id: int, u: Update): (r: seq<Exercise>)
    ensures |r| == |list|
    ensures forall i :: 0 <= i < |list| && list[i].id == id ==>
      AgreeExcept(list[i], r[i], FieldOf(u)) && Holds(r[i], u)
    ensures forall i :: 0 <= i < |list| && list[i].id != id ==> r[i] == list[i]
  {
    if list == [] then []
    else [if list[0].id == id then Apply(list[0], u) else list[0]] + UpdateMatching(list[1..], id, u)
  }

  /** `updateExercise` on the current day; no range check is applied to
      the value. */
  function UpdateExercise(s: Session, id: int, u: Update): (r: Result<Session, Failure>)
    ensures r.Err? <==> s.currentDay !in s.roster
    ensures r.Err? ==> r.error == DayMissing(s.currentDay)
    ensures r.Ok? ==> ReplacesCurrent(s, r.value, UpdateMatching(s.roster[s.currentDay], id, u))
  {
    if s.currentDay !in s.roster then Err(DayMissing(s.currentDay))
    else Ok(WithCurrent(s, UpdateMatching(s.roster[s.currentDay], id, u)))
  }

  /** The `map` callback of `toggleExerciseComplete` over one list: entries
      whose id matches have `completed` flipped and nothing else changed. */
  function ToggleMatching(list: seq<Exercise>, id: int): (r: seq<Exercise>)
    ensures |r| == |list|
    ensures forall i :: 0 <= i < |list| && list[i].id == id ==>
      AgreeExcept(list[i], r[i], CompletedField) && r[i].completed == !list[i].completed
    ensures forall i :: 0 <= i < |list| && list[i].id != id ==> r[i] == list[i]
  {
    if list == [] then []
    else
      var head := if list[0].id == id then list[0].(completed := !list[0].completed) else list[0];
      [head] + ToggleMatching(list[1..], id)
  }

  /** `toggleExerciseComplete` on the current day. */
  function ToggleExercise(s: Session, id: int): (r: Result<Session, Failure>)
    ensures r.Err? <==> s.currentDay !in s.roster
    ensures r.Err? ==> r.error == DayMissing(s.currentDay)
    ensures r.Ok? ==> ReplacesCurrent(s, r.value, ToggleMatching(s.roster[s.currentDay], id))
  {
    if s.currentDay !in s.roster then Err(DayMissing(s.currentDay))
    else Ok(WithCurrent(s, ToggleMatching(s.roster[s.currentDay], id)))
  }

  /** `a` can be obtained from `b` by dropping elements. */
  predicate IsSubsequence<T(==)>(a: seq<T>, b: seq<T>)
    decreases |b|
  {
    if a == [] then true
    else if b == [] then false
    else if a[0] == b[0] then IsSubsequence(a[1..], b[1..])
    else IsSubsequence(a, b[1..])
  }

  /** How many entries of `list` carry `id`. */
  function CountId(list: seq<Exercise>, id: int): nat {
    if list == [] then 0 else (if list[0].id == id then 1 else 0) + CountId(list[1..], id)
  }

  /** The `filter` callback of `deleteExercise` over one list: every entry
      with the id goes, the others stay in their order. */
  function RemoveMatching(list: seq<Exercise>, id: int): (r: seq<Exercise>)
    ensures IsSubsequence(r, list)
    ensures |r| == |list| - CountId(list, id)
    ensures forall i :: 0 <= i < |r| ==> r[i].id != id
  {
    if list == [] then []
    else if list[0].id == id then RemoveMatching(list[1..], id)
    else [list[0]] + RemoveMatching(list[1..], id)
  }

  /** `deleteExercise` on the current day. */
  function DeleteExercise(s: Session, id: int): (r: Result<Session, Failure>)
    ensures r.Err? <==> s.currentDay !in s.roster
    ensures r.Err? ==> r.error == DayMissing(s.currentDay)
    ensures r.Ok? ==> ReplacesCurrent(s, r.value, RemoveMatching(s.roster[s.currentDay], id))
  {
    if s.currentDay !in s.roster then Err(DayMissing(s.currentDay))
    else Ok(WithCurrent(s, RemoveMatching(s.roster[s.currentDay], id)))
  }

  /** `isWorkoutComplete`: the current day has exercises and all are
      completed; a day with no list counts as empty. */
  function IsWorkoutComplete(s: Session): (r: bool)
    ensures r <==>
      && s.currentDay in s.roster
      && |s.roster[s.currentDay]| > 0
      && forall i :: 0 <= i < |s.roster[s.currentDay]| ==> s.roster[s.currentDay][i].completed
  {
    var list := CurrentExercises(s);
    |list| > 0 && AllCompleted(list)
  }

  /** `Array.prototype.every(ex => ex.completed)`. */
  function AllCompleted(list: seq<Exercise>): (r: bool)
    ensures r <==> forall i :: 0 <= i < |list| ==> list[i].completed
  {
    if list == [] then true else list[0].completed && AllCompleted(list[1..])
  }

  /** `b` is `a` with every `completed` flag cleared and nothing else changed. */
  predicate ResetCopy(a: seq<Exercise>, b: seq<Exercise>) {
    && |b| == |a|
    && forall i :: 0 <= i < |a| ==> AgreeExcept(a[i], b[i], CompletedField) && !b[i].completed
  }

  /** The reset step of `completeWorkout` over one list. */
  function ResetAll(list: seq<Exercise>): (r: seq<Exercise>)
    ensures ResetCopy(list, r)
  {
    if list == [] then [] else [list[0].(completed := false)] + ResetAll(list[1..])
  }

  /** `completeWorkout`: archives a snapshot of the current day's list at
      the front, clears the day's completion flags, and moves the current day on
      to the next day. The page only offers it when `isWorkoutComplete`
      holds, but the transition itself does not check. */
  function CompleteWorkout(s: Session, today: Date): (r: Result<Session, Failure>)
    ensures r.Err? <==> s.currentDay !in s.roster
    ensures r.Err? ==> r.error == DayMissing(s.currentDay)
    ensures r.Ok? ==> |r.value.archive| == |s.archive| + 1 && r.value.archive[1..] == s.archive
    ensures r.Ok? ==>
      r.value.archive[0] == CompletedWorkout(s.currentDay, today, s.roster[s.currentDay])
    ensures r.Ok? ==> r.value.currentDay == NextDay(s.currentDay)
    ensures r.Ok? ==> OnlyDayChanged(s.roster, r.value.roster, s.currentDay)
    ensures r.Ok? ==> ResetCopy(s.roster[s.currentDay], r.value.roster[s.currentDay])
  {
    if s.currentDay !in s.roster then Err(DayMissing(s.currentDay))
    else
      var list := s.roster[s.currentDay];
      var snapshot := CompletedWorkout(s.currentDay, today, list);
      Ok(Session(NextDay(s.currentDay), s.roster[s.currentDay := ResetAll(list)], [snapshot] + s.archive))
  }

  /** The day selector's `setCurrentDay(day)`. */
  function SelectDay(s: Session, d: string): (r: Session)
    ensures r.currentDay == d
    ensures r.roster == s.roster && r.archive == s.archive
    ensures WellFormed(s) && d in WorkoutDays ==> WellFormed(r)
  {
    s.(currentDay := d)
  }

  /** Updating or deleting an id that no entry carries changes nothing. */
  lemma UnknownIdIsNoOp(s: Session, id: int, u: Update)
    requires s.currentDay in s.roster
    requires forall i :: 0 <= i < |s.roster[s.currentDay]| ==> s.roster[s.currentDay][i].id != id
    ensures UpdateExercise(s, id, u) == Ok(s)
    ensures DeleteExercise(s, id) == Ok(s)
    ensures ToggleExercise(s, id) == Ok(s)
  {
    var list := s.roster[s.currentDay];
    assert UpdateMatching(list, id, u) == list;
    assert ToggleMatching(list, id) == list;
    RemoveNothing(list, id);
    assert s.roster[s.currentDay := list] == s.roster;
  }

  lemma {:induction false} RemoveNothing(list: seq<Exercise>, id: int)
    requires forall i :: 0 <= i < |list| ==> list[i].id != id
    ensures RemoveMatching(list, id) == list
  {
    if list != [] {
      RemoveNothing(list[1..], id);
    }
  }

  /** Deleting an id twice is the same as deleting it once. */
  lemma DeleteIdempotent(s: Session, id: int)
    requires s.currentDay in s.roster
    ensures DeleteExercise(s, id).Ok?
    ensures DeleteExercise(DeleteExercise(s, id).value, id) == DeleteExercise(s, id)
  {
    var t := DeleteExercise(s, id).value;
    RemoveNothing(t.roster[s.currentDay], id);
    assert t.roster[s.currentDay := t.roster[s.currentDay]] == t.roster;
  }

  /** Deleting the id of an exercise just added, when no other entry
      carries that id, undoes the addition. */
  lemma AddThenDeleteRestores(s: Session, d: AddForm.Draft, id: int)
    requires s.currentDay in s.roster
    requires forall i :: 0 <= i < |s.roster[s.currentDay]| ==> s.roster[s.currentDay][i].id != id
    ensures AddExercise(s, d, id).Ok?
    ensures DeleteExercise(AddExercise(s, d, id).value, id) == Ok(s)
  {
    var list := s.roster[s.currentDay];
    RemoveLast(list, FromDraft(d, id), id);
    assert s.roster[s.currentDay := list + [FromDraft(d, id)]][s.currentDay := list] == s.roster;
  }

  lemma {:induction false} RemoveLast(list: seq<Exercise>, e: Exercise, id: int)
    requires forall i :: 0 <= i < |list| ==> list[i].id != id
    requires e.id == id
    ensures RemoveMatching(list + [e], id) == list
  {
    if list == [] {
      assert [e][1..] == [];
    } else {
      RemoveLast(list[1..], e, id);
      assert (list + [e])[1..] == list[1..] + [e];
      assert list == [list[0]] + list[1..];
    }
  }

  /** Toggling the same id twice restores the list. */
  lemma ToggleTwice(s: Session, id: int)
    requires s.currentDay in s.roster
    ensures ToggleExercise(s, id).Ok?
    ensures ToggleExercise(ToggleExercise(s, id).value, id) == Ok(s)
  {
    var list := s.roster[s.currentDay];
    var once := ToggleMatching(list, id);
    var twice := ToggleMatching(once, id);
    assert twice == list;
    assert s.roster[s.currentDay := once][s.currentDay := twice] == s.roster;
  }

  /** On a complete day, un-ticking any one exercise makes it incomplete. */
  lemma ToggleBreaksCompletion(s: Session, k: int)
    requires IsWorkoutComplete(s)
    requires 0 <= k < |s.roster[s.currentDay]|
    ensures !IsWorkoutComplete(ToggleExercise(s, s.roster[s.currentDay][k].id).value)
  {
    var t := ToggleExercise(s, s.roster[s.currentDay][k].id).value;
    assert !t.roster[t.currentDay][k].completed;
  }

  /** The ids of `list`, in order. */
  function Ids(list: seq<Exercise>): (r: seq<int>)
    ensures |r| == |list|
    ensures forall i :: 0 <= i < |list| ==> r[i] == list[i].id
  {
    if list == [] then [] else [list[0].id] + Ids(list[1..])
  }

  /** No two entries of `list` share an id. */
  predicate DistinctIds(list: seq<Exercise>) {
    forall i, j :: 0 <= i < j < |list| ==> list[i].id != list[j].id
  }

  /** `x` occurs an odd number of times in `ids`. */
  predicate OddTimes(ids: seq<int>, x: int) {
    multiset(ids)[x] % 2 == 1
  }

  /** `t` is `list` with the flag of every entry flipped once for each
      occurrence of its id in `ids`, and every other field kept. */
  predicate FlippedBy(list: seq<Exercise>, t: seq<Exercise>, ids: seq<int>) {
    && |t| == |list|
    && forall i :: 0 <= i < |list| ==>
      && AgreeExcept(list[i], t[i], CompletedField)
      && (t[i].completed <==> (list[i].completed != OddTimes(ids, list[i].id)))
  }

  /** `toggleExerciseComplete` called once for each id of `ids`, in order. */
  function ToggleEach(s: Session, ids: seq<int>): (r: Result<Session, Failure>)
    ensures r.Err? <==> ids != [] && s.currentDay !in s.roster
    ensures r.Ok? && s.currentDay in s.roster ==>
      && s.currentDay in r.value.roster
      && ReplacesCurrent(s, r.value, r.value.roster[s.currentDay])
      && FlippedBy(s.roster[s.currentDay], r.value.roster[s.currentDay], ids)
    decreases |ids|
  {
    if ids == [] then Ok(s)
    else
      match ToggleExercise(s, ids[0])
      case Err(f) => Err(f)
      case Ok(t) =>
        var r := ToggleEach(t, ids[1..]);
        if r.Ok? then
          FlipCompose(s.roster[s.currentDay], t.roster[s.currentDay], r.value.roster[s.currentDay], ids);
          r
        else r
  }

  /** Flipping by the first id and then by the rest flips by all of them. */
  lemma FlipCompose(list: seq<Exercise>, mid: seq<Exercise>, t: seq<Exercise>, ids: seq<int>)
    requires ids != [] && mid == ToggleMatching(list, ids[0])
    requires FlippedBy(mid, t, ids[1..])
    ensures FlippedBy(list, t, ids)
  {
    forall i | 0 <= i < |list|
      ensures t[i].completed <==> (list[i].completed != OddTimes(ids, list[i].id))
    {
      OddTimesCons(ids, list[i].id);
    }
  }

  /** One more occurrence at the front flips the parity. */
  lemma OddTimesCons(ids: seq<int>, x: int)
    requires ids != []
    ensures OddTimes(ids, x) <==> (OddTimes(ids[1..], x) != (ids[0] == x))
  {
    assert ids == [ids[0]] + ids[1..];
    assert multiset(ids)[x] == multiset(ids[1..])[x] + (if ids[0] == x then 1 else 0);
  }

  /** Each id of a list without repeated ids occurs once among its ids. */
  lemma {:induction false} IdsOnce(list: seq<Exercise>, i: int)
    requires DistinctIds(list) && 0 <= i < |list|
    ensures multiset(Ids(list))[list[i].id] == 1
  {
    assert Ids(list) == [list[0].id] + Ids(list[1..]);
    if i == 0 {
      assert list[0].id !in Ids(list[1..]);
    } else {
      IdsOnce(list[1..], i - 1);
    }
  }

  /** Ticking every exercise of an unticked day once, in list order,
      completes the day, provided no two entries share an id. That proviso
      is real: ids come from `Date.now()` and can repeat, and
      `DuplicateIdStaysIncomplete` shows a day it breaks. */
  lemma TickingEachCompletes(s: Session)
    requires s.currentDay in s.roster && |s.roster[s.currentDay]| > 0
    requires DistinctIds(s.roster[s.currentDay])
    requires forall i :: 0 <= i < |s.roster[s.currentDay]| ==> !s.roster[s.currentDay][i].completed
    ensures ToggleEach(s, Ids(s.roster[s.currentDay])).Ok?
    ensures IsWorkoutComplete(ToggleEach(s, Ids(s.roster[s.currentDay])).value)
  {
    var list := s.roster[s.currentDay];
    forall i | 0 <= i < |list| ensures OddTimes(Ids(list), list[i].id) {
      IdsOnce(list, i);
    }
  }

  /** A day holding one exercise twice under the same id: toggling once per
      entry flips both entries twice, and the day stays incomplete. */
  lemma DuplicateIdStaysIncomplete(s: Session, e: Exercise)
    requires s.currentDay in s.roster && s.roster[s.currentDay] == [e, e]
    requires !e.completed
    ensures Ids(s.roster[s.currentDay]) == [e.id, e.id]
    ensures ToggleEach(s, Ids(s.roster[s.currentDay])).Ok?
    ensures !IsWorkoutComplete(ToggleEach(s, Ids(s.roster[s.currentDay])).value)
  {
    assert multiset([e.id, e.id])[e.id] == 2;
  }

  /** Adding an exercise to a complete day makes it incomplete. */
  lemma AddBreaksCompletion(s: Session, d: AddForm.Draft, id: int)
    requires IsWorkoutComplete(s)
    ensures !IsWorkoutComplete(AddExercise(s, d, id).value)
  {
    var t := AddExercise(s, d, id).value;
    assert !t.roster[t.currentDay][|s.roster[s.currentDay]|].completed;
  }

  /** Completing a complete day archives only completed exercises, and the
      live list that remains has none completed. */
  lemma CompleteSnapshotsFinishedDay(s: Session, today: Date)
    requires IsWorkoutComplete(s)
    ensures CompleteWorkout(s, today).Ok?
    ensures var t := CompleteWorkout(s, today).value;
      && |t.archive[0].exercises| > 0
      && (forall i :: 0 <= i < |t.archive[0].exercises| ==> t.archive[0].exercises[i].completed)
      && (s.currentDay in t.roster && !IsWorkoutComplete(t.(currentDay := s.currentDay)))
  {
    var t := CompleteWorkout(s, today).value;
    assert !t.roster[s.currentDay][0].completed;
  }

  /** From a well-formed state no transition throws, and each leads to a
      well-formed state. The initial state is well-formed. */
  lemma WellFormedPreserved(s: Session, d: AddForm.Draft, id: int, u: Update, today: Date)
    requires WellFormed(s)
    ensures WellFormed(InitialSession)
    ensures AddExercise(s, d, id).Ok? && WellFormed(AddExercise(s, d, id).value)
    ensures UpdateExercise(s, id, u).Ok? && WellFormed(UpdateExercise(s, id, u).value)
    ensures ToggleExercise(s, id).Ok? && WellFormed(ToggleExercise(s, id).value)
    ensures DeleteExercise(s, id).Ok? && WellFormed(DeleteExercise(s, id).value)
    ensures CompleteWorkout(s, today).Ok? && WellFormed(CompleteWorkout(s, today).value)
  {
  }
}
