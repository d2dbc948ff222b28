/** The add-exercise form: a draft exercise, field edits, and the submit
    gate that hands the draft to the roster only when it has a name. */
module AddForm {
  import opened Wrappers
  import opened Text

  /** The exercise as the form collects it: no id and no completion flag.
      The numeric fields hold whatever `Number(input)` gives. */
  datatype Draft = Draft(name: string, sets: real, reps: real, weight: real, notes: string)

  /** The form's fields, as named by `handleChange`. */
  datatype DraftField = NameField | SetsField | RepsField | WeightField | NotesField

  /** One `handleChange(field, value)` call, value typed by its field. */
  datatype DraftEdit =
    | EditName(name: string)
    | EditSets(sets: real)
    | EditReps(reps: real)
    | EditWeight(weight: real)
    | EditNotes(notes: string)

  /** The state the form opens with: no name, 3 sets of 10, no weight, no notes. */
  const InitialDraft: Draft := Draft("", 3.0, 10.0, 0.0, "")

  function FieldOf(edit: DraftEdit): DraftField {
    match edit
    case EditName(_) => NameField
    case EditSets(_) => SetsField
    case EditReps(_) => RepsField
    case EditWeight(_) => WeightField
    case EditNotes(_) => NotesField
  }

  /** `a` and `b` agree on every field other than `f`. */
  predicate AgreeExcept(a: Draft, b: Draft, f: DraftField) {
    && (f == NameField || a.name == b.name)
    && (f == SetsField || a.sets == b.sets)
    && (f == RepsField || a.reps == b.reps)
    && (f == WeightField || a.weight == b.weight)
    && (f == NotesField || a.notes == b.notes)
  }

  /** `d` holds the value that `edit` writes. */
  predicate Holds(d: Draft, edit: DraftEdit) {
    match edit
    case EditName(v) => d.name == v
    case EditSets(v) => d.sets == v
    case EditReps(v) => d.reps == v
    case EditWeight(v) => d.weight == v
    case EditNotes(v) => d.notes == v
  }

  /** `handleChange`: writes the edited field and keeps every other one. */
  function Change(d: Draft, edit: DraftEdit): (r: Draft)
    ensures AgreeExcept(d, r, FieldOf(edit))
    ensures Holds(r, edit)
  {
    match edit
    case EditName(v) => d.(name := v)
    case EditSets(v) => d.(sets := v)
    case EditReps(v) => d.(reps := v)
    case EditWeight(v) => d.(weight := v)
    case EditNotes(v) => d.(notes := v)
  }

  /** The two properties of `Change` pin its result down completely. */
  lemma ChangeDetermined(d: Draft, edit: DraftEdit, r: Draft)
    requires AgreeExcept(d, r, FieldOf(edit)) && Holds(r, edit)
    ensures r == Change(d, edit)
  {
  }

  /** The submit gate: `formData.name.trim()` is a non-empty string, which
      holds exactly when the name has a character other than whitespace. */
  function CanSubmit(d: Draft): (ok: bool)
    ensures ok <==> exists i :: 0 <= i < |d.name| && !IsJsWhitespace(d.name[i])
  {
    Trim(d.name) != []
  }

  /** The submit button's `disabled` flag: `!formData.name.trim()`. */
  function SubmitDisabled(d: Draft): (disabled: bool)
    ensures disabled <==> Blank(d.name)
  {
    Trim(d.name) == []
  }

  /** What a submit leaves behind: the next form state, and the draft
      passed to `onAdd` if it was called. */
  datatype Submission = Submission(form: Draft, added: Option<Draft>)

  /** `handleSubmit`: a name with a non-whitespace character sends the
      draft as typed (name untrimmed) and resets the form; otherwise
      nothing is sent and the form is left as it was. `handleSubmit`
      checks only the trimmed name. Before it runs, the browser's HTML
      constraint validation of the inputs (`required`, `min`, `step`) can
      also stop the submit; that browser check is not part of this model. */
  function Submit(d: Draft): (r: Submission)
    ensures r.added.Some? <==> exists i :: 0 <= i < |d.name| && !IsJsWhitespace(d.name[i])
    ensures r.added.Some? ==> r.added.value == d && r.form == InitialDraft
    ensures r.added.None? ==> r.form == d
  {
    if CanSubmit(d) then Submission(Draft("", 3.0, 10.0, 0.0, ""), Some(d))
    else Submission(d, None)
  }

  /** The button is disabled exactly when a submit would be rejected. */
  lemma DisabledIffRejected(d: Draft)
    ensures SubmitDisabled(d) <==> Submit(d).added.None?
  {
  }

  /** A freshly opened form cannot be submitted, and submitting it anyway
      changes nothing. */
  lemma InitialDraftRejected()
    ensures SubmitDisabled(InitialDraft)
    ensures Submit(InitialDraft) == Submission(InitialDraft, None)
  {
  }

  /** Whitespace around a name does not block it and is not removed: a
      name that starts or ends with whitespace but has some other
      character is accepted, and the name sent differs from its trim. */
  lemma PaddedNameKept(d: Draft, k: nat)
    requires k < |d.name| && !IsJsWhitespace(d.name[k])
    requires IsJsWhitespace(d.name[0]) || IsJsWhitespace(d.name[|d.name| - 1])
    ensures Submit(d).added == Some(d)
    ensures Submit(d).added.value.name != Trim(d.name)
  {
  }

  /** `" Squat "` is accepted and sent with its spaces. */
  lemma PaddedSquatKept(d: Draft)
    requires d.name == " Squat "
    ensures Submit(d).added == Some(d)
    ensures Submit(d).added.value.name == " Squat "
    ensures Trim(d.name) == "Squat"
  {
    PaddedNameKept(d, 1);
    var a := SkipForward(d.name, 0);
    assert IsJsWhitespace(d.name[0]) && !IsJsWhitespace(d.name[1]);
    assert a == 1;
    assert IsJsWhitespace(d.name[6]) && !IsJsWhitespace(d.name[5]);
    assert SkipBackward(d.name, 1, 7) == 6;
  }
}
