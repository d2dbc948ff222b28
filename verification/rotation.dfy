/** The fixed rotation of workout days and the "next day" lookup. */
module Rotation {

  /** The four rotating workout days, in order. */
  const WorkoutDays: seq<string> := ["A", "B", "C", "D"]

  /** No string occurs twice in `labels`: day labels here, exercise names
      in the progress view. */
  predicate Distinct(labels: seq<string>) {
    forall i, j :: 0 <= i < j < |labels| ==> labels[i] != labels[j]
  }

  /** `Array.prototype.indexOf`: the first position holding `d`, or -1. */
  function IndexOf(days: seq<string>, d: string): (i: int)
    ensures -1 <= i < |days|
    ensures i == -1 <==> d !in days
    ensures 0 <= i ==> days[i] == d
    ensures 0 <= i ==> forall j :: 0 <= j < i ==> days[j] != d
  {
    if days == [] then -1
    else if days[0] == d then 0
    else
      var k := IndexOf(days[1..], d);
      if k < 0 then -1 else k + 1
  }

  /** The day after `d` in the cyclic sequence `days`; a label that is not
      in `days` has index -1, so it is followed by the first day. The
      source computes the position as `(index + 1) % length`;
      `NextInIsRemainder` shows the two agree. */
  function NextIn(days: seq<string>, d: string): (r: string)
    requires |days| > 0
    ensures r in days
    ensures d !in days ==> r == days[0]
  {
    var k := IndexOf(days, d) + 1;
    if k < |days| then days[k] else days[0]
  }

  /** The wrap-around written as a remainder, as the source does. The left
      operand of `%` is never negative, so JavaScript's truncating
      remainder and Dafny's Euclidean one agree here. */
  lemma NextInIsRemainder(days: seq<string>, d: string)
    requires |days| > 0
    ensures NextIn(days, d) == days[(IndexOf(days, d) + 1) % |days|]
  {
    var k := IndexOf(days, d) + 1;
    if k < |days| {
      ModUnique(k, |days|, 0, k);
    } else {
      ModUnique(k, |days|, 1, 0);
    }
  }

  /** `getNextDay` over the four workout days. */
  function NextDay(d: string): (r: string)
    ensures r in WorkoutDays
  {
    NextIn(WorkoutDays, d)
  }

  /** `k` applications of `NextIn`, starting from `d`. */
  function Advance(days: seq<string>, d: string, k: nat): string
    requires |days| > 0
    decreases k
  {
    if k == 0 then d else Advance(days, NextIn(days, d), k - 1)
  }

  /** In a sequence of distinct labels, the label at position `i` is
      followed by the one at position `i + 1`, or by the first label when
      `i` is the last position. */
  lemma NextInStep(days: seq<string>, i: int)
    requires Distinct(days) && 0 <= i < |days|
    ensures NextIn(days, days[i]) == if i + 1 < |days| then days[i + 1] else days[0]
  {
    assert IndexOf(days, days[i]) == i;
  }

  /** Euclidean remainder is determined by any quotient/remainder split. */
  lemma ModUnique(y: int, n: int, q: int, r: int)
    requires n > 0 && 0 <= r < n && y == q * n + r
    ensures y % n == r
  {
    var q', r' := y / n, y % n;
    assert (q - q') * n == r' - r;
    if q - q' >= 1 {
      assert false;
    } else if q - q' <= -1 {
      assert false;
    }
  }

  /** In a sequence of distinct labels, advancing `k` days from position
      `i` lands `k` positions further on, wrapping around at most once. */
  lemma {:induction false} AdvanceFrom(days: seq<string>, i: nat, k: nat)
    requires Distinct(days) && i < |days| && k <= |days|
    ensures Advance(days, days[i], k) == if i + k < |days| then days[i + k] else days[i + k - |days|]
    decreases k
  {
    if k > 0 {
      var n := |days|;
      var j := if i + 1 < n then i + 1 else 0;
      NextInStep(days, i);
      assert NextIn(days, days[i]) == days[j];
      AdvanceFrom(days, j, k - 1);
      assert j + (k - 1) == if i + 1 < n then i + k else i + k - n;
    }
  }

  /** The rotation is a cycle: advancing once per day in the sequence
      returns to the starting day. */
  lemma FullCycleReturns(days: seq<string>, d: string)
    requires Distinct(days) && d in days
    ensures Advance(days, d, |days|) == d
  {
    AdvanceFrom(days, IndexOf(days, d), |days|);
  }

  /** A -> B -> C -> D -> A; any other label is followed by A. */
  lemma NextDayTable(d: string)
    ensures NextDay("A") == "B" && NextDay("B") == "C"
    ensures NextDay("C") == "D" && NextDay("D") == "A"
    ensures d !in WorkoutDays ==> NextDay(d) == "A"
  {
    assert Distinct(WorkoutDays);
    NextInStep(WorkoutDays, 0);
    NextInStep(WorkoutDays, 1);
    NextInStep(WorkoutDays, 2);
    NextInStep(WorkoutDays, 3);
  }

  /** Four completed workouts make the same day current again. */
  lemma FourStepsReturn(d: string)
    requires d in WorkoutDays
    ensures NextDay(NextDay(NextDay(NextDay(d)))) == d
  {
    assert Distinct(WorkoutDays);
    FullCycleReturns(WorkoutDays, d);
    assert Advance(WorkoutDays, d, 4) == NextDay(NextDay(NextDay(NextDay(d))));
  }
}
