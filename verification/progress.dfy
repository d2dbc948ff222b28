/** The progress view: archived exercises grouped by name, each name seen
    at least twice summarised by its three most recent performances and the
    weight change between the last two, the summaries listed by name. */
module Progress {
  import opened Wrappers
  import opened Calendar
  import opened Text
  import opened Tracker
  import opened History
  import opened Rotation

  datatype Trend = Up | Down | Stable

  /** One line of the progress view. */
  datatype ProgressEntry = ProgressEntry(name: string, history: seq<Record>, weightDiff: real, trend: Trend)

  /** The record an archived exercise contributes: its load, and the date
      and day of the workout it belongs to. */
  function RecordOf(w: CompletedWorkout, e: Exercise): (r: Record)
    ensures r.date == w.date && r.day == w.day
    ensures r.sets == e.sets && r.reps == e.reps && r.weight == e.weight
  {
    Record(w.date, e.sets, e.reps, e.weight, w.day)
  }

  /** The records that the exercises `exs` of workout `w` file under `name`. */
  function Collect(w: CompletedWorkout, exs: seq<Exercise>, name: string): seq<Record> {
    if exs == [] then []
    else (if exs[0].name == name then [RecordOf(w, exs[0])] else []) + Collect(w, exs[1..], name)
  }

  /** Every record filed under `name`, walking the archive front to back
      and each workout's exercises in order. */
  function RecordsOf(archive: seq<CompletedWorkout>, name: string): seq<Record> {
    if archive == [] then []
    else Collect(archive[0], archive[0].exercises, name) + RecordsOf(archive[1..], name)
  }

  /** Every record filed under `name` comes from an exercise of that
      name in some archived workout, and carries that workout's date and
      day. */
  lemma {:induction false} RecordOrigin(archive: seq<CompletedWorkout>, name: string, rec: Record)
    requires rec in RecordsOf(archive, name)
    ensures exists i, j :: (0 <= i < |archive| && 0 <= j < |archive[i].exercises|
      && archive[i].exercises[j].name == name && rec == RecordOf(archive[i], archive[i].exercises[j]))
  {
    var w := archive[0];
    if rec in Collect(w, w.exercises, name) {
      var j := CollectOrigin(w, w.exercises, name, rec);
      assert archive[0].exercises[j].name == name && rec == RecordOf(archive[0], archive[0].exercises[j]);
    } else {
      RecordOrigin(archive[1..], name, rec);
      var i, j :| (0 <= i < |archive[1..]| && 0 <= j < |archive[1..][i].exercises|
        && archive[1..][i].exercises[j].name == name && rec == RecordOf(archive[1..][i], archive[1..][i].exercises[j]));
      assert archive[i + 1] == archive[1..][i];
    }
  }

  lemma {:induction false} CollectOrigin(w: CompletedWorkout, exs: seq<Exercise>, name: string, rec: Record)
    returns (j: nat)
    requires rec in Collect(w, exs, name)
    ensures j < |exs| && exs[j].name == name && rec == RecordOf(w, exs[j])
  {
    if exs[0].name == name && rec == RecordOf(w, exs[0]) {
      j := 0;
    } else {
      var k := CollectOrigin(w, exs[1..], name, rec);
      j := k + 1;
    }
  }

  /** Conversely, every exercise of that name in the archive is filed. */
  lemma {:induction false} RecordPresence(archive: seq<CompletedWorkout>, name: string, i: nat, j: nat)
    requires i < |archive| && j < |archive[i].exercises| && archive[i].exercises[j].name == name
    ensures RecordOf(archive[i], archive[i].exercises[j]) in RecordsOf(archive, name)
  {
    if i == 0 {
      CollectPresence(archive[0], archive[0].exercises, name, j);
    } else {
      RecordPresence(archive[1..], name, i - 1, j);
    }
  }

  lemma {:induction false} CollectPresence(w: CompletedWorkout, exs: seq<Exercise>, name: string, j: nat)
    requires j < |exs| && exs[j].name == name
    ensures RecordOf(w, exs[j]) in Collect(w, exs, name)
  {
    if j > 0 {
      CollectPresence(w, exs[1..], name, j - 1);
    }
  }

  lemma {:induction false} CollectAppend(w: CompletedWorkout, exs: seq<Exercise>, e: Exercise, name: string)
    ensures Collect(w, exs + [e], name)
      == Collect(w, exs, name) + (if e.name == name then [RecordOf(w, e)] else [])
  {
    if exs != [] {
      CollectAppend(w, exs[1..], e, name);
      assert (exs + [e])[1..] == exs[1..] + [e];
    }
  }

  lemma {:induction false} RecordsOfAppend(archive: seq<CompletedWorkout>, w: CompletedWorkout)
    ensures forall name :: (RecordsOf(archive + [w], name)
      == RecordsOf(archive, name) + Collect(w, w.exercises, name))
  {
    if archive == [] {
      assert [w][1..] == [];
    } else {
      RecordsOfAppend(archive[1..], w);
      assert (archive + [w])[1..] == archive[1..] + [w];
    }
  }

  /** `exerciseMap[name]` for a map holding only own keys, `[]` when absent. */
  function Lookup(m: map<string, seq<Record>>, name: string): seq<Record> {
    if name in m then m[name] else []
  }

  /** `keys` lists exactly the keys of `m`, once each, and no key maps to
      an empty list. */
  ghost predicate IndexedBy(m: map<string, seq<Record>>, keys: seq<string>) {
    && (forall name :: name in m ==> m[name] != [])
    && (forall name :: name in m <==> name in keys)
    && Distinct(keys)
  }

  /** One `push` into the map, creating the list first for a new name. */
  method Push(m0: map<string, seq<Record>>, keys0: seq<string>, name: string, rec: Record)
    returns (m: map<string, seq<Record>>, keys: seq<string>)
    requires IndexedBy(m0, keys0)
    ensures IndexedBy(m, keys)
    ensures forall n :: Lookup(m, n) == Lookup(m0, n) + (if n == name then [rec] else [])
  {
    var prior := Lookup(m0, name);
    keys := if name in m0 then keys0 else keys0 + [name];
    m := m0[name := prior + [rec]];
  }

  /** The inner `forEach`: files every exercise of `w` under its name. */
  method FileWorkout(m0: map<string, seq<Record>>, keys0: seq<string>, w: CompletedWorkout)
    returns (m: map<string, seq<Record>>, keys: seq<string>)
    requires IndexedBy(m0, keys0)
    ensures IndexedBy(m, keys)
    ensures forall n :: Lookup(m, n) == Lookup(m0, n) + Collect(w, w.exercises, n)
  {
    m, keys := m0, keys0;
    for j := 0 to |w.exercises|
      invariant IndexedBy(m, keys)
      invariant forall n :: Lookup(m, n) == Lookup(m0, n) + Collect(w, w.exercises[..j], n)
    {
      var e := w.exercises[j];
      var m', keys' := Push(m, keys, e.name, RecordOf(w, e));
      FileStep(m0, m, m', w, w.exercises[..j], e);
      assert w.exercises[..j + 1] == w.exercises[..j] + [e];
      m, keys := m', keys';
    }
    assert w.exercises[..|w.exercises|] == w.exercises;
  }

  /** One push extends what the exercises seen so far have filed. */
  lemma FileStep(m0: map<string, seq<Record>>, m: map<string, seq<Record>>, m': map<string, seq<Record>>,
                 w: CompletedWorkout, seen: seq<Exercise>, e: Exercise)
    requires forall n :: Lookup(m, n) == Lookup(m0, n) + Collect(w, seen, n)
    requires forall n :: Lookup(m', n) == Lookup(m, n) + (if n == e.name then [RecordOf(w, e)] else [])
    ensures forall n :: Lookup(m', n) == Lookup(m0, n) + Collect(w, seen + [e], n)
  {
    forall n ensures Lookup(m', n) == Lookup(m0, n) + Collect(w, seen + [e], n) {
      var p: seq<Record> := if n == e.name then [RecordOf(w, e)] else [];
      var c := Collect(w, seen, n);
      CollectAppend(w, seen, e, n);
      assert Lookup(m', n) == Lookup(m0, n) + c + p;
      assert Lookup(m0, n) + c + p == Lookup(m0, n) + (c + p);
    }
  }

  /** The grouping loop over the archive, with a fresh list for each new
      name; `keys` lists the names in the order they were first met. Every
      name that occurs gets exactly its records, in archive order. */
  method GroupByName(archive: seq<CompletedWorkout>) returns (m: map<string, seq<Record>>, keys: seq<string>)
    ensures forall name :: Lookup(m, name) == RecordsOf(archive, name)
    ensures IndexedBy(m, keys)
  {
    m, keys := map[], [];
    for i := 0 to |archive|
      invariant forall name :: Lookup(m, name) == RecordsOf(archive[..i], name)
      invariant IndexedBy(m, keys)
    {
      m, keys := FileWorkout(m, keys, archive[i]);
      RecordsOfAppend(archive[..i], archive[i]);
      assert archive[..i + 1] == archive[..i] + [archive[i]];
    }
    assert archive[..|archive|] == archive;
  }

  /** The trend of a weight change. */
  function Classify(diff: real): (t: Trend)
    ensures t == Up <==> diff > 0.0
    ensures t == Down <==> diff < 0.0
    ensures t == Stable <==> diff == 0.0
  {
    if diff > 0.0 then Up else if diff < 0.0 then Down else Stable
  }

  /** The `map` callback for one name: sort its records newest first, keep
      the first three, and compare the weights of the first two. */
  function Summarize(name: string, records: seq<Record>): (p: ProgressEntry)
    requires |records| >= 2
    ensures p.name == name
    ensures |p.history| == if |records| < 3 then |records| else 3
    ensures p.history == SortByDate(records)[..|p.history|]
    ensures p.weightDiff == p.history[0].weight - p.history[1].weight
    ensures p.trend == Classify(p.weightDiff)
  {
    var sorted := SortByDate(records);
    var diff := sorted[0].weight - sorted[1].weight;
    ProgressEntry(name, sorted[..if |sorted| < 3 then |sorted| else 3], diff, Classify(diff))
  }

  /** The first history line is a most recent record, and among the most
      recent ones the first met in the archive; the history is newest
      first and drawn from the records. */
  lemma SummaryStartsWithNewest(name: string, records: seq<Record>)
    requires |records| >= 2
    ensures var p := Summarize(name, records);
      && (forall i :: 0 <= i < |records| ==> !Earlier(p.history[0].date, records[i].date))
      && OnDate(records, p.history[0].date) != []
      && p.history[0] == OnDate(records, p.history[0].date)[0]
      && NewestFirst(p.history)
      && multiset(p.history) <= multiset(records)
  {
    var p := Summarize(name, records);
    var sorted := SortByDate(records);
    var k := |p.history|;
    SortedHeadIsNewest(records);
    assert p.history[0] == sorted[0];
    PrefixNewestFirst(sorted, k);
  }

  /** `a` comes strictly before `b` when their names are compared by `less`. */
  predicate NameBefore(a: ProgressEntry, b: ProgressEntry, less: (string, string) -> bool) {
    less(a.name, b.name)
  }

  predicate DistinctNames(s: seq<ProgressEntry>) {
    forall i, j :: 0 <= i < j < |s| ==> s[i].name != s[j].name
  }

  /** Names strictly increasing under `less`. */
  predicate Ascending(s: seq<ProgressEntry>, less: (string, string) -> bool) {
    forall i, j :: 0 <= i < j < |s| ==> NameBefore(s[i], s[j], less)
  }

  /** Places `x` before the first entry whose name does not precede its own. */
  function InsertByName(x: ProgressEntry, s: seq<ProgressEntry>, less: (string, string) -> bool): (r: seq<ProgressEntry>)
    ensures multiset(r) == multiset(s) + multiset{x}
  {
    if s == [] then [x]
    else
      assert s == [s[0]] + s[1..];
      if NameBefore(s[0], x, less) then [s[0]] + InsertByName(x, s[1..], less) else [x] + s
  }

  lemma {:induction false} InsertByNameAscending(x: ProgressEntry, s: seq<ProgressEntry>, less: (string, string) -> bool)
    requires StrictTotal(less)
    requires Ascending(s, less)
    requires forall i :: 0 <= i < |s| ==> s[i].name != x.name
    ensures Ascending(InsertByName(x, s, less), less)
  {
    if s != [] {
      if NameBefore(s[0], x, less) {
        var rest := InsertByName(x, s[1..], less);
        InsertByNameAscending(x, s[1..], less);
        forall j | 0 <= j < |rest| ensures NameBefore(s[0], rest[j], less) {
          assert rest[j] in multiset(rest);
          assert rest[j] == x || rest[j] in multiset(s[1..]);
        }
        assert InsertByName(x, s, less) == [s[0]] + rest;
      } else {
        assert less(x.name, s[0].name);
      }
    }
  }

  /** `.sort((a, b) => a.name.localeCompare(b.name))`, with the locale's
      order on names given as `less`. */
  function SortByName(s: seq<ProgressEntry>, less: (string, string) -> bool): (r: seq<ProgressEntry>)
    ensures multiset(r) == multiset(s)
    ensures StrictTotal(less) && DistinctNames(s) ==> Ascending(r, less)
  {
    if s == [] then []
    else
      var rest := SortByName(s[1..], less);
      assert s == [s[0]] + s[1..];
      SortStep(s, rest, less);
      InsertByName(s[0], rest, less)
  }

  /** Inserting the head into the sorted tail keeps the order, when names
      are distinct and `less` is a strict total order. */
  lemma SortStep(s: seq<ProgressEntry>, rest: seq<ProgressEntry>, less: (string, string) -> bool)
    requires s != [] && multiset(rest) == multiset(s[1..])
    requires StrictTotal(less) && DistinctNames(s[1..]) ==> Ascending(rest, less)
    ensures StrictTotal(less) && DistinctNames(s) ==> Ascending(InsertByName(s[0], rest, less), less)
  {
    if StrictTotal(less) && DistinctNames(s) {
      assert DistinctNames(s[1..]);
      forall i | 0 <= i < |rest| ensures rest[i].name != s[0].name {
        assert rest[i] in multiset(s[1..]);
      }
      InsertByNameAscending(s[0], rest, less);
    }
  }

  /** The `filter` step: the grouped names with at least two records, in
      key order. */
  method PickRepeated(groups: map<string, seq<Record>>, keys: seq<string>) returns (picked: seq<string>)
    requires Distinct(keys)
    ensures forall j :: 0 <= j < |picked| ==> |Lookup(groups, picked[j])| >= 2
    ensures forall k :: 0 <= k < |keys| && |Lookup(groups, keys[k])| >= 2 ==> keys[k] in picked
    ensures Distinct(picked)
  {
    picked := [];
    for i := 0 to |keys|
      invariant forall j :: 0 <= j < |picked| ==> |Lookup(groups, picked[j])| >= 2
      invariant forall k :: 0 <= k < i && |Lookup(groups, keys[k])| >= 2 ==> keys[k] in picked
      invariant forall j :: 0 <= j < |picked| ==> picked[j] in keys[..i]
      invariant Distinct(picked)
    {
      assert keys[..i + 1] == keys[..i] + [keys[i]];
      if |Lookup(groups, keys[i])| >= 2 {
        assert keys[i] !in keys[..i];
        picked := picked + [keys[i]];
      }
    }
  }

  /** The `map` step: one summary per picked name, in the same order. */
  method SummarizeAll(groups: map<string, seq<Record>>, picked: seq<string>) returns (entries: seq<ProgressEntry>)
    requires forall j :: 0 <= j < |picked| ==> |Lookup(groups, picked[j])| >= 2
    ensures |entries| == |picked|
    ensures forall j :: 0 <= j < |picked| ==>
      entries[j] == Summarize(picked[j], Lookup(groups, picked[j]))
  {
    entries := [];
    for k := 0 to |picked|
      invariant |entries| == k
      invariant forall j :: 0 <= j < k ==> entries[j] == Summarize(picked[j], Lookup(groups, picked[j]))
    {
      entries := entries + [Summarize(picked[k], Lookup(groups, picked[k]))];
    }
  }

  /** `getExerciseProgress`: one entry for each name recorded at least
      twice in the archive, summarising exactly that name's records, with
      the entries in strictly increasing name order. `less` is the order
      `localeCompare` puts names in, taken as any strict total order. */
  method Analyse(archive: seq<CompletedWorkout>, less: (string, string) -> bool) returns (r: seq<ProgressEntry>)
    requires StrictTotal(less)
    ensures forall i :: 0 <= i < |r| ==>
      && |RecordsOf(archive, r[i].name)| >= 2
      && r[i] == Summarize(r[i].name, RecordsOf(archive, r[i].name))
    ensures forall name :: |RecordsOf(archive, name)| >= 2 ==>
      exists i :: 0 <= i < |r| && r[i].name == name
    ensures Ascending(r, less)
  {
    var groups, keys := GroupByName(archive);
    var picked := PickRepeated(groups, keys);
    var entries := SummarizeAll(groups, picked);
    PickedEntries(archive, groups, keys, picked, entries);
    r := SortByName(entries, less);
    SortedEntriesSound(archive, entries, r);
    SortedEntriesComplete(archive, entries, r);
  }

  /** The summaries built from the picked names: one per name, each of a
      name recorded at least twice, and every such name among them. */
  lemma PickedEntries(archive: seq<CompletedWorkout>, groups: map<string, seq<Record>>, keys: seq<string>,
                      picked: seq<string>, entries: seq<ProgressEntry>)
    requires forall name :: Lookup(groups, name) == RecordsOf(archive, name)
    requires IndexedBy(groups, keys)
    requires forall j :: 0 <= j < |picked| ==> |Lookup(groups, picked[j])| >= 2
    requires forall k :: 0 <= k < |keys| && |Lookup(groups, keys[k])| >= 2 ==> keys[k] in picked
    requires Distinct(picked)
    requires |entries| == |picked|
    requires forall j :: 0 <= j < |picked| ==>
      entries[j] == Summarize(picked[j], Lookup(groups, picked[j]))
    ensures DistinctNames(entries)
    ensures forall j :: 0 <= j < |entries| ==>
      && |RecordsOf(archive, entries[j].name)| >= 2
      && entries[j] == Summarize(entries[j].name, RecordsOf(archive, entries[j].name))
    ensures forall name :: |RecordsOf(archive, name)| >= 2 ==>
      exists j :: 0 <= j < |entries| && entries[j].name == name
  {
    forall j | 0 <= j < |entries| ensures entries[j].name == picked[j] {
    }
    forall name | |RecordsOf(archive, name)| >= 2
      ensures exists j :: 0 <= j < |entries| && entries[j].name == name
    {
      assert Lookup(groups, name) != [];
      assert name in keys;
      var k :| 0 <= k < |keys| && keys[k] == name;
      var j :| 0 <= j < |picked| && picked[j] == name;
      assert entries[j].name == name;
    }
  }

  /** Every name among the summaries is still there after sorting. */
  lemma SortedEntriesComplete(archive: seq<CompletedWorkout>, entries: seq<ProgressEntry>, r: seq<ProgressEntry>)
    requires multiset(r) == multiset(entries)
    requires forall name :: |RecordsOf(archive, name)| >= 2 ==>
      exists j :: 0 <= j < |entries| && entries[j].name == name
    ensures forall name :: |RecordsOf(archive, name)| >= 2 ==>
      exists i :: 0 <= i < |r| && r[i].name == name
  {
    forall name | |RecordsOf(archive, name)| >= 2
      ensures exists i :: 0 <= i < |r| && r[i].name == name
    {
      var j :| 0 <= j < |entries| && entries[j].name == name;
      assert entries[j] in multiset(r);
    }
  }

  /** What holds of every summary before sorting holds after it. */
  lemma SortedEntriesSound(archive: seq<CompletedWorkout>, entries: seq<ProgressEntry>, r: seq<ProgressEntry>)
    requires multiset(r) == multiset(entries)
    requires forall j :: 0 <= j < |entries| ==>
      && |RecordsOf(archive, entries[j].name)| >= 2
      && entries[j] == Summarize(entries[j].name, RecordsOf(archive, entries[j].name))
    ensures forall i :: 0 <= i < |r| ==>
      && |RecordsOf(archive, r[i].name)| >= 2
      && r[i] == Summarize(r[i].name, RecordsOf(archive, r[i].name))
  {
    forall i | 0 <= i < |r|
      ensures |RecordsOf(archive, r[i].name)| >= 2
      ensures r[i] == Summarize(r[i].name, RecordsOf(archive, r[i].name))
    {
      assert r[i] in multiset(entries);
    }
  }

  /** The property names every plain object inherits from
      `Object.prototype`. Reading one of them from `exerciseMap` yields a
      function or an object, never `undefined`. */
  const InheritedNames: set<string> := {
    "constructor", "hasOwnProperty", "isPrototypeOf", "propertyIsEnumerable",
    "toLocaleString", "toString", "valueOf", "__proto__",
    "__defineGetter__", "__defineSetter__", "__lookupGetter__", "__lookupSetter__"
  }

  /** Why the grouping as written can stop: `exerciseMap[name]` was an
      inherited member, so `.push` is not a function and throws. */
  datatype GroupingError = PushOnInherited(name: string)

  /** One `if (!exerciseMap[name]) exerciseMap[name] = []; ...push(record)`
      as written: an inherited name is truthy, so no list is created, and
      the push throws. */
  function PushAsWritten(m: map<string, seq<Record>>, name: string, rec: Record)
    : (r: Result<map<string, seq<Record>>, GroupingError>)
    ensures r.Err? <==> name !in m && name in InheritedNames
    ensures r.Ok? ==> forall n :: Lookup(r.value, n) == Lookup(m, n) + (if n == name then [rec] else [])
    ensures r.Ok? ==> r.value.Keys == m.Keys + {name}
  {
    if name in m then Ok(m[name := m[name] + [rec]])
    else if name in InheritedNames then Err(PushOnInherited(name))
    else Ok(m[name := [rec]])
  }

  /** The inner `forEach` as written, over the exercises `exs` of `w`. */
  function FileAsWritten(m: map<string, seq<Record>>, w: CompletedWorkout, exs: seq<Exercise>)
    : (r: Result<map<string, seq<Record>>, GroupingError>)
    requires m.Keys !! InheritedNames
    ensures r.Ok? <==> forall n :: n in InheritedNames ==> Collect(w, exs, n) == []
    ensures r.Ok? ==> r.value.Keys !! InheritedNames
    ensures r.Ok? ==> forall n :: Lookup(r.value, n) == Lookup(m, n) + Collect(w, exs, n)
    decreases |exs|
  {
    if exs == [] then Ok(m)
    else
      match PushAsWritten(m, exs[0].name, RecordOf(w, exs[0]))
      case Err(e) => Err(e)
      case Ok(m') =>
        var r := FileAsWritten(m', w, exs[1..]);
        if r.Ok? then LookupChain(m, m', r.value, w, exs); r else r
  }

  /** One push followed by the rest of the workout files the whole workout. */
  lemma LookupChain(m: map<string, seq<Record>>, m': map<string, seq<Record>>, r: map<string, seq<Record>>,
                    w: CompletedWorkout, exs: seq<Exercise>)
    requires exs != []
    requires forall n :: Lookup(m', n) == Lookup(m, n) + (if n == exs[0].name then [RecordOf(w, exs[0])] else [])
    requires forall n :: Lookup(r, n) == Lookup(m', n) + Collect(w, exs[1..], n)
    ensures forall n :: Lookup(r, n) == Lookup(m, n) + Collect(w, exs, n)
  {
    forall n ensures Lookup(r, n) == Lookup(m, n) + Collect(w, exs, n) {
      var p: seq<Record> := if n == exs[0].name then [RecordOf(w, exs[0])] else [];
      var before, t := Lookup(m, n), Collect(w, exs[1..], n);
      assert Lookup(r, n) == before + p + t;
      assert Collect(w, exs, n) == p + t;
      assert before + p + t == before + (p + t);
    }
  }

  /** The outer `forEach` as written. */
  function GroupFromAsWritten(m: map<string, seq<Record>>, archive: seq<CompletedWorkout>)
    : (r: Result<map<string, seq<Record>>, GroupingError>)
    requires m.Keys !! InheritedNames
    ensures r.Ok? <==> forall n :: n in InheritedNames ==> RecordsOf(archive, n) == []
    ensures r.Ok? ==> forall n :: Lookup(r.value, n) == Lookup(m, n) + RecordsOf(archive, n)
    decreases |archive|
  {
    if archive == [] then Ok(m)
    else
      match FileAsWritten(m, archive[0], archive[0].exercises)
      case Err(e) => Err(e)
      case Ok(m') => GroupFromAsWritten(m', archive[1..])
  }

  /** The grouping step as written: it agrees with `GroupByName` unless an
      archived exercise has an inherited name, and then it throws. */
  function GroupAsWritten(archive: seq<CompletedWorkout>): (r: Result<map<string, seq<Record>>, GroupingError>)
    ensures r.Err? <==> exists n :: n in InheritedNames && RecordsOf(archive, n) != []
    ensures r.Ok? ==> forall n :: Lookup(r.value, n) == RecordsOf(archive, n)
  {
    GroupFromAsWritten(map[], archive)
  }

  /** One archived exercise called "toString" is enough to make the
      grouping as written throw, while `GroupByName` files it like any
      other name. */
  lemma InheritedNameBreaksGrouping(today: Date)
    ensures var archive := [CompletedWorkout("A", today, [Exercise(1, "toString", 3.0, 10.0, 20.0, true, "")])];
      GroupAsWritten(archive).Err?
  {
    var w := CompletedWorkout("A", today, [Exercise(1, "toString", 3.0, 10.0, 20.0, true, "")]);
    assert [w][1..] == [] && w.exercises[1..] == [];
    assert Collect(w, w.exercises, "toString") == [RecordOf(w, w.exercises[0])];
    assert RecordsOf([w], "toString") == [RecordOf(w, w.exercises[0])];
  }

  /** An older workout with Squat at 60 and Bench at 40, and a newer one
      with Squat at 70, archived newest first. */
  const ExampleOlder := CompletedWorkout("A", Date(2024, 3, 1), [
    Exercise(1, "Squat", 3.0, 10.0, 60.0, true, ""), Exercise(2, "Bench", 3.0, 8.0, 40.0, true, "")])
  const ExampleNewer := CompletedWorkout("B", Date(2024, 3, 8), [Exercise(3, "Squat", 3.0, 10.0, 70.0, true, "")])
  const ExampleArchive := [ExampleNewer, ExampleOlder]

  lemma ExampleRecords()
    ensures RecordsOf(ExampleArchive, "Squat")
      == [RecordOf(ExampleNewer, ExampleNewer.exercises[0]), RecordOf(ExampleOlder, ExampleOlder.exercises[0])]
    ensures RecordsOf(ExampleArchive, "Bench") == [RecordOf(ExampleOlder, ExampleOlder.exercises[1])]
  {
    var older, newer := ExampleOlder, ExampleNewer;
    assert ExampleArchive[1..] == [older] && ExampleArchive[1..][1..] == [];
    assert newer.exercises[1..] == [];
    assert older.exercises[1..] == [older.exercises[1]] && older.exercises[1..][1..] == [];
    assert "Squat" != "Bench";
    assert Collect(older, older.exercises, "Squat") == [RecordOf(older, older.exercises[0])];
    assert Collect(newer, newer.exercises, "Squat") == [RecordOf(newer, newer.exercises[0])];
    assert Collect(older, older.exercises, "Bench") == [RecordOf(older, older.exercises[1])];
    assert Collect(newer, newer.exercises, "Bench") == [];
    assert RecordsOf([older], "Squat") == Collect(older, older.exercises, "Squat");
    assert RecordsOf([older], "Bench") == Collect(older, older.exercises, "Bench");
  }

  /** Squat at 60 then at 70 on a later date: the entry leads with the 70,
      trends up by 10; an exercise done once gets no entry. */
  lemma SquatExample()
    ensures |RecordsOf(ExampleArchive, "Bench")| < 2
    ensures |RecordsOf(ExampleArchive, "Squat")| == 2
    ensures Summarize("Squat", RecordsOf(ExampleArchive, "Squat")).history[0].weight == 70.0
    ensures Summarize("Squat", RecordsOf(ExampleArchive, "Squat")).weightDiff == 10.0
    ensures Summarize("Squat", RecordsOf(ExampleArchive, "Squat")).trend == Up
  {
    ExampleRecords();
    var recs := RecordsOf(ExampleArchive, "Squat");
    SortTwo(recs[0], recs[1]);
    assert recs == [recs[0], recs[1]];
  }
}
