/** Archived performances of one exercise and their newest-first order.
    `Array.prototype.sort` is stable, so records dated the same day keep the
    order in which the archive was walked; the sort here is an insertion
    sort, and `StableOrderUnique` shows that any stable sort gives the same
    sequence. */
module History {
  import opened Calendar

  /** One archived performance: when, how, and on which workout day. */
  datatype Record = Record(date: Date, sets: real, reps: real, weight: real, day: string)

  /** No record is older than one that follows it. */
  predicate NewestFirst(s: seq<Record>) {
    forall i, j :: 0 <= i < j < |s| ==> !Earlier(s[i].date, s[j].date)
  }

  /** The records of `s` dated `d`, in their order in `s`. */
  function OnDate(s: seq<Record>, d: Date): seq<Record> {
    if s == [] then [] else (if s[0].date == d then [s[0]] else []) + OnDate(s[1..], d)
  }

  lemma {:induction false} OnDateMember(s: seq<Record>, d: Date, x: Record)
    requires x in OnDate(s, d)
    ensures x in s && x.date == d
  {
    if s != [] && !(s[0].date == d && x == s[0]) {
      OnDateMember(s[1..], d, x);
    }
  }

  lemma OnDateOfHead(s: seq<Record>)
    requires s != []
    ensures OnDate(s, s[0].date) != []
  {
  }

  /** Places `x` after the records strictly newer than it and before all
      others, so it precedes the records of its own date. */
  function InsertByDate(x: Record, s: seq<Record>): (r: seq<Record>)
    ensures multiset(r) == multiset(s) + multiset{x}
    ensures |r| == |s| + 1
  {
    if s == [] then [x]
    else if Earlier(x.date, s[0].date) then
      assert s == [s[0]] + s[1..];
      [s[0]] + InsertByDate(x, s[1..])
    else
      [x] + s
  }

  /** Among the records of its own date, the inserted one comes first. */
  lemma OnDateCons(y: Record, t: seq<Record>, d: Date)
    ensures OnDate([y] + t, d) == (if y.date == d then [y] else []) + OnDate(t, d)
  {
    assert ([y] + t)[1..] == t;
  }

  lemma {:induction false} InsertOnDate(x: Record, s: seq<Record>, d: Date)
    ensures OnDate(InsertByDate(x, s), d) == (if x.date == d then [x] else []) + OnDate(s, d)
  {
    if s == [] {
      OnDateCons(x, [], d);
    } else if Earlier(x.date, s[0].date) {
      InsertOnDate(x, s[1..], d);
      InsertPastHead(x, s[0], s[1..], InsertByDate(x, s[1..]), d);
      assert s == [s[0]] + s[1..];
    } else {
      OnDateCons(x, s, d);
    }
  }

  /** The inductive step of `InsertOnDate`: `x` moves past a newer head `y`. */
  lemma InsertPastHead(x: Record, y: Record, t: seq<Record>, rest: seq<Record>, d: Date)
    requires x.date != y.date
    requires OnDate(rest, d) == (if x.date == d then [x] else []) + OnDate(t, d)
    ensures OnDate([y] + rest, d) == (if x.date == d then [x] else []) + OnDate([y] + t, d)
  {
    OnDateCons(y, rest, d);
    OnDateCons(y, t, d);
  }

  lemma {:induction false} InsertKeepsNewestFirst(x: Record, s: seq<Record>)
    requires NewestFirst(s)
    ensures NewestFirst(InsertByDate(x, s))
  {
    if s != [] && Earlier(x.date, s[0].date) {
      var rest := InsertByDate(x, s[1..]);
      InsertKeepsNewestFirst(x, s[1..]);
      forall j | 0 <= j < |rest| ensures !Earlier(s[0].date, rest[j].date) {
        assert rest[j] in multiset(rest);
        assert rest[j] == x || rest[j] in multiset(s[1..]);
      }
      assert InsertByDate(x, s) == [s[0]] + rest;
    }
  }

  /** The newest-first order `history.sort(...)` produces. */
  function SortByDate(s: seq<Record>): (r: seq<Record>)
    ensures multiset(r) == multiset(s)
    ensures |r| == |s|
    ensures NewestFirst(r)
  {
    if s == [] then []
    else
      var rest := SortByDate(s[1..]);
      InsertKeepsNewestFirst(s[0], rest);
      assert s == [s[0]] + s[1..];
      InsertByDate(s[0], rest)
  }

  /** Sorting keeps the relative order of the records of each date: the
      sort is stable. */
  lemma {:induction false} SortKeepsDateOrder(s: seq<Record>, d: Date)
    ensures OnDate(SortByDate(s), d) == OnDate(s, d)
  {
    if s != [] {
      SortKeepsDateOrder(s[1..], d);
      InsertOnDate(s[0], SortByDate(s[1..]), d);
    }
  }

  /** The first record of the sorted sequence is a most recent one, and
      the first of its date in the input order. */
  lemma SortedHeadIsNewest(s: seq<Record>)
    requires s != []
    ensures forall i :: 0 <= i < |s| ==> !Earlier(SortByDate(s)[0].date, s[i].date)
    ensures var h := SortByDate(s)[0]; OnDate(s, h.date) != [] && h == OnDate(s, h.date)[0]
  {
    var sorted := SortByDate(s);
    forall i | 0 <= i < |s| ensures !Earlier(sorted[0].date, s[i].date) {
      assert s[i] in multiset(sorted);
      var j :| 0 <= j < |sorted| && sorted[j] == s[i];
    }
    SortKeepsDateOrder(s, sorted[0].date);
    assert OnDate(sorted, sorted[0].date)[0] == sorted[0];
  }

  /** Two records already newest first stay in place. */
  lemma SortTwo(x: Record, y: Record)
    requires !Earlier(x.date, y.date)
    ensures SortByDate([x, y]) == [x, y]
  {
    assert [x, y][1..] == [y] && [y][1..] == [];
  }

  /** A prefix of a newest-first sequence is newest first and drawn from it. */
  lemma PrefixNewestFirst(s: seq<Record>, k: nat)
    requires NewestFirst(s) && k <= |s|
    ensures NewestFirst(s[..k])
    ensures multiset(s[..k]) <= multiset(s)
  {
    assert s == s[..k] + s[k..];
  }

  /** A newest-first order is pinned down by the order it keeps among the
      records of each date. */
  lemma {:induction false} StableOrderUnique(a: seq<Record>, b: seq<Record>)
    requires NewestFirst(a) && NewestFirst(b)
    requires forall d :: OnDate(a, d) == OnDate(b, d)
    ensures a == b
    decreases |a|
  {
    if a == [] {
      if b != [] {
        OnDateOfHead(b);
        assert false;
      }
    } else if b == [] {
      OnDateOfHead(a);
      assert false;
    } else {
      var da, db := a[0].date, b[0].date;
      if Earlier(db, da) {
        assert a[0] in OnDate(b, da);
        OnDateMember(b, da, a[0]);
        assert false;
      } else if Earlier(da, db) {
        assert b[0] in OnDate(a, db);
        OnDateMember(a, db, b[0]);
        assert false;
      }
      assert OnDate(a, da)[0] == a[0] && OnDate(b, da)[0] == b[0];
      forall d ensures OnDate(a[1..], d) == OnDate(b[1..], d) {
        var p := if a[0].date == d then [a[0]] else [];
        assert OnDate(a, d) == p + OnDate(a[1..], d);
        assert OnDate(b, d) == p + OnDate(b[1..], d);
        assert (p + OnDate(a[1..], d))[|p|..] == OnDate(a[1..], d);
        assert (p + OnDate(b[1..], d))[|p|..] == OnDate(b[1..], d);
      }
      StableOrderUnique(a[1..], b[1..]);
      assert a == [a[0]] + a[1..] && b == [b[0]] + b[1..];
    }
  }

  /** Any stable newest-first sort of `s` agrees with `SortByDate(s)`. */
  lemma AnyStableSortAgrees(s: seq<Record>, r: seq<Record>)
    requires NewestFirst(r)
    requires forall d :: OnDate(r, d) == OnDate(s, d)
    ensures r == SortByDate(s)
  {
    forall d ensures OnDate(SortByDate(s), d) == OnDate(s, d) {
      SortKeepsDateOrder(s, d);
    }
    StableOrderUnique(r, SortByDate(s));
  }
}
