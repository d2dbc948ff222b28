/** String helpers that stand in for the JavaScript built-ins the source
    relies on: `String.prototype.trim` and the ordering used to sort names. */
module Text {

  /** The characters `String.prototype.trim` strips: the ECMAScript
      WhiteSpace and LineTerminator code points. */
  const JsWhitespace: set<char> := {
    '\t', '\n', '\U{000B}', '\U{000C}', '\r', ' ', '\U{00A0}', '\U{1680}',
    '\U{2000}', '\U{2001}', '\U{2002}', '\U{2003}', '\U{2004}', '\U{2005}',
    '\U{2006}', '\U{2007}', '\U{2008}', '\U{2009}', '\U{200A}',
    '\U{2028}', '\U{2029}', '\U{202F}', '\U{205F}', '\U{3000}', '\U{FEFF}'
  }

  predicate IsJsWhitespace(c: char) {
    c in JsWhitespace
  }

  /** Every character of `s` is whitespace (vacuously true of ""). */
  predicate Blank(s: string) {
    forall i :: 0 <= i < |s| ==> IsJsWhitespace(s[i])
  }

  /** The first position at or after `i` that does not hold whitespace
      (`|s|` when there is none). */
  function SkipForward(s: string, i: nat): (j: nat)
    requires i <= |s|
    ensures i <= j <= |s|
    ensures forall k :: i <= k < j ==> IsJsWhitespace(s[k])
    ensures j < |s| ==> !IsJsWhitespace(s[j])
    decreases |s| - i
  {
    if i < |s| && IsJsWhitespace(s[i]) then SkipForward(s, i + 1) else i
  }

  /** The end of the last non-whitespace character in `s[lo..j]`
      (`lo` when there is none). */
  function SkipBackward(s: string, lo: nat, j: nat): (e: nat)
    requires lo <= j <= |s|
    ensures lo <= e <= j
    ensures forall k :: e <= k < j ==> IsJsWhitespace(s[k])
    ensures lo < e ==> !IsJsWhitespace(s[e - 1])
    decreases j
  {
    if lo < j && IsJsWhitespace(s[j - 1]) then SkipBackward(s, lo, j - 1) else j
  }

  /** Where the trimmed slice starts in the original string. */
  function TrimOffset(s: string): nat {
    SkipForward(s, 0)
  }

  /** `s.trim()`: the slice of `s` left once leading and trailing
      whitespace is gone. Everything dropped is whitespace, the slice
      neither starts nor ends with whitespace, and it is empty exactly
      when `s` is blank. */
  function Trim(s: string): (r: string)
    ensures TrimOffset(s) + |r| <= |s|
    ensures r == s[TrimOffset(s)..TrimOffset(s) + |r|]
    ensures forall k :: 0 <= k < |s| && !(TrimOffset(s) <= k < TrimOffset(s) + |r|) ==> IsJsWhitespace(s[k])
    ensures r != [] ==> !IsJsWhitespace(r[0]) && !IsJsWhitespace(r[|r| - 1])
    ensures r == [] <==> Blank(s)
  {
    var a := SkipForward(s, 0);
    var b := SkipBackward(s, a, |s|);
    assert a < |s| ==> a < b;
    s[a..b]
  }

  /** `a` and `b` agree on their first `k` characters, and there `a`
      either ends while `b` goes on, or has the smaller character. */
  predicate BelowAt(a: string, b: string, k: nat) {
    && k <= |a| && k <= |b| && a[..k] == b[..k]
    && ((k == |a| && k < |b|) || (k < |a| && k < |b| && a[k] < b[k]))
  }

  /** Strict lexicographic order on code points. `a` comes first exactly
      when it is a proper prefix of `b` or has the smaller character where
      the two first differ. This is one strict total order on names, not the
      browser's `localeCompare`: it puts every capital before every small
      letter, so "Squat" comes before "bench" here (`CapitalsFirst`), while
      `localeCompare` lists "bench" first. */
  function Precedes(a: string, b: string): (r: bool)
    ensures r <==> exists k :: BelowAt(a, b, k)
  {
    if a != [] && b != [] && a[0] == b[0] then
      BelowShift(a, b);
      Precedes(a[1..], b[1..])
    else
      BelowHead(a, b);
      if a == [] then b != [] else b != [] && a[0] < b[0]
  }

  /** With equal first characters, the place where `a` falls below `b`
      moves one step along the tails. */
  lemma BelowShift(a: string, b: string)
    requires a != [] && b != [] && a[0] == b[0]
    ensures (exists k :: BelowAt(a, b, k)) <==> (exists k :: BelowAt(a[1..], b[1..], k))
  {
    forall k: nat | BelowAt(a, b, k) ensures k > 0 && BelowAt(a[1..], b[1..], k - 1) {
      assert a[1..][..k - 1] == a[..k][1..];
      assert b[1..][..k - 1] == b[..k][1..];
    }
    forall k: nat | BelowAt(a[1..], b[1..], k) ensures BelowAt(a, b, k + 1) {
      assert a[..k + 1] == [a[0]] + a[1..][..k];
      assert b[..k + 1] == [b[0]] + b[1..][..k];
    }
  }

  /** Otherwise the first position decides. */
  lemma BelowHead(a: string, b: string)
    requires !(a != [] && b != [] && a[0] == b[0])
    ensures (exists k :: BelowAt(a, b, k)) <==> (if a == [] then b != [] else b != [] && a[0] < b[0])
  {
    forall k: nat | BelowAt(a, b, k) ensures k == 0 {
    }
    if a == [] && b != [] {
      assert BelowAt(a, b, 0);
    } else if a != [] && b != [] && a[0] < b[0] {
      assert BelowAt(a, b, 0);
    }
  }

  lemma {:induction false} PrecedesIrreflexive(a: string)
    ensures !Precedes(a, a)
  {
    if a != [] {
      PrecedesIrreflexive(a[1..]);
    }
  }

  lemma {:induction false} PrecedesAsymmetric(a: string, b: string)
    ensures Precedes(a, b) ==> !Precedes(b, a)
  {
    if a != [] && b != [] && a[0] == b[0] {
      PrecedesAsymmetric(a[1..], b[1..]);
    }
  }

  lemma {:induction false} PrecedesTransitive(a: string, b: string, c: string)
    ensures Precedes(a, b) && Precedes(b, c) ==> Precedes(a, c)
  {
    if a != [] && b != [] && c != [] && a[0] == b[0] && b[0] == c[0] {
      PrecedesTransitive(a[1..], b[1..], c[1..]);
    }
  }

  lemma {:induction false} PrecedesTotal(a: string, b: string)
    ensures a == b || Precedes(a, b) || Precedes(b, a)
  {
    if a != [] && b != [] && a[0] == b[0] {
      PrecedesTotal(a[1..], b[1..]);
      if a[1..] == b[1..] {
        assert a == [a[0]] + a[1..] && b == [b[0]] + b[1..];
      }
    }
  }

  /** `less` is a strict total order on strings: irreflexive, transitive,
      and relating any two distinct strings one way or the other. */
  ghost predicate StrictTotal(less: (string, string) -> bool) {
    && (forall a :: !less(a, a))
    && (forall a, b, c :: less(a, b) && less(b, c) ==> less(a, c))
    && (forall a, b :: a != b ==> less(a, b) || less(b, a))
  }

  /** The code-point order is a strict total order. */
  lemma PrecedesStrictTotal()
    ensures StrictTotal(Precedes)
  {
    forall a ensures !Precedes(a, a) {
      PrecedesIrreflexive(a);
    }
    forall a, b, c | Precedes(a, b) && Precedes(b, c) ensures Precedes(a, c) {
      PrecedesTransitive(a, b, c);
    }
    forall a, b | a != b ensures Precedes(a, b) || Precedes(b, a) {
      PrecedesTotal(a, b);
    }
  }

  /** Where the code-point order parts from `localeCompare`: a capital
      comes before any small letter. */
  lemma CapitalsFirst()
    ensures Precedes("Squat", "bench") && !Precedes("bench", "Squat")
  {
    assert BelowAt("Squat", "bench", 0);
  }
}
