/** The JavaScript string operations the tool relies on: `trim`, decimal
    rendering of numbers in template literals, `join`, and a few scans. */
module Strings {

  /** The code points `String.prototype.trim` removes: ECMAScript's WhiteSpace
      and LineTerminator characters. */
  predicate IsJsSpace(c: char) {
    || c == '\t' || c == '\n' || c == '\U{0B}' || c == '\U{0C}' || c == '\r' || c == ' '
    || c == '\U{A0}' || c == '\U{1680}' || ('\U{2000}' <= c <= '\U{200A}')
    || c == '\U{2028}' || c == '\U{2029}' || c == '\U{202F}' || c == '\U{205F}'
    || c == '\U{3000}' || c == '\U{FEFF}'
  }

  /** The characters a regular expression's `.` does not match. */
  predicate IsLineBreak(c: char) {
    c == '\n' || c == '\r' || c == '\U{2028}' || c == '\U{2029}'
  }

  predicate NoLineBreak(s: string) {
    forall i :: 0 <= i < |s| ==> !IsLineBreak(s[i])
  }

  predicate AllSpaces(s: string) {
    forall i :: 0 <= i < |s| ==> IsJsSpace(s[i])
  }

  /** `s` neither starts nor ends with a character `trim` would remove. */
  predicate Trimmed(s: string) {
    s == [] || (!IsJsSpace(s[0]) && !IsJsSpace(s[|s| - 1]))
  }

  /** The number of characters `trim` removes at the start of `s`. */
  function LeadingSpaces(s: string): (n: nat)
    ensures n <= |s|
  {
    if s != [] && IsJsSpace(s[0]) then 1 + LeadingSpaces(s[1..]) else 0
  }

  /** The number of characters `trim` removes at the end of `s`. */
  function TrailingSpaces(s: string): (n: nat)
    ensures n <= |s|
  {
    if s != [] && IsJsSpace(s[|s| - 1]) then 1 + TrailingSpaces(s[..|s| - 1]) else 0
  }

  /** `String.prototype.trim`. */
  function Trim(s: string): string {
    var t := s[LeadingSpaces(s)..];
    t[..|t| - TrailingSpaces(t)]
  }

  /** The leading run is white space and stops at the first other character. */
  lemma {:induction false} LeadingSpacesShape(s: string)
    ensures AllSpaces(s[..LeadingSpaces(s)])
    ensures LeadingSpaces(s) < |s| ==> !IsJsSpace(s[LeadingSpaces(s)])
  {
    if s != [] && IsJsSpace(s[0]) {
      LeadingSpacesShape(s[1..]);
      assert s[..LeadingSpaces(s)] == [s[0]] + s[1..][..LeadingSpaces(s[1..])];
    }
  }

  /** The trailing run is white space and stops at the last other character. */
  lemma {:induction false} TrailingSpacesShape(s: string)
    ensures AllSpaces(s[|s| - TrailingSpaces(s)..])
    ensures TrailingSpaces(s) < |s| ==> !IsJsSpace(s[|s| - TrailingSpaces(s) - 1])
  {
    if s != [] && IsJsSpace(s[|s| - 1]) {
      var u := s[..|s| - 1];
      TrailingSpacesShape(u);
      assert s[|s| - TrailingSpaces(s)..] == u[|u| - TrailingSpaces(u)..] + [s[|s| - 1]];
    }
  }

  /** `trim` keeps a middle slice of `s`, after the leading white space. */
  lemma TrimSlice(s: string)
    ensures var a := LeadingSpaces(s); var r := Trim(s);
      a + |r| <= |s| && r == s[a..a + |r|]
  {
  }

  /** Trimming only removes characters. */
  lemma TrimChars(s: string)
    ensures forall c :: c in Trim(s) ==> c in s
  {
    TrimSlice(s);
    var a := LeadingSpaces(s);
    var r := Trim(s);
    forall c | c in r ensures c in s {
      var i :| 0 <= i < |r| && r[i] == c;
      assert s[a + i] == c;
    }
  }

  lemma {:induction false} LeadingSpacesSkip(a: string, t: string)
    requires AllSpaces(a)
    requires t == [] || !IsJsSpace(t[0])
    ensures LeadingSpaces(a + t) == |a|
  {
    if a == [] {
      assert a + t == t;
    } else {
      assert (a + t)[1..] == a[1..] + t;
      LeadingSpacesSkip(a[1..], t);
    }
  }

  lemma {:induction false} TrailingSpacesSkip(t: string, b: string)
    requires AllSpaces(b)
    requires t == [] || !IsJsSpace(t[|t| - 1])
    ensures TrailingSpaces(t + b) == |b|
  {
    if b == [] {
      assert t + b == t;
    } else {
      assert (t + b)[..|t + b| - 1] == t + b[..|b| - 1];
      TrailingSpacesSkip(t, b[..|b| - 1]);
    }
  }

  /** `trim` removes exactly the surrounding white space: a trimmed core with
      any white space around it comes back as that core. */
  lemma TrimExact(a: string, t: string, b: string)
    requires AllSpaces(a) && AllSpaces(b) && Trimmed(t)
    ensures Trim(a + t + b) == t
  {
    var s := a + t + b;
    if t == [] {
      assert s == (a + b) + [];
      assert AllSpaces(a + b);
      LeadingSpacesSkip(a + b, []);
      assert s[|s|..] == [];
    } else {
      assert s == a + (t + b);
      LeadingSpacesSkip(a, t + b);
      assert s[|a|..] == t + b;
      TrailingSpacesSkip(t, b);
    }
  }

  /** Text that is already trimmed is left alone. */
  lemma TrimOfTrimmed(t: string)
    requires Trimmed(t)
    ensures Trim(t) == t
  {
    TrimExact([], t, []);
    assert [] + t + [] == t;
  }

  predicate IsDigit(c: char) {
    '0' <= c <= '9'
  }

  predicate AllDigits(s: string) {
    forall i :: 0 <= i < |s| ==> IsDigit(s[i])
  }

  /** The characters of the regular-expression class `\w`. */
  predicate IsWordChar(c: char) {
    IsDigit(c) || 'a' <= c <= 'z' || 'A' <= c <= 'Z' || c == '_'
  }

  function DigitChar(d: nat): (c: char)
    requires d < 10
    ensures IsDigit(c)
  {
    ('0' as int + d) as char
  }

  function DigitValue(c: char): (d: nat)
    requires IsDigit(c)
    ensures d < 10 && DigitChar(d) == c
  {
    c as int - '0' as int
  }

  /** A natural number as a template literal renders it: decimal, no leading zero. */
  function NatToString(n: nat): (r: string)
    ensures r != [] && AllDigits(r)
  {
    if n < 10 then [DigitChar(n)] else NatToString(n / 10) + [DigitChar(n % 10)]
  }

  /** The value of a run of decimal digits. */
  function DecimalValue(s: string): nat
    requires AllDigits(s)
  {
    if s == [] then 0 else DecimalValue(s[..|s| - 1]) * 10 + DigitValue(s[|s| - 1])
  }

  /** Reading back the decimal rendering of `n` gives `n`. */
  lemma {:induction false} DecimalRoundTrip(n: nat)
    ensures DecimalValue(NatToString(n)) == n
  {
    if n >= 10 {
      var s := NatToString(n);
      assert s[..|s| - 1] == NatToString(n / 10);
      DecimalRoundTrip(n / 10);
    }
  }

  /** Distinct numbers render as distinct strings. */
  lemma NatToStringInjective(a: nat, b: nat)
    requires NatToString(a) == NatToString(b)
    ensures a == b
  {
    DecimalRoundTrip(a);
    DecimalRoundTrip(b);
  }

  /** `n` spaces. */
  function Spaces(n: nat): (r: string)
    ensures |r| == n && forall i :: 0 <= i < n ==> r[i] == ' '
  {
    if n == 0 then "" else Spaces(n - 1) + " "
  }

  /** The length of the run of spaces at the start of `s`. */
  function SpaceRun(s: string): (n: nat)
    ensures n <= |s|
  {
    if s != [] && s[0] == ' ' then 1 + SpaceRun(s[1..]) else 0
  }

  /** The run is made of spaces and stops at the first other character. */
  lemma {:induction false} SpaceRunShape(s: string)
    ensures forall i :: 0 <= i < SpaceRun(s) ==> s[i] == ' '
    ensures SpaceRun(s) < |s| ==> s[SpaceRun(s)] != ' '
  {
    if s != [] && s[0] == ' ' {
      SpaceRunShape(s[1..]);
      forall i | 1 <= i < SpaceRun(s) ensures s[i] == ' ' {
        assert s[i] == s[1..][i - 1];
      }
    }
  }

  /** The position of the first `c` in `s`, or `|s|` when there is none. */
  function IndexOf(s: string, c: char): (k: nat)
    ensures k <= |s|
    ensures k < |s| ==> s[k] == c
  {
    if s == [] then 0 else if s[0] == c then 0 else 1 + IndexOf(s[1..], c)
  }

  /** No `c` comes before the position `IndexOf` returns. */
  lemma {:induction false} IndexOfSkips(s: string, c: char)
    ensures forall i :: 0 <= i < IndexOf(s, c) ==> s[i] != c
  {
    if s != [] && s[0] != c {
      IndexOfSkips(s[1..], c);
      forall i | 1 <= i < IndexOf(s, c) ensures s[i] != c {
        assert s[i] == s[1..][i - 1];
      }
    }
  }

  /** A `c` at `j` with none before it is the one `IndexOf` finds; with none
      at all, it returns `|s|`. */
  lemma {:induction false} IndexOfAt(s: string, c: char, j: nat)
    requires j <= |s| && (j < |s| ==> s[j] == c)
    requires forall i :: 0 <= i < j ==> s[i] != c
    ensures IndexOf(s, c) == j
  {
    if j > 0 {
      forall i | 0 <= i < j - 1 ensures s[1..][i] != c {
        assert s[1..][i] == s[i + 1];
      }
      IndexOfAt(s[1..], c, j - 1);
    }
  }

  /** `Array.prototype.join`. */
  function Join(parts: seq<string>, sep: string): string {
    if |parts| == 0 then ""
    else if |parts| == 1 then parts[0]
    else parts[0] + sep + Join(parts[1..], sep)
  }

  /** Splitting at every `c`, the inverse of joining with `[c]`. */
  function Split(s: string, c: char): (r: seq<string>)
    ensures |r| >= 1
    decreases |s|
  {
    var k := IndexOf(s, c);
    if k == |s| then [s] else [s[..k]] + Split(s[k + 1..], c)
  }

  /** Joining parts that do not contain the separator character and splitting
      again gives the parts back. */
  lemma {:induction false} SplitJoin(parts: seq<string>, c: char)
    requires |parts| >= 1
    requires forall i :: 0 <= i < |parts| ==> c !in parts[i]
    ensures Split(Join(parts, [c]), c) == parts
  {
    if |parts| == 1 {
      IndexOfAt(parts[0], c, |parts[0]|);
    } else {
      var s := Join(parts, [c]);
      var rest := Join(parts[1..], [c]);
      assert s == parts[0] + [c] + rest;
      assert IndexOf(s, c) == |parts[0]| by {
        assert s[|parts[0]|] == c;
        assert forall i :: 0 <= i < |parts[0]| ==> s[i] == parts[0][i];
        IndexOfAt(s, c, |parts[0]|);
      }
      assert s[..|parts[0]|] == parts[0];
      assert s[|parts[0]| + 1..] == rest;
      SplitJoin(parts[1..], c);
    }
  }
}
