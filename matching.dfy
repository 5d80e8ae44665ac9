/** Global regular-expression search and replacement (`s.match(re)` and
    `s.replace(re, text)` with the `g` flag), over an abstract matcher: a
    matcher gives the length of the match starting at a position, or 0 when
    none starts there. The scan goes left to right and resumes after each
    match, as the JavaScript engine does. */
module Matching {

  type Matcher = (string, nat) -> nat

  /** A (non-empty) match of `m` starts at position `i` of `s`. */
  predicate MatchesAt(m: Matcher, s: string, i: nat) {
    i < |s| && 0 < m(s, i) <= |s| - i
  }

  /** The position of the first match at or after `i`, or `|s|` when there is none. */
  function FirstMatch(m: Matcher, s: string, i: nat): (k: nat)
    requires i <= |s|
    ensures i <= k <= |s|
    ensures k < |s| ==> MatchesAt(m, s, k)
    decreases |s| - i
  {
    if i == |s| then i else if MatchesAt(m, s, i) then i else FirstMatch(m, s, i + 1)
  }

  /** `s.match(re)` is truthy. */
  predicate HasMatch(m: Matcher, s: string) {
    FirstMatch(m, s, 0) < |s|
  }

  /** `FirstMatch` finds the first match: there is one where it stops, and
      none before. */
  lemma {:induction false} FirstMatchIsFirst(m: Matcher, s: string, i: nat)
    requires i <= |s|
    ensures var k := FirstMatch(m, s, i);
      (k < |s| ==> MatchesAt(m, s, k)) && forall j :: i <= j < k ==> !MatchesAt(m, s, j)
    decreases |s| - i
  {
    if i < |s| && !MatchesAt(m, s, i) {
      FirstMatchIsFirst(m, s, i + 1);
    }
  }

  /** The match test holds exactly when a match starts somewhere in `s`. */
  lemma HasMatchExactly(m: Matcher, s: string)
    ensures HasMatch(m, s) <==> exists j :: 0 <= j < |s| && MatchesAt(m, s, j)
  {
    FirstMatchIsFirst(m, s, 0);
  }

  /** `s.replace(re, text)` with the `g` flag, applied from position `i` on. */
  function ReplaceAll(m: Matcher, s: string, i: nat, text: string): string
    requires i <= |s|
    decreases |s| - i
  {
    if i == |s| then ""
    else if MatchesAt(m, s, i) then text + ReplaceAll(m, s, i + m(s, i), text)
    else [s[i]] + ReplaceAll(m, s, i + 1, text)
  }

  /** The replacement only brings in characters of `s` and of the new text. */
  lemma {:induction false} ReplaceAllChars(m: Matcher, s: string, i: nat, text: string)
    requires i <= |s|
    ensures forall c :: c in ReplaceAll(m, s, i, text) ==> c in s || c in text
    decreases |s| - i
  {
    if i < |s| {
      if MatchesAt(m, s, i) {
        ReplaceAllChars(m, s, i + m(s, i), text);
      } else {
        ReplaceAllChars(m, s, i + 1, text);
      }
    }
  }

  /** Text without a match is copied unchanged. */
  lemma {:induction false} ReplaceAllWithoutMatch(m: Matcher, s: string, i: nat, text: string)
    requires i <= |s| && FirstMatch(m, s, i) == |s|
    ensures ReplaceAll(m, s, i, text) == s[i..]
    decreases |s| - i
  {
    if i < |s| {
      ReplaceAllWithoutMatch(m, s, i + 1, text);
      assert s[i..] == [s[i]] + s[i + 1..];
    }
  }

  /** Text in which no match starts is copied unchanged. */
  lemma {:induction false} ReplaceAllCopies(m: Matcher, s: string, i: nat, k: nat, text: string)
    requires i <= k <= |s|
    requires forall j :: i <= j < k ==> !MatchesAt(m, s, j)
    ensures ReplaceAll(m, s, i, text) == s[i..k] + ReplaceAll(m, s, k, text)
    decreases k - i
  {
    if i < k {
      ReplaceAllCopies(m, s, i + 1, k, text);
      ConsSlice(s, i, k, ReplaceAll(m, s, k, text));
    } else {
      assert s[i..k] == [];
    }
  }

  /** Putting back the character before a slice extends the slice. */
  lemma ConsSlice(s: string, i: nat, k: nat, rest: string)
    requires i < k <= |s|
    ensures [s[i]] + (s[i + 1..k] + rest) == s[i..k] + rest
  {
    assert s[i..k] == [s[i]] + s[i + 1..k];
  }

  /** Text before the first match is copied, the match is replaced, and the
      replacement goes on after it. */
  lemma ReplaceAllAtFirst(m: Matcher, s: string, i: nat, text: string)
    requires i <= |s| && FirstMatch(m, s, i) < |s|
    ensures var k := FirstMatch(m, s, i);
      ReplaceAll(m, s, i, text) == s[i..k] + (text + ReplaceAll(m, s, k + m(s, k), text))
  {
    var k := FirstMatch(m, s, i);
    FirstMatchIsFirst(m, s, i);
    ReplaceAllCopies(m, s, i, k, text);
  }

  /** With a single match, the replacement swaps that match for the new text
      and keeps everything around it. */
  lemma ReplaceAllSingle(m: Matcher, s: string, text: string, k: nat, n: nat)
    requires k == FirstMatch(m, s, 0) < |s| && n == m(s, k)
    requires FirstMatch(m, s, k + n) == |s|
    ensures ReplaceAll(m, s, 0, text) == s[..k] + text + s[k + n..]
  {
    ReplaceAllAtFirst(m, s, 0, text);
    ReplaceAllWithoutMatch(m, s, k + m(s, k), text);
    assert s[0..k] == s[..k];
  }

  /** `s.match(re)` with the `g` flag, from position `i` on: every match, in
      order (JavaScript gives `null` instead of an empty list). */
  function MatchAll(m: Matcher, s: string, i: nat): seq<string>
    requires i <= |s|
    decreases |s| - i
  {
    if i == |s| then []
    else if MatchesAt(m, s, i) then [s[i..i + m(s, i)]] + MatchAll(m, s, i + m(s, i))
    else MatchAll(m, s, i + 1)
  }

  /** Every element of the list is the text of a match at or after `i`; `j`
      is where that match starts. */
  lemma {:induction false} MatchAllElement(m: Matcher, s: string, i: nat, k: nat) returns (j: nat)
    requires i <= |s| && k < |MatchAll(m, s, i)|
    ensures i <= j < |s| && MatchesAt(m, s, j) && MatchAll(m, s, i)[k] == s[j..j + m(s, j)]
    decreases |s| - i
  {
    if MatchesAt(m, s, i) {
      if k == 0 {
        j := i;
      } else {
        j := MatchAllElement(m, s, i + m(s, i), k - 1);
      }
    } else {
      j := MatchAllElement(m, s, i + 1, k);
    }
  }
}
