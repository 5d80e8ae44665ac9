/** The option helpers of the command-line tool (bin/index.js): `parseMargin`
    reads the `--margin` argument, and `generatePdfOptions` turns the parsed
    options into browser arguments and PDF options. */
module Cli {
  import opened Wrappers
  import opened Strings
  import opened Matching

  /** The number of decimal digits in `s` from position `i` on (`\d+`, greedy). */
  function DigitsAt(s: string, i: nat): (n: nat)
    requires i <= |s|
    ensures i + n <= |s|
    decreases |s| - i
  {
    if i < |s| && IsDigit(s[i]) then 1 + DigitsAt(s, i + 1) else 0
  }

  /** The number of word characters in `s` from position `i` on, at most
      `limit` (`\w{0,limit}`, greedy). */
  function WordCharsAt(s: string, i: nat, limit: nat): (n: nat)
    requires i <= |s|
    ensures i + n <= |s| && n <= limit
    decreases limit
  {
    if limit > 0 && i < |s| && IsWordChar(s[i]) then 1 + WordCharsAt(s, i + 1, limit - 1) else 0
  }

  /** The matcher of `\d+\w{0,2}`: digits, then at most two word characters. */
  function MarginLen(s: string, i: nat): nat {
    if i < |s| then
      var d := DigitsAt(s, i);
      if d == 0 then 0 else d + WordCharsAt(s, i + d, 2)
    else 0
  }

  /** A margin specifier: a run of digits followed by at most two word
      characters, such as `25px` or `2cm`. */
  predicate IsSpecifier(v: string) {
    exists d :: 1 <= d <= |v| && |v| - d <= 2 && AllDigits(v[..d])
      && forall j :: d <= j < |v| ==> IsWordChar(v[j])
  }

  /** `{ top, right, bottom, left }`, the values kept as the matched strings. */
  datatype Margin = Margin(top: string, right: string, bottom: string, left: string)

  datatype MarginError =
    | NoSpecifier           // `[...null]` throws a TypeError
    | WrongCount(count: nat) // "Was expecting exactly 4 margin specifiers"

  /** `parseMargin`. */
  function ParseMargin(marginString: string): Result<Margin, MarginError> {
    var matches := MatchAll(MarginLen, marginString, 0);
    if matches == [] then Failure(NoSpecifier)
    else if |matches| != 4 then Failure(WrongCount(|matches|))
    else Success(Margin(matches[0], matches[1], matches[2], matches[3]))
  }

  /** The margin as it is written on the command line. */
  function FormatMargin(m: Margin): string {
    Join([m.top, m.right, m.bottom, m.left], " ")
  }

  // ---------------------------------------------------------------------------
  // The scan

  lemma {:induction false} DigitsAtShape(s: string, i: nat)
    requires i <= |s|
    ensures forall j :: i <= j < i + DigitsAt(s, i) ==> IsDigit(s[j])
    decreases |s| - i
  {
    if i < |s| && IsDigit(s[i]) {
      DigitsAtShape(s, i + 1);
    }
  }

  lemma {:induction false} WordCharsAtShape(s: string, i: nat, limit: nat)
    requires i <= |s|
    ensures forall j :: i <= j < i + WordCharsAt(s, i, limit) ==> IsWordChar(s[j])
    decreases limit
  {
    if limit > 0 && i < |s| && IsWordChar(s[i]) {
      WordCharsAtShape(s, i + 1, limit - 1);
    }
  }

  /** Every match of the scan is a margin specifier. */
  lemma MatchIsSpecifier(s: string, i: nat)
    requires MarginLen(s, i) > 0
    ensures i + MarginLen(s, i) <= |s| && IsSpecifier(s[i..i + MarginLen(s, i)])
  {
    var d := DigitsAt(s, i);
    var v := s[i..i + MarginLen(s, i)];
    DigitsAtShape(s, i);
    WordCharsAtShape(s, i + d, 2);
    assert AllDigits(v[..d]) by {
      forall j | 0 <= j < d ensures IsDigit(v[..d][j]) {
        assert v[..d][j] == s[i + j];
      }
    }
    forall j | d <= j < |v| ensures IsWordChar(v[j]) {
      assert v[j] == s[i + j];
    }
  }

  /** The digit run from `i` covers at least the `lo` digits known to be there
      and stops at the first non-digit, at `hi` or earlier. */
  lemma {:induction false} DigitsAtBetween(s: string, i: nat, lo: nat, hi: nat)
    requires i + hi <= |s| && lo <= hi
    requires forall j :: i <= j < i + lo ==> IsDigit(s[j])
    requires i + hi == |s| || !IsDigit(s[i + hi])
    ensures lo <= DigitsAt(s, i) <= hi
    decreases hi
  {
    if hi > 0 && IsDigit(s[i]) {
      DigitsAtBetween(s, i + 1, if lo > 0 then lo - 1 else 0, hi - 1);
    }
  }

  /** A run of `k` word characters, no longer than the limit and ended by a
      non-word character or the end of `s`, is taken whole. */
  lemma {:induction false} WordCharsAtRun(s: string, i: nat, k: nat, limit: nat)
    requires i + k <= |s| && k <= limit
    requires forall j :: i <= j < i + k ==> IsWordChar(s[j])
    requires i + k == |s| || !IsWordChar(s[i + k])
    ensures WordCharsAt(s, i, limit) == k
    decreases k
  {
    if k > 0 {
      WordCharsAtRun(s, i + 1, k - 1, limit - 1);
    }
  }

  /** A specifier followed by a space or the end of the text is matched
      whole. */
  lemma SpecifierMatched(s: string, i: nat, v: string)
    requires IsSpecifier(v) && i + |v| <= |s| && s[i..i + |v|] == v
    requires i + |v| == |s| || s[i + |v|] == ' '
    ensures MarginLen(s, i) == |v|
  {
    var d :| 1 <= d <= |v| && |v| - d <= 2 && AllDigits(v[..d]) && forall j :: d <= j < |v| ==> IsWordChar(v[j]);
    forall j | i <= j < i + d ensures IsDigit(s[j]) {
      assert s[j] == v[..d][j - i];
    }
    DigitsAtBetween(s, i, d, |v|);
    var e := DigitsAt(s, i);
    forall j | i + e <= j < i + |v| ensures IsWordChar(s[j]) {
      assert s[j] == v[j - i];
    }
    WordCharsAtRun(s, i + e, |v| - e, 2);
  }

  /** A specifier at `i` is the next element of the scan. */
  lemma MatchAllTakesSpecifier(s: string, i: nat, v: string)
    requires IsSpecifier(v) && i + |v| <= |s| && s[i..i + |v|] == v
    requires i + |v| == |s| || s[i + |v|] == ' '
    ensures MatchAll(MarginLen, s, i) == [v] + MatchAll(MarginLen, s, i + |v|)
  {
    SpecifierMatched(s, i, v);
  }

  /** A space is skipped by the scan. */
  lemma MatchAllSkipsSpace(s: string, j: nat)
    requires j < |s| && s[j] == ' '
    ensures MatchAll(MarginLen, s, j) == MatchAll(MarginLen, s, j + 1)
  {
  }

  /** Specifiers joined by single spaces are found again, one by one, in
      order. */
  lemma {:induction false} MatchAllFields(s: string, i: nat, fields: seq<string>)
    requires |fields| >= 1 && forall k :: 0 <= k < |fields| ==> IsSpecifier(fields[k])
    requires i <= |s| && s[i..] == Join(fields, " ")
    ensures MatchAll(MarginLen, s, i) == fields
    decreases |fields|
  {
    if |fields| == 1 {
      MatchAllLastField(s, i, fields[0]);
      assert fields == [fields[0]];
    } else {
      var rest := fields[1..];
      assert Join(fields, " ") == fields[0] + (" " + Join(rest, " "));
      var j := MatchAllNextField(s, i, fields[0], Join(rest, " "));
      assert forall k :: 0 <= k < |rest| ==> IsSpecifier(rest[k]) by {
        forall k | 0 <= k < |rest| ensures IsSpecifier(rest[k]) {
          assert rest[k] == fields[k + 1];
        }
      }
      MatchAllFields(s, j, rest);
      assert fields == [fields[0]] + rest;
    }
  }

  /** A specifier that ends the text is its last match. */
  lemma MatchAllLastField(s: string, i: nat, v: string)
    requires IsSpecifier(v) && i <= |s| && s[i..] == v
    ensures MatchAll(MarginLen, s, i) == [v]
  {
    SuffixSplit(s, i, v, "");
    MatchAllTakesSpecifier(s, i, v);
    assert MatchAll(MarginLen, s, i + |v|) == [];
  }

  /** A specifier followed by a space is matched, and the scan resumes at
      `j`, just after the space. */
  lemma MatchAllNextField(s: string, i: nat, v: string, rest: string) returns (j: nat)
    requires IsSpecifier(v) && i <= |s| && s[i..] == v + (" " + rest)
    ensures j <= |s| && s[j..] == rest
    ensures MatchAll(MarginLen, s, i) == [v] + MatchAll(MarginLen, s, j)
  {
    SuffixSplit(s, i, v, " " + rest);
    SuffixSplit(s, i + |v|, " ", rest);
    MatchAllTakesSpecifier(s, i, v);
    MatchAllSkipsSpace(s, i + |v|);
    j := i + |v| + 1;
  }

  /** A suffix made of two parts holds the first part, then the second. */
  lemma SuffixSplit(s: string, i: nat, a: string, b: string)
    requires i <= |s| && s[i..] == a + b
    ensures i + |a| <= |s| && s[i..i + |a|] == a && s[i + |a|..] == b
    ensures |a| > 0 ==> s[i] == a[0]
  {
    assert s[i..i + |a|] == (a + b)[..|a|];
    assert s[i + |a|..] == (a + b)[|a|..];
  }

  // ---------------------------------------------------------------------------
  // Properties of parseMargin

  /** Every value `parseMargin` returns is a margin specifier. */
  lemma ParsedValuesAreSpecifiers(marginString: string)
    requires ParseMargin(marginString).Success?
    ensures var m := ParseMargin(marginString).value;
      IsSpecifier(m.top) && IsSpecifier(m.right) && IsSpecifier(m.bottom) && IsSpecifier(m.left)
  {
    var matches := MatchAll(MarginLen, marginString, 0);
    forall k | 0 <= k < 4 ensures IsSpecifier(matches[k]) {
      var j := MatchAllElement(MarginLen, marginString, 0, k);
      MatchIsSpecifier(marginString, j);
    }
  }

  /** Four specifiers written in order top, right, bottom, left are read back
      in that order. */
  lemma ParseFormatRoundTrip(m: Margin)
    requires IsSpecifier(m.top) && IsSpecifier(m.right) && IsSpecifier(m.bottom) && IsSpecifier(m.left)
    ensures ParseMargin(FormatMargin(m)) == Success(m)
  {
    var fields := [m.top, m.right, m.bottom, m.left];
    var s := FormatMargin(m);
    assert s[0..] == s;
    MatchAllFields(s, 0, fields);
  }

  /** Any number of specifiers other than four is rejected with that count. */
  lemma ParseMarginRejectsOtherCounts(fields: seq<string>)
    requires |fields| >= 1 && |fields| != 4
    requires forall k :: 0 <= k < |fields| ==> IsSpecifier(fields[k])
    ensures ParseMargin(Join(fields, " ")) == Failure(WrongCount(|fields|))
  {
    var s := Join(fields, " ");
    assert s[0..] == s;
    MatchAllFields(s, 0, fields);
  }

  /** Three specifiers are one short: `"2cm 2cm 2cm"` is rejected. */
  lemma ThreeSpecifiersRejected()
    ensures ParseMargin("2cm 2cm 2cm") == Failure(WrongCount(3))
  {
    var v := "2cm";
    assert AllDigits(v[..1]);
    assert IsSpecifier(v);
    assert Join([v], " ") == v;
    assert [v, v, v][1..] == [v, v] && [v, v][1..] == [v];
    assert Join([v, v, v], " ") == "2cm 2cm 2cm";
    ParseMarginRejectsOtherCounts([v, v, v]);
  }

  /** `parseMargin` applied to the string the `--margin` option names as its
      default reads it as 25px, 35px, 25px, 35px. (The option library hands
      that default over as a string, without calling `parseMargin`.) */
  lemma DefaultMarginParsed()
    ensures ParseMargin("25px 35px 25px 35px") == Success(Margin("25px", "35px", "25px", "35px"))
  {
    var m := Margin("25px", "35px", "25px", "35px");
    assert AllDigits("25px"[..2]) && AllDigits("35px"[..2]);
    assert IsSpecifier("25px") && IsSpecifier("35px");
    assert FormatMargin(m) == "25px 35px 25px 35px";
    ParseFormatRoundTrip(m);
  }

  /** Text without any digit holds no specifier: the `null` match makes the
      spread throw. */
  lemma NoDigitsRejected(marginString: string)
    requires forall i :: 0 <= i < |marginString| ==> !IsDigit(marginString[i])
    ensures ParseMargin(marginString) == Failure(NoSpecifier)
  {
    if MatchAll(MarginLen, marginString, 0) != [] {
      var j := MatchAllElement(MarginLen, marginString, 0, 0);
      assert DigitsAt(marginString, j) == 0;
    }
  }

  // ---------------------------------------------------------------------------
  // generatePdfOptions

  /** The options the command line collects; the margin is passed through as
      it is. */
  datatype CliOptions<M> = CliOptions(sandbox: bool, margin: M, format: string, printBackground: bool)

  datatype PdfOpts<M> = PdfOpts(margin: M, format: string, printBackground: bool)

  datatype PdfOptions<M> = PdfOptions(puppeteerArgs: seq<string>, puppeteerPdfOpts: PdfOpts<M>)

  /** `generatePdfOptions`: the browser is started without its sandbox exactly
      when the sandbox was switched off, and the PDF options are copied. */
  function GeneratePdfOptions<M>(options: CliOptions<M>): (r: PdfOptions<M>)
    ensures r.puppeteerArgs == [] <==> options.sandbox
    ensures "--no-sandbox" in r.puppeteerArgs <==> !options.sandbox
    ensures |r.puppeteerArgs| <= 1
    ensures r.puppeteerPdfOpts == PdfOpts(options.margin, options.format, options.printBackground)
  {
    PdfOptions(if options.sandbox then [] else ["--no-sandbox"],
               PdfOpts(options.margin, options.format, options.printBackground))
  }
}
