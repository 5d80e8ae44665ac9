/** The structure of a page's `<article>` as the crawl sees it, and the heading
    rewriting of `generatePdf` (src/index.ts): every heading after the
    table-of-contents marker gets a fresh id and a table-of-contents entry.

    The regular expressions of the source are modelled structurally: an article
    is a sequence of segments, where a `Marker` is an occurrence of
    `<toc></toc>` or `<toc/>` and a `Heading` is a match of
    `<h[1-6](.+?)<\/h[1-6]( )*>`. The small expressions applied to a matched
    heading (self-link removal, tag stripping, id detection) are modelled
    character by character. */
module Headings {
  import opened Strings
  import opened Matching

  type Level = n: int | 1 <= n <= 6 witness 1

  /** A line of text: the heading expression's `.` does not cross line breaks. */
  type LineText = s: string | NoLineBreak(s)

  /** The text of an opening tag between `<hN` and its closing `>`. */
  type TagBody = s: string | '>' !in s && NoLineBreak(s)

  /** `Math.random().toString(36).substr(2, 5)`: at most five base-36 digits. */
  predicate IsTokenChar(c: char) {
    '0' <= c <= '9' || 'a' <= c <= 'z'
  }

  type Token = s: string | |s| <= 5 && forall i | 0 <= i < |s| :: IsTokenChar(s[i])

  datatype MarkerForm = PairedTags | SelfClosing

  /** A match of the heading expression, `<hN attrs>inner</hM   >`: `level` is
      N, `closeLevel` is M and `closeSpaces` the spaces before the final `>`. */
  datatype HeadingTag = HeadingTag(level: Level, attrs: TagBody, inner: LineText, closeLevel: Level, closeSpaces: nat)

  datatype Segment =
    | Text(text: string)
    | Marker(form: MarkerForm)
    | Heading(tag: HeadingTag)

  /** One entry of the `headers` array: `{ header, level, id }`. */
  datatype HeaderEntry = HeaderEntry(header: string, level: Level, id: string)

  function MarkerText(form: MarkerForm): string {
    match form
    case PairedTags => "<toc></toc>"
    case SelfClosing => "<toc/>"
  }

  function OpenTag(level: Level, attrs: TagBody): string {
    "<h" + [DigitChar(level)] + attrs + ">"
  }

  function CloseTag(level: Level, spaces: nat): string {
    "</h" + [DigitChar(level)] + Spaces(spaces) + ">"
  }

  function RenderHeading(h: HeadingTag): string {
    OpenTag(h.level, h.attrs) + h.inner + CloseTag(h.closeLevel, h.closeSpaces)
  }

  function RenderSegment(seg: Segment): string {
    match seg
    case Text(t) => t
    case Marker(form) => MarkerText(form)
    case Heading(h) => RenderHeading(h)
  }

  /** The HTML text of a sequence of segments. */
  function Render(segs: seq<Segment>): string {
    if segs == [] then "" else RenderSegment(segs[0]) + Render(segs[1..])
  }

  lemma {:induction false} RenderAppend(a: seq<Segment>, b: seq<Segment>)
    ensures Render(a + b) == Render(a) + Render(b)
  {
    if a == [] {
      assert a + b == b;
    } else {
      assert (a + b)[0] == a[0];
      assert (a + b)[1..] == a[1..] + b;
      RenderAppend(a[1..], b);
    }
  }

  // ---------------------------------------------------------------------------
  // The table-of-contents marker

  /** The position of the first marker, or `|segs|` when there is none
      (`html.match(/(<toc><\/toc>)|(<toc\/>)/).index`). */
  function MarkerIndex(segs: seq<Segment>): (k: nat)
    ensures k <= |segs|
    ensures k < |segs| ==> segs[k].Marker?
    ensures forall i :: 0 <= i < k ==> !segs[i].Marker?
  {
    if segs == [] then 0 else if segs[0].Marker? then 0 else 1 + MarkerIndex(segs[1..])
  }

  predicate HasMarker(segs: seq<Segment>) {
    MarkerIndex(segs) < |segs|
  }

  /** The marker test finds a marker exactly when the article holds one. */
  lemma HasMarkerExactly(segs: seq<Segment>)
    ensures HasMarker(segs) <==> exists i :: 0 <= i < |segs| && segs[i].Marker?
  {
  }

  /** Splitting an article at its first marker loses nothing: the prefix pushed
      on its own and the rest starting at the marker render to the article. */
  lemma SplitAtMarker(segs: seq<Segment>)
    requires HasMarker(segs)
    ensures var k := MarkerIndex(segs);
      Render(segs[..k]) + Render(segs[k..]) == Render(segs) && segs[k..][0].Marker?
  {
    var k := MarkerIndex(segs);
    assert segs[..k] + segs[k..] == segs;
    RenderAppend(segs[..k], segs[k..]);
  }

  // ---------------------------------------------------------------------------
  // The label of a heading

  /** The length of a match of `<a[^>]*>#<\/a( )*>` at the start of `s`, or 0. */
  function HashLinkLen(s: string): (n: nat)
    ensures n <= |s|
  {
    if |s| >= 2 && s[0] == '<' && s[1] == 'a' then
      var j := IndexOf(s, '>');
      if j + 4 < |s| && s[j + 1] == '#' && s[j + 2] == '<' && s[j + 3] == '/' && s[j + 4] == 'a' then
        var k := j + 5 + SpaceRun(s[j + 5..]);
        if k < |s| && s[k] == '>' then k + 1 else 0
      else 0
    else 0
  }

  /** `replace(/<a[^>]*>#<\/a( )*>/g, "")`: removes the self-links documentation
      generators put into headings. */
  function RemoveHashLinks(s: string): string
    decreases |s|
  {
    if s == [] then ""
    else
      var n := HashLinkLen(s);
      if n > 0 then RemoveHashLinks(s[n..]) else [s[0]] + RemoveHashLinks(s[1..])
  }

  /** Every character of `s[n..]` is a character of `s`. */
  lemma DropKeepsChars(s: string, n: nat)
    requires n <= |s|
    ensures forall c :: c in s[n..] ==> c in s
  {
    forall c | c in s[n..] ensures c in s {
      var i :| 0 <= i < |s[n..]| && s[n..][i] == c;
      assert s[n + i] == c;
    }
  }

  /** Removing self-links only removes characters. */
  lemma {:induction false} RemoveHashLinksChars(s: string)
    ensures forall c :: c in RemoveHashLinks(s) ==> c in s
    decreases |s|
  {
    if s != [] {
      var n := HashLinkLen(s);
      if n > 0 {
        RemoveHashLinksChars(s[n..]);
        DropKeepsChars(s, n);
      } else {
        RemoveHashLinksChars(s[1..]);
        DropKeepsChars(s, 1);
      }
    }
  }

  /** No `<` in `s` is followed later by a `>`: there is no tag left. */
  predicate NoTags(s: string) {
    forall i, j :: 0 <= i < j < |s| && s[i] == '<' ==> s[j] != '>'
  }

  /** `replace(/<[^>]*>/g, "")`: removes every tag. */
  function StripTags(s: string): string
    decreases |s|
  {
    if s == [] then ""
    else if s[0] == '<' && IndexOf(s, '>') < |s| then StripTags(s[IndexOf(s, '>') + 1..])
    else [s[0]] + StripTags(s[1..])
  }

  /** Tag stripping only removes characters, and leaves no tag behind. */
  lemma {:induction false} StripTagsResult(s: string)
    ensures forall c :: c in StripTags(s) ==> c in s
    ensures NoTags(StripTags(s))
    decreases |s|
  {
    if s != [] {
      var j := IndexOf(s, '>');
      if s[0] == '<' && j < |s| {
        StripTagsResult(s[j + 1..]);
        DropKeepsChars(s, j + 1);
      } else {
        StripTagsResult(s[1..]);
        DropKeepsChars(s, 1);
        var rest := StripTags(s[1..]);
        if s[0] == '<' {
          IndexOfSkips(s, '>');
          assert forall i :: 0 <= i < |s[1..]| ==> s[1..][i] == s[i + 1] != '>';
          assert '>' !in rest;
        }
        assert StripTags(s) == [s[0]] + rest;
      }
    }
  }

  /** Text without tags is left alone by tag stripping. */
  lemma {:induction false} StripTagsKeepsTagFree(s: string)
    requires NoTags(s)
    ensures StripTags(s) == s
    decreases |s|
  {
    if s != [] {
      if s[0] == '<' {
        IndexOfAt(s, '>', |s|);
      }
      assert NoTags(s[1..]) by {
        forall i, j | 0 <= i < j < |s[1..]| && s[1..][i] == '<' ensures s[1..][j] != '>' {
          assert s[i + 1] == '<';
        }
      }
      StripTagsKeepsTagFree(s[1..]);
      assert s == [s[0]] + s[1..];
    }
  }

  /** Stripping tags twice is stripping them once. */
  lemma StripTagsIdempotent(s: string)
    ensures StripTags(StripTags(s)) == StripTags(s)
  {
    StripTagsResult(s);
    StripTagsKeepsTagFree(StripTags(s));
  }

  /** The header text of a heading: self-links removed, tags stripped, trimmed. */
  function Label(h: HeadingTag): string {
    Trim(StripTags(RemoveHashLinks(RenderHeading(h))))
  }

  /** A matched heading lies on one line. */
  lemma RenderHeadingOnOneLine(h: HeadingTag)
    ensures NoLineBreak(RenderHeading(h))
  {
    var r := RenderHeading(h);
    var open, close := OpenTag(h.level, h.attrs), CloseTag(h.closeLevel, h.closeSpaces);
    assert r == open + h.inner + close;
    forall i | 0 <= i < |r| ensures !IsLineBreak(r[i]) {
      if i < |open| {
        if 3 <= i < 3 + |h.attrs| {
          assert r[i] == h.attrs[i - 3];
        }
      } else if i < |open| + |h.inner| {
        assert r[i] == h.inner[i - |open|];
      } else if |open| + |h.inner| + 4 <= i < |r| - 1 {
        assert r[i] == Spaces(h.closeSpaces)[i - |open| - |h.inner| - 4];
      }
    }
  }

  /** A label stays on one line: every step only removes characters of the
      heading. */
  lemma LabelOnOneLine(h: HeadingTag)
    ensures NoLineBreak(Label(h))
  {
    var r := RenderHeading(h);
    RenderHeadingOnOneLine(h);
    RemoveHashLinksChars(r);
    StripTagsResult(RemoveHashLinks(r));
    TrimChars(StripTags(RemoveHashLinks(r)));
    var l := Label(h);
    forall i | 0 <= i < |l| ensures !IsLineBreak(l[i]) {
      assert l[i] in r;
      var j :| 0 <= j < |r| && r[j] == l[i];
    }
  }

  lemma {:induction false} RemoveHashLinksPassesText(a: string, b: string)
    requires '<' !in a
    ensures RemoveHashLinks(a + b) == a + RemoveHashLinks(b)
  {
    if a != [] {
      assert (a + b)[0] == a[0];
      assert HashLinkLen(a + b) == 0;
      assert (a + b)[1..] == a[1..] + b;
      RemoveHashLinksPassesText(a[1..], b);
      assert a == [a[0]] + a[1..];
    } else {
      assert a + b == b;
    }
  }

  lemma RemoveHashLinksPassesOpenTag(level: Level, attrs: TagBody, b: string)
    requires '<' !in attrs
    ensures RemoveHashLinks(OpenTag(level, attrs) + b) == OpenTag(level, attrs) + RemoveHashLinks(b)
  {
    var t := OpenTag(level, attrs);
    var s := t + b;
    assert s[0] == '<' && s[1] == 'h';
    assert HashLinkLen(s) == 0;
    assert s[1..] == t[1..] + b;
    assert t[1..] == "h" + [DigitChar(level)] + attrs + ">";
    RemoveHashLinksPassesText(t[1..], b);
    assert t == [t[0]] + t[1..];
  }

  lemma RemoveHashLinksPassesCloseTag(level: Level, spaces: nat)
    ensures RemoveHashLinks(CloseTag(level, spaces)) == CloseTag(level, spaces)
  {
    var t := CloseTag(level, spaces);
    assert t[0] == '<' && t[1] == '/';
    assert HashLinkLen(t) == 0;
    assert t[1..] == "/h" + [DigitChar(level)] + Spaces(spaces) + ">";
    RemoveHashLinksPassesText(t[1..], []);
    assert t[1..] + [] == t[1..];
    assert t == [t[0]] + t[1..];
  }

  lemma RemoveHashLinksDropsLink(x: string, b: string)
    requires '>' !in x
    ensures RemoveHashLinks("<a" + x + ">#</a>" + b) == RemoveHashLinks(b)
  {
    var link := "<a" + x + ">#</a>";
    var s := link + b;
    var j := 2 + |x|;
    assert s[j] == '>';
    assert forall i :: 0 <= i < j ==> s[i] != '>' by {
      forall i | 0 <= i < j ensures s[i] != '>' {
        if i >= 2 {
          assert s[i] == x[i - 2];
        }
      }
    }
    IndexOfAt(s, '>', j);
    assert s[j + 1] == '#' && s[j + 2] == '<' && s[j + 3] == '/' && s[j + 4] == 'a';
    assert s[j + 5] == '>';
    assert SpaceRun(s[j + 5..]) == 0;
    assert HashLinkLen(s) == j + 6 == |link|;
    assert s[|link|..] == b;
  }

  lemma {:induction false} StripTagsPassesText(a: string, b: string)
    requires '<' !in a
    ensures StripTags(a + b) == a + StripTags(b)
  {
    if a != [] {
      assert (a + b)[0] == a[0];
      assert (a + b)[1..] == a[1..] + b;
      StripTagsPassesText(a[1..], b);
      assert a == [a[0]] + a[1..];
    } else {
      assert a + b == b;
    }
  }

  lemma StripTagsDropsTag(t: string, b: string)
    requires '>' !in t
    ensures StripTags("<" + t + ">" + b) == StripTags(b)
  {
    var s := "<" + t + ">" + b;
    var j := 1 + |t|;
    assert s[j] == '>';
    assert forall i :: 0 <= i < j ==> s[i] != '>' by {
      forall i | 0 <= i < j ensures s[i] != '>' {
        if i >= 1 {
          assert s[i] == t[i - 1];
        }
      }
    }
    IndexOfAt(s, '>', j);
    assert s[j + 1..] == b;
  }

  lemma StripTagsOfTags(level: Level, attrs: TagBody, b: string, closeLevel: Level, closeSpaces: nat)
    ensures StripTags(OpenTag(level, attrs) + b) == StripTags(b)
    ensures StripTags(CloseTag(closeLevel, closeSpaces)) == ""
  {
    var t := "h" + [DigitChar(level)] + attrs;
    assert OpenTag(level, attrs) == "<" + t + ">";
    StripTagsDropsTag(t, b);
    var u := "/h" + [DigitChar(closeLevel)] + Spaces(closeSpaces);
    assert '>' !in u;
    assert CloseTag(closeLevel, closeSpaces) == "<" + u + ">" + "";
    StripTagsDropsTag(u, "");
  }

  /** Tag stripping leaves just the text of a heading whose text holds no tag. */
  lemma StripTagsOfHeading(level: Level, attrs: TagBody, text: string, closeLevel: Level, closeSpaces: nat)
    requires '<' !in text
    ensures StripTags(OpenTag(level, attrs) + (text + CloseTag(closeLevel, closeSpaces))) == text
  {
    var close := CloseTag(closeLevel, closeSpaces);
    StripTagsOfTags(level, attrs, text + close, closeLevel, closeSpaces);
    StripTagsPassesText(text, close);
    assert text + "" == text;
  }

  /** A heading whose text holds no markup is labelled with its trimmed text. */
  lemma LabelOfPlainHeading(level: Level, attrs: TagBody, text: LineText, closeLevel: Level, closeSpaces: nat)
    requires '<' !in attrs && '<' !in text
    ensures Label(HeadingTag(level, attrs, text, closeLevel, closeSpaces)) == Trim(text)
  {
    var open, close := OpenTag(level, attrs), CloseTag(closeLevel, closeSpaces);
    assert RenderHeading(HeadingTag(level, attrs, text, closeLevel, closeSpaces)) == open + (text + close);
    RemoveHashLinksPassesOpenTag(level, attrs, text + close);
    RemoveHashLinksPassesText(text, close);
    RemoveHashLinksPassesCloseTag(closeLevel, closeSpaces);
    StripTagsOfHeading(level, attrs, text, closeLevel, closeSpaces);
  }

  /** The self-link at the end of a heading's text is removed, the rest kept. */
  lemma RemoveHashLinksOfLinkedHeading(level: Level, attrs: TagBody, text: string, x: string, closeLevel: Level, closeSpaces: nat)
    requires '<' !in attrs && '<' !in text && '>' !in x
    ensures var open, close := OpenTag(level, attrs), CloseTag(closeLevel, closeSpaces);
      RemoveHashLinks(open + (text + ("<a" + x + ">#</a>" + close))) == open + (text + close)
  {
    var open, close := OpenTag(level, attrs), CloseTag(closeLevel, closeSpaces);
    var link := "<a" + x + ">#</a>";
    RemoveHashLinksPassesOpenTag(level, attrs, text + (link + close));
    RemoveHashLinksPassesText(text, link + close);
    RemoveHashLinksDropsLink(x, close);
    RemoveHashLinksPassesCloseTag(closeLevel, closeSpaces);
  }

  /** The `#` self-link a documentation generator appends to a heading does not
      reach the label. */
  lemma LabelDropsSelfLink(level: Level, attrs: TagBody, text: string, x: string, closeLevel: Level, closeSpaces: nat)
    requires '<' !in attrs && '<' !in text && '>' !in x
    requires NoLineBreak(text + ("<a" + x + ">#</a>"))
    ensures Label(HeadingTag(level, attrs, text + ("<a" + x + ">#</a>"), closeLevel, closeSpaces)) == Trim(text)
  {
    var link := "<a" + x + ">#</a>";
    var open, close := OpenTag(level, attrs), CloseTag(closeLevel, closeSpaces);
    var h := HeadingTag(level, attrs, text + link, closeLevel, closeSpaces);
    var r := RenderHeading(h);
    assert r == open + (text + link) + close;
    assert r == open + (text + ("<a" + x + ">#</a>" + close));
    RemoveHashLinksOfLinkedHeading(level, attrs, text, x, closeLevel, closeSpaces);
    var a := RemoveHashLinks(r);
    assert a == open + (text + close);
    StripTagsOfHeading(level, attrs, text, closeLevel, closeSpaces);
    assert StripTags(a) == text;
  }

  // ---------------------------------------------------------------------------
  // The id of a heading

  /** `${random}-${headers.length}`. */
  function HeadingId(token: nat -> Token, k: nat): string {
    token(k) + "-" + NatToString(k)
  }

  /** Every character of an id is a base-36 digit or the dash. */
  lemma HeadingIdChars(token: nat -> Token, k: nat)
    ensures forall i :: 0 <= i < |HeadingId(token, k)| ==> IsTokenChar(HeadingId(token, k)[i]) || HeadingId(token, k)[i] == '-'
    ensures '>' !in HeadingId(token, k) && NoLineBreak(HeadingId(token, k))
  {
    var t, d := token(k), NatToString(k);
    var id := HeadingId(token, k);
    forall i | 0 <= i < |id| ensures IsTokenChar(id[i]) || id[i] == '-' {
      if i < |t| {
        assert id[i] == t[i];
      } else if i > |t| {
        assert id[i] == d[i - |t| - 1];
      }
    }
  }

  lemma NoDashAfter(x: string, d: string, i: nat)
    requires AllDigits(d) && |x| < i < |x| + 1 + |d|
    ensures (x + "-" + d)[i] != '-' && (x + "-" + d)[|x|] == '-'
  {
    assert (x + "-" + d)[i] == d[i - |x| - 1];
  }

  /** Two headings of one run never share an id, whatever the random tokens:
      the number after the last dash is the heading's ordinal. */
  lemma HeadingIdsDistinct(token: nat -> Token, a: nat, b: nat)
    requires a != b
    ensures HeadingId(token, a) != HeadingId(token, b)
  {
    var x, y := token(a), token(b);
    var da, db := NatToString(a), NatToString(b);
    if HeadingId(token, a) == HeadingId(token, b) {
      var s := HeadingId(token, a);
      assert s == x + "-" + da && s == y + "-" + db;
      if |x| < |y| {
        NoDashAfter(x, da, |y|);
        assert false;
      } else if |y| < |x| {
        NoDashAfter(y, db, |x|);
        assert false;
      } else {
        assert da == s[|x| + 1..] == db;
        NatToStringInjective(a, b);
      }
    }
  }

  /** The number of spaces in `s` from position `i` on (`( )*`). */
  function SpacesAt(s: string, i: nat): (n: nat)
    requires i <= |s|
    ensures i + n <= |s|
    decreases |s| - i
  {
    if i < |s| && s[i] == ' ' then 1 + SpacesAt(s, i + 1) else 0
  }

  /** The matcher of `id( )*=( )*"`: the length of the match at position `i`
      of `s`, or 0. */
  function IdAttrLen(s: string, i: nat): nat {
    if i + 2 <= |s| && s[i] == 'i' && s[i + 1] == 'd' then
      var k := i + 2 + SpacesAt(s, i + 2);
      if k < |s| && s[k] == '=' then
        var m := k + 1 + SpacesAt(s, k + 1);
        if m < |s| && s[m] == '"' then m + 1 - i else 0
      else 0
    else 0
  }

  /** `id`, a run of `a` spaces, `=`, a run of `b` spaces and `"` at position
      `i` form a match, and its length covers exactly that text. */
  lemma IdAttrLenAt(s: string, i: nat, a: nat, b: nat)
    requires i + 4 + a + b <= |s|
    requires s[i] == 'i' && s[i + 1] == 'd' && s[i + 2 + a] == '=' && s[i + 3 + a + b] == '"'
    requires forall j :: i + 2 <= j < i + 2 + a ==> s[j] == ' '
    requires forall j :: i + 3 + a <= j < i + 3 + a + b ==> s[j] == ' '
    ensures IdAttrLen(s, i) == 4 + a + b
  {
    SpacesAtRun(s, i + 2, a);
    SpacesAtRun(s, i + 3 + a, b);
  }

  /** The attribute opening `id  =  "`, with any number of spaces, is a match
      wherever it stands. */
  lemma IdAttrLenMatches(p: string, a: nat, b: nat, rest: string)
    ensures var s := p + ("id" + Spaces(a) + "=" + Spaces(b) + "\"") + rest;
      IdAttrLen(s, |p|) == 4 + a + b
  {
    var t := "id" + Spaces(a) + "=" + Spaces(b) + "\"";
    var s := p + t + rest;
    assert |t| == 4 + a + b;
    forall j | 0 <= j < |t| ensures s[|p| + j] == t[j] {
    }
    assert t[0] == 'i' && t[1] == 'd' && t[2 + a] == '=' && t[3 + a + b] == '"';
    forall j | 2 <= j < 2 + a ensures t[j] == ' ' {
      assert t[j] == Spaces(a)[j - 2];
    }
    forall j | 3 + a <= j < 3 + a + b ensures t[j] == ' ' {
      assert t[j] == Spaces(b)[j - 3 - a];
    }
    IdAttrLenAt(s, |p|, a, b);
  }

  lemma {:induction false} SpacesAtRun(s: string, i: nat, a: nat)
    requires i + a < |s|
    requires forall j :: i <= j < i + a ==> s[j] == ' '
    requires s[i + a] != ' '
    ensures SpacesAt(s, i) == a
    decreases a
  {
    if a > 0 {
      SpacesAtRun(s, i + 1, a - 1);
    }
  }

  /** `header.match(/id( )*=( )*"/g)` is truthy. A match can only lie inside the
      tag's attribute text: `<hN` holds no `i`, and the closing `>` is no `"`. */
  predicate HasIdAttr(attrs: string) {
    HasMatch(IdAttrLen, attrs)
  }

  /** The text an id attribute's opening is replaced with: `id="${headerId} `. */
  function NewIdAttr(id: string): string {
    "id=\"" + id + " "
  }

  /** The attribute text of a rewritten opening tag: `header.replace(/id( )*=( )*"/g,
      `id="${headerId} `)` when the tag has an id attribute, otherwise the
      attribute ` id="${headerId}"` added before the tag's `>`. */
  function SetId(attrs: TagBody, id: string): (r: TagBody)
    requires '>' !in id && NoLineBreak(id)
  {
    if HasIdAttr(attrs) then
      var r := ReplaceAll(IdAttrLen, attrs, 0, NewIdAttr(id));
      ReplaceAllChars(IdAttrLen, attrs, 0, NewIdAttr(id));
      assert NoLineBreak(r) by {
        forall i | 0 <= i < |r| ensures !IsLineBreak(r[i]) {
          assert r[i] in r;
          if r[i] in attrs {
            var j :| 0 <= j < |attrs| && attrs[j] == r[i];
          } else if r[i] in id {
            var j :| 0 <= j < |id| && id[j] == r[i];
          } else {
            assert r[i] in NewIdAttr(id);
            var j :| 0 <= j < |NewIdAttr(id)| && NewIdAttr(id)[j] == r[i];
          }
        }
      }
      r
    else
      var r := attrs + " id=\"" + id + "\"";
      assert NoLineBreak(r) by {
        forall i | 0 <= i < |r| ensures !IsLineBreak(r[i]) {
          if i < |attrs| {
            assert r[i] == attrs[i];
          } else if |attrs| + 5 <= i < |attrs| + 5 + |id| {
            assert r[i] == id[i - |attrs| - 5];
          }
        }
      }
      r
  }

  /** A tag without an id attribute gets ` id="new"` before its `>`. */
  lemma IdInsertedWhenAbsent(level: Level, attrs: TagBody, id: string)
    requires '>' !in id && NoLineBreak(id)
    requires !HasIdAttr(attrs)
    ensures OpenTag(level, SetId(attrs, id)) == OpenTag(level, attrs)[..|OpenTag(level, attrs)| - 1] + " id=\"" + id + "\">"
  {
  }

  /** A tag with one id attribute `id = "old"` gets `id="new old"`: the new id
      is prepended to the existing value and the rest of the tag is kept.
      The attribute's opening `id = "` starts at `k` and is `n` long. */
  lemma IdPrependedToExisting(attrs: TagBody, id: string, k: nat, n: nat)
    requires '>' !in id && NoLineBreak(id)
    requires k == FirstMatch(IdAttrLen, attrs, 0) < |attrs| && n == IdAttrLen(attrs, k)
    requires FirstMatch(IdAttrLen, attrs, k + n) == |attrs|
    ensures SetId(attrs, id) == attrs[..k] + NewIdAttr(id) + attrs[k + n..]
  {
    ReplaceAllSingle(IdAttrLen, attrs, NewIdAttr(id), k, n);
  }

  // ---------------------------------------------------------------------------
  // Rewriting the headings of an article

  /** The headings of an article, in document order. */
  function HeadingsOf(segs: seq<Segment>): (r: seq<HeadingTag>)
    ensures |r| <= |segs|
  {
    if segs == [] then []
    else
      var last := segs[|segs| - 1];
      HeadingsOf(segs[..|segs| - 1]) + (if last.Heading? then [last.tag] else [])
  }

  /** The callback given to `html.replace(headingExpression, ...)`: from a
      matched heading and the number of headers recorded before it, the
      heading's replacement and the header it records. */
  type HeadingCallback = (HeadingTag, nat) -> (HeadingTag, HeaderEntry)

  /** `html.replace(headingExpression, callback)` with a callback that pushes
      one header per call: every heading is replaced by what the callback
      returns, and the headers are collected in document order, the first one
      numbered `count`. */
  function ReplaceHeadings(segs: seq<Segment>, count: nat, callback: HeadingCallback): (r: (seq<Segment>, seq<HeaderEntry>))
    ensures |r.0| == |segs| && |r.1| == |HeadingsOf(segs)|
  {
    if segs == [] then ([], [])
    else
      var (out, hs) := ReplaceHeadings(segs[..|segs| - 1], count, callback);
      var last := segs[|segs| - 1];
      if last.Heading? then
        var (tag, entry) := callback(last.tag, count + |hs|);
        (out + [Heading(tag)], hs + [entry])
      else
        (out + [last], hs)
  }

  /** One more segment extends the result by its replacement and, for a
      heading, by its header. */
  lemma ReplaceHeadingsStep(segs: seq<Segment>, i: nat, count: nat, callback: HeadingCallback)
    requires i < |segs|
    ensures var before := ReplaceHeadings(segs[..i], count, callback);
      var after := ReplaceHeadings(segs[..i + 1], count, callback);
      && after.0 == before.0 + [if segs[i].Heading? then Heading(callback(segs[i].tag, count + |before.1|).0) else segs[i]]
      && after.1 == before.1 + (if segs[i].Heading? then [callback(segs[i].tag, count + |before.1|).1] else [])
  {
    assert segs[..i + 1][..i] == segs[..i];
  }

  /** The `j`-th header is the callback's header for the `j`-th heading, which
      it saw with `count + j` headers before it. */
  lemma {:induction false} ReplaceHeadingsRecords(segs: seq<Segment>, count: nat, callback: HeadingCallback, j: nat)
    requires j < |HeadingsOf(segs)|
    ensures ReplaceHeadings(segs, count, callback).1[j] == callback(HeadingsOf(segs)[j], count + j).1
  {
    var init := segs[..|segs| - 1];
    if j < |HeadingsOf(init)| {
      ReplaceHeadingsRecords(init, count, callback, j);
      assert ReplaceHeadings(segs, count, callback).1[j] == ReplaceHeadings(init, count, callback).1[j];
      assert HeadingsOf(segs)[j] == HeadingsOf(init)[j];
    }
  }

  /** Each heading adds exactly one header, in document order, with the next
      number of the run. */
  lemma ReplaceHeadingsRecordsEach(segs: seq<Segment>, count: nat, callback: HeadingCallback)
    ensures var hs := ReplaceHeadings(segs, count, callback).1;
      forall j :: 0 <= j < |hs| ==> hs[j] == callback(HeadingsOf(segs)[j], count + j).1
  {
    forall j | 0 <= j < |ReplaceHeadings(segs, count, callback).1| {
      ReplaceHeadingsRecords(segs, count, callback, j);
    }
  }

  /** Segment `i` is kept when it is not a heading; a heading is replaced by the
      callback's heading for it, called with the number of headings before it. */
  lemma {:induction false} ReplaceHeadingsSegment(segs: seq<Segment>, count: nat, callback: HeadingCallback, i: nat)
    requires i < |segs|
    ensures ReplaceHeadings(segs, count, callback).0[i]
      == if segs[i].Heading? then Heading(callback(segs[i].tag, count + |HeadingsOf(segs[..i])|).0) else segs[i]
  {
    var init := segs[..|segs| - 1];
    var out0 := ReplaceHeadings(init, count, callback).0;
    var out := ReplaceHeadings(segs, count, callback).0;
    assert out[..|init|] == out0;
    if i < |init| {
      ReplaceHeadingsSegment(init, count, callback, i);
      assert init[..i] == segs[..i];
      assert out[i] == out0[i];
    } else {
      assert segs[..i] == init;
    }
  }

  /** Everything other than a heading is kept as it is, in place. */
  lemma ReplaceHeadingsKeepsOthers(segs: seq<Segment>, count: nat, callback: HeadingCallback)
    ensures var out := ReplaceHeadings(segs, count, callback).0;
      forall i :: 0 <= i < |segs| ==>
        out[i] == if segs[i].Heading? then Heading(callback(segs[i].tag, count + |HeadingsOf(segs[..i])|).0) else segs[i]
  {
    forall i | 0 <= i < |segs| {
      ReplaceHeadingsSegment(segs, count, callback, i);
    }
  }

  /** The replacement loop: the callback is called on each heading in turn
      and pushes its header onto `headers`. */
  method RewriteHeadings(segs: seq<Segment>, headers: seq<HeaderEntry>, callback: HeadingCallback)
    returns (out: seq<Segment>, headers': seq<HeaderEntry>)
    ensures out == ReplaceHeadings(segs, |headers|, callback).0
    ensures headers' == headers + ReplaceHeadings(segs, |headers|, callback).1
  {
    out, headers' := [], headers;
    var i := 0;
    assert segs[..0] == [];
    while i < |segs|
      invariant 0 <= i <= |segs|
      invariant out == ReplaceHeadings(segs[..i], |headers|, callback).0
      invariant headers' == headers + ReplaceHeadings(segs[..i], |headers|, callback).1
    {
      ReplaceHeadingsStep(segs, i, |headers|, callback);
      var seg := segs[i];
      if seg.Heading? {
        var replaced := callback(seg.tag, |headers'|);
        headers' := headers' + [replaced.1];
        out := out + [Heading(replaced.0)];
      } else {
        out := out + [seg];
      }
      i := i + 1;
    }
    assert segs[..|segs|] == segs;
  }

  /** Heading `h` with id `HeadingId(token, k)` set on its opening tag; only
      the opening tag's attributes change. */
  function Rewritten(h: HeadingTag, k: nat, token: nat -> Token): (r: HeadingTag)
    ensures r.level == h.level && r.inner == h.inner
    ensures r.closeLevel == h.closeLevel && r.closeSpaces == h.closeSpaces
  {
    HeadingIdChars(token, k);
    h.(attrs := SetId(h.attrs, HeadingId(token, k)))
  }

  /** The header recorded for heading `h` as the `k`-th of the run. */
  function Entry(h: HeadingTag, k: nat, token: nat -> Token): HeaderEntry {
    HeaderEntry(Label(h), h.level, HeadingId(token, k))
  }

  /** The callback of `generatePdf`. */
  function IdCallback(token: nat -> Token): HeadingCallback {
    (h: HeadingTag, k: nat) => (Rewritten(h, k, token), Entry(h, k, token))
  }

  /** With the callback of `generatePdf`, the `j`-th header carries the id of
      number `count + j`. */
  lemma RecordsIds(segs: seq<Segment>, count: nat, token: nat -> Token, j: nat)
    requires j < |HeadingsOf(segs)|
    ensures ReplaceHeadings(segs, count, IdCallback(token)).1[j].id == HeadingId(token, count + j)
  {
    ReplaceHeadingsRecords(segs, count, IdCallback(token), j);
  }

  /** With the callback of `generatePdf`, the `j`-th header carries the label
      and level of the `j`-th heading and the id of number `count + j`. */
  lemma RecordsLabelsAndIds(segs: seq<Segment>, count: nat, token: nat -> Token, j: nat)
    requires j < |HeadingsOf(segs)|
    ensures var e := ReplaceHeadings(segs, count, IdCallback(token)).1[j]; var h := HeadingsOf(segs)[j];
      e.header == Label(h) && e.level == h.level && e.id == HeadingId(token, count + j)
  {
    ReplaceHeadingsRecords(segs, count, IdCallback(token), j);
  }

  /** Headers numbered as `generatePdf` numbers them: the `i`-th carries the
      `i`-th id. */
  ghost predicate WellNumbered(headers: seq<HeaderEntry>, token: nat -> Token) {
    forall i :: 0 <= i < |headers| ==> headers[i].id == HeadingId(token, i)
  }

  /** Rewriting an article continues the numbering. */
  lemma RewriteKeepsNumbering(headers: seq<HeaderEntry>, segs: seq<Segment>, token: nat -> Token)
    requires WellNumbered(headers, token)
    ensures WellNumbered(headers + ReplaceHeadings(segs, |headers|, IdCallback(token)).1, token)
  {
    var added := ReplaceHeadings(segs, |headers|, IdCallback(token)).1;
    var all := headers + added;
    forall i | 0 <= i < |all| ensures all[i].id == HeadingId(token, i) {
      if i >= |headers| {
        RecordsIds(segs, |headers|, token, i - |headers|);
        assert all[i] == added[i - |headers|];
      }
    }
  }

  /** All ids of a well-numbered header list are distinct. */
  lemma WellNumberedIdsDistinct(headers: seq<HeaderEntry>, token: nat -> Token)
    requires WellNumbered(headers, token)
    ensures forall i, j :: 0 <= i < j < |headers| ==> headers[i].id != headers[j].id
  {
    forall i, j | 0 <= i < j < |headers| ensures headers[i].id != headers[j].id {
      HeadingIdsDistinct(token, i, j);
    }
  }
}
