/** `getPathSegment` (src/index.ts): normalises a raw path into a URL path
    segment with a leading slash and, depending on a flag, with or without one
    trailing slash. `null`/`undefined` arrive as `None`. */
module PathSegments {
  import opened Wrappers
  import opened Strings

  predicate StartsWithSlash(s: string) {
    s != [] && s[0] == '/'
  }

  predicate EndsWithSlash(s: string) {
    s != [] && s[|s| - 1] == '/'
  }

  /** The segment `getPathSegment(path, endSlash)` returns. */
  function PathSegment(path: Option<string>, endSlash: bool): string {
    var trimmed := if path.Some? then Trim(path.value) else "";
    var led := if StartsWithSlash(trimmed) then trimmed else "/" + trimmed;
    if endSlash && !EndsWithSlash(led) then led + "/"
    else if !endSlash && EndsWithSlash(led) then led[..|led| - 1]
    else led
  }

  /** The function as the source writes it, reassigning `path` step by step. */
  method GetPathSegment(path: Option<string>, endSlash: bool := true) returns (r: string)
    ensures r == PathSegment(path, endSlash)
    ensures endSlash ==> StartsWithSlash(r) && EndsWithSlash(r)
    ensures !endSlash ==> r == [] || StartsWithSlash(r)
  {
    r := if path.Some? then Trim(path.value) else "";
    if !StartsWithSlash(r) {
      r := "/" + r;
    }
    if endSlash && !EndsWithSlash(r) {
      r := r + "/";
    } else if !endSlash && EndsWithSlash(r) {
      r := r[..|r| - 1];
    }
  }

  /** The part of the trimmed input after at most one leading slash: what the
      segment is built around. */
  function Body(path: Option<string>): string {
    var trimmed := if path.Some? then Trim(path.value) else "";
    if StartsWithSlash(trimmed) then trimmed[1..] else trimmed
  }

  /** With the trailing slash requested, the segment is the body wrapped in
      slashes, sharing the body's own final slash when it has one. */
  lemma SegmentWithSlash(path: Option<string>)
    ensures var b := Body(path);
      PathSegment(path, true) == (if EndsWithSlash("/" + b) then "/" + b else "/" + b + "/")
    ensures StartsWithSlash(PathSegment(path, true)) && EndsWithSlash(PathSegment(path, true))
  {
    var trimmed := if path.Some? then Trim(path.value) else "";
    if StartsWithSlash(trimmed) {
      assert trimmed == "/" + trimmed[1..];
    }
  }

  /** Without it, exactly one trailing slash is removed when there is one: the
      result plus that slash gives back the led body. */
  lemma SegmentWithoutSlash(path: Option<string>)
    ensures var b := Body(path); var r := PathSegment(path, false);
      (EndsWithSlash("/" + b) ==> r + "/" == "/" + b) && (!EndsWithSlash("/" + b) ==> r == "/" + b)
    ensures var r := PathSegment(path, false); r == [] || StartsWithSlash(r)
  {
    var trimmed := if path.Some? then Trim(path.value) else "";
    if StartsWithSlash(trimmed) {
      assert trimmed == "/" + trimmed[1..];
    }
    var led := "/" + Body(path);
    if EndsWithSlash(led) {
      assert led[..|led| - 1] + "/" == led;
    }
  }

  /** Only the empty path, a lone slash, and missing input (after trimming)
      give the empty segment; everything else keeps its leading slash. */
  lemma EmptySegment(path: Option<string>)
    ensures PathSegment(path, false) == [] <==> Body(path) == []
  {
    SegmentWithoutSlash(path);
  }

  /** A segment made with the trailing slash is a fixed point. */
  lemma {:induction false} SegmentWithSlashIdempotent(path: Option<string>)
    ensures PathSegment(Some(PathSegment(path, true)), true) == PathSegment(path, true)
  {
    var s := PathSegment(path, true);
    SegmentWithSlash(path);
    TrimOfTrimmed(s);
  }

  /** Only one trailing slash is removed, so applying the flag-off form twice is
      not the same as once: `"test//"` becomes `"/test/"`, then `"/test"`. */
  lemma SegmentWithoutSlashRemovesOne()
    ensures PathSegment(Some("test//"), false) == "/test/"
    ensures PathSegment(Some("/test/"), false) == "/test"
  {
    TrimOfTrimmed("test//");
    assert ("/" + "test//")[..6] == "/test/";
    TrimOfTrimmed("/test/");
    assert "/test/"[..5] == "/test";
  }

  /** `getPathSegment` always adds the leading slash. */
  lemma LeadingSlashAdded()
    ensures PathSegment(Some("test"), false) == "/test"
    ensures PathSegment(Some("/test"), false) == "/test"
  {
    TrimOfTrimmed("test");
    TrimOfTrimmed("/test");
  }

  /** Without the flag, the trailing slash is removed. */
  lemma TrailingSlashRemoved()
    ensures PathSegment(Some("test/"), false) == "/test"
  {
    TrimOfTrimmed("test/");
    assert ("/" + "test/")[..5] == "/test";
  }

  /** With the flag, a trailing slash is kept or appended. */
  lemma TrailingSlashKept()
    ensures PathSegment(Some("test/"), true) == "/test/"
  {
    TrimOfTrimmed("test/");
  }

  lemma TrailingSlashAppended()
    ensures PathSegment(Some("test"), true) == "/test/"
  {
    TrimOfTrimmed("test");
  }

  /** The empty path, a lone slash and a missing path all give `""` without the
      trailing slash and `"/"` with it. */
  lemma EmptyCases()
    ensures PathSegment(Some(""), false) == "" && PathSegment(Some("/"), false) == ""
    ensures PathSegment(None, false) == "" && PathSegment(None, true) == "/"
    ensures PathSegment(Some(""), true) == "/" && PathSegment(Some("/"), true) == "/"
  {
    TrimOfTrimmed("/");
    TrimOfTrimmed("");
  }

  /** Surrounding white space is trimmed first: it never changes the segment. */
  lemma WhiteSpaceIgnored(a: string, t: string, b: string, endSlash: bool)
    requires AllSpaces(a) && AllSpaces(b) && Trimmed(t)
    ensures PathSegment(Some(a + t + b), endSlash) == PathSegment(Some(t), endSlash)
  {
    TrimExact(a, t, b);
    TrimOfTrimmed(t);
  }
}
