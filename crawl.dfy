/** The crawl of `generatePdf` (src/index.ts): starting from the first docs
    page it follows the "next" links, collects every page's `<article>` into
    the module-level `htmlList`, splits off the part before the first
    table-of-contents marker, gives every later heading an id and a header,
    and finally splices the table of contents in and hands the joined HTML,
    the stylesheet and the script to the browser for printing.

    The browser is a map from URL to what it shows for that URL. */
module Crawl {
  import opened Wrappers
  import opened Strings
  import opened Headings
  import opened AssetLocator
  import opened Toc

  /** What the browser reports for one URL. */
  datatype Page = Page(
    /** `resp.text()`; empty when no HTML came back. */
    html: string,
    /** The first capture of the stylesheet expression in `html`, if it matches. */
    styleCapture: Option<string>,
    /** The first capture of the script expression in `html`, if it matches. */
    scriptCapture: Option<string>,
    /** The `href` of `.pagination-nav__item--next > a`; `None` when there is no such element. */
    next: Option<string>,
    /** `article.outerHTML`; `None` when the page has no `<article>`. */
    article: Option<seq<Segment>>)

  type Site = map<string, Page>

  /** Why a run stops with an exception. */
  datatype CrawlError =
    | InvalidUrl               // `new URL(initialDocsUrl)` throws
    | LoadFailed(url: string)  // `page.goto` fails
    | NoHtml(url: string)      // "Page could not be loaded!"
    | AssetMissing(error: AssetError)
    | NoArticle(url: string)   // `page.$eval("article", ...)` throws

  /** The variables of the crawl loop, with `htmlList` as it stands. */
  datatype CrawlState = CrawlState(
    htmlList: seq<string>,
    headers: seq<HeaderEntry>,
    tocLocation: Option<nat>,
    stylePath: string,
    scriptPath: string)

  /** The state a run starts in: `htmlList` keeps what earlier runs left in it. */
  function Start(htmlList: seq<string>): CrawlState {
    CrawlState(htmlList, [], None, "", "")
  }

  /** Where the crawl goes after a page: the next link, or nowhere. */
  function NextUrl(page: Page): string {
    page.next.GetOr("")
  }

  // ---------------------------------------------------------------------------
  // One page

  /** The asset lookups of the first page: each path is looked up only while
      it is still empty. */
  function LoadAssets(s: CrawlState, page: Page, origin: string): (r: Result<CrawlState, CrawlError>)
    ensures r.Success? ==> r.value == s.(stylePath := r.value.stylePath, scriptPath := r.value.scriptPath)
    ensures r.Success? ==> r.value.stylePath != "" && r.value.scriptPath != ""
    ensures r.Success? && s.stylePath != "" ==> r.value.stylePath == s.stylePath
    ensures r.Success? && s.scriptPath != "" ==> r.value.scriptPath == s.scriptPath
    ensures s.stylePath != "" && s.scriptPath != "" ==> r == Success(s)
    ensures r.Success? && s.stylePath == "" ==> StylesheetPath(page.styleCapture, origin) == Success(r.value.stylePath)
    ensures r.Success? && s.scriptPath == "" ==> ScriptPath(page.scriptCapture, origin) == Success(r.value.scriptPath)
    ensures s.stylePath == "" && StylesheetPath(page.styleCapture, origin).Failure?
      ==> r == Failure(AssetMissing(StylesheetNotFound))
    ensures (s.stylePath != "" || StylesheetPath(page.styleCapture, origin).Success?)
      && s.scriptPath == "" && ScriptPath(page.scriptCapture, origin).Failure?
      ==> r == Failure(AssetMissing(ScriptNotFound))
    ensures r.Success? <==> ((s.stylePath != "" || StylesheetPath(page.styleCapture, origin).Success?)
                             && (s.scriptPath != "" || ScriptPath(page.scriptCapture, origin).Success?))
  {
    var style :- if s.stylePath != "" then Success(s.stylePath)
      else match StylesheetPath(page.styleCapture, origin)
        case Success(p) => Success(p)
        case Failure(e) => Failure(AssetMissing(e));
    var script :- if s.scriptPath != "" then Success(s.scriptPath)
      else match ScriptPath(page.scriptCapture, origin)
        case Success(p) => Success(p)
        case Failure(e) => Failure(AssetMissing(e));
    Success(s.(stylePath := style, scriptPath := script))
  }

  /** What the crawl does with one article: on the first article holding a
      marker while none was seen, the text before the marker is pushed on its
      own and `tocLocation` becomes the list's new length; from then on every
      heading is rewritten. The (rest of the) article is pushed. */
  function ProcessArticle(s: CrawlState, article: seq<Segment>, token: nat -> Token): CrawlState {
    var k := MarkerIndex(article);
    var split := HasMarker(article) && s.tocLocation.None?;
    var list := if split then s.htmlList + [Render(article[..k])] else s.htmlList;
    var toc := if split then Some(|list|) else s.tocLocation;
    var rest := if split then article[k..] else article;
    if toc.Some? then
      var (out, added) := ReplaceHeadings(rest, |s.headers|, IdCallback(token));
      s.(htmlList := list + [Render(out)], headers := s.headers + added, tocLocation := toc)
    else
      s.(htmlList := list + [Render(rest)], tocLocation := toc)
  }

  /** One pass of the loop body on `url`: load the page, look the assets up
      while they are missing, read the next link, and process the article.
      The result also gives the URL to go on with. */
  function VisitPage(site: Site, origin: string, token: nat -> Token, s: CrawlState, url: string)
    : (r: Result<(CrawlState, string), CrawlError>)
    ensures url !in site ==> r == Failure(LoadFailed(url))
    ensures url in site && site[url].html == "" ==> r == Failure(NoHtml(url))
    ensures url in site && site[url].html != "" && LoadAssets(s, site[url], origin).Failure?
      ==> r == Failure(LoadAssets(s, site[url], origin).error)
    ensures (url in site && site[url].html != "" && LoadAssets(s, site[url], origin).Success?
             && site[url].article.None?) ==> r == Failure(NoArticle(url))
    ensures r.Success? <==> (url in site && site[url].html != "" && LoadAssets(s, site[url], origin).Success?
                             && site[url].article.Some?)
    ensures r.Success? ==> r.value.1 == NextUrl(site[url])
  {
    if url !in site then Failure(LoadFailed(url))
    else
      var page := site[url];
      if page.html == "" then Failure(NoHtml(url))
      else
        var s1 :- LoadAssets(s, page, origin);
        if page.article.None? then Failure(NoArticle(url))
        else Success((ProcessArticle(s1, page.article.value, token), NextUrl(page)))
  }

  // ---------------------------------------------------------------------------
  // The whole crawl

  /** Following next links from `url` reaches the end (an empty link or a URL
      the browser cannot load) within `steps` pages. */
  ghost predicate ChainEnds(site: Site, url: string, steps: nat)
    decreases steps
  {
    url == "" || url !in site || (steps > 0 && ChainEnds(site, NextUrl(site[url]), steps - 1))
  }

  /** Where a run stops: the state then, and the exception if it stopped on one. */
  datatype Outcome = Outcome(state: CrawlState, failure: Option<CrawlError>)

  /** The `while (nextPageUrl)` loop from `url` on. */
  ghost function CrawlFrom(site: Site, origin: string, token: nat -> Token, s: CrawlState, url: string, steps: nat): Outcome
    requires ChainEnds(site, url, steps)
    decreases steps
  {
    if url == "" then Outcome(s, None)
    else
      match VisitPage(site, origin, token, s, url)
      case Failure(e) => Outcome(s, Some(e))
      case Success((s', next)) => CrawlFrom(site, origin, token, s', next, steps - 1)
  }

  /** The list after the table of contents is spliced in at `tocLocation`. */
  function Finalize(s: CrawlState): seq<string> {
    if s.tocLocation.Some? then Splice(s.htmlList, s.tocLocation.value, TocBlock(s.headers)) else s.htmlList
  }

  /** The page margins `generatePdf` prints with. */
  datatype Margins = Margins(top: nat, right: nat, left: nat, bottom: nat)

  /** The call `page.pdf(...)` after the content, style and script are set. */
  datatype PdfJob = PdfJob(content: string, stylePath: string, scriptPath: string,
                           path: string, format: string, printBackground: bool, margin: Margins)

  /** The output of a run from the assembled state. */
  function Job(s: CrawlState, filename: string): PdfJob {
    PdfJob(Join(Finalize(s), "\n"), s.stylePath, s.scriptPath, filename, "A4", true, Margins(25, 35, 35, 25))
  }

  /** What a run leaves behind: the module-level list and how the call ended. */
  datatype RunResult = RunResult(htmlList: seq<string>, result: Result<PdfJob, CrawlError>)

  /** `generatePdf` as a whole, given what the earlier runs left in `htmlList`
      and the origin of the start URL (`None` when it is not a valid URL). */
  ghost function Run(prev: seq<string>, url: string, filename: string, origin: Option<string>,
                     site: Site, token: nat -> Token, steps: nat): RunResult
    requires ChainEnds(site, url, steps)
  {
    if origin.None? then RunResult(prev, Failure(InvalidUrl))
    else
      var o := CrawlFrom(site, origin.value, token, Start(prev), url, steps);
      if o.failure.Some? then RunResult(o.state.htmlList, Failure(o.failure.value))
      else RunResult(Finalize(o.state), Success(Job(o.state, filename)))
  }

  // ---------------------------------------------------------------------------
  // Properties of one page

  /** Without a marker and before any table of contents, the article is pushed
      as it is, and no header is recorded. */
  lemma ProcessArticleWithoutMarker(s: CrawlState, article: seq<Segment>, token: nat -> Token)
    requires s.tocLocation.None? && !HasMarker(article)
    ensures ProcessArticle(s, article, token) == s.(htmlList := s.htmlList + [Render(article)])
  {
  }

  /** The first article holding a marker is split there: its text before the
      first marker is pushed on its own, `tocLocation` points just after it,
      and the rest, starting at the marker, is pushed with its headings
      rewritten. The two pieces together are the article. */
  lemma ProcessArticleSplits(s: CrawlState, article: seq<Segment>, token: nat -> Token)
    requires s.tocLocation.None? && HasMarker(article)
    ensures var k := MarkerIndex(article);
      var rewritten := ReplaceHeadings(article[k..], |s.headers|, IdCallback(token));
      var r := ProcessArticle(s, article, token);
      && r.tocLocation == Some(|s.htmlList| + 1)
      && r.htmlList == s.htmlList + [Render(article[..k]), Render(rewritten.0)]
      && r.headers == s.headers + rewritten.1
      && Render(article[..k]) + Render(article[k..]) == Render(article)
      && article[k..][0].Marker?
  {
    SplitAtMarker(article);
  }

  /** Once the table of contents has a place, later markers do not move it,
      and the whole article is pushed with its headings rewritten. */
  lemma ProcessArticleAfterToc(s: CrawlState, article: seq<Segment>, token: nat -> Token)
    requires s.tocLocation.Some?
    ensures var rewritten := ReplaceHeadings(article, |s.headers|, IdCallback(token));
      ProcessArticle(s, article, token)
        == s.(htmlList := s.htmlList + [Render(rewritten.0)], headers := s.headers + rewritten.1)
  {
  }

  // ---------------------------------------------------------------------------
  // Properties of the crawl

  /** The list and the headers only grow: what was there stays a prefix. */
  lemma {:induction false} CrawlExtends(site: Site, origin: string, token: nat -> Token, s: CrawlState, url: string, steps: nat)
    requires ChainEnds(site, url, steps)
    ensures var f := CrawlFrom(site, origin, token, s, url, steps).state;
      |s.htmlList| <= |f.htmlList| && f.htmlList[..|s.htmlList|] == s.htmlList
      && |s.headers| <= |f.headers| && f.headers[..|s.headers|] == s.headers
    decreases steps
  {
    if url != "" {
      match VisitPage(site, origin, token, s, url)
      case Failure(_) =>
      case Success((s', next)) =>
        CrawlExtends(site, origin, token, s', next, steps - 1);
        var f := CrawlFrom(site, origin, token, s, url, steps).state;
        assert f.htmlList[..|s'.htmlList|][..|s.htmlList|] == f.htmlList[..|s.htmlList|];
        assert f.headers[..|s'.headers|][..|s.headers|] == f.headers[..|s.headers|];
    }
  }

  /** The stylesheet and script paths are looked up only while empty: once
      set they are never overwritten. */
  lemma {:induction false} CrawlKeepsAssets(site: Site, origin: string, token: nat -> Token, s: CrawlState, url: string, steps: nat)
    requires ChainEnds(site, url, steps)
    ensures var f := CrawlFrom(site, origin, token, s, url, steps).state;
      (s.stylePath != "" ==> f.stylePath == s.stylePath) && (s.scriptPath != "" ==> f.scriptPath == s.scriptPath)
    decreases steps
  {
    if url != "" {
      match VisitPage(site, origin, token, s, url)
      case Failure(_) =>
      case Success((s', next)) =>
        CrawlKeepsAssets(site, origin, token, s', next, steps - 1);
    }
  }

  /** A run that gets past its first page has both paths set from that page. */
  lemma FirstPageSetsAssets(site: Site, origin: string, token: nat -> Token, prev: seq<string>, url: string)
    requires url != "" && VisitPage(site, origin, token, Start(prev), url).Success?
    ensures var s' := VisitPage(site, origin, token, Start(prev), url).value.0;
      && s'.stylePath == GetUrl(origin, site[url].styleCapture.value)
      && s'.scriptPath == GetUrl(origin, site[url].scriptCapture.value)
  {
  }

  /** The place of the table of contents, once set, never moves. */
  lemma {:induction false} CrawlKeepsToc(site: Site, origin: string, token: nat -> Token, s: CrawlState, url: string, steps: nat)
    requires ChainEnds(site, url, steps) && s.tocLocation.Some?
    ensures CrawlFrom(site, origin, token, s, url, steps).state.tocLocation == s.tocLocation
    decreases steps
  {
    if url != "" {
      match VisitPage(site, origin, token, s, url)
      case Failure(_) =>
      case Success((s', next)) =>
        CrawlKeepsToc(site, origin, token, s', next, steps - 1);
    }
  }

  /** The place of the table of contents lies after the first `base` entries of
      the list and within it. */
  predicate TocWithin(s: CrawlState, base: nat) {
    base <= |s.htmlList| && (s.tocLocation.Some? ==> base < s.tocLocation.value <= |s.htmlList|)
  }

  lemma {:induction false} CrawlKeepsTocWithin(site: Site, origin: string, token: nat -> Token, s: CrawlState, url: string, steps: nat, base: nat)
    requires ChainEnds(site, url, steps) && TocWithin(s, base)
    ensures TocWithin(CrawlFrom(site, origin, token, s, url, steps).state, base)
    decreases steps
  {
    if url != "" {
      match VisitPage(site, origin, token, s, url)
      case Failure(_) =>
      case Success((s', next)) =>
        CrawlKeepsTocWithin(site, origin, token, s', next, steps - 1, base);
    }
  }

  /** Every header of the list has the label and the id of a rewritten heading:
      it stays on one line. */
  predicate HeadersOnOneLine(headers: seq<HeaderEntry>) {
    forall i :: 0 <= i < |headers| ==> OnOneLine(headers[i])
  }

  lemma RewriteHeadersOnOneLine(segs: seq<Segment>, count: nat, token: nat -> Token)
    ensures HeadersOnOneLine(ReplaceHeadings(segs, count, IdCallback(token)).1)
  {
    var added := ReplaceHeadings(segs, count, IdCallback(token)).1;
    forall j | 0 <= j < |added| ensures OnOneLine(added[j]) {
      RecordsLabelsAndIds(segs, count, token, j);
      LabelOnOneLine(HeadingsOf(segs)[j]);
      HeadingIdChars(token, count + j);
    }
  }

  /** The headers stay numbered in order of creation and on one line. */
  lemma {:induction false} CrawlKeepsHeaders(site: Site, origin: string, token: nat -> Token, s: CrawlState, url: string, steps: nat)
    requires ChainEnds(site, url, steps)
    requires WellNumbered(s.headers, token) && HeadersOnOneLine(s.headers)
    ensures var f := CrawlFrom(site, origin, token, s, url, steps).state;
      WellNumbered(f.headers, token) && HeadersOnOneLine(f.headers)
    decreases steps
  {
    if url != "" {
      match VisitPage(site, origin, token, s, url)
      case Failure(_) =>
      case Success((s', next)) =>
        var page := site[url];
        var s1 := LoadAssets(s, page, origin).value;
        var article := page.article.value;
        var k := MarkerIndex(article);
        var rest := if HasMarker(article) && s1.tocLocation.None? then article[k..] else article;
        RewriteKeepsNumbering(s.headers, rest, token);
        RewriteHeadersOnOneLine(rest, |s.headers|, token);
        CrawlKeepsHeaders(site, origin, token, s', next, steps - 1);
    }
  }

  /** The articles of the pages the crawl loads, in visit order. */
  ghost function ChainArticles(site: Site, url: string, steps: nat): seq<seq<Segment>>
    requires ChainEnds(site, url, steps)
    decreases steps
  {
    if url == "" || url !in site || site[url].article.None? then []
    else [site[url].article.value] + ChainArticles(site, NextUrl(site[url]), steps - 1)
  }

  function RenderAll(articles: seq<seq<Segment>>): (r: seq<string>)
    ensures |r| == |articles| && forall i :: 0 <= i < |articles| ==> r[i] == Render(articles[i])
  {
    if articles == [] then [] else [Render(articles[0])] + RenderAll(articles[1..])
  }

  /** One step of a crawl that gets past its page: the crawl goes on from the
      page's next link, and the page's article is processed in the state the
      crawl had, with the asset paths looked up. */
  lemma CrawlStep(site: Site, origin: string, token: nat -> Token, s: CrawlState, url: string, steps: nat)
    returns (s': CrawlState, next: string)
    requires ChainEnds(site, url, steps) && url != ""
    requires VisitPage(site, origin, token, s, url).Success?
    ensures url in site && site[url].article.Some? && steps > 0 && ChainEnds(site, next, steps - 1)
    ensures CrawlFrom(site, origin, token, s, url, steps) == CrawlFrom(site, origin, token, s', next, steps - 1)
    ensures ChainArticles(site, url, steps) == [site[url].article.value] + ChainArticles(site, next, steps - 1)
    ensures s' == ProcessArticle(s.(stylePath := s'.stylePath, scriptPath := s'.scriptPath), site[url].article.value, token)
  {
    s', next := VisitPage(site, origin, token, s, url).value.0, VisitPage(site, origin, token, s, url).value.1;
  }

  /** Without any marker, a crawl that ends normally pushes every article
      unmodified, one entry per page in visit order, and records no header. */
  lemma {:induction false} CrawlWithoutMarker(site: Site, origin: string, token: nat -> Token, s: CrawlState, url: string, steps: nat)
    requires ChainEnds(site, url, steps) && s.tocLocation.None?
    requires forall a :: a in ChainArticles(site, url, steps) ==> !HasMarker(a)
    requires CrawlFrom(site, origin, token, s, url, steps).failure.None?
    ensures CrawlFrom(site, origin, token, s, url, steps).state.htmlList == s.htmlList + RenderAll(ChainArticles(site, url, steps))
    ensures CrawlFrom(site, origin, token, s, url, steps).state.headers == s.headers
    ensures CrawlFrom(site, origin, token, s, url, steps).state.tocLocation.None?
    decreases steps
  {
    if url != "" {
      assert VisitPage(site, origin, token, s, url).Success?;
      var s', next := CrawlStep(site, origin, token, s, url, steps);
      var a := site[url].article.value;
      var rest := ChainArticles(site, next, steps - 1);
      ConsMembers(a, rest);
      ProcessArticleWithoutMarker(s.(stylePath := s'.stylePath, scriptPath := s'.scriptPath), a, token);
      CrawlWithoutMarker(site, origin, token, s', next, steps - 1);
      RenderAllCons(a, rest);
      PushedInFront(s.htmlList, s'.htmlList, CrawlFrom(site, origin, token, s', next, steps - 1).state.htmlList,
                    Render(a), RenderAll(rest));
    }
  }

  /** Membership in a list with one item put in front. */
  lemma ConsMembers<T>(a: T, rest: seq<T>)
    ensures a in [a] + rest
    ensures forall b :: b in rest ==> b in [a] + rest
  {
  }

  lemma RenderAllCons(a: seq<Segment>, rest: seq<seq<Segment>>)
    ensures RenderAll([a] + rest) == [Render(a)] + RenderAll(rest)
  {
    assert ([a] + rest)[0] == a && ([a] + rest)[1..] == rest;
  }

  /** An entry pushed, then more after it, is the entry and the rest pushed. */
  lemma PushedInFront(html: seq<string>, html': seq<string>, html'': seq<string>, first: string, more: seq<string>)
    requires html' == html + [first] && html'' == html' + more
    ensures html'' == html + ([first] + more)
  {
  }

  // ---------------------------------------------------------------------------
  // Articles one after another

  /** Items rewritten one after another by `rewrite`, each numbering what it
      records on from where the previous one stopped: the fragments pushed
      and everything recorded. */
  function Chain<X, E>(items: seq<X>, count: nat, rewrite: (X, nat) -> (string, seq<E>)): (seq<string>, seq<E>)
  {
    if items == [] then ([], [])
    else
      var r := rewrite(items[0], count);
      var more := Chain(items[1..], count + |r.1|, rewrite);
      ([r.0] + more.0, r.1 + more.1)
  }

  /** One item rewritten after a list and its records, then the rest chained
      on after its records, is the whole chain after them. */
  lemma ChainStep<X, E>(a: X, rest: seq<X>, rewrite: (X, nat) -> (string, seq<E>), count: nat, count': nat,
                        html: seq<string>, html': seq<string>, records: seq<E>, records': seq<E>)
    requires count' == count + |rewrite(a, count).1|
    requires html' == html + [rewrite(a, count).0] + Chain(rest, count', rewrite).0
    requires records' == records + rewrite(a, count).1 + Chain(rest, count', rewrite).1
    ensures html' == html + Chain([a] + rest, count, rewrite).0
    ensures records' == records + Chain([a] + rest, count, rewrite).1
  {
    var items := [a] + rest;
    assert items[0] == a && items[1..] == rest;
    var r, more := rewrite(a, count), Chain(rest, count', rewrite);
    assert html + [r.0] + more.0 == html + ([r.0] + more.0);
    assert records + r.1 + more.1 == records + (r.1 + more.1);
  }

  /** `f` applied to each element together with its number, counting from `count`. */
  function Numbered<X, Y>(xs: seq<X>, count: nat, f: (X, nat) -> Y): (r: seq<Y>)
    ensures |r| == |xs|
  {
    if xs == [] then [] else [f(xs[0], count)] + Numbered(xs[1..], count + 1, f)
  }

  lemma {:induction false} NumberedIndex<X, Y>(xs: seq<X>, count: nat, f: (X, nat) -> Y, j: nat)
    requires j < |xs|
    ensures Numbered(xs, count, f)[j] == f(xs[j], count + j)
  {
    if j > 0 {
      NumberedIndex(xs[1..], count + 1, f, j - 1);
    }
  }

  /** Numbering `a + b` from `count` numbers `b` on from `next`, just after `a`. */
  lemma {:induction false} NumberedAppend<X, Y>(a: seq<X>, b: seq<X>, count: nat, next: nat, f: (X, nat) -> Y)
    requires next == count + |a|
    ensures Numbered(a + b, count, f) == Numbered(a, count, f) + Numbered(b, next, f)
  {
    if a != [] {
      assert (a + b)[0] == a[0] && (a + b)[1..] == a[1..] + b;
      NumberedAppend(a[1..], b, count + 1, next, f);
    } else {
      assert a + b == b;
    }
  }

  /** The parts of the items, item after item. */
  function Flatten<X, H>(items: seq<X>, parts: X -> seq<H>): seq<H> {
    if items == [] then [] else parts(items[0]) + Flatten(items[1..], parts)
  }

  /** A chain whose every item records its parts, numbered, records all the
      items' parts, numbered consecutively. */
  lemma {:induction false} ChainNumbered<X, E, H>(items: seq<X>, count: nat, rewrite: (X, nat) -> (string, seq<E>),
                                                  parts: X -> seq<H>, entry: (H, nat) -> E)
    requires forall a, k :: rewrite(a, k).1 == Numbered(parts(a), k, entry)
    ensures Chain(items, count, rewrite).1 == Numbered(Flatten(items, parts), count, entry)
  {
    if items != [] {
      var r := rewrite(items[0], count);
      var next := count + |r.1|;
      ChainNumbered(items[1..], next, rewrite, parts, entry);
      NumberedAppend(parts(items[0]), Flatten(items[1..], parts), count, next, entry);
      assert r.1 == Numbered(parts(items[0]), count, entry);
      assert |r.1| == |parts(items[0])|;
    }
  }

  /** What one article becomes once the table of contents has a place: the
      HTML with its headings rewritten, and the headers they record, numbered
      on from `count`. */
  function Rewrite(article: seq<Segment>, count: nat, token: nat -> Token): (string, seq<HeaderEntry>) {
    var rewritten := ReplaceHeadings(article, count, IdCallback(token));
    (Render(rewritten.0), rewritten.1)
  }

  function Rewriter(token: nat -> Token): (seq<Segment>, nat) -> (string, seq<HeaderEntry>) {
    (article: seq<Segment>, count: nat) => Rewrite(article, count, token)
  }

  /** The fragments pushed and the headers recorded when the articles are
      rewritten one after another, the headers numbered on from `count`. */
  function RewriteAll(articles: seq<seq<Segment>>, count: nat, token: nat -> Token): (seq<string>, seq<HeaderEntry>) {
    Chain(articles, count, Rewriter(token))
  }

  /** The headings of the articles, article after article, in document order. */
  function AllHeadings(articles: seq<seq<Segment>>): seq<HeadingTag> {
    Flatten(articles, HeadingsOf)
  }

  function EntryMaker(token: nat -> Token): (HeadingTag, nat) -> HeaderEntry {
    (h: HeadingTag, k: nat) => Entry(h, k, token)
  }

  /** One header per heading, numbered consecutively from `count`. */
  function Entries(hs: seq<HeadingTag>, count: nat, token: nat -> Token): seq<HeaderEntry> {
    Numbered(hs, count, EntryMaker(token))
  }

  /** The headers one article's rewrite records are its headings' entries,
      numbered on from `count`. */
  lemma RecordsEntries(a: seq<Segment>, count: nat, token: nat -> Token)
    ensures Rewriter(token)(a, count).1 == Entries(HeadingsOf(a), count, token)
  {
    var added := ReplaceHeadings(a, count, IdCallback(token)).1;
    forall j | 0 <= j < |added| ensures added[j] == Entries(HeadingsOf(a), count, token)[j] {
      ReplaceHeadingsRecords(a, count, IdCallback(token), j);
      NumberedIndex(HeadingsOf(a), count, EntryMaker(token), j);
    }
  }

  /** Rewriting articles one after another records one header per heading,
      in the articles' order, numbered consecutively. */
  lemma RewriteAllHeaders(articles: seq<seq<Segment>>, count: nat, token: nat -> Token)
    ensures RewriteAll(articles, count, token).1 == Entries(AllHeadings(articles), count, token)
  {
    forall a, k ensures Rewriter(token)(a, k).1 == Numbered(HeadingsOf(a), k, EntryMaker(token)) {
      RecordsEntries(a, k, token);
    }
    ChainNumbered(articles, count, Rewriter(token), HeadingsOf, EntryMaker(token));
  }

  /** Once the table of contents has its place, a crawl that ends normally
      pushes every page's article with its headings rewritten, and records
      their headers, in visit order. */
  lemma {:induction false} CrawlAfterToc(site: Site, origin: string, token: nat -> Token, s: CrawlState, url: string, steps: nat)
    requires ChainEnds(site, url, steps) && s.tocLocation.Some?
    requires CrawlFrom(site, origin, token, s, url, steps).failure.None?
    ensures CrawlFrom(site, origin, token, s, url, steps).state.htmlList
      == s.htmlList + RewriteAll(ChainArticles(site, url, steps), |s.headers|, token).0
    ensures CrawlFrom(site, origin, token, s, url, steps).state.headers
      == s.headers + RewriteAll(ChainArticles(site, url, steps), |s.headers|, token).1
    decreases steps
  {
    if url != "" {
      assert VisitPage(site, origin, token, s, url).Success?;
      var s', next := CrawlStep(site, origin, token, s, url, steps);
      var a := site[url].article.value;
      ProcessArticleAfterToc(s.(stylePath := s'.stylePath, scriptPath := s'.scriptPath), a, token);
      CrawlAfterToc(site, origin, token, s', next, steps - 1);
      var f := CrawlFrom(site, origin, token, s', next, steps - 1).state;
      ChainStep(a, ChainArticles(site, next, steps - 1), Rewriter(token), |s.headers|, |s'.headers|,
                s.htmlList, f.htmlList, s.headers, f.headers);
    }
  }

  /** The page holding the first marker, put together with what the rest of
      the crawl does once the table of contents has its place. */
  lemma MarkerHere(s: CrawlState, s': CrawlState, f: CrawlState, a: seq<Segment>, rest: seq<seq<Segment>>, token: nat -> Token)
    requires s.tocLocation.None? && HasMarker(a)
    requires s' == ProcessArticle(s.(stylePath := s'.stylePath, scriptPath := s'.scriptPath), a, token)
    requires f.htmlList == s'.htmlList + RewriteAll(rest, |s'.headers|, token).0
    requires f.headers == s'.headers + RewriteAll(rest, |s'.headers|, token).1
    requires f.tocLocation == s'.tocLocation
    ensures f.htmlList == s.htmlList + [Render(a[..MarkerIndex(a)])] + RewriteAll([a[MarkerIndex(a)..]] + rest, |s.headers|, token).0
    ensures f.tocLocation == Some(|s.htmlList| + 1)
    ensures f.headers == s.headers + Entries(AllHeadings([a[MarkerIndex(a)..]] + rest), |s.headers|, token)
  {
    var k := MarkerIndex(a);
    ProcessArticleSplits(s.(stylePath := s'.stylePath, scriptPath := s'.scriptPath), a, token);
    ChainStep(a[k..], rest, Rewriter(token), |s.headers|, |s'.headers|,
              s.htmlList + [Render(a[..k])], f.htmlList, s.headers, f.headers);
    RewriteAllHeaders([a[k..]] + rest, |s.headers|, token);
  }

  /** A page pushed as it is before the pages that lead to the first marker:
      it joins them in front, and the table of contents moves one place on. */
  lemma BeforeMarker(s: CrawlState, s': CrawlState, f: CrawlState, first: string, before: seq<string>, marked: string, after: seq<string>)
    requires s'.htmlList == s.htmlList + [first]
    requires f.htmlList == s'.htmlList + before + [marked] + after
    requires f.tocLocation.Some? && f.tocLocation.value == |s'.htmlList| + |before| + 1
    ensures f.htmlList == s.htmlList + ([first] + before) + [marked] + after
    ensures f.tocLocation.Some? && f.tocLocation.value == |s.htmlList| + |[first] + before| + 1
  {
    assert s.htmlList + ([first] + before) == s'.htmlList + before;
  }

  /** No page comes before the first one. */
  lemma NothingBefore(html: seq<string>, a: seq<Segment>, rest: seq<seq<Segment>>)
    ensures ([a] + rest)[0] == a && ([a] + rest)[1..] == rest
    ensures html + RenderAll(([a] + rest)[..0]) == html
  {
    assert ([a] + rest)[..0] == [];
  }

  /** Indexing and slicing a list with one item put in front. */
  lemma ConsSlices<T>(a: T, rest: seq<T>, j: nat)
    requires 0 < j <= |rest|
    ensures ([a] + rest)[j] == rest[j - 1] && ([a] + rest)[j + 1..] == rest[j..]
    ensures forall i :: 0 <= i < j - 1 ==> rest[i] == ([a] + rest)[i + 1]
  {
  }

  lemma RenderAllPrefix(a: seq<Segment>, rest: seq<seq<Segment>>, j: nat)
    requires 0 < j <= |rest| + 1
    ensures RenderAll(([a] + rest)[..j]) == [Render(a)] + RenderAll(rest[..j - 1])
  {
    var prefix := ([a] + rest)[..j];
    assert prefix[0] == a && prefix[1..] == rest[..j - 1];
  }

  /** A crawl whose first page holds a marker: that page's text before the
      marker, then the table of contents, then everything rewritten. */
  lemma CrawlMarkerFirst(site: Site, origin: string, token: nat -> Token, s: CrawlState, url: string, steps: nat,
                         s': CrawlState, next: string)
    requires ChainEnds(site, url, steps) && s.tocLocation.None? && url in site && site[url].article.Some?
    requires HasMarker(site[url].article.value) && steps > 0 && ChainEnds(site, next, steps - 1)
    requires s' == ProcessArticle(s.(stylePath := s'.stylePath, scriptPath := s'.scriptPath), site[url].article.value, token)
    requires CrawlFrom(site, origin, token, s', next, steps - 1).failure.None?
    ensures var a := site[url].article.value;
      var f := CrawlFrom(site, origin, token, s', next, steps - 1).state;
      && f.htmlList == s.htmlList + [Render(a[..MarkerIndex(a)])]
         + RewriteAll([a[MarkerIndex(a)..]] + ChainArticles(site, next, steps - 1), |s.headers|, token).0
      && f.tocLocation == Some(|s.htmlList| + 1)
      && f.headers == s.headers + Entries(AllHeadings([a[MarkerIndex(a)..]] + ChainArticles(site, next, steps - 1)), |s.headers|, token)
  {
    var a := site[url].article.value;
    ProcessArticleSplits(s.(stylePath := s'.stylePath, scriptPath := s'.scriptPath), a, token);
    CrawlAfterToc(site, origin, token, s', next, steps - 1);
    CrawlKeepsToc(site, origin, token, s', next, steps - 1);
    MarkerHere(s, s', CrawlFrom(site, origin, token, s', next, steps - 1).state, a, ChainArticles(site, next, steps - 1), token);
  }

  /** A crawl that ends normally and first meets a marker on page `j`:
      the pages before it are pushed as they are; page `j` pushes its text
      before the marker, and the table of contents goes right after it; the
      rest of page `j` and every later page are pushed with their headings
      rewritten; and the headers are those of the headings from the marker on,
      page after page, numbered consecutively. */
  lemma {:induction false} CrawlWithMarker(site: Site, origin: string, token: nat -> Token, s: CrawlState, url: string, steps: nat,
                                           articles: seq<seq<Segment>>, j: nat)
    requires ChainEnds(site, url, steps) && s.tocLocation.None?
    requires CrawlFrom(site, origin, token, s, url, steps).failure.None?
    requires articles == ChainArticles(site, url, steps)
    requires j < |articles| && HasMarker(articles[j])
    requires forall i :: 0 <= i < j ==> !HasMarker(articles[i])
    ensures CrawlFrom(site, origin, token, s, url, steps).state.htmlList
      == s.htmlList + RenderAll(articles[..j]) + [Render(articles[j][..MarkerIndex(articles[j])])]
         + RewriteAll([articles[j][MarkerIndex(articles[j])..]] + articles[j + 1..], |s.headers|, token).0
    ensures CrawlFrom(site, origin, token, s, url, steps).state.tocLocation.Some?
    ensures CrawlFrom(site, origin, token, s, url, steps).state.tocLocation.value == |s.htmlList| + j + 1
    ensures CrawlFrom(site, origin, token, s, url, steps).state.headers
      == s.headers + Entries(AllHeadings([articles[j][MarkerIndex(articles[j])..]] + articles[j + 1..]), |s.headers|, token)
    decreases steps
  {
    assert url != "" && VisitPage(site, origin, token, s, url).Success?;
    var s', next := CrawlStep(site, origin, token, s, url, steps);
    var a := site[url].article.value;
    var rest := ChainArticles(site, next, steps - 1);
    var f := CrawlFrom(site, origin, token, s', next, steps - 1).state;
    assert articles == [a] + rest;
    if j == 0 {
      CrawlMarkerFirst(site, origin, token, s, url, steps, s', next);
      NothingBefore(s.htmlList, a, rest);
    } else {
      assert !HasMarker(articles[0]);
      ProcessArticleWithoutMarker(s.(stylePath := s'.stylePath, scriptPath := s'.scriptPath), a, token);
      ConsSlices(a, rest, j);
      CrawlWithMarker(site, origin, token, s', next, steps - 1, rest, j - 1);
      var m := rest[j - 1];
      BeforeMarker(s, s', f, Render(a), RenderAll(rest[..j - 1]), Render(m[..MarkerIndex(m)]),
                   RewriteAll([m[MarkerIndex(m)..]] + rest[j..], |s.headers|, token).0);
      RenderAllPrefix(a, rest, j);
    }
  }

  // ---------------------------------------------------------------------------
  // Properties of a run

  /** What earlier runs left in the list stays at its front, in order, whatever
      the run does: the table of contents is always spliced in after it. */
  lemma RunKeepsEarlierOutput(prev: seq<string>, url: string, filename: string, origin: Option<string>,
                              site: Site, token: nat -> Token, steps: nat)
    requires ChainEnds(site, url, steps)
    ensures var list := Run(prev, url, filename, origin, site, token, steps).htmlList;
      |prev| <= |list| && list[..|prev|] == prev
  {
    if origin.Some? {
      var f := CrawlFrom(site, origin.value, token, Start(prev), url, steps).state;
      CrawlExtends(site, origin.value, token, Start(prev), url, steps);
      CrawlKeepsTocWithin(site, origin.value, token, Start(prev), url, steps, |prev|);
      if f.tocLocation.Some? {
        var list := Finalize(f);
        var t := f.tocLocation.value;
        assert list[..t] == f.htmlList[..t];
        assert list[..|prev|] == list[..t][..|prev|];
      }
    }
  }

  /** A successful run prints with the stylesheet and script of its first page. */
  lemma RunUsesFirstPageAssets(prev: seq<string>, url: string, filename: string, origin: Option<string>,
                               site: Site, token: nat -> Token, steps: nat)
    requires ChainEnds(site, url, steps) && url != ""
    requires Run(prev, url, filename, origin, site, token, steps).result.Success?
    ensures url in site && origin.Some?
    ensures var job := Run(prev, url, filename, origin, site, token, steps).result.value;
      && job.stylePath == GetUrl(origin.value, site[url].styleCapture.value)
      && job.scriptPath == GetUrl(origin.value, site[url].scriptCapture.value)
  {
    var o := origin.value;
    match VisitPage(site, o, token, Start(prev), url)
    case Failure(_) =>
    case Success((s', next)) =>
      FirstPageSetsAssets(site, o, token, prev, url);
      CrawlKeepsAssets(site, o, token, s', next, steps - 1);
  }

  /** A first page whose HTML has no stylesheet capture stops the run with the
      stylesheet error before anything is pushed; one with the stylesheet but
      no script capture stops it with the script error. */
  lemma RunStopsOnMissingAsset(prev: seq<string>, url: string, filename: string, origin: string,
                               site: Site, token: nat -> Token, steps: nat)
    requires ChainEnds(site, url, steps) && url in site && url != "" && site[url].html != ""
    requires StylesheetPath(site[url].styleCapture, origin).Failure?
             || ScriptPath(site[url].scriptCapture, origin).Failure?
    ensures Run(prev, url, filename, Some(origin), site, token, steps).htmlList == prev
    ensures StylesheetPath(site[url].styleCapture, origin).Failure?
      ==> Run(prev, url, filename, Some(origin), site, token, steps).result == Failure(AssetMissing(StylesheetNotFound))
    ensures StylesheetPath(site[url].styleCapture, origin).Success?
      ==> Run(prev, url, filename, Some(origin), site, token, steps).result == Failure(AssetMissing(ScriptNotFound))
  {
    assert LoadAssets(Start(prev), site[url], origin).Failure?;
  }

  /** Without any marker, a successful run prints the pages' articles exactly,
      one entry per page after what earlier runs left, with no table of
      contents. */
  lemma RunWithoutMarker(prev: seq<string>, url: string, filename: string, origin: Option<string>,
                         site: Site, token: nat -> Token, steps: nat)
    requires ChainEnds(site, url, steps)
    requires forall a :: a in ChainArticles(site, url, steps) ==> !HasMarker(a)
    requires Run(prev, url, filename, origin, site, token, steps).result.Success?
    ensures var run := Run(prev, url, filename, origin, site, token, steps);
      && run.htmlList == prev + RenderAll(ChainArticles(site, url, steps))
      && run.result.value.content == Join(run.htmlList, "\n")
  {
    CrawlWithoutMarker(site, origin.value, token, Start(prev), url, steps);
  }

  /** When a marker was found, a successful run inserts exactly one table of
      contents, at `tocLocation`, after what earlier runs left; every other
      entry keeps its order. The table lists one entry per header, in order,
      and no two headers share an id. */
  lemma RunTableOfContents(prev: seq<string>, url: string, filename: string, origin: Option<string>,
                           site: Site, token: nat -> Token, steps: nat)
    requires ChainEnds(site, url, steps)
    requires Run(prev, url, filename, origin, site, token, steps).result.Success?
    requires CrawlFrom(site, origin.value, token, Start(prev), url, steps).state.tocLocation.Some?
    ensures var f := CrawlFrom(site, origin.value, token, Start(prev), url, steps).state;
      var list := Run(prev, url, filename, origin, site, token, steps).htmlList;
      var t := f.tocLocation.value;
      && |prev| < t <= |f.htmlList| && |list| == |f.htmlList| + 1
      && list[t] == TocBlock(f.headers) && list[..t] + list[t + 1..] == f.htmlList
      && (|f.headers| >= 1 ==> Split(TocList(f.headers), '\n') == TocItems(f.headers))
      && forall i, j :: 0 <= i < j < |f.headers| ==> f.headers[i].id != f.headers[j].id
  {
    var o := origin.value;
    var f := CrawlFrom(site, o, token, Start(prev), url, steps).state;
    CrawlKeepsTocWithin(site, o, token, Start(prev), url, steps, |prev|);
    CrawlKeepsHeaders(site, o, token, Start(prev), url, steps);
    WellNumberedIdsDistinct(f.headers, token);
    if |f.headers| >= 1 {
      TocListItems(f.headers);
    }
  }

  // ---------------------------------------------------------------------------
  // The generator

  /** A docusaurus-pdf session. `htmlList` is module-level state: it is never
      cleared, so every run starts with what the previous runs left. */
  class PdfGenerator {
    var htmlList: seq<string>

    constructor()
      ensures htmlList == []
    {
      htmlList := [];
    }

    /** The end of the loop body: split at the first marker while there is no
        table of contents yet, rewrite the headings once there is, and push. */
    method PushArticle(article: seq<Segment>, headers: seq<HeaderEntry>, tocLocation: Option<nat>, token: nat -> Token)
      returns (headers': seq<HeaderEntry>, tocLocation': Option<nat>)
      modifies this
      ensures var s := ProcessArticle(CrawlState(old(htmlList), headers, tocLocation, "", ""), article, token);
        htmlList == s.htmlList && headers' == s.headers && tocLocation' == s.tocLocation
    {
      headers', tocLocation' := headers, tocLocation;
      var html := article;
      if HasMarker(html) && tocLocation'.None? {
        var k := MarkerIndex(html);
        htmlList := htmlList + [Render(html[..k])];
        tocLocation' := Some(|htmlList|);
        html := html[k..];
      }
      if tocLocation'.Some? {
        html, headers' := RewriteHeadings(html, headers', IdCallback(token));
      }
      htmlList := htmlList + [Render(html)];
    }

    /** `generatePdf(initialDocsUrl, filename)`. */
    method GeneratePdf(initialDocsUrl: string, filename: string := "docusaurus.pdf", origin: Option<string>,
                       site: Site, token: nat -> Token, ghost steps: nat)
      returns (result: Result<PdfJob, CrawlError>)
      requires ChainEnds(site, initialDocsUrl, steps)
      modifies this
      ensures var run := Run(old(htmlList), initialDocsUrl, filename, origin, site, token, steps);
        htmlList == run.htmlList && result == run.result
    {
      if origin.None? {
        return Failure(InvalidUrl);
      }
      var stylePath, scriptPath := "", "";
      var nextPageUrl := initialDocsUrl;
      var headers: seq<HeaderEntry> := [];
      var tocLocation: Option<nat> := None;
      ghost var n := steps;
      ghost var outcome := CrawlFrom(site, origin.value, token, Start(htmlList), initialDocsUrl, steps);
      while nextPageUrl != ""
        invariant ChainEnds(site, nextPageUrl, n)
        invariant CrawlFrom(site, origin.value, token, CrawlState(htmlList, headers, tocLocation, stylePath, scriptPath), nextPageUrl, n)
          == outcome
        decreases n
      {
        ghost var s := CrawlState(htmlList, headers, tocLocation, stylePath, scriptPath);
        if nextPageUrl !in site {
          return Failure(LoadFailed(nextPageUrl));
        }
        var page := site[nextPageUrl];
        if page.html == "" {
          return Failure(NoHtml(nextPageUrl));
        }
        if stylePath == "" {
          var style := StylesheetPath(page.styleCapture, origin.value);
          if style.Failure? {
            return Failure(AssetMissing(style.error));
          }
          stylePath := style.value;
        }
        if scriptPath == "" {
          var script := ScriptPath(page.scriptCapture, origin.value);
          if script.Failure? {
            return Failure(AssetMissing(script.error));
          }
          scriptPath := script.value;
        }
        var url := nextPageUrl;
        nextPageUrl := NextUrl(page);
        if page.article.None? {
          return Failure(NoArticle(url));
        }
        headers, tocLocation := PushArticle(page.article.value, headers, tocLocation, token);
        assert VisitPage(site, origin.value, token, s, url)
          == Success((CrawlState(htmlList, headers, tocLocation, stylePath, scriptPath), nextPageUrl));
        n := n - 1;
      }
      if tocLocation.Some? {
        htmlList := Splice(htmlList, tocLocation.value, TocBlock(headers));
      }
      result := Success(PdfJob(Join(htmlList, "\n"), stylePath, scriptPath, filename, "A4", true, Margins(25, 35, 35, 25)));
    }
  }
}
