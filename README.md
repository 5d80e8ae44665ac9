# docusaurus-pdf, modelled in Dafny

docusaurus-pdf turns a Docusaurus documentation site into one PDF. It works in four steps:

1. It opens the first docs page in a headless browser.
2. It follows each page's "next" pagination link, collecting every page's `<article>` into a module-level list of HTML fragments.
3. From the first `<toc></toc>` (or `<toc/>`) marker onward, it gives each heading a fresh id and records it as a table-of-contents entry. After the crawl, it splices the table of contents into the list where the marker was.
4. It sets the joined fragments as the page content, adds the site's stylesheet and script, and prints the page.

It can also build from a local build directory. The `from-build` command takes the first doc path and an optional base URL on the command line. The `from-build-config` command instead reads `routeBasePath` and `baseUrl` from the site's configuration. Both then:

- serve the directory locally;
- compose the start URL from the server's port, the base URL and the first doc path.

The command line adds a margin parser and an options builder.

This project models those parts and proves what they promise.

| module | models |
|---|---|
| `PathSegments` | `getPathSegment`: normalising a path to `/x` or `/x/` |
| `AssetLocator` | `getURL`, `getFirstCapturingGroup`, and the stylesheet and script lookups |
| `Matching` | a global regular-expression scan (`match`/`replace` with `/g`), over an abstract matcher |
| `Headings` | an article as a sequence of text, marker and heading segments. It covers the heading label (self-link removal, tag stripping, trimming), the random-token ids, the id attribute rewrite, and the heading replacement loop. |
| `Toc` | the table-of-contents entries and list, and `Array.prototype.splice` with a zero delete count |
| `Crawl` | the page loop of `generatePdf`, the final splice and print job, and a `PdfGenerator` class holding the module-level `htmlList` |
| `SiteConfig` | the `routeBasePath` selection of `loadConfig`, and the start URL of `generatePdfFromBuildSources` |
| `Cli` | `parseMargin` and `generatePdfOptions` of the command-line tool |

The browser is a map from URL to what it shows for that URL: the HTML, the regular-expression captures of the asset links, the next link, and the article. `Math.random()` is a function from the header number to a token of at most five base-36 digits. The origin of the start URL is given, or is absent when `new URL` throws.

## Model

| member | source | states |
|---|---|---|
| PathSegments.GetPathSegment | src/index.ts:73-84 | The step-by-step normalisation yields `PathSegment(path, endSlash)`. With the flag, the result starts and ends with `/`. Without it, the result is empty or starts with `/`. |
| PathSegments.SegmentWithSlash | src/index.ts:73-84 | With the trailing slash requested, the segment is the trimmed body wrapped in slashes. The body's own final slash is shared, not doubled. |
| PathSegments.SegmentWithoutSlash | src/index.ts:73-84 | Without the flag, exactly one trailing slash is removed when the led body ends with one; otherwise the led body is returned unchanged. |
| PathSegments.EmptySegment | src/index.ts:73-84 | Without the flag, the segment is empty if and only if the trimmed body is. |
| PathSegments.SegmentWithSlashIdempotent | src/index.ts:73-84 | A segment made with the trailing slash is a fixed point of `getPathSegment`. |
| PathSegments.SegmentWithoutSlashRemovesOne | src/index.ts:80-81 | Only one trailing slash is removed: `"test//"` gives `"/test/"`, and `"/test/"` gives `"/test"`. |
| PathSegments.LeadingSlashAdded | src/index.ts:75-77 | `"test"` and `"/test"` both give `"/test"` without the flag. |
| PathSegments.TrailingSlashRemoved | src/index.ts:80-81 | `"test/"` gives `"/test"` without the flag. |
| PathSegments.TrailingSlashKept | src/index.ts:78-79 | `"test/"` gives `"/test/"` with the flag. |
| PathSegments.TrailingSlashAppended | src/index.ts:78-79 | `"test"` gives `"/test/"` with the flag. |
| PathSegments.EmptyCases | src/index.ts:73-84 | Empty, `"/"` and missing paths give `""` without the flag and `"/"` with it. |
| PathSegments.WhiteSpaceIgnored | src/index.ts:74 | Surrounding white space never changes the segment. |
| AssetLocator.GetUrl | src/index.ts:11-13 | The URL is the origin, a slash, then the path with at most one leading slash dropped. |
| AssetLocator.FirstCapturingGroup | src/index.ts:41-48 | Succeeds exactly on a non-empty first capture, and returns it. |
| AssetLocator.StylesheetPath | src/index.ts:15-26 | Fails with the stylesheet error exactly when there is no non-empty capture. Otherwise it returns the capture joined to the origin. |
| AssetLocator.ScriptPath | src/index.ts:28-39 | The same as the stylesheet lookup, with the script error. |
| Matching.FirstMatchIsFirst | src/index.ts:162-163 | The scan stops at a match, or at the end, and no match starts before the position where it stops. |
| Matching.HasMatchExactly | src/index.ts:162 | A string matches if and only if the expression matches at some position. |
| Matching.ReplaceAllWithoutMatch | src/index.ts:163 | A global replace without any match leaves the text unchanged. |
| Matching.ReplaceAllSingle | src/index.ts:163 | A global replace with exactly one match substitutes the replacement for that match and keeps the rest. |
| Matching.MatchAllElement | bin/index.js:21 | Every element of a global match list is a match found at some position of the text. |
| Headings.RenderAppend | src/index.ts:132-134 | Rendering distributes over concatenation of segments, so a split article renders to the same HTML. |
| Headings.MarkerIndex | src/index.ts:136 | The index of the first `<toc></toc>`/`<toc/>` marker: no earlier segment is a marker. |
| Headings.HasMarkerExactly | src/index.ts:136-138 | The marker test holds if and only if some segment is a marker. |
| Headings.SplitAtMarker | src/index.ts:138-142 | The part from the first marker on starts with that marker. The part before it and that part together render to the whole article. |
| Headings.StripTagsIdempotent | src/index.ts:150 | Removing tags a second time changes nothing. |
| Headings.LabelOnOneLine | src/index.ts:148-151 | A heading's label holds no line break. |
| Headings.LabelOfPlainHeading | src/index.ts:148-151 | A heading without inner tags is labelled by its trimmed text. |
| Headings.LabelDropsSelfLink | src/index.ts:148-151 | The `<a ...>#</a>` self-link Docusaurus appends is dropped from the label. |
| Headings.HeadingIdChars | src/index.ts:152-154 | An id is base-36 token characters and dashes, with no `>` and no line break. |
| Headings.HeadingIdsDistinct | src/index.ts:152-154 | Ids made for different header numbers differ, whatever the random tokens are. |
| Headings.IdAttrLenMatches | src/index.ts:162 | The id-attribute expression matches `id`, any run of spaces, `=`, any run of spaces and `"`, wherever they stand, and the match covers exactly that text. |
| Headings.IdInsertedWhenAbsent | src/index.ts:164-167 | A heading's opening tag without an id attribute gets ` id="new"` before its `>`. |
| Headings.IdPrependedToExisting | src/index.ts:162-163 | A tag with one id attribute has its `id = "` opening replaced by `id="new `. The new id is prepended to the old value and the rest of the tag is kept. |
| Headings.ReplaceHeadings | src/index.ts:146-171 | The replacement keeps the number of segments and adds one header per heading. |
| Headings.ReplaceHeadingsRecordsEach | src/index.ts:146-159 | The `j`-th recorded header is the callback's entry for the `j`-th heading, numbered `count + j`. |
| Headings.ReplaceHeadingsKeepsOthers | src/index.ts:146-171 | Non-heading segments stay in place. Each heading is replaced by the callback's rewrite, called with the number of earlier headers. |
| Headings.RewriteHeadings | src/index.ts:146-171 | The replacement loop returns the replaced article and appends the new headers to `headers`. |
| Headings.Rewritten | src/index.ts:161-169 | A rewritten heading keeps its level, its inner text and its closing tag. |
| Headings.RecordsIds | src/index.ts:152-158 | The `j`-th header's id is the id of number `count + j`. |
| Headings.RecordsLabelsAndIds | src/index.ts:148-159 | The `j`-th header carries the label and level of the `j`-th heading and the id of number `count + j`. |
| Headings.RewriteKeepsNumbering | src/index.ts:152-159 | Rewriting another article keeps every header numbered by its position. |
| Headings.WellNumberedIdsDistinct | src/index.ts:152-154 | Headers numbered by position have pairwise distinct ids. |
| Toc.TocItemOnOneLine | src/index.ts:181-184 | An entry holds no line feed when its header does not. |
| Toc.TocItemFields | src/index.ts:181-184 | An entry carries the indentation `(level - 1) * 20` as a decimal number, the id as the link target and the label as the link text. |
| Toc.TocListItems | src/index.ts:179-186 | Splitting the joined list at line feeds gives back exactly one entry per header, in order. |
| Toc.Splice | src/index.ts:187-191 | The item is inserted at the start index, or at the end when the index lies past it, and nothing else moves. |
| Crawl.LoadAssets | src/index.ts:117-118 | Only the two paths change, and both are set afterwards. A path that was already set is kept; an unset one takes the lookup's value. With both set, nothing is looked up. The page stops with the stylesheet error when the stylesheet is unset and its lookup fails, and otherwise with the script error when the script is unset and its lookup fails; it succeeds exactly when neither happens. |
| Crawl.VisitPage | src/index.ts:109-134 | A URL the browser cannot load, a page without HTML, a failed asset lookup and a page without an article each stop the run with their own error, in that order. It succeeds exactly when none of them happens, and the crawl goes on with the page's next link. |
| Crawl.ProcessArticleWithoutMarker | src/index.ts:136-174 | Before any table of contents, an article without a marker is pushed as it is and records no header. |
| Crawl.ProcessArticleSplits | src/index.ts:136-174 | The first article with a marker pushes its text before the marker, then the rewritten rest. The table of contents is placed between them and the new headers are appended. |
| Crawl.ProcessArticleAfterToc | src/index.ts:144-174 | Once the table of contents is placed, every article is pushed with its headings rewritten. Later markers do not move the table of contents. |
| Crawl.CrawlExtends | src/index.ts:104-176 | The list and the headers only grow: their earlier contents stay a prefix. |
| Crawl.CrawlKeepsAssets | src/index.ts:117-118 | A stylesheet or script path, once set, is never looked up again. |
| Crawl.FirstPageSetsAssets | src/index.ts:117-118 | After the first page, both paths come from that page's captures. |
| Crawl.CrawlKeepsToc | src/index.ts:138-142 | The place of the table of contents, once set, never moves. |
| Crawl.CrawlKeepsTocWithin | src/index.ts:138-142 | The place of the table of contents always lies after the earlier runs' fragments and within the list. |
| Crawl.RewriteHeadersOnOneLine | src/index.ts:148-159 | Every header recorded by the rewrite has its label and id on one line. |
| Crawl.CrawlKeepsHeaders | src/index.ts:152-159 | Through the crawl, headers stay numbered by position and on one line. |
| Crawl.RenderAll | src/index.ts:174 | Each article becomes one rendered fragment, in order. |
| Crawl.CrawlWithoutMarker | src/index.ts:104-176 | Without any marker, a crawl that ends normally pushes the articles of the visited pages exactly, in order, and records no header. |
| Crawl.ChainStep | src/index.ts:144-174 | Rewriting one article and then the rest, with the header count carried on, is rewriting the whole list. |
| Crawl.NumberedIndex | src/index.ts:152-154 | The `j`-th numbered item is made from the `j`-th element with number `count + j`. |
| Crawl.NumberedAppend | src/index.ts:152-154 | Numbering two lists one after the other, the second starting where the first ends, numbers their concatenation. |
| Crawl.ChainNumbered | src/index.ts:148-159 | When every article records its headings numbered from the count it is given, the rewrite of a list records all its headings numbered consecutively. |
| Crawl.RecordsEntries | src/index.ts:148-159 | The headers recorded for one article are the entries of its headings, numbered from the count given. |
| Crawl.RewriteAllHeaders | src/index.ts:148-159 | The headers recorded for a list of articles are the entries of all their headings, in order, numbered consecutively from the count given. |
| Crawl.CrawlAfterToc | src/index.ts:104-176 | Once the table of contents is placed, a crawl that ends normally pushes every visited article with its headings rewritten and appends their headers, numbered on from the headers already there. |
| Crawl.MarkerHere | src/index.ts:136-174 | On the first article with a marker, the text before the marker is pushed, the table of contents is placed right after it, and the rest of that article and the later ones are rewritten. |
| Crawl.CrawlMarkerFirst | src/index.ts:104-176 | A crawl whose first article holds the first marker pushes that article's text before the marker, places the table of contents after it, then pushes the rest rewritten with headers numbered from the existing ones. |
| Crawl.CrawlWithMarker | src/index.ts:104-176 | When article `j` is the first with a marker, the crawl pushes the articles before it as they are, then article `j`'s text before the marker, places the table of contents at the earlier length plus `j + 1`, and pushes the rest of article `j` and the later articles rewritten. The headers are the entries of every heading from the marker on, numbered consecutively. |
| Crawl.RunKeepsEarlierOutput | src/index.ts:9 | Because `htmlList` is module-level, what earlier runs left in it stays at its front, in order, however the run ends. |
| Crawl.RunUsesFirstPageAssets | src/index.ts:194-196 | A successful run prints with the stylesheet and script of its first page. |
| Crawl.RunStopsOnMissingAsset | src/index.ts:112-118 | A first page without a stylesheet capture stops the run with the stylesheet error, and one with the stylesheet but without a script capture stops it with the script error. Nothing is pushed. |
| Crawl.RunWithoutMarker | src/index.ts:178-194 | Without any marker, a successful run prints the earlier fragments and the articles, joined by line feeds. |
| Crawl.RunTableOfContents | src/index.ts:178-194 | With a marker, the run inserts exactly one table-of-contents block at the marker's place, after the earlier runs' fragments, and moves nothing else. The block lists one entry per header, and the ids of all headers are pairwise distinct. |
| Crawl.PdfGenerator.constructor | src/index.ts:9 | The module-level list starts empty. |
| Crawl.PdfGenerator.PushArticle | src/index.ts:136-174 | Pushing one article updates the list, the headers and the table-of-contents place as the article processing says. |
| Crawl.PdfGenerator.GeneratePdf | src/index.ts:86-205 | The loop over the list field leaves the list and returns the print job or error that `Run` gives from the list as it stood before the call. |
| SiteConfig.Contributions | src/index.ts:221-241 | There is one entry per preset and plugin, and entry `k` is what the `k`-th entry visited (the presets first, then the plugins) does to the list of route base paths. |
| SiteConfig.CollectFails | src/index.ts:223-240 | The scan fails exactly when some entry throws. |
| SiteConfig.CollectEndsWithLastRoute | src/index.ts:221-241 | The collected paths end with the last entry that names a route. They are empty exactly when no entry names one. |
| SiteConfig.LoadedChoosesLastRoute | src/index.ts:242-253 | Configuration loading fails exactly when a preset-classic or docs-plugin entry has undefined options. On success, the first doc path is the last truthy `routeBasePath` (plugins after presets), or `"docs"` when there is none, and `baseUrl` defaults to `"/"`. |
| SiteConfig.SinglePresetRoute | src/index.ts:243-244 | A single classic preset with a route base path yields that path and base URL `"/"`. |
| SiteConfig.ScannedIsCollect | src/index.ts:221-241 | Scanning the first `n` entries one by one gives the collection of those entries. |
| SiteConfig.ScannedStaysFailed | src/index.ts:223-240 | Once an entry throws, the scan stays failed. |
| SiteConfig.ScanPresets | src/index.ts:222-231 | The preset loop yields the scan of all presets. |
| SiteConfig.ScanPlugins | src/index.ts:232-241 | The plugin loop continues the preset scan to the scan of all entries. |
| SiteConfig.LoadConfig | src/index.ts:221-254 | The loops and the selection yield exactly the configuration `Loaded` defines. |
| SiteConfig.StartUrl | src/index.ts:282-309 | A missing build directory, a non-directory, and a server without an address are the three errors, each exactly in its own case. Otherwise the crawl starts. |
| SiteConfig.StartUrlShape | src/index.ts:295-309 | The start URL is `http://127.0.0.1:` and the port, then `getPathSegment(baseUrl, false)` (empty or starting with `/`), then `getPathSegment(firstDocPath)` (starting and ending with `/`). |
| SiteConfig.MissingBaseUrlIsRoot | bin/index.js:64-80 | A base URL left out of the `from-build` command gives the same start URL as `"/"`. |
| SiteConfig.StartUrlDefaults | src/index.ts:242-309 | With the defaults, a site at the root starts at `/docs/`. |
| Cli.ParsedValuesAreSpecifiers | bin/index.js:21-28 | Every value `parseMargin` returns is a specifier: digits followed by at most two word characters. |
| Cli.ParseFormatRoundTrip | bin/index.js:20-29 | Four specifiers written in order top, right, bottom, left are read back unchanged. |
| Cli.ParseMarginRejectsOtherCounts | bin/index.js:22-26 | Any number of specifiers other than four is rejected, reporting that count. |
| Cli.ThreeSpecifiersRejected | bin/index.js:22-26 | `"2cm 2cm 2cm"` is rejected with count 3. |
| Cli.DefaultMarginParsed | bin/index.js:37-42 | `parseMargin` applied to the option's default string `"25px 35px 25px 35px"` gives top 25px, right 35px, bottom 25px, left 35px. |
| Cli.NoDigitsRejected | bin/index.js:21 | Text without any digit has no match, and the spread of `null` throws. |
| Cli.GeneratePdfOptions | bin/index.js:13-18 | The browser gets no arguments exactly when sandboxed, and `--no-sandbox` exactly when not. The PDF options are copied. |

## Left out

- The browser (puppeteer), the express server, `fs` and the dynamic `import` of the configuration are outside the model. The browser is a map from URL to page; the configuration is a value. The build-directory check and the server address are parameters of `StartUrl`.
- `isAddressInfo` (src/index.ts:50-71) is not modelled: an address with a port is `Some(port)`, anything else is `None`.
- Regular expressions are not executed. The asset lookups receive the first capture group. An article comes pre-split into text, marker and heading segments, assuming the heading expression's matches do not nest, text segments hold no heading or marker, and a heading's inner text holds no `<toc></toc>` or `<toc/>` marker, no opening `<h1`–`<h6` tag and no closing `</h1`–`</h6` tag. An article in which the source's expressions would match across these boundaries is not modelled. The small expressions on one heading and the margin expression are modelled character by character.
- `Math.random()` is a function from the header number to a token. Its randomness is not modelled, and `HeadingIdsDistinct` holds for every such function.
- URL parsing is left out: `new URL(...).origin` is a parameter, `None` when the URL is invalid.
- Crawl.CrawlFrom: a chain of next links that revisits a page is excluded by `ChainEnds`. This covers the cycles on which the source loops forever and also those on which it would throw on some lap (a cycle through a page without HTML or without an article, or one whose first page has no stylesheet or script capture); the crawl lemmas say nothing about such sites.
- The `await`s and asynchronous ordering, logging (`console`, `chalk`), `browser.close`, `httpServer.close` and the `commander` wiring are not modelled.
- A failure inside `page.goto` is a URL missing from the browser map; its error text is not modelled.
- Crawl.PdfGenerator.GeneratePdf: does not model the third parameter, the browser's launch arguments. bin/index.js:56-60 passes the whole options object of `generatePdfOptions` there, and the print options are hard-coded at src/index.ts:197-202, so the margin and format chosen on the command line never reach the print job.
- Preset entries that are bare strings rather than `[name, options]` pairs are not modelled; each entry is a name with options.
- The `loadConfig` warning for several route base paths and the unreadable-configuration error (src/index.ts:214-218) are not modelled.
- `getPathSegment` with the flag off removes only one trailing slash, so `"a//"` gives `"/a/"`, a segment that still ends with a slash. The model follows the code.
- Headings.Rewritten: its contract does not state the new attributes. `Headings.IdInsertedWhenAbsent` and `Headings.IdPrependedToExisting` state them about `SetId`, which the rewrite applies. The case of several id attributes in one tag is left to the general `ReplaceAll` definition.
