# Web page analyser: a Dafny model

The service takes a page URL and fetches and parses the page. It extracts a
few metrics: the doctype version, the title, a heading histogram, internal and
external link counts, a count of dead external links, and whether the page
has a login form. It caches the result in a table keyed by the SHA-256 digest
of the URL, with a 24-hour soft expiry.

This project models three parts:

- **Metric extraction** (`Analyzer`, from `helpers/analyzer.go`). The parsed
  page is plain data. That data is per-tag element counts, the `a[href]`
  anchors, and the forms. Each anchor has its raw href, a flag for whether
  the href parses, and the host and text of its resolved URL. Each form has
  its number of password inputs. The callbacks and loops of `AnalyzePage`
  are methods with loop invariants. Each method is proved equal to a
  specification function, and lemmas prove the promised properties of those
  functions. `getHTMLVersion` is a loop over a token stream.
- **The URL-digest cache** (`Db`, from `helpers/db.go`). A class
  `UrlCache` holds the table as a map from digest to row, using the
  `Analysis` row shape of `types/analysis.go`. `GetCachedResult` reads the
  table. `SetCachedResult` upserts into it.
- **The get-or-compute handler** (`Handlers`, from `handlers/analyze.go`).
  `AnalyzeHandler` returns the HTTP response and the ordered list of effects
  it performed (cache lookup, page analysis, cache store). This list lets the
  contract say that nothing is analysed on a hit and that nothing is looked
  up on a malformed body.

The older single-file server in `main.go` has its own `analyzePage`,
`getHTMLVersion` and `getLinkStatus`. They match the helpers versions line for
line: main.go:49-130 is helpers/analyzer.go:14-78, main.go:133-153 is
helpers/analyzer.go:80-100, and main.go:156-164 is helpers/analyzer.go:102-110.
So the same `Analyzer` members model both. Some rows below cite the `main.go`
lines and others the helpers lines; every such row applies equally to its
twin. The cache-less `analyzeHandler` is `LegacyMain.AnalyzeHandler`.

Inputs the program gets from the outside world are parameters:

- `PageFetch`: the outcome of the GET and the DOM parse.
- `VersionFetch`: the outcome of the second GET and its token stream.
- `baseHost`: the host of the parsed page URL. The `url.Parse` error that
  helpers/analyzer.go:32 ignores cannot leave the base unset.
  `client.Get` at :16 has already parsed the same URL, and a URL it cannot
  parse ends the analysis with "failed to fetch page: ..." at :18 (the
  `FetchFailed` path). So whenever a page is analysed, it has a base host.
- `probe`: a function giving the outcome of a HEAD request to each URL.
- The times `now` and `storedAt`, as integer nanoseconds.
- `queryFails` and `storeFault`: the database's answer to each statement.

The digest, the JSON encoder and the JSON decoder are opaque functions fixed
when the cache is created. The store-then-lookup properties assume that
decoding an encoded result gives the result back.

Where the code departs from the documented design, the model follows the
code:

- Any failed lookup query is a cache miss, not a cache error
  (helpers/db.go:44-46). In the model, only a stored result that fails to
  decode is a lookup error. `GetCachedResult` also returns the error of
  `InitDB` (helpers/db.go:36-39), which the handler reports as 500
  "cache error: ..."; that path is left out with `InitDB` (see below).
- Links are probed one after another, not by a worker pool.
- The digest is taken of the raw URL string, with no normalisation.
- Every doctype whose lowercased data contains "html" is reported as
  "HTML5". This includes the HTML 4.01 doctype
  (`Analyzer.Html401DoctypeReadsAsHtml5`).

The handler expects `GetCachedResult` to return `(result, id, err)` and
`SetCachedResult` to return `(id, err)` (handlers/analyze.go:18, :43), but
helpers/db.go returns `(result, err)` and `err`. The model follows the
handler. A lookup hit carries the row's `ID`. A store returns the id of the
row it wrote: a fresh id for a new digest, and the existing row's id on an
update.

## Model

| member | source | states |
|---|---|---|
| `Analyzer.CountHeadings` | helpers/analyzer.go:27-31 | the histogram has exactly the keys h1..h6, each mapped to that tag's element count, and equals `HeadingHistogram` |
| `Analyzer.HistogramZeroFill` | main.go:71-75 | a heading tag with no elements on the page is still a key, with count 0 |
| `Analyzer.ClassifyLinks` | helpers/analyzer.go:36-50 | the callback loop yields the counters and worklist of `Tally`; internal + external = number of accepted anchors, and the worklist length = external |
| `Analyzer.TallyMatchesFilters` | helpers/analyzer.go:43-49 | internal = number of accepted anchors on the base host; external = number on other hosts; worklist = their resolved URLs in document order |
| `Analyzer.AcceptedSplits` | main.go:90-96 | every accepted anchor is on the base host or not, so the two filtered counts add up to the accepted count |
| `Analyzer.TallyTotals` | main.go:84-97 | internal + external = number of accepted anchors; worklist length = external count |
| `Analyzer.WorklistMembers` | helpers/analyzer.go:38-49 | a URL is in the probe worklist iff it is the resolution of an accepted anchor whose host differs from the base host |
| `Analyzer.TallyIgnoresRejected` | helpers/analyzer.go:38-42 | anchors with an empty href, a `javascript:` prefix (case-sensitive) or a parse failure change no counter and add nothing to the worklist |
| `Analyzer.GetLinkStatus` | helpers/analyzer.go:102-110 | a failed HEAD request gives (0, its error); a response gives (its status, no error); the error part is present iff the request failed |
| `Analyzer.Inaccessible` | helpers/analyzer.go:53 | the probe loop's test, applied to the pair `getLinkStatus` returns (helpers/analyzer.go:102-110): a probe is inaccessible iff the request failed or 400 <= status < 600 |
| `Analyzer.InaccessibleCount` | helpers/analyzer.go:51-56 | the number of inaccessible worklist links is at most the worklist length |
| `Analyzer.CountInaccessible` | main.go:100-105 | the probe loop adds one per link whose probe is inaccessible, giving `InaccessibleCount`, bounded by the number of links |
| `Analyzer.InaccessibleAppend` | helpers/analyzer.go:51-56 | the count over a concatenation is the sum of the counts |
| `Analyzer.InaccessibleOrderIrrelevant` | helpers/analyzer.go:51-56 | probing any permutation of the worklist gives the same count |
| `Analyzer.InaccessibleReadsOnlyWorklist` | helpers/analyzer.go:51-53 | the count depends only on the probe outcomes of worklist URLs |
| `Analyzer.ExtractReadsOnlyExternalProbes` | main.go:84-105 | probe outcomes of URLs that are not accepted external links do not affect the result (internal and rejected links are never probed) |
| `Analyzer.FormHasPassword` | helpers/analyzer.go:59-62 | the inner loop sets `found` iff the form has at least one password input |
| `Analyzer.FindLoginForm` | helpers/analyzer.go:57-68 | hasLoginForm iff some form has a password input; the walk stops at the first such form, having seen none before it; with no such form (or none at all) it visits every form and returns false |
| `Analyzer.GetHTMLVersion` | helpers/analyzer.go:80-100 | the tokenizer loop returns `HtmlVersion`: "Unknown" on a fetch error, else the decision of the first error or doctype token |
| `Analyzer.FirstDecisiveTokenDecides` | helpers/analyzer.go:86-99 | after any run of other tokens, an error token gives "Unknown" and a doctype token gives "HTML5" if its lowercased data contains "html", else its data unchanged; later tokens do not matter |
| `Analyzer.NoDoctypeIsUnknown` | main.go:139-152 | a stream with no doctype token (an error token or end of input comes first) gives "Unknown" |
| `Analyzer.VersionOutcomes` | main.go:145-150 | the version is "Unknown", "HTML5", or the data of a doctype token of the stream that does not contain "html" case-insensitively |
| `Analyzer.Html401DoctypeReadsAsHtml5` | helpers/analyzer.go:94-95 | the HTML 4.01 doctype data also counts as "HTML5" |
| `Analyzer.ExtractConsistent` | helpers/analyzer.go:25-77 | every extracted result has the six zero-filled heading keys, internal + external = accepted anchors, 0 <= inaccessible <= external, and hasLoginForm iff some form has a password input |
| `Analyzer.AnalyzePage` | helpers/analyzer.go:14-78 | a fetch error gives "failed to fetch page: ..." and a parse error "failed to parse HTML: ..."; both give no result; otherwise a result satisfying `ExtractConsistent`, equal to `AnalyzeSpec` |
| `Analyzer.WorkedExample` | helpers/analyzer.go:14-78 | analysing the example page (a token stream whose doctype "html" follows another token; 1 h1, 2 h2, 5 internal and 3 external links with one 404, a password form) succeeds with "HTML5", headings {h1:1, h2:2, others 0}, 5, 3, 1, true |
| `Db.UrlCache.HashURL` | helpers/db.go:30-33 | the digest of a URL is a function of the URL string alone, 32 bytes long |
| `Db.LookupIn` | helpers/db.go:35-55 | miss iff the query fails, no row has the digest, or the row is older than 24 h (exactly 24 h is fresh); a fresh row that fails to decode is an error with the decoder's message; a hit carries the decoded result and the row id |
| `Db.UrlCache.GetCachedResult` | helpers/db.go:35-55 | the lookup of the URL's digest on the current table is `LookupIn`; the table is not changed |
| `Db.Upsert` | helpers/db.go:57-77 | afterwards the digest has exactly one row holding the new url, result and analyzed_at; an existing row keeps its id; every other digest's row is unchanged |
| `Db.UrlCache.SetCachedResult` | helpers/db.go:57-77 | on success the table becomes `Upsert` of the old one and the row id is returned; a failed statement returns its error and leaves the table as it was; the table invariant is kept |
| `Db.UpsertWellFormed` | types/analysis.go:8-17 | an upsert keeps the table invariant: each row sits under its own digest and row ids are distinct |
| `Db.StoreThenLookup` | helpers/db.go:35-77 | storing r at t and looking up the same digest at t' with t' - t <= 24 h gives r and the stored row's id |
| `Db.ExpiredIsMissButKept` | helpers/db.go:47-49 | a row older than 24 h reads as a miss (the row stays, since the lookup changes no state) |
| `Db.SecondStoreWins` | helpers/db.go:73-77 | two stores for one digest leave one row holding the second store's values, under the first store's id |
| `Db.UpsertKeepsOtherLookups` | helpers/db.go:73-77 | a store does not change the lookup of any other digest |
| `Handlers.BindRequest` | handlers/analyze.go:12-16 | binding succeeds iff the body is a JSON object with a non-empty `url`; a malformed body reports the decoder's error |
| `Handlers.AnalyzeHandler` | handlers/analyze.go:11-59 | bad body: 400, no lookup, no analysis. Lookup error: 500 with "cache error: " + message, no analysis. Hit: 200 with every cached field and the row id, no analysis. Miss: an analysis error gives 500 with no store; a store error gives 500; otherwise the result is upserted, then 200 with the fresh fields and the stored row's id |
| `Handlers.SecondRequestHitsCache` | handlers/analyze.go:18-36 | a second identical request within 24 h of a successful store gets the same response, with only a cache lookup performed |
| `LegacyMain.AnalyzeHandler` | main.go:34-47 | bad body: 400, no analysis; analysis error: 500 with the error; otherwise 200 with the analysis result itself |

## Left out

- HTTP fetching, the 10 s and 5 s client timeouts and response bodies. Fetch, parse, token-stream and probe outcomes are inputs.
- The order of the page's I/O: the second GET for the doctype happens only after a successful parse. Its outcome is an input and is used only in that case.
- goquery DOM parsing and CSS selector matching. The document is per-tag counts, anchors and forms. The title is an opaque string, because `Text()` over all `title` matches is a library call.
- `net/url` parsing and `ResolveReference` (RFC 3986 resolution). Each anchor carries the parse flag and its resolved host and URL, and the page's base host is an input.
- The probe oracle gives a fixed outcome per URL, so an external URL listed twice gets the same outcome both times. The real program makes two requests, which may differ.
- Unicode case folding in `strings.ToLower`. Only ASCII letters are folded, which decides "contains html" in the same way.
- SHA-256 internals. The digest is an opaque function with a 32-byte result type.
- JSON encoding and decoding. `json.Marshal` cannot fail on this record, so the store has no encoding-error path.
- GORM, MySQL, `InitDB` and the lazy `MYSQL_DSN` connection (helpers/db.go:15-28). InitDB failures therefore do not appear as lookup or store errors, so neither does the handler's 500 "cache error: ..." for a failed connection.
- The audit columns `CreatedAt`, `UpdatedAt` and `DeletedAt` of `Analysis`.
- The wall clock: `time.Now` and `time.Since` become integer parameters.
- gin request binding, reduced to three outcomes (malformed, `url` missing or empty, bound). Also left out: JSON response writing, `main()` and routes/routes.go.
- Concurrency: the code probes links one after another.
- Go's 64-bit `int`. Counts are unbounded integers, since no page has 2^63 links.
