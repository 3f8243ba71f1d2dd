/** Metric extraction over a fetched and parsed page.

    The network and the HTML libraries are inputs here: `PageFetch` is the
    outcome of the GET plus the DOM parse, `VersionFetch` the outcome of the
    second GET that feeds the doctype tokenizer, `baseHost` the host of the
    parsed page URL, and `probe` the outcome a HEAD request to a URL gives. */
module Analyzer {
  import opened Types

  // ---------------------------------------------------------------------------
  // The abstract parsed page

  /** An `a[href]` element: its raw href, whether the href parses as a URL,
      and the host and text of that URL resolved against the page URL. */
  datatype Anchor = Anchor(href: string, parses: bool, host: string, resolved: string)

  /** A `form` element and the number of `input[type='password']` elements in it. */
  datatype Form = Form(passwordInputs: nat)

  /** The parsed page: the text of its `title` elements, the number of elements
      per tag name (a tag that is absent has no elements), its anchors with an
      href and its forms, in document order. */
  datatype Document = Document(
    title: string,
    tagCounts: map<string, nat>,
    anchors: seq<Anchor>,
    forms: seq<Form>)

  datatype ParseOutcome = ParseFailed(error: string) | Parsed(doc: Document)

  /** Outcome of fetching the page: a transport error, or a body that the
      parser accepted or rejected. */
  datatype PageFetch = FetchFailed(error: string) | Fetched(body: ParseOutcome)

  /** Tokens as the HTML tokenizer classifies them; every token that is neither
      an error nor a doctype is `OtherToken`. */
  datatype Token = ErrorToken | DoctypeToken(data: string) | OtherToken

  /** Outcome of the second GET: an error, or the tokens of the body. Running
      off the end of `tokens` is the tokenizer's end-of-input error token. */
  datatype VersionFetch = VersionFetchFailed | VersionBody(tokens: seq<Token>)

  /** Outcome of a HEAD request. */
  datatype HeadOutcome = RequestFailed(error: string) | Responded(status: int)

  // ---------------------------------------------------------------------------
  // Headings

  /** `doc.Find(tag).Length()`. */
  function TagCount(doc: Document, tag: string): nat
  {
    if tag in doc.tagCounts then doc.tagCounts[tag] else 0
  }

  /** `fmt.Sprintf("h%d", i)` for a one-digit `i`. */
  function HeadingTag(i: int): string
    requires 1 <= i <= 9
  {
    ['h', ('0' as int + i) as char]
  }

  const HeadingTags: set<string> := {"h1", "h2", "h3", "h4", "h5", "h6"}

  /** The heading histogram: every tag h1..h6, zero-filled. */
  function HeadingHistogram(doc: Document): map<string, int>
  {
    map t | t in HeadingTags :: TagCount(doc, t)
  }

  lemma HeadingTagsEnumerated()
    ensures (set k | 1 <= k < 7 :: HeadingTag(k)) == HeadingTags
  {
    assert HeadingTag(1) == "h1" && HeadingTag(2) == "h2" && HeadingTag(3) == "h3";
    assert HeadingTag(4) == "h4" && HeadingTag(5) == "h5" && HeadingTag(6) == "h6";
  }

  /** The loop `for i := 1; i <= 6; i++ { headings[tag] = doc.Find(tag).Length() }`. */
  method CountHeadings(doc: Document) returns (headings: map<string, int>)
    ensures headings.Keys == HeadingTags
    ensures forall t :: t in headings ==> headings[t] == TagCount(doc, t)
    ensures headings == HeadingHistogram(doc)
  {
    headings := map[];
    for i := 1 to 7
      invariant headings.Keys == set k | 1 <= k < i :: HeadingTag(k)
      invariant forall t :: t in headings ==> headings[t] == TagCount(doc, t)
    {
      var tag := HeadingTag(i);
      headings := headings[tag := TagCount(doc, tag)];
    }
    HeadingTagsEnumerated();
  }

  /** A heading tag the page does not contain is still present, with count zero. */
  lemma HistogramZeroFill(doc: Document, t: string)
    requires t in HeadingTags && t !in doc.tagCounts
    ensures t in HeadingHistogram(doc) && HeadingHistogram(doc)[t] == 0
  {
  }

  // ---------------------------------------------------------------------------
  // Link filter and classification

  predicate HasPrefix(s: string, p: string)
  {
    |p| <= |s| && s[..|p|] == p
  }

  /** An anchor is followed unless its href fails to parse, is empty, or starts
      with the case-sensitive prefix "javascript:". */
  predicate Accepted(a: Anchor)
  {
    a.parses && a.href != "" && !HasPrefix(a.href, "javascript:")
  }

  datatype LinkTally = LinkTally(internal: nat, external: nat, worklist: seq<string>)

  /** What the `a[href]` callback accumulates over `anchors`, in order. */
  function Tally(anchors: seq<Anchor>, baseHost: string): LinkTally
  {
    if anchors == [] then LinkTally(0, 0, [])
    else
      var t := Tally(anchors[..|anchors| - 1], baseHost);
      var a := anchors[|anchors| - 1];
      if !Accepted(a) then t
      else if a.host == baseHost then t.(internal := t.internal + 1)
      else t.(external := t.external + 1, worklist := t.worklist + [a.resolved])
  }

  /** The accepted anchors, in order. */
  function AcceptedOf(anchors: seq<Anchor>): (r: seq<Anchor>)
  {
    if anchors == [] then []
    else
      var a := anchors[|anchors| - 1];
      AcceptedOf(anchors[..|anchors| - 1]) + (if Accepted(a) then [a] else [])
  }

  /** The accepted anchors that pass `onBase`: those on the base host when it is
      true, those on another host when it is false. */
  function OnHostOf(anchors: seq<Anchor>, baseHost: string, onBase: bool): seq<Anchor>
  {
    if anchors == [] then []
    else
      var a := anchors[|anchors| - 1];
      OnHostOf(anchors[..|anchors| - 1], baseHost, onBase)
        + (if Accepted(a) && (a.host == baseHost) == onBase then [a] else [])
  }

  function ResolvedOf(anchors: seq<Anchor>): seq<string>
  {
    seq(|anchors|, i requires 0 <= i < |anchors| => anchors[i].resolved)
  }

  lemma ResolvedOfAppend(s: seq<Anchor>, a: Anchor)
    ensures ResolvedOf(s + [a]) == ResolvedOf(s) + [a.resolved]
  {
  }

  /** The counters against their reference filters: internal counts the accepted
      anchors on the base host, external those on any other host, and the
      worklist holds the latter's resolved URLs in document order. */
  lemma {:induction false} TallyMatchesFilters(anchors: seq<Anchor>, baseHost: string)
    ensures Tally(anchors, baseHost).internal == |OnHostOf(anchors, baseHost, true)|
    ensures Tally(anchors, baseHost).external == |OnHostOf(anchors, baseHost, false)|
    ensures Tally(anchors, baseHost).worklist == ResolvedOf(OnHostOf(anchors, baseHost, false))
  {
    if anchors != [] {
      var init := anchors[..|anchors| - 1];
      var a := anchors[|anchors| - 1];
      TallyMatchesFilters(init, baseHost);
      ResolvedOfAppend(OnHostOf(init, baseHost, false), a);
    }
  }

  /** Every accepted anchor is either internal or external, never both. */
  lemma {:induction false} AcceptedSplits(anchors: seq<Anchor>, baseHost: string)
    ensures |OnHostOf(anchors, baseHost, true)| + |OnHostOf(anchors, baseHost, false)|
            == |AcceptedOf(anchors)|
  {
    if anchors != [] {
      AcceptedSplits(anchors[..|anchors| - 1], baseHost);
    }
  }

  /** internal + external = number of accepted anchors, and the worklist has
      one entry per external link. */
  lemma TallyTotals(anchors: seq<Anchor>, baseHost: string)
    ensures Tally(anchors, baseHost).internal + Tally(anchors, baseHost).external
            == |AcceptedOf(anchors)|
    ensures |Tally(anchors, baseHost).worklist| == Tally(anchors, baseHost).external
  {
    TallyMatchesFilters(anchors, baseHost);
    AcceptedSplits(anchors, baseHost);
  }

  lemma {:induction false} OnHostMembers(anchors: seq<Anchor>, baseHost: string, onBase: bool, a: Anchor)
    ensures a in OnHostOf(anchors, baseHost, onBase)
            <==> a in anchors && Accepted(a) && (a.host == baseHost) == onBase
  {
    if anchors != [] {
      var init := anchors[..|anchors| - 1];
      OnHostMembers(init, baseHost, onBase, a);
      assert anchors == init + [anchors[|anchors| - 1]];
    }
  }

  /** A URL is probed iff it is the resolution of an accepted anchor on another
      host; rejected anchors and internal anchors are never probed. */
  lemma WorklistMembers(anchors: seq<Anchor>, baseHost: string, u: string)
    ensures u in Tally(anchors, baseHost).worklist
            <==> exists a :: a in anchors && Accepted(a) && a.host != baseHost && a.resolved == u
  {
    TallyMatchesFilters(anchors, baseHost);
    var ext := OnHostOf(anchors, baseHost, false);
    if u in Tally(anchors, baseHost).worklist {
      var i :| 0 <= i < |ext| && ResolvedOf(ext)[i] == u;
      OnHostMembers(anchors, baseHost, false, ext[i]);
    }
    if exists a :: a in anchors && Accepted(a) && a.host != baseHost && a.resolved == u {
      var a :| a in anchors && Accepted(a) && a.host != baseHost && a.resolved == u;
      OnHostMembers(anchors, baseHost, false, a);
      var i :| 0 <= i < |ext| && ext[i] == a;
      assert ResolvedOf(ext)[i] == u;
    }
  }

  /** Rejected anchors contribute nothing: the tally of the page equals the
      tally of its accepted anchors alone. */
  lemma {:induction false} TallyIgnoresRejected(anchors: seq<Anchor>, baseHost: string)
    ensures Tally(anchors, baseHost) == Tally(AcceptedOf(anchors), baseHost)
  {
    if anchors != [] {
      var init := anchors[..|anchors| - 1];
      var a := anchors[|anchors| - 1];
      TallyIgnoresRejected(init, baseHost);
      if Accepted(a) {
        var acc := AcceptedOf(init) + [a];
        assert AcceptedOf(anchors) == acc;
        assert acc[..|acc| - 1] == AcceptedOf(init) && acc[|acc| - 1] == a;
      } else {
        assert AcceptedOf(anchors) == AcceptedOf(init);
      }
    }
  }

  /** The `doc.Find("a[href]").Each(...)` callback run over every anchor. */
  method ClassifyLinks(anchors: seq<Anchor>, baseHost: string)
    returns (internal: nat, external: nat, links: seq<string>)
    ensures LinkTally(internal, external, links) == Tally(anchors, baseHost)
    ensures internal + external == |AcceptedOf(anchors)| && |links| == external
  {
    internal, external, links := 0, 0, [];
    for i := 0 to |anchors|
      invariant LinkTally(internal, external, links) == Tally(anchors[..i], baseHost)
    {
      assert anchors[..i + 1][..i] == anchors[..i];
      var a := anchors[i];
      if !a.parses || a.href == "" || HasPrefix(a.href, "javascript:") {
        continue;
      }
      if a.host == baseHost {
        internal := internal + 1;
      } else {
        external := external + 1;
        links := links + [a.resolved];
      }
    }
    assert anchors[..|anchors|] == anchors;
    TallyTotals(anchors, baseHost);
  }

  // ---------------------------------------------------------------------------
  // Link probing

  /** `getLinkStatus`: (0, err) when the request fails, else (status, nil). */
  function GetLinkStatus(o: HeadOutcome): (r: (int, Option<string>))
    ensures r.1.Some? <==> o.RequestFailed?
    ensures o.RequestFailed? ==> r.0 == 0 && r.1.value == o.error
    ensures o.Responded? ==> r.0 == o.status
  {
    match o
    case RequestFailed(e) => (0, Some(e))
    case Responded(s) => (s, None)
  }

  /** The probe loop's test on the pair `getLinkStatus` returns. */
  predicate Inaccessible(o: HeadOutcome): (b: bool)
    ensures b <==> o.RequestFailed? || 400 <= o.status < 600
  {
    var (status, err) := GetLinkStatus(o);
    err.Some? || (400 <= status && status < 600)
  }

  /** Number of worklist URLs whose probe is inaccessible. */
  function InaccessibleCount(links: seq<string>, probe: string -> HeadOutcome): (n: nat)
    ensures n <= |links|
  {
    if links == [] then 0
    else InaccessibleCount(links[..|links| - 1], probe)
         + (if Inaccessible(probe(links[|links| - 1])) then 1 else 0)
  }

  lemma {:induction false} InaccessibleAppend(a: seq<string>, b: seq<string>, probe: string -> HeadOutcome)
    ensures InaccessibleCount(a + b, probe) == InaccessibleCount(a, probe) + InaccessibleCount(b, probe)
  {
    if b == [] {
      assert a + b == a;
    } else {
      var b' := b[..|b| - 1];
      InaccessibleAppend(a, b', probe);
      assert (a + b)[..|a + b| - 1] == a + b';
      assert (a + b)[|a + b| - 1] == b[|b| - 1];
    }
  }

  /** The count is a sum: probing the same URLs in any order gives the same count. */
  lemma {:induction false} InaccessibleOrderIrrelevant(a: seq<string>, b: seq<string>, probe: string -> HeadOutcome)
    requires multiset(a) == multiset(b)
    ensures InaccessibleCount(a, probe) == InaccessibleCount(b, probe)
  {
    if a != [] {
      var x := a[|a| - 1];
      var a' := a[..|a| - 1];
      assert a == a' + [x];
      assert x in multiset(b);
      var j :| 0 <= j < |b| && b[j] == x;
      var b' := b[..j] + b[j + 1..];
      assert b == b[..j] + [x] + b[j + 1..];
      assert multiset(b) == multiset(b[..j]) + multiset{x} + multiset(b[j + 1..]);
      assert multiset(b') == multiset(b[..j]) + multiset(b[j + 1..]);
      assert multiset(a) == multiset(a') + multiset{x};
      assert multiset(a') == multiset(a) - multiset{x};
      assert multiset(b') == multiset(b) - multiset{x};
      InaccessibleOrderIrrelevant(a', b', probe);
      InaccessibleAppend(b[..j], [x], probe);
      InaccessibleAppend(b[..j] + [x], b[j + 1..], probe);
      InaccessibleAppend(b[..j], b[j + 1..], probe);
    } else {
      assert |b| == |multiset(b)| == 0;
    }
  }

  /** Only the worklist's probes matter: two probe oracles that agree on the
      worklist give the same count. */
  lemma {:induction false} InaccessibleReadsOnlyWorklist(links: seq<string>, p1: string -> HeadOutcome, p2: string -> HeadOutcome)
    requires forall u :: u in links ==> p1(u) == p2(u)
    ensures InaccessibleCount(links, p1) == InaccessibleCount(links, p2)
  {
    if links != [] {
      InaccessibleReadsOnlyWorklist(links[..|links| - 1], p1, p2);
    }
  }

  /** The loop `for _, link := range links { ... inaccessibleLinks++ }`. */
  method CountInaccessible(links: seq<string>, probe: string -> HeadOutcome) returns (n: nat)
    ensures n == InaccessibleCount(links, probe)
    ensures n <= |links|
  {
    n := 0;
    for i := 0 to |links|
      invariant n == InaccessibleCount(links[..i], probe)
    {
      assert links[..i + 1][..i] == links[..i];
      var (status, err) := GetLinkStatus(probe(links[i]));
      if err.Some? || (status >= 400 && status < 600) {
        n := n + 1;
      }
    }
    assert links[..|links|] == links;
  }

  // ---------------------------------------------------------------------------
  // Login form

  predicate HasPasswordForm(forms: seq<Form>)
  {
    exists i :: 0 <= i < |forms| && forms[i].passwordInputs > 0
  }

  /** The inner `s.Find("input[type='password']").Each(... found = true ...)`. */
  method FormHasPassword(form: Form) returns (found: bool)
    ensures found <==> form.passwordInputs > 0
  {
    found := false;
    var j := 0;
    while j < form.passwordInputs
      invariant 0 <= j <= form.passwordInputs
      invariant found <==> j > 0
    {
      found := true;
      j := j + 1;
    }
  }

  /** `doc.Find("form").EachWithBreak(...)`: `examined` is the number of forms
      the callback ran on; the walk stops at the first form with a password input. */
  method FindLoginForm(forms: seq<Form>) returns (hasLoginForm: bool, examined: nat)
    ensures hasLoginForm <==> HasPasswordForm(forms)
    ensures examined <= |forms|
    ensures hasLoginForm ==> 0 < examined && forms[examined - 1].passwordInputs > 0
    ensures forall j :: 0 <= j < examined - 1 ==> forms[j].passwordInputs == 0
    ensures !hasLoginForm ==> examined == |forms|
  {
    hasLoginForm := false;
    examined := 0;
    while examined < |forms|
      invariant examined <= |forms|
      invariant forall j :: 0 <= j < examined ==> forms[j].passwordInputs == 0
    {
      var found := FormHasPassword(forms[examined]);
      examined := examined + 1;
      if found {
        hasLoginForm := true;
        return;
      }
    }
  }

  // ---------------------------------------------------------------------------
  // HTML version

  /** `strings.ToLower`, on ASCII letters. */
  function ToLower(s: string): (r: string)
    ensures |r| == |s|
  {
    seq(|s|, i requires 0 <= i < |s| => if 'A' <= s[i] <= 'Z' then (s[i] as int + 32) as char else s[i])
  }

  predicate OccursAt(s: string, sub: string, k: int)
  {
    0 <= k <= |s| - |sub| && s[k..k + |sub|] == sub
  }

  /** `strings.Contains`. */
  predicate Contains(s: string, sub: string)
  {
    exists k | 0 <= k <= |s| - |sub| :: OccursAt(s, sub, k)
  }

  /** The decision on the first doctype token's data. */
  function DoctypeVersion(data: string): string
  {
    if Contains(ToLower(data), "html") then "HTML5" else data
  }

  predicate Decisive(t: Token)
  {
    !t.OtherToken?
  }

  /** The tokenizer loop: skip tokens until an error token (or the end of
      input) or a doctype token. */
  function FirstDecision(tokens: seq<Token>): string
  {
    if tokens == [] then "Unknown"
    else match tokens[0]
      case ErrorToken => "Unknown"
      case DoctypeToken(d) => DoctypeVersion(d)
      case OtherToken => FirstDecision(tokens[1..])
  }

  /** `getHTMLVersion`. */
  function HtmlVersion(src: VersionFetch): string
  {
    match src
    case VersionFetchFailed => "Unknown"
    case VersionBody(tokens) => FirstDecision(tokens)
  }

  /** The first decisive token decides, whatever comes before or after it. */
  lemma {:induction false} FirstDecisiveTokenDecides(pre: seq<Token>, t: Token, rest: seq<Token>)
    requires forall i :: 0 <= i < |pre| ==> !Decisive(pre[i])
    requires Decisive(t)
    ensures FirstDecision(pre + [t] + rest) == if t.ErrorToken? then "Unknown" else DoctypeVersion(t.data)
  {
    if pre != [] {
      assert (pre + [t] + rest)[1..] == pre[1..] + [t] + rest;
      FirstDecisiveTokenDecides(pre[1..], t, rest);
    }
  }

  /** A stream without doctype tokens gives "Unknown". */
  lemma {:induction false} NoDoctypeIsUnknown(tokens: seq<Token>)
    requires forall i :: 0 <= i < |tokens| ==> !tokens[i].DoctypeToken?
    ensures FirstDecision(tokens) == "Unknown"
  {
    if tokens != [] && tokens[0].OtherToken? {
      NoDoctypeIsUnknown(tokens[1..]);
    }
  }

  /** The version is "Unknown", "HTML5", or the data of a doctype token of the
      stream whose lowercased form does not contain "html". */
  lemma {:induction false} VersionOutcomes(tokens: seq<Token>)
    ensures var v := FirstDecision(tokens);
            v == "Unknown" || v == "HTML5"
            || exists i :: 0 <= i < |tokens| && tokens[i] == DoctypeToken(v) && !Contains(ToLower(v), "html")
  {
    if tokens != [] && tokens[0].OtherToken? {
      VersionOutcomes(tokens[1..]);
      var v := FirstDecision(tokens);
      if v != "Unknown" && v != "HTML5" {
        var i :| 0 <= i < |tokens[1..]| && tokens[1..][i] == DoctypeToken(v) && !Contains(ToLower(v), "html");
        assert tokens[i + 1] == DoctypeToken(v);
      }
    }
  }

  /** The tokenizer `for` loop of `getHTMLVersion`. */
  method GetHTMLVersion(src: VersionFetch) returns (version: string)
    ensures version == HtmlVersion(src)
  {
    if src.VersionFetchFailed? {
      return "Unknown";
    }
    var tokens := src.tokens;
    var i := 0;
    while i < |tokens|
      invariant i <= |tokens|
      invariant FirstDecision(tokens[i..]) == FirstDecision(tokens)
    {
      match tokens[i]
      case ErrorToken =>
        return "Unknown";
      case DoctypeToken(data) =>
        if Contains(ToLower(data), "html") {
          return "HTML5";
        }
        return data;
      case OtherToken =>
        assert tokens[i..][1..] == tokens[i + 1..];
        i := i + 1;
    }
    return "Unknown";
  }

  // ---------------------------------------------------------------------------
  // The whole page

  /** The metrics of a parsed page. */
  function Extract(doc: Document, version: string, baseHost: string, probe: string -> HeadOutcome): AnalyzeResponse
  {
    var t := Tally(doc.anchors, baseHost);
    AnalyzeResponse(version, doc.title, HeadingHistogram(doc), t.internal, t.external,
                    InaccessibleCount(t.worklist, probe), HasPasswordForm(doc.forms))
  }

  /** `AnalyzePage` as a function of its inputs. */
  function AnalyzeSpec(page: PageFetch, versionSrc: VersionFetch, baseHost: string, probe: string -> HeadOutcome)
    : Result<AnalyzeResponse, string>
  {
    match page
    case FetchFailed(e) => Failure("failed to fetch page: " + e)
    case Fetched(ParseFailed(e)) => Failure("failed to parse HTML: " + e)
    case Fetched(Parsed(doc)) => Success(Extract(doc, HtmlVersion(versionSrc), baseHost, probe))
  }

  /** The invariants every extracted result satisfies. */
  ghost predicate Consistent(doc: Document, r: AnalyzeResponse)
  {
    && r.headings.Keys == HeadingTags
    && (forall t :: t in r.headings ==> r.headings[t] == TagCount(doc, t))
    && r.internalLinks >= 0 && r.externalLinks >= 0
    && r.internalLinks + r.externalLinks == |AcceptedOf(doc.anchors)|
    && 0 <= r.inaccessibleLinks <= r.externalLinks
    && (r.hasLoginForm <==> HasPasswordForm(doc.forms))
  }

  lemma ExtractConsistent(doc: Document, version: string, baseHost: string, probe: string -> HeadOutcome)
    ensures Consistent(doc, Extract(doc, version, baseHost, probe))
  {
    TallyTotals(doc.anchors, baseHost);
  }

  /** The probe outcomes of URLs outside the worklist do not affect the result. */
  lemma ExtractReadsOnlyExternalProbes(doc: Document, version: string, baseHost: string,
                                       p1: string -> HeadOutcome, p2: string -> HeadOutcome)
    requires forall a :: a in doc.anchors && Accepted(a) && a.host != baseHost ==> p1(a.resolved) == p2(a.resolved)
    ensures Extract(doc, version, baseHost, p1) == Extract(doc, version, baseHost, p2)
  {
    var wl := Tally(doc.anchors, baseHost).worklist;
    forall u | u in wl ensures p1(u) == p2(u) {
      WorklistMembers(doc.anchors, baseHost, u);
    }
    InaccessibleReadsOnlyWorklist(wl, p1, p2);
  }

  /** `AnalyzePage`: fetch, parse, then extract every metric. */
  method AnalyzePage(page: PageFetch, versionSrc: VersionFetch, baseHost: string, probe: string -> HeadOutcome)
    returns (r: Result<AnalyzeResponse, string>)
    ensures r == AnalyzeSpec(page, versionSrc, baseHost, probe)
    ensures page.FetchFailed? ==> r == Failure("failed to fetch page: " + page.error)
    ensures page.Fetched? && page.body.ParseFailed? ==> r == Failure("failed to parse HTML: " + page.body.error)
    ensures page.Fetched? && page.body.Parsed? ==> r.Success? && Consistent(page.body.doc, r.value)
  {
    if page.FetchFailed? {
      return Failure("failed to fetch page: " + page.error);
    }
    if page.body.ParseFailed? {
      return Failure("failed to parse HTML: " + page.body.error);
    }
    var doc := page.body.doc;
    var htmlVersion := GetHTMLVersion(versionSrc);
    var title := doc.title;
    var headings := CountHeadings(doc);
    var internalLinks, externalLinks, links := ClassifyLinks(doc.anchors, baseHost);
    var inaccessibleLinks := CountInaccessible(links, probe);
    var hasLoginForm, _ := FindLoginForm(doc.forms);
    r := Success(AnalyzeResponse(htmlVersion, title, headings, internalLinks, externalLinks,
                                 inaccessibleLinks, hasLoginForm));
    ExtractConsistent(doc, htmlVersion, baseHost, probe);
  }

  // The worked example: one h1, two h2, five internal and three external
  // anchors of which one answers 404, and a form with a password input.

  const ExampleInner := Anchor("/a", true, "example.com", "http://example.com/a")
  const ExampleOuter := Anchor("http://other.org/", true, "other.org", "http://other.org/")
  const ExampleDead := Anchor("http://dead.org/", true, "dead.org", "http://dead.org/")

  function ExampleAnchors(): seq<Anchor>
  {
    [ExampleInner, ExampleInner, ExampleOuter, ExampleInner, ExampleInner, ExampleOuter, ExampleInner, ExampleDead]
  }

  function ExampleProbe(u: string): HeadOutcome
  {
    if u == "http://dead.org/" then Responded(404) else Responded(200)
  }

  /** One step of the tally: the k-th anchor is added to the tally of the first k - 1. */
  lemma TallyPrefixStep(s: seq<Anchor>, baseHost: string, k: nat)
    requires 0 < k <= |s|
    ensures var t := Tally(s[..k - 1], baseHost);
            var a := s[k - 1];
            Tally(s[..k], baseHost)
              == if !Accepted(a) then t
                 else if a.host == baseHost then t.(internal := t.internal + 1)
                 else t.(external := t.external + 1, worklist := t.worklist + [a.resolved])
  {
    assert s[..k][..k - 1] == s[..k - 1];
  }

  lemma ExampleAnchorsAccepted()
    ensures Accepted(ExampleInner) && Accepted(ExampleOuter) && Accepted(ExampleDead)
  {
    assert ExampleOuter.href[..11][0] == 'h' && ExampleDead.href[..11][0] == 'h';
  }

  lemma ExampleTally()
    ensures Tally(ExampleAnchors(), "example.com")
            == LinkTally(5, 3, ["http://other.org/", "http://other.org/", "http://dead.org/"])
  {
    var s := ExampleAnchors();
    var b := "example.com";
    ExampleAnchorsAccepted();
    assert s[..0] == [];
    TallyPrefixStep(s, b, 1);
    TallyPrefixStep(s, b, 2);
    TallyPrefixStep(s, b, 3);
    TallyPrefixStep(s, b, 4);
    TallyPrefixStep(s, b, 5);
    TallyPrefixStep(s, b, 6);
    TallyPrefixStep(s, b, 7);
    TallyPrefixStep(s, b, 8);
    assert s[..8] == s;
  }

  /** The whole analysis of the example page, whose doctype token follows
      another token. */
  lemma WorkedExample()
    ensures
      var doc := Document("Example", map["h1" := 1, "h2" := 2], ExampleAnchors(), [Form(0), Form(1)]);
      AnalyzeSpec(Fetched(Parsed(doc)), VersionBody([OtherToken, DoctypeToken("html")]), "example.com", ExampleProbe)
        == Success(AnalyzeResponse("HTML5", "Example",
                                   map["h1" := 1, "h2" := 2, "h3" := 0, "h4" := 0, "h5" := 0, "h6" := 0],
                                   5, 3, 1, true))
  {
    var doc := Document("Example", map["h1" := 1, "h2" := 2], ExampleAnchors(), [Form(0), Form(1)]);
    var tokens := [OtherToken, DoctypeToken("html")];
    assert tokens[1..] == [DoctypeToken("html")];
    assert ToLower("html") == "html";
    assert OccursAt(ToLower("html"), "html", 0);
    assert HtmlVersion(VersionBody(tokens)) == "HTML5";
    ExampleTally();
    var wl := ["http://other.org/", "http://other.org/", "http://dead.org/"];
    assert wl[..2][..1] == wl[..1] && wl[..1][..0] == [];
    assert InaccessibleCount(wl[..1], ExampleProbe) == 0;
    assert InaccessibleCount(wl[..2], ExampleProbe) == 0;
    assert wl[..3][..2] == wl[..2] && wl[..3] == wl;
    assert InaccessibleCount(wl, ExampleProbe) == 1;
    assert doc.forms[1].passwordInputs > 0;
    assert HeadingHistogram(doc) == map["h1" := 1, "h2" := 2, "h3" := 0, "h4" := 0, "h5" := 0, "h6" := 0];
  }

  /** An HTML 4.01 doctype contains "html" too, so it is also reported as "HTML5". */
  lemma Html401DoctypeReadsAsHtml5()
    ensures DoctypeVersion("HTML PUBLIC \"-//W3C//DTD HTML 4.01//EN\"") == "HTML5"
  {
    var l := ToLower("HTML PUBLIC \"-//W3C//DTD HTML 4.01//EN\"");
    assert l[0] == 'h' && l[1] == 't' && l[2] == 'm' && l[3] == 'l';
    assert l[0..4] == "html";
    assert OccursAt(l, "html", 0);
  }
}
