/** The POST /analyze handler with the cache: bind the request body, look up
    the cache, and on a miss analyse the page and store the result. */
module Handlers {
  import opened Types
  import Analyzer
  import Db

  /** The request body as the JSON decoder sees it: malformed, or an object
      whose `url` member may be absent. */
  datatype RequestBody = Malformed(error: string) | JsonObject(url: Option<string>)

  /** The validator's message for a missing or empty required `url`. */
  const RequiredUrlError: string :=
    "Key: 'AnalyzeRequest.URL' Error:Field validation for 'URL' failed on the 'required' tag"

  /** `c.ShouldBindJSON(&req)` with `binding:"required"` on `url`. */
  function BindRequest(body: RequestBody): (r: Result<AnalyzeRequest, string>)
    ensures r.Success? <==> body.JsonObject? && body.url.Some? && body.url.value != ""
    ensures r.Success? ==> r.value.url == body.url.value
    ensures body.Malformed? ==> r == Failure(body.error)
  {
    match body
    case Malformed(e) => Failure(e)
    case JsonObject(None) => Failure(RequiredUrlError)
    case JsonObject(Some(u)) => if u == "" then Failure(RequiredUrlError) else Success(AnalyzeRequest(u))
  }

  /** What `c.JSON` writes: `{"error": ...}`, an API response with a row id,
      or a bare analysis result. */
  datatype Payload = ErrorPayload(error: string) | ApiPayload(response: AnalyzeAPIResponse) | ResultPayload(result: AnalyzeResponse)

  datatype HttpResponse = HttpResponse(status: int, payload: Payload)

  const StatusOK: int := 200
  const StatusBadRequest: int := 400
  const StatusInternalServerError: int := 500

  /** The effects a request performs, in order. */
  datatype Step = CacheLookup | PageAnalysis | CacheStore

  /** `AnalyzeHandler`. The page-analysis inputs are those of
      `Analyzer.AnalyzePage`; `now` is the clock at the lookup and `storedAt`
      at the store; `queryFails` and `storeFault` are the database's answers. */
  method AnalyzeHandler(cache: Db.UrlCache, body: RequestBody, now: int, queryFails: bool,
                        page: Analyzer.PageFetch, versionSrc: Analyzer.VersionFetch, baseHost: string,
                        probe: string -> Analyzer.HeadOutcome, storedAt: int, storeFault: Option<string>)
    returns (response: HttpResponse, steps: seq<Step>)
    requires cache.Valid()
    modifies cache
    ensures cache.Valid()
    // A malformed body: 400, nothing looked up, nothing analysed.
    ensures BindRequest(body).Failure? ==>
              && response == HttpResponse(StatusBadRequest, ErrorPayload(BindRequest(body).error))
              && steps == [] && cache.rows == old(cache.rows) && cache.nextId == old(cache.nextId)
    ensures BindRequest(body).Success? ==> |steps| >= 1 && steps[0] == CacheLookup
    ensures BindRequest(body).Success? ==>
              var url := BindRequest(body).value.url;
              var lookup := Db.LookupIn(old(cache.rows), cache.HashURL(url), now, queryFails, cache.decode);
              var analysis := Analyzer.AnalyzeSpec(page, versionSrc, baseHost, probe);
              && (lookup.LookupFailed? ==>
                    && response == HttpResponse(StatusInternalServerError, ErrorPayload("cache error: " + lookup.error))
                    && steps == [CacheLookup] && cache.rows == old(cache.rows) && cache.nextId == old(cache.nextId))
              // A hit: 200 with the cached result and row id; no analysis, no store.
              && (lookup.Hit? ==>
                    && response == HttpResponse(StatusOK, ApiPayload(WithId(lookup.id, lookup.result)))
                    && steps == [CacheLookup] && cache.rows == old(cache.rows) && cache.nextId == old(cache.nextId))
              // A miss whose analysis fails: 500, nothing stored.
              && (lookup.Miss? && analysis.Failure? ==>
                    && response == HttpResponse(StatusInternalServerError, ErrorPayload(analysis.error))
                    && steps == [CacheLookup, PageAnalysis] && cache.rows == old(cache.rows)
                    && cache.nextId == old(cache.nextId))
              // A miss whose store fails: 500, table as it was.
              && (lookup.Miss? && analysis.Success? && storeFault.Some? ==>
                    && response == HttpResponse(StatusInternalServerError, ErrorPayload(storeFault.value))
                    && steps == [CacheLookup, PageAnalysis, CacheStore] && cache.rows == old(cache.rows)
                    && cache.nextId == old(cache.nextId))
              // A miss that stores: 200 with the fresh result and the stored row's id.
              && (lookup.Miss? && analysis.Success? && storeFault.None? ==>
                    var up := Db.Upsert(old(cache.rows), old(cache.nextId), url, cache.HashURL(url),
                                        cache.encode(analysis.value), storedAt);
                    && response == HttpResponse(StatusOK, ApiPayload(WithId(up.id, analysis.value)))
                    && steps == [CacheLookup, PageAnalysis, CacheStore]
                    && cache.rows == up.rows && cache.nextId == up.nextId)
  {
    steps := [];
    var bound := BindRequest(body);
    if bound.Failure? {
      return HttpResponse(StatusBadRequest, ErrorPayload(bound.error)), steps;
    }
    var req := bound.value;

    var cached := cache.GetCachedResult(req.url, now, queryFails);
    steps := steps + [CacheLookup];
    if cached.LookupFailed? {
      return HttpResponse(StatusInternalServerError, ErrorPayload("cache error: " + cached.error)), steps;
    }
    if cached.Hit? {
      return HttpResponse(StatusOK, ApiPayload(WithId(cached.id, cached.result))), steps;
    }

    var resp := Analyzer.AnalyzePage(page, versionSrc, baseHost, probe);
    steps := steps + [PageAnalysis];
    if resp.Failure? {
      return HttpResponse(StatusInternalServerError, ErrorPayload(resp.error)), steps;
    }
    var id, err := cache.SetCachedResult(req.url, resp.value, storedAt, storeFault);
    steps := steps + [CacheStore];
    if err.Some? {
      return HttpResponse(StatusInternalServerError, ErrorPayload(err.value)), steps;
    }
    response := HttpResponse(StatusOK, ApiPayload(WithId(id, resp.value)));
  }

  /** Two identical requests, the second within the freshness window: the
      first misses, analyses and stores; the second is answered from the cache
      with the same response and performs no analysis and no store. */
  method SecondRequestHitsCache(cache: Db.UrlCache, url: string, now1: int, now2: int,
                                page: Analyzer.PageFetch, versionSrc: Analyzer.VersionFetch, baseHost: string,
                                probe: string -> Analyzer.HeadOutcome, storedAt: int)
    returns (first: HttpResponse, second: HttpResponse, secondSteps: seq<Step>)
    requires cache.Valid() && url != ""
    requires forall r :: cache.decode(cache.encode(r)) == Success(r)
    requires Db.LookupIn(cache.rows, cache.HashURL(url), now1, false, cache.decode).Miss?
    requires Analyzer.AnalyzeSpec(page, versionSrc, baseHost, probe).Success?
    requires now2 - storedAt <= Db.FreshnessWindow
    modifies cache
    ensures first.status == StatusOK && second == first && secondSteps == [CacheLookup]
  {
    var body := JsonObject(Some(url));
    var steps1;
    first, steps1 := AnalyzeHandler(cache, body, now1, false, page, versionSrc, baseHost, probe, storedAt, None);
    ghost var result := Analyzer.AnalyzeSpec(page, versionSrc, baseHost, probe).value;
    assert cache.decode(cache.encode(result)) == Success(result);
    second, secondSteps := AnalyzeHandler(cache, body, now2, false, page, versionSrc, baseHost, probe, storedAt, None);
  }
}
