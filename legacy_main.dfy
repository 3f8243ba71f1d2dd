/** The earlier single-file server: its `analyzeHandler` answers POST /analyze
    without any cache. Its `analyzePage`, `getHTMLVersion` and `getLinkStatus`
    are line for line those of the helpers package and are modelled by the
    members of `Analyzer`. */
module LegacyMain {
  import Analyzer
  import Handlers

  /** `analyzeHandler`: 400 on a bad body, 500 with the analysis error, else
      200 with the result itself (no row id). The page is analysed exactly
      when the body binds. */
  method AnalyzeHandler(body: Handlers.RequestBody, page: Analyzer.PageFetch, versionSrc: Analyzer.VersionFetch,
                        baseHost: string, probe: string -> Analyzer.HeadOutcome)
    returns (response: Handlers.HttpResponse, steps: seq<Handlers.Step>)
    ensures Handlers.BindRequest(body).Failure? ==>
              response == Handlers.HttpResponse(Handlers.StatusBadRequest,
                                                Handlers.ErrorPayload(Handlers.BindRequest(body).error))
              && steps == []
    ensures Handlers.BindRequest(body).Success? ==>
              var analysis := Analyzer.AnalyzeSpec(page, versionSrc, baseHost, probe);
              && steps == [Handlers.PageAnalysis]
              && (analysis.Failure? ==>
                    response == Handlers.HttpResponse(Handlers.StatusInternalServerError,
                                                      Handlers.ErrorPayload(analysis.error)))
              && (analysis.Success? ==>
                    response == Handlers.HttpResponse(Handlers.StatusOK, Handlers.ResultPayload(analysis.value)))
  {
    steps := [];
    var bound := Handlers.BindRequest(body);
    if bound.Failure? {
      return Handlers.HttpResponse(Handlers.StatusBadRequest, Handlers.ErrorPayload(bound.error)), steps;
    }
    var resp := Analyzer.AnalyzePage(page, versionSrc, baseHost, probe);
    steps := steps + [Handlers.PageAnalysis];
    if resp.Failure? {
      return Handlers.HttpResponse(Handlers.StatusInternalServerError, Handlers.ErrorPayload(resp.error)), steps;
    }
    response := Handlers.HttpResponse(Handlers.StatusOK, Handlers.ResultPayload(resp.value));
  }
}
