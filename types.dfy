/** Shared records of the web-page analyser: the analysis result returned to
    clients, the API response that adds the cache row id, and the persisted
    cache row (`Analysis`). */
module Types {

  datatype Option<+T> = None | Some(value: T)

  datatype Result<+T, +E> = Success(value: T) | Failure(error: E)

  /** A byte of a digest. */
  newtype Byte = x: int | 0 <= x < 256

  /** A SHA-256 digest of a URL: always 32 bytes. */
  type Digest = d: seq<Byte> | |d| == 32 witness seq(32, _ => 0)

  /** The body of POST /analyze: `url` is required (non-empty). */
  datatype AnalyzeRequest = AnalyzeRequest(url: string)

  /** The metrics extracted from one page. `headings` maps "h1".."h6" to the
      number of elements with that tag. Counts are Go `int`s. */
  datatype AnalyzeResponse = AnalyzeResponse(
    htmlVersion: string,
    title: string,
    headings: map<string, int>,
    internalLinks: int,
    externalLinks: int,
    inaccessibleLinks: int,
    hasLoginForm: bool)

  /** What the cached handler returns: the metrics plus the id of the cache row. */
  datatype AnalyzeAPIResponse = AnalyzeAPIResponse(
    id: nat,
    htmlVersion: string,
    title: string,
    headings: map<string, int>,
    internalLinks: int,
    externalLinks: int,
    inaccessibleLinks: int,
    hasLoginForm: bool)

  /** Copies every metric of `r` into an API response carrying row id `id`. */
  function WithId(id: nat, r: AnalyzeResponse): AnalyzeAPIResponse
  {
    AnalyzeAPIResponse(id, r.htmlVersion, r.title, r.headings, r.internalLinks,
                       r.externalLinks, r.inaccessibleLinks, r.hasLoginForm)
  }

  /** One cache row. `result` is the serialized AnalyzeResponse;
      `analyzedAt` is a timestamp in nanoseconds. */
  datatype Analysis = Analysis(
    id: nat,
    url: string,
    urlHash: Digest,
    result: string,
    analyzedAt: int)
}
