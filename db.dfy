/** The URL-digest result cache: one row per SHA-256 digest of a URL, read with
    a 24-hour soft expiry and written with an upsert on the digest.

    The SQL table is the map `rows` from digest to row. The digest, the JSON
    encoder and the JSON decoder are opaque functions fixed when the cache is
    created. Database faults and the clock are parameters of each call. */
module Db {
  import opened Types

  /** 24 hours, in nanoseconds (Go's `time.Duration` unit). */
  const FreshnessWindow: int := 24 * 60 * 60 * 1_000_000_000

  /** A row is fresh at `now` unless it is older than the window; an age of
      exactly 24 hours is still fresh. */
  predicate IsFresh(e: Analysis, now: int)
  {
    now - e.analyzedAt <= FreshnessWindow
  }

  /** The table invariant: each row sits under its own digest, and row ids are
      distinct and below the next id to hand out. */
  ghost predicate WellFormed(rows: map<Digest, Analysis>, nextId: nat)
  {
    && (forall d :: d in rows ==> rows[d].urlHash == d && rows[d].id < nextId)
    && (forall d1, d2 :: d1 in rows && d2 in rows && d1 != d2 ==> rows[d1].id != rows[d2].id)
  }

  /** Outcome of a lookup: a miss (not an error), a hit with the decoded result
      and the row id, or a decoding error. */
  datatype Lookup = Miss | Hit(result: AnalyzeResponse, id: nat) | LookupFailed(error: string)

  /** `GetCachedResult` on a table: a failed query, a missing row or an expired
      row is a miss; a fresh row whose stored result does not decode is an error. */
  function LookupIn(rows: map<Digest, Analysis>, d: Digest, now: int, queryFails: bool,
                    decode: string -> Result<AnalyzeResponse, string>): (r: Lookup)
    ensures r.Miss? <==> queryFails || d !in rows || now - rows[d].analyzedAt > FreshnessWindow
    ensures r.LookupFailed? <==> !queryFails && d in rows && IsFresh(rows[d], now) && decode(rows[d].result).Failure?
    ensures r.LookupFailed? ==> r.error == decode(rows[d].result).error
    ensures r.Hit? ==> d in rows && decode(rows[d].result) == Success(r.result) && r.id == rows[d].id
  {
    if queryFails || d !in rows then Miss
    else if !IsFresh(rows[d], now) then Miss
    else match decode(rows[d].result)
      case Failure(e) => LookupFailed(e)
      case Success(res) => Hit(res, rows[d].id)
  }

  datatype Upserted = Upserted(rows: map<Digest, Analysis>, nextId: nat, id: nat)

  /** The upsert `INSERT ... ON CONFLICT (url_hash) DO UPDATE SET result,
      analyzed_at, url`: a new digest gets a new row with the next id; an
      existing row keeps its id and has its three columns overwritten. */
  function Upsert(rows: map<Digest, Analysis>, nextId: nat, url: string, d: Digest,
                  encoded: string, now: int): (u: Upserted)
    ensures u.rows.Keys == rows.Keys + {d}
    ensures forall d' :: d' in rows && d' != d ==> u.rows[d'] == rows[d']
    ensures u.rows[d] == Analysis(u.id, url, if d in rows then rows[d].urlHash else d, encoded, now)
    ensures d in rows ==> u.id == rows[d].id && u.nextId == nextId
    ensures d !in rows ==> u.id == nextId && u.nextId == nextId + 1
  {
    if d in rows then
      var e := rows[d].(result := encoded, analyzedAt := now, url := url);
      Upserted(rows[d := e], nextId, e.id)
    else
      Upserted(rows[d := Analysis(nextId, url, d, encoded, now)], nextId + 1, nextId)
  }

  /** The upsert keeps the table invariant, so there stays at most one row per
      digest, filed under that digest. */
  lemma UpsertWellFormed(rows: map<Digest, Analysis>, nextId: nat, url: string, d: Digest,
                         encoded: string, now: int)
    requires WellFormed(rows, nextId)
    ensures var u := Upsert(rows, nextId, url, d, encoded, now);
            WellFormed(u.rows, u.nextId) && u.rows[d].urlHash == d
  {
  }

  /** Store, then look up the same digest within the window: the stored result
      comes back with the id the store returned. */
  lemma StoreThenLookup(rows: map<Digest, Analysis>, nextId: nat, url: string, d: Digest, r: AnalyzeResponse,
                        encode: AnalyzeResponse -> string, decode: string -> Result<AnalyzeResponse, string>,
                        storedAt: int, now: int)
    requires decode(encode(r)) == Success(r)
    requires now - storedAt <= FreshnessWindow
    ensures var u := Upsert(rows, nextId, url, d, encode(r), storedAt);
            LookupIn(u.rows, d, now, false, decode) == Hit(r, u.id)
  {
  }

  /** An entry older than the window reads as a miss. The row itself stays:
      `GetCachedResult`, which answers from `LookupIn`, changes nothing. */
  lemma ExpiredIsMissButKept(rows: map<Digest, Analysis>, d: Digest, now: int,
                             decode: string -> Result<AnalyzeResponse, string>)
    requires d in rows && now - rows[d].analyzedAt > FreshnessWindow
    ensures LookupIn(rows, d, now, false, decode) == Miss
  {
  }

  /** Two stores for one digest leave one row with the latest values and the
      id of the first store. */
  lemma SecondStoreWins(rows: map<Digest, Analysis>, nextId: nat, d: Digest,
                        url1: string, enc1: string, t1: int, url2: string, enc2: string, t2: int)
    ensures var u1 := Upsert(rows, nextId, url1, d, enc1, t1);
            var u2 := Upsert(u1.rows, u1.nextId, url2, d, enc2, t2);
            && u2.rows.Keys == rows.Keys + {d}
            && u2.id == u1.id
            && u2.rows[d].result == enc2 && u2.rows[d].url == url2 && u2.rows[d].analyzedAt == t2
  {
  }

  /** A store leaves every other digest's lookup as it was. */
  lemma UpsertKeepsOtherLookups(rows: map<Digest, Analysis>, nextId: nat, url: string, d: Digest, encoded: string,
                                storedAt: int, d': Digest, now: int, queryFails: bool,
                                decode: string -> Result<AnalyzeResponse, string>)
    requires d' != d
    ensures LookupIn(Upsert(rows, nextId, url, d, encoded, storedAt).rows, d', now, queryFails, decode)
            == LookupIn(rows, d', now, queryFails, decode)
  {
  }

  /** The cache over the `analyses` table. */
  class UrlCache {
    /** SHA-256, as an opaque function. */
    const sha256: string -> Digest
    /** `json.Marshal` and `json.Unmarshal` of an AnalyzeResponse. */
    const encode: AnalyzeResponse -> string
    const decode: string -> Result<AnalyzeResponse, string>

    var rows: map<Digest, Analysis>
    var nextId: nat

    ghost predicate Valid()
      reads this
    {
      WellFormed(rows, nextId)
    }

    /** A cache over an existing table (whatever earlier runs stored). */
    constructor (sha256: string -> Digest, encode: AnalyzeResponse -> string,
                 decode: string -> Result<AnalyzeResponse, string>,
                 rows: map<Digest, Analysis>, nextId: nat)
      requires WellFormed(rows, nextId)
      ensures Valid()
      ensures this.sha256 == sha256 && this.encode == encode && this.decode == decode
      ensures this.rows == rows && this.nextId == nextId
    {
      this.sha256, this.encode, this.decode := sha256, encode, decode;
      this.rows, this.nextId := rows, nextId;
    }

    /** `HashURL`: the SHA-256 digest of the URL string. The 32-byte length
        comes from the `Digest` type; the ensures only spells it out. Because
        `HashURL` is a function of `url` alone, equal URLs always get the same
        digest. */
    function HashURL(url: string): (d: Digest)
      ensures |d| == 32
    {
      sha256(url)
    }

    /** `GetCachedResult`: reads the row for the URL's digest and never deletes
        it. `queryFails` is whether the SELECT reports an error. */
    method GetCachedResult(url: string, now: int, queryFails: bool) returns (r: Lookup)
      requires Valid()
      ensures r == LookupIn(rows, HashURL(url), now, queryFails, decode)
    {
      var urlHash := HashURL(url);
      if queryFails || urlHash !in rows {
        return Miss;
      }
      var cache := rows[urlHash];
      if now - cache.analyzedAt > FreshnessWindow {
        return Miss;
      }
      match decode(cache.result)
      case Failure(e) =>
        return LookupFailed(e);
      case Success(resp) =>
        return Hit(resp, cache.id);
    }

    /** `SetCachedResult`: upserts the encoded result under the URL's digest and
        returns the row id. `fault` is the error the INSERT reports, if any; a
        failed statement leaves the table as it was. */
    method SetCachedResult(url: string, result: AnalyzeResponse, now: int, fault: Option<string>)
      returns (id: nat, err: Option<string>)
      requires Valid()
      modifies this
      ensures Valid()
      ensures fault.Some? ==> err == fault && rows == old(rows) && nextId == old(nextId)
      ensures fault.None? ==>
                var u := Upsert(old(rows), old(nextId), url, HashURL(url), encode(result), now);
                err.None? && rows == u.rows && nextId == u.nextId && id == u.id
    {
      if fault.Some? {
        return 0, fault;
      }
      var resultBytes := encode(result);
      var urlHash := HashURL(url);
      UpsertWellFormed(rows, nextId, url, urlHash, resultBytes, now);
      if urlHash in rows {
        id := rows[urlHash].id;
        rows := rows[urlHash := rows[urlHash].(result := resultBytes, analyzedAt := now, url := url)];
      } else {
        id := nextId;
        rows := rows[urlHash := Analysis(id, url, urlHash, resultBytes, now)];
        nextId := nextId + 1;
      }
      err := None;
    }
  }
}
