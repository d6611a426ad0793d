/** The conditional GET shared by `syncCards` and `syncTaboos`
    (src/lib/publicApi.ts): when to send `If-Modified-Since`, and when a 304
    answer ends the sync with the caller's cache token. This is the pattern of
    sections 13.1.3 and 15.4.5 of RFC 9110. The HTTP exchange itself is not
    modelled; the live row count and the response are parameters. */
module ConditionalFetch {
  import opened Wrappers

  /** `CardCache` / `TabooCache`: a row count paired with the feed's
      `Last-Modified` value, owned by the caller. */
  datatype CacheToken = CacheToken(count: int, lastModified: Option<string>)

  /** What `fetch` produced: a network failure, or a status, the
      `Last-Modified` header and the body when it parsed as JSON. */
  datatype Response<B> = NetworkError | Response(status: int, lastModified: Option<string>, body: Option<B>)

  /** The `If-Modified-Since` value attached to the request, if any, given the
      caller's token and the live count of the rows that token counts. */
  function IfModifiedSince(cache: Option<CacheToken>, liveCount: int): (header: Option<string>)
    ensures header.Some? <==>
              && cache.Some?
              && Present(cache.value.lastModified)
              && cache.value.count > 0
              && liveCount == cache.value.count
    ensures header.Some? ==> header == cache.value.lastModified && header.value != ""
  {
    if cache.Some? && Present(cache.value.lastModified) && cache.value.count > 0 then
      if liveCount == cache.value.count then cache.value.lastModified else None
    else None
  }

  /** A token that no longer matches the live table never yields a
      conditional request, so a partial earlier sync forces a full fetch. */
  lemma MismatchForcesFullFetch(cache: CacheToken, liveCount: int)
    requires liveCount != cache.count
    ensures IfModifiedSince(Some(cache), liveCount) == None
  {
  }

  /** The header replays the token's `Last-Modified` verbatim. */
  lemma HeaderReplaysToken(count: int, stamp: string)
    requires count > 0 && stamp != ""
    ensures IfModifiedSince(Some(CacheToken(count, Some(stamp))), count) == Some(stamp)
  {
  }

  /** The short-circuit test `response.status === 304 && cache`. */
  predicate NotModified(status: int, cache: Option<CacheToken>)
  {
    status == 304 && cache.Some?
  }

  /** `response.headers.get('Last-Modified') || undefined`. */
  function StampOf(header: Option<string>): (stamp: Option<string>)
    ensures stamp.Some? <==> Present(header)
    ensures stamp.Some? ==> stamp == header
  {
    if Present(header) then header else None
  }

  /** How a sync call ends: with the caller's token after a 304, with a full
      replace carrying the response's `Last-Modified`, or in failure (a
      network error, a body that is not JSON, or a step of the replace that
      throws). */
  datatype SyncOutcome<P> = KeepCache(cache: CacheToken) | Replace(plan: P, lastModified: Option<string>) | Failed

  /** The shape both sync entry points share once the response is in:
      `replace` builds the full-replace plan from the parsed body, or fails. */
  function Conclude<B, P>(cache: Option<CacheToken>, response: Response<B>, replace: B -> Option<P>): (out: SyncOutcome<P>)
    ensures response.NetworkError? ==> out.Failed?
    ensures response.Response? && NotModified(response.status, cache) ==> out == KeepCache(cache.value)
    ensures out.KeepCache? ==> response.Response? && response.status == 304 && cache == Some(out.cache)
    ensures response.Response? && !NotModified(response.status, cache) ==>
              (out.Replace? <==> response.body.Some? && replace(response.body.value).Some?)
    ensures out.Replace? ==>
              && response.Response? && response.body.Some?
              && replace(response.body.value) == Some(out.plan)
              && out.lastModified == StampOf(response.lastModified)
  {
    match response
    case NetworkError => Failed
    case Response(status, stamp, body) =>
      if NotModified(status, cache) then KeepCache(cache.value)
      else if body.None? then Failed
      else
        match replace(body.value)
        case None => Failed
        case Some(plan) => Replace(plan, StampOf(stamp))
  }

  /** A 304 without a token does not short-circuit: with a readable body and
      a replace that succeeds, the full replace runs. */
  lemma NotModifiedWithoutCacheReplaces<B, P>(response: Response<B>, replace: B -> Option<P>)
    requires response.Response? && response.status == 304 && response.body.Some?
    requires replace(response.body.value).Some?
    ensures Conclude(None, response, replace).Replace?
  {
  }
}
