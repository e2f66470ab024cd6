/** src/controllers/UrlController.js: how each service answer becomes an
    HTTP response. Errors go to the error handler, as `next(error)` does.
    The click counter bump that `redirectToOriginal` starts without awaiting
    is returned as a deferred task rather than run. */
module UrlController {
  import opened Wrappers
  import opened Errors
  import opened Schema
  import Cache
  import UrlModel
  import opened UrlService
  import ErrorHandler
  import Consistency

  const NotFoundOrExpired: string := "The requested short URL does not exist or has expired"
  const NotFoundMessage: string := "The requested short URL does not exist"

  /** Reading `original_url` off the null that `getUrlStats` can return. */
  const NullStats: Error :=
    Error("TypeError", "Cannot read properties of null (reading 'original_url')", None, None,
          Some("TypeError: Cannot read properties of null (reading 'original_url')"))

  datatype Body =
    | CreatedBody(data: Created)
    | NotFound(message: string)
    | StatsBody(stats: Stats)
    | DeletedBody
    | BulkBody(total: nat, successful: nat, failed: nat, results: seq<BulkItem>)
    | InfoBody(shortCode: string, shortUrl: string, originalUrl: string, clickCount: nat,
               createdAt: Timestamp, expirationDate: Option<Timestamp>)
    | ErrorBody(message: string, stack: Option<string>)

  datatype Response = Json(status: int, body: Body) | Redirect(status: int, location: string)

  /** Work a handler starts and does not wait for. */
  datatype Deferred = IncrementClicks(code: string)

  datatype Handled = Handled(state: State, response: Response, deferred: seq<Deferred>)

  /** The error handler's reply as a response. */
  function ErrorResponse(err: Error, env: string): (r: Response)
    ensures r.Json? && r.body.ErrorBody?
    ensures var h := ErrorHandler.HandleError(err, env);
      r.status == h.status && r.body.message == h.message && r.body.stack == h.stack
  {
    var h := ErrorHandler.HandleError(err, env);
    Json(h.status, ErrorBody(h.message, h.stack))
  }

  /** `POST /api/urls`: 201 with the created record, or the error's reply. */
  function CreateShortUrl(st: State, cfg: Config, req: CreateRequest, validate: CreateRequest -> Result<CreateRequest, Error>,
                          gen: nat -> string, setFails: bool, now: Timestamp): (h: Handled)
    ensures var out := UrlService.CreateShortUrl(st, cfg, req, validate, gen, setFails, now);
      && h.state == out.state && h.deferred == []
      && (out.result.Success? ==> h.response == Json(201, CreatedBody(out.result.value)))
      && (out.result.Failure? ==> h.response == ErrorResponse(out.result.error, cfg.env))
  {
    var out := UrlService.CreateShortUrl(st, cfg, req, validate, gen, setFails, now);
    match out.result
    case Success(created) => Handled(out.state, Json(201, CreatedBody(created)), [])
    case Failure(e) => Handled(out.state, ErrorResponse(e, cfg.env), [])
  }

  /** `GET /:shortCode`: a 301 to the URL and a deferred click count when
      it resolves to a non-empty URL, otherwise 404. The handler as written
      resolves with the strict expiry test (`atDeadline` false); the
      corrected program passes true. */
  function RedirectToOriginal(st: State, cfg: Config, code: string, now: Timestamp,
                              getFails: bool, fillFails: bool, evictFails: bool, atDeadline: bool): (h: Handled)
    ensures var out := Resolve(st, cfg, code, now, getFails, fillFails, evictFails, atDeadline);
      && h.state == out.state
      && (h.response.Redirect? <==> out.result.Success? && out.result.value.Some? && out.result.value.value != [])
      && (h.response.Redirect? ==> h.response == Redirect(301, out.result.value.value))
      && (h.deferred == [IncrementClicks(code)] <==> h.response.Redirect?)
      && (!h.response.Redirect? ==> h.deferred == [])
      && (out.result.Success? && !h.response.Redirect? ==> h.response == Json(404, NotFound(NotFoundOrExpired)))
      && (out.result.Failure? ==> h.response == ErrorResponse(out.result.error, cfg.env))
  {
    var out := Resolve(st, cfg, code, now, getFails, fillFails, evictFails, atDeadline);
    match out.result
    case Failure(e) => Handled(out.state, ErrorResponse(e, cfg.env), [])
    case Success(url) =>
      if url.None? || url.value == [] then Handled(out.state, Json(404, NotFound(NotFoundOrExpired)), [])
      else Handled(out.state, Redirect(301, url.value), [IncrementClicks(code)])
  }

  /** A cached entry whose expiry is exactly `now`: the handler as written
      redirects to it and counts a click, the corrected one answers 404. */
  lemma RedirectAtDeadline(st: State, cfg: Config, code: string, now: Timestamp, fillFails: bool, evictFails: bool, url: string)
    requires Cache.Lookup(st.cache, Cache.UrlKey(code), now) == Some(Cache.UrlValue(Cache.UrlData(url, Some(now))))
    requires url != []
    ensures RedirectToOriginal(st, cfg, code, now, false, fillFails, evictFails, false) ==
      Handled(st, Redirect(301, url), [IncrementClicks(code)])
    ensures RedirectToOriginal(st, cfg, code, now, false, fillFails, evictFails, true).response ==
      Json(404, NotFound(NotFoundOrExpired))
  {
  }

  /** How many of `tasks` count clicks for `code`. */
  function ClicksFor(tasks: seq<Deferred>, code: string): nat {
    if tasks == [] then 0 else (if tasks[0].code == code then 1 else 0) + ClicksFor(tasks[1..], code)
  }

  /** Runs the deferred tasks, in order, once the response has gone out.
      Each raises its code's click count and drops its `stats:` entry. */
  function RunDeferred(st: State, tasks: seq<Deferred>, now: Timestamp, deleteFails: bool): (st': State)
    ensures st'.db.analytics == st.db.analytics && st'.db.online == st.db.online
    ensures tasks == [] ==> st' == st
    ensures |st'.db.urls| == |st.db.urls|
    ensures forall i :: 0 <= i < |st.db.urls| ==>
      var row := st.db.urls[i];
      var n := ClicksFor(tasks, row.code);
      st'.db.urls[i] == if st.db.online && n > 0 then row.(clickCount := row.clickCount + n, updatedAt := now) else row
    // The cache only loses entries, and only the tasks' `stats:` entries.
    ensures forall k :: k in st'.cache.entries ==> k in st.cache.entries && st'.cache.entries[k] == st.cache.entries[k]
    ensures forall k :: k in st.cache.entries && k !in st'.cache.entries ==>
      exists j :: 0 <= j < |tasks| && k == Cache.StatsKey(tasks[j].code)
    ensures st.db.online && !deleteFails ==>
      forall j :: 0 <= j < |tasks| ==> Cache.StatsKey(tasks[j].code) !in st'.cache.entries
    decreases |tasks|
  {
    if tasks == [] then st
    else
      var next := IncrementClickCount(st, tasks[0].code, now, deleteFails);
      var st' := RunDeferred(next, tasks[1..], now, deleteFails);
      assert forall j :: 1 <= j < |tasks| ==> tasks[1..][j - 1] == tasks[j];
      st'
  }

  /** With the corrected expiry test and under the cache invariant, a
      redirect happens exactly when the store holds a live record with a
      non-empty URL, and goes to that URL. */
  lemma RedirectMatchesStore(st: State, cfg: Config, code: string, now: Timestamp,
                             getFails: bool, fillFails: bool, evictFails: bool, url: string)
    requires Consistency.Inv(st) && st.db.online
    ensures RedirectToOriginal(st, cfg, code, now, getFails, fillFails, evictFails, true).response == Redirect(301, url) <==>
      url != [] && LiveUrl(st.db, code, now) == Success(Some(url))
  {
    Consistency.CacheTransparent(st, cfg, code, now, getFails, fillFails, evictFails);
  }

  /** A redirect followed by its deferred click count keeps the cache
      invariant, whatever the cache calls do. */
  lemma RedirectKeepsInv(st: State, cfg: Config, code: string, now: Timestamp,
                         getFails: bool, fillFails: bool, evictFails: bool, atDeadline: bool, deleteFails: bool)
    requires Consistency.Inv(st)
    ensures var h := RedirectToOriginal(st, cfg, code, now, getFails, fillFails, evictFails, atDeadline);
      Consistency.Inv(RunDeferred(h.state, h.deferred, now, deleteFails))
  {
    var h := RedirectToOriginal(st, cfg, code, now, getFails, fillFails, evictFails, atDeadline);
    Consistency.ResolvePreservesInv(st, cfg, code, now, getFails, fillFails, evictFails, atDeadline);
    if h.deferred != [] {
      Consistency.IncrementPreservesInv(h.state, code, now, deleteFails);
      assert h.deferred[1..] == [];
    }
  }

  /** `GET /api/urls/:shortCode/stats`: 200 with the stats, or 404. */
  function GetUrlStats(st: State, cfg: Config, code: string, now: Timestamp, getFails: bool, setFails: bool): (h: Handled)
    ensures var out := UrlService.GetUrlStats(st, code, now, getFails, setFails);
      && h.state == out.state && h.deferred == []
      && (out.result == Success(None) <==> h.response == Json(404, NotFound(NotFoundMessage)))
      && (out.result.Success? && out.result.value.Some? ==> h.response == Json(200, StatsBody(out.result.value.value)))
      && (out.result.Failure? ==> h.response == ErrorResponse(out.result.error, cfg.env))
  {
    var out := UrlService.GetUrlStats(st, code, now, getFails, setFails);
    match out.result
    case Failure(e) => Handled(out.state, ErrorResponse(e, cfg.env), [])
    case Success(stats) =>
      if stats.None? then Handled(out.state, Json(404, NotFound(NotFoundMessage)), [])
      else Handled(out.state, Json(200, StatsBody(stats.value)), [])
  }

  /** `DELETE /api/urls/:shortCode`: no owner filter is passed, so every
      record with the code is deleted; 200, or 404 when none matched. */
  function DeleteUrl(st: State, cfg: Config, code: string, now: Timestamp, urlDeleteFails: bool, statsDeleteFails: bool): (h: Handled)
    ensures var out := UrlService.DeleteUrl(st, code, None, now, urlDeleteFails, statsDeleteFails);
      && h.state == out.state && h.deferred == []
      && (h.response == Json(200, DeletedBody) <==> out.result == Success(true))
      && (h.response == Json(200, DeletedBody) <==> st.db.online && CodeTaken(st.db.urls, code))
      && (out.result == Success(false) <==> h.response == Json(404, NotFound(NotFoundMessage)))
      && (out.result.Failure? ==> h.response == ErrorResponse(out.result.error, cfg.env))
  {
    var out := UrlService.DeleteUrl(st, code, None, now, urlDeleteFails, statsDeleteFails);
    match out.result
    case Failure(e) => Handled(out.state, ErrorResponse(e, cfg.env), [])
    case Success(found) =>
      if found then Handled(out.state, Json(200, DeletedBody), [])
      else Handled(out.state, Json(404, NotFound(NotFoundMessage)), [])
  }

  /** Number of successes among bulk results. */
  function Successes(results: seq<BulkItem>): (n: nat)
    ensures n <= |results|
    ensures n == |results| <==> forall i :: 0 <= i < |results| ==> results[i].Done?
    ensures n == 0 <==> forall i :: 0 <= i < |results| ==> results[i].Failed?
  {
    if results == [] then 0
    else
      var rest := Successes(results[1..]);
      assert forall i :: 1 <= i < |results| ==> results[i] == results[1..][i - 1];
      (if results[0].Done? then 1 else 0) + rest
  }

  /** `POST /api/urls/bulk`: always 201, with the tally and every result. */
  function BulkCreate(st: State, cfg: Config, items: seq<CreateRequest>,
                      validate: CreateRequest -> Result<CreateRequest, Error>,
                      gens: nat -> nat -> string, setFails: nat -> bool, clock: nat -> Timestamp): (h: Handled)
    ensures var out := BulkCreateUrls(st, cfg, items, validate, gens, setFails, clock);
      && h.state == out.0 && h.deferred == []
      && h.response.Json? && h.response.status == 201 && h.response.body.BulkBody?
      && h.response.body.results == out.1
      && h.response.body.total == |items|
      && h.response.body.successful + h.response.body.failed == |items|
      && (h.response.body.failed == 0 <==> forall i :: 0 <= i < |items| ==> out.1[i].Done?)
  {
    var out := BulkCreateUrls(st, cfg, items, validate, gens, setFails, clock);
    var successful := Successes(out.1);
    Handled(out.0, Json(201, BulkBody(|out.1|, successful, |out.1| - successful, out.1)), [])
  }

  /** `GET /api/urls/:shortCode/info`: resolve, then read the stats and
      answer from them. Stats that come back null make the handler throw.
      `atDeadline` picks the expiry test as for `RedirectToOriginal`. */
  function GetUrlInfo(st: State, cfg: Config, code: string, now: Timestamp,
                      getFails: bool, fillFails: bool, evictFails: bool,
                      statsGetFails: bool, statsSetFails: bool, atDeadline: bool): (h: Handled)
    ensures h.deferred == []
    ensures var out := Resolve(st, cfg, code, now, getFails, fillFails, evictFails, atDeadline);
      && (out.result.Failure? ==> h == Handled(out.state, ErrorResponse(out.result.error, cfg.env), []))
      && (out.result.Success? && (out.result.value.None? || out.result.value.value == []) ==>
            h == Handled(out.state, Json(404, NotFound(NotFoundOrExpired)), []))
    ensures h.response.Json? && h.response.status == 200 ==>
      var out := Resolve(st, cfg, code, now, getFails, fillFails, evictFails, atDeadline);
      var stats := UrlService.GetUrlStats(out.state, code, now, statsGetFails, statsSetFails);
      && out.result.Success? && out.result.value.Some? && out.result.value.value != []
      && stats.result.Success? && stats.result.value.Some?
      && h.response.body == InfoBody(code, cfg.baseUrl + "/" + code, stats.result.value.value.originalUrl,
                                     stats.result.value.value.clickCount, stats.result.value.value.createdAt,
                                     stats.result.value.value.expirationDate)
    ensures var out := Resolve(st, cfg, code, now, getFails, fillFails, evictFails, atDeadline);
      var stats := UrlService.GetUrlStats(out.state, code, now, statsGetFails, statsSetFails);
      out.result.Success? && out.result.value.Some? && out.result.value.value != [] ==>
        && (stats.result.Success? && stats.result.value.Some? ==>
              var s := stats.result.value.value;
              h == Handled(stats.state, Json(200, InfoBody(code, cfg.baseUrl + "/" + code, s.originalUrl, s.clickCount,
                                                           s.createdAt, s.expirationDate)), []))
        && (stats.result.Failure? ==> h == Handled(stats.state, ErrorResponse(stats.result.error, cfg.env), []))
        && (stats.result == Success(None) ==> h == Handled(stats.state, ErrorResponse(NullStats, cfg.env), []))
  {
    var out := Resolve(st, cfg, code, now, getFails, fillFails, evictFails, atDeadline);
    match out.result
    case Failure(e) => Handled(out.state, ErrorResponse(e, cfg.env), [])
    case Success(url) =>
      if url.None? || url.value == [] then Handled(out.state, Json(404, NotFound(NotFoundOrExpired)), [])
      else
        var stats := UrlService.GetUrlStats(out.state, code, now, statsGetFails, statsSetFails);
        match stats.result
        case Failure(e) => Handled(stats.state, ErrorResponse(e, cfg.env), [])
        case Success(found) =>
          if found.None? then Handled(stats.state, ErrorResponse(NullStats, cfg.env), [])
          else
            var s := found.value;
            Handled(stats.state, Json(200, InfoBody(code, cfg.baseUrl + "/" + code, s.originalUrl, s.clickCount,
                                                    s.createdAt, s.expirationDate)), [])
  }

  /** Under the cache invariant with the store up, info on a code that
      resolves is always a 200: the stats read cannot come back null. */
  lemma InfoAnswersWhenResolved(st: State, cfg: Config, code: string, now: Timestamp,
                                getFails: bool, fillFails: bool, evictFails: bool,
                                statsGetFails: bool, statsSetFails: bool, atDeadline: bool)
    requires Consistency.Inv(st) && st.db.online
    requires var r := LiveUrl(st.db, code, now); r.Success? && r.value.Some? && r.value.value != []
    ensures GetUrlInfo(st, cfg, code, now, getFails, fillFails, evictFails, statsGetFails, statsSetFails, atDeadline).response.status == 200
  {
    Consistency.CacheTransparent(st, cfg, code, now, getFails, fillFails, evictFails);
    Consistency.LiveTestsAgree(st, cfg, code, now, getFails, fillFails, evictFails);
    var row := UrlModel.FindByShortCode(st.db, code, now).value.value;
    var i :| 0 <= i < |st.db.urls| && st.db.urls[i] == row;
    assert st.db.urls[i].code == code && st.db.urls[i].deletedAt.None?;
  }

  /** When `deleteUrl`'s `url:` delete fails but its `stats:` delete goes
      through, info on the code still resolves from the stale entry, finds
      no stats, and answers 500. */
  lemma InfoAfterFailedDelete(st: State, cfg: Config, code: string, now: Timestamp, d: Cache.UrlData,
                              fillFails: bool, evictFails: bool, statsGetFails: bool, statsSetFails: bool, atDeadline: bool)
    requires Cache.Get(st.cache, Cache.UrlKey(code), now, false) == Some(Cache.UrlValue(d))
    requires !Expired(d.expirationDate, now, true) && d.originalUrl != []
    requires UrlService.DeleteUrl(st, code, None, now, true, false).result == Success(true)
    ensures var st' := UrlService.DeleteUrl(st, code, None, now, true, false).state;
      GetUrlInfo(st', cfg, code, now, false, fillFails, evictFails, statsGetFails, statsSetFails, atDeadline).response ==
        ErrorResponse(NullStats, cfg.env)
    ensures ErrorResponse(NullStats, cfg.env).status == 500
  {
    var st' := UrlService.DeleteUrl(st, code, None, now, true, false).state;
    Consistency.StaleAfterFailedDelete(st, cfg, code, None, now, false, fillFails, evictFails, d);
    Cache.KeyNamespaces(code, code, "", "");
    forall j | 0 <= j < |st'.db.urls| && st'.db.urls[j].code == code ensures st'.db.urls[j].deletedAt.Some? {
      assert UrlModel.DeleteMatches(st.db.urls[j], code, None);
    }
    assert "TypeError" != "ValidationError" && "TypeError" != "CastError";
  }
}
