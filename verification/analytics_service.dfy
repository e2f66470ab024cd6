/** src/services/analyticsService.js: turning a request into an analytics
    row, and the summary and paged views over the events. Address lookup
    and user-agent parsing are the function parameters `geoLookup` and
    `parseAgent`. */
module AnalyticsService {
  import opened Wrappers
  import opened Errors
  import opened Schema
  import Sorting
  import UrlModel
  import AnalyticsModel

  const Unknown: string := "Unknown"
  const UnknownAddress: string := "unknown"
  /** `getClickStats` is called without `days`, so its default applies. */
  const SummaryDays: int := 30

  /** The parts of an Express request the service reads. */
  datatype Request = Request(
    ip: Option<string>,
    connectionRemote: Option<string>,
    socketRemote: Option<string>,
    forwardedFor: Option<string>,
    userAgent: Option<string>,
    referrer: Option<string>)

  /** What `geoip.lookup` and `useragent.parse` report. */
  datatype Geo = Geo(country: string, city: string)
  datatype Agent = Agent(family: string, os: string, device: string)

  /** The text before the first comma: `s.split(',')[0]`. */
  function FirstSegment(s: string): (r: string)
    ensures |r| <= |s| && r == s[..|r|]
    ensures ',' !in r
    ensures |r| < |s| ==> s[|r|] == ','
  {
    if s == [] || s[0] == ',' then [] else [s[0]] + FirstSegment(s[1..])
  }

  /** `getClientIP`: the first non-empty of the request address, the
      connection's and the socket's remote address, and the first entry of
      `X-Forwarded-For`; otherwise "unknown". */
  function GetClientIP(req: Request): (r: string)
    ensures r != []
    ensures Truthy(req.ip) ==> r == req.ip.value
    ensures !Truthy(req.ip) && Truthy(req.connectionRemote) ==> r == req.connectionRemote.value
    ensures !Truthy(req.ip) && !Truthy(req.connectionRemote) && Truthy(req.socketRemote) ==> r == req.socketRemote.value
    ensures r == UnknownAddress <==>
      (Truthy(req.ip) ==> req.ip.value == UnknownAddress) &&
      (!Truthy(req.ip) && Truthy(req.connectionRemote) ==> req.connectionRemote.value == UnknownAddress) &&
      (!Truthy(req.ip) && !Truthy(req.connectionRemote) && Truthy(req.socketRemote) ==> req.socketRemote.value == UnknownAddress) &&
      (!Truthy(req.ip) && !Truthy(req.connectionRemote) && !Truthy(req.socketRemote) && req.forwardedFor.Some? ==>
         FirstSegment(req.forwardedFor.value) == [] || FirstSegment(req.forwardedFor.value) == UnknownAddress)
    // With no address of its own, the first `X-Forwarded-For` entry.
    ensures !Truthy(req.ip) && !Truthy(req.connectionRemote) && !Truthy(req.socketRemote) &&
            req.forwardedFor.Some? && FirstSegment(req.forwardedFor.value) != [] ==>
      r == FirstSegment(req.forwardedFor.value)
    // Otherwise nothing is known.
    ensures !Truthy(req.ip) && !Truthy(req.connectionRemote) && !Truthy(req.socketRemote) &&
            (req.forwardedFor.None? || FirstSegment(req.forwardedFor.value) == []) ==>
      r == UnknownAddress
  {
    if Truthy(req.ip) then req.ip.value
    else if Truthy(req.connectionRemote) then req.connectionRemote.value
    else if Truthy(req.socketRemote) then req.socketRemote.value
    else if req.forwardedFor.Some? && FirstSegment(req.forwardedFor.value) != [] then FirstSegment(req.forwardedFor.value)
    else UnknownAddress
  }

  /** `x || 'Unknown'`. */
  function OrUnknown(s: string): (r: string)
    ensures r != [] && (s != [] ==> r == s) && (s == [] ==> r == Unknown)
  {
    if s != [] then s else Unknown
  }

  /** The row `recordClick` builds from a request. */
  function ClickDataOf(code: string, req: Request, geoLookup: string -> Option<Geo>, parseAgent: Option<string> -> Agent)
    : (d: AnalyticsModel.ClickData)
    ensures d.code == code && d.ipAddress == GetClientIP(req) && d.userAgent == req.userAgent
    ensures d.referrer == if Truthy(req.referrer) then req.referrer else None
    ensures d.country != [] && d.city != [] && d.browser != [] && d.os != [] && d.device != []
    // Each looked-up field is the lookup's value, or 'Unknown' when the
    // lookup has none or an empty one.
    ensures var geo := geoLookup(GetClientIP(req));
      && d.country == (if geo.Some? && geo.value.country != [] then geo.value.country else Unknown)
      && d.city == (if geo.Some? && geo.value.city != [] then geo.value.city else Unknown)
    ensures var agent := parseAgent(req.userAgent);
      && d.browser == (if agent.family != [] then agent.family else Unknown)
      && d.os == (if agent.os != [] then agent.os else Unknown)
      && d.device == (if agent.device != [] then agent.device else Unknown)
  {
    var ip := GetClientIP(req);
    var geo := geoLookup(ip);
    var agent := parseAgent(req.userAgent);
    AnalyticsModel.ClickData(
      code, ip, req.userAgent,
      if Truthy(req.referrer) then req.referrer else None,
      OrUnknown(if geo.Some? then geo.value.country else []),
      OrUnknown(if geo.Some? then geo.value.city else []),
      OrUnknown(agent.family), OrUnknown(agent.os), OrUnknown(agent.device))
  }

  /** `recordClick`: append one event; a store error is logged and
      swallowed, so the caller never sees a failure. */
  function RecordClick(db: Db, code: string, req: Request, geoLookup: string -> Option<Geo>,
                       parseAgent: Option<string> -> Agent, now: Timestamp): (db': Db)
    ensures !db.online ==> db' == db
    ensures db'.urls == db.urls && db'.online == db.online
    ensures db.online ==>
      db'.analytics == db.analytics + [AnalyticsModel.EventOf(ClickDataOf(code, req, geoLookup, parseAgent), now)]
    ensures forall c ::
              UrlModel.EventCount(db'.analytics, c) ==
              UrlModel.EventCount(db.analytics, c) + (if db.online && c == code then 1 else 0)
  {
    match AnalyticsModel.RecordClick(db, ClickDataOf(code, req, geoLookup, parseAgent), now)
    case Failure(_) => db
    case Success(db') =>
      assert db'.analytics == db.analytics + [db'.analytics[|db.analytics|]];
      forall c ensures UrlModel.EventCount(db'.analytics, c) == UrlModel.EventCount(db.analytics, c) + (if c == code then 1 else 0) {
        AnalyticsModel.RecordClickCounts(db.analytics, db'.analytics[|db.analytics|], c);
      }
      db'
  }

  datatype Summary = Summary(
    clicksByDate: seq<AnalyticsModel.Group<int>>,
    topLocations: seq<AnalyticsModel.Group<AnalyticsModel.Place>>,
    browserStats: seq<AnalyticsModel.Group<string>>)

  /** `getAnalyticsSummary`: the three aggregate queries together; any one
      failing fails the whole. Daily counts cover the last 30 days. */
  function GetAnalyticsSummary(db: Db, code: string, now: Timestamp, day: Timestamp -> int): (r: Result<Summary, Error>)
    ensures r.Failure? <==> !db.online
    ensures r.Failure? ==> r.error == ConnectionRefused
    ensures r.Success? ==>
      && Sorting.SumOf(r.value.clicksByDate, AnalyticsModel.Count) ==
           |AnalyticsModel.EventsSince(db.analytics, code, now - SummaryDays * DayMs)|
      && Sorting.SumOf(r.value.browserStats, AnalyticsModel.Count) == UrlModel.EventCount(db.analytics, code)
      && |r.value.topLocations| <= AnalyticsModel.LocationRows
    // Each field is the answer of its own query.
    ensures r.Success? ==>
      && r.value.clicksByDate == AnalyticsModel.GetClickStats(db, code, SummaryDays, now, day).value
      && r.value.topLocations == AnalyticsModel.GetLocationStats(db, code).value
      && r.value.browserStats == AnalyticsModel.GetBrowserStats(db, code).value
  {
    match AnalyticsModel.GetClickStats(db, code, SummaryDays, now, day)
    case Failure(e) => Failure(e)
    case Success(clicks) =>
      match AnalyticsModel.GetLocationStats(db, code)
      case Failure(e) => Failure(e)
      case Success(places) =>
        match AnalyticsModel.GetBrowserStats(db, code)
        case Failure(e) => Failure(e)
        case Success(browsers) => Success(Summary(clicks, places, browsers))
  }

  /** A recorded click shows up in the next summary: the browser counts
      grow by exactly one. */
  lemma RecordThenSummary(db: Db, code: string, req: Request, geoLookup: string -> Option<Geo>,
                          parseAgent: Option<string> -> Agent, now: Timestamp, day: Timestamp -> int)
    requires db.online
    ensures var db' := RecordClick(db, code, req, geoLookup, parseAgent, now);
      Sorting.SumOf(GetAnalyticsSummary(db', code, now, day).value.browserStats, AnalyticsModel.Count) ==
      Sorting.SumOf(GetAnalyticsSummary(db, code, now, day).value.browserStats, AnalyticsModel.Count) + 1
  {
  }

  datatype Page = Page(data: seq<Event>, page: int, limit: int, hasMore: bool)

  /** `getDetailedAnalytics(code, page, limit)`: the window at
      `(page - 1) * limit`; `hasMore` says the page came back full. */
  function GetDetailedAnalytics(db: Db, code: string, page: int, limit: int): (r: Result<Page, Error>)
    ensures r.Failure? <==> !db.online || limit < 0 || (page - 1) * limit < 0
    ensures r.Success? ==>
      r.value.page == page && r.value.limit == limit &&
      (r.value.hasMore <==> |r.value.data| == limit) &&
      (forall e :: e in r.value.data ==> e in db.analytics && e.code == code)
  {
    match AnalyticsModel.GetDetailedAnalytics(db, code, limit, (page - 1) * limit)
    case Failure(e) => Failure(e)
    case Success(data) => Success(Page(data, page, limit, |data| == limit))
  }

  /** Page `p + 1` starts where page `p` ends. */
  lemma NextOffset(p: int, limit: int)
    requires p >= 1 && limit >= 0
    ensures 0 <= (p - 1) * limit
    ensures (p + 1 - 1) * limit == (p - 1) * limit + limit
  {
  }

  /** For a valid page on a reachable store, the page is the detailed
      query's window at `(page - 1) * limit`. */
  lemma PageIsWindow(db: Db, code: string, p: int, limit: int, offset: nat)
    requires db.online && limit >= 0 && offset == (p - 1) * limit
    ensures GetDetailedAnalytics(db, code, p, limit).Success?
    ensures GetDetailedAnalytics(db, code, p, limit).value.data ==
            AnalyticsModel.GetDetailedAnalytics(db, code, limit, offset).value
  {
  }

  /** The detailed query's windows at `offset` and `offset + limit` make up
      the one twice as wide at `offset`, with events of equal `clicked_at`
      kept in one fixed order (see `AnyPagesTile` for any order). */
  lemma WindowsAdjacent(db: Db, code: string, limit: nat, offset: nat)
    requires db.online
    ensures AnalyticsModel.GetDetailedAnalytics(db, code, limit, offset).value +
            AnalyticsModel.GetDetailedAnalytics(db, code, limit, offset + limit).value ==
            AnalyticsModel.GetDetailedAnalytics(db, code, 2 * limit, offset).value
  {
    var sorted := Sorting.SortDesc(AnalyticsModel.EventsOf(db.analytics, code), AnalyticsModel.ClickedAt);
    Sorting.WindowsTile(sorted, limit, offset);
  }

  /** Pages `p` and `p + 1` together are exactly the window twice as wide
      at page `p`'s offset: paging neither repeats nor skips an event, as
      long as events with equal `clicked_at` keep one order across queries
      (see `AnyPagesTile`). */
  lemma PagesTile(db: Db, code: string, p: int, limit: int)
    requires db.online && p >= 1 && limit >= 0
    ensures GetDetailedAnalytics(db, code, p, limit).Success? && GetDetailedAnalytics(db, code, p + 1, limit).Success?
    ensures AnalyticsModel.GetDetailedAnalytics(db, code, 2 * limit, (p - 1) * limit) ==
      Success(GetDetailedAnalytics(db, code, p, limit).value.data + GetDetailedAnalytics(db, code, p + 1, limit).value.data)
  {
    var offset := (p - 1) * limit;
    NextOffset(p, limit);
    PageIsWindow(db, code, p, limit, offset);
    PageIsWindow(db, code, p + 1, limit, offset + limit);
    WindowsAdjacent(db, code, limit, offset);
  }

  /** The database may order events with equal `clicked_at` differently
      from one query to the next. When no two distinct events of the code
      share a `clicked_at`, any page it returns at `offset` followed by any
      page it returns at `offset + limit` is a valid double-width page at
      `offset`: paging neither repeats nor skips an event. Without that,
      `Sorting.TiedPagesMayRepeat` shows two valid pages that repeat one
      event. */
  lemma AnyPagesTile(db: Db, code: string, limit: nat, offset: nat, first: seq<Event>, second: seq<Event>)
    requires Sorting.KeyDetermines(AnalyticsModel.EventsOf(db.analytics, code), AnalyticsModel.ClickedAt)
    requires Sorting.IsSortedWindow(first, AnalyticsModel.EventsOf(db.analytics, code), AnalyticsModel.ClickedAt,
                                    limit, offset)
    requires Sorting.IsSortedWindow(second, AnalyticsModel.EventsOf(db.analytics, code), AnalyticsModel.ClickedAt,
                                    limit, offset + limit)
    ensures Sorting.IsSortedWindow(first + second, AnalyticsModel.EventsOf(db.analytics, code), AnalyticsModel.ClickedAt,
                                   2 * limit, offset)
  {
    var events := AnalyticsModel.EventsOf(db.analytics, code);
    Sorting.DeterminedWindow(first, events, AnalyticsModel.ClickedAt, limit, offset);
    Sorting.DeterminedWindow(second, events, AnalyticsModel.ClickedAt, limit, offset + limit);
    Sorting.WindowsTile(Sorting.SortDesc(events, AnalyticsModel.ClickedAt), limit, offset);
    Sorting.SortedWindowOf(events, AnalyticsModel.ClickedAt, 2 * limit, offset);
  }

  /** A window of the detailed query that comes back short is followed by
      an empty one. */
  lemma ShortWindowIsLast(db: Db, code: string, limit: nat, offset: nat)
    requires db.online
    requires |AnalyticsModel.GetDetailedAnalytics(db, code, limit, offset).value| != limit
    ensures AnalyticsModel.GetDetailedAnalytics(db, code, limit, offset + limit).value == []
  {
  }

  /** With exactly `offset + limit` events, the window at `offset` is full
      and the one after it empty. */
  lemma BoundaryWindow(db: Db, code: string, limit: nat, offset: nat)
    requires db.online && UrlModel.EventCount(db.analytics, code) == offset + limit
    ensures |AnalyticsModel.GetDetailedAnalytics(db, code, limit, offset).value| == limit
    ensures AnalyticsModel.GetDetailedAnalytics(db, code, limit, offset + limit).value == []
  {
  }

  /** A short page is the last one: nothing lies beyond it. */
  lemma ShortPageIsLast(db: Db, code: string, p: int, limit: int)
    requires db.online && p >= 1 && limit >= 0
    requires GetDetailedAnalytics(db, code, p, limit).Success? && !GetDetailedAnalytics(db, code, p, limit).value.hasMore
    ensures GetDetailedAnalytics(db, code, p + 1, limit) == Success(Page([], p + 1, limit, false))
  {
    var offset := (p - 1) * limit;
    NextOffset(p, limit);
    assert |AnalyticsModel.GetDetailedAnalytics(db, code, limit, offset).value| != limit by {
      PageIsWindow(db, code, p, limit, offset);
    }
    ShortWindowIsLast(db, code, limit, offset);
    PageIsWindow(db, code, p + 1, limit, offset + limit);
  }

  /** `hasMore` only means the page is full: when the events end exactly on
      a page boundary it is still true, and the next page is empty. */
  lemma FullLastPageClaimsMore(db: Db, code: string, p: int, limit: int)
    requires db.online && p >= 1 && limit > 0
    requires UrlModel.EventCount(db.analytics, code) == p * limit
    ensures GetDetailedAnalytics(db, code, p, limit).Success? && GetDetailedAnalytics(db, code, p, limit).value.hasMore
    ensures GetDetailedAnalytics(db, code, p + 1, limit) == Success(Page([], p + 1, limit, false))
  {
    var offset := (p - 1) * limit;
    NextOffset(p, limit);
    PageIsWindow(db, code, p, limit, offset);
    PageIsWindow(db, code, p + 1, limit, offset + limit);
    BoundaryWindow(db, code, limit, offset);
  }
}
