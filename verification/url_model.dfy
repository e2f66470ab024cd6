/** The `urls` queries of src/models/Url.js as functions over the row
    sequence. Each query fails with `ConnectionRefused` while the database
    is offline; the other driver errors are the ones named below. */
module UrlModel {
  import opened Wrappers
  import opened Errors
  import opened Schema
  import Sorting

  /** `Url.create`: inserts one row stamped `now`. The unique constraint on
      `short_code` rejects a code that any row already carries, live or not. */
  function Create(db: Db, code: string, originalUrl: string, expirationDate: Option<Timestamp>, now: Timestamp)
    : (r: Result<(Db, UrlRow), Error>)
    ensures !db.online ==> r == Failure(ConnectionRefused)
    ensures db.online && CodeTaken(db.urls, code) ==> r == Failure(UniqueViolation)
    ensures r.Success? <==> db.online && !CodeTaken(db.urls, code)
    ensures r.Success? ==>
      var (db', row) := r.value;
      && db'.urls == db.urls + [row]
      && db'.analytics == db.analytics && db'.online
      && row.code == code && row.originalUrl == originalUrl && row.expirationDate == expirationDate
      && row.createdAt == now && row.updatedAt == now
      && row.clickCount == 0 && row.deletedAt == None && row.userId == None
  {
    if !db.online then Failure(ConnectionRefused)
    else if CodeTaken(db.urls, code) then Failure(UniqueViolation)
    else
      var row := UrlRow(code, originalUrl, expirationDate, now, now, 0, None, None);
      Success((db.(urls := db.urls + [row]), row))
  }

  /** The first row with `code` that is live at `now`, searching from `i`. */
  function FirstLive(rows: seq<UrlRow>, code: string, now: Timestamp, i: nat): (r: Option<nat>)
    requires i <= |rows|
    ensures r.Some? ==> i <= r.value < |rows| && rows[r.value].code == code && IsLive(rows[r.value], now)
    ensures r.Some? ==> forall j :: i <= j < r.value ==> !(rows[j].code == code && IsLive(rows[j], now))
    ensures r.None? <==> forall j :: i <= j < |rows| ==> !(rows[j].code == code && IsLive(rows[j], now))
    decreases |rows| - i
  {
    if i == |rows| then None
    else if rows[i].code == code && IsLive(rows[i], now) then Some(i)
    else FirstLive(rows, code, now, i + 1)
  }

  /** `Url.findByShortCode`: the first row with the code that is neither
      soft-deleted nor expired at `now`, or null. */
  function FindByShortCode(db: Db, code: string, now: Timestamp): (r: Result<Option<UrlRow>, Error>)
    ensures r.Failure? <==> !db.online
    ensures r.Failure? ==> r.error == ConnectionRefused
    ensures r.Success? && r.value.Some? ==>
      r.value.value.code == code && IsLive(r.value.value, now) && r.value.value in db.urls
    ensures r.Success? ==> (r.value.None? <==> !HasLive(db.urls, code, now))
  {
    if !db.online then Failure(ConnectionRefused)
    else
      var i := FirstLive(db.urls, code, now, 0);
      if i.Some? then Success(Some(db.urls[i.value])) else Success(None)
  }

  /** The row after one `click_count = click_count + 1, updated_at = NOW()`. */
  function Clicked(row: UrlRow, now: Timestamp): UrlRow {
    row.(clickCount := row.clickCount + 1, updatedAt := now)
  }

  /** Index of the first row with `code`, dead or alive. */
  function FirstWithCode(rows: seq<UrlRow>, code: string): (r: Option<nat>)
    ensures r.Some? ==> r.value < |rows| && rows[r.value].code == code
    ensures r.Some? ==> forall j :: 0 <= j < r.value ==> rows[j].code != code
    ensures r.None? <==> !CodeTaken(rows, code)
  {
    if rows == [] then None
    else if rows[0].code == code then Some(0)
    else
      var rest := FirstWithCode(rows[1..], code);
      assert forall j :: 1 <= j < |rows| ==> rows[j] == rows[1..][j - 1];
      if rest.Some? then Some(rest.value + 1) else None
  }

  /** `Url.updateClickCount`: every row with the code is bumped, deleted or
      expired ones included. The answer is the first bumped row's new count,
      or 0 when no row has the code. */
  function UpdateClickCount(db: Db, code: string, now: Timestamp): (r: Result<(Db, nat), Error>)
    ensures r.Failure? <==> !db.online
    ensures r.Failure? ==> r.error == ConnectionRefused
    ensures r.Success? ==>
      var (db', count) := r.value;
      && |db'.urls| == |db.urls| && db'.analytics == db.analytics && db'.online
      && (forall i :: 0 <= i < |db.urls| && db.urls[i].code == code ==>
            db'.urls[i] == db.urls[i].(clickCount := db.urls[i].clickCount + 1, updatedAt := now))
      && (forall i :: 0 <= i < |db.urls| && db.urls[i].code != code ==> db'.urls[i] == db.urls[i])
      && (count == 0 <==> !CodeTaken(db.urls, code))
      && (CodeTaken(db.urls, code) ==>
            count == db.urls[FirstWithCode(db.urls, code).value].clickCount + 1)
  {
    if !db.online then Failure(ConnectionRefused)
    else
      var rows := seq(|db.urls|, i requires 0 <= i < |db.urls| =>
        if db.urls[i].code == code then Clicked(db.urls[i], now) else db.urls[i]);
      var first := FirstWithCode(db.urls, code);
      var count := if first.Some? then rows[first.value].clickCount else 0;
      Success((db.(urls := rows), count))
  }

  /** The columns `findUserUrls` selects. */
  datatype UserUrl = UserUrl(
    code: string,
    originalUrl: string,
    clickCount: nat,
    createdAt: Timestamp,
    expirationDate: Option<Timestamp>)

  function Project(row: UrlRow): UserUrl {
    UserUrl(row.code, row.originalUrl, row.clickCount, row.createdAt, row.expirationDate)
  }

  function CreatedAt(u: UserUrl): int {
    u.createdAt
  }

  /** The rows of `userId` that are not soft-deleted, in table order. */
  function OwnedRows(rows: seq<UrlRow>, userId: string): (r: seq<UrlRow>)
    ensures forall x :: x in r <==> x in rows && x.userId == Some(userId) && x.deletedAt.None?
  {
    if rows == [] then []
    else
      var rest := OwnedRows(rows[1..], userId);
      assert forall x :: x in rows <==> x == rows[0] || x in rows[1..];
      if rows[0].userId == Some(userId) && rows[0].deletedAt.None? then [rows[0]] + rest else rest
  }

  /** The projections of the user's non-deleted rows, in table order. */
  function OwnedProjections(rows: seq<UrlRow>, userId: string): (r: seq<UserUrl>)
    ensures forall u :: u in r ==>
      exists row :: row in rows && row.userId == Some(userId) && row.deletedAt.None? && u == Project(row)
    ensures forall row :: row in rows && row.userId == Some(userId) && row.deletedAt.None? ==> Project(row) in r
  {
    var owned := OwnedRows(rows, userId);
    var projected := seq(|owned|, i requires 0 <= i < |owned| => Project(owned[i]));
    assert forall u :: u in projected ==> exists i :: 0 <= i < |owned| && u == Project(owned[i]);
    forall row | row in rows && row.userId == Some(userId) && row.deletedAt.None? ensures Project(row) in projected {
      var i :| 0 <= i < |owned| && owned[i] == row;
      assert projected[i] == Project(row);
    }
    projected
  }

  /** `Url.findUserUrls`: the user's non-deleted rows, newest first, then
      `LIMIT limit OFFSET offset`. PostgreSQL rejects negative bounds, and
      checks the offset before the limit. Ties in `created_at` are left in
      table order. */
  function FindUserUrls(db: Db, userId: string, limit: int, offset: int): (r: Result<seq<UserUrl>, Error>)
    ensures !db.online ==> r == Failure(ConnectionRefused)
    ensures db.online && offset < 0 ==> r == Failure(NegativeOffset)
    ensures db.online && offset >= 0 && limit < 0 ==> r == Failure(NegativeLimit)
    ensures r.Success? <==> db.online && limit >= 0 && offset >= 0
    // The page is the window at `offset` of the owned rows, newest first.
    ensures r.Success? ==> Sorting.IsSortedWindow(r.value, OwnedProjections(db.urls, userId), CreatedAt, limit, offset)
    ensures r.Success? ==> |r.value| <= limit
    ensures r.Success? ==>
      var total := |OwnedRows(db.urls, userId)|;
      |r.value| == if offset >= total then 0 else if total - offset < limit then total - offset else limit
    ensures r.Success? ==> Sorting.SortedDesc(r.value, CreatedAt)
    ensures r.Success? ==> forall u :: u in r.value ==>
      exists row :: row in db.urls && row.userId == Some(userId) && row.deletedAt.None? && u == Project(row)
  {
    if !db.online then Failure(ConnectionRefused)
    else if offset < 0 then Failure(NegativeOffset)
    else if limit < 0 then Failure(NegativeLimit)
    else
      var projected := OwnedProjections(db.urls, userId);
      var sorted := Sorting.SortDesc(projected, CreatedAt);
      var page := Sorting.Window(sorted, limit, offset);
      Sorting.WindowOfSorted(projected, CreatedAt, limit, offset);
      Sorting.SortedWindowOf(projected, CreatedAt, limit, offset);
      Success(page)
  }

  /** Rows `delete` touches: the code, and the owner when one is given. A
      falsy `userId` means no owner filter. */
  predicate DeleteMatches(row: UrlRow, code: string, userId: Option<string>) {
    row.code == code && (!Truthy(userId) || row.userId == userId)
  }

  /** `Url.delete`: stamps `deleted_at = NOW()` on every matching row,
      already-deleted ones included, and reports whether any matched. */
  function Delete(db: Db, code: string, userId: Option<string>, now: Timestamp): (r: Result<(Db, bool), Error>)
    ensures r.Failure? <==> !db.online
    ensures r.Failure? ==> r.error == ConnectionRefused
    ensures r.Success? ==>
      var (db', found) := r.value;
      && |db'.urls| == |db.urls| && db'.analytics == db.analytics && db'.online
      && (found <==> exists i :: 0 <= i < |db.urls| && DeleteMatches(db.urls[i], code, userId))
      && (forall i :: 0 <= i < |db.urls| ==>
            db'.urls[i] == if DeleteMatches(db.urls[i], code, userId)
                           then db.urls[i].(deletedAt := Some(now)) else db.urls[i])
  {
    if !db.online then Failure(ConnectionRefused)
    else
      var rows := seq(|db.urls|, i requires 0 <= i < |db.urls| =>
        if DeleteMatches(db.urls[i], code, userId) then db.urls[i].(deletedAt := Some(now)) else db.urls[i]);
      var found := exists i :: 0 <= i < |db.urls| && DeleteMatches(db.urls[i], code, userId);
      Success((db.(urls := rows), found))
  }

  /** Number of analytics events recorded for `code`. */
  function EventCount(events: seq<Event>, code: string): (n: nat)
    ensures n <= |events|
    ensures n == 0 <==> forall e :: e in events ==> e.code != code
  {
    if events == [] then 0
    else
      assert forall e :: e in events <==> e == events[0] || e in events[1..];
      (if events[0].code == code then 1 else 0) + EventCount(events[1..], code)
  }

  /** The first row with `code` that is not soft-deleted, expired or not. */
  function FirstUndeleted(rows: seq<UrlRow>, code: string): (r: Option<nat>)
    ensures r.Some? ==> r.value < |rows| && rows[r.value].code == code && rows[r.value].deletedAt.None?
    ensures r.None? <==> forall j :: 0 <= j < |rows| ==> !(rows[j].code == code && rows[j].deletedAt.None?)
  {
    if rows == [] then None
    else if rows[0].code == code && rows[0].deletedAt.None? then Some(0)
    else
      var rest := FirstUndeleted(rows[1..], code);
      assert forall j :: 1 <= j < |rows| ==> rows[j] == rows[1..][j - 1];
      if rest.Some? then Some(rest.value + 1) else None
  }

  /** `Url.getStats`: the non-deleted row (expiry is not checked) joined
      with the number of analytics events for its code. */
  function GetStats(db: Db, code: string): (r: Result<Option<Stats>, Error>)
    ensures r.Failure? <==> !db.online
    ensures r.Failure? ==> r.error == ConnectionRefused
    ensures r.Success? ==>
      (r.value.None? <==> forall j :: 0 <= j < |db.urls| ==> !(db.urls[j].code == code && db.urls[j].deletedAt.None?))
    ensures r.Success? && r.value.Some? ==>
      var s := r.value.value;
      && s.code == code
      && s.totalAnalyticsRecords == EventCount(db.analytics, code)
      && exists row :: row in db.urls && row.code == code && row.deletedAt.None?
           && s.originalUrl == row.originalUrl && s.clickCount == row.clickCount
           && s.createdAt == row.createdAt && s.expirationDate == row.expirationDate
  {
    if !db.online then Failure(ConnectionRefused)
    else
      var i := FirstUndeleted(db.urls, code);
      if i.None? then Success(None)
      else
        var row := db.urls[i.value];
        Success(Some(Stats(row.code, row.originalUrl, row.clickCount, row.createdAt,
                           row.expirationDate, EventCount(db.analytics, code))))
  }
}
