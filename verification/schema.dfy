/** The two tables of the durable store and the database handle. Time is
    an integer count of milliseconds; `NOW()` is the `now` argument of each
    operation. */
module Schema {
  import opened Wrappers

  type Timestamp = int

  const SecondMs: int := 1000
  const DayMs: int := 86_400_000

  /** A row of the `urls` table. */
  datatype UrlRow = UrlRow(
    code: string,
    originalUrl: string,
    expirationDate: Option<Timestamp>,
    createdAt: Timestamp,
    updatedAt: Timestamp,
    clickCount: nat,
    deletedAt: Option<Timestamp>,
    userId: Option<string>)

  /** A row of the `analytics` table: one recorded visit. */
  datatype Event = Event(
    code: string,
    ipAddress: string,
    userAgent: Option<string>,
    referrer: Option<string>,
    country: string,
    city: string,
    browser: string,
    os: string,
    device: string,
    clickedAt: Timestamp)

  /** The aggregate row returned by `Url.getStats`. */
  datatype Stats = Stats(
    code: string,
    originalUrl: string,
    clickCount: nat,
    createdAt: Timestamp,
    expirationDate: Option<Timestamp>,
    totalAnalyticsRecords: nat)

  /** Both tables in insertion order, and whether the server answers. */
  datatype Db = Db(urls: seq<UrlRow>, analytics: seq<Event>, online: bool)

  /** A record is resolvable: not soft-deleted and not past its expiry. */
  predicate IsLive(row: UrlRow, now: Timestamp) {
    row.deletedAt.None? && (row.expirationDate.None? || row.expirationDate.value > now)
  }

  /** Some row carries `code`, dead or alive. */
  predicate CodeTaken(rows: seq<UrlRow>, code: string) {
    exists i :: 0 <= i < |rows| && rows[i].code == code
  }

  /** Some live row carries `code`. */
  predicate HasLive(rows: seq<UrlRow>, code: string, now: Timestamp) {
    exists i :: 0 <= i < |rows| && rows[i].code == code && IsLive(rows[i], now)
  }

  /** No two rows share a code: the unique constraint on `short_code`. */
  ghost predicate UniqueCodes(rows: seq<UrlRow>) {
    forall i, j :: 0 <= i < j < |rows| ==> rows[i].code != rows[j].code
  }
}
