/** The resolution service of src/services/UrlService.js over an abstract
    store and cache. Each cache call site has its own `...Fails` input, the
    generator is the oracle `gen` (attempt number to candidate), and request
    validation is the opaque function `validate`. */
module UrlService {
  import opened Wrappers
  import opened Errors
  import opened Schema
  import Cache
  import UrlModel
  import ShortCode

  /** Generated codes tried before giving up. */
  const MaxAttempts: nat := 10
  /** TTL of the `stats:` projection, in seconds. */
  const StatsTtl: int := 300

  /** `config.url.baseUrl`, `config.env` and `config.redis.ttl`. */
  datatype Config = Config(baseUrl: string, env: string, ttl: int)

  const DefaultConfig: Config := Config("http://localhost:3000", "development", Cache.DefaultTtl)

  datatype State = State(db: Db, cache: Cache.Keyspace)

  /** The body of a creation request; `validate` maps one to its validated
      form or to the error it throws. */
  datatype CreateRequest = CreateRequest(url: string, customCode: Option<string>, expiration: Option<Timestamp>)

  /** What `createShortUrl` returns. */
  datatype Created = Created(
    shortCode: string,
    shortUrl: string,
    originalUrl: string,
    expirationDate: Option<Timestamp>,
    createdAt: Timestamp)

  /** The state after an operation and what it returned or threw. */
  datatype Outcome<T> = Outcome(state: State, result: Result<T, Error>)

  /** A code the retry loop settled on, and how many candidates it drew. */
  datatype Pick = Pick(code: string, attempts: nat)

  /** The `do ... while` loop of `createShortUrl` from attempt `attempt` on:
      draw a candidate, keep it if no live record has it, give up after the
      tenth draw. Records that are deleted or expired do not count. */
  function PickCode(db: Db, gen: nat -> string, now: Timestamp, attempt: nat): (r: Result<Pick, Error>)
    requires attempt < MaxAttempts
    ensures !db.online <==> r == Failure(ConnectionRefused)
    ensures r.Failure? ==> r.error == ConnectionRefused || r.error == GenerationExhausted
    ensures r.Success? ==>
      && attempt < r.value.attempts <= MaxAttempts
      && r.value.code == gen(r.value.attempts - 1)
      && !HasLive(db.urls, r.value.code, now)
      && forall j :: attempt <= j < r.value.attempts - 1 ==> HasLive(db.urls, gen(j), now)
    ensures r == Failure(GenerationExhausted) <==>
      db.online && forall j :: attempt <= j < MaxAttempts ==> HasLive(db.urls, gen(j), now)
    decreases MaxAttempts - attempt
  {
    match UrlModel.FindByShortCode(db, gen(attempt), now)
    case Failure(e) => Failure(e)
    case Success(existing) =>
      if existing.None? then Success(Pick(gen(attempt), attempt + 1))
      else if attempt + 1 >= MaxAttempts then Failure(GenerationExhausted)
      else PickCode(db, gen, now, attempt + 1)
  }

  /** The loop settles on the first candidate that no live record has. */
  lemma {:induction false} PickFirstFree(db: Db, gen: nat -> string, now: Timestamp, attempt: nat, j: nat)
    requires db.online && attempt <= j < MaxAttempts
    requires !HasLive(db.urls, gen(j), now)
    requires forall k :: attempt <= k < j ==> HasLive(db.urls, gen(k), now)
    ensures PickCode(db, gen, now, attempt) == Success(Pick(gen(j), j + 1))
    decreases j - attempt
  {
    if attempt < j {
      PickFirstFree(db, gen, now, attempt + 1, j);
    }
  }

  /** The code `createShortUrl` will insert: the custom one unless a live
      record has it, or a generated one. A falsy custom code means none. */
  function ChooseCode(db: Db, v: CreateRequest, gen: nat -> string, now: Timestamp): Result<string, Error> {
    if Truthy(v.customCode) then
      match UrlModel.FindByShortCode(db, v.customCode.value, now)
      case Failure(e) => Failure(e)
      case Success(existing) =>
        if existing.Some? then Failure(CustomCodeTaken) else Success(v.customCode.value)
    else
      match PickCode(db, gen, now, 0)
      case Failure(e) => Failure(e)
      case Success(p) => Success(p.code)
  }

  lemma PickAnyFirstFree(db: Db, gen: nat -> string, now: Timestamp)
    ensures forall j :: db.online && 0 <= j < MaxAttempts && !HasLive(db.urls, gen(j), now) &&
                        (forall k :: 0 <= k < j ==> HasLive(db.urls, gen(k), now)) ==>
      PickCode(db, gen, now, 0) == Success(Pick(gen(j), j + 1))
  {
    forall j | db.online && 0 <= j < MaxAttempts && !HasLive(db.urls, gen(j), now) &&
               (forall k :: 0 <= k < j ==> HasLive(db.urls, gen(k), now))
      ensures PickCode(db, gen, now, 0) == Success(Pick(gen(j), j + 1))
    {
      PickFirstFree(db, gen, now, 0, j);
    }
  }

  /** `createShortUrl`: validate, choose a code, insert, then write the
      `{originalUrl, expirationDate}` projection through to `url:<code>`.
      Every failure happens before the insert, so it leaves the state as it
      was; a failed cache write is not a failure. */
  function CreateShortUrl(st: State, cfg: Config, req: CreateRequest, validate: CreateRequest -> Result<CreateRequest, Error>,
                          gen: nat -> string, setFails: bool, now: Timestamp): (out: Outcome<Created>)
    ensures validate(req).Failure? ==> out == Outcome(st, Failure(validate(req).error))
    ensures out.result.Failure? ==> out.state == st
    ensures validate(req).Success? && Truthy(validate(req).value.customCode) && st.db.online &&
            HasLive(st.db.urls, validate(req).value.customCode.value, now) ==>
      out == Outcome(st, Failure(CustomCodeTaken))
    // An unreachable store fails the first query.
    ensures validate(req).Success? && !st.db.online ==> out == Outcome(st, Failure(ConnectionRefused))
    // A custom code succeeds iff no row carries it; a dead row with it
    // makes the insert hit the unique constraint.
    ensures validate(req).Success? && Truthy(validate(req).value.customCode) && st.db.online ==>
      var c := validate(req).value.customCode.value;
      && (out.result.Success? <==> !CodeTaken(st.db.urls, c))
      && (CodeTaken(st.db.urls, c) && !HasLive(st.db.urls, c, now) ==> out == Outcome(st, Failure(UniqueViolation)))
    // A generated code: the first candidate without a live record is
    // inserted, which succeeds iff no row carries it at all.
    ensures validate(req).Success? && !Truthy(validate(req).value.customCode) && st.db.online ==>
      forall j :: 0 <= j < MaxAttempts && !HasLive(st.db.urls, gen(j), now) &&
                  (forall k :: 0 <= k < j ==> HasLive(st.db.urls, gen(k), now)) ==>
        && (out.result.Success? <==> !CodeTaken(st.db.urls, gen(j)))
        && (out.result.Success? ==> out.result.value.shortCode == gen(j))
        && (out.result.Failure? ==> out.result.error == UniqueViolation)
    ensures validate(req).Success? ==>
      (out.result == Failure(GenerationExhausted) <==>
         (!Truthy(validate(req).value.customCode) && st.db.online &&
          forall j :: 0 <= j < MaxAttempts ==> HasLive(st.db.urls, gen(j), now)))
    ensures out.result.Success? ==>
      var v := validate(req).value;
      var c := out.result.value;
      var key := Cache.UrlKey(c.shortCode);
      && validate(req).Success?
      && c.shortUrl == cfg.baseUrl + "/" + c.shortCode
      && c.originalUrl == v.url && c.expirationDate == v.expiration && c.createdAt == now
      && (Truthy(v.customCode) ==> c.shortCode == v.customCode.value)
      && (!Truthy(v.customCode) ==> exists j :: 0 <= j < MaxAttempts && c.shortCode == gen(j))
      && !CodeTaken(st.db.urls, c.shortCode)
      && out.state.db == st.db.(urls := st.db.urls + [UrlRow(c.shortCode, v.url, v.expiration, now, now, 0, None, None)])
      && Cache.OnlyChanged(st.cache, out.state.cache, key)
      && (setFails || cfg.ttl <= 0 ==> out.state.cache == st.cache)
      && (!setFails && cfg.ttl > 0 ==>
            key in out.state.cache.entries &&
            out.state.cache.entries[key] ==
              Cache.Entry(Cache.UrlValue(Cache.UrlData(v.url, v.expiration)), Some(now + cfg.ttl * SecondMs)))
  {
    match validate(req)
    case Failure(e) => Outcome(st, Failure(e))
    case Success(v) =>
      PickAnyFirstFree(st.db, gen, now);
      match ChooseCode(st.db, v, gen, now)
      case Failure(e) => Outcome(st, Failure(e))
      case Success(code) =>
        match UrlModel.Create(st.db, code, v.url, v.expiration, now)
        case Failure(e) => Outcome(st, Failure(e))
        case Success(inserted) =>
          var (db', row) := inserted;
          var data := Cache.UrlData(row.originalUrl, row.expirationDate);
          var cache' := Cache.Set(st.cache, Cache.UrlKey(row.code), Cache.UrlValue(data), cfg.ttl, now, setFails).0;
          var created := Created(row.code, cfg.baseUrl + "/" + row.code, row.originalUrl, row.expirationDate, row.createdAt);
          Outcome(State(db', cache'), Success(created))
  }

  /** The `url:` projection inside a cached value; any other shape reads
      as a miss. */
  function CachedUrl(v: Option<Cache.Value>): Option<Cache.UrlData> {
    if v.Some? && v.value.UrlValue? then Some(v.value.data) else None
  }

  /** The expiry test of `getOriginalUrl`. As written it is strict
      (`expirationDate < now`); `atDeadline` makes it inclusive, agreeing
      with the store, whose records stop being live at `expiration_date`. */
  predicate Expired(exp: Option<Timestamp>, now: Timestamp, atDeadline: bool) {
    exp.Some? && (if atDeadline then exp.value <= now else exp.value < now)
  }

  /** The body of `getOriginalUrl`, parameterised by the expiry test.
      Read `url:<code>`; on a miss read the store and, only if a live record
      exists, fill the cache; on a hit whose expiry has passed, evict the
      entry. A record loaded from the store is live, so the expiry test
      cannot fire on the fill path. */
  function Resolve(st: State, cfg: Config, code: string, now: Timestamp,
                   getFails: bool, fillFails: bool, evictFails: bool, atDeadline: bool): (out: Outcome<Option<string>>)
    ensures out.state.db == st.db
    ensures Cache.OnlyChanged(st.cache, out.state.cache, Cache.UrlKey(code))
  {
    var key := Cache.UrlKey(code);
    var cached := CachedUrl(Cache.Get(st.cache, key, now, getFails));
    if cached.Some? then
      if Expired(cached.value.expirationDate, now, atDeadline) then
        Outcome(st.(cache := Cache.Delete(st.cache, key, evictFails).0), Success(None))
      else
        Outcome(st, Success(Some(cached.value.originalUrl)))
    else
      match UrlModel.FindByShortCode(st.db, code, now)
      case Failure(e) => Outcome(st, Failure(e))
      case Success(found) =>
        if found.None? then Outcome(st, Success(None))
        else
          var row := found.value;
          var data := Cache.UrlData(row.originalUrl, row.expirationDate);
          var filled := Cache.Set(st.cache, key, Cache.UrlValue(data), cfg.ttl, now, fillFails).0;
          Outcome(st.(cache := filled), Success(Some(row.originalUrl)))
  }

  /** When every candidate is what `generate()` draws (eight characters of
      the alphabet), a generated code passes `isValid`. */
  lemma GeneratedCodeIsValid(st: State, cfg: Config, req: CreateRequest, validate: CreateRequest -> Result<CreateRequest, Error>,
                             gen: nat -> string, setFails: bool, now: Timestamp)
    requires forall j :: |gen(j)| == ShortCode.DefaultLength && ShortCode.OverAlphabet(gen(j))
    requires validate(req).Success? && !Truthy(validate(req).value.customCode)
    requires CreateShortUrl(st, cfg, req, validate, gen, setFails, now).result.Success?
    ensures ShortCode.IsValid(ShortCode.Text(CreateShortUrl(st, cfg, req, validate, gen, setFails, now).result.value.shortCode))
  {
    var code := CreateShortUrl(st, cfg, req, validate, gen, setFails, now).result.value.shortCode;
    var j :| 0 <= j < MaxAttempts && code == gen(j);
    ShortCode.GeneratedValidity(ShortCode.DefaultLength, gen(j));
  }

  /** A custom code is never held to the generator's alphabet: "OIL" is
      stored as given although `isValid` rejects it. */
  lemma CustomCodeOutsideAlphabet()
    ensures var st := State(Db([], [], true), Cache.Keyspace(map[]));
      var req := CreateRequest("https://example.com", Some("OIL"), None);
      var out := CreateShortUrl(st, DefaultConfig, req, v => Success(v), n => "", false, 0);
      out.result.Success? && out.result.value.shortCode == "OIL" && !ShortCode.IsValid(ShortCode.Text("OIL"))
  {
    ShortCode.AlphabetExclusions();
    ShortCode.IsValidIff(ShortCode.Text("OIL"));
    assert !ShortCode.OverAlphabet("OIL") by {
      assert "OIL"[0] == 'O';
    }
  }

  /** Uniqueness is checked against live records only, so a generated code
      that matches a deleted or expired record is not retried: the insert
      hits the unique constraint and creation fails. */
  lemma DeadCollisionIsNotRetried(st: State, cfg: Config, req: CreateRequest, validate: CreateRequest -> Result<CreateRequest, Error>,
                                  gen: nat -> string, setFails: bool, now: Timestamp)
    requires validate(req).Success? && !Truthy(validate(req).value.customCode) && st.db.online
    requires CodeTaken(st.db.urls, gen(0)) && !HasLive(st.db.urls, gen(0), now)
    ensures CreateShortUrl(st, cfg, req, validate, gen, setFails, now) == Outcome(st, Failure(UniqueViolation))
  {
  }

  /** The URL of the record `findByShortCode` returns, if any. */
  function LiveUrl(db: Db, code: string, now: Timestamp): Result<Option<string>, Error> {
    match UrlModel.FindByShortCode(db, code, now)
    case Failure(e) => Failure(e)
    case Success(found) => Success(if found.Some? then Some(found.value.originalUrl) else None)
  }

  /** `getOriginalUrl` exactly as written: a cached entry whose expiry
      equals `now` still resolves. */
  function GetOriginalUrlAsWritten(st: State, cfg: Config, code: string, now: Timestamp,
                                   getFails: bool, fillFails: bool, evictFails: bool): (out: Outcome<Option<string>>)
    ensures out.state.db == st.db
    // It differs from the inclusive test only on an entry expiring at `now`,
    // which it still resolves.
    ensures var cached := CachedUrl(Cache.Get(st.cache, Cache.UrlKey(code), now, getFails));
      if cached.Some? && cached.value.expirationDate == Some(now)
      then out == Outcome(st, Success(Some(cached.value.originalUrl)))
      else out == GetOriginalUrl(st, cfg, code, now, getFails, fillFails, evictFails)
  {
    Resolve(st, cfg, code, now, getFails, fillFails, evictFails, false)
  }

  /** `getOriginalUrl` with the expiry test made inclusive, so that the
      cache and the store agree on when a record expires. */
  function GetOriginalUrl(st: State, cfg: Config, code: string, now: Timestamp,
                          getFails: bool, fillFails: bool, evictFails: bool): (out: Outcome<Option<string>>)
    ensures out.state.db == st.db
    ensures Cache.OnlyChanged(st.cache, out.state.cache, Cache.UrlKey(code))
    // A cache miss with no live record: null, and nothing is cached.
    ensures CachedUrl(Cache.Get(st.cache, Cache.UrlKey(code), now, getFails)).None? && st.db.online &&
            !HasLive(st.db.urls, code, now) ==>
      out == Outcome(st, Success(None))
    // A cache miss with a live record: its URL, and `url:<code>` is filled.
    ensures CachedUrl(Cache.Get(st.cache, Cache.UrlKey(code), now, getFails)).None? && st.db.online &&
            HasLive(st.db.urls, code, now) ==>
      var row := UrlModel.FindByShortCode(st.db, code, now).value.value;
      && out.result == Success(Some(row.originalUrl))
      && (!fillFails && cfg.ttl > 0 ==>
            Cache.UrlKey(code) in out.state.cache.entries &&
            out.state.cache.entries[Cache.UrlKey(code)] ==
              Cache.Entry(Cache.UrlValue(Cache.UrlData(row.originalUrl, row.expirationDate)),
                          Some(now + cfg.ttl * SecondMs)))
      && (fillFails || cfg.ttl <= 0 ==> out.state == st)
    // A cache miss while the store is unreachable: the store's error.
    ensures CachedUrl(Cache.Get(st.cache, Cache.UrlKey(code), now, getFails)).None? && !st.db.online ==>
      out == Outcome(st, Failure(ConnectionRefused))
    // A cached entry not yet expired: its URL, and nothing changes.
    ensures CachedUrl(Cache.Get(st.cache, Cache.UrlKey(code), now, getFails)).Some? &&
            !Expired(CachedUrl(Cache.Get(st.cache, Cache.UrlKey(code), now, getFails)).value.expirationDate, now, true) ==>
      out == Outcome(st, Success(Some(CachedUrl(Cache.Get(st.cache, Cache.UrlKey(code), now, getFails)).value.originalUrl)))
    // A cached entry past its expiry: null, and the entry is evicted.
    ensures CachedUrl(Cache.Get(st.cache, Cache.UrlKey(code), now, getFails)).Some? &&
            Expired(CachedUrl(Cache.Get(st.cache, Cache.UrlKey(code), now, getFails)).value.expirationDate, now, true) ==>
      out.result == Success(None) && (!evictFails ==> Cache.UrlKey(code) !in out.state.cache.entries)
    // A URL is returned only from an unexpired cached entry or a live record.
    ensures out.result.Success? && out.result.value.Some? ==>
      (exists d :: CachedUrl(Cache.Get(st.cache, Cache.UrlKey(code), now, getFails)) == Some(d) &&
         !Expired(d.expirationDate, now, true) && d.originalUrl == out.result.value.value) ||
      (exists row :: row in st.db.urls && row.code == code && IsLive(row, now) &&
         row.originalUrl == out.result.value.value)
  {
    Resolve(st, cfg, code, now, getFails, fillFails, evictFails, true)
  }

  /** `incrementClickCount`: bump the store's counter and drop `stats:<code>`.
      `url:<code>` is left alone, and nothing is ever thrown: a store error
      skips the cache call and leaves everything as it was. */
  function IncrementClickCount(st: State, code: string, now: Timestamp, deleteFails: bool): (st': State)
    ensures !st.db.online ==> st' == st
    ensures st'.db.online == st.db.online && st'.db.analytics == st.db.analytics
    ensures |st'.db.urls| == |st.db.urls|
    ensures st.db.online ==>
      forall i :: 0 <= i < |st.db.urls| ==>
        st'.db.urls[i] == if st.db.urls[i].code == code
                          then st.db.urls[i].(clickCount := st.db.urls[i].clickCount + 1, updatedAt := now)
                          else st.db.urls[i]
    ensures Cache.OnlyChanged(st.cache, st'.cache, Cache.StatsKey(code))
    ensures st.db.online && !deleteFails ==> Cache.StatsKey(code) !in st'.cache.entries
    ensures forall t :: Cache.Lookup(st'.cache, Cache.UrlKey(code), t) == Cache.Lookup(st.cache, Cache.UrlKey(code), t)
  {
    Cache.KeyNamespaces(code, code, "", "");
    match UrlModel.UpdateClickCount(st.db, code, now)
    case Failure(_) => st
    case Success(updated) =>
      State(updated.0, Cache.Delete(st.cache, Cache.StatsKey(code), deleteFails).0)
  }

  /** The `stats:` projection inside a cached value; any other shape reads
      as a miss. */
  function CachedStats(v: Option<Cache.Value>): Option<Stats> {
    if v.Some? && v.value.StatsValue? then Some(v.value.stats) else None
  }

  /** `getUrlStats`: read-through over `stats:<code>` with a five-minute TTL. */
  function GetUrlStats(st: State, code: string, now: Timestamp, getFails: bool, setFails: bool): (out: Outcome<Option<Stats>>)
    ensures out.state.db == st.db
    ensures Cache.OnlyChanged(st.cache, out.state.cache, Cache.StatsKey(code))
    ensures out.result.Failure? || out.result == Success(None) ==> out.state == st
    ensures CachedStats(Cache.Get(st.cache, Cache.StatsKey(code), now, getFails)).Some? ==>
      out == Outcome(st, Success(CachedStats(Cache.Get(st.cache, Cache.StatsKey(code), now, getFails))))
    ensures CachedStats(Cache.Get(st.cache, Cache.StatsKey(code), now, getFails)).None? ==>
      && out.result == UrlModel.GetStats(st.db, code)
      && (out.result.Success? && out.result.value.Some? && !setFails ==>
            forall t :: now <= t <= now + StatsTtl * SecondMs ==>
              Cache.Lookup(out.state.cache, Cache.StatsKey(code), t) == Some(Cache.StatsValue(out.result.value.value)))
  {
    var key := Cache.StatsKey(code);
    var cached := CachedStats(Cache.Get(st.cache, key, now, getFails));
    if cached.Some? then Outcome(st, Success(cached))
    else
      match UrlModel.GetStats(st.db, code)
      case Failure(e) => Outcome(st, Failure(e))
      case Success(found) =>
        if found.None? then Outcome(st, Success(None))
        else Outcome(st.(cache := Cache.Set(st.cache, key, Cache.StatsValue(found.value), StatsTtl, now, setFails).0),
                     Success(found))
  }

  /** `deleteUrl`: soft-delete in the store, then drop both `url:<code>`
      and `stats:<code>` if any row matched. */
  function DeleteUrl(st: State, code: string, userId: Option<string>, now: Timestamp,
                     urlDeleteFails: bool, statsDeleteFails: bool): (out: Outcome<bool>)
    ensures out.result.Failure? <==> !st.db.online
    ensures out.result.Failure? ==> out.state == st && out.result.error == ConnectionRefused
    ensures out.result.Success? ==>
      (out.result.value <==> exists i :: 0 <= i < |st.db.urls| && UrlModel.DeleteMatches(st.db.urls[i], code, userId))
    ensures out.result == Success(false) ==> out.state.cache == st.cache
    ensures out.result == Success(true) && !urlDeleteFails ==> Cache.UrlKey(code) !in out.state.cache.entries
    ensures out.result == Success(true) && !statsDeleteFails ==> Cache.StatsKey(code) !in out.state.cache.entries
    ensures forall k :: k != Cache.UrlKey(code) && k != Cache.StatsKey(code) ==>
      (k in out.state.cache.entries <==> k in st.cache.entries) &&
      (k in st.cache.entries ==> out.state.cache.entries[k] == st.cache.entries[k])
    ensures out.result.Success? ==>
      |out.state.db.urls| == |st.db.urls| && out.state.db.analytics == st.db.analytics &&
      forall i :: 0 <= i < |st.db.urls| ==>
        out.state.db.urls[i] == if UrlModel.DeleteMatches(st.db.urls[i], code, userId)
                                then st.db.urls[i].(deletedAt := Some(now)) else st.db.urls[i]
  {
    match UrlModel.Delete(st.db, code, userId, now)
    case Failure(e) => Outcome(st, Failure(e))
    case Success(deleted) =>
      var (db', found) := deleted;
      if !found then Outcome(st.(db := db'), Success(false))
      else
        var c1 := Cache.Delete(st.cache, Cache.UrlKey(code), urlDeleteFails).0;
        var c2 := Cache.Delete(c1, Cache.StatsKey(code), statsDeleteFails).0;
        Cache.KeyNamespaces(code, code, "", "");
        Outcome(State(db', c2), Success(true))
  }

  /** One entry of `bulkCreateUrls`' answer. */
  datatype BulkItem = Done(data: Created) | Failed(error: string, originalUrl: string)

  function ItemOf(req: CreateRequest, r: Result<Created, Error>): BulkItem {
    match r
    case Success(c) => Done(c)
    case Failure(e) => Failed(e.message, req.url)
  }

  /** `bulkCreateUrls`: `createShortUrl` on each request in turn, each on
      the state its predecessors left; a failure is recorded and the loop
      goes on. Item `i` runs at `clock(i)`, draws codes from `gens(i)`, and
      its cache write fails iff `setFails(i)`. */
  function BulkCreateUrls(st: State, cfg: Config, items: seq<CreateRequest>,
                          validate: CreateRequest -> Result<CreateRequest, Error>,
                          gens: nat -> nat -> string, setFails: nat -> bool, clock: nat -> Timestamp): (out: (State, seq<BulkItem>))
    ensures |out.1| == |items|
    ensures forall i :: 0 <= i < |items| && out.1[i].Failed? ==> out.1[i].originalUrl == items[i].url
    decreases |items|
  {
    if items == [] then (st, [])
    else
      var n := |items| - 1;
      var prior := BulkCreateUrls(st, cfg, items[..n], validate, gens, setFails, clock);
      var last := CreateShortUrl(prior.0, cfg, items[n], validate, gens(n), setFails(n), clock(n));
      (last.state, prior.1 + [ItemOf(items[n], last.result)])
  }

  /** The answer for a prefix of the requests is the prefix of the answer:
      results come back in input order and later items never change earlier
      results. */
  lemma {:induction false} BulkPrefix(st: State, cfg: Config, items: seq<CreateRequest>,
                                      validate: CreateRequest -> Result<CreateRequest, Error>,
                                      gens: nat -> nat -> string, setFails: nat -> bool, clock: nat -> Timestamp, k: nat)
    requires k <= |items|
    ensures BulkCreateUrls(st, cfg, items[..k], validate, gens, setFails, clock).1 ==
      BulkCreateUrls(st, cfg, items, validate, gens, setFails, clock).1[..k]
    decreases |items|
  {
    if k < |items| {
      var n := |items| - 1;
      BulkPrefix(st, cfg, items[..n], validate, gens, setFails, clock, k);
      assert items[..n][..k] == items[..k];
    } else {
      assert items[..k] == items;
    }
  }

  /** Item `i` of the answer is exactly what `createShortUrl` does with
      request `i` on the state the first `i` requests left, whether or not
      they succeeded. */
  lemma BulkItemIsCreate(st: State, cfg: Config, items: seq<CreateRequest>,
                         validate: CreateRequest -> Result<CreateRequest, Error>,
                         gens: nat -> nat -> string, setFails: nat -> bool, clock: nat -> Timestamp, i: nat)
    requires i < |items|
    ensures BulkCreateUrls(st, cfg, items, validate, gens, setFails, clock).1[i] ==
      ItemOf(items[i], CreateShortUrl(BulkCreateUrls(st, cfg, items[..i], validate, gens, setFails, clock).0,
                                      cfg, items[i], validate, gens(i), setFails(i), clock(i)).result)
  {
    BulkPrefix(st, cfg, items, validate, gens, setFails, clock, i + 1);
    assert items[..i + 1][..i] == items[..i];
    assert items[..i + 1][i] == items[i];
  }
}
