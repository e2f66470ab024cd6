/** How the `url:` cache relates to the store across the operations of
    src/services/UrlService.js. The invariant: codes are unique, and every
    `url:<code>` entry holds the `{originalUrl, expirationDate}` projection
    of a non-deleted record with that code. */
module Consistency {
  import opened Wrappers
  import opened Errors
  import opened Schema
  import Cache
  import UrlModel
  import opened UrlService

  /** `v` is the cache projection of `row`, which carries `code` and is not
      soft-deleted. */
  predicate Projects(row: UrlRow, code: string, v: Cache.Value) {
    row.code == code && row.deletedAt.None? &&
    v == Cache.UrlValue(Cache.UrlData(row.originalUrl, row.expirationDate))
  }

  /** The `url:<code>` entry, if any, mirrors a record of the store. */
  ghost predicate Mirrors(st: State, code: string) {
    Cache.UrlKey(code) in st.cache.entries ==>
      exists i :: 0 <= i < |st.db.urls| && Projects(st.db.urls[i], code, st.cache.entries[Cache.UrlKey(code)].value)
  }

  ghost predicate Inv(st: State) {
    UniqueCodes(st.db.urls) && forall code :: Mirrors(st, code)
  }

  /** With unique codes, a record with `code` is the only one. */
  lemma OnlyRow(rows: seq<UrlRow>, code: string, i: nat, j: nat)
    requires UniqueCodes(rows)
    requires i < |rows| && j < |rows| && rows[i].code == code && rows[j].code == code
    ensures i == j
  {
  }

  /** Under the invariant, and with the expiry test made inclusive, the
      cache is invisible: `getOriginalUrl` answers what the store answers,
      whichever cache calls fail. */
  lemma CacheTransparent(st: State, cfg: Config, code: string, now: Timestamp,
                         getFails: bool, fillFails: bool, evictFails: bool)
    requires Inv(st) && st.db.online
    ensures GetOriginalUrl(st, cfg, code, now, getFails, fillFails, evictFails).result == LiveUrl(st.db, code, now)
  {
    var key := Cache.UrlKey(code);
    var cached := CachedUrl(Cache.Get(st.cache, key, now, getFails));
    if cached.Some? {
      assert Mirrors(st, code);
      var i :| 0 <= i < |st.db.urls| && Projects(st.db.urls[i], code, st.cache.entries[key].value);
      var row := st.db.urls[i];
      assert cached.value == Cache.UrlData(row.originalUrl, row.expirationDate);
      if Expired(cached.value.expirationDate, now, true) {
        forall j | 0 <= j < |st.db.urls| && st.db.urls[j].code == code
          ensures !IsLive(st.db.urls[j], now)
        {
          OnlyRow(st.db.urls, code, i, j);
        }
      } else {
        assert IsLive(row, now);
        var found := UrlModel.FindByShortCode(st.db, code, now);
        assert found.value.Some?;
        var k :| 0 <= k < |st.db.urls| && st.db.urls[k] == found.value.value;
        OnlyRow(st.db.urls, code, i, k);
      }
    }
  }

  /** Under the invariant, while the code has a live record, the strict
      and the inclusive expiry tests give the same resolution. */
  lemma LiveTestsAgree(st: State, cfg: Config, code: string, now: Timestamp,
                       getFails: bool, fillFails: bool, evictFails: bool)
    requires Inv(st) && HasLive(st.db.urls, code, now)
    ensures GetOriginalUrlAsWritten(st, cfg, code, now, getFails, fillFails, evictFails) ==
            GetOriginalUrl(st, cfg, code, now, getFails, fillFails, evictFails)
  {
    var key := Cache.UrlKey(code);
    var cached := CachedUrl(Cache.Get(st.cache, key, now, getFails));
    if cached.Some? {
      assert Mirrors(st, code);
      var i :| 0 <= i < |st.db.urls| && Projects(st.db.urls[i], code, st.cache.entries[key].value);
      var j :| 0 <= j < |st.db.urls| && st.db.urls[j].code == code && IsLive(st.db.urls[j], now);
      OnlyRow(st.db.urls, code, i, j);
    }
  }

  /** `createShortUrl` keeps the invariant: the inserted code was free, and
      the entry written for it is the projection of the new record. */
  lemma CreatePreservesInv(st: State, cfg: Config, req: CreateRequest, validate: CreateRequest -> Result<CreateRequest, Error>,
                           gen: nat -> string, setFails: bool, now: Timestamp)
    requires Inv(st)
    ensures Inv(CreateShortUrl(st, cfg, req, validate, gen, setFails, now).state)
  {
    var out := CreateShortUrl(st, cfg, req, validate, gen, setFails, now);
    if out.result.Success? {
      var c := out.result.value.shortCode;
      var st' := out.state;
      var n := |st.db.urls|;
      assert forall i :: 0 <= i < n ==> st'.db.urls[i] == st.db.urls[i];
      forall i, j | 0 <= i < j < |st'.db.urls| ensures st'.db.urls[i].code != st'.db.urls[j].code {
        if j == n {
          assert st.db.urls[i].code != c;
        }
      }
      forall code ensures Mirrors(st', code) {
        if Cache.UrlKey(code) in st'.cache.entries {
          if Cache.UrlKey(code) in st.cache.entries && st'.cache.entries[Cache.UrlKey(code)] == st.cache.entries[Cache.UrlKey(code)] {
            assert Mirrors(st, code);
            var i :| 0 <= i < n && Projects(st.db.urls[i], code, st.cache.entries[Cache.UrlKey(code)].value);
            assert Projects(st'.db.urls[i], code, st'.cache.entries[Cache.UrlKey(code)].value);
          } else {
            Cache.KeyNamespaces(code, c, "", "");
            assert code == c;
            assert Projects(st'.db.urls[n], code, st'.cache.entries[Cache.UrlKey(code)].value);
          }
        }
      }
    }
  }

  /** `getOriginalUrl` keeps the invariant, with either expiry test: it
      only fills from a live record or evicts. */
  lemma ResolvePreservesInv(st: State, cfg: Config, code: string, now: Timestamp,
                            getFails: bool, fillFails: bool, evictFails: bool, atDeadline: bool)
    requires Inv(st)
    ensures Inv(Resolve(st, cfg, code, now, getFails, fillFails, evictFails, atDeadline).state)
  {
    var st' := Resolve(st, cfg, code, now, getFails, fillFails, evictFails, atDeadline).state;
    forall other ensures Mirrors(st', other) {
      var key := Cache.UrlKey(other);
      if key in st'.cache.entries {
        if key in st.cache.entries && st'.cache.entries[key] == st.cache.entries[key] {
          assert Mirrors(st, other);
        } else {
          Cache.KeyNamespaces(other, code, "", "");
          var found := UrlModel.FindByShortCode(st.db, code, now);
          var k :| 0 <= k < |st.db.urls| && st.db.urls[k] == found.value.value;
          assert Projects(st'.db.urls[k], other, st'.cache.entries[key].value);
        }
      }
    }
  }

  /** `incrementClickCount` keeps the invariant: it changes counters only,
      and drops a `stats:` key. */
  lemma IncrementPreservesInv(st: State, code: string, now: Timestamp, deleteFails: bool)
    requires Inv(st)
    ensures Inv(IncrementClickCount(st, code, now, deleteFails))
  {
    var st' := IncrementClickCount(st, code, now, deleteFails);
    forall other ensures Mirrors(st', other) {
      var key := Cache.UrlKey(other);
      Cache.KeyNamespaces(other, code, "", "");
      if key in st'.cache.entries {
        assert Mirrors(st, other);
        var i :| 0 <= i < |st.db.urls| && Projects(st.db.urls[i], other, st.cache.entries[key].value);
        assert Projects(st'.db.urls[i], other, st'.cache.entries[key].value);
      }
    }
  }

  /** `getUrlStats` keeps the invariant: it writes a `stats:` key only. */
  lemma StatsPreservesInv(st: State, code: string, now: Timestamp, getFails: bool, setFails: bool)
    requires Inv(st)
    ensures Inv(GetUrlStats(st, code, now, getFails, setFails).state)
  {
    var st' := GetUrlStats(st, code, now, getFails, setFails).state;
    forall other ensures Mirrors(st', other) {
      Cache.KeyNamespaces(other, code, "", "");
      if Cache.UrlKey(other) in st'.cache.entries {
        assert Mirrors(st, other);
      }
    }
  }

  /** `deleteUrl` keeps the invariant provided its `url:` delete goes
      through. */
  lemma DeletePreservesInv(st: State, code: string, userId: Option<string>, now: Timestamp, statsDeleteFails: bool)
    requires Inv(st)
    ensures Inv(DeleteUrl(st, code, userId, now, false, statsDeleteFails).state)
  {
    var out := DeleteUrl(st, code, userId, now, false, statsDeleteFails);
    var st' := out.state;
    if out.result.Success? {
      forall other ensures Mirrors(st', other) {
        var key := Cache.UrlKey(other);
        Cache.KeyNamespaces(other, code, "", "");
        if key in st'.cache.entries {
          assert Mirrors(st, other);
          var i :| 0 <= i < |st.db.urls| && Projects(st.db.urls[i], other, st.cache.entries[key].value);
          if out.result.value {
            assert other != code;
          } else {
            assert !UrlModel.DeleteMatches(st.db.urls[i], code, userId);
          }
          assert Projects(st'.db.urls[i], other, st'.cache.entries[key].value);
        }
      }
    }
  }

  /** Create, then resolve while the record is live: the original URL comes
      back, whatever the cache does. */
  lemma CreateThenResolve(st: State, cfg: Config, req: CreateRequest, validate: CreateRequest -> Result<CreateRequest, Error>,
                          gen: nat -> string, setFails: bool, now: Timestamp, t: Timestamp,
                          getFails: bool, fillFails: bool, evictFails: bool)
    requires Inv(st)
    requires CreateShortUrl(st, cfg, req, validate, gen, setFails, now).result.Success?
    requires var c := CreateShortUrl(st, cfg, req, validate, gen, setFails, now).result.value;
      c.expirationDate.None? || c.expirationDate.value > t
    ensures var out := CreateShortUrl(st, cfg, req, validate, gen, setFails, now);
      GetOriginalUrl(out.state, cfg, out.result.value.shortCode, t, getFails, fillFails, evictFails).result
        == Success(Some(out.result.value.originalUrl))
  {
    var out := CreateShortUrl(st, cfg, req, validate, gen, setFails, now);
    var c := out.result.value;
    var rows := out.state.db.urls;
    CreatePreservesInv(st, cfg, req, validate, gen, setFails, now);
    CacheTransparent(out.state, cfg, c.shortCode, t, getFails, fillFails, evictFails);
    var n := |st.db.urls|;
    assert IsLive(rows[n], t);
    var found := UrlModel.FindByShortCode(out.state.db, c.shortCode, t);
    var k :| 0 <= k < |rows| && rows[k] == found.value.value;
    OnlyRow(rows, c.shortCode, k, n);
  }

  /** After `deleteUrl` without an owner filter reports success and its
      cache deletes go through, the code resolves to nothing, at any time. */
  lemma DeleteThenResolve(st: State, cfg: Config, code: string, now: Timestamp, t: Timestamp, statsDeleteFails: bool,
                          getFails: bool, fillFails: bool, evictFails: bool)
    requires Inv(st)
    requires DeleteUrl(st, code, None, now, false, statsDeleteFails).result == Success(true)
    ensures GetOriginalUrl(DeleteUrl(st, code, None, now, false, statsDeleteFails).state, cfg, code, t,
                           getFails, fillFails, evictFails).result == Success(None)
  {
    var st' := DeleteUrl(st, code, None, now, false, statsDeleteFails).state;
    DeletePreservesInv(st, code, None, now, statsDeleteFails);
    CacheTransparent(st', cfg, code, t, getFails, fillFails, evictFails);
    forall j | 0 <= j < |st'.db.urls| && st'.db.urls[j].code == code ensures !IsLive(st'.db.urls[j], t) {
      assert UrlModel.DeleteMatches(st.db.urls[j], code, None);
    }
  }

  /** A `url:` delete that fails inside `deleteUrl` leaves the entry
      behind: the call reports success, yet the code still resolves to its
      old URL until the entry's TTL runs out. */
  lemma StaleAfterFailedDelete(st: State, cfg: Config, code: string, userId: Option<string>, now: Timestamp,
                               statsDeleteFails: bool, fillFails: bool, evictFails: bool, d: Cache.UrlData)
    requires Cache.Get(st.cache, Cache.UrlKey(code), now, false) == Some(Cache.UrlValue(d))
    requires !Expired(d.expirationDate, now, true)
    requires DeleteUrl(st, code, userId, now, true, statsDeleteFails).result == Success(true)
    ensures GetOriginalUrl(DeleteUrl(st, code, userId, now, true, statsDeleteFails).state, cfg, code, now,
                           false, fillFails, evictFails).result == Success(Some(d.originalUrl))
  {
    var st' := DeleteUrl(st, code, userId, now, true, statsDeleteFails).state;
    Cache.KeyNamespaces(code, code, "", "");
    assert st'.cache.entries[Cache.UrlKey(code)] == st.cache.entries[Cache.UrlKey(code)];
  }

  /** When every cache read fails the service still answers from the store
      alone, invariant or not. */
  lemma CacheOutageFallsBack(st: State, cfg: Config, code: string, now: Timestamp, fillFails: bool, evictFails: bool)
    ensures GetOriginalUrl(st, cfg, code, now, true, fillFails, evictFails).result == LiveUrl(st.db, code, now)
  {
  }

  /** The expiry tests of the cache path and the store disagree at the
      deadline. A record expiring at 1000 is dead in the store at 1000, but
      while its entry is cached the code written strictly still resolves;
      the inclusive test answers as the store does. */
  lemma ExpiryBoundaryDisagreement()
    ensures var row := UrlRow("abc", "https://example.com", Some(1000), 0, 0, 0, None, None);
      var data := Cache.UrlData(row.originalUrl, row.expirationDate);
      var st := State(Db([row], [], true),
                      Cache.Keyspace(map[Cache.UrlKey("abc") := Cache.Entry(Cache.UrlValue(data), Some(2000))]));
      && Inv(st)
      && LiveUrl(st.db, "abc", 1000) == Success(None)
      && GetOriginalUrlAsWritten(st, DefaultConfig, "abc", 1000, false, false, false).result == Success(Some("https://example.com"))
      && GetOriginalUrlAsWritten(st, DefaultConfig, "abc", 1000, true, false, false).result == Success(None)
      && GetOriginalUrl(st, DefaultConfig, "abc", 1000, false, false, false).result == Success(None)
  {
    var row := UrlRow("abc", "https://example.com", Some(1000), 0, 0, 0, None, None);
    var data := Cache.UrlData(row.originalUrl, row.expirationDate);
    var st := State(Db([row], [], true),
                    Cache.Keyspace(map[Cache.UrlKey("abc") := Cache.Entry(Cache.UrlValue(data), Some(2000))]));
    forall code ensures Mirrors(st, code) {
      if Cache.UrlKey(code) in st.cache.entries {
        Cache.KeyNamespaces(code, "abc", "", "");
        assert Projects(st.db.urls[0], code, st.cache.entries[Cache.UrlKey(code)].value);
      }
    }
  }
}
