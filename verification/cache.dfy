/** The Redis-backed cache of src/services/cacheService.js: a keyspace of
    values with optional deadlines. Every backend error is absorbed: `Get`
    answers `None`, `Set` and `Delete` answer `false`, `Increment` answers 0.
    Whether a backend call fails is an input of each operation. JSON
    serialisation is the identity. */
module Cache {
  import opened Wrappers
  import opened Schema

  /** `config.redis.ttl` when `REDIS_TTL` is unset, in seconds. */
  const DefaultTtl: int := 3600

  /** The fast-path projection cached under `url:<code>`. */
  datatype UrlData = UrlData(originalUrl: string, expirationDate: Option<Timestamp>)

  /** What the core stores in Redis. */
  datatype Value = UrlValue(data: UrlData) | StatsValue(stats: Stats) | Counter(n: int)

  /** A stored value and the instant it stops existing (`None`: no TTL). */
  datatype Entry = Entry(value: Value, deadline: Option<Timestamp>)

  datatype Keyspace = Keyspace(entries: map<string, Entry>)

  /** Redis drops a key only once the clock is strictly past its deadline:
      at the deadline itself the key still answers. */
  predicate Alive(e: Entry, now: Timestamp) {
    e.deadline.None? || now <= e.deadline.value
  }

  /** What Redis holds for `key` at `now`: entries past their deadline are gone. */
  function Lookup(ks: Keyspace, key: string, now: Timestamp): Option<Value> {
    if key in ks.entries && Alive(ks.entries[key], now) then Some(ks.entries[key].value) else None
  }

  /** The keyspace agrees with `ks` everywhere except possibly at `key`. */
  ghost predicate OnlyChanged(ks: Keyspace, ks': Keyspace, key: string) {
    ks'.entries - {key} == ks.entries - {key}
  }

  /** `get(key)`: a backend error reads as a miss. */
  function Get(ks: Keyspace, key: string, now: Timestamp, fails: bool): (r: Option<Value>)
    ensures fails ==> r == None
    ensures r.Some? ==> key in ks.entries && Alive(ks.entries[key], now) && ks.entries[key].value == r.value
    ensures !fails && key in ks.entries && Alive(ks.entries[key], now) ==> r.Some?
  {
    if fails then None else Lookup(ks, key, now)
  }

  /** `set(key, value, ttl)` through `SETEX`, which refuses a ttl that is
      not positive; refusals and backend errors answer `false`. */
  function Set(ks: Keyspace, key: string, v: Value, ttl: int, now: Timestamp, fails: bool): (r: (Keyspace, bool))
    ensures r.1 <==> !fails && ttl > 0
    ensures !r.1 ==> r.0 == ks
    ensures OnlyChanged(ks, r.0, key)
    ensures r.1 ==> key in r.0.entries && r.0.entries[key].value == v
    ensures r.1 ==> forall t :: now <= t <= now + ttl * SecondMs ==> Lookup(r.0, key, t) == Some(v)
    ensures r.1 ==> forall t :: t > now + ttl * SecondMs ==> Lookup(r.0, key, t) == None
  {
    if fails || ttl <= 0 then (ks, false)
    else (Keyspace(ks.entries[key := Entry(v, Some(now + ttl * SecondMs))]), true)
  }

  /** `delete(key)` through `DEL`. */
  function Delete(ks: Keyspace, key: string, fails: bool): (r: (Keyspace, bool))
    ensures r.1 <==> !fails
    ensures !r.1 ==> r.0 == ks
    ensures r.1 ==> key !in r.0.entries
    ensures OnlyChanged(ks, r.0, key)
  {
    if fails then (ks, false) else (Keyspace(ks.entries - {key}), true)
  }

  /** Which backend call of `increment` fails, if any. */
  datatype IncrFault = NoFault | IncrFails | ExpireFails

  /** `increment(key, expiry)`: `INCR`, then `EXPIRE` only when the count
      just became 1. A live non-counter value makes `INCR` fail. `EXPIRE`
      with a timeout that is not positive deletes the key. If `EXPIRE`
      fails the increment has already happened and stays without a TTL. */
  function Increment(ks: Keyspace, key: string, expiry: int, now: Timestamp, fault: IncrFault): (r: (Keyspace, int))
    ensures fault == IncrFails ==> r == (ks, 0)
    ensures Lookup(ks, key, now).Some? && !Lookup(ks, key, now).value.Counter? ==> r == (ks, 0)
    ensures OnlyChanged(ks, r.0, key)
    ensures fault == NoFault && Lookup(ks, key, now) == None ==>
      r.1 == 1 &&
      (expiry > 0 ==> key in r.0.entries && r.0.entries[key] == Entry(Counter(1), Some(now + expiry * SecondMs))) &&
      (expiry <= 0 ==> key !in r.0.entries)
    // `EXPIRE` failing on a fresh key: the count is answered as 0 and the
    // counter is left with no deadline.
    ensures fault == ExpireFails && Lookup(ks, key, now) == None ==>
      r.1 == 0 && key in r.0.entries && r.0.entries[key] == Entry(Counter(1), None)
    ensures fault != IncrFails && Lookup(ks, key, now).Some? && Lookup(ks, key, now).value.Counter? &&
            Lookup(ks, key, now).value.n != 0 ==>
      var n := Lookup(ks, key, now).value.n;
      r.1 == n + 1 && key in r.0.entries && r.0.entries[key] == Entry(Counter(n + 1), ks.entries[key].deadline)
  {
    if fault == IncrFails then (ks, 0)
    else
      var current := Lookup(ks, key, now);
      if current.Some? && !current.value.Counter? then (ks, 0)
      else
        var count := if current.Some? then current.value.n + 1 else 1;
        var deadline := if current.Some? then ks.entries[key].deadline else None;
        var bumped := Keyspace(ks.entries[key := Entry(Counter(count), deadline)]);
        if count != 1 then (bumped, count)
        else if fault == ExpireFails then (bumped, 0)
        else if expiry <= 0 then (Keyspace(bumped.entries - {key}), 1)
        else (Keyspace(bumped.entries[key := Entry(Counter(1), Some(now + expiry * SecondMs))]), 1)
  }

  /** The three key builders. */
  function UrlKey(code: string): string {
    "url:" + code
  }

  function StatsKey(code: string): string {
    "stats:" + code
  }

  /** The action comes first, then the identifier. */
  function RateLimitKey(identifier: string, action: string): (k: string)
    ensures |k| == 11 + |action| + |identifier|
    ensures k[..10] == "ratelimit:" && k[|k| - |identifier|..] == identifier
    ensures k[10..10 + |action|] == action && k[10 + |action|] == ':'
  {
    "ratelimit:" + action + ":" + identifier
  }

  /** `url:` and `stats:` keys never collide; each builder is injective;
      no rate-limit key is a `url:` or `stats:` key. */
  lemma KeyNamespaces(a: string, b: string, id: string, action: string)
    ensures UrlKey(a) != StatsKey(b)
    ensures UrlKey(a) == UrlKey(b) ==> a == b
    ensures StatsKey(a) == StatsKey(b) ==> a == b
    ensures RateLimitKey(id, action) != UrlKey(a) && RateLimitKey(id, action) != StatsKey(a)
  {
    assert UrlKey(a)[0] == 'u' && StatsKey(b)[0] == 's' && RateLimitKey(id, action)[0] == 'r';
    if UrlKey(a) == UrlKey(b) {
      assert a == UrlKey(a)[4..] && b == UrlKey(b)[4..];
    }
    if StatsKey(a) == StatsKey(b) {
      assert a == StatsKey(a)[6..] && b == StatsKey(b)[6..];
    }
  }

  /** For a fixed action the rate-limit key determines the identifier. */
  lemma RateLimitKeyInjective(id1: string, id2: string, action: string)
    requires RateLimitKey(id1, action) == RateLimitKey(id2, action)
    ensures id1 == id2
  {
    var n := 11 + |action|;
    assert id1 == RateLimitKey(id1, action)[n..];
    assert id2 == RateLimitKey(id2, action)[n..];
  }

  /** Across actions it does not: a `:` inside the action is ambiguous. */
  lemma RateLimitKeyAmbiguous()
    ensures RateLimitKey("b:c", "a") == RateLimitKey("c", "a:b")
  {
  }

  /** After a successful `set`, `get` returns the value until the TTL
      lapses, whatever happens meanwhile to other keys. */
  lemma SetThenGet(ks: Keyspace, key: string, v: Value, ttl: int, now: Timestamp, t: Timestamp, other: string, w: Value)
    requires Set(ks, key, v, ttl, now, false).1
    requires other != key
    requires now <= t <= now + ttl * SecondMs
    ensures Get(Set(ks, key, v, ttl, now, false).0, key, t, false) == Some(v)
    ensures Get(Set(Set(ks, key, v, ttl, now, false).0, other, w, ttl, t, false).0, key, t, false) == Some(v)
    ensures Get(Delete(Set(ks, key, v, ttl, now, false).0, other, false).0, key, t, false) == Some(v)
  {
  }

  /** After `delete(key)` succeeds, `get(key)` misses at every instant. */
  lemma DeleteThenGet(ks: Keyspace, key: string, t: Timestamp, fails: bool)
    requires Delete(ks, key, false).1
    ensures Get(Delete(ks, key, false).0, key, t, fails) == None
  {
  }

  /** Runs `increment` fault-free at each instant of `times`, in order,
      returning the keyspace and the counts answered. */
  function IncrementRun(ks: Keyspace, key: string, expiry: int, times: seq<Timestamp>): (r: (Keyspace, seq<int>))
    ensures |r.1| == |times|
  {
    if times == [] then (ks, [])
    else
      var prior := IncrementRun(ks, key, expiry, times[..|times| - 1]);
      var step := Increment(prior.0, key, expiry, times[|times| - 1], NoFault);
      (step.0, prior.1 + [step.1])
  }

  /** Fixed window: starting from an absent key, the n-th increment inside
      the window opened by the first one answers n, and the window is never
      extended. */
  lemma {:induction false} FixedWindow(ks: Keyspace, key: string, expiry: int, times: seq<Timestamp>)
    requires times != [] && expiry > 0
    requires Lookup(ks, key, times[0]) == None
    requires forall i :: 0 <= i < |times| ==> times[0] <= times[i] <= times[0] + expiry * SecondMs
    ensures forall i :: 0 <= i < |times| ==> IncrementRun(ks, key, expiry, times).1[i] == i + 1
    ensures IncrementRun(ks, key, expiry, times).0.entries[key] ==
      Entry(Counter(|times|), Some(times[0] + expiry * SecondMs))
  {
    var n := |times|;
    var prefix := times[..n - 1];
    if n == 1 {
      assert prefix == [];
    } else {
      assert prefix[0] == times[0];
      FixedWindow(ks, key, expiry, prefix);
      var prior := IncrementRun(ks, key, expiry, prefix);
      assert Lookup(prior.0, key, times[n - 1]) == Some(Counter(n - 1));
    }
  }
}
