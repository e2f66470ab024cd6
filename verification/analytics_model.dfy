/** The `analytics` queries of src/models/Analytics.js as functions over
    the event sequence. `GROUP BY` becomes `GroupCount`, `ORDER BY ... DESC`
    an insertion sort, `LIMIT`/`OFFSET` a window. */
module AnalyticsModel {
  import opened Wrappers
  import opened Errors
  import opened Schema
  import Sorting
  import UrlModel

  /** One output row of a `GROUP BY ...; COUNT(*)` query. */
  datatype Group<K> = Group(tag: K, count: nat)

  function Tag<K>(g: Group<K>): K {
    g.tag
  }

  function Count<K>(g: Group<K>): int {
    g.count
  }

  predicate HasTag<K(==)>(g: seq<Group<K>>, k: K) {
    exists i :: 0 <= i < |g| && g[i].tag == k
  }

  /** Counts one more occurrence of `k`: bumps its group, or opens one. */
  function Bump<K(==)>(g: seq<Group<K>>, k: K): (r: seq<Group<K>>)
    ensures HasTag(g, k) ==> |r| == |g|
    ensures !HasTag(g, k) ==> |r| == |g| + 1 && r[|g|] == Group(k, 1)
    ensures forall i :: 0 <= i < |g| ==> r[i] == if g[i].tag == k then g[i].(count := g[i].count + 1) else g[i]
  {
    if HasTag(g, k) then
      seq(|g|, i requires 0 <= i < |g| => if g[i].tag == k then g[i].(count := g[i].count + 1) else g[i])
    else
      g + [Group(k, 1)]
  }

  lemma {:induction false} SumBump<K>(g: seq<Group<K>>, k: K, r: seq<Group<K>>)
    requires Sorting.DistinctBy(g, Tag)
    requires |r| == |g|
    requires forall i :: 0 <= i < |g| ==> r[i] == if g[i].tag == k then g[i].(count := g[i].count + 1) else g[i]
    ensures Sorting.SumOf(r, Count) == Sorting.SumOf(g, Count) + (if HasTag(g, k) then 1 else 0)
  {
    if g != [] {
      assert Sorting.DistinctBy(g[1..], Tag) by {
        forall i, j | 0 <= i < j < |g[1..]| ensures g[1..][i].tag != g[1..][j].tag {
          assert g[1..][i] == g[i + 1] && g[1..][j] == g[j + 1];
        }
      }
      SumBump(g[1..], k, r[1..]);
      if g[0].tag == k {
        assert !HasTag(g[1..], k) by {
          forall i | 0 <= i < |g[1..]| ensures g[1..][i].tag != k {
            assert g[1..][i] == g[i + 1];
          }
        }
      } else {
        assert HasTag(g, k) <==> HasTag(g[1..], k) by {
          if HasTag(g, k) {
            var i :| 0 <= i < |g| && g[i].tag == k;
            assert g[1..][i - 1] == g[i];
          }
          if HasTag(g[1..], k) {
            var i :| 0 <= i < |g[1..]| && g[1..][i].tag == k;
            assert g[i + 1] == g[1..][i];
          }
        }
      }
    }
  }

  lemma {:induction false} SumAppend<K>(g: seq<Group<K>>, x: Group<K>)
    ensures Sorting.SumOf(g + [x], Count) == Sorting.SumOf(g, Count) + x.count
  {
    if g != [] {
      SumAppend(g[1..], x);
      assert (g + [x])[1..] == g[1..] + [x];
    } else {
      assert ([x])[1..] == [];
    }
  }

  /** What one more occurrence of `k` does to a grouping. */
  lemma BumpFacts<K>(g: seq<Group<K>>, k: K)
    requires Sorting.DistinctBy(g, Tag)
    ensures Sorting.DistinctBy(Bump(g, k), Tag)
    ensures forall j :: HasTag(Bump(g, k), j) <==> HasTag(g, j) || j == k
    ensures Sorting.SumOf(Bump(g, k), Count) == Sorting.SumOf(g, Count) + 1
  {
    var r := Bump(g, k);
    if HasTag(g, k) {
      SumBump(g, k, r);
      forall j ensures HasTag(r, j) <==> HasTag(g, j) || j == k {
        if HasTag(r, j) {
          var i :| 0 <= i < |r| && r[i].tag == j;
          assert g[i].tag == j;
        }
        if HasTag(g, j) {
          var i :| 0 <= i < |g| && g[i].tag == j;
          assert r[i].tag == j;
        }
      }
      forall i, j | 0 <= i < j < |r| ensures r[i].tag != r[j].tag {
        assert r[i].tag == g[i].tag && r[j].tag == g[j].tag;
      }
    } else {
      SumAppend(g, Group(k, 1));
      assert r == g + [Group(k, 1)];
      forall j ensures HasTag(r, j) <==> HasTag(g, j) || j == k {
        if HasTag(r, j) {
          var i :| 0 <= i < |r| && r[i].tag == j;
          if i < |g| { assert g[i].tag == j; }
        }
        if HasTag(g, j) {
          var i :| 0 <= i < |g| && g[i].tag == j;
          assert r[i].tag == j;
        }
        if j == k {
          assert r[|g|].tag == j;
        }
      }
      forall i, j | 0 <= i < j < |r| ensures r[i].tag != r[j].tag {
        if j == |g| {
          assert r[i].tag == g[i].tag;
        }
      }
    }
  }

  /** `GROUP BY` with `COUNT(*)`: one group per distinct key, in order of
      first occurrence, each counting its key's occurrences. */
  function GroupCount<K(==,!new)>(keys: seq<K>): (g: seq<Group<K>>)
    ensures Sorting.DistinctBy(g, Tag)
    ensures forall i :: 0 <= i < |g| ==> g[i].count == multiset(keys)[g[i].tag]
    ensures forall k :: HasTag(g, k) <==> k in keys
    ensures Sorting.SumOf(g, Count) == |keys|
  {
    if keys == [] then []
    else
      var n := |keys|;
      var prefix := keys[..n - 1];
      var k := keys[n - 1];
      assert keys == prefix + [k];
      var before := GroupCount(prefix);
      BumpFacts(before, k);
      Bump(before, k)
  }

  lemma SortedGroupsFacts<K>(keys: seq<K>, g: seq<Group<K>>, r: seq<Group<K>>)
    requires multiset(r) == multiset(g)
    requires forall i :: 0 <= i < |g| ==> g[i].count == multiset(keys)[g[i].tag]
    ensures forall i :: 0 <= i < |r| ==> r[i].count == multiset(keys)[r[i].tag]
    ensures forall k :: HasTag(r, k) <==> HasTag(g, k)
  {
    forall x ensures x in r <==> x in g {
      assert x in r <==> x in multiset(r);
      assert x in g <==> x in multiset(g);
    }
    forall k ensures HasTag(r, k) <==> HasTag(g, k) {
      if HasTag(r, k) {
        var i :| 0 <= i < |r| && r[i].tag == k;
        assert r[i] in g;
        var j :| 0 <= j < |g| && g[j] == r[i];
      }
      if HasTag(g, k) {
        var i :| 0 <= i < |g| && g[i].tag == k;
        assert g[i] in r;
        var j :| 0 <= j < |r| && r[j] == g[i];
      }
    }
    forall i | 0 <= i < |r| ensures r[i].count == multiset(keys)[r[i].tag] {
      assert r[i] in g;
      var j :| 0 <= j < |g| && g[j] == r[i];
    }
  }

  /** A grouped result ordered by `key` descending, with everything
      `GroupCount` promises carried over. */
  function SortedGroups<K(==,!new)>(keys: seq<K>, key: Group<K> -> int): (r: seq<Group<K>>)
    ensures Sorting.SortedDesc(r, key)
    ensures Sorting.DistinctBy(r, Tag)
    ensures forall i :: 0 <= i < |r| ==> r[i].count == multiset(keys)[r[i].tag]
    ensures forall k :: HasTag(r, k) <==> k in keys
    ensures Sorting.SumOf(r, Count) == |keys|
  {
    var g := GroupCount(keys);
    var r := Sorting.SortDesc(g, key);
    Sorting.SortDistinct(g, key, Tag);
    Sorting.SortSum(g, key, Count);
    SortedGroupsFacts(keys, g, r);
    r
  }

  /** The fields `Analytics.recordClick` inserts. */
  datatype ClickData = ClickData(
    code: string,
    ipAddress: string,
    userAgent: Option<string>,
    referrer: Option<string>,
    country: string,
    city: string,
    browser: string,
    os: string,
    device: string)

  /** The row `INSERT INTO analytics` stores, `clicked_at` defaulting to now. */
  function EventOf(data: ClickData, now: Timestamp): Event {
    Event(data.code, data.ipAddress, data.userAgent, data.referrer, data.country,
          data.city, data.browser, data.os, data.device, now)
  }

  /** `Analytics.recordClick`: appends one event stamped `now`. */
  function RecordClick(db: Db, data: ClickData, now: Timestamp): (r: Result<Db, Error>)
    ensures r.Failure? <==> !db.online
    ensures r.Failure? ==> r.error == ConnectionRefused
    ensures r.Success? ==>
      && r.value.urls == db.urls && r.value.online
      && |r.value.analytics| == |db.analytics| + 1
      && r.value.analytics[..|db.analytics|] == db.analytics
      && var e := r.value.analytics[|db.analytics|];
         e.code == data.code && e.ipAddress == data.ipAddress && e.userAgent == data.userAgent
         && e.referrer == data.referrer && e.country == data.country && e.city == data.city
         && e.browser == data.browser && e.os == data.os && e.device == data.device
         && e.clickedAt == now
  {
    if !db.online then Failure(ConnectionRefused)
    else Success(db.(analytics := db.analytics + [EventOf(data, now)]))
  }

  /** Recording a click adds one to its code's event count and to no other. */
  lemma {:induction false} RecordClickCounts(events: seq<Event>, e: Event, code: string)
    ensures UrlModel.EventCount(events + [e], code) ==
      UrlModel.EventCount(events, code) + (if e.code == code then 1 else 0)
  {
    if events != [] {
      RecordClickCounts(events[1..], e, code);
      assert (events + [e])[1..] == events[1..] + [e];
    } else {
      assert ([e])[1..] == [];
    }
  }

  /** The events of `code` whose `clicked_at` is at least `since`. */
  function EventsSince(events: seq<Event>, code: string, since: Timestamp): (r: seq<Event>)
    ensures forall e :: e in r <==> e in events && e.code == code && e.clickedAt >= since
    ensures |r| <= |events|
  {
    if events == [] then []
    else
      var rest := EventsSince(events[1..], code, since);
      assert forall e :: e in events <==> e == events[0] || e in events[1..];
      if events[0].code == code && events[0].clickedAt >= since then [events[0]] + rest else rest
  }

  /** The events of `code`, in table order. */
  function EventsOf(events: seq<Event>, code: string): (r: seq<Event>)
    ensures forall e :: e in r <==> e in events && e.code == code
    ensures |r| == UrlModel.EventCount(events, code)
  {
    if events == [] then []
    else
      var rest := EventsOf(events[1..], code);
      assert forall e :: e in events <==> e == events[0] || e in events[1..];
      if events[0].code == code then [events[0]] + rest else rest
  }

  function DayTag(g: Group<int>): int {
    g.tag
  }

  /** `Analytics.getClickStats`: the code's events of the last `days` days,
      counted per calendar day (`day` maps an instant to its date), newest
      date first. */
  function GetClickStats(db: Db, code: string, days: int, now: Timestamp, day: Timestamp -> int)
    : (r: Result<seq<Group<int>>, Error>)
    ensures r.Failure? <==> !db.online
    ensures r.Failure? ==> r.error == ConnectionRefused
    ensures r.Success? ==>
      var recent := EventsSince(db.analytics, code, now - days * DayMs);
      && (forall i, j :: 0 <= i < j < |r.value| ==> r.value[i].tag > r.value[j].tag)
      && (forall d :: HasTag(r.value, d) <==> exists e :: e in recent && day(e.clickedAt) == d)
      && (forall i :: 0 <= i < |r.value| ==>
            r.value[i].count == |EventsOnDay(recent, day, r.value[i].tag)|)
      && Sorting.SumOf(r.value, Count) == |recent|
  {
    if !db.online then Failure(ConnectionRefused)
    else
      var recent := EventsSince(db.analytics, code, now - days * DayMs);
      var keys := seq(|recent|, i requires 0 <= i < |recent| => day(recent[i].clickedAt));
      var r := SortedGroups(keys, DayTag);
      ClickStatsFacts(recent, day, keys, r);
      Success(r)
  }

  /** The events among `evs` that fall on date `d`. */
  function EventsOnDay(evs: seq<Event>, day: Timestamp -> int, d: int): seq<Event> {
    if evs == [] then []
    else (if day(evs[0].clickedAt) == d then [evs[0]] else []) + EventsOnDay(evs[1..], day, d)
  }

  lemma {:induction false} OccurrencesOnDay(evs: seq<Event>, day: Timestamp -> int, d: int)
    ensures multiset(seq(|evs|, i requires 0 <= i < |evs| => day(evs[i].clickedAt)))[d] ==
      |EventsOnDay(evs, day, d)|
  {
    var keys := seq(|evs|, i requires 0 <= i < |evs| => day(evs[i].clickedAt));
    if evs != [] {
      OccurrencesOnDay(evs[1..], day, d);
      var tail := seq(|evs[1..]|, i requires 0 <= i < |evs[1..]| => day(evs[1..][i].clickedAt));
      assert keys == [keys[0]] + tail;
    }
  }

  lemma ClickStatsFacts(recent: seq<Event>, day: Timestamp -> int, keys: seq<int>, r: seq<Group<int>>)
    requires keys == seq(|recent|, i requires 0 <= i < |recent| => day(recent[i].clickedAt))
    requires Sorting.SortedDesc(r, DayTag) && Sorting.DistinctBy(r, Tag)
    requires forall i :: 0 <= i < |r| ==> r[i].count == multiset(keys)[r[i].tag]
    requires forall k :: HasTag(r, k) <==> k in keys
    ensures forall i, j :: 0 <= i < j < |r| ==> r[i].tag > r[j].tag
    ensures forall d :: HasTag(r, d) <==> exists e :: e in recent && day(e.clickedAt) == d
    ensures forall i :: 0 <= i < |r| ==> r[i].count == |EventsOnDay(recent, day, r[i].tag)|
  {
    forall i, j | 0 <= i < j < |r| ensures r[i].tag > r[j].tag {
      assert DayTag(r[i]) >= DayTag(r[j]) && Tag(r[i]) != Tag(r[j]);
    }
    forall d ensures d in keys <==> exists e :: e in recent && day(e.clickedAt) == d {
      if d in keys {
        var i :| 0 <= i < |keys| && keys[i] == d;
        assert recent[i] in recent;
      }
      if exists e :: e in recent && day(e.clickedAt) == d {
        var e :| e in recent && day(e.clickedAt) == d;
        var i :| 0 <= i < |recent| && recent[i] == e;
        assert keys[i] == d;
      }
    }
    forall i | 0 <= i < |r| ensures r[i].count == |EventsOnDay(recent, day, r[i].tag)| {
      OccurrencesOnDay(recent, day, r[i].tag);
    }
  }

  /** One column of a sequence of events. */
  function Column<K>(evs: seq<Event>, f: Event -> K): (r: seq<K>)
    ensures |r| == |evs|
    ensures forall i :: 0 <= i < |evs| ==> r[i] == f(evs[i])
  {
    seq(|evs|, i requires 0 <= i < |evs| => f(evs[i]))
  }

  lemma ColumnMembers<K>(evs: seq<Event>, f: Event -> K)
    ensures forall k :: k in Column(evs, f) <==> exists e :: e in evs && f(e) == k
  {
    var c := Column(evs, f);
    forall k ensures k in c <==> exists e :: e in evs && f(e) == k {
      if k in c {
        var i :| 0 <= i < |c| && c[i] == k;
        assert evs[i] in evs;
      }
      if exists e :: e in evs && f(e) == k {
        var e :| e in evs && f(e) == k;
        var i :| 0 <= i < |evs| && evs[i] == e;
        assert c[i] == k;
      }
    }
  }

  function Browser(e: Event): string {
    e.browser
  }

  /** `Analytics.getBrowserStats`: one row per browser among the code's
      events, most clicks first; the counts add up to the code's events. */
  function GetBrowserStats(db: Db, code: string): (r: Result<seq<Group<string>>, Error>)
    ensures r.Failure? <==> !db.online
    ensures r.Failure? ==> r.error == ConnectionRefused
    ensures r.Success? ==>
      var browsers := Column(EventsOf(db.analytics, code), Browser);
      && Sorting.SortedDesc(r.value, Count)
      && Sorting.DistinctBy(r.value, Tag)
      && (forall i :: 0 <= i < |r.value| ==> r.value[i].count == multiset(browsers)[r.value[i].tag])
      && (forall b :: HasTag(r.value, b) <==> exists e :: e in db.analytics && e.code == code && e.browser == b)
      && Sorting.SumOf(r.value, Count) == UrlModel.EventCount(db.analytics, code)
  {
    if !db.online then Failure(ConnectionRefused)
    else
      var evs := EventsOf(db.analytics, code);
      ColumnMembers(evs, Browser);
      Success(SortedGroups(Column(evs, Browser), Count))
  }

  /** The `(country, city)` pair `getLocationStats` groups by. */
  datatype Place = Place(country: string, city: string)

  function PlaceOf(e: Event): Place {
    Place(e.country, e.city)
  }

  const LocationRows: nat := 50

  /** `Analytics.getLocationStats`: per-(country, city) counts for the code,
      most clicks first, at most 50 rows; every pair left out has no more
      clicks than any pair kept. */
  function GetLocationStats(db: Db, code: string): (r: Result<seq<Group<Place>>, Error>)
    ensures r.Failure? <==> !db.online
    ensures r.Failure? ==> r.error == ConnectionRefused
    ensures r.Success? ==>
      var places := Column(EventsOf(db.analytics, code), PlaceOf);
      && |r.value| <= LocationRows
      && Sorting.SortedDesc(r.value, Count)
      && Sorting.DistinctBy(r.value, Tag)
      && (forall i :: 0 <= i < |r.value| ==> r.value[i].count == multiset(places)[r.value[i].tag])
      && (forall p :: HasTag(r.value, p) ==> p in places)
      && (forall p :: p in places && !HasTag(r.value, p) ==>
            |r.value| == LocationRows &&
            forall i :: 0 <= i < |r.value| ==> r.value[i].count >= multiset(places)[p])
  {
    if !db.online then Failure(ConnectionRefused)
    else
      var places := Column(EventsOf(db.analytics, code), PlaceOf);
      var all := SortedGroups(places, Count);
      var top := Sorting.Window(all, LocationRows, 0);
      TopRowsFacts(places, all, top);
      Success(top)
  }

  lemma TopRowsFacts(places: seq<Place>, all: seq<Group<Place>>, top: seq<Group<Place>>)
    requires Sorting.SortedDesc(all, Count) && Sorting.DistinctBy(all, Tag)
    requires forall i :: 0 <= i < |all| ==> all[i].count == multiset(places)[all[i].tag]
    requires forall k :: HasTag(all, k) <==> k in places
    requires top == Sorting.Window(all, LocationRows, 0)
    ensures Sorting.SortedDesc(top, Count) && Sorting.DistinctBy(top, Tag)
    ensures forall i :: 0 <= i < |top| ==> top[i].count == multiset(places)[top[i].tag]
    ensures forall p :: HasTag(top, p) ==> p in places
    ensures forall p :: p in places && !HasTag(top, p) ==>
      |top| == LocationRows && forall i :: 0 <= i < |top| ==> top[i].count >= multiset(places)[p]
  {
    assert forall i :: 0 <= i < |top| ==> top[i] == all[i];
    forall p | HasTag(top, p) ensures p in places {
      var i :| 0 <= i < |top| && top[i].tag == p;
      assert HasTag(all, p);
    }
    forall p | p in places && !HasTag(top, p)
      ensures |top| == LocationRows && forall i :: 0 <= i < |top| ==> top[i].count >= multiset(places)[p]
    {
      var j :| 0 <= j < |all| && all[j].tag == p;
      assert j >= |top|;
    }
  }

  function ClickedAt(e: Event): int {
    e.clickedAt
  }

  /** `Analytics.getDetailedAnalytics`: the code's events, newest first,
      then `LIMIT limit OFFSET offset`. PostgreSQL rejects negative bounds,
      and checks the offset before the limit. */
  function GetDetailedAnalytics(db: Db, code: string, limit: int, offset: int): (r: Result<seq<Event>, Error>)
    ensures !db.online ==> r == Failure(ConnectionRefused)
    ensures db.online && offset < 0 ==> r == Failure(NegativeOffset)
    ensures db.online && offset >= 0 && limit < 0 ==> r == Failure(NegativeLimit)
    ensures r.Success? <==> db.online && limit >= 0 && offset >= 0
    ensures r.Success? ==>
      var total := UrlModel.EventCount(db.analytics, code);
      && |r.value| <= limit
      && |r.value| == (if offset >= total then 0 else if total - offset < limit then total - offset else limit)
      && Sorting.SortedDesc(r.value, ClickedAt)
      && forall e :: e in r.value ==> e in db.analytics && e.code == code
  {
    if !db.online then Failure(ConnectionRefused)
    else if offset < 0 then Failure(NegativeOffset)
    else if limit < 0 then Failure(NegativeLimit)
    else
      var evs := EventsOf(db.analytics, code);
      Sorting.WindowOfSorted(evs, ClickedAt, limit, offset);
      Success(Sorting.Window(Sorting.SortDesc(evs, ClickedAt), limit, offset))
  }

  /** The page is the window at `offset` of the code's events, newest
      first: it starts after exactly `offset` of them. */
  lemma DetailedIsWindow(db: Db, code: string, limit: nat, offset: nat)
    requires db.online
    ensures GetDetailedAnalytics(db, code, limit, offset).Success?
    ensures Sorting.IsSortedWindow(GetDetailedAnalytics(db, code, limit, offset).value,
                                   EventsOf(db.analytics, code), ClickedAt, limit, offset)
  {
    Sorting.SortedWindowOf(EventsOf(db.analytics, code), ClickedAt, limit, offset);
  }
}
