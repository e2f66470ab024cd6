/** Ordering, paging and summing helpers for the SQL `ORDER BY ... DESC`,
    `LIMIT`/`OFFSET` and `COUNT` clauses of the store queries. */
module Sorting {

  /** `s` is ordered by `key`, largest first. */
  ghost predicate SortedDesc<T>(s: seq<T>, key: T -> int) {
    forall i, j :: 0 <= i < j < |s| ==> key(s[i]) >= key(s[j])
  }

  /** No two elements of `s` share a `tag`. */
  ghost predicate DistinctBy<T, K>(s: seq<T>, tag: T -> K) {
    forall i, j :: 0 <= i < j < |s| ==> tag(s[i]) != tag(s[j])
  }

  /** Inserts `x` into a descending sequence in front of the first element
      whose key is not larger than `x`'s. */
  function Insert<T>(x: T, s: seq<T>, key: T -> int): (r: seq<T>)
    requires SortedDesc(s, key)
    ensures |r| == |s| + 1
    ensures multiset(r) == multiset(s) + multiset{x}
    ensures SortedDesc(r, key)
  {
    if s == [] || key(x) >= key(s[0]) then
      [x] + s
    else
      var rest := Insert(x, s[1..], key);
      assert s == [s[0]] + s[1..];
      HeadDominates(x, s, rest, key);
      [s[0]] + rest
  }

  /** The step case of `Insert`: the head of `s` may stay in front. */
  lemma HeadDominates<T>(x: T, s: seq<T>, rest: seq<T>, key: T -> int)
    requires s != [] && key(x) < key(s[0])
    requires SortedDesc(s, key) && SortedDesc(rest, key)
    requires multiset(rest) == multiset(s[1..]) + multiset{x}
    ensures SortedDesc([s[0]] + rest, key)
  {
    var r := [s[0]] + rest;
    forall j | 1 <= j < |r| ensures key(r[j]) <= key(s[0]) {
      var y := r[j];
      assert y == rest[j - 1];
      assert y in multiset(rest);
      if y != x {
        assert y in multiset(s[1..]);
        var k :| 0 <= k < |s[1..]| && s[1..][k] == y;
        assert s[k + 1] == y;
      }
    }
    forall i, j | 0 <= i < j < |r| ensures key(r[i]) >= key(r[j]) {
      if i > 0 {
        assert r[i] == rest[i - 1] && r[j] == rest[j - 1];
      }
    }
  }

  /** A stable insertion sort, largest key first. */
  function SortDesc<T>(s: seq<T>, key: T -> int): (r: seq<T>)
    ensures |r| == |s|
    ensures multiset(r) == multiset(s)
    ensures SortedDesc(r, key)
  {
    if s == [] then []
    else
      assert s == [s[0]] + s[1..];
      Insert(s[0], SortDesc(s[1..], key), key)
  }

  /** SQL `LIMIT limit OFFSET offset` over an ordered result. */
  function Window<T>(s: seq<T>, limit: nat, offset: nat): (r: seq<T>)
    ensures |r| <= limit
    ensures offset >= |s| ==> r == []
    ensures offset < |s| ==> |r| == if |s| - offset < limit then |s| - offset else limit
    ensures forall i :: 0 <= i < |r| ==> offset + i < |s| && r[i] == s[offset + i]
  {
    if offset >= |s| then []
    else if |s| - offset < limit then s[offset..]
    else s[offset..offset + limit]
  }

  /** `page` is `LIMIT limit OFFSET offset` over some arrangement of `s`
      in descending `key` order. Which of several elements with equal keys
      comes first is left open, as SQL leaves it. */
  ghost predicate IsSortedWindow<T(!new)>(page: seq<T>, s: seq<T>, key: T -> int, limit: nat, offset: nat) {
    exists sorted :: multiset(sorted) == multiset(s) && SortedDesc(sorted, key) && page == Window(sorted, limit, offset)
  }

  /** A window of `SortDesc` is such a page. */
  lemma SortedWindowOf<T(!new)>(s: seq<T>, key: T -> int, limit: nat, offset: nat)
    ensures IsSortedWindow(Window(SortDesc(s, key), limit, offset), s, key, limit, offset)
  {
    var sorted := SortDesc(s, key);
    assert multiset(sorted) == multiset(s) && SortedDesc(sorted, key);
  }

  /** Elements with equal keys are equal: `ORDER BY key` leaves nothing to
      chance. */
  ghost predicate KeyDetermines<T>(s: seq<T>, key: T -> int) {
    forall i, j :: 0 <= i < |s| && 0 <= j < |s| && key(s[i]) == key(s[j]) ==> s[i] == s[j]
  }

  /** `KeyDetermines` is a property of the elements, not of their order. */
  lemma KeyDeterminesSameElements<T>(a: seq<T>, b: seq<T>, key: T -> int)
    requires multiset(a) == multiset(b) && KeyDetermines(a, key)
    ensures KeyDetermines(b, key)
  {
    forall i, j | 0 <= i < |b| && 0 <= j < |b| && key(b[i]) == key(b[j]) ensures b[i] == b[j] {
      assert b[i] in multiset(b) && b[j] in multiset(b);
      var k :| 0 <= k < |a| && a[k] == b[i];
      var m :| 0 <= m < |a| && a[m] == b[j];
    }
  }

  /** When keys determine elements, there is only one descending
      arrangement of a collection. */
  lemma {:induction false} SortedDescUnique<T>(a: seq<T>, b: seq<T>, key: T -> int)
    requires multiset(a) == multiset(b)
    requires SortedDesc(a, key) && SortedDesc(b, key) && KeyDetermines(a, key)
    ensures a == b
    decreases |a|
  {
    assert |a| == |multiset(a)| == |multiset(b)| == |b|;
    if a != [] {
      SameHead(a, b, key);
      SameTail(a, b);
      assert SortedDesc(a[1..], key) && SortedDesc(b[1..], key);
      assert KeyDetermines(a[1..], key);
      SortedDescUnique(a[1..], b[1..], key);
      assert a == [a[0]] + a[1..] && b == [b[0]] + b[1..];
    }
  }

  /** The step case of `SortedDescUnique`: both arrangements start with the
      element of largest key. */
  lemma SameHead<T>(a: seq<T>, b: seq<T>, key: T -> int)
    requires a != [] && b != [] && multiset(a) == multiset(b)
    requires SortedDesc(a, key) && SortedDesc(b, key) && KeyDetermines(a, key)
    ensures a[0] == b[0]
  {
    assert a[0] in multiset(b) && b[0] in multiset(a);
    var k :| 0 <= k < |a| && a[k] == b[0];
    var m :| 0 <= m < |b| && b[m] == a[0];
    assert key(a[0]) >= key(a[k]) && key(b[0]) >= key(b[m]);
  }

  /** Taking one common head off two arrangements of the same elements
      leaves arrangements of the same elements. */
  lemma SameTail<T>(a: seq<T>, b: seq<T>)
    requires a != [] && b != [] && multiset(a) == multiset(b) && a[0] == b[0]
    ensures multiset(a[1..]) == multiset(b[1..])
  {
    assert a == [a[0]] + a[1..] && b == [b[0]] + b[1..];
    assert multiset(a) == multiset{a[0]} + multiset(a[1..]);
    assert multiset(b) == multiset{b[0]} + multiset(b[1..]);
    forall y ensures multiset(a[1..])[y] == multiset(b[1..])[y] {
      assert multiset(a)[y] == multiset{a[0]}[y] + multiset(a[1..])[y];
      assert multiset(b)[y] == multiset{a[0]}[y] + multiset(b[1..])[y];
    }
  }

  /** When keys determine elements, every page the database may return is
      the page of the one descending arrangement. */
  lemma DeterminedWindow<T(!new)>(page: seq<T>, s: seq<T>, key: T -> int, limit: nat, offset: nat)
    requires KeyDetermines(s, key) && IsSortedWindow(page, s, key, limit, offset)
    ensures page == Window(SortDesc(s, key), limit, offset)
  {
    var sorted :| multiset(sorted) == multiset(s) && SortedDesc(sorted, key) && page == Window(sorted, limit, offset);
    KeyDeterminesSameElements(s, sorted, key);
    SortedDescUnique(sorted, SortDesc(s, key), key);
  }

  /** With two elements under one key, the database may answer the first
      page and the second page with the same element: each is a valid
      window on its own, but together they repeat 1 and skip 2. */
  lemma TiedPagesMayRepeat()
    ensures IsSortedWindow([1], [1, 2], (x: int) => 0, 1, 0)
    ensures IsSortedWindow([1], [1, 2], (x: int) => 0, 1, 1)
    ensures !IsSortedWindow([1] + [1], [1, 2], (x: int) => 0, 2, 0)
  {
    var key := (x: int) => 0;
    assert multiset([1, 2]) == multiset([2, 1]);
    assert SortedDesc([1, 2], key) && Window([1, 2], 1, 0) == [1];
    assert SortedDesc([2, 1], key) && Window([2, 1], 1, 1) == [1];
    forall sorted | multiset(sorted) == multiset([1, 2])
      ensures Window(sorted, 2, 0) != [1, 1]
    {
      assert |sorted| == |multiset(sorted)| == 2;
      assert Window(sorted, 2, 0) == sorted;
      assert multiset([1, 1])[2] == 0;
    }
  }

  /** Two adjacent windows of one width make up the window twice as wide:
      consecutive pages neither overlap nor skip anything. */
  lemma WindowsTile<T>(s: seq<T>, limit: nat, offset: nat)
    ensures Window(s, limit, offset) + Window(s, limit, offset + limit) == Window(s, 2 * limit, offset)
  {
    var a, b, c := Window(s, limit, offset), Window(s, limit, offset + limit), Window(s, 2 * limit, offset);
    assert |a + b| == |c|;
    forall i | 0 <= i < |c| ensures (a + b)[i] == c[i] {
      if i >= |a| {
        assert |a| == limit;
      }
    }
  }

  /** Sum of `w` over the elements of `s`. */
  function SumOf<T>(s: seq<T>, w: T -> int): int {
    if s == [] then 0 else w(s[0]) + SumOf(s[1..], w)
  }

  lemma {:induction false} InsertSum<T>(x: T, s: seq<T>, key: T -> int, w: T -> int)
    requires SortedDesc(s, key)
    ensures SumOf(Insert(x, s, key), w) == w(x) + SumOf(s, w)
  {
    if s == [] || key(x) >= key(s[0]) {
      assert ([x] + s)[1..] == s;
    } else {
      InsertSum(x, s[1..], key, w);
      assert ([s[0]] + Insert(x, s[1..], key))[1..] == Insert(x, s[1..], key);
    }
  }

  /** Sorting does not change a sum. */
  lemma {:induction false} SortSum<T>(s: seq<T>, key: T -> int, w: T -> int)
    ensures SumOf(SortDesc(s, key), w) == SumOf(s, w)
  {
    if s != [] {
      SortSum(s[1..], key, w);
      InsertSum(s[0], SortDesc(s[1..], key), key, w);
    }
  }

  lemma {:induction false} InsertDistinct<T, K>(x: T, s: seq<T>, key: T -> int, tag: T -> K)
    requires SortedDesc(s, key)
    requires DistinctBy(s, tag)
    requires forall y :: y in s ==> tag(y) != tag(x)
    ensures DistinctBy(Insert(x, s, key), tag)
  {
    if s != [] && key(x) < key(s[0]) {
      InsertDistinct(x, s[1..], key, tag);
      HeadDistinct(x, s, Insert(x, s[1..], key), tag);
    }
  }

  /** The step case of `InsertDistinct`: the head of `s` keeps its label
      to itself in front of the rest. */
  lemma HeadDistinct<T, K>(x: T, s: seq<T>, rest: seq<T>, tag: T -> K)
    requires s != [] && DistinctBy(s, tag) && DistinctBy(rest, tag)
    requires tag(x) != tag(s[0])
    requires multiset(rest) == multiset(s[1..]) + multiset{x}
    ensures DistinctBy([s[0]] + rest, tag)
  {
    forall y | y in rest ensures tag(y) != tag(s[0]) {
      assert y in multiset(rest);
      if y != x {
        assert y in multiset(s[1..]);
        var j :| 1 <= j < |s| && s[j] == y;
      }
    }
    var r := [s[0]] + rest;
    forall i, j | 0 <= i < j < |r| ensures tag(r[i]) != tag(r[j]) {
      if i == 0 {
        assert r[j] == rest[j - 1];
      } else {
        assert r[i] == rest[i - 1] && r[j] == rest[j - 1];
      }
    }
  }

  /** Sorting keeps labels distinct. */
  lemma {:induction false} SortDistinct<T, K>(s: seq<T>, key: T -> int, tag: T -> K)
    requires DistinctBy(s, tag)
    ensures DistinctBy(SortDesc(s, key), tag)
  {
    if s != [] {
      var tail := s[1..];
      SortDistinct(tail, key, tag);
      var sorted := SortDesc(tail, key);
      forall y | y in sorted ensures tag(y) != tag(s[0]) {
        assert y in multiset(sorted);
        var j :| 0 <= j < |tail| && tail[j] == y;
        assert s[j + 1] == y;
      }
      InsertDistinct(s[0], sorted, key, tag);
    }
  }

  /** A page of a sorted result is sorted and holds only input elements. */
  lemma WindowOfSorted<T>(s: seq<T>, key: T -> int, limit: nat, offset: nat)
    ensures SortedDesc(Window(SortDesc(s, key), limit, offset), key)
    ensures forall x :: x in Window(SortDesc(s, key), limit, offset) ==> x in s
  {
    var sorted := SortDesc(s, key);
    var page := Window(sorted, limit, offset);
    forall x | x in page ensures x in s {
      var i :| 0 <= i < |page| && page[i] == x;
      assert sorted[offset + i] == x;
      assert x in multiset(sorted);
    }
    forall i, j | 0 <= i < j < |page| ensures key(page[i]) >= key(page[j]) {
      assert page[i] == sorted[offset + i] && page[j] == sorted[offset + j];
    }
  }
}
