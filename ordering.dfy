/** What the handlers need of Django's QuerySet: the rows of a table in
    primary-key order, filtering, `order_by` on a key, and slicing. */
module Ordering {
  import opened Common

  /** One row of a table together with its primary key. */
  datatype Entry<T> = Entry(id: Id, row: T)

  // ---------------------------------------------------------------------------
  // Rows of a table in primary-key order

  /** The rows of a table whose keys lie below `bound`, in primary-key
      order: the order in which an unordered QuerySet lists them. */
  function Rows<T>(m: map<Id, T>, bound: nat): seq<Entry<T>> {
    if bound == 0 then []
    else
      var k := bound - 1;
      Rows(m, k) + (if k in m then [Entry(k, m[k])] else [])
  }

  /** Entry `i` of the listing is a row of the table below the bound. */
  ghost predicate RowAt<T>(m: map<Id, T>, bound: nat, i: nat)
    requires i < |Rows(m, bound)|
  {
    var e := Rows(m, bound)[i];
    e.id in m && e.id < bound && e.row == m[e.id]
  }

  /** `Rows` lists every row below the bound once, with its key, in
      ascending key order. */
  lemma RowsSpec<T>(m: map<Id, T>, bound: nat)
    ensures forall i :: 0 <= i < |Rows(m, bound)| ==> RowAt(m, bound, i)
    ensures forall k :: k in m && k < bound ==> Entry(k, m[k]) in Rows(m, bound)
    ensures forall i, j :: 0 <= i < j < |Rows(m, bound)| ==> Rows(m, bound)[i].id < Rows(m, bound)[j].id
  {
    RowsMembers(m, bound);
    RowsComplete(m, bound);
    RowsAscending(m, bound);
  }

  /** Every entry of the listing is a row of the table below the bound. */
  lemma {:induction false} RowsMembers<T>(m: map<Id, T>, bound: nat)
    ensures forall i :: 0 <= i < |Rows(m, bound)| ==> RowAt(m, bound, i)
  {
    if bound > 0 {
      var k := bound - 1;
      RowsMembers(m, k);
      var prev := Rows(m, k);
      var r := Rows(m, bound);
      assert r == prev + (if k in m then [Entry(k, m[k])] else []);
      forall i | 0 <= i < |r| ensures RowAt(m, bound, i) {
        if i < |prev| {
          assert RowAt(m, k, i);
          assert r[i] == prev[i];
        } else {
          assert k in m && r[i] == Entry(k, m[k]);
        }
      }
    }
  }

  /** Every row below the bound is listed. */
  lemma {:induction false} RowsComplete<T>(m: map<Id, T>, bound: nat)
    ensures forall k :: k in m && k < bound ==> Entry(k, m[k]) in Rows(m, bound)
  {
    if bound > 0 {
      var k := bound - 1;
      RowsComplete(m, k);
      var prev := Rows(m, k);
      var r := Rows(m, bound);
      assert r == prev + (if k in m then [Entry(k, m[k])] else []);
      forall x | x in m && x < bound ensures Entry(x, m[x]) in r {
        if x < k {
          assert Entry(x, m[x]) in prev;
        } else {
          assert r[|r| - 1] == Entry(x, m[x]);
        }
      }
    }
  }

  /** The listing is in strictly ascending key order. */
  lemma {:induction false} RowsAscending<T>(m: map<Id, T>, bound: nat)
    ensures forall i, j :: 0 <= i < j < |Rows(m, bound)| ==> Rows(m, bound)[i].id < Rows(m, bound)[j].id
  {
    if bound > 0 {
      var k := bound - 1;
      RowsAscending(m, k);
      RowsMembers(m, k);
      var prev := Rows(m, k);
      var r := Rows(m, bound);
      assert r == prev + (if k in m then [Entry(k, m[k])] else []);
      forall i, j | 0 <= i < j < |r| ensures r[i].id < r[j].id {
        assert RowAt(m, k, i);
        if j < |prev| {
          assert r[i] == prev[i] && r[j] == prev[j];
        } else {
          assert r[j] == Entry(k, m[k]);
        }
      }
    }
  }

  /** Two tables that agree below `bound` list the same rows below it. */
  lemma {:induction false} RowsAgree<T>(m1: map<Id, T>, m2: map<Id, T>, bound: nat)
    requires forall k :: k < bound ==> (k in m1 <==> k in m2)
    requires forall k :: k < bound && k in m1 ==> m1[k] == m2[k]
    ensures Rows(m1, bound) == Rows(m2, bound)
  {
    if bound > 0 {
      RowsAgree(m1, m2, bound - 1);
    }
  }

  /** A table with no key below `bound` lists no rows below it. */
  lemma {:induction false} RowsNone<T>(m: map<Id, T>, bound: nat)
    requires forall k :: k in m ==> k >= bound
    ensures Rows(m, bound) == []
  {
    if bound > 0 {
      RowsNone(m, bound - 1);
    }
  }

  /** A listing has no more rows than the table. */
  lemma RowsCount<T>(m: map<Id, T>, bound: nat)
    ensures |Rows(m, bound)| <= |m|
  {
    RowsSpec(m, bound);
    var r := Rows(m, bound);
    DistinctIdsCount(r);
    var ids := set x | x in r :: x.id;
    forall x | x in r ensures x.id in m {
      var i :| 0 <= i < |r| && r[i] == x;
      assert RowAt(m, bound, i);
    }
    assert ids <= m.Keys;
    SubsetSize(ids, m.Keys);
  }

  /** With every key below the bound, the listing has one entry per row. */
  lemma RowsCountExact<T>(m: map<Id, T>, bound: nat)
    requires forall k :: k in m ==> k < bound
    ensures |Rows(m, bound)| == |m|
  {
    RowsSpec(m, bound);
    var r := Rows(m, bound);
    assert DistinctIds(r);
    DistinctIdsCount(r);
    var ids := set x | x in r :: x.id;
    forall x | x in r ensures x.id in m {
      var i :| 0 <= i < |r| && r[i] == x;
      assert RowAt(m, bound, i);
    }
    forall k | k in m ensures k in ids {
      assert Entry(k, m[k]) in r;
    }
    assert ids == m.Keys;
  }

  /** A row added under a key above every other key comes last. */
  lemma RowsExtend<T>(m: map<Id, T>, m': map<Id, T>, bound: nat, v: T)
    requires forall k :: k in m ==> k < bound
    requires m' == m[bound := v]
    ensures Rows(m', bound + 1) == Rows(m, bound) + [Entry(bound, v)]
  {
    RowsAgree(m', m, bound);
  }

  /** The rows `vs` under consecutive keys from `base`. */
  function Run<T>(base: nat, vs: seq<T>): (r: seq<Entry<T>>)
    ensures |r| == |vs|
    ensures forall i :: 0 <= i < |vs| ==> r[i] == Entry(base + i, vs[i])
  {
    if vs == [] then [] else Run(base, vs[..|vs| - 1]) + [Entry(base + |vs| - 1, vs[|vs| - 1])]
  }

  /** A table whose keys are the run `base`, `base + 1`, ... lists its rows
      in the order of the run. */
  lemma {:induction false} RowsOfRun<T>(m: map<Id, T>, base: nat, vs: seq<T>)
    requires forall k :: k in m <==> base <= k < base + |vs|
    requires forall i :: 0 <= i < |vs| ==> m[base + i] == vs[i]
    ensures Rows(m, base + |vs|) == Run(base, vs)
  {
    if vs == [] {
      RowsNone(m, base);
    } else {
      var n := |vs| - 1;
      var m' := m - {base + n};
      assert forall k :: k in m' <==> base <= k < base + n;
      forall i | 0 <= i < n ensures m'[base + i] == vs[..n][i] {
        assert m[base + i] == vs[i];
      }
      RowsOfRun(m', base, vs[..n]);
      assert m == m'[base + n := vs[n]];
      RowsExtend(m', m, base + n, vs[n]);
      assert Run(base, vs) == Run(base, vs[..n]) + [Entry(base + n, vs[n])];
    }
  }

  /** No primary key occurs twice. */
  predicate DistinctIds<T>(s: seq<Entry<T>>) {
    forall i, j :: 0 <= i < j < |s| ==> s[i].id != s[j].id
  }

  /** `.filter(...)`: keep, in order, the rows satisfying `p`. */
  function Filter<T>(s: seq<Entry<T>>, p: Entry<T> -> bool): (r: seq<Entry<T>>)
    ensures |r| <= |s|
    ensures forall x :: x in r ==> x in s && p(x)
    ensures forall x :: x in s && p(x) ==> x in r
  {
    if s == [] then []
    else
      var rest := Filter(s[1..], p);
      if p(s[0]) then [s[0]] + rest else rest
  }

  /** Filtering keeps keys distinct. */
  lemma {:induction false} FilterDistinct<T>(s: seq<Entry<T>>, p: Entry<T> -> bool)
    requires DistinctIds(s)
    ensures DistinctIds(Filter(s, p))
  {
    if s != [] {
      var tail := s[1..];
      assert DistinctIds(tail) by {
        forall i, j | 0 <= i < j < |tail| ensures tail[i].id != tail[j].id {
          assert tail[i] == s[i + 1] && tail[j] == s[j + 1];
        }
      }
      FilterDistinct(tail, p);
      var rest := Filter(tail, p);
      if p(s[0]) {
        forall j | 0 <= j < |rest| ensures rest[j].id != s[0].id {
          assert rest[j] in tail;
          var k :| 0 <= k < |tail| && tail[k] == rest[j];
          assert s[k + 1] == rest[j];
        }
        var r := [s[0]] + rest;
        forall i, j | 0 <= i < j < |r| ensures r[i].id != r[j].id {
          if i == 0 {
            assert r[j] == rest[j - 1];
          } else {
            assert r[i] == rest[i - 1] && r[j] == rest[j - 1];
          }
        }
      }
    }
  }

  /** A sequence of rows with distinct keys has as many elements as it has
      keys. */
  lemma {:induction false} DistinctIdsCount<T>(s: seq<Entry<T>>)
    requires DistinctIds(s)
    ensures |s| == |set x | x in s :: x.id|
  {
    if s != [] {
      DistinctIdsCount(s[1..]);
      var rest := set x | x in s[1..] :: x.id;
      assert (set x | x in s :: x.id) == {s[0].id} + rest;
      forall x | x in s[1..] ensures x.id != s[0].id {
        var j :| 0 <= j < |s[1..]| && s[1..][j] == x;
        assert s[j + 1] == x;
      }
      assert s[0].id !in rest;
    }
  }

  /** Filtering the listing of a table keeps exactly the rows satisfying
      `p`, once each. */
  lemma FilterRows<T>(m: map<Id, T>, bound: nat, p: Entry<T> -> bool)
    requires forall k :: k in m ==> k < bound
    ensures forall e :: e in Filter(Rows(m, bound), p) ==> e.id in m && e.row == m[e.id] && p(e)
    ensures forall k :: k in m && p(Entry(k, m[k])) ==> Entry(k, m[k]) in Filter(Rows(m, bound), p)
    ensures |Filter(Rows(m, bound), p)| == |set k | k in m && p(Entry(k, m[k]))|
  {
    FilterRowsMembers(m, bound, p);
    var rows := Filter(Rows(m, bound), p);
    DistinctIdsCount(rows);
    var ids := set x | x in rows :: x.id;
    assert ids == set k | k in m && p(Entry(k, m[k])) by {
      forall k | k in m && p(Entry(k, m[k])) ensures k in ids {
        assert Entry(k, m[k]) in rows;
      }
    }
  }

  lemma FilterRowsMembers<T>(m: map<Id, T>, bound: nat, p: Entry<T> -> bool)
    requires forall k :: k in m ==> k < bound
    ensures forall e :: e in Filter(Rows(m, bound), p) ==> e.id in m && e.row == m[e.id] && p(e)
    ensures forall k :: k in m && p(Entry(k, m[k])) ==> Entry(k, m[k]) in Filter(Rows(m, bound), p)
    ensures DistinctIds(Filter(Rows(m, bound), p))
  {
    var all := Rows(m, bound);
    var rows := Filter(all, p);
    RowsSpec(m, bound);
    forall e | e in rows ensures e.id in m && e.row == m[e.id] {
      assert e in all;
      var i :| 0 <= i < |all| && all[i] == e;
      assert RowAt(m, bound, i);
    }
    forall k | k in m && p(Entry(k, m[k])) ensures Entry(k, m[k]) in rows {
      assert Entry(k, m[k]) in all;
    }
    assert DistinctIds(all);
    FilterDistinct(all, p);
  }

  // ---------------------------------------------------------------------------
  // order_by on a key

  predicate SortedOn<T>(s: seq<T>, key: T -> real) {
    forall i, j :: 0 <= i < j < |s| ==> key(s[i]) <= key(s[j])
  }

  function Insert<T>(x: T, s: seq<T>, key: T -> real): (r: seq<T>)
    requires SortedOn(s, key)
    ensures |r| == |s| + 1
    ensures multiset(r) == multiset(s) + multiset{x}
    ensures SortedOn(r, key)
  {
    if s == [] then [x]
    else if key(x) <= key(s[0]) then [x] + s
    else
      var rest := Insert(x, s[1..], key);
      assert s == [s[0]] + s[1..];
      HeadBelowInsert(s, x, rest, key);
      [s[0]] + rest
  }

  /** The head of a sorted list is no larger than anything in the rest with
      a larger `x` inserted. */
  lemma HeadBelowInsert<T>(s: seq<T>, x: T, rest: seq<T>, key: T -> real)
    requires s != [] && SortedOn(s, key) && key(s[0]) < key(x)
    requires multiset(rest) == multiset(s[1..]) + multiset{x}
    ensures forall k :: 0 <= k < |rest| ==> key(s[0]) <= key(rest[k])
  {
    forall k | 0 <= k < |rest| ensures key(s[0]) <= key(rest[k]) {
      assert rest[k] in multiset(rest);
      if rest[k] != x {
        assert rest[k] in multiset(s[1..]);
        var j :| 0 <= j < |s[1..]| && s[1..][j] == rest[k];
        assert s[j + 1] == rest[k];
      }
    }
  }

  /** `.order_by(key)`: a stable insertion sort, ascending on `key`. */
  function SortBy<T>(s: seq<T>, key: T -> real): (r: seq<T>)
    ensures |r| == |s|
    ensures multiset(r) == multiset(s)
    ensures SortedOn(r, key)
  {
    if s == [] then []
    else
      assert s == [s[0]] + s[1..];
      Insert(s[0], SortBy(s[1..], key), key)
  }

  /** Sorting keeps exactly the elements it was given. */
  lemma SortByMembers<T>(s: seq<T>, key: T -> real)
    ensures forall x :: x in SortBy(s, key) <==> x in s
  {
    var r := SortBy(s, key);
    assert forall x :: x in r <==> x in multiset(r);
    assert forall x :: x in s <==> x in multiset(s);
  }

  // ---------------------------------------------------------------------------
  // Slicing

  /** `qs[start:end]` on a QuerySet: a negative bound raises ValueError;
      otherwise the bounds are clipped to the rows present, and a start at or
      past the end gives no rows. */
  function Slice<T>(s: seq<T>, start: int, end: int): (r: Result<seq<T>>)
    ensures r.Err? <==> start < 0 || end < 0
    ensures r.Ok? ==> |r.value| == (if start >= end || start >= |s| then 0 else Min(end, |s|) - start)
    ensures r.Ok? ==> forall i :: 0 <= i < |r.value| ==> r.value[i] == s[start + i]
  {
    if start < 0 || end < 0 then Err(Exception("ValueError", "Negative indexing is not supported."))
    else
      var lo := Min(start, |s|);
      var hi := Max(lo, Min(end, |s|));
      Ok(s[lo..hi])
  }
}
