/**
 * The dataframe operations the aggregator chains together, on sequences of
 * (key, amount) pairs: `group_by(key).agg(sum)` and `sort(..., descending=True)`.
 * A grouped table has one row per key that occurs, holding the sum of that
 * key's amounts; the order of the rows before sorting is left open, as it is
 * in an unordered group-by.
 */
module Grouping {

  /** Sum of the amounts. */
  function Total<K(==)>(rows: seq<(K, int)>): int {
    if rows == [] then 0 else rows[0].1 + Total(rows[1..])
  }

  /** Sum of the amounts recorded under key `k`. */
  function KeyTotal<K(==)>(rows: seq<(K, int)>, k: K): int {
    if rows == [] then 0 else (if rows[0].0 == k then rows[0].1 else 0) + KeyTotal(rows[1..], k)
  }

  predicate HasKey<K(==)>(rows: seq<(K, int)>, k: K) {
    exists i :: 0 <= i < |rows| && rows[i].0 == k
  }

  predicate Distinct<K(==)>(ks: seq<K>) {
    forall i, j :: 0 <= i < j < |ks| ==> ks[i] != ks[j]
  }

  /** No two rows of a table share a key. */
  predicate UniqueKeys<K(==)>(rows: seq<(K, int)>) {
    forall i, j :: 0 <= i < j < |rows| ==> rows[i].0 != rows[j].0
  }

  /** The keys that occur, each once. */
  function Keys<K(==,!new)>(rows: seq<(K, int)>): (ks: seq<K>)
    ensures Distinct(ks)
    ensures forall k :: k in ks <==> HasKey(rows, k)
  {
    if rows == [] then []
    else
      var rest := Keys(rows[1..]);
      assert forall k :: HasKey(rows, k) <==> rows[0].0 == k || HasKey(rows[1..], k) by {
        forall k | HasKey(rows, k) && rows[0].0 != k ensures HasKey(rows[1..], k) {
          var i :| 0 <= i < |rows| && rows[i].0 == k;
          assert rows[1..][i - 1].0 == k;
        }
        forall k | HasKey(rows[1..], k) ensures HasKey(rows, k) {
          var i :| 0 <= i < |rows[1..]| && rows[1..][i].0 == k;
          assert rows[i + 1].0 == k;
        }
      }
      if rows[0].0 in rest then rest else [rows[0].0] + rest
  }

  /** One row per listed key, holding that key's sum. */
  function Rows<K(==)>(ks: seq<K>, entries: seq<(K, int)>): (rows: seq<(K, int)>)
    ensures |rows| == |ks|
    ensures forall i :: 0 <= i < |ks| ==> rows[i] == (ks[i], KeyTotal(entries, ks[i]))
  {
    if ks == [] then [] else [(ks[0], KeyTotal(entries, ks[0]))] + Rows(ks[1..], entries)
  }

  /** `group_by(key).agg(sum)`. */
  function GroupSum<K(==,!new)>(entries: seq<(K, int)>): seq<(K, int)> {
    Rows(Keys(entries), entries)
  }

  /** Adding one entry in front raises exactly its own key's row, once. */
  lemma {:induction false} RowsTotalCons<K>(ks: seq<K>, e: (K, int), entries: seq<(K, int)>)
    requires Distinct(ks)
    ensures Total(Rows(ks, [e] + entries)) == Total(Rows(ks, entries)) + (if e.0 in ks then e.1 else 0)
  {
    if ks != [] {
      assert ([e] + entries)[1..] == entries;
      RowsTotalCons(ks[1..], e, entries);
      assert ks[0] == e.0 ==> e.0 !in ks[1..];
    }
  }

  /** The rows of a list of distinct keys that covers every entry add up to the entries' total. */
  lemma {:induction false} RowsTotal<K>(ks: seq<K>, entries: seq<(K, int)>)
    requires Distinct(ks)
    requires forall i :: 0 <= i < |entries| ==> entries[i].0 in ks
    ensures Total(Rows(ks, entries)) == Total(entries)
  {
    if entries == [] {
      RowsOfNothing(ks);
    } else {
      var rest := entries[1..];
      assert entries == [entries[0]] + rest;
      RowsTotal(ks, rest);
      RowsTotalCons(ks, entries[0], rest);
    }
  }

  lemma {:induction false} RowsOfNothing<K>(ks: seq<K>)
    ensures Total(Rows(ks, [])) == 0
  {
    if ks != [] {
      RowsOfNothing(ks[1..]);
    }
  }

  /** A grouped table is a complete, duplicate-free account of the entries. */
  lemma GroupSumSpec<K(!new)>(entries: seq<(K, int)>)
    ensures UniqueKeys(GroupSum(entries))
    ensures forall r :: r in GroupSum(entries) ==> r.1 == KeyTotal(entries, r.0)
    ensures forall k :: HasKey(entries, k) <==> HasKey(GroupSum(entries), k)
    ensures Total(GroupSum(entries)) == Total(entries)
  {
    var ks := Keys(entries);
    var rows := GroupSum(entries);
    forall i | 0 <= i < |entries| ensures entries[i].0 in ks {
      assert HasKey(entries, entries[i].0);
    }
    RowsTotal(ks, entries);
    GroupKeys(entries);
  }

  lemma GroupKeys<K(!new)>(entries: seq<(K, int)>)
    ensures forall k :: HasKey(entries, k) <==> HasKey(GroupSum(entries), k)
  {
    var ks := Keys(entries);
    var rows := GroupSum(entries);
    forall k ensures HasKey(entries, k) <==> HasKey(rows, k) {
      if HasKey(entries, k) {
        var i :| 0 <= i < |ks| && ks[i] == k;
        assert rows[i].0 == k;
      }
      if HasKey(rows, k) {
        var i :| 0 <= i < |rows| && rows[i].0 == k;
        assert ks[i] == k;
      }
    }
  }

  /** Rows in non-increasing order of `rank`. */
  predicate SortedDesc<K(==)>(rows: seq<(K, int)>, rank: ((K, int)) -> int) {
    forall i, j :: 0 <= i < j < |rows| ==> rank(rows[i]) >= rank(rows[j])
  }

  function Insert<K(==)>(x: (K, int), rows: seq<(K, int)>, rank: ((K, int)) -> int): (r: seq<(K, int)>)
    requires SortedDesc(rows, rank)
    ensures SortedDesc(r, rank)
    ensures multiset(r) == multiset(rows) + multiset{x}
    ensures |r| == |rows| + 1 && (r[0] == x || (rows != [] && r[0] == rows[0]))
  {
    if rows == [] || rank(x) >= rank(rows[0]) then
      ConsSorted(x, rows, rank);
      [x] + rows
    else
      var tail := Insert(x, rows[1..], rank);
      assert rows == [rows[0]] + rows[1..];
      ConsSorted(rows[0], tail, rank);
      [rows[0]] + tail
  }

  /** A row ranked at least as high as the head of a sorted table can go in front of it. */
  lemma ConsSorted<K>(y: (K, int), rows: seq<(K, int)>, rank: ((K, int)) -> int)
    requires SortedDesc(rows, rank) && (rows == [] || rank(y) >= rank(rows[0]))
    ensures SortedDesc([y] + rows, rank)
  {
    var r := [y] + rows;
    forall i, j | 0 <= i < j < |r| ensures rank(r[i]) >= rank(r[j]) {
      if i == 0 {
        assert r[j] == rows[j - 1];
        assert rank(rows[0]) >= rank(rows[j - 1]) || j == 1;
      } else {
        assert r[i] == rows[i - 1] && r[j] == rows[j - 1];
      }
    }
  }

  /** `sort(by=rank, descending=True)`: a reordering of the rows in non-increasing rank. */
  function SortDesc<K(==)>(rows: seq<(K, int)>, rank: ((K, int)) -> int): (r: seq<(K, int)>)
    ensures SortedDesc(r, rank)
    ensures multiset(r) == multiset(rows)
  {
    if rows == [] then []
    else
      assert rows == [rows[0]] + rows[1..];
      Insert(rows[0], SortDesc(rows[1..], rank), rank)
  }

  lemma {:induction false} TotalCons<K>(x: (K, int), rows: seq<(K, int)>)
    ensures Total([x] + rows) == x.1 + Total(rows)
  {
    assert ([x] + rows)[1..] == rows;
  }

  /** The total of a table depends only on its rows, not on their order. */
  lemma {:induction false} TotalOfPermutation<K>(a: seq<(K, int)>, b: seq<(K, int)>)
    requires multiset(a) == multiset(b)
    ensures Total(a) == Total(b)
    decreases |a|
  {
    if a == [] {
      assert |multiset(b)| == 0;
    } else {
      var x := a[0];
      assert x in multiset(b);
      var j :| 0 <= j < |b| && b[j] == x;
      var b' := b[..j] + b[j + 1..];
      RemoveFirst(a, b, j);
      TotalOfPermutation(a[1..], b');
      TotalRemove(b, j);
    }
  }

  /** Taking the same row out of two permutations of each other leaves permutations. */
  lemma RemoveFirst<K>(a: seq<(K, int)>, b: seq<(K, int)>, j: int)
    requires multiset(a) == multiset(b) && a != [] && 0 <= j < |b| && b[j] == a[0]
    ensures multiset(a[1..]) == multiset(b[..j] + b[j + 1..])
  {
    var x := a[0];
    assert b == b[..j] + [x] + b[j + 1..];
    assert a == [x] + a[1..];
    assert multiset(b) == multiset(b[..j]) + multiset{x} + multiset(b[j + 1..]);
    assert multiset(a) == multiset{x} + multiset(a[1..]);
    assert multiset(b[..j] + b[j + 1..]) == multiset(b[..j]) + multiset(b[j + 1..]);
    assert multiset(a[1..]) == multiset(a) - multiset{x};
    assert multiset(b[..j] + b[j + 1..]) == multiset(b) - multiset{x};
  }

  /** A table's total is one row's amount plus the total of the others. */
  lemma TotalRemove<K>(b: seq<(K, int)>, j: int)
    requires 0 <= j < |b|
    ensures Total(b) == b[j].1 + Total(b[..j] + b[j + 1..])
  {
    TotalSplit(b[..j], [b[j]] + b[j + 1..]);
    TotalSplit(b[..j], b[j + 1..]);
    TotalCons(b[j], b[j + 1..]);
    assert b[..j] + ([b[j]] + b[j + 1..]) == b;
  }

  lemma {:induction false} TotalSplit<K>(a: seq<(K, int)>, b: seq<(K, int)>)
    ensures Total(a + b) == Total(a) + Total(b)
  {
    if a == [] {
      assert a + b == b;
    } else {
      assert (a + b)[1..] == a[1..] + b;
      TotalSplit(a[1..], b);
    }
  }

  /** Reordering keeps keys unique. */
  lemma UniqueKeysOfPermutation<K>(a: seq<(K, int)>, b: seq<(K, int)>)
    requires multiset(a) == multiset(b) && UniqueKeys(a)
    ensures UniqueKeys(b)
  {
    forall i, j | 0 <= i < j < |b| ensures b[i].0 != b[j].0 {
      if b[i].0 == b[j].0 {
        assert b[i] in multiset(a) && b[j] in multiset(a);
        var p :| 0 <= p < |a| && a[p] == b[i];
        var q :| 0 <= q < |a| && a[q] == b[j];
        assert p == q;
        assert b[i] == b[j];
        UniqueElementCount(a, p);
        TwiceCounted(b, i, j);
        assert false;
      }
    }
  }

  lemma UniqueElementCount<K>(a: seq<(K, int)>, p: int)
    requires UniqueKeys(a) && 0 <= p < |a|
    ensures multiset(a)[a[p]] == 1
  {
    assert a == a[..p] + [a[p]] + a[p + 1..];
    assert a[p] !in a[..p] by {
      forall q | 0 <= q < p ensures a[..p][q] != a[p] { assert a[q].0 != a[p].0; }
    }
    assert a[p] !in a[p + 1..] by {
      forall q | p < q < |a| ensures a[q] != a[p] { assert a[q].0 != a[p].0; }
    }
  }

  lemma TwiceCounted<K>(b: seq<(K, int)>, i: int, j: int)
    requires 0 <= i < j < |b| && b[i] == b[j]
    ensures multiset(b)[b[i]] >= 2
  {
    assert b == b[..i] + [b[i]] + b[i + 1..j] + [b[j]] + b[j + 1..];
  }

  /** A grouped, then sorted table: ordered by rank, one row per occurring key, each row its key's
      sum, and all rows together the total of the entries. */
  lemma SortedGroupSpec<K(!new)>(entries: seq<(K, int)>, rank: ((K, int)) -> int)
    ensures var rows := SortDesc(GroupSum(entries), rank);
      && SortedDesc(rows, rank)
      && UniqueKeys(rows)
      && (forall r :: r in rows ==> r.1 == KeyTotal(entries, r.0))
      && (forall k :: HasKey(entries, k) <==> HasKey(rows, k))
      && Total(rows) == Total(entries)
  {
    var grouped := GroupSum(entries);
    var rows := SortDesc(grouped, rank);
    GroupSumSpec(entries);
    UniqueKeysOfPermutation(grouped, rows);
    TotalOfPermutation(rows, grouped);
    forall r | r in rows ensures r in grouped {
      assert r in multiset(rows);
    }
    forall k ensures HasKey(grouped, k) <==> HasKey(rows, k) {
      if HasKey(grouped, k) {
        var i :| 0 <= i < |grouped| && grouped[i].0 == k;
        assert grouped[i] in multiset(rows);
        var j :| 0 <= j < |rows| && rows[j] == grouped[i];
      }
      if HasKey(rows, k) {
        var i :| 0 <= i < |rows| && rows[i].0 == k;
        assert rows[i] in multiset(grouped);
        var j :| 0 <= j < |grouped| && grouped[j] == rows[i];
      }
    }
  }
}
