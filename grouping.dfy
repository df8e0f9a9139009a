/**
 A pandas `groupby(keys)[col].sum()` / `.count()` followed by `reset_index()`
 produces a table with one row per distinct key and the aggregated column
 beside it. This module models such a result as a sequence of entries with
 pairwise distinct keys, built by folding the rows into it one at a time, and
 relates it to a reference definition of "the aggregate of one key" over the
 input rows. The order of the entries is not modelled.
 */
module Grouping {
  import opened Rows

  /** One row of a grouped table: a key and the aggregate of its group. */
  datatype Entry<K> = Entry(key: K, agg: int)

  /** No key occurs in two entries. */
  predicate DistinctKeys<K(==)>(g: seq<Entry<K>>)
  {
    forall i, j :: 0 <= i < j < |g| ==> g[i].key != g[j].key
  }

  /** The keys of a grouped table. */
  function KeySet<K>(g: seq<Entry<K>>): set<K>
  {
    set e | e in g :: e.key
  }

  /** The aggregate stored for `k`, or 0 when `k` has no entry. */
  function Lookup<K(==)>(g: seq<Entry<K>>, k: K): int
  {
    if g == [] then 0 else if g[0].key == k then g[0].agg else Lookup(g[1..], k)
  }

  /** The sum of all aggregates of a grouped table. */
  function Total<K>(g: seq<Entry<K>>): int
  {
    if g == [] then 0 else g[0].agg + Total(g[1..])
  }

  /** The distinct keys of a set of rows. */
  function KeysOf<T, K>(rows: seq<T>, key: T -> K): set<K>
  {
    set i | 0 <= i < |rows| :: key(rows[i])
  }

  /** Reference definition: the sum of `val` over the rows whose key is `k`. */
  function KeySum<T, K(==)>(rows: seq<T>, key: T -> K, val: T -> int, k: K): int
  {
    if rows == [] then 0
    else (if key(rows[0]) == k then val(rows[0]) else 0) + KeySum(rows[1..], key, val, k)
  }

  /** Adds `v` to the entry of `k`, creating the entry when there is none. */
  function Bump<K(==,!new)>(g: seq<Entry<K>>, k: K, v: int): (r: seq<Entry<K>>)
    requires DistinctKeys(g)
    ensures DistinctKeys(r)
    ensures KeySet(r) == KeySet(g) + {k}
    ensures forall k' :: Lookup(r, k') == Lookup(g, k') + (if k' == k then v else 0)
    ensures Total(r) == Total(g) + v
  {
    if g == [] then [Entry(k, v)]
    else
      DistinctTail(g);
      KeySetCons(g);
      if g[0].key == k then
        LookupAbsent(g[1..], k);
        DistinctCons(Entry(k, g[0].agg + v), g[1..]);
        KeySetCons([Entry(k, g[0].agg + v)] + g[1..]);
        [Entry(k, g[0].agg + v)] + g[1..]
      else
        var rest := Bump(g[1..], k, v);
        DistinctCons(g[0], rest);
        KeySetCons([g[0]] + rest);
        [g[0]] + rest
  }

  /** The tail of a table with distinct keys has distinct keys and lacks the head key. */
  lemma DistinctTail<K>(g: seq<Entry<K>>)
    requires DistinctKeys(g) && g != []
    ensures DistinctKeys(g[1..]) && g[0].key !in KeySet(g[1..])
  {
  }

  /** Putting an entry with a new key in front keeps the keys distinct. */
  lemma DistinctCons<K>(e: Entry<K>, g: seq<Entry<K>>)
    requires DistinctKeys(g) && e.key !in KeySet(g)
    ensures DistinctKeys([e] + g)
  {
    var r := [e] + g;
    forall i, j | 0 <= i < j < |r| ensures r[i].key != r[j].key {
      if i == 0 {
        assert r[j] == g[j - 1];
        assert r[j] in g;
      } else {
        assert r[i] == g[i - 1] && r[j] == g[j - 1];
      }
    }
  }

  /** The keys of a non-empty grouped table are its head key and the keys of its tail. */
  lemma KeySetCons<K>(g: seq<Entry<K>>)
    requires g != []
    ensures KeySet(g) == {g[0].key} + KeySet(g[1..])
  {
    assert g == [g[0]] + g[1..];
  }

  /** A key without an entry looks up as 0. */
  lemma {:induction false} LookupAbsent<K>(g: seq<Entry<K>>, k: K)
    requires k !in KeySet(g)
    ensures Lookup(g, k) == 0
  {
    if g != [] {
      KeySetCons(g);
      LookupAbsent(g[1..], k);
    }
  }

  /** In a table with distinct keys, looking up an entry's key finds that entry's aggregate. */
  lemma {:induction false} LookupEntry<K>(g: seq<Entry<K>>, i: nat)
    requires DistinctKeys(g) && i < |g|
    ensures Lookup(g, g[i].key) == g[i].agg
  {
    if i > 0 {
      assert g[0].key != g[i].key;
      LookupEntry(g[1..], i - 1);
    }
  }

  /** The grouped table of `rows` by `key`, aggregating `val` by summation
      (`groupby(key)[col].sum()`; with `val` the constant 1 it is `.count()`). */
  function Group<T, K(==,!new)>(rows: seq<T>, key: T -> K, val: T -> int): (g: seq<Entry<K>>)
    ensures DistinctKeys(g)
    ensures KeySet(g) == KeysOf(rows, key)
    ensures forall k :: Lookup(g, k) == KeySum(rows, key, val, k)
    ensures Total(g) == SumVal(rows, val)
  {
    if rows == [] then []
    else
      KeysOfCons(rows, key);
      Bump(Group(rows[1..], key, val), key(rows[0]), val(rows[0]))
  }

  /** The keys of non-empty rows are the key of the first row and the keys of the rest. */
  lemma KeysOfCons<T, K>(rows: seq<T>, key: T -> K)
    requires rows != []
    ensures KeysOf(rows, key) == {key(rows[0])} + KeysOf(rows[1..], key)
  {
    forall k | k in KeysOf(rows, key) ensures k in {key(rows[0])} + KeysOf(rows[1..], key) {
      var i :| 0 <= i < |rows| && key(rows[i]) == k;
      if i > 0 {
        assert key(rows[1..][i - 1]) == k;
      }
    }
    forall k | k in KeysOf(rows[1..], key) ensures k in KeysOf(rows, key) {
      var i :| 0 <= i < |rows[1..]| && key(rows[1..][i]) == k;
      assert key(rows[i + 1]) == k;
    }
  }

  /** A key occurring in the rows has a positive row count. */
  lemma {:induction false} CountPositive<T, K>(rows: seq<T>, key: T -> K, i: nat)
    requires i < |rows|
    ensures KeySum(rows, key, One, key(rows[i])) >= 1
  {
    if i > 0 {
      CountPositive(rows[1..], key, i - 1);
      assert rows[1..][i - 1] == rows[i];
      CountNonNegative(rows[1..], key, key(rows[i]));
    } else {
      CountNonNegative(rows[1..], key, key(rows[0]));
    }
  }

  /** Row counts are never negative. */
  lemma {:induction false} CountNonNegative<T, K>(rows: seq<T>, key: T -> K, k: K)
    ensures KeySum(rows, key, One, k) >= 0
  {
    if rows != [] {
      CountNonNegative(rows[1..], key, k);
    }
  }

  /** Every entry of a count table (`groupby(...).count()`, `value_counts()`) is at least 1,
      and the counts add up to the number of rows. */
  lemma CountTable<T, K(!new)>(rows: seq<T>, key: T -> K)
    ensures forall e :: e in Group(rows, key, One) ==> e.agg >= 1
    ensures Total(Group(rows, key, One)) == |rows|
  {
    var g := Group(rows, key, One);
    forall e | e in g ensures e.agg >= 1 {
      var j :| 0 <= j < |g| && g[j] == e;
      LookupEntry(g, j);
      assert e.key in KeysOf(rows, key);
      var i :| 0 <= i < |rows| && key(rows[i]) == e.key;
      CountPositive(rows, key, i);
    }
    SumOneIsLength(rows);
  }
}
