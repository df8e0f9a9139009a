/**
 The sales table of the dashboard and the generic sequence operations the
 pipeline is built from: row filtering (a pandas `query`/`loc` keeps the rows
 that satisfy a condition, in their original order), distinct values in order of
 first appearance (pandas `unique`) and column sums.
 */
module Rows {

  /** One sale record: the company that made it, the product category, the
      sale price and the week it happened in. */
  datatype Row = Row(company: string, cat: string, price: int, week: int)

  /** A dataset as loaded from the store: rows in their stored order. */
  type Table = seq<Row>

  /** `s` can be obtained from `t` by deleting elements, keeping the rest in order. */
  predicate IsSubsequence<T(==)>(s: seq<T>, t: seq<T>)
    decreases |t|
  {
    s == [] ||
    (t != [] && ((s[0] == t[0] && IsSubsequence(s[1..], t[1..])) || IsSubsequence(s, t[1..])))
  }

  /** True iff no element occurs twice in `s`. */
  predicate NoDuplicates<T(==)>(s: seq<T>)
  {
    forall i, j :: 0 <= i < j < |s| ==> s[i] != s[j]
  }

  /** The elements of `s` that satisfy `p`, in their original order. */
  function Where<T(==,!new)>(s: seq<T>, p: T -> bool): (r: seq<T>)
    ensures forall x :: x in r <==> x in s && p(x)
    ensures IsSubsequence(r, s)
  {
    if s == [] then []
    else
      assert s == [s[0]] + s[1..];
      if p(s[0]) then [s[0]] + Where(s[1..], p) else Where(s[1..], p)
  }

  /** Filtering keeps every occurrence of a satisfying element and none of the others. */
  lemma {:induction false} WhereCount<T(!new)>(s: seq<T>, p: T -> bool, x: T)
    ensures multiset(Where(s, p))[x] == if p(x) then multiset(s)[x] else 0
  {
    if s != [] {
      assert s == [s[0]] + s[1..];
      WhereCount(s[1..], p, x);
    }
  }

  /** Filtering with two conditions that agree on every element gives the same rows. */
  lemma {:induction false} WhereCongruent<T(!new)>(s: seq<T>, p: T -> bool, q: T -> bool)
    requires forall x :: x in s ==> p(x) == q(x)
    ensures Where(s, p) == Where(s, q)
  {
    if s != [] {
      WhereCongruent(s[1..], p, q);
    }
  }

  /** The distinct elements of `s`, each kept at its first occurrence. */
  function Unique<T(==,!new)>(s: seq<T>): (r: seq<T>)
    ensures forall x :: x in r <==> x in s
    ensures NoDuplicates(r)
  {
    if s == [] then []
    else
      var u := Unique(s[..|s| - 1]);
      assert s == s[..|s| - 1] + [s[|s| - 1]];
      if s[|s| - 1] in u then u else u + [s[|s| - 1]]
  }

  /** The `cat` column of a table. */
  function Cats(rows: Table): (r: seq<string>)
    ensures |r| == |rows|
    ensures forall i :: 0 <= i < |rows| ==> r[i] == rows[i].cat
  {
    if rows == [] then [] else [rows[0].cat] + Cats(rows[1..])
  }

  /** The sum of `val` over the elements of `s`. */
  function SumVal<T>(s: seq<T>, val: T -> int): int
  {
    if s == [] then 0 else val(s[0]) + SumVal(s[1..], val)
  }

  /** The price column of a row, as an aggregated value. */
  function Price(r: Row): int { r.price }

  /** The constant 1, so that summing it counts rows. */
  function One<T>(x: T): int { 1 }

  /** Summing the constant 1 over a table counts its rows. */
  lemma {:induction false} SumOneIsLength<T>(s: seq<T>)
    ensures SumVal(s, One) == |s|
  {
    if s != [] {
      SumOneIsLength(s[1..]);
    }
  }

  /** When every value lies in [lo, hi], the sum lies in [|s| * lo, |s| * hi]. */
  lemma {:induction false} SumValBounds<T>(s: seq<T>, val: T -> int, lo: int, hi: int)
    requires forall x :: x in s ==> lo <= val(x) <= hi
    ensures |s| * lo <= SumVal(s, val) <= |s| * hi
  {
    if s != [] {
      assert s[0] in s;
      SumValBounds(s[1..], val, lo, hi);
      assert |s| * lo == lo + (|s| - 1) * lo;
      assert |s| * hi == hi + (|s| - 1) * hi;
    }
  }
}
