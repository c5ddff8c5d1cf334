/**
 * Stable top-k selection over one numeric column, the way pandas' `nlargest` and
 * `nsmallest` pick rows with their default `keep='first'`: a larger (smaller) key
 * ranks first, and among equal keys the earlier row ranks first.
 *
 * A selection is a sequence of row indices. `IsTopK` is the specification of what
 * `nlargest(k)` returns; `Largest` computes it by a stable insertion sort of all row
 * indices, cut after k, and `TopKUnique` shows that the specification admits exactly
 * one selection.
 */
module Ranking {
  import opened Market

  /** Row i ranks strictly before row j when ordering by keys, largest first. */
  predicate Ahead(keys: seq<real>, i: int, j: int)
  {
    0 <= i < |keys| && 0 <= j < |keys| &&
    (keys[i] > keys[j] || (keys[i] == keys[j] && i < j))
  }

  /** Row i ranks strictly before row j when ordering by keys, smallest first. */
  predicate AheadAscending(keys: seq<real>, i: int, j: int)
  {
    0 <= i < |keys| && 0 <= j < |keys| &&
    (keys[i] < keys[j] || (keys[i] == keys[j] && i < j))
  }

  /** s lists row indices in descending ranking order (hence without repetition). */
  predicate Ordered(keys: seq<real>, s: seq<nat>)
  {
    (forall a :: 0 <= a < |s| ==> s[a] < |keys|) &&
    (forall a, b :: 0 <= a < b < |s| ==> Ahead(keys, s[a], s[b]))
  }

  /**
   * sel is the answer of `nlargest(k)`: min(k, n) rows, in ranking order, and every
   * row left out ranks behind every row taken.
   */
  predicate IsTopK(keys: seq<real>, k: nat, sel: seq<nat>)
  {
    |sel| == Min(k, |keys|) &&
    Ordered(keys, sel) &&
    forall j, a :: 0 <= j < |keys| && j !in sel && 0 <= a < |sel| ==> Ahead(keys, sel[a], j)
  }

  /** sel is the answer of `nsmallest(k)`, the mirror image of IsTopK. */
  predicate IsBottomK(keys: seq<real>, k: nat, sel: seq<nat>)
  {
    |sel| == Min(k, |keys|) &&
    (forall a :: 0 <= a < |sel| ==> sel[a] < |keys|) &&
    (forall a, b :: 0 <= a < b < |sel| ==> AheadAscending(keys, sel[a], sel[b])) &&
    forall j, a :: 0 <= j < |keys| && j !in sel && 0 <= a < |sel| ==> AheadAscending(keys, sel[a], j)
  }

  /** Places row i into the ranked list s, after every row that ranks before it. */
  function Insert(keys: seq<real>, s: seq<nat>, i: nat): (r: seq<nat>)
    ensures |r| == |s| + 1
    ensures multiset(r) == multiset(s) + multiset{i}
    ensures forall j :: j in r <==> j in s || j == i
  {
    if s == [] then [i]
    else if Ahead(keys, s[0], i) then
      assert s == [s[0]] + s[1..];
      [s[0]] + Insert(keys, s[1..], i)
    else [i] + s
  }

  /** A row that ranks before every row of a ranked list can go in front of it. */
  lemma ConsOrdered(keys: seq<real>, x: nat, t: seq<nat>)
    requires Ordered(keys, t) && x < |keys|
    requires forall j :: j in t ==> Ahead(keys, x, j)
    ensures Ordered(keys, [x] + t)
  {
    var r := [x] + t;
    forall a, b | 0 <= a < b < |r|
      ensures Ahead(keys, r[a], r[b])
    {
      assert r[b] == t[b - 1] && t[b - 1] in t;
      if a > 0 {
        assert r[a] == t[a - 1];
      }
    }
  }

  /** Every row of s but its head, and the new row i, ranks behind a head that ranks before i. */
  lemma HeadAheadOfInsert(keys: seq<real>, s: seq<nat>, i: nat)
    requires Ordered(keys, s) && s != [] && Ahead(keys, s[0], i)
    ensures forall j :: j in Insert(keys, s[1..], i) ==> Ahead(keys, s[0], j)
  {
    forall j | j in Insert(keys, s[1..], i)
      ensures Ahead(keys, s[0], j)
    {
      if j != i {
        var c :| 0 <= c < |s[1..]| && s[1..][c] == j;
        assert s[c + 1] == j;
      }
    }
  }

  /** A row that ranks before the head of a ranked list ranks before all of it. */
  lemma AheadOfHead(keys: seq<real>, s: seq<nat>, i: nat)
    requires Ordered(keys, s) && s != [] && Ahead(keys, i, s[0])
    ensures forall j :: j in s ==> Ahead(keys, i, j)
  {
    forall j | j in s
      ensures Ahead(keys, i, j)
    {
      var c :| 0 <= c < |s| && s[c] == j;
      if c > 0 {
        assert Ahead(keys, s[0], s[c]);
      }
    }
  }

  lemma {:induction false} InsertOrdered(keys: seq<real>, s: seq<nat>, i: nat)
    requires Ordered(keys, s) && i < |keys| && i !in s
    ensures Ordered(keys, Insert(keys, s, i))
  {
    if s == [] {
      ConsOrdered(keys, i, s);
      assert Insert(keys, s, i) == [i] + s;
    } else if Ahead(keys, s[0], i) {
      InsertOrdered(keys, s[1..], i);
      HeadAheadOfInsert(keys, s, i);
      ConsOrdered(keys, s[0], Insert(keys, s[1..], i));
    } else {
      assert i != s[0];
      AheadOfHead(keys, s, i);
      ConsOrdered(keys, i, s);
    }
  }

  /** The rows 0 .. n-1 ranked by a stable insertion sort. */
  function SortedIndices(keys: seq<real>, n: nat): (r: seq<nat>)
    requires n <= |keys|
    ensures |r| == n
    ensures forall j :: j in r <==> 0 <= j < n
    ensures Ordered(keys, r)
  {
    if n == 0 then []
    else
      var s := SortedIndices(keys, n - 1);
      InsertOrdered(keys, s, n - 1);
      Insert(keys, s, n - 1)
  }

  lemma RestRanksBehind(keys: seq<real>, all: seq<nat>, m: nat)
    requires Ordered(keys, all)
    requires forall j :: j in all <==> 0 <= j < |keys|
    requires m <= |all|
    ensures forall j, a :: 0 <= j < |keys| && j !in all[..m] && 0 <= a < m ==> Ahead(keys, all[a], j)
  {
    forall j, a | 0 <= j < |keys| && j !in all[..m] && 0 <= a < m
      ensures Ahead(keys, all[a], j)
    {
      assert j in all;
      assert all == all[..m] + all[m..];
      assert j in all[m..];
      var q :| 0 <= q < |all[m..]| && all[m..][q] == j;
      assert all[m + q] == j;
    }
  }

  /** `nlargest(k)`: the indices of the k rows with the largest keys, ties to the earlier row. */
  function Largest(keys: seq<real>, k: nat): (sel: seq<nat>)
    ensures IsTopK(keys, k, sel)
  {
    var all := SortedIndices(keys, |keys|);
    var m := Min(k, |keys|);
    RestRanksBehind(keys, all, m);
    all[..m]
  }

  /** With at most k rows, `nlargest(k)` keeps every row. */
  lemma LargestTakesAll(keys: seq<real>, k: nat)
    requires |keys| <= k
    ensures forall j :: 0 <= j < |keys| ==> j in Largest(keys, k)
  {
    var all := SortedIndices(keys, |keys|);
    assert Largest(keys, k) == all[..|keys|] == all;
  }

  function Negated(keys: seq<real>): (neg: seq<real>)
  {
    seq(|keys|, i requires 0 <= i < |keys| => -keys[i])
  }

  /** `nsmallest(k)`: the indices of the k rows with the smallest keys, ties to the earlier row. */
  function Smallest(keys: seq<real>, k: nat): (sel: seq<nat>)
    ensures IsBottomK(keys, k, sel)
  {
    var neg := Negated(keys);
    assert forall i, j :: Ahead(neg, i, j) <==> AheadAscending(keys, i, j);
    Largest(neg, k)
  }

  /** In a ranked list, the row at position p does not occur before p. */
  lemma NotInEarlierPrefix(keys: seq<real>, s: seq<nat>, p: nat)
    requires Ordered(keys, s) && p < |s|
    ensures s[p] !in s[..p]
  {
    forall c | 0 <= c < p
      ensures s[..p][c] != s[p]
    {
      assert Ahead(keys, s[c], s[p]);
    }
  }

  /**
   * Two top-k answers that agree before position p: the row r1 holds at p is either
   * the one r2 holds there or ranks behind it.
   */
  lemma SameOrBehind(keys: seq<real>, k: nat, r1: seq<nat>, r2: seq<nat>, p: nat)
    requires IsTopK(keys, k, r1) && IsTopK(keys, k, r2)
    requires p < |r1| && r1[..p] == r2[..p]
    ensures r1[p] == r2[p] || Ahead(keys, r2[p], r1[p])
  {
    NotInEarlierPrefix(keys, r1, p);
    var x := r1[p];
    if x in r2 {
      assert r2 == r2[..p] + r2[p..];
      assert x in r2[p..];
      var q :| 0 <= q < |r2[p..]| && r2[p..][q] == x;
      if q > 0 {
        assert Ahead(keys, r2[p], r2[p + q]);
      }
    }
  }

  lemma {:induction false} TopKAgree(keys: seq<real>, k: nat, r1: seq<nat>, r2: seq<nat>, m: nat)
    requires IsTopK(keys, k, r1) && IsTopK(keys, k, r2)
    requires m <= |r1|
    ensures r1[..m] == r2[..m]
  {
    if m > 0 {
      var p := m - 1;
      TopKAgree(keys, k, r1, r2, p);
      SameOrBehind(keys, k, r1, r2, p);
      SameOrBehind(keys, k, r2, r1, p);
      assert r1[..m] == r1[..p] + [r1[p]];
      assert r2[..m] == r2[..p] + [r2[p]];
    }
  }

  /** The specification of `nlargest` leaves no choice: at most one selection meets it. */
  lemma TopKUnique(keys: seq<real>, k: nat, r1: seq<nat>, r2: seq<nat>)
    requires IsTopK(keys, k, r1) && IsTopK(keys, k, r2)
    ensures r1 == r2
  {
    TopKAgree(keys, k, r1, r2, |r1|);
    assert r1 == r1[..|r1|] && r2 == r2[..|r2|];
  }

  /** Two columns that rank the rows alike give the same `nlargest` answer. */
  lemma LargestDependsOnlyOnRanking(keys1: seq<real>, keys2: seq<real>, k: nat)
    requires |keys1| == |keys2|
    requires forall i, j :: Ahead(keys1, i, j) <==> Ahead(keys2, i, j)
    ensures Largest(keys1, k) == Largest(keys2, k)
  {
    var sel := Largest(keys1, k);
    assert IsTopK(keys2, k, sel);
    TopKUnique(keys2, k, sel, Largest(keys2, k));
  }

  function Prefix(m: nat): (s: seq<nat>)
  {
    seq(m, i requires 0 <= i < m => i)
  }

  /** When every key is the same, `nlargest(k)` keeps the first k rows in their order. */
  lemma LargestOfTies(keys: seq<real>, k: nat)
    requires forall i, j :: 0 <= i < |keys| && 0 <= j < |keys| ==> keys[i] == keys[j]
    ensures Largest(keys, k) == Prefix(Min(k, |keys|))
  {
    var m := Min(k, |keys|);
    var sel := Prefix(m);
    assert |sel| == m;
    forall i | 0 <= i < m
      ensures sel[i] == i && i in sel
    {
      assert sel[i] == i;
    }
    assert Ordered(keys, sel) by {
      forall a, b | 0 <= a < b < |sel|
        ensures Ahead(keys, sel[a], sel[b])
      {
        assert keys[a] == keys[b];
      }
    }
    forall j, a | 0 <= j < |keys| && j !in sel && 0 <= a < |sel|
      ensures Ahead(keys, sel[a], j)
    {
      assert a < m <= j;
      assert keys[a] == keys[j];
    }
    TopKUnique(keys, k, sel, Largest(keys, k));
  }
}
