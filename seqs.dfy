/** Folds and sorting over sequences, as the puzzles use them through Rust's
    iterator adaptors (`sum`, `product`, `max`, `sort_by_key`). */
module Seqs {
  import opened Wrappers

  function Sum(s: seq<int>): int {
    if s == [] then 0 else s[0] + Sum(s[1..])
  }

  lemma {:induction false} SumAppend(a: seq<int>, b: seq<int>)
    ensures Sum(a + b) == Sum(a) + Sum(b)
  {
    if a == [] {
      assert a + b == b;
    } else {
      assert (a + b)[1..] == a[1..] + b;
      SumAppend(a[1..], b);
    }
  }

  lemma {:induction false} SumNonNegative(s: seq<int>)
    requires forall i | 0 <= i < |s| :: s[i] >= 0
    ensures Sum(s) >= 0
  {
    if s != [] { SumNonNegative(s[1..]); }
  }

  /** A sum of terms between 0 and `b` is between 0 and `b` times their number. */
  lemma {:induction false} SumBounded(s: seq<int>, b: int)
    requires forall i | 0 <= i < |s| :: 0 <= s[i] <= b
    ensures 0 <= Sum(s) <= b * |s|
  {
    if s != [] { SumBounded(s[1..], b); }
  }

  /** No term of a sum of non-negative terms exceeds the sum. */
  lemma {:induction false} SumBoundsTerms(s: seq<int>)
    requires forall i | 0 <= i < |s| :: s[i] >= 0
    ensures forall i | 0 <= i < |s| :: s[i] <= Sum(s)
  {
    if s != [] {
      assert forall i | 1 <= i < |s| :: s[1..][i - 1] == s[i];
      SumBoundsTerms(s[1..]);
      SumNonNegative(s[1..]);
    }
  }

  function Product(s: seq<int>): int {
    if s == [] then 1 else s[0] * Product(s[1..])
  }

  /** `Iterator::max`: None on an empty sequence, otherwise an element that is at
      least every element. */
  function Max(s: seq<int>): (r: Option<int>)
    ensures r.None? <==> s == []
    ensures r.Some? ==> r.value in s && forall i | 0 <= i < |s| :: s[i] <= r.value
  {
    if s == [] then None
    else match Max(s[1..])
      case None => Some(s[0])
      case Some(m) => Some(if s[0] < m then m else s[0])
  }

  predicate SortedBy<T>(s: seq<T>, key: T -> int) {
    forall i, j | 0 <= i < j < |s| :: key(s[i]) <= key(s[j])
  }

  /** Insert `x` after every element whose key is at most `key(x)`. */
  function InsertBy<T>(x: T, s: seq<T>, key: T -> int): (r: seq<T>)
    requires SortedBy(s, key)
    ensures SortedBy(r, key)
    ensures multiset(r) == multiset(s) + multiset{x}
    ensures |r| == |s| + 1
  {
    if s == [] then [x]
    else if key(x) < key(s[0]) then [x] + s
    else
      var t := InsertBy(x, s[1..], key);
      assert s == [s[0]] + s[1..];
      ConsSorted(s[0], s[1..], x, t, key);
      [s[0]] + t
  }

  /** Putting `a` in front of a sorted permutation of `x` and a tail whose keys
      are all at least `key(a)` keeps the order, when `key(x)` is too. */
  lemma ConsSorted<T>(a: T, tail: seq<T>, x: T, t: seq<T>, key: T -> int)
    requires SortedBy([a] + tail, key) && SortedBy(t, key) && key(a) <= key(x)
    requires multiset(t) == multiset(tail) + multiset{x}
    ensures SortedBy([a] + t, key)
  {
    forall j | 0 <= j < |t| ensures key(a) <= key(t[j]) {
      assert t[j] in multiset(t);
      if t[j] != x {
        assert t[j] in multiset(tail);
        var k :| 0 <= k < |tail| && tail[k] == t[j];
        assert ([a] + tail)[0] == a && ([a] + tail)[k + 1] == t[j];
      }
    }
    var r := [a] + t;
    assert forall i | 0 < i < |r| :: r[i] == t[i - 1];
  }

  /** `slice::sort_by_key`: an insertion sort by key. */
  function SortBy<T>(s: seq<T>, key: T -> int): (r: seq<T>)
    ensures SortedBy(r, key)
    ensures multiset(r) == multiset(s)
    ensures |r| == |s|
  {
    if s == [] then []
    else
      var r := InsertBy(s[|s| - 1], SortBy(s[..|s| - 1], key), key);
      assert s == s[..|s| - 1] + [s[|s| - 1]];
      r
  }

  function Identity(x: int): int { x }

  function Negate(x: int): int { -x }

  /** Every row of `g` has `w` elements. */
  predicate Rect<T>(g: seq<seq<T>>, w: nat) {
    forall i | 0 <= i < |g| :: |g[i]| == w
  }

  /** The rows one after the other (`flat_map`). */
  function Concat<T>(rs: seq<seq<T>>): seq<T> {
    if rs == [] then [] else rs[0] + Concat(rs[1..])
  }

  lemma {:induction false} ConcatSnoc<T>(rs: seq<seq<T>>, r: seq<T>)
    ensures Concat(rs + [r]) == Concat(rs) + r
  {
    if rs != [] {
      assert (rs + [r])[1..] == rs[1..] + [r];
      ConcatSnoc(rs[1..], r);
    } else {
      assert rs + [r] == [r];
    }
  }

  /** The number of elements of all rows together. */
  function TotalLength<T>(rs: seq<seq<T>>): nat {
    if rs == [] then 0 else |rs[0]| + TotalLength(rs[1..])
  }

  lemma {:induction false} ConcatLength<T>(rs: seq<seq<T>>)
    ensures |Concat(rs)| == TotalLength(rs)
  {
    if rs != [] {
      ConcatLength(rs[1..]);
    }
  }

  /** `Array2::from_shape_vec((k, n), cells)`: `k` row-major rows of `n`. */
  function Shape<T>(cells: seq<T>, n: nat, k: nat): (g: seq<seq<T>>)
    requires |cells| == n * k
    ensures |g| == k && Rect(g, n)
  {
    if k == 0 then []
    else
      assert n * k == n * (k - 1) + n;
      [cells[..n]] + Shape(cells[n..], n, k - 1)
  }

  /** Cutting the concatenation of equal-length rows gives the rows back. */
  lemma {:induction false} ShapeConcat<T>(rows: seq<seq<T>>, n: nat)
    requires Rect(rows, n)
    ensures |Concat(rows)| == n * |rows|
    ensures Shape(Concat(rows), n, |rows|) == rows
  {
    if rows != [] {
      ShapeConcat(rows[1..], n);
      assert n * |rows| == n * (|rows| - 1) + n;
      assert Concat(rows)[..n] == rows[0];
      assert Concat(rows)[n..] == Concat(rows[1..]);
    }
  }
}
