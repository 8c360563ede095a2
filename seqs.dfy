/** Sequence helpers: the maximum of a sequence of naturals and the concatenation of per-row pieces. */
module Seqs {

  /** The largest element of `s`, or 0 for the empty sequence. */
  function MaxOf(s: seq<nat>): (m: nat)
    ensures forall i :: 0 <= i < |s| ==> s[i] <= m
    ensures s != [] ==> m in s
    ensures s == [] ==> m == 0
  {
    if s == [] then 0
    else
      var rest := MaxOf(s[..|s| - 1]);
      if s[|s| - 1] > rest then s[|s| - 1] else rest
  }

  /** Row-major concatenation of the piece `f(x)` produced by every row `x`, in row order. */
  function ConcatMap<A, B>(xs: seq<A>, f: A -> seq<B>): seq<B>
  {
    if xs == [] then [] else ConcatMap(xs[..|xs| - 1], f) + f(xs[|xs| - 1])
  }

  /** One more row adds its piece at the end. */
  lemma ConcatMapPrefix<A, B>(xs: seq<A>, n: nat, f: A -> seq<B>)
    requires n < |xs|
    ensures ConcatMap(xs[..n + 1], f) == ConcatMap(xs[..n], f) + f(xs[n])
  {
    assert xs[..n + 1][..n] == xs[..n];
  }

  /** The sum of the lengths of the pieces, computed row by row. */
  function TotalLength<A, B>(xs: seq<A>, f: A -> seq<B>): nat
  {
    if xs == [] then 0 else TotalLength(xs[..|xs| - 1], f) + |f(xs[|xs| - 1])|
  }

  lemma {:induction false} ConcatMapAppend<A, B>(xs: seq<A>, ys: seq<A>, f: A -> seq<B>)
    ensures ConcatMap(xs + ys, f) == ConcatMap(xs, f) + ConcatMap(ys, f)
    decreases |ys|
  {
    if ys == [] {
      assert xs + ys == xs;
    } else {
      var n := |ys| - 1;
      assert (xs + ys)[..|xs + ys| - 1] == xs + ys[..n];
      assert (xs + ys)[|xs + ys| - 1] == ys[n];
      ConcatMapAppend(xs, ys[..n], f);
    }
  }

  /** The concatenation is exactly as long as all the pieces together. */
  lemma {:induction false} ConcatMapLength<A, B>(xs: seq<A>, f: A -> seq<B>)
    ensures |ConcatMap(xs, f)| == TotalLength(xs, f)
  {
    if xs != [] {
      ConcatMapLength(xs[..|xs| - 1], f);
    }
  }

  /** Element `j` of row `r` sits at offset `|ConcatMap(xs[..r], f)| + j`: rows in order, then positions within the row. */
  lemma ConcatMapIndex<A, B>(xs: seq<A>, f: A -> seq<B>, r: nat, j: nat)
    requires r < |xs| && j < |f(xs[r])|
    ensures |ConcatMap(xs[..r], f)| + j < |ConcatMap(xs, f)|
    ensures ConcatMap(xs, f)[|ConcatMap(xs[..r], f)| + j] == f(xs[r])[j]
  {
    assert xs == xs[..r] + ([xs[r]] + xs[r + 1..]);
    ConcatMapAppend(xs[..r], [xs[r]] + xs[r + 1..], f);
    ConcatMapAppend([xs[r]], xs[r + 1..], f);
    assert [xs[r]][..0] == [];
  }

  /** Every element of the concatenation comes from the piece of some row. */
  lemma {:induction false} ConcatMapMember<A, B>(xs: seq<A>, f: A -> seq<B>, y: B)
    requires y in ConcatMap(xs, f)
    ensures exists r :: 0 <= r < |xs| && y in f(xs[r])
  {
    var n := |xs| - 1;
    if y !in f(xs[n]) {
      ConcatMapMember(xs[..n], f, y);
      var r :| 0 <= r < n && y in f(xs[..n][r]);
      assert xs[..n][r] == xs[r];
    }
  }

  /** Dropping a row whose piece is empty leaves the concatenation unchanged. */
  lemma ConcatMapDropEmpty<A, B>(xs: seq<A>, r: nat, f: A -> seq<B>)
    requires r < |xs| && f(xs[r]) == []
    ensures ConcatMap(xs[..r] + xs[r + 1..], f) == ConcatMap(xs, f)
  {
    var front, row, back := xs[..r], [xs[r]], xs[r + 1..];
    assert xs == front + row + back;
    assert row[..0] == [];
    assert ConcatMap(row, f) == [];
    ConcatMapAppend(front + row, back, f);
    ConcatMapAppend(front, row, f);
    ConcatMapAppend(front, back, f);
  }
}
