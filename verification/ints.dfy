/** Integer helpers for the layout arithmetic: Go's truncating halving, and the
    running maximum and sum the size loops compute. */
module Ints {

  function Max(a: int, b: int): (r: int)
    ensures r >= a && r >= b
    ensures r == a || r == b
  {
    if a < b then b else a
  }

  function Min(a: int, b: int): (r: int)
    ensures r <= a && r <= b
    ensures r == a || r == b
  {
    if a < b then a else b
  }

  /** Go's `n / 2` on int, and `int(0.5 * float64(n))`: both round toward
      zero, unlike Dafny's `/`, which rounds toward negative infinity. */
  function Half(n: int): (r: int)
    ensures n >= 0 ==> 0 <= n - 2 * r <= 1
    ensures n < 0 ==> -1 <= n - 2 * r <= 0
  {
    if n >= 0 then n / 2 else -((-n) / 2)
  }

  /** The running maximum of a size loop that starts from 0 (`x := 0; if x <= w { x = w }`). */
  function MaxOf(xs: seq<int>): (r: int)
    ensures r >= 0
    ensures forall i | 0 <= i < |xs| :: xs[i] <= r
    ensures r == 0 || exists i | 0 <= i < |xs| :: xs[i] == r
    decreases |xs|
  {
    if |xs| == 0 then 0
    else
      var front := xs[..|xs| - 1];
      var m := MaxOf(front);
      assert forall i | 0 <= i < |front| :: xs[i] == front[i];
      Max(m, xs[|xs| - 1])
  }

  /** The running sum of a size loop that starts from 0. */
  function SumOf(xs: seq<int>): int
    decreases |xs|
  {
    if |xs| == 0 then 0 else SumOf(xs[..|xs| - 1]) + xs[|xs| - 1]
  }

  lemma MaxOfSnoc(xs: seq<int>, a: int)
    ensures MaxOf(xs + [a]) == Max(MaxOf(xs), a)
  {
    assert (xs + [a])[..|xs|] == xs;
  }

  lemma SumOfSnoc(xs: seq<int>, a: int)
    ensures SumOf(xs + [a]) == SumOf(xs) + a
  {
    assert (xs + [a])[..|xs|] == xs;
  }

  /** Summing is additive over concatenation. */
  lemma {:induction false} SumOfAppend(xs: seq<int>, ys: seq<int>)
    ensures SumOf(xs + ys) == SumOf(xs) + SumOf(ys)
    decreases |ys|
  {
    if |ys| > 0 {
      var n := |ys| - 1;
      assert xs + ys == (xs + ys[..n]) + [ys[n]];
      SumOfSnoc(xs + ys[..n], ys[n]);
      SumOfAppend(xs, ys[..n]);
    } else {
      assert xs + ys == xs;
    }
  }
}
