/** PCM arithmetic of the mixer (ov_pcm16_mod.c), and what it comes to for one tick.

    Scaling by 1.0 / n is taken as exact division rounding toward zero. */
module Pcm {

  const INT16_MIN: int := -0x8000
  const INT16_MAX: int := 0x7fff
  const INT32_MIN: int := -0x8000_0000
  const INT32_MAX: int := 0x7fff_ffff

  type Sample = x: int | -0x8000 <= x <= 0x7fff

  function Clip(x: int, lo: int, hi: int): int {
    if x > hi then hi else if x < lo then lo else x
  }

  /** Division rounding toward zero, for a positive divisor. */
  function Quotient(a: int, n: nat): int
    requires n > 0
  {
    if a >= 0 then a / n else -((-a) / n)
  }

  function Sum32(a: seq<int>, b: seq<int>): seq<int>
    requires |a| == |b|
  {
    seq(|a|, i requires 0 <= i < |a| => Clip(a[i] + b[i], INT32_MIN, INT32_MAX))
  }

  function Scaled(a: seq<int>, n: nat): seq<int>
    requires n > 0
  {
    seq(|a|, i requires 0 <= i < |a| => Quotient(a[i], n))
  }

  function Clipped16(a: seq<int>): seq<int> {
    seq(|a|, i requires 0 <= i < |a| => Clip(a[i], INT16_MIN, INT16_MAX))
  }

  // ------------------------------------------------------------------ in place

  /** ov_pcm_16_scale_to_32 with a factor of one. */
  method ScaleTo32(input: array<int>, out: array<int>)
    requires input.Length == out.Length && input != out
    modifies out
    ensures out[..] == input[..]
  {
    for i := 0 to input.Length
      invariant out[..i] == input[..i]
    {
      out[i] := input[i];
    }
  }

  /** ov_pcm_32_add. */
  method Add32(acc: array<int>, x: array<int>)
    requires acc.Length == x.Length && acc != x
    modifies acc
    ensures acc[..] == Sum32(old(acc[..]), x[..])
  {
    for i := 0 to acc.Length
      invariant forall k :: 0 <= k < i ==> acc[k] == Clip(old(acc[k]) + x[k], INT32_MIN, INT32_MAX)
      invariant forall k :: i <= k < acc.Length ==> acc[k] == old(acc[k])
    {
      acc[i] := Clip(acc[i] + x[i], INT32_MIN, INT32_MAX);
    }
  }

  /** ov_pcm_32_scale by one over n. */
  method Scale32(pcm: array<int>, n: nat)
    requires n > 0
    modifies pcm
    ensures pcm[..] == Scaled(old(pcm[..]), n)
  {
    for i := 0 to pcm.Length
      invariant forall k :: 0 <= k < i ==> pcm[k] == Quotient(old(pcm[k]), n)
      invariant forall k :: i <= k < pcm.Length ==> pcm[k] == old(pcm[k])
    {
      pcm[i] := Quotient(pcm[i], n);
    }
  }

  /** ov_pcm_32_clip_to_16. */
  method ClipTo16(input: array<int>, out: array<int>)
    requires input.Length == out.Length && input != out
    modifies out
    ensures out[..] == Clipped16(input[..])
  {
    for i := 0 to input.Length
      invariant forall k :: 0 <= k < i ==> out[k] == Clip(input[k], INT16_MIN, INT16_MAX)
    {
      out[i] := Clip(input[i], INT16_MIN, INT16_MAX);
    }
  }

  // ---------------------------------------------------------------- arithmetic

  /** The exact sum of the samples at position i. */
  function ColumnSum(us: seq<seq<Sample>>, i: nat): int
    requires forall j :: 0 <= j < |us| ==> i < |us[j]|
  {
    if us == [] then 0 else us[0][i] + ColumnSum(us[1..], i)
  }

  lemma {:induction false} ColumnSumBetween(us: seq<seq<Sample>>, i: nat, lo: int, hi: int)
    requires forall j :: 0 <= j < |us| ==> i < |us[j]| && lo <= us[j][i] <= hi
    ensures lo * |us| <= ColumnSum(us, i) <= hi * |us|
  {
    if us != [] {
      ColumnSumBetween(us[1..], i, lo, hi);
      assert lo * |us| == lo * |us[1..]| + lo && hi * |us| == hi * |us[1..]| + hi;
    }
  }

  /** A mean rounded toward zero stays between bounds on what it is the mean of. */
  lemma QuotientBetween(sum: int, n: nat, lo: int, hi: int)
    requires n > 0 && lo * n <= sum <= hi * n
    ensures lo <= Quotient(sum, n) <= hi
  {
    if sum >= 0 {
      DivBetween(sum, n, lo, hi);
    } else {
      assert (-hi) * n == -(hi * n) && (-lo) * n == -(lo * n);
      DivBetween(-sum, n, -hi, -lo);
    }
  }

  lemma DivBetween(a: nat, n: nat, lo: int, hi: int)
    requires n > 0 && lo * n <= a <= hi * n
    ensures lo <= a / n <= hi
  {
    var q := a / n;
    assert a == q * n + a % n;
    MulMonotone(q + 1, lo, n);
    MulMonotone(hi + 1, q, n);
  }

  lemma MulMonotone(a: int, b: int, n: nat)
    ensures a <= b ==> a * n <= b * n
  {
  }

  /** What a conversion from double to an integer does. */
  function Truncate(x: real): int {
    if x >= 0.0 then x.Floor else -((-x).Floor)
  }

  /** Whatever the rounding of 1.0 / n and of the product with it: as long as the product is less
      than one off the mean, the result is at most one outside the bounds. */
  lemma RoundedWithinOne(sum: int, n: nat, lo: int, hi: int, product: real)
    requires n > 0 && lo * n <= sum <= hi * n
    requires sum as real / n as real - 1.0 < product < sum as real / n as real + 1.0
    ensures lo - 1 <= Truncate(product) <= hi + 1
  {
    RealMean(sum, n, lo, hi);
    assert (lo - 1) as real < product < (hi + 1) as real;
  }

  lemma RealMean(sum: int, n: nat, lo: int, hi: int)
    requires n > 0 && lo * n <= sum <= hi * n
    ensures lo as real <= sum as real / n as real <= hi as real
  {
    assert (lo * n) as real == lo as real * n as real && (hi * n) as real == hi as real * n as real;
    var m := sum as real / n as real;
    assert m * n as real == sum as real;
  }

  lemma {:induction false} ConstantColumn(us: seq<seq<Sample>>)
    requires forall j :: 0 <= j < |us| ==> us[j] == [INT16_MIN]
    ensures ColumnSum(us, 0) == INT16_MIN * |us|
  {
    if us != [] { ConstantColumn(us[1..]); }
  }

  /** Whatever n samples are added up, the sum fits 32 bits iff n is at most 65536. */
  lemma AccumulatorFitsExactly(n: nat)
    ensures (forall us: seq<seq<Sample>> :: |us| == n && (forall j :: 0 <= j < n ==> |us[j]| == 1)
               ==> INT32_MIN <= ColumnSum(us, 0) <= INT32_MAX)
       <==> n <= 65536
  {
    if n <= 65536 {
      forall us: seq<seq<Sample>> | |us| == n && (forall j :: 0 <= j < n ==> |us[j]| == 1)
        ensures INT32_MIN <= ColumnSum(us, 0) <= INT32_MAX
      {
        ColumnSumBetween(us, 0, INT16_MIN, INT16_MAX);
      }
    } else {
      var us: seq<seq<Sample>> := seq(n, _ => [INT16_MIN]);
      ConstantColumn(us);
      assert |us| == n && !(INT32_MIN <= ColumnSum(us, 0));
    }
  }
}
