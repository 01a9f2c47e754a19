/** src/ludwig/mesh/uniform-grid.h: `inflation_layer`, a geometric sequence of grid values.
    It shares its header with `SolveTDMA` (module `UniformGrid`) but none of its types. */
module Inflation {
  import opened Primitive

  /** `pow(g, n)` for a whole exponent n: g multiplied by itself n times. */
  function Pow(g: real, n: nat): real
  {
    if n == 0 then 1.0 else Pow(g, n - 1) * g
  }

  /** `inflation_layer(H, N, g)`: N zeros, then y[1] = H (1 - g) / (1 - g^(N+1)) and
      y[i] = y[1] g^(i-1) for 2 <= i < N. Writing y[1] needs N >= 2, the `int` counter must
      reach N, and the denominator must not vanish. */
  method InflationLayer(h: real, n: u32, g: real) returns (y: seq<real>)
    requires 2 <= n < I32_LIMIT && Pow(g, n + 1) != 1.0
    ensures |y| == n && y[0] == 0.0
    ensures y[1] * (1.0 - Pow(g, n + 1)) == h * (1.0 - g)
    ensures forall i :: 1 <= i < n ==> y[i] == y[1] * Pow(g, i - 1)
  {
    y := seq(n, _ => 0.0);
    var first := h * (1.0 - g) / (1.0 - Pow(g, n + 1));
    y := y[1 := first];
    var i := 2;
    while i < n
      invariant 2 <= i <= n && |y| == n && y[0] == 0.0 && y[1] == first
      invariant forall k :: 1 <= k < i ==> y[k] == first * Pow(g, k - 1)
    {
      y := y[i := y[1] * Pow(g, i - 1)];
      i := i + 1;
    }
  }

  /** The sum of a sequence, added from the front. */
  function Sum(s: seq<real>): real
  {
    if |s| == 0 then 0.0 else Sum(s[..|s| - 1]) + s[|s| - 1]
  }

  /** 1 + g + ... + g^(n-1). */
  function GeometricSum(g: real, n: nat): real
  {
    if n == 0 then 0.0 else GeometricSum(g, n - 1) + Pow(g, n - 1)
  }

  /** The closed form of the geometric sum: (1 - g) (1 + g + ... + g^(n-1)) = 1 - g^n. */
  lemma {:induction false} GeometricSumClosed(g: real, n: nat)
    ensures (1.0 - g) * GeometricSum(g, n) == 1.0 - Pow(g, n)
  {
    if n > 0 {
      GeometricSumClosed(g, n - 1);
      assert (1.0 - g) * Pow(g, n - 1) == Pow(g, n - 1) - Pow(g, n);
    }
  }

  /** The first k values of a layer add up to y[1] (1 + g + ... + g^(k-2)). */
  lemma {:induction false} LayerPrefixSum(y: seq<real>, g: real, k: nat)
    requires 2 <= |y| && 1 <= k <= |y| && y[0] == 0.0
    requires forall i :: 1 <= i < |y| ==> y[i] == y[1] * Pow(g, i - 1)
    ensures Sum(y[..k]) == y[1] * GeometricSum(g, k - 1)
  {
    if k == 1 {
      assert y[..1][..0] == [];
    } else {
      LayerPrefixSum(y, g, k - 1);
      assert y[..k][..k - 1] == y[..k - 1];
    }
  }

  /** The N values of a layer add up to y[1] (1 + g + ... + g^(N-2)), which by
      `GeometricSumClosed` is y[1] (1 - g^(N-1)) / (1 - g). They carry only N - 1 of the N + 1
      powers that y[1]'s denominator sums. */
  lemma InflationSum(y: seq<real>, g: real)
    requires 2 <= |y| && y[0] == 0.0
    requires forall i :: 1 <= i < |y| ==> y[i] == y[1] * Pow(g, i - 1)
    ensures Sum(y) == y[1] * GeometricSum(g, |y| - 1)
  {
    LayerPrefixSum(y, g, |y|);
    assert y[..|y|] == y;
  }

  /** `InflationSum` with the sum and the geometric sum named, so that callers reason about
      products of plain reals. */
  lemma InflationSumNamed(y: seq<real>, g: real) returns (total: real, s: real)
    requires 2 <= |y| && y[0] == 0.0
    requires forall i :: 1 <= i < |y| ==> y[i] == y[1] * Pow(g, i - 1)
    ensures total == Sum(y) && s == GeometricSum(g, |y| - 1) && total == y[1] * s
  {
    InflationSum(y, g);
    total, s := Sum(y), GeometricSum(g, |y| - 1);
  }

  /** `GeometricSumClosed` with the geometric sum and the power named. */
  lemma GeometricSumNamed(g: real, n: nat) returns (s: real, q: real)
    ensures s == GeometricSum(g, n) && q == Pow(g, n) && (1.0 - g) * s == 1.0 - q
  {
    GeometricSumClosed(g, n);
    s, q := GeometricSum(g, n), Pow(g, n);
  }

  /** The sum of a layer as `inflation_layer` builds it: with y[1] (1 - g^(N+1)) = H (1 - g),
      the N values add up to H (1 - g^(N-1)) / (1 - g^(N+1)), which is H only where
      g^(N-1) = g^(N+1). The sum and the two powers are passed in as `total`, `p` and `q`. */
  lemma InflationShortfall(y: seq<real>, h: real, g: real, total: real, p: real, q: real)
    requires 2 <= |y| && y[0] == 0.0
    requires total == Sum(y) && p == Pow(g, |y| + 1) && q == Pow(g, |y| - 1)
    requires y[1] * (1.0 - p) == h * (1.0 - g)
    requires forall i :: 1 <= i < |y| ==> y[i] == y[1] * Pow(g, i - 1)
    ensures total * (1.0 - p) == h * (1.0 - q)
  {
    var _, s := InflationSumNamed(y, g);
    ShortfallOfGeometric(total, y[1], s, p, q, h, g, |y| - 1);
  }

  /** `ShortfallAlgebra` with s the geometric sum 1 + g + ... + g^(n-1) and q = g^n. */
  lemma ShortfallOfGeometric(total: real, y1: real, s: real, p: real, q: real, h: real, g: real, n: nat)
    requires s == GeometricSum(g, n) && q == Pow(g, n)
    requires total == y1 * s && y1 * (1.0 - p) == h * (1.0 - g)
    ensures total * (1.0 - p) == h * (1.0 - q)
  {
    var _, _ := GeometricSumNamed(g, n);
    ShortfallAlgebra(total, y1, s, p, q, h, g);
  }

  /** total = y1 s, y1 (1 - p) = h (1 - g) and (1 - g) s = 1 - q give total (1 - p) = h (1 - q). */
  lemma ShortfallAlgebra(total: real, y1: real, s: real, p: real, q: real, h: real, g: real)
    requires total == y1 * s && y1 * (1.0 - p) == h * (1.0 - g) && (1.0 - g) * s == 1.0 - q
    ensures total * (1.0 - p) == h * (1.0 - q)
  {
    assert total * (1.0 - p) == (y1 * (1.0 - p)) * s;
    assert h * (1.0 - g) * s == h * ((1.0 - g) * s);
  }

  /** For a positive ratio g other than 1 and a positive height, the layer falls short of H.
      The power g^(N+1) is passed in as `p`. */
  lemma InflationFallsShort(y: seq<real>, h: real, g: real, p: real)
    requires 2 <= |y| && y[0] == 0.0
    requires p == Pow(g, |y| + 1) && y[1] * (1.0 - p) == h * (1.0 - g)
    requires forall i :: 1 <= i < |y| ==> y[i] == y[1] * Pow(g, i - 1)
    requires 0.0 < h && 0.0 < g && g != 1.0
    ensures Sum(y) < h
  {
    var total, q := Sum(y), Pow(g, |y| - 1);
    InflationShortfall(y, h, g, total, p, q);
    FallsShort(total, h, g, |y| - 1, p, q);
  }

  /** total (1 - g^(n+2)) = h (1 - g^n) with h > 0 and 0 < g != 1 forces total < h: the two
      powers lie on the same side of 1, g^(n+2) the farther from it. */
  lemma FallsShort(total: real, h: real, g: real, n: nat, p: real, q: real)
    requires p == Pow(g, n + 2) && q == Pow(g, n)
    requires total * (1.0 - p) == h * (1.0 - q)
    requires 0.0 < h && 0.0 < g && g != 1.0
    ensures total < h
  {
    assert Pow(g, n + 1) == q * g;
    assert p == q * g * g == q * (g * g);
    PowBounds(g, n);
    if g < 1.0 {
      assert g * g < g * 1.0;
      assert q * (g * g) < q * 1.0;
      FallsShortBelow(total, h, p, q);
    } else {
      assert g * 1.0 < g * g;
      assert q * 1.0 < q * (g * g);
      FallsShortAbove(total, h, p, q);
    }
  }

  /** total (1 - p) = h (1 - q) with p < q <= 1 and h > 0 forces total < h. */
  lemma FallsShortBelow(total: real, h: real, p: real, q: real)
    requires total * (1.0 - p) == h * (1.0 - q) && p < q <= 1.0 && 0.0 < h
    ensures total < h
  {
    var d := 1.0 - p;
    assert 0.0 < d;
    assert (h - total) * d == h * (q - p);
    assert 0.0 < h * (q - p);
    PositiveFactor(h - total, d);
  }

  /** total (1 - p) = h (1 - q) with 1 <= q < p and h > 0 forces total < h. */
  lemma FallsShortAbove(total: real, h: real, p: real, q: real)
    requires total * (1.0 - p) == h * (1.0 - q) && 1.0 <= q < p && 0.0 < h
    ensures total < h
  {
    var d := p - 1.0;
    assert 0.0 < d;
    assert (h - total) * d == h * (p - q);
    assert 0.0 < h * (p - q);
    PositiveFactor(h - total, d);
  }

  /** A product that is positive with one positive factor has the other factor positive. */
  lemma PositiveFactor(a: real, d: real)
    requires 0.0 < d && 0.0 < a * d
    ensures 0.0 < a
  {
  }

  /** Powers of a positive g are positive, at most 1 when g < 1 and at least 1 when g > 1. */
  lemma {:induction false} PowBounds(g: real, n: nat)
    requires 0.0 < g
    ensures 0.0 < Pow(g, n)
    ensures g < 1.0 ==> Pow(g, n) <= 1.0
    ensures 1.0 < g ==> 1.0 <= Pow(g, n)
  {
    if n > 0 {
      PowBounds(g, n - 1);
      var q := Pow(g, n - 1);
      assert 0.0 < q * g;
      if g < 1.0 {
        assert q * g <= q * 1.0;
      }
      if 1.0 < g {
        assert q * 1.0 <= q * g;
      }
    }
  }

  /** Consecutive values of a layer grow by the factor g. */
  lemma InflationRatio(y: seq<real>, g: real, i: nat)
    requires 1 <= i && i + 1 < |y|
    requires forall k :: 1 <= k < |y| ==> y[k] == y[1] * Pow(g, k - 1)
    ensures y[i + 1] == g * y[i]
  {
    assert y[i + 1] == y[1] * (Pow(g, i - 1) * g);
  }
}
