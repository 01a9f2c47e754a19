/** `linspace` of src/ludwig/core/linspace.h: n points from start to end with constant
    spacing `(end - start) / (n - 1)`. */
module Spacing {
  import opened Primitive

  /** The spacing `delta` of an n-point grid from start to end. */
  function Delta(start: real, end: real, n: nat): real
    requires n >= 2
  {
    (end - start) / ((n - 1) as real)
  }

  /** `linspace(start, end, n)`: n zero-initialised slots, returned as they are for n == 0,
      otherwise slot i set to `start + delta * i`. For n == 1 the spacing divides by zero, so
      that count is excluded. */
  function Linspace(start: real, end: real, n: u64): (r: seq<real>)
    requires n != 1
    ensures |r| == n
    ensures n >= 2 ==> r[0] == start && r[n - 1] == end
    ensures n >= 2 ==> forall i :: 0 <= i < n ==> r[i] == start + Delta(start, end, n) * (i as real)
  {
    if n == 0 then []
    else
      var delta := Delta(start, end, n);
      var r := seq(n, i => start + delta * (i as real));
      var m: nat := n - 1;
      var last := m as real;
      assert r[m] == start + delta * last;
      assert last != 0.0 && delta == (end - start) / last;
      assert delta * last == end - start;
      r
  }

  /** Neighbouring points are exactly `delta` apart. */
  lemma ConstantSpacing(start: real, end: real, n: u64, i: nat)
    requires n >= 2 && i + 1 < n
    ensures Linspace(start, end, n)[i + 1] - Linspace(start, end, n)[i] == Delta(start, end, n)
  {
  }

  lemma PositiveScale(d: real, a: real, b: real)
    requires 0.0 < d && a < b
    ensures d * a < d * b
  {
    assert d * b - d * a == d * (b - a);
  }

  /** For start < end the points strictly increase. */
  lemma StrictlyIncreasing(start: real, end: real, n: u64, i: nat, j: nat)
    requires start < end && n >= 2 && i < j < n
    ensures Linspace(start, end, n)[i] < Linspace(start, end, n)[j]
  {
    var d := Delta(start, end, n);
    assert 0.0 < d;
    PositiveScale(d, i as real, j as real);
  }

  /** For start <= end every point lies between the endpoints. */
  lemma WithinEndpoints(start: real, end: real, n: u64, i: nat)
    requires start <= end && n >= 2 && i < n
    ensures start <= Linspace(start, end, n)[i] <= end
  {
    var r := Linspace(start, end, n);
    if start < end {
      if 0 < i {
        StrictlyIncreasing(start, end, n, 0, i);
      }
      if i < n - 1 {
        StrictlyIncreasing(start, end, n, i, n - 1);
      }
    }
  }
}
