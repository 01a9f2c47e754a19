/** src/ludwig/mesh/uniform-grid.h: the `SolveTDMA` template over a `Mat2` matrix and
    `std::vector` right-hand side and unknowns. `inflation_layer`, from the same header, is
    module `Inflation`. */
module UniformGrid {
  import opened Primitive
  import CoreTypes
  import Thomas

  /** `std::vector::resize(m)`: the first m elements are kept and new ones are zero. */
  function Resize(x: seq<real>, m: nat): (r: seq<real>)
    ensures |r| == m
    ensures forall k :: 0 <= k < m ==> r[k] == if k < |x| then x[k] else 0.0
  {
    if m <= |x| then x[..m] else x + seq(m - |x|, _ => 0.0)
  }

  /** A is a valid `Mat2` whose leading m x m block (m = |b|) holds the system. */
  predicate Fits(a: CoreTypes.Mat2, b: seq<real>)
  {
    a.Valid() && |b| <= a.rows && |b| <= a.cols
  }

  /** The system that `SolveTDMA(A, b, x)` solves: A(i, j) is `data[i + j * rows]`. */
  function SystemOf(a: CoreTypes.Mat2, b: seq<real>): (s: Thomas.System)
    requires Fits(a, b) && 2 <= |b|
    ensures s.Wf() && s.M() == |b|
  {
    Thomas.System(a.data, a.rows, b)
  }

  /** `SolveTDMA(A, b, x)`: m = b.size() (which needs at least 2 and fits the `int` counters),
      x is resized to m and then holds the solution. b is a by-value copy; A is a shallow copy
      whose buffer the sweep writes c' into, which this model does not track. When
      A is tridiagonal the result solves A x = b exactly. */
  method SolveTdma(a: CoreTypes.Mat2, b: seq<real>, x0: seq<real>) returns (x: seq<real>)
    requires Fits(a, b) && 2 <= |b| && |b| - 2 < I32_LIMIT
    requires Thomas.PivotsNonZero(Thomas.BandOf(SystemOf(a, b)))
    ensures |x| == |b|
    ensures x == Thomas.Solution(SystemOf(a, b))
    ensures Thomas.Tridiagonal(SystemOf(a, b)) ==>
      forall i :: 0 <= i < |b| ==> Thomas.RowDot(SystemOf(a, b), i, x, |b|) == b[i]
  {
    var m: u32 := |b|;
    var resized := Resize(x0, m);
    x := Thomas.Solve(a.data, a.rows, b, resized);
    assert x == x[..m];
    if Thomas.Tridiagonal(SystemOf(a, b)) {
      Thomas.SolutionSolves(SystemOf(a, b));
    }
  }
}
