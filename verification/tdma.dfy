/** The `SolveTDMA` template of src/ludwig/solver/tdma.h: the Thomas algorithm over `Matrix`
    operands. A and b are copies (`Matrix` has a copying constructor); b(i) and x(i) are
    column 0 of their matrices, which is slot i of the buffer. Unlike the `Mat2` variant, x is
    not resized: it must already hold m = b.size elements, and only x(0 .. m) is written. */
module Tdma {
  import opened Primitive
  import Matrices
  import CoreTypes
  import Thomas
  import UniformGrid

  /** A is a valid `Matrix` whose leading m x m block (m = b.size) holds the system, and x has
      room for the m unknowns. */
  predicate Fits(a: Matrices.Matrix, b: Matrices.Matrix, x: Matrices.Matrix)
  {
    a.Valid() && b.Size() <= a.dim1 && b.Size() <= a.dim2 && b.Size() <= x.Size()
  }

  /** The system `SolveTDMA(A, b, x)` solves: A(i, j) is `data[i + j * dim1]`, b(i) is
      `b.data[i]`. */
  function SystemOf(a: Matrices.Matrix, b: Matrices.Matrix): (s: Thomas.System)
    requires a.Valid() && 2 <= b.Size() <= a.dim1 && b.Size() <= a.dim2
    ensures s.Wf() && s.M() == b.Size() && s.b == b.data
  {
    Thomas.System(a.data, a.dim1, b.data)
  }

  /** `SolveTDMA(A, b, x)`: m = b.size (at least 2, within the `int` counters); x keeps its
      shape and everything from slot m on, and x(0 .. m) receives the solution. When A is
      tridiagonal that solution solves A x = b exactly. */
  method SolveTdma(a: Matrices.Matrix, b: Matrices.Matrix, x0: Matrices.Matrix)
    returns (x: Matrices.Matrix)
    requires Fits(a, b, x0) && 2 <= b.Size() && b.Size() - 2 < I32_LIMIT
    requires Thomas.PivotsNonZero(Thomas.BandOf(SystemOf(a, b)))
    ensures x.dim1 == x0.dim1 && x.dim2 == x0.dim2 && x.Size() == x0.Size()
    ensures x.data[..b.Size()] == Thomas.Solution(SystemOf(a, b))
    ensures x.data[b.Size()..] == x0.data[b.Size()..]
    ensures Thomas.Tridiagonal(SystemOf(a, b)) ==> forall i :: 0 <= i < b.Size() ==>
      Thomas.RowDot(SystemOf(a, b), i, x.data[..b.Size()], b.Size()) == b.data[i]
  {
    var m: u32 := b.Size();
    var data := Thomas.Solve(a.data, a.dim1, b.data, x0.data);
    x := Matrices.Matrix(x0.dim1, x0.dim2, data);
    if Thomas.Tridiagonal(SystemOf(a, b)) {
      Thomas.SolutionSolves(SystemOf(a, b));
    }
  }

  /** Both templates solve the same system on equal inputs: a `Mat2` and a `Matrix` over one
      buffer, with b given as a vector and as a matrix, give the same m unknowns. */
  method SameAsMat2(a: CoreTypes.Mat2, b: seq<real>, x0: Matrices.Matrix)
    returns (viaMat2: seq<real>, viaMatrix: Matrices.Matrix)
    requires UniformGrid.Fits(a, b) && 2 <= |b| && |b| - 2 < I32_LIMIT && |b| <= x0.Size()
    requires Thomas.PivotsNonZero(Thomas.BandOf(UniformGrid.SystemOf(a, b)))
    ensures viaMatrix.Size() == x0.Size() && viaMat2 == viaMatrix.data[..|b|]
  {
    var am := Matrices.Matrix(a.rows, a.cols, a.data);
    var bm := Matrices.Matrix(|b|, 1, b);
    assert Fits(am, bm, x0);
    assert SystemOf(am, bm) == UniformGrid.SystemOf(a, b);
    viaMat2 := UniformGrid.SolveTdma(a, b, x0.data);
    viaMatrix := SolveTdma(am, bm, x0);
  }
}
