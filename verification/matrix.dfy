/** `Matrix<f64>` of src/ludwig/types/matrix.h: a dense column-major buffer with `dim1`
    rows and `dim2` columns. Its `size` is the length of the buffer; the constructors compute
    it as the unsigned 32-bit product `d1 * d2`, which wraps for very large dimensions. */
module Matrices {
  import opened Primitive
  import ColumnMajor

  datatype Matrix = Matrix(dim1: u32, dim2: u32, data: seq<real>)
  {
    function Size(): nat
    {
      |data|
    }

    /** The buffer holds exactly dim1 * dim2 values (the size product did not wrap), so every
        in-range cell addresses a slot of the buffer. The second conjunct follows from the
        first (ColumnMajor.AreaAddressable); it is spelled out for callers. */
    predicate Valid()
    {
      && |data| == ColumnMajor.Area(dim1, dim2)
      && ColumnMajor.Addressable(data, dim1, dim1, dim2)
    }
  }

  /** A buffer of n copies of v. */
  function Constant(n: nat, v: real): (r: seq<real>)
    ensures |r| == n && forall k :: 0 <= k < n ==> r[k] == v
  {
    seq(n, _ => v)
  }

  // ---------------------------------------------------------------- constructors

  /** `Matrix()`: one row, one column, holding 0. */
  function Default(): (m: Matrix)
    ensures m.Valid() && m.dim1 == 1 && m.dim2 == 1
    ensures m.Size() == 1 && Get(m, 0, 0) == 0.0
  {
    ColumnMajor.AreaAddressable([0.0], 1, 1);
    Matrix(1, 1, [0.0])
  }

  /** `Matrix(d1, d2)`: `size` is the 32-bit product d1 * d2 and the buffer is zeroed. */
  function Zeros(d1: u32, d2: u32): (m: Matrix)
    ensures m.dim1 == d1 && m.dim2 == d2 && m.Size() == MulU32(d1, d2)
    ensures d1 * d2 < U32_LIMIT ==> m.Valid()
    ensures forall k :: 0 <= k < m.Size() ==> m.data[k] == 0.0
  {
    Filled(d1, d2, 0.0)
  }

  /** A buffer of d1 * d2 values, the size the constructors compute, makes a valid matrix. */
  function Shaped(d1: u32, d2: u32, data: seq<real>): (m: Matrix)
    requires d1 * d2 < U32_LIMIT && |data| == d1 * d2
    ensures m == Matrix(d1, d2, data) && m.Valid()
  {
    ColumnMajor.AreaIsProduct(d1, d2);
    ColumnMajor.AreaAddressable(data, d1, d2);
    Matrix(d1, d2, data)
  }

  /** `Matrix(d1, d2, init)`: every slot of the buffer holds init. */
  function Filled(d1: u32, d2: u32, init: real): (m: Matrix)
    ensures m.dim1 == d1 && m.dim2 == d2 && m.Size() == MulU32(d1, d2)
    ensures d1 * d2 < U32_LIMIT ==> m.Valid()
    ensures forall k :: 0 <= k < m.Size() ==> m.data[k] == init
  {
    var data := Constant(MulU32(d1, d2), init);
    if d1 * d2 < U32_LIMIT then Shaped(d1, d2, data) else Matrix(d1, d2, data)
  }

  /** `Matrix(d1, d2, const T* init)`: copies the first `size` values of init, in order. */
  function FromBuffer(d1: u32, d2: u32, init: seq<real>): (m: Matrix)
    requires |init| >= MulU32(d1, d2)
    ensures m.dim1 == d1 && m.dim2 == d2 && m.Size() == MulU32(d1, d2)
    ensures d1 * d2 < U32_LIMIT ==> m.Valid()
    ensures forall k :: 0 <= k < m.Size() ==> m.data[k] == init[k]
  {
    var data := init[..MulU32(d1, d2)];
    if d1 * d2 < U32_LIMIT then Shaped(d1, d2, data) else Matrix(d1, d2, data)
  }

  // ---------------------------------------------------------------- element access

  /** `operator[](k)`: flat access, no check beyond the buffer itself. */
  function At(m: Matrix, k: nat): real
    requires k < m.Size()
  {
    m.data[k]
  }

  /** `operator()(i, j)`: cell (i, j) is flat slot i + j * dim1; nothing checks i < dim1. */
  function Get(m: Matrix, i: nat, j: nat): real
    requires ColumnMajor.Slot(i, j, m.dim1) < m.Size()
  {
    ColumnMajor.Get(m.data, m.dim1, i, j)
  }

  /** Writing through `operator()(i, j)`. */
  function Set(m: Matrix, i: nat, j: nat, v: real): (r: Matrix)
    requires ColumnMajor.Slot(i, j, m.dim1) < m.Size()
    ensures r.dim1 == m.dim1 && r.dim2 == m.dim2 && r.Size() == m.Size()
    ensures m.Valid() ==> r.Valid()
    ensures Get(r, i, j) == v
  {
    Matrix(m.dim1, m.dim2, ColumnMajor.Set(m.data, m.dim1, i, j, v))
  }

  /** Cell access and flat access name the same storage: every slot k of a valid matrix is
      the in-range cell (k % dim1, k / dim1), and every in-range cell is one slot. */
  lemma FlatAndCellAgree(m: Matrix, k: nat, i: nat, j: nat)
    requires m.Valid() && k < m.Size()
    requires i < m.dim1 && j < m.dim2
    ensures 0 < m.dim1 && ColumnMajor.Cell(k, m.dim1).1 < m.dim2
    ensures At(m, k) == Get(m, ColumnMajor.Cell(k, m.dim1).0, ColumnMajor.Cell(k, m.dim1).1)
    ensures ColumnMajor.Slot(i, j, m.dim1) < m.Size()
    ensures ColumnMajor.Cell(ColumnMajor.Slot(i, j, m.dim1), m.dim1) == (i, j)
  {
    ColumnMajor.CellInRange(k, m.dim1, m.dim2);
    ColumnMajor.CellOfSlot(i, j, m.dim1);
  }

  /** Distinct in-range cells of a valid matrix address distinct slots below `size`. */
  lemma CellsHaveDistinctSlots(m: Matrix, i: nat, j: nat, i2: nat, j2: nat)
    requires m.Valid()
    requires i < m.dim1 && j < m.dim2 && i2 < m.dim1 && j2 < m.dim2
    requires i != i2 || j != j2
    ensures ColumnMajor.Slot(i, j, m.dim1) < m.Size()
    ensures ColumnMajor.Slot(i, j, m.dim1) != ColumnMajor.Slot(i2, j2, m.dim1)
  {
    if ColumnMajor.Slot(i, j, m.dim1) == ColumnMajor.Slot(i2, j2, m.dim1) {
      ColumnMajor.SlotInjective(i, j, i2, j2, m.dim1);
    }
  }

  /** Writing one cell leaves every other cell unchanged. */
  lemma SetLeavesOtherCells(m: Matrix, i: nat, j: nat, v: real, i2: nat, j2: nat)
    requires m.Valid()
    requires i < m.dim1 && j < m.dim2 && i2 < m.dim1 && j2 < m.dim2
    ensures Get(Set(m, i, j, v), i2, j2) == if i2 == i && j2 == j then v else Get(m, i2, j2)
  {
    ColumnMajor.SetLeavesOthers(m.data, m.dim1, i, j, v);
  }

  /** Two valid matrices of the same shape that agree on every cell are equal. */
  lemma CellwiseEqual(a: Matrix, b: Matrix)
    requires a.Valid() && b.Valid() && a.dim1 == b.dim1 && a.dim2 == b.dim2
    requires forall i: nat, j: nat :: i < a.dim1 && j < a.dim2 ==> Get(a, i, j) == Get(b, i, j)
    ensures a == b
  {
    forall i: nat, j: nat | i < a.dim1 && j < a.dim2 && ColumnMajor.Slot(i, j, a.dim1) < |a.data|
      ensures a.data[ColumnMajor.Slot(i, j, a.dim1)] == b.data[ColumnMajor.Slot(i, j, a.dim1)]
    {
      assert Get(a, i, j) == Get(b, i, j);
    }
    ColumnMajor.CellwiseEqual(a.data, b.data, a.dim1, a.dim2);
  }

  // ---------------------------------------------------------------- comparison

  /** `operator==`: the sizes, both dimensions and then every element of the buffers agree. */
  function Equals(a: Matrix, b: Matrix): (r: bool)
    ensures r <==> a == b
  {
    if a.Size() != b.Size() || a.dim1 != b.dim1 || a.dim2 != b.dim2 then false
    else forall k :: 0 <= k < a.Size() ==> a.data[k] == b.data[k]
  }

  /** The equality checks of the matrix tests: equal fills of one shape compare equal, a 2 x 3
      and a 3 x 2 all-ones matrix do not (same size, different shape), nor do 2 x 3 and 2 x 2. */
  lemma EqualityExamples()
    ensures Equals(Filled(2, 3, 1.0), Filled(2, 3, 1.0))
    ensures !Equals(Filled(2, 3, 1.0), Filled(3, 2, 1.0))
    ensures !Equals(Filled(2, 3, 1.0), Filled(2, 2, 2.0))
    ensures !Equals(Filled(2, 2, 2.0), Filled(2, 3, 1.0))
  {
  }

  // ---------------------------------------------------------------- arithmetic

  /** The element operation of a compound assignment: `+=`, `-=` or `*=`. */
  datatype Op = Plus | Minus | Times

  function Apply(op: Op, a: real, b: real): real
  {
    match op
    case Plus => a + b
    case Minus => a - b
    case Times => a * b
  }

  /** The loop `for (i = 0; i < size; i++) data[i] op= operand[i]`, folded from the front. */
  function Combine(data: seq<real>, op: Op, operand: seq<real>): (r: seq<real>)
    requires |operand| >= |data|
    ensures |r| == |data|
    ensures forall k :: 0 <= k < |data| ==> r[k] == Apply(op, data[k], operand[k])
    decreases |data|
  {
    if |data| == 0 then []
    else
      var n := |data| - 1;
      Combine(data[..n], op, operand) + [Apply(op, data[n], operand[n])]
  }

  /** `lhs += rhs` with a matrix: element k of rhs is added to element k, for k < lhs.size;
      rhs must have at least that many elements. The shape of lhs is kept. */
  function AddAssign(lhs: Matrix, rhs: Matrix): (r: Matrix)
    requires rhs.Size() >= lhs.Size()
    ensures r.dim1 == lhs.dim1 && r.dim2 == lhs.dim2 && r.Size() == lhs.Size()
    ensures lhs.Valid() ==> r.Valid()
    ensures forall k :: 0 <= k < r.Size() ==> r.data[k] == lhs.data[k] + rhs.data[k]
  {
    Matrix(lhs.dim1, lhs.dim2, Combine(lhs.data, Plus, rhs.data))
  }

  /** `lhs -= rhs` with a matrix. */
  function SubAssign(lhs: Matrix, rhs: Matrix): (r: Matrix)
    requires rhs.Size() >= lhs.Size()
    ensures r.dim1 == lhs.dim1 && r.dim2 == lhs.dim2 && r.Size() == lhs.Size()
    ensures lhs.Valid() ==> r.Valid()
    ensures forall k :: 0 <= k < r.Size() ==> r.data[k] == lhs.data[k] - rhs.data[k]
  {
    Matrix(lhs.dim1, lhs.dim2, Combine(lhs.data, Minus, rhs.data))
  }

  /** `lhs += s` with a scalar: s is added to every element. */
  function AddAssignScalar(lhs: Matrix, s: real): (r: Matrix)
    ensures r.dim1 == lhs.dim1 && r.dim2 == lhs.dim2 && r.Size() == lhs.Size()
    ensures lhs.Valid() ==> r.Valid()
    ensures forall k :: 0 <= k < r.Size() ==> r.data[k] == lhs.data[k] + s
  {
    Matrix(lhs.dim1, lhs.dim2, Combine(lhs.data, Plus, Constant(lhs.Size(), s)))
  }

  /** `lhs -= s` with a scalar. */
  function SubAssignScalar(lhs: Matrix, s: real): (r: Matrix)
    ensures r.dim1 == lhs.dim1 && r.dim2 == lhs.dim2 && r.Size() == lhs.Size()
    ensures lhs.Valid() ==> r.Valid()
    ensures forall k :: 0 <= k < r.Size() ==> r.data[k] == lhs.data[k] - s
  {
    Matrix(lhs.dim1, lhs.dim2, Combine(lhs.data, Minus, Constant(lhs.Size(), s)))
  }

  /** `lhs *= s` with a scalar. */
  function MulAssignScalar(lhs: Matrix, s: real): (r: Matrix)
    ensures r.dim1 == lhs.dim1 && r.dim2 == lhs.dim2 && r.Size() == lhs.Size()
    ensures lhs.Valid() ==> r.Valid()
    ensures forall k :: 0 <= k < r.Size() ==> r.data[k] == lhs.data[k] * s
  {
    Matrix(lhs.dim1, lhs.dim2, Combine(lhs.data, Times, Constant(lhs.Size(), s)))
  }

  // The binary operators copy one operand and apply the compound assignment to the copy;
  // with immutable values the operands are left as they were.

  /** `lhs + rhs`: a new matrix of lhs's shape holding the element-wise sums. */
  function Add(lhs: Matrix, rhs: Matrix): (r: Matrix)
    requires rhs.Size() >= lhs.Size()
    ensures r.dim1 == lhs.dim1 && r.dim2 == lhs.dim2 && r.Size() == lhs.Size()
    ensures forall k :: 0 <= k < r.Size() ==> r.data[k] == lhs.data[k] + rhs.data[k]
  {
    AddAssign(lhs, rhs)
  }

  /** `lhs - rhs`. */
  function Sub(lhs: Matrix, rhs: Matrix): (r: Matrix)
    requires rhs.Size() >= lhs.Size()
    ensures r.dim1 == lhs.dim1 && r.dim2 == lhs.dim2 && r.Size() == lhs.Size()
    ensures forall k :: 0 <= k < r.Size() ==> r.data[k] == lhs.data[k] - rhs.data[k]
  {
    SubAssign(lhs, rhs)
  }

  /** `lhs + s`. */
  function AddScalar(lhs: Matrix, s: real): (r: Matrix)
    ensures r.dim1 == lhs.dim1 && r.dim2 == lhs.dim2 && r.Size() == lhs.Size()
    ensures forall k :: 0 <= k < r.Size() ==> r.data[k] == lhs.data[k] + s
  {
    AddAssignScalar(lhs, s)
  }

  /** `s + rhs`: the same matrix as `rhs + s`. */
  function ScalarAdd(s: real, rhs: Matrix): (r: Matrix)
    ensures r == AddScalar(rhs, s)
  {
    AddAssignScalar(rhs, s)
  }

  /** `lhs - s`. */
  function SubScalar(lhs: Matrix, s: real): (r: Matrix)
    ensures r.dim1 == lhs.dim1 && r.dim2 == lhs.dim2 && r.Size() == lhs.Size()
    ensures forall k :: 0 <= k < r.Size() ==> r.data[k] == lhs.data[k] - s
  {
    SubAssignScalar(lhs, s)
  }

  /** `s - rhs` as written: it copies rhs and applies `-= s`, so every element is rhs's element
      minus s, not s minus the element. */
  function ScalarSub(s: real, rhs: Matrix): (r: Matrix)
    ensures r == SubScalar(rhs, s)
  {
    SubAssignScalar(rhs, s)
  }

  /** `s - rhs` as evidently intended: every element is s minus rhs's element. */
  function ScalarSubCorrected(s: real, rhs: Matrix): (r: Matrix)
    ensures r.dim1 == rhs.dim1 && r.dim2 == rhs.dim2 && r.Size() == rhs.Size()
    ensures forall k :: 0 <= k < r.Size() ==> r.data[k] == s - rhs.data[k]
  {
    Matrix(rhs.dim1, rhs.dim2, Combine(Constant(rhs.Size(), s), Minus, rhs.data))
  }

  /** `lhs * s`. */
  function MulScalar(lhs: Matrix, s: real): (r: Matrix)
    ensures r.dim1 == lhs.dim1 && r.dim2 == lhs.dim2 && r.Size() == lhs.Size()
    ensures forall k :: 0 <= k < r.Size() ==> r.data[k] == lhs.data[k] * s
  {
    MulAssignScalar(lhs, s)
  }

  /** `s * rhs`: the same matrix as `rhs * s`. */
  function ScalarMul(s: real, rhs: Matrix): (r: Matrix)
    ensures r == MulScalar(rhs, s)
  {
    MulAssignScalar(rhs, s)
  }

  /** Adding and then subtracting a scalar restores the matrix. */
  lemma ScalarRoundTrip(a: Matrix, s: real)
    ensures SubScalar(AddScalar(a, s), s) == a
    ensures AddAssignScalar(SubAssignScalar(a, s), s) == a
  {
    assert SubScalar(AddScalar(a, s), s).data == a.data;
    assert AddAssignScalar(SubAssignScalar(a, s), s).data == a.data;
  }

  /** Subtracting a matrix and adding it back restores the matrix. */
  lemma MatrixRoundTrip(a: Matrix, b: Matrix)
    requires b.Size() >= a.Size()
    ensures AddAssign(SubAssign(a, b), b) == a
    ensures Sub(Add(a, b), b) == a
  {
    assert AddAssign(SubAssign(a, b), b).data == a.data;
    assert Sub(Add(a, b), b).data == a.data;
  }

  /** Matrix addition of two same-shaped matrices commutes, and so does the scalar product. */
  lemma AddCommutes(a: Matrix, b: Matrix, s: real)
    requires a.dim1 == b.dim1 && a.dim2 == b.dim2 && a.Size() == b.Size()
    ensures Add(a, b) == Add(b, a)
    ensures MulScalar(a, s) == ScalarMul(s, a)
  {
    assert Add(a, b).data == Add(b, a).data;
  }

  /** The literal `s - M` is `M - s`: for s = 5 and the 1 x 1 matrix [1] it yields [-4], while
      the intended difference is [4]. */
  lemma ScalarSubIsMatrixMinusScalar(s: real, m: Matrix)
    ensures ScalarSub(s, m) == SubScalar(m, s)
    ensures ScalarSub(5.0, Matrix(1, 1, [1.0])).data == [-4.0]
    ensures ScalarSubCorrected(5.0, Matrix(1, 1, [1.0])).data == [4.0]
  {
    assert ScalarSub(5.0, Matrix(1, 1, [1.0])).data[0] == -4.0;
    assert ScalarSubCorrected(5.0, Matrix(1, 1, [1.0])).data[0] == 4.0;
  }

  /** The corrected `s - M` is the complement of M with respect to s: adding M back gives the
      matrix filled with s, and subtracting it from s again gives M. */
  lemma ScalarSubCorrectedComplements(s: real, m: Matrix)
    ensures AddAssign(ScalarSubCorrected(s, m), m).data == Constant(m.Size(), s)
    ensures ScalarSubCorrected(s, ScalarSubCorrected(s, m)) == m
  {
    assert ScalarSubCorrected(s, ScalarSubCorrected(s, m)).data == m.data;
  }

  // ---------------------------------------------------------------- sub-matrix

  /** The index of the t-th survivor when index d is removed. */
  function Skip(t: nat, d: nat): nat
  {
    if t < d then t else t + 1
  }

  /** The entry that `SubMatrix(d1, d2)` stores at `count == p`: its loops visit the columns
      left to right and the rows top to bottom, skip row d1 and column d2, and append each
      survivor, so position p holds survivor row p % (dim1 - 1) of survivor column
      p / (dim1 - 1). */
  function KeptEntry(m: Matrix, d1: nat, d2: nat, p: nat): real
    requires m.Valid() && d1 < m.dim1 && d2 < m.dim2
    requires p < ColumnMajor.Area(m.dim1 - 1, m.dim2 - 1)
  {
    ColumnMajor.CellInRange(p, m.dim1 - 1, m.dim2 - 1);
    var c := ColumnMajor.Cell(p, m.dim1 - 1);
    Get(m, Skip(c.0, d1), Skip(c.1, d2))
  }

  /** `SubMatrix(d1, d2)`: the (dim1 - 1) x (dim2 - 1) matrix of the elements whose row is not
      d1 and whose column is not d2, in column-major order. The source needs d1 < dim1 and
      d2 < dim2 (otherwise it writes past the new buffer). */
  function SubMatrix(m: Matrix, d1: nat, d2: nat): (r: Matrix)
    requires m.Valid() && d1 < m.dim1 && d2 < m.dim2
    ensures r.Valid() && r.dim1 == m.dim1 - 1 && r.dim2 == m.dim2 - 1
    ensures forall i: nat, j: nat :: i < r.dim1 && j < r.dim2 ==>
      Get(r, i, j) == Get(m, Skip(i, d1), Skip(j, d2))
  {
    var w := m.dim1 - 1;
    var area := ColumnMajor.Area(w, m.dim2 - 1);
    var data := seq(area, p requires 0 <= p < area => KeptEntry(m, d1, d2, p));
    ColumnMajor.AreaAddressable(data, w, m.dim2 - 1);
    var r := Matrix(w, m.dim2 - 1, data);
    assert forall i: nat, j: nat :: i < r.dim1 && j < r.dim2 ==>
      Get(r, i, j) == Get(m, Skip(i, d1), Skip(j, d2)) by {
      forall i: nat, j: nat | i < r.dim1 && j < r.dim2
        ensures Get(r, i, j) == Get(m, Skip(i, d1), Skip(j, d2))
      {
        ColumnMajor.CellOfSlot(i, j, w);
      }
    }
    r
  }

  // ---------------------------------------------------------------- determinant

  /** The value of `Determinant`, or the `invalid_argument` it throws for a non-square
      matrix. */
  datatype DetResult = Value(det: real) | InvalidArgument

  /** `sign` on the j-th pass of the expansion loop: it starts at 1 and flips every pass. */
  function Sign(j: nat): real
  {
    if j % 2 == 0 then 1.0 else -1.0
  }

  /** The determinant of a square matrix as `Determinant` computes it: the closed form for
      2 x 2, otherwise the cofactor expansion along row 0, which is empty for 0 x 0 and reaches
      the 0 x 0 minor for 1 x 1. */
  function SquareDet(m: Matrix): real
    requires m.Valid() && m.dim1 == m.dim2
    decreases m.dim1, m.dim2 + 1
  {
    if m.dim1 == 2 then Get(m, 0, 0) * Get(m, 1, 1) - Get(m, 0, 1) * Get(m, 1, 0)
    else Expansion(m, m.dim2)
  }

  /** The accumulated `determinant` after the passes for columns 0..j-1. */
  function Expansion(m: Matrix, j: nat): real
    requires m.Valid() && m.dim1 == m.dim2 && j <= m.dim2
    decreases m.dim1, j
  {
    if j == 0 then 0.0 else Expansion(m, j - 1) + Cofactor(m, j - 1)
  }

  /** The pass for column j: `M(0, j) * Determinant(SubMatrix(0, j)) * sign`. */
  function Cofactor(m: Matrix, j: nat): real
    requires m.Valid() && m.dim1 == m.dim2 && j < m.dim2
    decreases m.dim1, 0
  {
    Get(m, 0, j) * SquareDet(SubMatrix(m, 0, j)) * Sign(j)
  }

  /** `Determinant` as written: a non-square matrix is rejected, a square one is expanded. */
  function Determinant(m: Matrix): (r: DetResult)
    requires m.Valid()
    ensures r.InvalidArgument? <==> m.dim1 != m.dim2
    ensures m.dim1 == m.dim2 == 0 ==> r == Value(0.0)
    ensures m.dim1 == m.dim2 == 2 ==>
      r.det == Get(m, 0, 0) * Get(m, 1, 1) - Get(m, 0, 1) * Get(m, 1, 0)
  {
    if m.dim1 != m.dim2 then InvalidArgument
    else
      assert m.dim1 == 0 ==> SquareDet(m) == Expansion(m, 0) == 0.0;
      Value(SquareDet(m))
  }

  /** `Determinant` with the evidently intended base case for a single element. The expansion
      of a matrix of size 2 or more never reaches a 1 x 1 minor, because the 2 x 2 closed form
      stops it first, so the top-level case is the whole correction. */
  function DeterminantCorrected(m: Matrix): (r: DetResult)
    requires m.Valid()
    ensures r.InvalidArgument? <==> m.dim1 != m.dim2
    ensures m.dim1 == m.dim2 == 1 ==> r.det == Get(m, 0, 0)
    ensures m.dim1 != 1 || m.dim2 != 1 ==> r == Determinant(m)
  {
    if m.dim1 == 1 && m.dim2 == 1 then Value(Get(m, 0, 0)) else Determinant(m)
  }

  /** As written, every 1 x 1 matrix has determinant 0: for [5] the result is 0, not 5. */
  lemma DeterminantOfOneByOneIsZero(m: Matrix)
    requires m.Valid() && m.dim1 == 1 && m.dim2 == 1
    ensures Determinant(m) == Value(0.0)
    ensures DeterminantCorrected(m) == Value(m.data[0])
  {
    var sub := SubMatrix(m, 0, 0);
    assert sub.dim1 == 0 && sub.dim2 == 0;
    assert Expansion(sub, 0) == 0.0;
    assert SquareDet(sub) == 0.0;
    assert Cofactor(m, 0) == 0.0;
    assert Expansion(m, 1) == Expansion(m, 0) + Cofactor(m, 0);
  }

  /** Slot p of the n x n identity: 1 on the diagonal, 0 elsewhere. */
  function IdentityEntry(n: nat, p: nat): real
    requires p < ColumnMajor.Area(n, n)
  {
    ColumnMajor.CellInRange(p, n, n);
    var c := ColumnMajor.Cell(p, n);
    if c.0 == c.1 then 1.0 else 0.0
  }

  /** The n x n identity matrix. */
  function Identity(n: u32): (m: Matrix)
    ensures m.Valid() && m.dim1 == n && m.dim2 == n
    ensures forall i: nat, j: nat :: i < n && j < n ==> Get(m, i, j) == if i == j then 1.0 else 0.0
  {
    var area := ColumnMajor.Area(n, n);
    var data := seq(area, p requires 0 <= p < area => IdentityEntry(n, p));
    ColumnMajor.AreaAddressable(data, n, n);
    var m := Matrix(n, n, data);
    assert forall i: nat, j: nat :: i < n && j < n ==> Get(m, i, j) == if i == j then 1.0 else 0.0 by {
      forall i: nat, j: nat | i < n && j < n
        ensures Get(m, i, j) == if i == j then 1.0 else 0.0
      {
        ColumnMajor.CellOfSlot(i, j, n);
      }
    }
    m
  }

  /** Removing row 0 and column 0 of the identity leaves the next smaller identity. */
  lemma IdentityMinor(n: u32)
    requires 1 <= n
    ensures SubMatrix(Identity(n), 0, 0) == Identity(n - 1)
  {
    CellwiseEqual(SubMatrix(Identity(n), 0, 0), Identity(n - 1));
  }

  /** Along row 0 of the identity only the first column contributes. */
  lemma {:induction false} IdentityExpansion(n: u32, j: nat)
    requires 1 <= j <= n
    ensures Expansion(Identity(n), j) == SquareDet(SubMatrix(Identity(n), 0, 0))
  {
    var m := Identity(n);
    if j > 1 {
      IdentityExpansion(n, j - 1);
      assert Get(m, 0, j - 1) == 0.0;
      assert Cofactor(m, j - 1) == 0.0;
    } else {
      assert Get(m, 0, 0) == 1.0;
      assert Cofactor(m, 0) == SquareDet(SubMatrix(m, 0, 0));
    }
  }

  /** The identity of size 2 or more has determinant 1; the 1 x 1 identity has determinant 0
      as written and 1 once corrected. */
  lemma {:induction false} IdentityDeterminant(n: u32)
    requires 1 <= n
    ensures DeterminantCorrected(Identity(n)) == Value(1.0)
    ensures Determinant(Identity(n)) == Value(if n == 1 then 0.0 else 1.0)
  {
    var m := Identity(n);
    if n == 1 {
      DeterminantOfOneByOneIsZero(m);
    } else if n > 2 {
      IdentityMinor(n);
      IdentityDeterminant(n - 1);
      IdentityExpansion(n, n);
    }
  }
}
