/** `Mat1` and `Mat2` of src/ludwig/core/types.h: raw buffers without bounds checks. `Mat2` is
    column-major with `rows` as its leading dimension, like `Matrix`. Contents that the
    constructors leave uninitialised are given by a `contents` parameter, so that every
    statement about them holds whatever the allocator left behind. */
module CoreTypes {
  import opened Primitive
  import ColumnMajor
  import Matrices

  /** `Mat1<f64>`: `size` slots. */
  datatype Mat1 = Mat1(data: seq<real>)

  /** `Mat2<f64>`: `rows` x `cols`; `size` is the 32-bit product `r * c` widened to 64 bits. */
  datatype Mat2 = Mat2(rows: u32, cols: u32, data: seq<real>)
  {
    function Size(): nat
    {
      |data|
    }

    /** The buffer holds exactly rows * cols slots and addresses every in-range cell. */
    predicate Valid()
    {
      && |data| == ColumnMajor.Area(rows, cols)
      && ColumnMajor.Addressable(data, rows, rows, cols)
    }
  }

  // ---------------------------------------------------------------- Mat1

  /** `Mat1(s)`: s slots holding whatever `contents` says. */
  function Mat1Alloc(s: u32, contents: nat -> real): (m: Mat1)
    ensures |m.data| == s
    ensures forall k :: 0 <= k < s ==> m.data[k] == contents(k)
  {
    Mat1(seq(s, k requires 0 <= k => contents(k)))
  }

  /** `Mat1(s, init)`: every one of the s slots holds init. The fill loop counts with an
      `int`, which would overflow before reaching a size of 2^31 or more. */
  function Mat1Fill(s: u32, init: real): (m: Mat1)
    requires s < I32_LIMIT
    ensures |m.data| == s
    ensures forall k :: 0 <= k < s ==> m.data[k] == init
  {
    Mat1(seq(s, _ => init))
  }

  /** `operator()(i)` reads `data[i]`; nothing checks the index, so it must be below size. */
  function Mat1At(m: Mat1, i: u32): real
    requires i < |m.data|
  {
    m.data[i]
  }

  /** Writing through `operator()(i)`. */
  function Mat1Put(m: Mat1, i: u32, v: real): (r: Mat1)
    requires i < |m.data|
    ensures |r.data| == |m.data|
    ensures Mat1At(r, i) == v
    ensures forall k :: 0 <= k < |m.data| && k != i ==> r.data[k] == m.data[k]
  {
    Mat1(m.data[i := v])
  }

  // ---------------------------------------------------------------- Mat2

  /** A buffer of the computed size; it is a valid `Mat2` when r * c did not wrap. */
  function Mat2Of(r: u32, c: u32, data: seq<real>): (m: Mat2)
    requires |data| == MulU32(r, c)
    ensures m == Mat2(r, c, data)
    ensures r * c < U32_LIMIT ==> m.Valid()
  {
    if r * c < U32_LIMIT then
      ColumnMajor.AreaIsProduct(r, c);
      ColumnMajor.AreaAddressable(data, r, c);
      Mat2(r, c, data)
    else
      Mat2(r, c, data)
  }

  /** `Mat2(r, c)`: `size = r * c` slots holding whatever `contents` says. */
  function Mat2Alloc(r: u32, c: u32, contents: nat -> real): (m: Mat2)
    ensures m.rows == r && m.cols == c && m.Size() == MulU32(r, c)
    ensures r * c < U32_LIMIT ==> m.Valid()
    ensures forall k :: 0 <= k < m.Size() ==> m.data[k] == contents(k)
  {
    Mat2Of(r, c, seq(MulU32(r, c), k requires 0 <= k => contents(k)))
  }

  /** `Mat2(r, c, init)`: every slot holds init. As in `Mat1Fill`, the `int` counter of the
      fill loop bounds the size below 2^31. */
  function Mat2Fill(r: u32, c: u32, init: real): (m: Mat2)
    requires MulU32(r, c) < I32_LIMIT
    ensures m.rows == r && m.cols == c && m.Size() == MulU32(r, c)
    ensures r * c < U32_LIMIT ==> m.Valid()
    ensures forall k :: 0 <= k < m.Size() ==> m.data[k] == init
  {
    Mat2Of(r, c, seq(MulU32(r, c), _ => init))
  }

  /** `operator()(i, j)` reads `data[i + j * rows]`; nothing checks the indices. */
  function Mat2At(m: Mat2, i: nat, j: nat): real
    requires ColumnMajor.Slot(i, j, m.rows) < m.Size()
  {
    ColumnMajor.Get(m.data, m.rows, i, j)
  }

  /** Writing through `operator()(i, j)`. */
  function Mat2Put(m: Mat2, i: nat, j: nat, v: real): (r: Mat2)
    requires ColumnMajor.Slot(i, j, m.rows) < m.Size()
    ensures r.rows == m.rows && r.cols == m.cols && r.Size() == m.Size()
    ensures m.Valid() ==> r.Valid()
    ensures Mat2At(r, i, j) == v
  {
    Mat2(m.rows, m.cols, ColumnMajor.Set(m.data, m.rows, i, j, v))
  }

  /** Every in-range cell of a valid `Mat2` has its own slot below size, and writing one cell
      leaves every other in-range cell unchanged. */
  lemma Mat2PutLeavesOthers(m: Mat2, i: nat, j: nat, v: real, i2: nat, j2: nat)
    requires m.Valid()
    requires i < m.rows && j < m.cols && i2 < m.rows && j2 < m.cols
    ensures ColumnMajor.Slot(i2, j2, m.rows) < m.Size()
    ensures (i, j) != (i2, j2) ==> ColumnMajor.Slot(i, j, m.rows) != ColumnMajor.Slot(i2, j2, m.rows)
    ensures Mat2At(Mat2Put(m, i, j, v), i2, j2) == if (i, j) == (i2, j2) then v else Mat2At(m, i2, j2)
  {
    ColumnMajor.SetLeavesOthers(m.data, m.rows, i, j, v);
    if ColumnMajor.Slot(i, j, m.rows) == ColumnMajor.Slot(i2, j2, m.rows) {
      ColumnMajor.SlotInjective(i, j, i2, j2, m.rows);
    }
  }

  /** Every in-range cell of a filled `Mat2` reads init. */
  lemma Mat2FillReads(r: u32, c: u32, init: real, i: nat, j: nat)
    requires r * c < I32_LIMIT && i < r && j < c
    ensures ColumnMajor.Slot(i, j, r) < Mat2Fill(r, c, init).Size()
    ensures Mat2At(Mat2Fill(r, c, init), i, j) == init
  {
  }

  /** `Mat2` and `Matrix` share their layout: over the same buffer and shape, `Mat2`'s
      `(i, j)` and `Matrix`'s `(i, j)` read the same value. */
  lemma LayoutsAgree(m: Mat2, i: nat, j: nat)
    requires m.Valid() && i < m.rows && j < m.cols
    ensures Matrices.Matrix(m.rows, m.cols, m.data).Valid()
    ensures Mat2At(m, i, j) == Matrices.Get(Matrices.Matrix(m.rows, m.cols, m.data), i, j)
  {
  }
}
