/** Column-major addressing shared by `Matrix` (src/ludwig/types/matrix.h) and `Mat2`
    (src/ludwig/core/types.h): cell (i, j) of a buffer whose leading dimension (number of
    rows) is `ld` lives at flat slot `i + j * ld`.

    The slot and the area are defined column by column, so that reasoning about them stays
    linear; `SlotIsAffine` and `AreaIsProduct` connect them to the products. */
module ColumnMajor {

  /** The flat slot of cell (i, j): column j starts ld slots after column j - 1. */
  function Slot(i: nat, j: nat, ld: nat): nat
  {
    if j == 0 then i else Slot(i, j - 1, ld) + ld
  }

  /** The number of slots in cols columns of height ld. */
  function Area(ld: nat, cols: nat): nat
  {
    if cols == 0 then 0 else Area(ld, cols - 1) + ld
  }

  lemma {:induction false} SlotIsAffine(i: nat, j: nat, ld: nat)
    ensures Slot(i, j, ld) == i + j * ld
  {
    if j > 0 {
      SlotIsAffine(i, j - 1, ld);
      assert j * ld == (j - 1) * ld + ld;
    }
  }

  lemma {:induction false} AreaIsProduct(ld: nat, cols: nat)
    ensures Area(ld, cols) == ld * cols
  {
    if cols > 0 {
      AreaIsProduct(ld, cols - 1);
      assert ld * cols == ld * (cols - 1) + ld;
    }
  }

  /** The area grows with the number of columns. */
  lemma {:induction false} AreaMonotone(ld: nat, a: nat, b: nat)
    requires a <= b
    ensures Area(ld, a) <= Area(ld, b)
    decreases b
  {
    if a < b {
      AreaMonotone(ld, a, b - 1);
    }
  }

  /** Column j starts where the first j columns end. */
  lemma {:induction false} SlotAtLeastArea(i: nat, j: nat, ld: nat)
    ensures Slot(i, j, ld) == Area(ld, j) + i
  {
    if j > 0 {
      SlotAtLeastArea(i, j - 1, ld);
    }
  }

  /** An in-range row of column j lies inside the first j + 1 columns. */
  lemma SlotInsideColumn(i: nat, j: nat, ld: nat)
    requires i < ld
    ensures Slot(i, j, ld) < Area(ld, j + 1)
  {
    SlotAtLeastArea(i, j, ld);
  }

  /** Inside an ld x cols buffer every in-range cell has a slot below the area. */
  lemma SlotBelowArea(ld: nat, cols: nat)
    ensures forall i: nat, j: nat {:trigger Slot(i, j, ld)} ::
      i < ld && j < cols ==> Slot(i, j, ld) < Area(ld, cols)
  {
    forall i: nat, j: nat | i < ld && j < cols
      ensures Slot(i, j, ld) < Area(ld, cols)
    {
      SlotInsideColumn(i, j, ld);
      AreaMonotone(ld, j + 1, cols);
    }
  }

  /** Every cell of the leading rows x cols block of a buffer with leading dimension ld
      addresses a slot inside the buffer. */
  predicate Addressable(data: seq<real>, ld: nat, rows: nat, cols: nat)
  {
    forall i: nat, j: nat {:trigger Slot(i, j, ld)} ::
      i < rows && j < cols ==> Slot(i, j, ld) < |data|
  }

  /** A buffer holding exactly ld x cols values addresses its whole block. */
  lemma AreaAddressable(data: seq<real>, ld: nat, cols: nat)
    requires |data| == Area(ld, cols)
    ensures Addressable(data, ld, ld, cols)
  {
    SlotBelowArea(ld, cols);
  }

  /** Slots grow with both the row and the column index. */
  lemma SlotMonotone(i: nat, j: nat, i2: nat, j2: nat, ld: nat)
    requires i <= i2 && j <= j2
    ensures Slot(i, j, ld) <= Slot(i2, j2, ld)
  {
    SlotAtLeastArea(i, j, ld);
    SlotAtLeastArea(i2, j2, ld);
    AreaMonotone(ld, j, j2);
  }

  /** Distinct in-range cells never share a slot. */
  lemma {:induction false} SlotInjective(i1: nat, j1: nat, i2: nat, j2: nat, ld: nat)
    requires i1 < ld && i2 < ld
    requires Slot(i1, j1, ld) == Slot(i2, j2, ld)
    ensures i1 == i2 && j1 == j2
  {
    if j1 > 0 && j2 > 0 {
      SlotInjective(i1, j1 - 1, i2, j2 - 1, ld);
    }
  }

  /** The cell whose slot is p: the remainder and the quotient of p by ld. */
  function Cell(p: nat, ld: nat): (c: (nat, nat))
    requires 0 < ld
    ensures c.0 < ld && Slot(c.0, c.1, ld) == p
    decreases p
  {
    if p < ld then (p, 0)
    else
      var c := Cell(p - ld, ld);
      (c.0, c.1 + 1)
  }

  /** The slot of an in-range cell gives the cell back. */
  lemma CellOfSlot(i: nat, j: nat, ld: nat)
    requires i < ld
    ensures Cell(Slot(i, j, ld), ld) == (i, j)
  {
    var c := Cell(Slot(i, j, ld), ld);
    SlotInjective(i, j, c.0, c.1, ld);
  }

  /** A slot below the area of an ld x cols buffer is the slot of an in-range cell. */
  lemma CellInRange(p: nat, ld: nat, cols: nat)
    requires p < Area(ld, cols)
    ensures 0 < ld && Cell(p, ld).1 < cols
  {
    if ld == 0 {
      AreaIsZero(cols);
    }
    var c := Cell(p, ld);
    if cols <= c.1 {
      SlotAtLeastArea(c.0, c.1, ld);
      AreaMonotone(ld, cols, c.1);
    }
  }

  lemma {:induction false} AreaIsZero(cols: nat)
    ensures Area(0, cols) == 0
  {
    if cols > 0 {
      AreaIsZero(cols - 1);
    }
  }

  /** Reads cell (i, j); nothing checks that i is below the leading dimension. */
  function Get(data: seq<real>, ld: nat, i: nat, j: nat): real
    requires Slot(i, j, ld) < |data|
  {
    data[Slot(i, j, ld)]
  }

  /** Writes cell (i, j). */
  function Set(data: seq<real>, ld: nat, i: nat, j: nat, v: real): (r: seq<real>)
    requires Slot(i, j, ld) < |data|
    ensures |r| == |data|
    ensures Get(r, ld, i, j) == v
  {
    data[Slot(i, j, ld) := v]
  }

  /** Writing one cell leaves every other in-range cell unchanged. */
  lemma SetLeavesOthers(data: seq<real>, ld: nat, i: nat, j: nat, v: real)
    requires i < ld && Slot(i, j, ld) < |data|
    ensures forall i2: nat, j2: nat {:trigger Get(Set(data, ld, i, j, v), ld, i2, j2)} ::
      i2 < ld && Slot(i2, j2, ld) < |data| && (i2 != i || j2 != j) ==>
        Get(Set(data, ld, i, j, v), ld, i2, j2) == Get(data, ld, i2, j2)
  {
    forall i2: nat, j2: nat | i2 < ld && Slot(i2, j2, ld) < |data| && (i2 != i || j2 != j)
      ensures Get(Set(data, ld, i, j, v), ld, i2, j2) == Get(data, ld, i2, j2)
    {
      if Slot(i2, j2, ld) == Slot(i, j, ld) {
        SlotInjective(i2, j2, i, j, ld);
      }
    }
  }

  /** Two ld x cols buffers that agree on every cell are the same buffer. */
  lemma CellwiseEqual(a: seq<real>, b: seq<real>, ld: nat, cols: nat)
    requires |a| == Area(ld, cols) && |b| == Area(ld, cols)
    requires forall i: nat, j: nat {:trigger Slot(i, j, ld)} ::
      i < ld && j < cols && Slot(i, j, ld) < |a| ==> a[Slot(i, j, ld)] == b[Slot(i, j, ld)]
    ensures a == b
  {
    forall p | 0 <= p < |a|
      ensures a[p] == b[p]
    {
      CellInRange(p, ld, cols);
      var c := Cell(p, ld);
      assert Slot(c.0, c.1, ld) == p;
    }
  }
}
