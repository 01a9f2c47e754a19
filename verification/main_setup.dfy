/** `run()` of src/main.cpp: the set-up of the boundary-layer march on a 10 x 10 grid, with u
    and v held in zero-filled `Mat2` matrices, and no march. The edge velocity goes into the
    last column of every station, the profile into the interior of station 0, and the v
    recurrence runs down station 0 to j = jmax - 2 only. */
module MainSetup {
  import opened Primitive
  import ColumnMajor
  import Matrices
  import CoreTypes
  import opened BoundaryLayer

  /** The field as the `Mat2` that stores it: `operator()(i, j)` of the matrix reads u[i][j]. */
  function AsMat2(f: Field, imax: u32, jmax: u32): (m: CoreTypes.Mat2)
    requires Shaped(f, imax, jmax)
    ensures m.Valid() && m.rows == imax && m.cols == jmax
    ensures forall i: nat, j: nat :: i < imax && j < jmax ==>
      ColumnMajor.Slot(i, j, imax) < m.Size() && CoreTypes.Mat2At(m, i, j) == f[i][j]
  {
    var a := AsMatrix(f, imax, jmax);
    CoreTypes.Mat2(imax, jmax, a.data)
  }

  /** main.cpp's `run()`: with `pow(r, 0.5)` a square root, its constants leave no division
      undefined, and it ends with the external flow of every station, u and v as `Mat2`
      matrices holding the initial fields, and, unlike temp.cpp, v(0, jmax-1) still 0. */
  method MainRun(sqrt: real -> real) returns (g: Grid, e: Edge, u: CoreTypes.Mat2, v: CoreTypes.Mat2)
    requires IsSqrt(sqrt)
    ensures g == GridOf(MainConfig()) && EdgeFlow(MainConfig(), g, sqrt, e)
    ensures u.Valid() && v.Valid() && u.rows == v.rows == 10 && u.cols == v.cols == 10
    ensures exists uf, vf :: && InitialU(MainConfig(), g, e, sqrt, uf) && u == AsMat2(uf, 10, 10)
                             && InitialV(MainConfig(), g, e, uf, 8, vf) && v == AsMat2(vf, 10, 10)
    ensures forall i: nat :: i < 10 ==> CoreTypes.Mat2At(u, i, 9) == e.ue[i] && CoreTypes.Mat2At(u, i, 0) == 0.0
    ensures forall i: nat, j: nat :: 1 <= i < 10 && j < 9 ==> CoreTypes.Mat2At(u, i, j) == 0.0
    ensures CoreTypes.Mat2At(v, 0, 9) == 0.0
  {
    var c := MainConfig();
    PhysicalDefined(c, sqrt, c.jmax - 2);
    var uf, vf;
    g, e, uf, vf := SetUp(c, sqrt, c.jmax - 2);
    u, v := AsMat2(uf, c.imax, c.jmax), AsMat2(vf, c.imax, c.jmax);
  }
}
