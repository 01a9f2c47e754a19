/** The flat-plate boundary-layer set-up that `run()` performs in both src/ludwig/temp.cpp and
    src/main.cpp: the run's constants, the uniform grid, the external flow along the plate
    (edge velocity, Reynolds number, boundary-layer thickness), the initial u field and the
    first station's v column.

    The fields u and v are imax x jmax matrices (`Matrix` in temp.cpp, `Mat2` in main.cpp),
    both column-major with imax as the leading dimension. Here a field is the sequence of its
    stations, u[i][j] standing for u(i, j); `AsMatrix` and its lemmas show that this is the
    same storage as the matrices, cell for cell and write for write.

    `pow(r, 0.5)` is the parameter `sqrt`; where a property needs it to be a square root it
    says so with `IsSqrt`. */
module BoundaryLayer {
  import opened Primitive
  import ColumnMajor
  import Matrices
  import CoreTypes
  import Spacing

  // ---------------------------------------------------------------- the run's constants

  /** The fluid, the plate and the grid of one run. */
  datatype Config = Config(density: real, viscosity: real, u0: real, plateLength: real,
                           xmin: real, xmax: real, ymin: real, ymax: real,
                           imax: u32, jmax: u32)
  {
    /** At least two grid points each way (a single point would make the step a division by
        zero), u and v small enough that imax * jmax does not wrap, and no zero divisor among
        the plate length, the density, the viscosity and the two grid spans. */
    predicate Wf()
    {
      && 2 <= imax && 2 <= jmax && imax * jmax < U32_LIMIT
      && plateLength != 0.0 && density != 0.0 && viscosity != 0.0
      && xmin != xmax && ymin != ymax
    }
  }

  /** The constants of temp.cpp: air over a 0.2 m plate, from 0.5 % to 13 % of its length,
      4 mm high, on a 10 x 100 grid. */
  function TempConfig(): (c: Config)
    ensures c.Wf() && c.imax == 10 && c.jmax == 100
  {
    Config(1.182, 0.0000183, 1.0, 0.2, 0.005 * 0.2, 0.13 * 0.2, 0.0, 0.02 * 0.2, 10, 100)
  }

  /** The constants of main.cpp: the same flow on a 10 x 10 grid. */
  function MainConfig(): (c: Config)
    ensures c.Wf() && c.imax == 10 && c.jmax == 10
    ensures c == TempConfig().(jmax := 10)
  {
    Config(1.182, 0.0000183, 1.0, 0.2, 0.005 * 0.2, 0.13 * 0.2, 0.0, 0.02 * 0.2, 10, 10)
  }

  // ---------------------------------------------------------------- the grid

  /** `deltax = (xmax - xmin) / (imax - 1)`. */
  function DeltaX(c: Config): (d: real)
    requires c.Wf()
    ensures d != 0.0
  {
    Spacing.Delta(c.xmin, c.xmax, c.imax)
  }

  /** `deltay = (ymax - ymin) / (jmax - 1)`. */
  function DeltaY(c: Config): (d: real)
    requires c.Wf()
    ensures d != 0.0
  {
    Spacing.Delta(c.ymin, c.ymax, c.jmax)
  }

  /** The station positions x, the wall-normal positions y, and the step vectors dx and dy. */
  datatype Grid = Grid(x: seq<real>, y: seq<real>, dx: seq<real>, dy: seq<real>)

  /** x = linspace(xmin, xmax, imax), y = linspace(ymin, ymax, jmax), and `dx(imax - 1, deltax)`,
      `dy(jmax - 1, deltay)`: every step, filled in from the separately computed delta, is the
      distance between the neighbouring grid points. */
  function GridOf(c: Config): (g: Grid)
    requires c.Wf()
    ensures |g.x| == c.imax && |g.y| == c.jmax && |g.dx| == c.imax - 1 && |g.dy| == c.jmax - 1
    ensures g.x[0] == c.xmin && g.x[c.imax - 1] == c.xmax
    ensures g.y[0] == c.ymin && g.y[c.jmax - 1] == c.ymax
    ensures forall i :: 0 <= i < c.imax - 1 ==> g.dx[i] == g.x[i + 1] - g.x[i] == DeltaX(c)
    ensures forall j :: 0 <= j < c.jmax - 1 ==> g.dy[j] == g.y[j + 1] - g.y[j] == DeltaY(c)
  {
    var g := Grid(Spacing.Linspace(c.xmin, c.xmax, c.imax), Spacing.Linspace(c.ymin, c.ymax, c.jmax),
                  seq(c.imax - 1, _ => DeltaX(c)), seq(c.jmax - 1, _ => DeltaY(c)));
    assert forall i :: 0 <= i < c.imax - 1 ==> g.dx[i] == g.x[i + 1] - g.x[i] by {
      forall i | 0 <= i < c.imax - 1 {
        Spacing.ConstantSpacing(c.xmin, c.xmax, c.imax, i);
      }
    }
    assert forall j :: 0 <= j < c.jmax - 1 ==> g.dy[j] == g.y[j + 1] - g.y[j] by {
      forall j | 0 <= j < c.jmax - 1 {
        Spacing.ConstantSpacing(c.ymin, c.ymax, c.jmax, j);
      }
    }
    g
  }

  // ---------------------------------------------------------------- the external flow

  /** `Ue = U0 (1 - x / plate_length)`. */
  function EdgeVelocity(c: Config, x: real): real
    requires c.Wf()
  {
    c.u0 * (1.0 - x / c.plateLength)
  }

  /** `Re = Ue x density / viscosity`. */
  function Reynolds(c: Config, x: real): real
    requires c.Wf()
  {
    EdgeVelocity(c, x) * x * c.density / c.viscosity
  }

  /** `del1 = 5 x / pow(Re, 0.5)`. */
  function Thickness(c: Config, x: real, sqrt: real -> real): real
    requires c.Wf() && sqrt(Reynolds(c, x)) != 0.0
  {
    5.0 * x / sqrt(Reynolds(c, x))
  }

  /** sqrt is the square root on the non-negative reals. */
  ghost predicate IsSqrt(sqrt: real -> real)
  {
    forall r :: 0.0 <= r ==> 0.0 <= sqrt(r) && sqrt(r) * sqrt(r) == r
  }

  /** The edge velocity, Reynolds number and thickness at every station. */
  datatype Edge = Edge(ue: seq<real>, re: seq<real>, del1: seq<real>)

  // ---------------------------------------------------------------- fields

  /** A field: station i (along the plate) by wall-normal point j. */
  type Field = seq<seq<real>>

  predicate Shaped(f: Field, imax: nat, jmax: nat)
  {
    |f| == imax && forall i :: 0 <= i < imax ==> |f[i]| == jmax
  }

  /** imax x jmax zeros: `Matrix(imax, jmax, 0.0)` and `Mat2(imax, jmax, 0.0)`. */
  function Zeros(imax: nat, jmax: nat): (f: Field)
    ensures Shaped(f, imax, jmax)
    ensures forall i, j :: 0 <= i < imax && 0 <= j < jmax ==> f[i][j] == 0.0
  {
    seq(imax, _ => seq(jmax, _ => 0.0))
  }

  /** Writing cell (i, j). */
  function Put(f: Field, i: nat, j: nat, v: real): (r: Field)
    requires i < |f| && j < |f[i]|
    ensures |r| == |f| && forall i2 :: 0 <= i2 < |f| ==> |r[i2]| == |f[i2]|
    ensures r[i][j] == v
    ensures forall i2, j2 :: 0 <= i2 < |f| && 0 <= j2 < |f[i2]| && (i2 != i || j2 != j) ==>
      r[i2][j2] == f[i2][j2]
  {
    f[i := f[i][j := v]]
  }

  /** Slot p of the column-major buffer of a field. */
  function FieldEntry(f: Field, imax: nat, jmax: nat, p: nat): real
    requires Shaped(f, imax, jmax) && p < ColumnMajor.Area(imax, jmax)
  {
    ColumnMajor.CellInRange(p, imax, jmax);
    var c := ColumnMajor.Cell(p, imax);
    f[c.0][c.1]
  }

  /** The field as the `Matrix` that stores it: cell (i, j) is u[i][j]. */
  function AsMatrix(f: Field, imax: u32, jmax: u32): (m: Matrices.Matrix)
    requires Shaped(f, imax, jmax)
    ensures m.Valid() && m.dim1 == imax && m.dim2 == jmax
    ensures forall i: nat, j: nat :: i < imax && j < jmax ==> Matrices.Get(m, i, j) == f[i][j]
  {
    var area := ColumnMajor.Area(imax, jmax);
    var data := seq(area, p requires 0 <= p < area => FieldEntry(f, imax, jmax, p));
    ColumnMajor.AreaAddressable(data, imax, jmax);
    var m := Matrices.Matrix(imax, jmax, data);
    assert forall i: nat, j: nat :: i < imax && j < jmax ==> Matrices.Get(m, i, j) == f[i][j] by {
      forall i: nat, j: nat | i < imax && j < jmax
        ensures Matrices.Get(m, i, j) == f[i][j]
      {
        ColumnMajor.CellOfSlot(i, j, imax);
      }
    }
    m
  }

  /** The zero field is the zero-filled matrix of temp.cpp, whose buffer is also that of
      main.cpp's zero-filled `Mat2`; and writing a cell of the field is writing that cell of
      the matrix. */
  lemma FieldsAreMatrices(f: Field, imax: u32, jmax: u32, i: nat, j: nat, v: real)
    requires Shaped(f, imax, jmax) && imax * jmax < U32_LIMIT && i < imax && j < jmax
    ensures AsMatrix(Zeros(imax, jmax), imax, jmax) == Matrices.Filled(imax, jmax, 0.0)
    ensures imax * jmax < I32_LIMIT ==>
      CoreTypes.Mat2Fill(imax, jmax, 0.0).data == Matrices.Filled(imax, jmax, 0.0).data
    ensures AsMatrix(Put(f, i, j, v), imax, jmax) == Matrices.Set(AsMatrix(f, imax, jmax), i, j, v)
  {
    var z, filled := AsMatrix(Zeros(imax, jmax), imax, jmax), Matrices.Filled(imax, jmax, 0.0);
    forall i2: nat, j2: nat | i2 < imax && j2 < jmax
      ensures Matrices.Get(z, i2, j2) == Matrices.Get(filled, i2, j2)
    {
      Matrices.FlatAndCellAgree(filled, 0, i2, j2);
    }
    Matrices.CellwiseEqual(z, filled);
    var m := AsMatrix(f, imax, jmax);
    forall i2: nat, j2: nat | i2 < imax && j2 < jmax
      ensures Matrices.Get(AsMatrix(Put(f, i, j, v), imax, jmax), i2, j2)
           == Matrices.Get(Matrices.Set(m, i, j, v), i2, j2)
    {
      Matrices.SetLeavesOtherCells(m, i, j, v, i2, j2);
    }
    Matrices.CellwiseEqual(AsMatrix(Put(f, i, j, v), imax, jmax), Matrices.Set(m, i, j, v));
  }

  // ---------------------------------------------------------------- initial conditions

  /** The initial profile at wall point y of station 0: the edge velocity outside the
      thickness, `Ue * pow(y / del1, 0.5)` inside it. */
  function Profile(ue: real, del1: real, y: real, sqrt: real -> real): real
    requires del1 != 0.0
  {
    if y >= del1 then ue else ue * sqrt(y / del1)
  }

  /** One step of the station-0 v recurrence: v(0, j) from v(0, j-1), with u(0, j) = uj,
      u(0, j-1) = uPrev and the step dy[j-1]. */
  function VStep(vPrev: real, dyPrev: real, uj: real, uPrev: real, ue0: real, ue1: real,
                 del0: real, del1: real, y: real, deltax: real): real
    requires dyPrev != 0.0 && ue0 != 0.0 && del0 != 0.0 && deltax != 0.0
  {
    vPrev - dyPrev * ((uj / ue0) * (ue1 - ue0) / deltax
                      - y / del0 * (del1 - del0) / deltax * (uj - uPrev) / dyPrev)
  }

  /** The divisions of the set-up are defined: every station's `pow(Re, 0.5)`, and, once the
      v recurrence runs, Ue[0] and del1[0]. */
  predicate Defined(c: Config, sqrt: real -> real, vLast: nat)
    requires c.Wf()
  {
    && (forall i :: 0 <= i < c.imax ==> sqrt(Reynolds(c, GridOf(c).x[i])) != 0.0)
    && (1 <= vLast ==> EdgeVelocity(c, GridOf(c).x[0]) != 0.0
                       && Thickness(c, GridOf(c).x[0], sqrt) != 0.0)
  }

  /** The external flow at every station. */
  predicate EdgeFlow(c: Config, g: Grid, sqrt: real -> real, e: Edge)
    requires c.Wf() && |g.x| == c.imax
  {
    && |e.ue| == |e.re| == |e.del1| == c.imax
    && forall i :: 0 <= i < c.imax ==>
         && e.ue[i] == EdgeVelocity(c, g.x[i]) && e.re[i] == Reynolds(c, g.x[i])
         && sqrt(e.re[i]) != 0.0 && e.del1[i] == Thickness(c, g.x[i], sqrt)
  }

  /** The initial u: the edge velocity in the last column of every station, the profile in
      the interior of station 0, and zero everywhere else, the wall column j = 0 included. */
  predicate InitialU(c: Config, g: Grid, e: Edge, sqrt: real -> real, u: Field)
    requires c.Wf() && |g.y| == c.jmax && |e.ue| == |e.del1| == c.imax
  {
    && Shaped(u, c.imax, c.jmax)
    && (forall i :: 0 <= i < c.imax ==> u[i][c.jmax - 1] == e.ue[i] && u[i][0] == 0.0)
    && (forall i, j :: 1 <= i < c.imax && 0 <= j < c.jmax - 1 ==> u[i][j] == 0.0)
    && (3 <= c.jmax ==> e.del1[0] != 0.0)
    && (forall j :: 1 <= j < c.jmax - 1 ==> u[0][j] == Profile(e.ue[0], e.del1[0], g.y[j], sqrt))
  }

  /** The initial v: the recurrence down station 0 for 1 <= j <= vLast, zero everywhere
      else. temp.cpp runs it to the edge (vLast = jmax - 1), main.cpp stops one short
      (vLast = jmax - 2). */
  predicate InitialV(c: Config, g: Grid, e: Edge, u: Field, vLast: nat, v: Field)
    requires c.Wf() && |g.y| == c.jmax && |g.dy| == c.jmax - 1
    requires |e.ue| == |e.del1| == c.imax && Shaped(u, c.imax, c.jmax) && vLast < c.jmax
  {
    && Shaped(v, c.imax, c.jmax)
    && (forall i, j :: 0 <= i < c.imax && 0 <= j < c.jmax && (i != 0 || j == 0 || vLast < j) ==>
          v[i][j] == 0.0)
    && (1 <= vLast ==> e.ue[0] != 0.0 && e.del1[0] != 0.0 && forall k :: 0 <= k < vLast ==> g.dy[k] != 0.0)
    && (forall j :: 1 <= j <= vLast ==>
          v[0][j] == VStep(v[0][j - 1], g.dy[j - 1], u[0][j], u[0][j - 1], e.ue[0], e.ue[1],
                           e.del1[0], e.del1[1], g.y[j], DeltaX(c)))
  }

  /** The first loop of `run()`: Ue, Re and del1 at every station, and u(i, jmax-1) = Ue[i]. */
  method EdgeLoop(c: Config, g: Grid, sqrt: real -> real) returns (e: Edge, u: Field)
    requires c.Wf() && g == GridOf(c) && Defined(c, sqrt, 0)
    ensures EdgeFlow(c, g, sqrt, e) && Shaped(u, c.imax, c.jmax)
    ensures forall i, j :: 0 <= i < c.imax && 0 <= j < c.jmax ==>
      u[i][j] == if j == c.jmax - 1 then e.ue[i] else 0.0
  {
    e := Edge([], [], []);
    u := Zeros(c.imax, c.jmax);
    var i := 0;
    while i < c.imax
      invariant 0 <= i <= c.imax && |e.ue| == |e.re| == |e.del1| == i && Shaped(u, c.imax, c.jmax)
      invariant forall k :: 0 <= k < i ==>
        && e.ue[k] == EdgeVelocity(c, g.x[k]) && e.re[k] == Reynolds(c, g.x[k])
        && sqrt(e.re[k]) != 0.0 && e.del1[k] == Thickness(c, g.x[k], sqrt)
      invariant forall k, j :: 0 <= k < c.imax && 0 <= j < c.jmax ==>
        u[k][j] == if j == c.jmax - 1 && k < i then e.ue[k] else 0.0
    {
      var ue := EdgeVelocity(c, g.x[i]);
      var re := Reynolds(c, g.x[i]);
      var del1 := Thickness(c, g.x[i], sqrt);
      e := Edge(e.ue + [ue], e.re + [re], e.del1 + [del1]);
      u := Put(u, i, c.jmax - 1, ue);
      i := i + 1;
    }
  }

  /** The initial-condition loop: u(0, j) for 1 <= j <= jmax - 2. */
  method ProfileLoop(c: Config, g: Grid, e: Edge, sqrt: real -> real, u0: Field) returns (u: Field)
    requires c.Wf() && g == GridOf(c) && EdgeFlow(c, g, sqrt, e) && Shaped(u0, c.imax, c.jmax)
    requires 3 <= c.jmax ==> e.del1[0] != 0.0
    ensures Shaped(u, c.imax, c.jmax)
    ensures forall i, j :: 0 <= i < c.imax && 0 <= j < c.jmax && (i != 0 || j == 0 || j == c.jmax - 1) ==>
      u[i][j] == u0[i][j]
    ensures forall j :: 1 <= j < c.jmax - 1 ==> u[0][j] == Profile(e.ue[0], e.del1[0], g.y[j], sqrt)
  {
    u := u0;
    var j := 1;
    while j < c.jmax - 1
      invariant 1 <= j <= c.jmax - 1 && Shaped(u, c.imax, c.jmax)
      invariant forall i, k :: 0 <= i < c.imax && 0 <= k < c.jmax && (i != 0 || k == 0 || j <= k) ==>
        u[i][k] == u0[i][k]
      invariant forall k :: 1 <= k < j ==> u[0][k] == Profile(e.ue[0], e.del1[0], g.y[k], sqrt)
    {
      var value;
      if g.y[j] >= e.del1[0] {
        value := e.ue[0];
      } else {
        value := e.ue[0] * sqrt(g.y[j] / e.del1[0]);
      }
      u := Put(u, 0, j, value);
      j := j + 1;
    }
  }

  /** The v loop down station 0: v(0, j) from v(0, j-1) for 1 <= j <= vLast. */
  method VLoop(c: Config, g: Grid, e: Edge, sqrt: real -> real, u: Field, vLast: nat) returns (v: Field)
    requires c.Wf() && g == GridOf(c) && EdgeFlow(c, g, sqrt, e) && Shaped(u, c.imax, c.jmax)
    requires vLast < c.jmax && (1 <= vLast ==> e.ue[0] != 0.0 && e.del1[0] != 0.0)
    ensures InitialV(c, g, e, u, vLast, v)
  {
    v := Zeros(c.imax, c.jmax);
    var j := 1;
    while j <= vLast
      invariant 1 <= j <= vLast + 1 && Shaped(v, c.imax, c.jmax)
      invariant forall i, k :: 0 <= i < c.imax && 0 <= k < c.jmax && (i != 0 || k == 0 || j <= k) ==>
        v[i][k] == 0.0
      invariant forall k :: 1 <= k < j ==>
        v[0][k] == VStep(v[0][k - 1], g.dy[k - 1], u[0][k], u[0][k - 1], e.ue[0], e.ue[1],
                         e.del1[0], e.del1[1], g.y[k], DeltaX(c))
    {
      var next := VStep(v[0][j - 1], g.dy[j - 1], u[0][j], u[0][j - 1], e.ue[0], e.ue[1],
                        e.del1[0], e.del1[1], g.y[j], DeltaX(c));
      v := Put(v, 0, j, next);
      j := j + 1;
    }
  }

  /** The set-up of `run()` up to the march: the grid, the external flow, the initial u and
      the station-0 v column, which the v loop fills down to vLast. */
  method SetUp(c: Config, sqrt: real -> real, vLast: nat) returns (g: Grid, e: Edge, u: Field, v: Field)
    requires c.Wf() && c.jmax - 2 <= vLast < c.jmax && Defined(c, sqrt, vLast)
    ensures g == GridOf(c) && EdgeFlow(c, g, sqrt, e)
    ensures InitialU(c, g, e, sqrt, u) && InitialV(c, g, e, u, vLast, v)
  {
    g := GridOf(c);
    var u1;
    e, u1 := EdgeLoop(c, g, sqrt);
    u := ProfileLoop(c, g, e, sqrt, u1);
    v := VLoop(c, g, e, sqrt, u, vLast);
  }

  // ---------------------------------------------------------------- properties

  /** The two set-ups agree on v down to jmax - 2; temp.cpp's also sets v(0, jmax-1), which
      main.cpp leaves at 0. */
  lemma {:induction false} VariantsAgree(c: Config, g: Grid, e: Edge, u: Field, vTemp: Field, vMain: Field, j: nat)
    requires c.Wf() && g == GridOf(c) && |e.ue| == |e.del1| == c.imax && Shaped(u, c.imax, c.jmax)
    requires InitialV(c, g, e, u, c.jmax - 1, vTemp) && InitialV(c, g, e, u, c.jmax - 2, vMain)
    requires j <= c.jmax - 2
    ensures vTemp[0][j] == vMain[0][j]
    ensures vMain[0][c.jmax - 1] == 0.0
  {
    if j > 0 {
      VariantsAgree(c, g, e, u, vTemp, vMain, j - 1);
    }
  }

  /** The initial profile rises from 0 at the wall to the edge velocity and never exceeds it:
      for a non-negative Ue and 0 <= y, the profile lies in [0, Ue], and equals Ue from y = del1
      on. */
  lemma ProfileBounded(ue: real, del1: real, y: real, sqrt: real -> real)
    requires IsSqrt(sqrt) && 0.0 <= ue && 0.0 < del1 && 0.0 <= y
    ensures 0.0 <= Profile(ue, del1, y, sqrt) <= ue
    ensures del1 <= y ==> Profile(ue, del1, y, sqrt) == ue
  {
    if y < del1 {
      var r := y / del1;
      assert 0.0 <= r < 1.0;
      var root := sqrt(r);
      assert 0.0 <= root && root * root == r;
      assert root < 1.0;
      assert 0.0 <= ue * root <= ue * 1.0;
      assert Profile(ue, del1, y, sqrt) == ue * root;
    }
  }

  /** Above the wall the profile of a positive Ue is positive: inside the thickness
      pow(y / del1, 0.5) squares to a positive number, so it is not zero. */
  lemma ProfilePositive(ue: real, del1: real, y: real, sqrt: real -> real)
    requires IsSqrt(sqrt) && 0.0 < ue && 0.0 < del1 && 0.0 < y
    ensures 0.0 < Profile(ue, del1, y, sqrt)
  {
    if y < del1 {
      var r := y / del1;
      assert 0.0 < r;
      var root := sqrt(r);
      assert 0.0 <= root && root * root == r;
      assert 0.0 < root;
      assert 0.0 < ue * root;
    }
  }

  /** With physical constants, a wall at or above y = 0 and `pow(r, 0.5)` a square root, the
      initial u of station 0 is positive at every interior wall point: Ue[0] and del1[0] are
      positive, and every y above the wall is. */
  lemma FirstProfilePositive(c: Config, g: Grid, e: Edge, sqrt: real -> real, u: Field)
    requires Physical(c) && 0.0 <= c.ymin < c.ymax && IsSqrt(sqrt)
    requires g == GridOf(c) && EdgeFlow(c, g, sqrt, e) && InitialU(c, g, e, sqrt, u)
    ensures forall j :: 1 <= j < c.jmax - 1 ==> 0.0 < u[0][j]
  {
    Spacing.WithinEndpoints(c.xmin, c.xmax, c.imax, 0);
    StationPositive(c, sqrt, g.x[0]);
    var root := sqrt(Reynolds(c, g.x[0]));
    assert 0.0 < 5.0 * g.x[0];
    assert 0.0 < 5.0 * g.x[0] / root;
    assert 0.0 < e.del1[0];
    forall j | 1 <= j < c.jmax - 1
      ensures 0.0 < u[0][j]
    {
      Spacing.StrictlyIncreasing(c.ymin, c.ymax, c.jmax, 0, j);
      ProfilePositive(e.ue[0], e.del1[0], g.y[j], sqrt);
    }
  }

  /** The physical constants of a run: a fluid of positive density and viscosity, a positive
      free-stream velocity, and stations strictly between the leading and the trailing edge. */
  predicate Physical(c: Config)
  {
    && c.Wf() && 0.0 < c.u0 && 0.0 < c.density && 0.0 < c.viscosity
    && 0.0 < c.xmin < c.xmax < c.plateLength
  }

  /** With physical constants and `pow(r, 0.5)` a square root, every division of the set-up
      is defined: at each station Ue and Re are positive, so pow(Re, 0.5) is not zero, and
      del1[0] is positive. */
  lemma PhysicalDefined(c: Config, sqrt: real -> real, vLast: nat)
    requires Physical(c) && IsSqrt(sqrt)
    ensures Defined(c, sqrt, vLast)
  {
    var x := GridOf(c).x;
    forall i | 0 <= i < c.imax
      ensures 0.0 < EdgeVelocity(c, x[i]) && 0.0 < sqrt(Reynolds(c, x[i]))
    {
      Spacing.WithinEndpoints(c.xmin, c.xmax, c.imax, i);
      StationPositive(c, sqrt, x[i]);
    }
    if 1 <= vLast {
      var root := sqrt(Reynolds(c, x[0]));
      assert 0.0 < 5.0 * x[0];
      assert 0.0 < 5.0 * x[0] / root;
    }
  }

  /** At a station x between the leading and the trailing edge: Ue > 0, Re > 0 and
      pow(Re, 0.5) > 0. */
  lemma StationPositive(c: Config, sqrt: real -> real, x: real)
    requires Physical(c) && IsSqrt(sqrt) && 0.0 < x < c.plateLength
    ensures 0.0 < EdgeVelocity(c, x) && 0.0 < Reynolds(c, x) && 0.0 < sqrt(Reynolds(c, x))
  {
    var q := x / c.plateLength;
    assert q * c.plateLength == x;
    if 1.0 <= q {
      assert 1.0 * c.plateLength <= q * c.plateLength;
    }
    var ue := EdgeVelocity(c, x);
    assert 0.0 < ue * x;
    assert 0.0 < ue * x * c.density;
    var re := Reynolds(c, x);
    assert 0.0 < re;
    assert sqrt(re) * sqrt(re) == re;
  }

  /** The edge velocity falls linearly along the plate: with U0 > 0 and a positive plate
      length it decreases strictly with x and vanishes at the trailing edge. */
  lemma EdgeVelocityFalls(c: Config, x1: real, x2: real)
    requires c.Wf() && 0.0 < c.u0 && 0.0 < c.plateLength && x1 < x2
    ensures EdgeVelocity(c, x2) < EdgeVelocity(c, x1)
    ensures EdgeVelocity(c, c.plateLength) == 0.0
  {
    assert x1 / c.plateLength < x2 / c.plateLength;
    assert c.u0 * (x2 / c.plateLength - x1 / c.plateLength) > 0.0;
  }
}
