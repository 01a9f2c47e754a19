/** The definitions behind the march of `run()` in src/ludwig/temp.cpp: when a station can be
    marched, the coefficients, the station matrix and right-hand side it assembles, the v
    update rule, and what it means for a station, and for the fields, to have been marched.
    The methods and lemmas about them are in `Temp` and `Marching`. */
module Station {
  import opened Primitive
  import ColumnMajor
  import Matrices
  import Thomas
  import opened BoundaryLayer

  /** The march needs at least two interior points (with jmax = 3 the first row's A(0, 1)
      lies outside the 1 x 1 station matrix), a station matrix whose 32-bit size does not
      wrap, and a size that the solver's `int` counters reach. */
  predicate Marchable(c: Config)
  {
    && c.Wf() && 4 <= c.jmax
    && (c.jmax - 2) * (c.jmax - 2) < U32_LIMIT && c.jmax - 2 < I32_LIMIT
  }

  /** Every interior velocity u(i, 1 .. jmax-2) of a station is non-zero. */
  predicate NonZero(c: Config, ui: seq<real>)
    requires |ui| == c.jmax
  {
    forall j :: 1 <= j < c.jmax - 1 ==> ui[j] != 0.0
  }

  /** The rows a station's system is built from: the edge velocities, the current station's
      u and v, and the next station's u (only its two boundary values are read). */
  predicate Ready(c: Config, ue: seq<real>, i: nat, ui: seq<real>, vi: seq<real>, un: seq<real>)
  {
    && Marchable(c) && |ue| == c.imax && i + 1 < c.imax
    && |ui| == c.jmax && |vi| == c.jmax && |un| == c.jmax && NonZero(c, ui)
  }

  /** `alpha = (viscosity / density) / u(i, j) * (deltax / (dy[j-1] * dy[j-1]))`. */
  function Alpha(c: Config, uij: real, dyPrev: real): real
    requires c.Wf() && uij != 0.0 && dyPrev != 0.0
  {
    (c.viscosity / c.density) / uij * (DeltaX(c) / (dyPrev * dyPrev))
  }

  /** `beta = v(i, j) / u(i, j) * deltax / (dy[j] + dy[j-1])`. */
  function Beta(c: Config, vij: real, uij: real, dyNext: real, dyPrev: real): real
    requires c.Wf() && uij != 0.0 && dyNext + dyPrev != 0.0
  {
    vij / uij * DeltaX(c) / (dyNext + dyPrev)
  }

  /** The alpha of every row k = j - 1. The steps dy[j-1] and dy[j] of the uniform grid are
      all deltay (`GridOf`). */
  function Alphas(c: Config, ui: seq<real>): (al: seq<real>)
    requires Marchable(c) && |ui| == c.jmax && NonZero(c, ui)
    ensures |al| == c.jmax - 2
    ensures forall k :: 0 <= k < |al| ==> al[k] == Alpha(c, ui[k + 1], DeltaY(c))
  {
    seq(c.jmax - 2, k requires 0 <= k < c.jmax - 2 => Alpha(c, ui[k + 1], DeltaY(c)))
  }

  /** b(k) for the wall point j = k + 1: the current u, the convection term with beta, the
      pressure gradient (Ue[i+1]^2 - Ue[i]^2) / (2 u(i, j)), and on the first and last rows the
      known boundary value of the next station, u(i+1, 0) = wall or u(i+1, jmax-1) = edge,
      times alpha. */
  function RhsRow(c: Config, ue: seq<real>, i: nat, ui: seq<real>, vi: seq<real>, wall: real, edge: real, k: nat): real
    requires Marchable(c) && |ue| == c.imax && i + 1 < c.imax && |ui| == |vi| == c.jmax
    requires NonZero(c, ui) && k < c.jmax - 2
  {
    var j := k + 1;
    var alpha := Alpha(c, ui[j], DeltaY(c));
    var beta := Beta(c, vi[j], ui[j], DeltaY(c), DeltaY(c));
    if j == 1 then
      alpha * wall + ui[j] - beta * (ui[j + 1] - ui[j - 1]) + (ue[i + 1] * ue[i + 1] - ue[i] * ue[i]) / (2.0 * ui[j])
    else if j == c.jmax - 2 then
      alpha * edge + ui[j] - beta * (ui[j + 1] - ui[j - 1]) + (ue[i + 1] * ue[i + 1] - ue[i] * ue[i]) / (2.0 * ui[j])
    else
      ui[j] - beta * (ui[j + 1] - ui[j - 1]) + (ue[i + 1] * ue[i + 1] - ue[i] * ue[i]) / (2.0 * ui[j])
  }

  /** The right-hand side `b` of the station. */
  function Rhs(c: Config, ue: seq<real>, i: nat, ui: seq<real>, vi: seq<real>, un: seq<real>): (b: seq<real>)
    requires Ready(c, ue, i, ui, vi, un)
    ensures |b| == c.jmax - 2
  {
    seq(c.jmax - 2, k requires 0 <= k < c.jmax - 2 => RhsRow(c, ue, i, ui, vi, un[0], un[c.jmax - 1], k))
  }

  /** Entry (r, s) of the station matrix: 1 + 2 alpha_r on the diagonal, -alpha_r beside it,
      zero elsewhere. */
  function StationEntry(al: seq<real>, r: nat, s: nat): real
    requires r < |al|
  {
    if s == r then 1.0 + 2.0 * al[r]
    else if s + 1 == r || s == r + 1 then -al[r]
    else 0.0
  }

  function StationSlot(al: seq<real>, p: nat): real
    requires p < ColumnMajor.Area(|al|, |al|)
  {
    ColumnMajor.CellInRange(p, |al|, |al|);
    var c := ColumnMajor.Cell(p, |al|);
    StationEntry(al, c.0, c.1)
  }

  /** The (jmax-2) x (jmax-2) station matrix for the alphas al. */
  function StationMatrix(al: seq<real>): (m: Matrices.Matrix)
    requires |al| < U32_LIMIT
    ensures m.Valid() && m.dim1 == |al| && m.dim2 == |al|
    ensures forall r: nat, s: nat {:trigger Matrices.Get(m, r, s)} :: r < |al| && s < |al| ==> Matrices.Get(m, r, s) == StationEntry(al, r, s)
  {
    var n := |al|;
    var area := ColumnMajor.Area(n, n);
    var data := seq(area, p requires 0 <= p < area => StationSlot(al, p));
    ColumnMajor.AreaAddressable(data, n, n);
    var m := Matrices.Matrix(n as u32, n as u32, data);
    assert forall r: nat, s: nat {:trigger Matrices.Get(m, r, s)} :: r < n && s < n ==> Matrices.Get(m, r, s) == StationEntry(al, r, s) by {
      forall r: nat, s: nat | r < n && s < n
        ensures Matrices.Get(m, r, s) == StationEntry(al, r, s)
      {
        ColumnMajor.CellOfSlot(r, s, n);
      }
    }
    m
  }

  /** The system the station solves: the station matrix with leading dimension jmax - 2, and
      the right-hand side b. */
  function StationSystem(c: Config, ue: seq<real>, i: nat, ui: seq<real>, vi: seq<real>, un: seq<real>): (s: Thomas.System)
    requires Ready(c, ue, i, ui, vi, un)
    ensures s.Wf() && s.M() == c.jmax - 2
  {
    Thomas.System(StationMatrix(Alphas(c, ui)).data, c.jmax - 2, Rhs(c, ue, i, ui, vi, un))
  }

  /** Rows 0 .. k-1 of a and the first h cells of row k hold the station entries, the rest
      are still zero. */
  predicate RowsUpTo(a: Matrices.Matrix, al: seq<real>, k: nat, h: nat)
  {
    && a.Valid() && a.dim1 as int == |al| && a.dim2 as int == |al|
    && forall r: nat, s: nat :: r < |al| && s < |al| ==>
         Matrices.Get(a, r, s) == if r < k || (r == k && s < h) then StationEntry(al, r, s) else 0.0
  }

  /** Rows 0 .. k-1 of a hold the station entries, the rest are still zero. */
  predicate RowsDone(a: Matrices.Matrix, al: seq<real>, k: nat)
  {
    RowsUpTo(a, al, k, 0)
  }

  /** The v update of line 126 as it reads: v(i+1, j+1) from v(i+1, j) = vPrev with the
      difference `(u(i+1, j+1) - u(i+1, j+1) + u(i+1, j) - u(i, j))`, whose first two terms are
      the same cell. */
  function VLiteral(c: Config, vPrev: real, next: real, nextAgain: real, nextBelow: real, below: real): real
    requires c.Wf()
  {
    vPrev - DeltaY(c) / (2.0 * DeltaX(c)) * (next - nextAgain + nextBelow - below)
  }

  /** v(i+1, j+1) once the cancelling terms are gone: vPrev less deltay / (2 deltax) times the
      change of u one row below, u(i+1, j) - u(i, j). */
  function VBelow(c: Config, vPrev: real, nextBelow: real, below: real): real
    requires c.Wf()
  {
    vPrev - DeltaY(c) / (2.0 * DeltaX(c)) * (nextBelow - below)
  }

  /** v at the next station: vn[k+1] = vn[k] - deltay / (2 deltax) (un[k] - ui[k]) for
      0 <= k < jmax - 2, that is, for the rows j = k + 1 = 1 .. jmax-2. */
  predicate VRule(c: Config, ui: seq<real>, un: seq<real>, vn: seq<real>)
    requires c.Wf() && |ui| == |un| == |vn| == c.jmax
  {
    forall k {:trigger VBelow(c, vn[k], un[k], ui[k])} :: 0 <= k < c.jmax - 2 ==> vn[k + 1] == VBelow(c, vn[k], un[k], ui[k])
  }

  /** The station can be solved: its u(i, j) are non-zero and its sweep meets no zero pivot. */
  predicate Solvable(c: Config, ue: seq<real>, i: nat, ui: seq<real>, vi: seq<real>, un: seq<real>)
  {
    && Ready(c, ue, i, ui, vi, un)
    && Thomas.PivotsNonZero(Thomas.BandOf(StationSystem(c, ue, i, ui, vi, un)))
  }

  /** Station i + 1 (rows un, vn) was marched from station i (rows ui, vi): its interior u is
      the solution of the station system, which then holds row by row, and its v follows
      the update rule. */
  predicate Marched(c: Config, ue: seq<real>, i: nat, ui: seq<real>, vi: seq<real>, un: seq<real>, vn: seq<real>)
  {
    && Solvable(c, ue, i, ui, vi, un) && |vn| == c.jmax
    && un[1 .. c.jmax - 1] == Thomas.Solution(StationSystem(c, ue, i, ui, vi, un))
    && VRule(c, ui, un, vn)
  }

  /** Two rows of a field agree in their boundary columns j = 0 and j = jmax - 1. */
  predicate SameEnds(r: seq<real>, r0: seq<real>)
  {
    1 <= |r| == |r0| && r[0] == r0[0] && r[|r| - 1] == r0[|r0| - 1]
  }

  datatype Outcome = Completed | Undefined(station: nat)

  /** Station k + 1 of the fields u, v was marched from station k. */
  predicate MarchedAt(c: Config, ue: seq<real>, u: Field, v: Field, k: nat)
  {
    k + 1 < |u| == |v| && Marched(c, ue, k, u[k], v[k], u[k + 1], v[k + 1])
  }

  /** Stations 1 .. n were marched, each from the one before. */
  predicate MarchedTo(c: Config, ue: seq<real>, u: Field, v: Field, n: nat)
  {
    forall k :: 0 <= k < n ==> MarchedAt(c, ue, u, v, k)
  }

  /** Every station of f keeps the boundary columns of the same station of f0. */
  predicate EndsKept(f: Field, f0: Field)
  {
    |f| == |f0| && forall k :: 0 <= k < |f| ==> SameEnds(f[k], f0[k])
  }

  /** Station i + 1 of u, v cannot be computed from station i. */
  predicate Stuck(c: Config, ue: seq<real>, u: Field, v: Field, i: nat)
  {
    i + 1 < |u| == |v| && !Solvable(c, ue, i, u[i], v[i], u[i + 1])
  }
}
