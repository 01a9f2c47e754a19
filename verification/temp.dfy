/** The march of `run()` in src/ludwig/temp.cpp. Station by station along the plate, the
    boundary-layer momentum equation for the next station's interior velocities
    u(i+1, 1 .. jmax-2) is a tridiagonal system (jmax - 2 unknowns, one row per interior wall
    point), assembled into a `Matrix`, solved by the `Matrix` Thomas solver and written back;
    v at the next station then follows by the update rule of lines 123-127.

    Each station's system depends on the current station's u and v and on the two boundary
    values u(i+1, 0) and u(i+1, jmax-1); the functions below take those rows of the fields.
    The coefficients divide by the current u(i, j): where one of them is zero, or where the
    sweep meets a zero pivot, the source goes on with infinities; the march here stops and
    reports the station. */
module Temp {
  import opened Primitive
  import ColumnMajor
  import Matrices
  import Thomas
  import Tdma
  import opened BoundaryLayer
  import opened Station

  // ---------------------------------------------------------------- the station matrix

  /** The station matrix is tridiagonal, with diagonal 1 + 2 alpha_k and -alpha_k on both
      sides of it in row k. */
  lemma StationBand(c: Config, ue: seq<real>, i: nat, ui: seq<real>, vi: seq<real>, un: seq<real>)
    requires Ready(c, ue, i, ui, vi, un)
    ensures Thomas.Tridiagonal(StationSystem(c, ue, i, ui, vi, un))
    ensures var s, al := StationSystem(c, ue, i, ui, vi, un), Alphas(c, ui);
      && (forall k :: 0 <= k < s.M() ==> Thomas.Coef(s, k, k) == 1.0 + 2.0 * al[k])
      && (forall k :: 1 <= k < s.M() ==> Thomas.Lower(s, k) == -al[k])
      && (forall k :: 0 <= k < s.M() - 1 ==> Thomas.Upper(s, k) == -al[k])
  {
    var s, al := StationSystem(c, ue, i, ui, vi, un), Alphas(c, ui);
    var m := StationMatrix(al);
    assert forall r: nat, t: nat :: r < s.M() && t < s.M() ==> Thomas.Coef(s, r, t) == StationEntry(al, r, t) by {
      forall r: nat, t: nat | r < s.M() && t < s.M()
        ensures Thomas.Coef(s, r, t) == StationEntry(al, r, t)
      {
        assert Thomas.Coef(s, r, t) == Matrices.Get(m, r, t);
      }
    }
  }

  // ---------------------------------------------------------------- the pivots

  /** With every alpha non-negative the station matrix is diagonally dominant: each pivot of
      the sweep is at least 1 + alpha_k and each normalised super-diagonal c' lies in (-1, 0]. */
  lemma {:induction false} DominantSweep(t: Thomas.Band, al: seq<real>, k: nat)
    requires t.Wf() && |al| == t.M() && k < t.M()
    requires forall r :: 0 <= r < |al| ==> 0.0 <= al[r] && t.dg[r] == 1.0 + 2.0 * al[r]
    requires forall r :: 1 <= r < |al| ==> t.l[r] == -al[r]
    requires forall r :: 0 <= r < |al| - 1 ==> t.u[r] == -al[r]
    ensures 1.0 + al[k] <= Thomas.Sweep(t, k).den
    ensures -1.0 < Thomas.Sweep(t, k).cp <= 0.0
  {
    var upper := if k + 1 < t.M() then t.u[k] else 0.0;
    if k > 0 {
      DominantSweep(t, al, k - 1);
      DominantPivot(al[k], Thomas.Sweep(t, k - 1).cp);
    }
    NormalisedBelowOne(upper, al[k], Thomas.Sweep(t, k).den);
  }

  /** A row's pivot 1 + 2 a - c' (-a), with the previous row's c' in (-1, 0], is at least
      1 + a. */
  lemma DominantPivot(a: real, cPrev: real)
    requires 0.0 <= a && -1.0 < cPrev <= 0.0
    ensures 1.0 + a <= Thomas.PivotOf(1.0 + 2.0 * a, cPrev, -a)
  {
    var p := cPrev + 1.0;
    assert 0.0 <= p && 0.0 <= p * a;
  }

  /** u / d lies in (-1, 0] when -a <= u <= 0 and 1 + a <= d. */
  lemma NormalisedBelowOne(u: real, a: real, d: real)
    requires -a <= u <= 0.0 && 0.0 <= a && 1.0 + a <= d
    ensures -1.0 < Thomas.Ratio(u, d) <= 0.0
  {
    assert u / d * d == u;
  }

  /** A station whose alphas are all non-negative never meets a zero pivot. */
  lemma DominantPivots(c: Config, ue: seq<real>, i: nat, ui: seq<real>, vi: seq<real>, un: seq<real>)
    requires Ready(c, ue, i, ui, vi, un)
    requires forall k :: 0 <= k < c.jmax - 2 ==> 0.0 <= Alphas(c, ui)[k]
    ensures Thomas.PivotsNonZero(Thomas.BandOf(StationSystem(c, ue, i, ui, vi, un)))
  {
    var s := StationSystem(c, ue, i, ui, vi, un);
    var t := Thomas.BandOf(s);
    StationBand(c, ue, i, ui, vi, un);
    forall k | 0 <= k < t.M()
      ensures Thomas.Sweep(t, k).den != 0.0
    {
      DominantSweep(t, Alphas(c, ui), k);
    }
  }

  /** For a fluid of positive viscosity and density, a grid with xmin < xmax, and positive
      velocities at the current station, every alpha is positive, so by `DominantPivots` the
      station can always be solved. */
  lemma PositiveAlphas(c: Config, ui: seq<real>)
    requires Marchable(c) && |ui| == c.jmax
    requires 0.0 < c.viscosity && 0.0 < c.density && c.xmin < c.xmax
    requires forall j :: 1 <= j < c.jmax - 1 ==> 0.0 < ui[j]
    ensures NonZero(c, ui)
    ensures forall k :: 0 <= k < c.jmax - 2 ==> 0.0 < Alphas(c, ui)[k]
  {
    assert 0.0 < DeltaX(c);
    forall k | 0 <= k < c.jmax - 2
      ensures 0.0 < Alphas(c, ui)[k]
    {
      PositiveQuotients(c.viscosity / c.density, ui[k + 1], DeltaX(c), DeltaY(c));
    }
  }

  lemma PositiveQuotients(nu: real, uij: real, dx: real, dyPrev: real)
    requires 0.0 < nu && 0.0 < uij && 0.0 < dx && dyPrev != 0.0
    ensures 0.0 < nu / uij * (dx / (dyPrev * dyPrev))
  {
    assert 0.0 < dyPrev * dyPrev;
    assert 0.0 < nu / uij;
    assert 0.0 < dx / (dyPrev * dyPrev);
  }

  // ---------------------------------------------------------------- assembly

  /** Writing the station entry into cell (k, h) extends the filled part by one cell. */
  lemma WriteNext(a: Matrices.Matrix, al: seq<real>, k: nat, h: nat)
    requires RowsUpTo(a, al, k, h) && k < |al| && h < |al|
    ensures RowsUpTo(Matrices.Set(a, k, h, StationEntry(al, k, h)), al, k, h + 1)
  {
    forall r: nat, s: nat | r < |al| && s < |al|
      ensures Matrices.Get(Matrices.Set(a, k, h, StationEntry(al, k, h)), r, s)
        == if r < k || (r == k && s < h + 1) then StationEntry(al, r, s) else 0.0
    {
      Matrices.SetLeavesOtherCells(a, k, h, StationEntry(al, k, h), r, s);
    }
  }

  /** The writes of row k = j - 1: A(k, k-1) = -alpha except on the first row, A(k, k) =
      1 + 2 alpha, A(k, k+1) = -alpha except on the last row. */
  method WriteRow(a: Matrices.Matrix, n: u32, k: nat, alpha: real, ghost al: seq<real>) returns (a2: Matrices.Matrix)
    requires RowsDone(a, al, k) && 2 <= n && n as int == |al| && k < n && al[k] == alpha
    ensures RowsDone(a2, al, k + 1)
  {
    a2 := a;
    if k != 0 {
      assert RowsUpTo(a2, al, k, k - 1);
      WriteNext(a2, al, k, k - 1);
      a2 := Matrices.Set(a2, k, k - 1, -alpha);
    }
    assert RowsUpTo(a2, al, k, k);
    WriteNext(a2, al, k, k);
    a2 := Matrices.Set(a2, k, k, 1.0 + 2.0 * alpha);
    if k != n - 1 {
      WriteNext(a2, al, k, k + 1);
      a2 := Matrices.Set(a2, k, k + 1, -alpha);
    }
    assert RowsUpTo(a2, al, k + 1, 0);
  }

  /** The assembly loop: A = `Matrix(jmax-2, jmax-2)` (zeros) and `Vector b(jmax-2)`, then for
      j = 1 .. jmax-2 row k = j - 1 of A and b(k). It builds the station matrix and the
      right-hand side. */
  method Assemble(c: Config, ue: seq<real>, i: nat, ui: seq<real>, vi: seq<real>, un: seq<real>)
    returns (a: Matrices.Matrix, b: seq<real>)
    requires Ready(c, ue, i, ui, vi, un)
    ensures a == StationMatrix(Alphas(c, ui)) && b == Rhs(c, ue, i, ui, vi, un)
  {
    var n: u32 := c.jmax - 2;
    var dy := GridOf(c).dy;
    ghost var al := Alphas(c, ui);
    a := Matrices.Zeros(n, n);
    b := seq(n, _ => 0.0);
    var k := 0;
    var j := 1;
    while j < c.jmax - 1
      invariant 1 <= j <= c.jmax - 1 && k == j - 1 && |b| == n
      invariant RowsDone(a, al, k)
      invariant forall r :: 0 <= r < n ==> b[r] == if r < k then RhsRow(c, ue, i, ui, vi, un[0], un[c.jmax - 1], r) else 0.0
    {
      var alpha := Alpha(c, ui[j], dy[j - 1]);
      a := WriteRow(a, n, k, alpha, al);
      b := b[k := RhsRow(c, ue, i, ui, vi, un[0], un[c.jmax - 1], k)];
      k := k + 1;
      j := j + 1;
    }
    Matrices.CellwiseEqual(a, StationMatrix(al));
  }

  // ---------------------------------------------------------------- the update

  lemma Cancels(c: Config, vPrev: real, next: real, nextBelow: real, below: real)
    requires c.Wf()
    ensures VLiteral(c, vPrev, next, next, nextBelow, below) == VBelow(c, vPrev, nextBelow, below)
  {
    assert next - next + nextBelow - below == nextBelow - below;
  }

  /** The update of lines 123-127: u(i+1, j+1) = c(j), then v(i+1, j+1) by `VLiteral`. The
      u(i+1, j+1) terms cancel, so v at the next station follows the next and current u one
      row below only. Columns 0 and jmax - 1 of the next station are not written. */
  method UpdateStation(c: Config, ui: seq<real>, un: seq<real>, vn: seq<real>, x: seq<real>)
    returns (un2: seq<real>, vn2: seq<real>)
    requires c.Wf() && 3 <= c.jmax && |ui| == |un| == |vn| == c.jmax && |x| == c.jmax - 2
    ensures |un2| == |vn2| == c.jmax
    ensures un2[0] == un[0] && un2[c.jmax - 1] == un[c.jmax - 1]
    ensures vn2[0] == vn[0] && vn2[c.jmax - 1] == vn[c.jmax - 1]
    ensures SameEnds(un2, un) && SameEnds(vn2, vn)
    ensures un2[1 .. c.jmax - 1] == x
    ensures VRule(c, ui, un2, vn2)
  {
    un2, vn2 := un, vn;
    var j := 0;
    while j < c.jmax - 2
      invariant 0 <= j <= c.jmax - 2 && |un2| == |vn2| == c.jmax
      invariant un2[0] == un[0] && vn2[0] == vn[0]
      invariant forall k :: j < k < c.jmax ==> un2[k] == un[k] && vn2[k] == vn[k]
      invariant forall k :: 1 <= k <= j ==> un2[k] == x[k - 1]
      invariant forall k {:trigger VBelow(c, vn2[k], un2[k], ui[k])} :: 0 <= k < j ==> vn2[k + 1] == VBelow(c, vn2[k], un2[k], ui[k])
    {
      un2 := un2[j + 1 := x[j]];
      Cancels(c, vn2[j], un2[j + 1], un2[j], ui[j]);
      vn2 := vn2[j + 1 := VLiteral(c, vn2[j], un2[j + 1], un2[j + 1], un2[j], ui[j])];
      j := j + 1;
    }
  }

  /** The discrete continuity equation the update is built on,
      (u(i+1, j) - u(i, j) + u(i+1, j-1) - u(i, j-1)) / (2 deltax) + (v(i+1, j) - v(i+1, j-1)) / deltay = 0,
      is left with the residual (u(i+1, j) - u(i, j)) / (2 deltax) by the rule as written: it
      holds exactly where u does not change from one station to the next. */
  lemma ContinuityResidual(c: Config, ui: seq<real>, un: seq<real>, vn: seq<real>, j: nat)
    requires c.Wf() && |ui| == |un| == |vn| == c.jmax && VRule(c, ui, un, vn) && 1 <= j < c.jmax - 1
    ensures (un[j] - ui[j] + un[j - 1] - ui[j - 1]) / (2.0 * DeltaX(c)) + (vn[j] - vn[j - 1]) / DeltaY(c)
         == (un[j] - ui[j]) / (2.0 * DeltaX(c))
  {
    var dx, dy := DeltaX(c), DeltaY(c);
    var w := un[j - 1] - ui[j - 1];
    assert vn[j] == VBelow(c, vn[j - 1], un[j - 1], ui[j - 1]);
    assert vn[j] - vn[j - 1] == -(dy / (2.0 * dx) * w);
    assert (vn[j] - vn[j - 1]) / dy == -(w / (2.0 * dx));
    assert (un[j] - ui[j] + w) / (2.0 * dx) == (un[j] - ui[j]) / (2.0 * dx) + w / (2.0 * dx);
  }

  // ---------------------------------------------------------------- one station

  /** A marched station solves its system: row k of the station matrix times u(i+1, 1 ..)
      gives b(k). */
  lemma MarchedSolves(c: Config, ue: seq<real>, i: nat, ui: seq<real>, vi: seq<real>, un: seq<real>, vn: seq<real>)
    requires Marched(c, ue, i, ui, vi, un, vn)
    ensures var s := StationSystem(c, ue, i, ui, vi, un);
      forall k :: 0 <= k < s.M() ==> Thomas.RowDot(s, k, un[1 .. c.jmax - 1], s.M()) == s.b[k]
  {
    StationBand(c, ue, i, ui, vi, un);
    Thomas.SolutionSolves(StationSystem(c, ue, i, ui, vi, un));
  }

  /** The station system reads only the boundary values of the next station. */
  lemma BoundaryOnly(c: Config, ue: seq<real>, i: nat, ui: seq<real>, vi: seq<real>, un: seq<real>, un2: seq<real>)
    requires Ready(c, ue, i, ui, vi, un) && |un2| == c.jmax
    requires un2[0] == un[0] && un2[c.jmax - 1] == un[c.jmax - 1]
    ensures Ready(c, ue, i, ui, vi, un2)
    ensures StationSystem(c, ue, i, ui, vi, un2) == StationSystem(c, ue, i, ui, vi, un)
  {
  }

  /** Assembly and `SolveTDMA` (b and c as column matrices, c starting as zeros) for a station
      whose u(i, j) are non-zero: ok is false exactly when the sweep meets a zero pivot, and
      otherwise x is the solution of the station system. */
  method SolveStation(c: Config, ue: seq<real>, i: nat, ui: seq<real>, vi: seq<real>, un: seq<real>)
    returns (ok: bool, x: seq<real>)
    requires Ready(c, ue, i, ui, vi, un)
    ensures ok <==> Solvable(c, ue, i, ui, vi, un)
    ensures ok ==> x == Thomas.Solution(StationSystem(c, ue, i, ui, vi, un))
  {
    var a, b := Assemble(c, ue, i, ui, vi, un);
    var n: u32 := c.jmax - 2;
    var bm := Matrices.Matrix(n, 1, b);
    assert Tdma.SystemOf(a, bm) == StationSystem(c, ue, i, ui, vi, un);
    ok := Thomas.PivotsNonZero(Thomas.BandOf(Tdma.SystemOf(a, bm)));
    x := [];
    if ok {
      var solved := Tdma.SolveTdma(a, bm, Matrices.Matrix(n, 1, seq(n, _ => 0.0)));
      x := solved.data[..n];
    }
  }

  /** A next station whose interior is the solution of the system built with the old
      boundary values, whose boundary values are the old ones, and whose v follows the update
      rule has been marched. */
  lemma StepDone(c: Config, ue: seq<real>, i: nat, ui: seq<real>, vi: seq<real>, un: seq<real>, un2: seq<real>, vn2: seq<real>)
    requires Solvable(c, ue, i, ui, vi, un) && |un2| == |vn2| == c.jmax
    requires un2[0] == un[0] && un2[c.jmax - 1] == un[c.jmax - 1]
    requires un2[1 .. c.jmax - 1] == Thomas.Solution(StationSystem(c, ue, i, ui, vi, un))
    requires VRule(c, ui, un2, vn2)
    ensures Marched(c, ue, i, ui, vi, un2, vn2)
  {
    BoundaryOnly(c, ue, i, ui, vi, un, un2);
  }

  /** One pass of the station loop: assemble, solve, write back. ok is false, and nothing is
      written, exactly when the station cannot be solved. */
  method Step(c: Config, ue: seq<real>, i: nat, ui: seq<real>, vi: seq<real>, un: seq<real>, vn: seq<real>)
    returns (ok: bool, un2: seq<real>, vn2: seq<real>)
    requires Marchable(c) && |ue| == c.imax && i + 1 < c.imax
    requires |ui| == |vi| == |un| == |vn| == c.jmax
    ensures ok <==> Solvable(c, ue, i, ui, vi, un)
    ensures !ok ==> un2 == un && vn2 == vn
    ensures ok ==> Marched(c, ue, i, ui, vi, un2, vn2)
    ensures SameEnds(un2, un) && SameEnds(vn2, vn)
  {
    un2, vn2 := un, vn;
    ok := NonZero(c, ui);
    if !ok {
      return;
    }
    var x;
    ok, x := SolveStation(c, ue, i, ui, vi, un);
    if !ok {
      return;
    }
    un2, vn2 := UpdateStation(c, ui, un, vn, x);
    StepDone(c, ue, i, ui, vi, un, un2, vn2);
  }
}
