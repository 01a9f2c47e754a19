/** The Thomas algorithm for tridiagonal systems that both `SolveTDMA` templates run
    (src/ludwig/mesh/uniform-grid.h over `Mat2`/`std::vector`, src/ludwig/solver/tdma.h over
    `Matrix`). The coefficients are read through a column-major buffer: A(i, j) is slot
    `i + j * ld` of `a`, which is how both `Mat2` and `Matrix` store them.

    The functional part below is the reference: the pivots, the normalised super-diagonal c',
    the normalised right-hand side b' and the back substitution, computed row by row exactly as
    the forward sweep does. `SolutionSolves` is the exact-solve theorem; `Solve` is the
    imperative sweep the two templates share, proved to produce the reference solution. */
module Thomas {
  import opened Primitive
  import ColumnMajor

  /** m = |b| equations whose coefficient A(i, j) lives in slot `i + j * ld` of `a`. */
  datatype System = System(a: seq<real>, ld: nat, b: seq<real>)
  {
    function M(): nat
    {
      |b|
    }

    /** At least two unknowns (the sweep reads A(0, 1) and row m - 2), a leading dimension
        that keeps the m x m block's cells apart, and every cell of that block inside `a`. */
    predicate Wf()
    {
      2 <= |b| <= ld && ColumnMajor.Addressable(a, ld, |b|, |b|)
    }
  }

  /** A(i, j). */
  function Coef(s: System, i: nat, j: nat): real
    requires s.Wf() && i < s.M() && j < s.M()
  {
    ColumnMajor.Get(s.a, s.ld, i, j)
  }

  /** The sub-diagonal coefficient A(i, i-1). */
  function Lower(s: System, i: nat): real
    requires s.Wf() && 1 <= i < s.M()
  {
    Coef(s, i, i - 1)
  }

  /** The super-diagonal coefficient A(i, i+1). */
  function Upper(s: System, i: nat): real
    requires s.Wf() && i + 1 < s.M()
  {
    Coef(s, i, i + 1)
  }

  /** Every coefficient more than one place off the diagonal is zero. */
  predicate Tridiagonal(s: System)
    requires s.Wf()
  {
    forall i: nat, j: nat {:trigger Coef(s, i, j)} ::
      i < s.M() && j < s.M() && (j + 1 < i || i + 1 < j) ==> Coef(s, i, j) == 0.0
  }

  // ---------------------------------------------------------------- the band

  /** The band of a tridiagonal system and its right-hand side: the sub-diagonal l (l[0] is
      unused), the diagonal dg and the super-diagonal u. */
  datatype Band = Band(l: seq<real>, dg: seq<real>, u: seq<real>, rhs: seq<real>)
  {
    function M(): nat
    {
      |rhs|
    }

    predicate Wf()
    {
      2 <= |rhs| && |l| == |dg| == |rhs| && |u| == |rhs| - 1
    }
  }

  /** The band of A together with b. */
  function BandOf(s: System): (t: Band)
    requires s.Wf()
    ensures t.Wf() && t.M() == s.M() && t.rhs == s.b
    ensures forall i :: 0 <= i < s.M() ==> t.dg[i] == Coef(s, i, i)
    ensures forall i :: 1 <= i < s.M() ==> t.l[i] == Lower(s, i)
    ensures forall i :: 0 <= i < s.M() - 1 ==> t.u[i] == Upper(s, i)
  {
    Band(seq(s.M(), i requires 0 <= i < s.M() => if i == 0 then 0.0 else Lower(s, i)),
         seq(s.M(), i requires 0 <= i < s.M() => Coef(s, i, i)),
         seq(s.M() - 1, i requires 0 <= i < s.M() - 1 => Upper(s, i)),
         s.b)
  }

  /** The buffer of s holds the sub-diagonal l, the diagonal dg and the super-diagonal u. */
  predicate BandIs(s: System, l: seq<real>, dg: seq<real>, u: seq<real>)
    requires s.Wf()
  {
    && |l| == |dg| == s.M() && |u| == s.M() - 1
    && (forall i :: 0 <= i < s.M() ==> Coef(s, i, i) == dg[i])
    && (forall i :: 1 <= i < s.M() ==> Lower(s, i) == l[i])
    && (forall i :: 0 <= i < s.M() - 1 ==> Upper(s, i) == u[i])
  }

  // ---------------------------------------------------------------- row arithmetic

  /** The pivot of a row below the first: its diagonal coefficient less the previous row's c'
      times its sub-diagonal coefficient. */
  function PivotOf(diag: real, cPrev: real, sub: real): real
  {
    diag - cPrev * sub
  }

  /** `a - f * y`: the forward sweep's elimination of b'[i-1] from b[i], and the back
      substitution's elimination of x[i+1] from b'[i]. */
  function Reduce(a: real, f: real, y: real): real
  {
    a - f * y
  }

  /** Division by a pivot. A zero pivot is excluded by `PivotsNonZero`; the 0 for it only
      keeps the function total. */
  function Ratio(x: real, den: real): real
  {
    if den == 0.0 then 0.0 else x / den
  }

  // ---------------------------------------------------------------- the forward sweep

  /** What the forward sweep leaves for row i: the pivot `den`, the normalised super-diagonal
      c'[i] = A(i, i+1) / den that it stores back into A(i, i+1), and the normalised right-hand
      side b'[i] that it stores back into b[i]. */
  datatype Row = Row(den: real, cp: real, bp: real)

  /** Row i of the sweep. The first row is divided by A(0, 0); row i > 0 has pivot
      `A(i, i) - c'[i-1] * A(i, i-1)` and right-hand side `b[i] - A(i, i-1) * b'[i-1]`. The last
      row has no super-diagonal, so its c' is 0 and is never read. */
  function Sweep(t: Band, i: nat): Row
    requires t.Wf() && i < t.M()
  {
    var upper := if i + 1 < t.M() then t.u[i] else 0.0;
    if i == 0 then Row(t.dg[0], Ratio(upper, t.dg[0]), Ratio(t.rhs[0], t.dg[0]))
    else
      var prev := Sweep(t, i - 1);
      var den := PivotOf(t.dg[i], prev.cp, t.l[i]);
      Row(den, Ratio(upper, den), Ratio(Reduce(t.rhs[i], t.l[i], prev.bp), den))
  }

  /** No pivot is zero: neither A(0, 0), nor any forward-sweep `d`, nor the denominator of the
      last row. */
  predicate PivotsNonZero(t: Band)
    requires t.Wf()
  {
    forall i :: 0 <= i < t.M() ==> Sweep(t, i).den != 0.0
  }

  /** The pivots, normalised super-diagonal and normalised right-hand side of every row. */
  function Pivots(t: Band): (r: seq<real>)
    requires t.Wf()
    ensures |r| == t.M() && forall i {:trigger r[i]} :: 0 <= i < t.M() ==> r[i] == Sweep(t, i).den
  {
    seq(t.M(), i requires 0 <= i < t.M() => Sweep(t, i).den)
  }

  function CPrimes(t: Band): (r: seq<real>)
    requires t.Wf()
    ensures |r| == t.M() - 1 && forall i {:trigger r[i]} :: 0 <= i < t.M() - 1 ==> r[i] == Sweep(t, i).cp
  {
    seq(t.M() - 1, i requires 0 <= i < t.M() - 1 => Sweep(t, i).cp)
  }

  function BPrimes(t: Band): (r: seq<real>)
    requires t.Wf()
    ensures |r| == t.M() && forall i {:trigger r[i]} :: 0 <= i < t.M() ==> r[i] == Sweep(t, i).bp
  {
    seq(t.M(), i requires 0 <= i < t.M() => Sweep(t, i).bp)
  }

  // ---------------------------------------------------------------- back substitution

  /** Unknown i of the back substitution over normalised values cp and bp. */
  function Backward(cp: seq<real>, bp: seq<real>, i: nat): real
    requires |cp| + 1 == |bp| && i < |bp|
    decreases |bp| - i
  {
    if i == |bp| - 1 then bp[i] else Reduce(bp[i], cp[i], Backward(cp, bp, i + 1))
  }

  /** The back substitution: the last unknown is its b', and every unknown above it is its b'
      less its c' times the unknown below. */
  function BackSubstitution(cp: seq<real>, bp: seq<real>): (x: seq<real>)
    requires |cp| + 1 == |bp|
    ensures |x| == |bp| && x[|bp| - 1] == bp[|bp| - 1]
    ensures forall i {:trigger cp[i]} :: 0 <= i < |cp| ==> x[i] == Reduce(bp[i], cp[i], x[i + 1])
  {
    seq(|bp|, i requires 0 <= i < |bp| => Backward(cp, bp, i))
  }

  /** The unknowns the algorithm produces for a band. */
  function SolveBand(t: Band): (x: seq<real>)
    requires t.Wf()
    ensures |x| == t.M()
  {
    BackSubstitution(CPrimes(t), BPrimes(t))
  }

  /** The m unknowns the algorithm produces for a system. */
  function Solution(s: System): (x: seq<real>)
    requires s.Wf()
    ensures |x| == s.M()
  {
    SolveBand(BandOf(s))
  }

  // ---------------------------------------------------------------- the recurrences

  /** Row i of the forward sweep over a band, with den, cp and bp given as plain sequences: a
      non-zero pivot den[i] (A(0, 0) on the first row, `dg - c'[i-1] * l` below it),
      c'[i] = u[i] / den[i] on every row but the last, and b'[i] = (rhs[i] - l[i] * b'[i-1]) /
      den[i]. */
  predicate ForwardRow(t: Band, den: seq<real>, cp: seq<real>, bp: seq<real>, i: nat)
    requires t.Wf() && |den| == |bp| == t.M() && |cp| == t.M() - 1 && i < t.M()
  {
    && den[i] != 0.0
    && (i == 0 ==> den[0] == t.dg[0] && bp[0] == Ratio(t.rhs[0], den[0]))
    && (0 < i ==> (den[i] == PivotOf(t.dg[i], cp[i - 1], t.l[i])
                  && bp[i] == Ratio(Reduce(t.rhs[i], t.l[i], bp[i - 1]), den[i])))
    && (i + 1 < t.M() ==> cp[i] == Ratio(t.u[i], den[i]))
  }

  /** den, cp and bp are what the forward sweep computes, row by row, from the band. */
  predicate Eliminated(t: Band, den: seq<real>, cp: seq<real>, bp: seq<real>)
  {
    && t.Wf() && |den| == |bp| == t.M() && |cp| == t.M() - 1
    && forall i :: 0 <= i < t.M() ==> ForwardRow(t, den, cp, bp, i)
  }

  /** `l xPrev + d x + u xNext`: one row of a tridiagonal product. */
  function Dot3(l: real, xPrev: real, d: real, x: real, u: real, xNext: real): real
  {
    l * xPrev + d * x + u * xNext
  }

  /** Row i of A x written with the band alone; the first row has no sub-diagonal term and the
      last no super-diagonal term. */
  function BandRow(t: Band, i: nat, x: seq<real>): real
    requires t.Wf() && i < t.M() && |x| == t.M()
  {
    Dot3(if 0 < i then t.l[i] else 0.0, if 0 < i then x[i - 1] else 0.0, t.dg[i], x[i],
         if i + 1 < t.M() then t.u[i] else 0.0, if i + 1 < t.M() then x[i + 1] else 0.0)
  }

  /** Row 0 of the algebra: A(0,0) x0 + A(0,1) x1 = b0. */
  lemma FirstRow(a00: real, a01: real, b0: real, c0: real, bp0: real, x0: real, x1: real)
    requires a00 != 0.0 && c0 == Ratio(a01, a00) && bp0 == Ratio(b0, a00) && x0 == Reduce(bp0, c0, x1)
    ensures Dot3(0.0, 0.0, a00, x0, a01, x1) == b0
  {
    assert a00 * c0 == a01;
    assert a00 * bp0 == b0;
    assert a00 * x0 == a00 * bp0 - a00 * c0 * x1;
  }

  /** An interior row: l x[i-1] + d x[i] + u x[i+1] = b[i]. */
  lemma MiddleRow(l: real, d: real, u: real, cPrev: real, bPrev: real, den: real,
                  cp: real, bp: real, xPrev: real, xi: real, xn: real, bi: real)
    requires den == PivotOf(d, cPrev, l) && den != 0.0
    requires cp == Ratio(u, den) && bp == Ratio(Reduce(bi, l, bPrev), den)
    requires xPrev == Reduce(bPrev, cPrev, xi) && xi == Reduce(bp, cp, xn)
    ensures Dot3(l, xPrev, d, xi, u, xn) == bi
  {
    assert den * cp == u;
    assert den * bp == bi - l * bPrev;
    assert den * xi == den * bp - den * cp * xn;
    assert l * xPrev + d * xi == l * bPrev + den * xi;
  }

  /** The last row: l x[m-2] + d x[m-1] = b[m-1]. */
  lemma LastRow(l: real, d: real, cPrev: real, bPrev: real, den: real, bp: real,
                xPrev: real, xi: real, bi: real)
    requires den == PivotOf(d, cPrev, l) && den != 0.0
    requires bp == Ratio(Reduce(bi, l, bPrev), den)
    requires xPrev == Reduce(bPrev, cPrev, xi) && xi == bp
    ensures Dot3(l, xPrev, d, xi, 0.0, 0.0) == bi
  {
    assert den * bp == bi - l * bPrev;
    assert l * xPrev + d * xi == l * bPrev + den * xi;
  }

  lemma EliminatedFirstRow(t: Band, den: seq<real>, cp: seq<real>, bp: seq<real>)
    requires Eliminated(t, den, cp, bp)
    ensures BandRow(t, 0, BackSubstitution(cp, bp)) == t.rhs[0]
  {
    var x := BackSubstitution(cp, bp);
    assert ForwardRow(t, den, cp, bp, 0);
    FirstRow(t.dg[0], t.u[0], t.rhs[0], cp[0], bp[0], x[0], x[1]);
  }

  lemma EliminatedMiddleRow(t: Band, den: seq<real>, cp: seq<real>, bp: seq<real>, i: nat)
    requires Eliminated(t, den, cp, bp) && 0 < i < t.M() - 1
    ensures BandRow(t, i, BackSubstitution(cp, bp)) == t.rhs[i]
  {
    var x := BackSubstitution(cp, bp);
    assert ForwardRow(t, den, cp, bp, i - 1) && ForwardRow(t, den, cp, bp, i);
    MiddleRow(t.l[i], t.dg[i], t.u[i], cp[i - 1], bp[i - 1], den[i], cp[i], bp[i],
              x[i - 1], x[i], x[i + 1], t.rhs[i]);
  }

  lemma EliminatedLastRow(t: Band, den: seq<real>, cp: seq<real>, bp: seq<real>)
    requires Eliminated(t, den, cp, bp)
    ensures BandRow(t, t.M() - 1, BackSubstitution(cp, bp)) == t.rhs[t.M() - 1]
  {
    var x, m := BackSubstitution(cp, bp), t.M();
    assert ForwardRow(t, den, cp, bp, m - 2);
    assert ForwardRow(t, den, cp, bp, m - 1);
    LastRow(t.l[m - 1], t.dg[m - 1], cp[m - 2], bp[m - 2], den[m - 1], bp[m - 1], x[m - 2], x[m - 1], t.rhs[m - 1]);
  }

  /** Whatever the values, back substitution over what the forward sweep computes solves every
      row of the band. */
  lemma EliminatedSolves(t: Band, den: seq<real>, cp: seq<real>, bp: seq<real>, i: nat)
    requires Eliminated(t, den, cp, bp) && i < t.M()
    ensures BandRow(t, i, BackSubstitution(cp, bp)) == t.rhs[i]
  {
    if i == 0 {
      EliminatedFirstRow(t, den, cp, bp);
    } else if i + 1 < t.M() {
      EliminatedMiddleRow(t, den, cp, bp, i);
    } else {
      EliminatedLastRow(t, den, cp, bp);
    }
  }

  // ---------------------------------------------------------------- the reference sweep

  /** Row i of the reference definitions is a row of the forward sweep. */
  lemma SweepRow(t: Band, i: nat)
    requires t.Wf() && PivotsNonZero(t) && i < t.M()
    ensures ForwardRow(t, Pivots(t), CPrimes(t), BPrimes(t), i)
  {
    assert Sweep(t, i).den != 0.0;
  }

  /** The reference sweep follows the recurrences on every row. */
  lemma SweepEliminates(t: Band)
    requires t.Wf() && PivotsNonZero(t)
    ensures Eliminated(t, Pivots(t), CPrimes(t), BPrimes(t))
  {
    forall i | 0 <= i < t.M()
      ensures ForwardRow(t, Pivots(t), CPrimes(t), BPrimes(t), i)
    {
      SweepRow(t, i);
    }
  }

  /** The reference solution of a band solves it. */
  lemma SolveBandSolves(t: Band)
    requires t.Wf() && PivotsNonZero(t)
    ensures forall i :: 0 <= i < t.M() ==> BandRow(t, i, SolveBand(t)) == t.rhs[i]
  {
    SweepEliminates(t);
    forall i | 0 <= i < t.M()
      ensures BandRow(t, i, SolveBand(t)) == t.rhs[i]
    {
      EliminatedSolves(t, Pivots(t), CPrimes(t), BPrimes(t), i);
    }
  }

  // ---------------------------------------------------------------- A x = b

  /** The first n terms of row i of A x: the sum of A(i, j) * x[j] over j < n. */
  function RowDot(s: System, i: nat, x: seq<real>, n: nat): real
    requires s.Wf() && i < s.M() && n <= s.M() && |x| == s.M()
  {
    if n == 0 then 0.0 else RowDot(s, i, x, n - 1) + Coef(s, i, n - 1) * x[n - 1]
  }

  lemma {:induction false} RowDotBelowBand(s: System, i: nat, x: seq<real>, n: nat)
    requires s.Wf() && Tridiagonal(s) && i < s.M() && |x| == s.M()
    requires n + 1 <= i
    ensures RowDot(s, i, x, n) == 0.0
  {
    if n > 0 {
      RowDotBelowBand(s, i, x, n - 1);
      assert Coef(s, i, n - 1) == 0.0;
    }
  }

  lemma {:induction false} RowDotAboveBand(s: System, i: nat, x: seq<real>, n: nat)
    requires s.Wf() && Tridiagonal(s) && |x| == s.M()
    requires i + 2 <= n <= s.M()
    ensures RowDot(s, i, x, n) == RowDot(s, i, x, i + 2)
  {
    if n > i + 2 {
      RowDotAboveBand(s, i, x, n - 1);
      assert Coef(s, i, n - 1) == 0.0;
    }
  }

  /** For a tridiagonal A, row i of A x is its at most three band terms. */
  lemma RowDotIsBand(s: System, i: nat, x: seq<real>)
    requires s.Wf() && Tridiagonal(s) && i < s.M() && |x| == s.M()
    ensures RowDot(s, i, x, s.M()) == BandRow(BandOf(s), i, x)
  {
    var t := BandOf(s);
    var m := s.M();
    RowDotToDiagonal(s, i, x);
    RowDotPastDiagonal(s, i, x);
    var diagonal := RowDot(s, i, x, i) + t.dg[i] * x[i];
    assert RowDot(s, i, x, i + 1) == diagonal;
    if 0 < i && i + 1 < m {
      assert BandRow(t, i, x) == Dot3(t.l[i], x[i - 1], t.dg[i], x[i], t.u[i], x[i + 1]);
    } else if 0 < i {
      assert BandRow(t, i, x) == Dot3(t.l[i], x[i - 1], t.dg[i], x[i], 0.0, 0.0);
    } else {
      assert BandRow(t, i, x) == Dot3(0.0, 0.0, t.dg[i], x[i], t.u[i], x[i + 1]);
    }
  }

  /** The terms of row i before the diagonal: the sub-diagonal one alone. */
  lemma RowDotToDiagonal(s: System, i: nat, x: seq<real>)
    requires s.Wf() && Tridiagonal(s) && i < s.M() && |x| == s.M()
    ensures i == 0 ==> RowDot(s, i, x, i) == 0.0
    ensures 0 < i ==> RowDot(s, i, x, i) == BandOf(s).l[i] * x[i - 1]
  {
    if 0 < i {
      RowDotBelowBand(s, i, x, i - 1);
      assert RowDot(s, i, x, i) == RowDot(s, i, x, i - 1) + Coef(s, i, i - 1) * x[i - 1];
    }
  }

  /** The terms of row i after the diagonal: the super-diagonal one alone. */
  lemma RowDotPastDiagonal(s: System, i: nat, x: seq<real>)
    requires s.Wf() && Tridiagonal(s) && i < s.M() && |x| == s.M()
    ensures i + 1 == s.M() ==> RowDot(s, i, x, s.M()) == RowDot(s, i, x, i + 1)
    ensures i + 1 < s.M() ==> RowDot(s, i, x, s.M()) == RowDot(s, i, x, i + 1) + BandOf(s).u[i] * x[i + 1]
  {
    if i + 1 < s.M() {
      assert RowDot(s, i, x, i + 2) == RowDot(s, i, x, i + 1) + Coef(s, i, i + 1) * x[i + 1];
      RowDotAboveBand(s, i, x, s.M());
    }
  }

  /** The exact-solve theorem: for a tridiagonal A with no zero pivot, every row of A x equals
      the matching entry of b. */
  lemma SolutionSolves(s: System)
    requires s.Wf() && Tridiagonal(s) && PivotsNonZero(BandOf(s))
    ensures forall i :: 0 <= i < s.M() ==> RowDot(s, i, Solution(s), s.M()) == s.b[i]
  {
    SolveBandSolves(BandOf(s));
    forall i | 0 <= i < s.M()
      ensures RowDot(s, i, Solution(s), s.M()) == s.b[i]
    {
      RowDotIsBand(s, i, Solution(s));
    }
  }

  // ---------------------------------------------------------------- only the band is read

  /** Two systems with the same right-hand side and the same band coefficients. */
  predicate SameBand(s: System, t: System)
  {
    && s.Wf() && t.Wf() && s.b == t.b
    && (forall i :: 0 <= i < s.M() ==> Coef(s, i, i) == Coef(t, i, i))
    && (forall i :: 1 <= i < s.M() ==> Lower(s, i) == Lower(t, i))
    && (forall i :: 0 <= i && i + 1 < s.M() ==> Upper(s, i) == Upper(t, i))
  }

  /** Only A(i, i-1), A(i, i) and A(i, i+1) are read: changing any other coefficient leaves
      the solution unchanged. */
  lemma BandOnly(s: System, t: System)
    requires SameBand(s, t)
    ensures Solution(s) == Solution(t)
  {
    var bs, bt := BandOf(s), BandOf(t);
    assert bs.l == bt.l by {
      forall k | 0 <= k < s.M()
        ensures bs.l[k] == bt.l[k]
      {
        if k == 0 {
          assert bs.l[0] == 0.0 == bt.l[0];
        }
      }
    }
    assert bs.dg == bt.dg;
    assert bs.u == bt.u;
    assert bs == bt;
  }

  // ---------------------------------------------------------------- the buffer

  /** Cell (i, j) of the buffer c, whose leading dimension is ld, exists and holds v. */
  predicate Holds(c: seq<real>, ld: nat, i: nat, j: nat, v: real)
  {
    ColumnMajor.Slot(i, j, ld) < |c| && ColumnMajor.Get(c, ld, i, j) == v
  }

  /** The leading m x m block of c (m = |dg|) has the sub-diagonal l, the diagonal dg and the
      super-diagonal u, and its rows are below the leading dimension. */
  predicate BandHeld(c: seq<real>, ld: nat, l: seq<real>, dg: seq<real>, u: seq<real>)
  {
    && 2 <= |dg| <= ld && |l| == |dg| && |u| == |dg| - 1
    && (forall k :: 0 <= k < |dg| ==> Holds(c, ld, k, k, dg[k]))
    && (forall k :: 1 <= k < |dg| ==> Holds(c, ld, k, k - 1, l[k]))
    && (forall k :: 0 <= k < |u| ==> Holds(c, ld, k, k + 1, u[k]))
  }

  /** The buffer of a system holds the band of that system. */
  lemma BandOfHeld(s: System)
    requires s.Wf()
    ensures BandHeld(s.a, s.ld, BandOf(s).l, BandOf(s).dg, BandOf(s).u)
  {
    var t := BandOf(s);
    forall k | 0 <= k < s.M()
      ensures Holds(s.a, s.ld, k, k, t.dg[k])
    {
      assert ColumnMajor.Slot(k, k, s.ld) < |s.a|;
    }
    forall k | 1 <= k < s.M()
      ensures Holds(s.a, s.ld, k, k - 1, t.l[k])
    {
      assert ColumnMajor.Slot(k, k - 1, s.ld) < |s.a|;
    }
    forall k | 0 <= k < s.M() - 1
      ensures Holds(s.a, s.ld, k, k + 1, t.u[k])
    {
      assert ColumnMajor.Slot(k, k + 1, s.ld) < |s.a|;
    }
  }

  /** Overwriting A(i, i+1) with v replaces u[i] by v and leaves the rest of the band. */
  lemma StoreUpper(c: seq<real>, ld: nat, l: seq<real>, dg: seq<real>, u: seq<real>, i: nat, v: real)
    requires BandHeld(c, ld, l, dg, u) && i < |u|
    ensures ColumnMajor.Slot(i, i + 1, ld) < |c|
    ensures BandHeld(ColumnMajor.Set(c, ld, i, i + 1, v), ld, l, dg, u[i := v])
  {
    assert Holds(c, ld, i, i + 1, u[i]);
    ColumnMajor.SetLeavesOthers(c, ld, i, i + 1, v);
  }

  /** The first i entries of x followed by the rest of y: what a sweep that has passed row i
      leaves in a buffer that started out holding y. */
  function Mixed(x: seq<real>, y: seq<real>, i: nat): (r: seq<real>)
    requires |x| == |y| && i <= |x|
    ensures |r| == |y|
    ensures forall k :: 0 <= k < |r| ==> r[k] == if k < i then x[k] else y[k]
  {
    x[..i] + y[i..]
  }

  /** Passing one more row replaces entry i; before the first row nothing is replaced, after
      the last everything is. */
  lemma MixedSteps(x: seq<real>, y: seq<real>, i: nat)
    requires |x| == |y| && i < |x|
    ensures Mixed(x, y, i)[i := x[i]] == Mixed(x, y, i + 1)
    ensures Mixed(x, y, 0) == y && Mixed(x, y, |x|) == x
  {
    assert Mixed(x, y, i)[i := x[i]] == Mixed(x, y, i + 1);
  }

  // ---------------------------------------------------------------- the shared sweep

  /** Row 0 of the forward sweep: A(0, 1) and b[0] are divided by A(0, 0). */
  method EliminateFirst(a: seq<real>, ld: nat, b: seq<real>, ghost t: Band,
                        ghost den: seq<real>, ghost cp: seq<real>, ghost bp: seq<real>)
    returns (c: seq<real>, d: seq<real>)
    requires Eliminated(t, den, cp, bp) && t.rhs == b && BandHeld(a, ld, t.l, t.dg, t.u)
    ensures |c| == |a| && BandHeld(c, ld, t.l, t.dg, Mixed(cp, t.u, 1))
    ensures d == Mixed(bp, b, 1)
  {
    assert ForwardRow(t, den, cp, bp, 0);
    assert Holds(a, ld, 0, 0, t.dg[0]) && Holds(a, ld, 0, 1, t.u[0]);
    var a00 := ColumnMajor.Get(a, ld, 0, 0);
    var c01 := ColumnMajor.Get(a, ld, 0, 1) / a00;
    assert c01 == Ratio(t.u[0], den[0]);
    StoreUpper(a, ld, t.l, t.dg, t.u, 0, c01);
    c := ColumnMajor.Set(a, ld, 0, 1, c01);
    d := b[0 := b[0] / a00];
    assert d[0] == Ratio(t.rhs[0], den[0]);
    MixedSteps(cp, t.u, 0);
    MixedSteps(bp, b, 0);
  }

  /** Row i of the forward elimination, 0 < i < m - 1: with the pivot
      `d = A(i, i) - A(i-1, i) * A(i, i-1)`, where A(i-1, i) already holds c'[i-1], A(i, i+1)
      becomes c'[i] and b[i] becomes b'[i]. */
  method EliminateRow(c: seq<real>, ld: nat, d: seq<real>, i: nat, ghost t: Band,
                      ghost den: seq<real>, ghost cp: seq<real>, ghost bp: seq<real>)
    returns (c2: seq<real>, d2: seq<real>)
    requires Eliminated(t, den, cp, bp) && 0 < i < t.M() - 1
    requires BandHeld(c, ld, t.l, t.dg, Mixed(cp, t.u, i)) && d == Mixed(bp, t.rhs, i)
    ensures |c2| == |c| && BandHeld(c2, ld, t.l, t.dg, Mixed(cp, t.u, i + 1))
    ensures d2 == Mixed(bp, t.rhs, i + 1)
  {
    ghost var u := Mixed(cp, t.u, i);
    assert ForwardRow(t, den, cp, bp, i);
    assert Holds(c, ld, i, i, t.dg[i]) && Holds(c, ld, i - 1, i, u[i - 1]);
    assert Holds(c, ld, i, i - 1, t.l[i]) && Holds(c, ld, i, i + 1, u[i]);
    var diag, above, sub := ColumnMajor.Get(c, ld, i, i), ColumnMajor.Get(c, ld, i - 1, i), ColumnMajor.Get(c, ld, i, i - 1);
    var pivot := diag - above * sub;
    assert pivot == PivotOf(t.dg[i], cp[i - 1], t.l[i]);
    var ci := ColumnMajor.Get(c, ld, i, i + 1) / pivot;
    assert ci == Ratio(t.u[i], den[i]);
    StoreUpper(c, ld, t.l, t.dg, u, i, ci);
    c2 := ColumnMajor.Set(c, ld, i, i + 1, ci);
    var rhs := d[i] - sub * d[i - 1];
    assert rhs == Reduce(t.rhs[i], t.l[i], bp[i - 1]);
    d2 := d[i := rhs / pivot];
    assert d2[i] == Ratio(rhs, den[i]);
    MixedSteps(cp, t.u, i);
    MixedSteps(bp, t.rhs, i);
  }

  /** The forward sweep on c, A's buffer, and d, a copy of b: it divides row 0 by A(0, 0), then for 0 < i < m - 1 stores c'[i] into
      A(i, i+1) and b'[i] into b[i]. The diagonals and b[m-1] are left as they were. */
  method ForwardSweep(a: seq<real>, ld: nat, b: seq<real>, ghost t: Band,
                      ghost den: seq<real>, ghost cp: seq<real>, ghost bp: seq<real>)
    returns (c: seq<real>, d: seq<real>)
    requires Eliminated(t, den, cp, bp) && t.rhs == b && BandHeld(a, ld, t.l, t.dg, t.u)
    ensures |c| == |a| && BandHeld(c, ld, t.l, t.dg, cp)
    ensures d == Mixed(bp, b, |b| - 1)
  {
    c, d := EliminateFirst(a, ld, b, t, den, cp, bp);
    var i := 1;
    while i < |b| - 1
      invariant 1 <= i <= |b| - 1
      invariant |c| == |a| && BandHeld(c, ld, t.l, t.dg, Mixed(cp, t.u, i))
      invariant d == Mixed(bp, b, i)
    {
      c, d := EliminateRow(c, ld, d, i, t, den, cp, bp);
      i := i + 1;
    }
    MixedSteps(cp, t.u, 0);
  }

  /** The last row: x[m-1] = (b[m-1] - A(m-1, m-2) b[m-2]) / (A(m-1, m-1) - A(m-2, m-1)
      A(m-1, m-2)), computed from what the forward sweep left. */
  method LastUnknown(c: seq<real>, ld: nat, d: seq<real>, ghost t: Band,
                     ghost den: seq<real>, ghost cp: seq<real>, ghost bp: seq<real>)
    returns (v: real)
    requires Eliminated(t, den, cp, bp) && BandHeld(c, ld, t.l, t.dg, cp)
    requires d == Mixed(bp, t.rhs, t.M() - 1)
    ensures v == bp[t.M() - 1]
  {
    var m := |d|;
    assert ForwardRow(t, den, cp, bp, m - 1);
    assert Holds(c, ld, m - 1, m - 2, t.l[m - 1]) && Holds(c, ld, m - 1, m - 1, t.dg[m - 1]);
    assert Holds(c, ld, m - 2, m - 1, cp[m - 2]);
    var sub, diag, above := ColumnMajor.Get(c, ld, m - 1, m - 2), ColumnMajor.Get(c, ld, m - 1, m - 1), ColumnMajor.Get(c, ld, m - 2, m - 1);
    var num, pivot := d[m - 1] - sub * d[m - 2], diag - above * sub;
    assert num == Reduce(t.rhs[m - 1], t.l[m - 1], bp[m - 2]);
    assert pivot == PivotOf(t.dg[m - 1], cp[m - 2], t.l[m - 1]);
    v := num / pivot;
    assert v == Ratio(num, den[m - 1]);
  }

  /** The back substitution: x[i] = -A(i, i+1) x[i+1] + b[i] counting i down from m - 2 to 0,
      with A(i, i+1) holding c'[i] and b[i] holding b'[i]. x[m-1] is already in place and
      nothing from x[m] on is written. */
  method BackSubstitute(c: seq<real>, ld: nat, d: seq<real>, x0: seq<real>,
                        ghost cp: seq<real>, ghost bp: seq<real>)
    returns (x: seq<real>)
    requires |cp| + 1 == |bp| == |d| && |d| - 2 < I32_LIMIT && |x0| >= |d|
    requires forall k :: 0 <= k < |cp| ==> Holds(c, ld, k, k + 1, cp[k])
    requires forall k :: 0 <= k < |cp| ==> d[k] == bp[k]
    requires x0[|d| - 1] == bp[|d| - 1]
    ensures |x| == |x0|
    ensures x[..|d|] == BackSubstitution(cp, bp)
    ensures x[|d|..] == x0[|d|..]
  {
    var m := |d|;
    ghost var xs := BackSubstitution(cp, bp);
    x := x0;
    var j: int := m - 2;
    while j >= 0
      invariant -1 <= j <= m - 2
      invariant |x| == |x0|
      invariant forall k :: j < k < m ==> x[k] == xs[k]
      invariant forall k :: m <= k < |x| ==> x[k] == x0[k]
    {
      assert Holds(c, ld, j, j + 1, cp[j]);
      var cj := ColumnMajor.Get(c, ld, j, j + 1);
      var xj := -cj * x[j + 1] + d[j];
      assert xj == Reduce(bp[j], cp[j], xs[j + 1]);
      x := x[j := xj];
      j := j - 1;
    }
    assert forall k :: 0 <= k < m ==> x[..m][k] == xs[k];
  }

  /** The sweep and the back substitution over a buffer holding the band of t, given the
      values the forward sweep computes for t. */
  method SolveHeld(a: seq<real>, ld: nat, b: seq<real>, x0: seq<real>, ghost t: Band,
                   ghost den: seq<real>, ghost cp: seq<real>, ghost bp: seq<real>)
    returns (x: seq<real>)
    requires Eliminated(t, den, cp, bp) && t.rhs == b && BandHeld(a, ld, t.l, t.dg, t.u)
    requires |b| - 2 < I32_LIMIT && |x0| >= |b|
    ensures |x| == |x0|
    ensures x[..|b|] == BackSubstitution(cp, bp)
    ensures x[|b|..] == x0[|b|..]
  {
    var c, d := ForwardSweep(a, ld, b, t, den, cp, bp);
    var last := LastUnknown(c, ld, d, t, den, cp, bp);
    x := x0[|b| - 1 := last];
    x := BackSubstitute(c, ld, d, x, cp, bp);
    assert x0[|b|..] == x0[|b| - 1 := last][|b|..];
  }

  /** The body both templates run: m = |b| must reach 2 and the `int` loop counters must hold
      m - 2; x[0 .. m) receives the solution and the rest of x is kept. */
  method Solve(a: seq<real>, ld: nat, b: seq<real>, x0: seq<real>) returns (x: seq<real>)
    requires System(a, ld, b).Wf() && |b| - 2 < I32_LIMIT
    requires PivotsNonZero(BandOf(System(a, ld, b)))
    requires |x0| >= |b|
    ensures |x| == |x0|
    ensures x[..|b|] == Solution(System(a, ld, b))
    ensures x[|b|..] == x0[|b|..]
  {
    ghost var t := BandOf(System(a, ld, b));
    SweepEliminates(t);
    BandOfHeld(System(a, ld, b));
    x := SolveHeld(a, ld, b, x0, t, Pivots(t), CPrimes(t), BPrimes(t));
  }
}
