/** `run()` of src/ludwig/temp.cpp, lines 91-128 for the march: station after station, each
    computed from the one before by `Temp.Step`, on the whole u and v fields. */
module TempRun {
  import opened BoundaryLayer
  import opened Station
  import opened Temp
  import opened Marching

  /** Stations 0 .. imax-1 in turn: station i + 1 from station i. The boundary columns
      j = 0 and j = jmax - 1 of both fields and the whole of station 0 are never written. On
      `Undefined(i)` stations 0 .. i have been marched, station i cannot be solved, and the
      stations after it are untouched. */
  method March(c: Config, ue: seq<real>, u0: Field, v0: Field) returns (u: Field, v: Field, outcome: Outcome)
    requires Marchable(c) && |ue| == c.imax && Shaped(u0, c.imax, c.jmax) && Shaped(v0, c.imax, c.jmax)
    ensures Shaped(u, c.imax, c.jmax) && Shaped(v, c.imax, c.jmax)
    ensures u[0] == u0[0] && v[0] == v0[0]
    ensures EndsKept(u, u0) && EndsKept(v, v0)
    ensures outcome.Undefined? ==> outcome.station + 1 < c.imax && Stuck(c, ue, u, v, outcome.station)
    ensures var reached := if outcome.Completed? then c.imax - 1 else outcome.station;
      && MarchedTo(c, ue, u, v, reached)
      && (forall i :: reached < i < c.imax ==> u[i] == u0[i] && v[i] == v0[i])
  {
    u, v := u0, v0;
    var i := 0;
    while i < c.imax - 1
      invariant 0 <= i <= c.imax - 1
      invariant Shaped(u, c.imax, c.jmax) && Shaped(v, c.imax, c.jmax)
      invariant u[0] == u0[0] && v[0] == v0[0]
      invariant EndsKept(u, u0) && EndsKept(v, v0)
      invariant MarchedTo(c, ue, u, v, i)
      invariant forall k :: i < k < c.imax ==> u[k] == u0[k] && v[k] == v0[k]
    {
      var ok;
      ok, u, v := Advance(c, ue, u, v, i, u0, v0);
      if !ok {
        outcome := Undefined(i);
        return;
      }
      i := i + 1;
    }
    outcome := Completed;
  }

  /** One pass of the march loop on the whole fields: station i + 1 is marched from station i
      and nothing else changes, or, when station i cannot be solved, nothing changes at all. */
  method Advance(c: Config, ue: seq<real>, u: Field, v: Field, i: nat, ghost u0: Field, ghost v0: Field)
    returns (ok: bool, u2: Field, v2: Field)
    requires Marchable(c) && |ue| == c.imax && i + 1 < c.imax
    requires Shaped(u, c.imax, c.jmax) && Shaped(v, c.imax, c.jmax)
    requires EndsKept(u, u0) && EndsKept(v, v0) && MarchedTo(c, ue, u, v, i)
    ensures ok <==> !Stuck(c, ue, u, v, i)
    ensures !ok ==> u2 == u && v2 == v
    ensures |u2| == |v2| == c.imax && |u2[i + 1]| == |v2[i + 1]| == c.jmax
    ensures u2 == u[i + 1 := u2[i + 1]] && v2 == v[i + 1 := v2[i + 1]]
    ensures EndsKept(u2, u0) && EndsKept(v2, v0)
    ensures ok ==> MarchedTo(c, ue, u2, v2, i + 1)
  {
    var un, vn;
    ok, un, vn := Step(c, ue, i, u[i], v[i], u[i + 1], v[i + 1]);
    if !ok {
      return ok, u, v;
    }
    Written(c, ue, u, v, i, un, vn);
    EndsFrame(u, u0, i + 1, un);
    EndsFrame(v, v0, i + 1, vn);
    u2, v2 := u[i + 1 := un], v[i + 1 := vn];
  }

  /** Writing a station marched from station i into the fields extends the march to i + 1. */
  lemma Written(c: Config, ue: seq<real>, u: Field, v: Field, i: nat, un: seq<real>, vn: seq<real>)
    requires MarchedTo(c, ue, u, v, i) && i + 1 < |u| == |v|
    requires Marched(c, ue, i, u[i], v[i], un, vn)
    ensures MarchedTo(c, ue, u[i + 1 := un], v[i + 1 := vn], i + 1)
  {
    MarchedFrame(c, ue, u, v, i, un, vn);
    PlaceStation(c, ue, u, v, i, un, vn);
    MarchedExtend(c, ue, u[i + 1 := un], v[i + 1 := vn], i);
  }

  /** `run()` of temp.cpp without its printing: the set-up, with the v column of station 0
      filled to the edge, gives the initial fields u0 and v0, from which the march computes u
      and v. The edge velocity stays in column jmax - 1 and zero in column 0 of every station,
      and station 0 keeps its initial profile. */
  method Run(c: Config, sqrt: real -> real)
    returns (g: Grid, e: Edge, u0: Field, v0: Field, u: Field, v: Field, outcome: Outcome)
    requires Marchable(c) && Defined(c, sqrt, c.jmax - 1)
    ensures g == GridOf(c) && EdgeFlow(c, g, sqrt, e)
    ensures InitialU(c, g, e, sqrt, u0) && InitialV(c, g, e, u0, c.jmax - 1, v0)
    ensures Shaped(u, c.imax, c.jmax) && Shaped(v, c.imax, c.jmax) && u[0] == u0[0] && v[0] == v0[0]
    ensures forall i :: 0 <= i < c.imax ==> u[i][c.jmax - 1] == e.ue[i] && u[i][0] == 0.0
    ensures outcome.Undefined? ==> outcome.station + 1 < c.imax
    ensures var reached := if outcome.Completed? then c.imax - 1 else outcome.station;
      MarchedTo(c, e.ue, u, v, reached)
  {
    g, e, u0, v0 := SetUp(c, sqrt, c.jmax - 1);
    u, v, outcome := March(c, e.ue, u0, v0);
    BoundaryKept(c, g, e, sqrt, u0, u);
  }

  /** temp.cpp's own constants meet `Run`'s precondition once `pow(r, 0.5)` is a square root:
      the 10 x 100 grid can be marched and no division of the set-up is undefined. */
  lemma TempConfigRuns(sqrt: real -> real)
    requires IsSqrt(sqrt)
    ensures Marchable(TempConfig()) && Defined(TempConfig(), sqrt, TempConfig().jmax - 1)
  {
    PhysicalDefined(TempConfig(), sqrt, TempConfig().jmax - 1);
  }

  /** The march of temp.cpp's own constants never stops at station 0: the initial profile is
      positive inside the layer, so every alpha of the first station system is positive and
      no pivot of its sweep is zero, whatever station 1 holds. */
  lemma FirstStationSolvable(sqrt: real -> real, g: Grid, e: Edge, u0: Field, vi: seq<real>, un: seq<real>)
    requires IsSqrt(sqrt) && g == GridOf(TempConfig()) && EdgeFlow(TempConfig(), g, sqrt, e)
    requires InitialU(TempConfig(), g, e, sqrt, u0) && |vi| == |un| == TempConfig().jmax
    ensures Solvable(TempConfig(), e.ue, 0, u0[0], vi, un)
  {
    var c := TempConfig();
    TempConfigRuns(sqrt);
    FirstProfilePositive(c, g, e, sqrt, u0);
    PositiveAlphas(c, u0[0]);
    DominantPivots(c, e.ue, 0, u0[0], vi, un);
  }
}
