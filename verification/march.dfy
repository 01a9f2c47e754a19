/** Lemmas about the u and v fields of the march in src/ludwig/temp.cpp: which stations have
    been marched, and which boundary columns are kept, when one station is written. */
module Marching {
  import opened BoundaryLayer
  import opened Station

  /** Stations 1 .. n stay marched when station n + 1 is replaced. */
  lemma MarchedFrame(c: Config, ue: seq<real>, u: Field, v: Field, n: nat, un: seq<real>, vn: seq<real>)
    requires MarchedTo(c, ue, u, v, n) && n + 1 < |u| == |v|
    ensures MarchedTo(c, ue, u[n + 1 := un], v[n + 1 := vn], n)
  {
    var u2, v2 := u[n + 1 := un], v[n + 1 := vn];
    forall k | 0 <= k < n
      ensures MarchedAt(c, ue, u2, v2, k)
    {
      assert MarchedAt(c, ue, u, v, k);
      assert u2[k] == u[k] && v2[k] == v[k] && u2[k + 1] == u[k + 1] && v2[k + 1] == v[k + 1];
    }
  }

  /** Marching station n + 1 extends the march to it. */
  lemma MarchedExtend(c: Config, ue: seq<real>, u: Field, v: Field, n: nat)
    requires MarchedTo(c, ue, u, v, n) && MarchedAt(c, ue, u, v, n)
    ensures MarchedTo(c, ue, u, v, n + 1)
  {
  }

  /** A station marched from station n, written into the fields as station n + 1. */
  lemma PlaceStation(c: Config, ue: seq<real>, u: Field, v: Field, n: nat, un: seq<real>, vn: seq<real>)
    requires n + 1 < |u| == |v| && Marched(c, ue, n, u[n], v[n], un, vn)
    ensures MarchedAt(c, ue, u[n + 1 := un], v[n + 1 := vn], n)
  {
    var u2, v2 := u[n + 1 := un], v[n + 1 := vn];
    assert u2[n] == u[n] && v2[n] == v[n] && u2[n + 1] == un && v2[n + 1] == vn;
  }

  /** Replacing station n by a row with the same boundary columns keeps them. */
  lemma EndsFrame(f: Field, f0: Field, n: nat, r: seq<real>)
    requires EndsKept(f, f0) && n < |f| && SameEnds(r, f[n])
    ensures EndsKept(f[n := r], f0)
  {
  }

  /** A field that keeps the boundary columns of the initial u has zero at the wall and the
      edge velocity at the edge of every station. */
  lemma BoundaryKept(c: Config, g: Grid, e: Edge, sqrt: real -> real, u0: Field, u: Field)
    requires c.Wf() && g == GridOf(c) && EdgeFlow(c, g, sqrt, e) && InitialU(c, g, e, sqrt, u0)
    requires EndsKept(u, u0) && Shaped(u, c.imax, c.jmax)
    ensures forall i :: 0 <= i < c.imax ==> u[i][c.jmax - 1] == e.ue[i] && u[i][0] == 0.0
  {
    forall i | 0 <= i < c.imax
      ensures u[i][c.jmax - 1] == e.ue[i] && u[i][0] == 0.0
    {
      assert SameEnds(u[i], u0[i]);
    }
  }
}
