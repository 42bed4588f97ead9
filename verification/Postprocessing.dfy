/** The postprocessing of the lumped scheme, and conservation of water in every run of the flow equation. */
module Postprocessing {
  import opened Times
  import opened TimeMarks
  import opened TimeGovernor
  import opened GovernorRuns
  import opened Matrices
  import opened Assembly
  import opened Conservation
  import T = TimeTerm

  /** `y` is `x` with `f(k, i)` added to the flux of side `i` of element `k`, for the sides `done`. */
  ghost predicate FluxesAdded(m: Mesh, x: Vector, y: Vector, f: (nat, nat) -> real, done: iset<(nat, nat)>) {
    && |y| == |x| == m.size && m.Valid()
    && (forall k, i | m.IsSide(k, i) :: FluxAt(m, y, k, i) == FluxAt(m, x, k, i) + (if (k, i) in done then f(k, i) else 0.0))
    && (forall r | 0 <= r < m.size && !SideRow(m, r) :: y[r] == x[r])
  }

  ghost function FluxAt(m: Mesh, x: Vector, k: nat, i: nat): real
    requires m.IsSide(k, i)
  {
    At(x, m.SideAt(k, i).row)
  }

  function TimeFluxAt(m: Mesh, dt: real, was: Vector, x: Vector): (nat, nat) -> real {
    (k: nat, i: nat) => if m.IsSide(k, i) then StoredFlux(m, m.elements[k], m.SideAt(k, i).edge, dt, was, x) else 0.0
  }

  function ShareAt(m: Mesh): (nat, nat) -> real {
    (k: nat, i: nat) => if k < |m.elements| then -SourceShare(m.elements[k]) else 0.0
  }

  /** Adding to one more side. */
  lemma OneMoreSide(m: Mesh, x: Vector, y: Vector, f: (nat, nat) -> real, done: iset<(nat, nat)>, k: nat, i: nat, z: Vector)
    requires m.Linked() && FluxesAdded(m, x, y, f, done) && m.IsSide(k, i) && (k, i) !in done
    requires m.SideAt(k, i).row < m.size && z == y[m.SideAt(k, i).row := y[m.SideAt(k, i).row] + f(k, i)]
    ensures FluxesAdded(m, x, z, f, done + iset{(k, i)})
  {
    var row := m.SideAt(k, i).row;
    forall l, q | m.IsSide(l, q)
      ensures FluxAt(m, z, l, q) == FluxAt(m, x, l, q) + (if (l, q) in done + iset{(k, i)} then f(l, q) else 0.0)
    {
      assert m.SideAt(l, q).row == row ==> l == k && q == i;
    }
    assert SideRow(m, row);
  }

  lemma RowsOfSides(m: Mesh, k: nat, i: nat)
    requires m.Valid() && m.IsSide(k, i)
    ensures var s := m.SideAt(k, i); s.row < m.size && s.edge < |m.edges| && m.edges[s.edge].row < m.size
  {
    var e, s := m.elements[k], m.SideAt(k, i);
    assert e in m.elements && m.Fits(e) && s in e.sides && m.edges[s.edge] in m.edges;
  }

  lemma EdgeRowIsNoSideRow(m: Mesh, j: nat)
    requires m.Valid() && j < |m.edges|
    ensures m.edges[j].row < m.size && !SideRow(m, m.edges[j].row)
  {
    assert m.edges[j] in m.edges;
    forall k, i | m.IsSide(k, i)
      ensures m.SideAt(k, i).row != m.edges[j].row
    {
      assert m.elements[k] in m.elements && m.SideAt(k, i) in m.elements[k].sides;
    }
  }

  /** The sides of the first `j` edges. */
  ghost function SidesBefore(m: Mesh, j: nat): iset<(nat, nat)> {
    iset k: nat, i: nat | m.IsSide(k, i) && m.SideAt(k, i).edge < j :: (k, i)
  }

  ghost function Listed(sides: seq<(nat, nat)>, q: nat): iset<(nat, nat)>
    requires q <= |sides|
  {
    iset p: (nat, nat) | p in sides[..q] :: p
  }

  /** The sides of the first `k` elements and the first `i` of the next one. */
  ghost function SidesUpTo(m: Mesh, k: nat, i: nat): iset<(nat, nat)> {
    iset l: nat, q: nat | m.IsSide(l, q) && (l < k || (l == k && q < i)) :: (l, q)
  }

  /** The sides of the first `j` edges and the first `q` of the next one. */
  ghost function SidesReached(m: Mesh, j: nat, q: nat): iset<(nat, nat)>
    requires j < |m.edges| && q <= |m.edges[j].sides|
  {
    SidesBefore(m, j) + Listed(m.edges[j].sides, q)
  }

  lemma ListedIsEdge(m: Mesh, j: nat)
    requires m.Valid() && m.Linked() && j < |m.edges|
    ensures SidesReached(m, j, 0) == SidesBefore(m, j)
    ensures SidesReached(m, j, |m.edges[j].sides|) == SidesBefore(m, j + 1)
  {
    var sides := m.edges[j].sides;
    assert Listed(sides, 0) == iset{};
    assert sides[..|sides|] == sides;
    forall p: (nat, nat)
      ensures p in SidesBefore(m, j + 1) <==> p in SidesReached(m, j, |sides|)
    {
      if p in Listed(sides, |sides|) {
        assert p in m.edges[j].sides && p == (p.0, p.1);
      }
      if p in SidesBefore(m, j + 1) {
        RowsOfSides(m, p.0, p.1);
        assert (p.0, p.1) in m.edges[m.SideAt(p.0, p.1).edge].sides;
      }
    }
  }

  lemma NextListed(m: Mesh, j: nat, q: nat)
    requires m.Linked() && j < |m.edges| && q < |m.edges[j].sides|
    ensures m.edges[j].sides[q] !in SidesReached(m, j, q)
    ensures SidesReached(m, j, q + 1) == SidesReached(m, j, q) + iset{m.edges[j].sides[q]}
  {
    var sides := m.edges[j].sides;
    assert m.edges[j] in m.edges && sides[q] in sides;
    assert forall p | 0 <= p < q :: sides[p] != sides[q];
    assert Listed(sides, q + 1) == Listed(sides, q) + iset{sides[q]} by {
      forall p: (nat, nat)
        ensures p in Listed(sides, q + 1) <==> p in Listed(sides, q) + iset{sides[q]}
      {
        assert sides[..q + 1] == sides[..q] + [sides[q]];
        assert p in sides[..q + 1] <==> p in sides[..q] || p == sides[q];
      }
    }
    forall p: (nat, nat)
      ensures p in SidesReached(m, j, q + 1) <==> p in SidesReached(m, j, q) + iset{sides[q]}
    {
    }
  }

  lemma ListedSide(m: Mesh, j: nat, q: nat)
    requires m.Valid() && m.Linked() && j < |m.edges| && q < |m.edges[j].sides|
    ensures var (k, i) := m.edges[j].sides[q];
            && m.IsSide(k, i) && m.SideAt(k, i).edge == j && m.SideAt(k, i).row < m.size
            && m.elements[k] in m.elements && |m.elements[k].sides| > 0
  {
    var (k, i) := m.edges[j].sides[q];
    assert m.edges[j].sides[q] in m.edges[j].sides;
    RowsOfSides(m, k, i);
  }

  /** The value the loop adds to a side. */
  lemma TimeFluxValue(m: Mesh, dt: real, was: Vector, x: Vector, k: nat, i: nat, j: nat, new_: real, old_: real)
    requires m.IsSide(k, i) && m.SideAt(k, i).edge == j && new_ == Trace(m, j, x) && old_ == Trace(m, j, was)
    ensures TimeCoefficient(m.elements[k], dt) * (new_ - old_) == TimeFluxAt(m, dt, was, x)(k, i)
  {
    assert TimeFluxAt(m, dt, was, x)(k, i) == StoredFlux(m, m.elements[k], j, dt, was, x);
  }

  lemma BothAdded(m: Mesh, dt: real, was: Vector, x: Vector, mid: Vector, y: Vector)
    requires FluxesAdded(m, x, mid, TimeFluxAt(m, dt, was, x), SidesBefore(m, |m.edges|))
    requires FluxesAdded(m, mid, y, ShareAt(m), SidesUpTo(m, |m.elements|, 0))
    ensures Postprocessed(m, dt, was, x, y)
  {
    forall e, s | e in m.elements && s in e.sides
      ensures Flux(y)(e, s) == Corrected(m, dt, was, x)(e, s)
    {
      var k :| 0 <= k < |m.elements| && m.elements[k] == e;
      var i :| 0 <= i < |e.sides| && e.sides[i] == s;
      RowsOfSides(m, k, i);
      assert m.IsSide(k, i) && FluxAt(m, y, k, i) == At(y, s.row);
    }
  }

  lemma ShareValue(e: Element)
    requires |e.sides| > 0
    ensures -1.0 * e.measure * e.crossSection * e.source / |e.sides| as real == -SourceShare(e)
  {
    var a, n := e.measure * e.crossSection * e.source, |e.sides| as real;
    assert -1.0 * e.measure * e.crossSection * e.source == -a;
    assert (-a) / n == -(a / n);
  }

  class LumpedFlow {
    var solution: Vector
    var previous: Vector

    method AddToFlux(m: Mesh, k: nat, i: nat, v: real, ghost x: Vector, ghost f: (nat, nat) -> real, ghost done: iset<(nat, nat)>)
      requires m.Linked() && FluxesAdded(m, x, solution, f, done)
      requires m.IsSide(k, i) && (k, i) !in done && v == f(k, i) && m.SideAt(k, i).row < m.size
      modifies this`solution
      ensures FluxesAdded(m, x, solution, f, done + iset{(k, i)})
    {
      var row := m.SideAt(k, i).row;
      ghost var was := solution;
      solution := solution[row := solution[row] + v];
      OneMoreSide(m, x, was, f, done, k, i, solution);
    }

    /** The sides of one edge. */
    method AddTimeFluxes(m: Mesh, dt: real, j: nat, ghost x: Vector)
      requires m.Valid() && m.Linked() && |previous| == m.size && dt > 0.0 && j < |m.edges|
      requires FluxesAdded(m, x, solution, TimeFluxAt(m, dt, previous, x), SidesBefore(m, j))
      modifies this`solution
      ensures FluxesAdded(m, x, solution, TimeFluxAt(m, dt, previous, x), SidesBefore(m, j + 1))
    {
      EdgeRowIsNoSideRow(m, j);
      ListedIsEdge(m, j);
      var edge := m.edges[j];
      var newPressure, oldPressure := solution[edge.row], previous[edge.row];
      ghost var f := TimeFluxAt(m, dt, previous, x);
      for q := 0 to |edge.sides|
        invariant newPressure == Trace(m, j, x) && oldPressure == Trace(m, j, previous)
        invariant FluxesAdded(m, x, solution, f, SidesReached(m, j, q))
      {
        ListedSide(m, j, q);
        NextListed(m, j, q);
        var (k, i) := edge.sides[q];
        var timeFlux := TimeCoefficient(m.elements[k], dt) * (newPressure - oldPressure);
        TimeFluxValue(m, dt, previous, x, k, i, j, newPressure, oldPressure);
        AddToFlux(m, k, i, timeFlux, x, f, SidesReached(m, j, q));
      }
    }

    /** The sides of one element. */
    method SubtractShares(m: Mesh, k: nat, ghost x: Vector)
      requires m.Valid() && m.Linked() && k < |m.elements| && FluxesAdded(m, x, solution, ShareAt(m), SidesUpTo(m, k, 0))
      modifies this`solution
      ensures FluxesAdded(m, x, solution, ShareAt(m), SidesUpTo(m, k + 1, 0))
    {
      var e := m.elements[k];
      assert e in m.elements && m.Fits(e);
      for i := 0 to |e.sides|
        invariant FluxesAdded(m, x, solution, ShareAt(m), SidesUpTo(m, k, i))
      {
        RowsOfSides(m, k, i);
        ShareValue(e);
        AddToFlux(m, k, i, -1.0 * e.measure * e.crossSection * e.source / |e.sides| as real, x, ShareAt(m), SidesUpTo(m, k, i));
        assert SidesUpTo(m, k, i) + iset{(k, i)} == SidesUpTo(m, k, i + 1);
      }
      assert SidesUpTo(m, k, |e.sides|) == SidesUpTo(m, k + 1, 0);
    }

    /** Both loops: the stored water is added to the fluxes and the shares of the sources are taken from them. */
    method Postprocess(m: Mesh, dt: real)
      requires m.Valid() && m.Linked() && |solution| == |previous| == m.size && dt > 0.0
      modifies this`solution
      ensures Postprocessed(m, dt, previous, old(solution), solution)
    {
      ghost var x := solution;
      for j := 0 to |m.edges|
        invariant FluxesAdded(m, x, solution, TimeFluxAt(m, dt, previous, x), SidesBefore(m, j))
      {
        AddTimeFluxes(m, dt, j, x);
      }
      ghost var mid := solution;
      for k := 0 to |m.elements|
        invariant FluxesAdded(m, mid, solution, ShareAt(m), SidesUpTo(m, k, 0))
      {
        SubtractShares(m, k, mid);
      }
      BothAdded(m, dt, previous, x, mid, solution);
    }
  }

  // ---------------------------------------------------------------- whole runs

  /**
   * A run of the flow equation whose steps end with the postprocessing. The system is assembled once, with the data of `m`;
   * the postprocessing of operation `i` reads the data of its own time, those of `ds[i]`.
   */
  ghost predicate IsLumpedRun(m: Mesh, ds: seq<Mesh>, l: Linear, gs: seq<Gov>, ops: seq<Op>, ms: seq<TimeMark>,
                              ss: seq<T.System>, xs: seq<Vector>, bound: real) {
    && m.Valid() && Assembled(m, l) && T.IsFlowRun(gs, ops, ms, ss, xs, Storage(m), bound) && Inv(gs[0], ms, bound)
    && gs[0].timeStep.Fin? && T.Holds(ss[0], l.matrix, l.rhs, Storage(m), gs[0].timeStep.t)
    && |ds| == |ops| && (forall i | 0 <= i < |ops| :: SameShape(m, ds[i]))
    && forall i | 0 <= i < |ops| :: StepEnds(ds[i], gs[i], ops[i], gs[i + 1], xs[i], ss[i + 1])
  }

  /** The postprocessing takes the old pressures from the state it finds. */
  ghost predicate StepEnds(d: Mesh, g: Gov, op: Op, h: Gov, x: Vector, t: T.System) {
    Effective(g, op) ==> h.timeStep.Fin? && Postprocessed(d, h.timeStep.t, t.previous, x, t.solution)
  }

  /** The postprocessing changes no row that has storage, so the step after it starts from the solved pressures. */
  lemma PostprocessingKeepsPressures(m: Mesh, d: Mesh, dt: real, was: Vector, x: Vector, y: Vector, r: nat)
    requires m.Valid() && SameShape(m, d) && |x| == m.size && Postprocessed(d, dt, was, x, y)
    requires r < m.size && Storage(m)[r] != 0.0
    ensures y[r] == x[r]
  {
    if forall edge <- m.edges :: edge.row != r {
      StorageElsewhere(m, r);
    } else {
      var j :| 0 <= j < |m.edges| && m.edges[j].row == r;
      EdgeRowIsNoSideRow(m, j);
      forall k, i | d.IsSide(k, i)
        ensures d.SideAt(k, i).row != r
      {
        assert SameElement(m.elements[k], d.elements[k]) && m.IsSide(k, i);
      }
    }
  }

  /** A solved step of a run, as the balance of one step sees it. */
  lemma SolvedStepOfRun(m: Mesh, ds: seq<Mesh>, l: Linear, gs: seq<Gov>, ops: seq<Op>, ms: seq<TimeMark>,
                        ss: seq<T.System>, xs: seq<Vector>, bound: real, i: nat)
    requires IsLumpedRun(m, ds, l, gs, ops, ms, ss, xs, bound) && i < |ops| && Effective(gs[i], ops[i])
    ensures gs[i + 1].timeStep.Fin? && Step(m, l, gs[i + 1].timeStep.t, ss[i].solution, xs[i]) && SameShape(m, ds[i])
    ensures Postprocessed(ds[i], gs[i + 1].timeStep.t, ss[i].solution, xs[i], ss[i + 1].solution)
  {
    T.RunIsBackwardEuler(gs, ops, ms, ss, xs, l.matrix, l.rhs, Storage(m), bound, i);
    T.RunRemembersPrevious(gs, ops, ms, ss, xs, Storage(m), bound, i);
    assert StepEnds(ds[i], gs[i], ops[i], gs[i + 1], xs[i], ss[i + 1]);
  }

  /**
   * The balance of every solved step of every run, with data that may change from step to step: over the step the governor took,
   * what leaves through the boundary is what the sources, the storage and the connections give, and the change of the water
   * stored at the boundary, less the shares of the present sources there.
   */
  lemma RunBalance(m: Mesh, ds: seq<Mesh>, l: Linear, gs: seq<Gov>, ops: seq<Op>, ms: seq<TimeMark>,
                   ss: seq<T.System>, xs: seq<Vector>, bound: real, i: nat)
    requires IsLumpedRun(m, ds, l, gs, ops, ms, ss, xs, bound) && i < |ops| && Effective(gs[i], ops[i])
    ensures gs[i + 1].timeStep.Fin? && gs[i + 1].timeStep.t > 0.0
    ensures var dt, was, x := gs[i + 1].timeStep.t, ss[i].solution, xs[i];
            BoundaryFlux(m, ss[i + 1].solution)
            == Supply(m, dt, was, x) + StorageDrift(m, ds[i], dt, was, x) - SidesTotal(ds[i], OnSides(Outer(ds[i]), Share()))
  {
    SolvedStepOfRun(m, ds, l, gs, ops, ms, ss, xs, bound, i);
    DataBalance(m, ds[i], l, gs[i + 1].timeStep.t, ss[i].solution, xs[i], ss[i + 1].solution);
  }

  /** A solved step of a run conserves water exactly when the change of storage at the boundary makes up for the source shares. */
  lemma RunConservesWaterIff(m: Mesh, ds: seq<Mesh>, l: Linear, gs: seq<Gov>, ops: seq<Op>, ms: seq<TimeMark>,
                             ss: seq<T.System>, xs: seq<Vector>, bound: real, i: nat)
    requires IsLumpedRun(m, ds, l, gs, ops, ms, ss, xs, bound) && i < |ops| && Effective(gs[i], ops[i])
    ensures gs[i + 1].timeStep.Fin? && gs[i + 1].timeStep.t > 0.0
    ensures var dt, was, x := gs[i + 1].timeStep.t, ss[i].solution, xs[i];
            && (BoundaryFlux(m, ss[i + 1].solution) == Supply(m, dt, was, x)
                <==> StorageDrift(m, ds[i], dt, was, x) == SidesTotal(ds[i], OnSides(Outer(ds[i]), Share())))
            && (OuterKnown(m, ds[i], dt, was) ==>
                  (BoundaryFlux(m, ss[i + 1].solution) == Supply(m, dt, was, x)
                   <==> SidesTotal(ds[i], OnSides(Outer(ds[i]), Share())) == 0.0))
  {
    SolvedStepOfRun(m, ds, l, gs, ops, ms, ss, xs, bound, i);
    var dt, was, x, y := gs[i + 1].timeStep.t, ss[i].solution, xs[i], ss[i + 1].solution;
    DataConservedIff(m, ds[i], l, dt, was, x, y);
    if OuterKnown(m, ds[i], dt, was) {
      KnownBoundaryConservesIff(m, ds[i], l, dt, was, x, y);
    }
  }
}
