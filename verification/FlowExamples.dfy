/** A rod of two line elements, held at pressure zero at both ends: steps of the flow equation that fail to do what one expects. */
module FlowExamples {
  import opened Matrices
  import opened Assembly
  import opened Conservation
  import T = TimeTerm

  const HELD: Boundary := Dirichlet(0.0)

  /** An element of the rod, with sides in the rows `r` and `r + 1` and initial pressure 4. */
  function RodPart(row: nat, r: nat, j: nat, left: Boundary, right: Boundary, source: real, storativity: real): Element {
    Element(row, [Side(r, j, left, 0.0), Side(r + 1, j + 1, right, 0.0)], [], [[2.0, -1.0], [-1.0, 2.0]],
            1.0, 1.0, storativity, source, 4.0)
  }

  /** Sides in the rows 0 to 3, elements in the rows 4 and 5, edges in the rows 6 to 8; the source is in the first element. */
  function Rod(source: real, storativity: real): Mesh {
    Mesh(9, [RodPart(4, 0, 0, HELD, Inner, source, storativity), RodPart(5, 2, 1, Inner, HELD, 0.0, storativity)],
         [Edge(6, true, [(0, 0)]), Edge(7, false, [(0, 1), (1, 0)]), Edge(8, true, [(1, 1)])])
  }

  lemma RodIsValid(source: real, storativity: real)
    ensures Rod(source, storativity).Valid()
  {
    RodFits(source, storativity);
    RodRowsApart(source, storativity);
  }

  lemma RodFits(source: real, storativity: real)
    ensures Rod(source, storativity).ElementsFit() && Rod(source, storativity).EdgesFit()
  {
    var m := Rod(source, storativity);
    forall e | e in m.elements
      ensures m.Fits(e)
    {
      assert e == m.elements[0] || e == m.elements[1];
      assert forall s | s in e.sides :: s == e.sides[0] || s == e.sides[1];
      assert Square(e.localMatrix, 2);
    }
  }

  lemma RodRowsApart(source: real, storativity: real)
    ensures Rod(source, storativity).RowsApart()
  {
    var m := Rod(source, storativity);
    forall e | e in m.elements
      ensures 4 <= e.row < 6 && forall s <- e.sides :: s.row < 4
    {
      assert e == m.elements[0] || e == m.elements[1];
    }
    forall edge | edge in m.edges
      ensures 6 <= edge.row
    {
      assert edge == m.edges[0] || edge == m.edges[1] || edge == m.edges[2];
    }
  }

  /** The nine equations of a step of length one. */
  predicate Balanced(source: real, storativity: real, was: Vector, x: Vector) {
    && |was| == |x| == 9
    && 2.0 * x[0] - x[1] - x[4] == 0.0 && 2.0 * x[1] - x[0] - x[4] + x[7] == 0.0
    && 2.0 * x[2] - x[3] - x[5] + x[7] == 0.0 && 2.0 * x[3] - x[2] - x[5] == 0.0
    && source - x[0] - x[1] == 0.0 && x[2] + x[3] == 0.0
    && x[6] + storativity / 2.0 * (x[6] - was[6]) == 0.0
    && x[1] + x[2] - storativity * (x[7] - was[7]) == 0.0
    && x[8] + storativity / 2.0 * (x[8] - was[8]) == 0.0
  }

  /** What row `r` says. */
  function Row(source: real, x: Vector, r: nat): real
    requires |x| == 9 && r < 9
  {
    match r
    case 0 => 2.0 * x[0] - x[1] - x[4]
    case 1 => 2.0 * x[1] - x[0] - x[4] + x[7]
    case 2 => 2.0 * x[2] - x[3] - x[5] + x[7]
    case 3 => 2.0 * x[3] - x[2] - x[5]
    case 4 => source - x[0] - x[1]
    case 5 => -x[2] - x[3]
    case 6 => -x[6]
    case 7 => x[1] + x[2]
    case _ => -x[8]
  }

  /** What the local matrix says of row `r` in an element with two sides. */
  function TwoSides(e: Element, r: nat, x: Vector): real
    requires Square(e.localMatrix, 2) && |e.sides| == 2
  {
    (if e.sides[0].row == r then e.localMatrix[0][0] * At(x, e.sides[0].row) + e.localMatrix[0][1] * At(x, e.sides[1].row) else 0.0)
    + (if e.sides[1].row == r then e.localMatrix[1][0] * At(x, e.sides[0].row) + e.localMatrix[1][1] * At(x, e.sides[1].row) else 0.0)
  }

  lemma LocalRow(e: Element, i: nat, x: Vector)
    requires Square(e.localMatrix, 2) && |e.sides| == 2 && i < 2
    ensures LocalDot(e, i, 2, x) == e.localMatrix[i][0] * At(x, e.sides[0].row) + e.localMatrix[i][1] * At(x, e.sides[1].row)
  {
    assert LocalDot(e, i, 1, x) == LocalDot(e, i, 0, x) + e.localMatrix[i][0] * At(x, e.sides[0].row);
  }

  lemma LocalRows(e: Element, r: nat, x: Vector)
    requires Square(e.localMatrix, 2) && |e.sides| == 2
    ensures LocalPart(e, 2, r, x) == TwoSides(e, r, x)
  {
    hide LocalDot;
    LocalRow(e, 0, x);
    LocalRow(e, 1, x);
    assert LocalPart(e, 1, r, x) == LocalPart(e, 0, r, x) + if e.sides[0].row == r then LocalDot(e, 0, 2, x) else 0.0;
  }

  lemma PartRow(m: Mesh, e: Element, r: nat, x: Vector)
    requires Square(e.localMatrix, 2) && |e.sides| == 2 && e.neighbours == []
    ensures ElementPart(m, e, r, x)
         == SidePart(m, e, e.sides[0], r, x) + SidePart(m, e, e.sides[1], r, x) + TwoSides(e, r, x)
            + (if e.row == r then SourceOf(e) else 0.0)
  {
    hide SidePart, SourceOf, TwoSides, LocalPart;
    assert SidesPart(m, e, 1, r, x) == SidesPart(m, e, 0, r, x) + SidePart(m, e, e.sides[0], r, x);
    LocalRows(e, r, x);
  }

  lemma RodRow(source: real, storativity: real, x: Vector, r: nat)
    requires |x| == 9 && r < 9
    ensures var m := Rod(source, storativity); m.Valid() && Balance(m, 2, r, x) == Row(source, x, r)
  {
    RodIsValid(source, storativity);
    var m := Rod(source, storativity);
    var e, f := m.elements[0], m.elements[1];
    PartRow(m, e, r, x);
    PartRow(m, f, r, x);
    assert Balance(m, 1, r, x) == ElementPart(m, e, r, x);
    assert Balance(m, 2, r, x) == Balance(m, 1, r, x) + ElementPart(m, f, r, x);
  }

  function If(b: bool, x: real): real {
    if b then x else 0.0
  }

  /** What row `r` stores. */
  function RowStorage(storativity: real, r: nat): real {
    if r == 7 then -storativity else if r == 6 || r == 8 then -storativity / 2.0 else 0.0
  }

  lemma RodParts(source: real, storativity: real)
    ensures var es := TimeParts(Rod(source, storativity));
            && T.HaveSides(es) && |es| == 2 && es[0].edgeRows == [6, 7] && es[1].edgeRows == [7, 8]
            && T.SideStorages(es) == [-storativity / 2.0, -storativity / 2.0] && T.SideInitials(es) == [2.0, 2.0]
  {
    var m := Rod(source, storativity);
    RodIsValid(source, storativity);
    TimePartsHaveSides(m);
    assert -1.0 * 1.0 * storativity / 2 as real == -storativity / 2.0;
  }

  lemma TwoEdges(e: T.Element, j: nat, r: nat, v: real)
    requires e.edgeRows == [j, j + 1]
    ensures T.SidesSum(e, 2, r, v) == If(j == r, v) + If(j + 1 == r, v)
  {
    assert T.SidesSum(e, 1, r, v) == T.SidesSum(e, 0, r, v) + If(j == r, v);
  }

  lemma RodStorage(source: real, storativity: real, r: nat)
    requires r < 9
    ensures var m := Rod(source, storativity); m.Valid() && Storage(m)[r] == RowStorage(storativity, r)
  {
    hide Rod, T.SidesSum, T.SideStorages;
    RodIsValid(source, storativity);
    RodParts(source, storativity);
    var es := TimeParts(Rod(source, storativity));
    var vs := T.SideStorages(es);
    TwoEdges(es[0], 6, r, vs[0]);
    TwoEdges(es[1], 7, r, vs[1]);
    assert T.MeshSum(es, vs, 1, r) == T.MeshSum(es, vs, 0, r) + T.SidesSum(es[0], 2, r, vs[0]);
    assert T.MeshSum(es, vs, 2, r) == T.MeshSum(es, vs, 1, r) + T.SidesSum(es[1], 2, r, vs[1]);
    RodSize(source, storativity);
  }

  lemma RodSize(source: real, storativity: real)
    ensures Rod(source, storativity).size == 9
  {
  }

  /** The solution vector that the setup of the time term leaves: the initial values of the edges. */
  ghost predicate StartsFrom(m: Mesh, was: Vector) {
    && |was| == m.size && T.HaveSides(TimeParts(m))
    && forall r | 0 <= r < m.size :: was[r] == T.InitialValue(TimeParts(m), r)
  }

  /** Each end gets half of the pressure of its element, the edge between the elements half of both. */
  const START: Vector := [0.0, 0.0, 0.0, 0.0, 0.0, 0.0, 2.0, 4.0, 2.0]

  lemma RodStart(source: real, storativity: real)
    ensures StartsFrom(Rod(source, storativity), START)
  {
    hide Rod, T.SidesSum, T.SideInitials;
    RodParts(source, storativity);
    RodSize(source, storativity);
    var es := TimeParts(Rod(source, storativity));
    var vs := T.SideInitials(es);
    forall r: nat | r < 9
      ensures START[r] == T.InitialValue(es, r)
    {
      TwoEdges(es[0], 6, r, vs[0]);
      TwoEdges(es[1], 7, r, vs[1]);
      assert T.MeshSum(es, vs, 1, r) == T.MeshSum(es, vs, 0, r) + T.SidesSum(es[0], 2, r, vs[0]);
      assert T.MeshSum(es, vs, 2, r) == T.MeshSum(es, vs, 1, r) + T.SidesSum(es[1], 2, r, vs[1]);
    }
  }

  /** Vectors with the nine equations are a solved step of the assembled system. */
  lemma RodStep(source: real, storativity: real, l: Linear, was: Vector, x: Vector)
    requires Assembled(Rod(source, storativity), l) && Balanced(source, storativity, was, x)
    ensures Step(Rod(source, storativity), l, 1.0, was, x)
  {
    var m := Rod(source, storativity);
    RodIsValid(source, storativity);
    forall r: nat | r < 9
      ensures T.EulerRow(T.Dot(l.matrix[r], x), l.rhs[r], Storage(m)[r], 1.0, was[r], x[r])
    {
      RodRow(source, storativity, x, r);
      RodStorage(source, storativity, r);
      assert Residual(l, r, x) == Balance(m, 2, r, x);
      RowSettles(source, storativity, was, x, r);
    }
  }

  lemma RowSettles(source: real, storativity: real, was: Vector, x: Vector, r: nat)
    requires Balanced(source, storativity, was, x) && r < 9
    ensures Row(source, x, r) + RowStorage(storativity, r) * (x[r] - was[r]) == 0.0
  {
  }

  method AssembleRod(source: real, storativity: real) returns (l: Linear)
    ensures Assembled(Rod(source, storativity), l)
  {
    RodIsValid(source, storativity);
    var system := new LinSys(9);
    system.Assemble(Rod(source, storativity));
    l := system.State();
  }

  // ---------------------------------------------------------------- totals over the rod

  lemma RodTotal(source: real, storativity: real, on: nat -> bool, f: SideFn)
    ensures var m := Rod(source, storativity); var e, d := m.elements[0], m.elements[1];
            SidesTotal(m, OnSides(on, f))
            == If(on(0), f(e, e.sides[0])) + If(on(1), f(e, e.sides[1])) + If(on(1), f(d, d.sides[0])) + If(on(2), f(d, d.sides[1]))
  {
    var m := Rod(source, storativity);
    var g := OnSides(on, f);
    forall k: nat | k < 2
      ensures var e := m.elements[k]; Part(e, e.sides, g, 2) == g(e, e.sides[0]) + g(e, e.sides[1])
    {
      var e := m.elements[k];
      assert Part(e, e.sides, g, 1) == Part(e, e.sides, g, 0) + g(e, e.sides[0]);
    }
    assert Total(m.elements, SidesOf(), g, 1) == Total(m.elements, SidesOf(), g, 0) + Part(m.elements[0], m.elements[0].sides, g, 2);
    assert Total(m.elements, SidesOf(), g, 2) == Total(m.elements, SidesOf(), g, 1) + Part(m.elements[1], m.elements[1].sides, g, 2);
  }

  lemma RodRelease(source: real, storativity: real, was: Vector, x: Vector, k: nat)
    requires |was| == |x| == 9 && k < 2
    ensures var m := Rod(source, storativity);
            Release(m, m.elements[k], 1.0, was, x) == -storativity * ((x[k + 6] - was[k + 6] + (x[k + 7] - was[k + 7])) / 2.0)
  {
    var m := Rod(source, storativity);
    var e, g := m.elements[k], Change(m, was, x);
    assert Part(e, e.sides, g, 1) == Part(e, e.sides, g, 0) + g(e, e.sides[0]);
    var p := Part(e, e.sides, g, 2);
    assert p == x[k + 6] - was[k + 6] + (x[k + 7] - was[k + 7]);
    assert e.measure == 1.0 && e.crossSection == 1.0 && e.storativity == storativity;
    assert 1.0 * storativity * 1.0 / 1.0 == storativity;
    assert Release(m, e, 1.0, was, x) == -(1.0 * storativity * 1.0 / 1.0) * (p / 2 as real);
  }

  /** What the sources and the storage of the rod give. */
  lemma RodSupply(source: real, storativity: real, was: Vector, x: Vector)
    requires |was| == |x| == 9
    ensures Supply(Rod(source, storativity), 1.0, was, x)
         == source - storativity * ((x[6] - was[6] + (x[7] - was[7])) / 2.0) - storativity * ((x[7] - was[7] + (x[8] - was[8])) / 2.0)
  {
    hide Release, Exchanged;
    var m := Rod(source, storativity);
    assert Sources(m, 1) == Sources(m, 0) + source && Sources(m, 2) == Sources(m, 1);
    RodRelease(source, storativity, was, x, 0);
    RodRelease(source, storativity, was, x, 1);
    assert Released(m, 1.0, was, x, 1) == Released(m, 1.0, was, x, 0) + Release(m, m.elements[0], 1.0, was, x);
    assert Released(m, 1.0, was, x, 2) == Released(m, 1.0, was, x, 1) + Release(m, m.elements[1], 1.0, was, x);
    var z := OnNeighbours(Outer(m), Exchanged(m, x));
    TotalScales(m.elements, NeighboursOf(), z, z, 1.0, 0.0, 2);
  }

  lemma RodCoefficients(source: real, storativity: real)
    ensures var m := Rod(source, storativity); var e, d := m.elements[0], m.elements[1];
            && TimeCoefficient(e, 1.0) == TimeCoefficient(d, 1.0) == -storativity / 2.0
            && SourceShare(e) == source / 2.0 && SourceShare(d) == 0.0
  {
    assert -1.0 * 1.0 * storativity / 1.0 / 2 as real == -storativity / 2.0;
    assert 1.0 * 1.0 * source / 2 as real == source / 2.0;
  }

  /** The postprocessing of the rod: the four fluxes are corrected. */
  lemma RodPostprocessed(source: real, storativity: real, was: Vector, x: Vector, y: Vector)
    requires |was| == |x| == |y| == 9 && y[4..] == x[4..]
    requires y[0] == x[0] + -storativity / 2.0 * (x[6] - was[6]) - source / 2.0
    requires y[1] == x[1] + -storativity / 2.0 * (x[7] - was[7]) - source / 2.0
    requires y[2] == x[2] + -storativity / 2.0 * (x[7] - was[7])
    requires y[3] == x[3] + -storativity / 2.0 * (x[8] - was[8])
    ensures Postprocessed(Rod(source, storativity), 1.0, was, x, y)
  {
    hide TimeCoefficient, SourceShare;
    var m := Rod(source, storativity);
    var c := -storativity / 2.0;
    RodCoefficients(source, storativity);
    forall e, s | e in m.elements && s in e.sides
      ensures Flux(y)(e, s) == Corrected(m, 1.0, was, x)(e, s)
    {
      assert Trace(m, s.edge, x) == x[s.edge + 6] && Trace(m, s.edge, was) == was[s.edge + 6];
      assert StoredFlux(m, e, s.edge, 1.0, was, x) == c * (x[s.edge + 6] - was[s.edge + 6]);
      assert e == m.elements[0] || e == m.elements[1];
      assert s == e.sides[0] || s == e.sides[1];
    }
    forall r | 0 <= r < 9 && !SideRow(m, r)
      ensures y[r] == x[r]
    {
      assert m.IsSide(0, 0) && m.IsSide(0, 1) && m.IsSide(1, 0) && m.IsSide(1, 1);
      assert m.SideAt(0, 0).row == 0 && m.SideAt(0, 1).row == 1 && m.SideAt(1, 0).row == 2 && m.SideAt(1, 1).row == 3;
      assert r >= 4;
      assert y[4..][r - 4] == x[4..][r - 4];
    }
  }

  lemma RodFluxes(source: real, storativity: real, y: Vector)
    requires |y| == 9
    ensures BoundaryFlux(Rod(source, storativity), y) == y[0] + y[3]
    ensures SidesTotal(Rod(source, storativity), OnSides(Only(1), Flux(y))) == y[1] + y[2]
  {
    RodTotal(source, storativity, Outer(Rod(source, storativity)), Flux(y));
    RodTotal(source, storativity, Only(1), Flux(y));
  }

  lemma RodShape(source: real, storativity: real, source': real, storativity': real)
    ensures SameShape(Rod(source, storativity), Rod(source', storativity'))
    ensures Conservation.Inner(Rod(source, storativity))(1)
  {
  }

  lemma EndIsAlone(source: real, storativity: real, x: Vector)
    requires |x| == 9
    ensures var m := Rod(source, storativity);
            Alone(m, 0, 0) && m.SideAt(0, 0).bc == Dirichlet(0.0) && Trace(m, 0, x) == x[6]
  {
  }

  // ---------------------------------------------------------------- first steps from the initial pressure

  /** A source of 4 without storage: only 2 leave through the ends, and 2 are lost at the edge between the elements. */
  method SourceIsLost() returns (l: Linear, x: Vector, y: Vector)
    ensures var m := Rod(4.0, 0.0);
            && StartsFrom(m, START) && Step(m, l, 1.0, START, x) && Postprocessed(m, 1.0, START, x, y)
            && BoundaryFlux(m, y) == 2.0 && Supply(m, 1.0, START, x) == 4.0
            && Conservation.Inner(m)(1) && SidesTotal(m, OnSides(Only(1), Flux(y))) == -2.0
  {
    hide Assembled, Step, Postprocessed, BoundaryFlux, Supply, SidesTotal, SameShape, Alone, Trace, Rod, Conservation.Inner, StartsFrom;
    l := AssembleRod(4.0, 0.0);
    x := [3.0, 1.0, -1.0, 1.0, 5.0, 3.0, 0.0, 6.0, 0.0];
    y := [1.0, -1.0, -1.0, 1.0, 5.0, 3.0, 0.0, 6.0, 0.0];
    RodStart(4.0, 0.0);
    RodStep(4.0, 0.0, l, START, x);
    RodPostprocessed(4.0, 0.0, START, x, y);
    RodSupply(4.0, 0.0, START, x);
    RodFluxes(4.0, 0.0, y);
    RodShape(4.0, 0.0, 4.0, 0.0);
  }

  /** With storage the pressure 2 at the ends becomes 1, not the prescribed 0. */
  method PressureIsMissed() returns (l: Linear, x: Vector)
    ensures var m := Rod(0.0, 2.0);
            && StartsFrom(m, START) && Step(m, l, 1.0, START, x) && Alone(m, 0, 0) && m.SideAt(0, 0).bc == Dirichlet(0.0)
            && Trace(m, 0, START) == 2.0 && Trace(m, 0, x) == 1.0
  {
    hide Assembled, Step, Postprocessed, BoundaryFlux, Supply, SidesTotal, SameShape, Alone, Trace, Rod, Conservation.Inner, StartsFrom;
    l := AssembleRod(0.0, 2.0);
    x := [4.0 / 7.0, -4.0 / 7.0, -4.0 / 7.0, 4.0 / 7.0, 12.0 / 7.0, 12.0 / 7.0, 1.0, 24.0 / 7.0, 1.0];
    RodStart(0.0, 2.0);
    RodStep(0.0, 2.0, l, START, x);
    EndIsAlone(0.0, 2.0, START);
    EndIsAlone(0.0, 2.0, x);
  }

  /** A source that appears after the assembly: the postprocessing takes its share from the fluxes, the system gives nothing. */
  method LateSourceIsLost() returns (l: Linear, x: Vector, y: Vector)
    ensures var m, d := Rod(0.0, 0.0), Rod(4.0, 0.0);
            && StartsFrom(m, START) && Step(m, l, 1.0, START, x) && SameShape(m, d) && Postprocessed(d, 1.0, START, x, y)
            && BoundaryFlux(m, y) == -2.0 && Supply(m, 1.0, START, x) == 0.0 && Supply(d, 1.0, START, x) == 4.0
  {
    hide Assembled, Step, Postprocessed, BoundaryFlux, Supply, SidesTotal, SameShape, Alone, Trace, Rod, Conservation.Inner, StartsFrom;
    l := AssembleRod(0.0, 0.0);
    x := [0.0, 0.0, 0.0, 0.0, 0.0, 0.0, 0.0, 0.0, 0.0];
    y := [-2.0, -2.0, 0.0, 0.0, 0.0, 0.0, 0.0, 0.0, 0.0];
    RodStart(0.0, 0.0);
    RodStep(0.0, 0.0, l, START, x);
    RodPostprocessed(4.0, 0.0, START, x, y);
    RodSupply(0.0, 0.0, START, x);
    RodSupply(4.0, 0.0, START, x);
    RodFluxes(0.0, 0.0, y);
    RodShape(0.0, 0.0, 4.0, 0.0);
  }

  /** A storativity that appears after the assembly: fluxes of 4 through the ends, of which the system knows nothing. */
  method LateStorageFlows() returns (l: Linear, x: Vector, y: Vector)
    ensures var m, d := Rod(0.0, 0.0), Rod(0.0, 2.0);
            && StartsFrom(m, START) && Step(m, l, 1.0, START, x) && SameShape(m, d) && Postprocessed(d, 1.0, START, x, y)
            && BoundaryFlux(m, y) == 4.0 && Supply(m, 1.0, START, x) == 0.0
  {
    hide Assembled, Step, Postprocessed, BoundaryFlux, Supply, SidesTotal, SameShape, Alone, Trace, Rod, Conservation.Inner, StartsFrom;
    l := AssembleRod(0.0, 0.0);
    x := [0.0, 0.0, 0.0, 0.0, 0.0, 0.0, 0.0, 0.0, 0.0];
    y := [2.0, 4.0, 4.0, 2.0, 0.0, 0.0, 0.0, 0.0, 0.0];
    RodStart(0.0, 0.0);
    RodStep(0.0, 0.0, l, START, x);
    RodPostprocessed(0.0, 2.0, START, x, y);
    RodSupply(0.0, 0.0, START, x);
    RodFluxes(0.0, 0.0, y);
    RodShape(0.0, 0.0, 0.0, 2.0);
  }
}
