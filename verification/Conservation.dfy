/** What a solved time step and its postprocessing do to the balance of water over the whole mesh. */
module Conservation {
  import opened Matrices
  import opened Assembly
  import T = TimeTerm

  // ---------------------------------------------------------------- sums over the mesh

  /** Sum of `f` over the first `n` items of an element. */
  ghost function Part<X(!new)>(e: Element, items: seq<X>, f: (Element, X) -> real, n: nat): real
    requires n <= |items|
  {
    if n == 0 then 0.0 else Part(e, items, f, n - 1) + f(e, items[n - 1])
  }

  /** Sum of `f` over the items of the first `k` elements. */
  ghost function Total<X(!new)>(es: seq<Element>, items: Element -> seq<X>, f: (Element, X) -> real, k: nat): real
    requires k <= |es|
  {
    if k == 0 then 0.0 else Total(es, items, f, k - 1) + Part(es[k - 1], items(es[k - 1]), f, |items(es[k - 1])|)
  }

  ghost predicate AddsUp<X(!new)>(es: seq<Element>, items: Element -> seq<X>,
                                  f: (Element, X) -> real, g: (Element, X) -> real, h: (Element, X) -> real) {
    forall e <- es, s <- items(e) :: h(e, s) == f(e, s) + g(e, s)
  }

  lemma {:induction false} PartAdds<X(!new)>(e: Element, items: seq<X>,
      f: (Element, X) -> real, g: (Element, X) -> real, h: (Element, X) -> real, n: nat)
    requires n <= |items| && forall s <- items :: h(e, s) == f(e, s) + g(e, s)
    ensures Part(e, items, h, n) == Part(e, items, f, n) + Part(e, items, g, n)
  {
    if n > 0 {
      PartAdds(e, items, f, g, h, n - 1);
      assert items[n - 1] in items;
    }
  }

  lemma {:induction false} TotalAdds<X(!new)>(es: seq<Element>, items: Element -> seq<X>,
      f: (Element, X) -> real, g: (Element, X) -> real, h: (Element, X) -> real, k: nat)
    requires k <= |es| && AddsUp(es, items, f, g, h)
    ensures Total(es, items, h, k) == Total(es, items, f, k) + Total(es, items, g, k)
  {
    if k > 0 {
      TotalAdds(es, items, f, g, h, k - 1);
      assert es[k - 1] in es;
      PartAdds(es[k - 1], items(es[k - 1]), f, g, h, |items(es[k - 1])|);
    }
  }

  /** `a` to `b` as `d` to `c`. */
  predicate Ratio(a: real, c: real, b: real, d: real) {
    a * c == b * d
  }

  lemma {:induction false} PartScales<X(!new)>(e: Element, items: seq<X>,
      f: (Element, X) -> real, g: (Element, X) -> real, c: real, d: real, n: nat)
    requires n <= |items| && forall s <- items :: Ratio(f(e, s), c, g(e, s), d)
    ensures Ratio(Part(e, items, f, n), c, Part(e, items, g, n), d)
  {
    if n > 0 {
      PartScales(e, items, f, g, c, d, n - 1);
      assert items[n - 1] in items;
      BothScaled(Part(e, items, f, n - 1), f(e, items[n - 1]), Part(e, items, g, n - 1), g(e, items[n - 1]), c, d);
    }
  }

  lemma BothScaled(a: real, b: real, x: real, y: real, c: real, d: real)
    requires Ratio(a, c, x, d) && Ratio(b, c, y, d)
    ensures Ratio(a + b, c, x + y, d)
  {
  }

  lemma {:induction false} TotalScales<X(!new)>(es: seq<Element>, items: Element -> seq<X>,
      f: (Element, X) -> real, g: (Element, X) -> real, c: real, d: real, k: nat)
    requires k <= |es| && forall e <- es, s <- items(e) :: Ratio(f(e, s), c, g(e, s), d)
    ensures Ratio(Total(es, items, f, k), c, Total(es, items, g, k), d)
  {
    if k > 0 {
      var e := es[k - 1];
      TotalScales(es, items, f, g, c, d, k - 1);
      assert e in es;
      PartScales(e, items(e), f, g, c, d, |items(e)|);
      BothScaled(Total(es, items, f, k - 1), Part(e, items(e), f, |items(e)|),
                 Total(es, items, g, k - 1), Part(e, items(e), g, |items(e)|), c, d);
    }
  }

  lemma TotalSame<X(!new)>(es: seq<Element>, items: Element -> seq<X>, f: (Element, X) -> real, g: (Element, X) -> real)
    requires forall e <- es, s <- items(e) :: f(e, s) == g(e, s)
    ensures Total(es, items, f, |es|) == Total(es, items, g, |es|)
  {
    TotalScales(es, items, f, g, 1.0, 1.0, |es|);
  }

  /** `f` on the edges `on` only. */
  function Where<X>(edgeOf: X -> nat, on: nat -> bool, f: (Element, X) -> real): (Element, X) -> real {
    (e: Element, s: X) => if on(edgeOf(s)) then f(e, s) else 0.0
  }

  function Only(j: nat): nat -> bool {
    (l: nat) => l == j
  }

  function Below(n: nat, on: nat -> bool): nat -> bool {
    (l: nat) => l < n && on(l)
  }

  /** If two sums agree on every edge `on`, they agree on all these edges together. */
  lemma {:induction false} EdgewiseEqual<X(!new), Y(!new)>(es: seq<Element>, items: Element -> seq<X>, edgeOf: X -> nat, f: (Element, X) -> real,
      others: Element -> seq<Y>, edgeOfOther: Y -> nat, g: (Element, Y) -> real, on: nat -> bool, n: nat)
    requires forall j: nat | j < n && on(j) ::
               Total(es, items, Where(edgeOf, Only(j), f), |es|) == Total(es, others, Where(edgeOfOther, Only(j), g), |es|)
    ensures Total(es, items, Where(edgeOf, Below(n, on), f), |es|) == Total(es, others, Where(edgeOfOther, Below(n, on), g), |es|)
  {
    if n == 0 {
      NoEdges(es, items, edgeOf, f, on, |es|);
      NoEdges(es, others, edgeOfOther, g, on, |es|);
    } else {
      EdgewiseEqual(es, items, edgeOf, f, others, edgeOfOther, g, on, n - 1);
      OneMoreEdge(es, items, edgeOf, f, on, n - 1);
      OneMoreEdge(es, others, edgeOfOther, g, on, n - 1);
    }
  }

  lemma NoEdges<X(!new)>(es: seq<Element>, items: Element -> seq<X>, edgeOf: X -> nat, f: (Element, X) -> real, on: nat -> bool, k: nat)
    requires k <= |es|
    ensures Total(es, items, Where(edgeOf, Below(0, on), f), k) == 0.0
  {
    var z := Where(edgeOf, Below(0, on), f);
    TotalScales(es, items, z, z, 1.0, 0.0, k);
  }

  lemma OneMoreEdge<X(!new)>(es: seq<Element>, items: Element -> seq<X>, edgeOf: X -> nat, f: (Element, X) -> real, on: nat -> bool, n: nat)
    ensures Total(es, items, Where(edgeOf, Below(n + 1, on), f), |es|)
         == Total(es, items, Where(edgeOf, Below(n, on), f), |es|)
            + (if on(n) then Total(es, items, Where(edgeOf, Only(n), f), |es|) else 0.0)
  {
    var below, more := Where(edgeOf, Below(n, on), f), Where(edgeOf, Below(n + 1, on), f);
    if on(n) {
      TotalAdds(es, items, below, Where(edgeOf, Only(n), f), more, |es|);
    } else {
      TotalSame(es, items, more, below);
    }
  }

  lemma Split<X(!new)>(es: seq<Element>, items: Element -> seq<X>, edgeOf: X -> nat, f: (Element, X) -> real, on: nat -> bool, off: nat -> bool)
    requires forall e <- es, s <- items(e) :: on(edgeOf(s)) <==> !off(edgeOf(s))
    ensures Total(es, items, f, |es|)
         == Total(es, items, Where(edgeOf, on, f), |es|) + Total(es, items, Where(edgeOf, off, f), |es|)
  {
    TotalAdds(es, items, Where(edgeOf, on, f), Where(edgeOf, off, f), f, |es|);
  }

  // ---------------------------------------------------------------- quantities on sides and neighbours

  function SidesOf(): Element -> seq<Side> { (e: Element) => e.sides }

  function NeighboursOf(): Element -> seq<Neighbour> { (e: Element) => e.neighbours }

  function EdgeOfSide(): Side -> nat { (s: Side) => s.edge }

  function EdgeOfNeighbour(): Neighbour -> nat { (n: Neighbour) => n.edge }

  type SideFn = (Element, Side) -> real
  type NeighbourFn = (Element, Neighbour) -> real

  ghost function SidesTotal(m: Mesh, f: SideFn): real {
    Total(m.elements, SidesOf(), f, |m.elements|)
  }

  ghost function NeighboursTotal(m: Mesh, f: NeighbourFn): real {
    Total(m.elements, NeighboursOf(), f, |m.elements|)
  }

  function OnSides(on: nat -> bool, f: SideFn): SideFn { Where(EdgeOfSide(), on, f) }

  function OnNeighbours(on: nat -> bool, f: NeighbourFn): NeighbourFn { Where(EdgeOfNeighbour(), on, f) }

  function Flux(x: Vector): SideFn {
    (e: Element, s: Side) => At(x, s.row)
  }

  /** What a side brings to the row of its edge. */
  function Inflow(m: Mesh, x: Vector): SideFn {
    (e: Element, s: Side) => Coupling(s) * At(x, s.row) + EdgeLaw(e, s, Trace(m, s.edge, x))
  }

  function Exchanged(m: Mesh, x: Vector): NeighbourFn {
    (e: Element, n: Neighbour) => n.sigma * n.sideMeasure * n.sideCrossSection * (Trace(m, n.edge, x) - At(x, e.row))
  }

  /** Storage of a side over the step, as the postprocessing computes it. */
  function TimeCoefficient(e: Element, dt: real): real {
    Coefficient(e.measure, e.crossSection, e.storativity, dt, |e.sides|)
  }

  function Coefficient(measure: real, crossSection: real, storativity: real, dt: real, sides: nat): real {
    if sides > 0 && dt > 0.0 then -measure * crossSection * storativity / dt / sides as real else 0.0
  }

  function SourceShare(e: Element): real {
    if |e.sides| > 0 then e.measure * e.crossSection * e.source / |e.sides| as real else 0.0
  }

  function Change(m: Mesh, was: Vector, x: Vector): SideFn {
    (e: Element, s: Side) => Trace(m, s.edge, x) - Trace(m, s.edge, was)
  }

  /** The water a side of element `e` on edge `j` stores over the step. */
  function StoredFlux(m: Mesh, e: Element, j: nat, dt: real, was: Vector, x: Vector): real {
    TimeCoefficient(e, dt) * (Trace(m, j, x) - Trace(m, j, was))
  }

  function TimeFlux(m: Mesh, dt: real, was: Vector, x: Vector): SideFn {
    (e: Element, s: Side) => StoredFlux(m, e, s.edge, dt, was, x)
  }

  function Share(): SideFn {
    (e: Element, s: Side) => SourceShare(e)
  }

  // ---------------------------------------------------------------- rows of elements

  /** No side and no edge has row `r`. */
  ghost predicate ElementRow(m: Mesh, r: nat) {
    && r < m.size && (forall e <- m.elements, s <- e.sides :: s.row != r) && (forall edge <- m.edges :: edge.row != r)
  }

  /** Water that enters an element: its source, the exchange with edges of higher dimension, less the flux through its sides. */
  ghost function NetInflow(m: Mesh, e: Element, x: Vector): real {
    e.measure * e.crossSection * e.source + Part(e, e.neighbours, Exchanged(m, x), |e.neighbours|) - Part(e, e.sides, Flux(x), |e.sides|)
  }

  lemma {:induction false} SidesAtElementRow(m: Mesh, e: Element, r: nat, x: Vector, k: nat)
    requires m.Valid() && ElementRow(m, r) && e in m.elements && k <= |e.sides|
    ensures LocalPart(e, k, r, x) == 0.0
    ensures SidesPart(m, e, k, r, x) == if e.row == r then -Part(e, e.sides, Flux(x), k) else 0.0
  {
    if k > 0 {
      var s := e.sides[k - 1];
      assert s in e.sides && m.Fits(e) && m.edges[s.edge] in m.edges;
      SidesAtElementRow(m, e, r, x, k - 1);
    }
  }

  lemma {:induction false} NeighboursAtElementRow(m: Mesh, e: Element, r: nat, x: Vector, k: nat)
    requires m.Valid() && ElementRow(m, r) && e in m.elements && k <= |e.neighbours|
    ensures NeighboursPart(m, e, k, r, x) == if e.row == r then Part(e, e.neighbours, Exchanged(m, x), k) else 0.0
  {
    if k > 0 {
      var n := e.neighbours[k - 1];
      assert n in e.neighbours && m.Fits(e) && m.edges[n.edge] in m.edges;
      NeighboursAtElementRow(m, e, r, x, k - 1);
    }
  }

  lemma AtElementRow(m: Mesh, e: Element, r: nat, x: Vector)
    requires m.Valid() && ElementRow(m, r) && e in m.elements
    ensures Square(e.localMatrix, |e.sides|)
    ensures ElementPart(m, e, r, x) == if e.row == r then NetInflow(m, e, x) else 0.0
  {
    assert m.Fits(e);
    SidesAtElementRow(m, e, r, x, |e.sides|);
    NeighboursAtElementRow(m, e, r, x, |e.neighbours|);
  }

  lemma {:induction false} BalanceOfElement(m: Mesh, i: nat, x: Vector, k: nat)
    requires m.Valid() && i < |m.elements| && k <= |m.elements|
    ensures Balance(m, k, m.elements[i].row, x) == if i < k then NetInflow(m, m.elements[i], x) else 0.0
  {
    if k > 0 {
      var r := m.elements[i].row;
      assert m.elements[i] in m.elements && m.elements[k - 1] in m.elements && m.Fits(m.elements[i]);
      assert ElementRow(m, r);
      BalanceOfElement(m, i, x, k - 1);
      AtElementRow(m, m.elements[k - 1], r, x);
    }
  }

  // ---------------------------------------------------------------- rows of edges

  lemma {:induction false} SidesAtEdgeRow(m: Mesh, e: Element, j: nat, x: Vector, k: nat)
    requires m.Valid() && j < |m.edges| && e in m.elements && k <= |e.sides|
    ensures Square(e.localMatrix, |e.sides|)
    ensures LocalPart(e, k, m.edges[j].row, x) == 0.0
    ensures SidesPart(m, e, k, m.edges[j].row, x) == Part(e, e.sides, OnSides(Only(j), Inflow(m, x)), k)
  {
    assert m.Fits(e);
    if k > 0 {
      var s := e.sides[k - 1];
      assert s in e.sides && m.edges[s.edge] in m.edges && m.edges[j] in m.edges;
      SidesAtEdgeRow(m, e, j, x, k - 1);
    }
  }

  lemma {:induction false} NeighboursAtEdgeRow(m: Mesh, e: Element, j: nat, x: Vector, k: nat)
    requires m.Valid() && j < |m.edges| && e in m.elements && k <= |e.neighbours|
    ensures NeighboursPart(m, e, k, m.edges[j].row, x) == -Part(e, e.neighbours, OnNeighbours(Only(j), Exchanged(m, x)), k)
  {
    if k > 0 {
      var n := e.neighbours[k - 1];
      assert n in e.neighbours && m.Fits(e) && m.edges[n.edge] in m.edges && m.edges[j] in m.edges;
      NeighboursAtEdgeRow(m, e, j, x, k - 1);
    }
  }

  lemma {:induction false} BalanceOfEdge(m: Mesh, j: nat, x: Vector, k: nat)
    requires m.Valid() && j < |m.edges| && k <= |m.elements|
    ensures Balance(m, k, m.edges[j].row, x)
         == Total(m.elements, SidesOf(), OnSides(Only(j), Inflow(m, x)), k)
            - Total(m.elements, NeighboursOf(), OnNeighbours(Only(j), Exchanged(m, x)), k)
  {
    if k > 0 {
      var e := m.elements[k - 1];
      assert e in m.elements && m.edges[j] in m.edges;
      BalanceOfEdge(m, j, x, k - 1);
      SidesAtEdgeRow(m, e, j, x, |e.sides|);
      NeighboursAtEdgeRow(m, e, j, x, |e.neighbours|);
    }
  }

  // ---------------------------------------------------------------- storage of the rows

  /** An element as the setup of the time term sees it. */
  function TimePart(m: Mesh, e: Element): T.Element {
    T.Element(e.measure, e.crossSection, e.storativity, e.initPressure,
              seq(|e.sides|, i requires 0 <= i < |e.sides| => EdgeRow(m, e.sides[i].edge)))
  }

  function TimeParts(m: Mesh): seq<T.Element> {
    seq(|m.elements|, k requires 0 <= k < |m.elements| => TimePart(m, m.elements[k]))
  }

  lemma TimePartsHaveSides(m: Mesh)
    requires m.Valid()
    ensures T.HaveSides(TimeParts(m)) && T.RowsWithin(TimeParts(m), m.size)
  {
    forall p | p in TimeParts(m)
      ensures |p.edgeRows| > 0 && forall i | 0 <= i < |p.edgeRows| :: p.edgeRows[i] < m.size
    {
      var k :| 0 <= k < |m.elements| && p == TimePart(m, m.elements[k]);
      var e := m.elements[k];
      assert e in m.elements && m.Fits(e);
      forall i | 0 <= i < |e.sides|
        ensures p.edgeRows[i] < m.size
      {
        assert e.sides[i] in e.sides && m.edges[e.sides[i].edge] in m.edges;
      }
    }
  }

  function Storage(m: Mesh): Vector
    requires m.Valid()
  {
    TimePartsHaveSides(m);
    T.Storage(TimeParts(m), m.size)
  }

  function StorageShare(e: Element): real {
    if |e.sides| > 0 then T.StorageShare(e.measure, e.crossSection, e.storativity, |e.sides|) else 0.0
  }

  function Stored(): SideFn {
    (e: Element, s: Side) => StorageShare(e)
  }

  lemma {:induction false} StorageOfSides(m: Mesh, e: Element, j: nat, k: nat)
    requires m.Valid() && e in m.elements && j < |m.edges| && k <= |e.sides|
    ensures T.SidesSum(TimePart(m, e), k, m.edges[j].row, StorageShare(e)) == Part(e, e.sides, OnSides(Only(j), Stored()), k)
  {
    if k > 0 {
      StorageOfSides(m, e, j, k - 1);
      var s := e.sides[k - 1];
      assert m.Fits(e) && s in e.sides && m.edges[s.edge] in m.edges && m.edges[j] in m.edges;
    }
  }

  lemma SideStorageIsShare(m: Mesh, k: nat)
    requires m.Valid() && k < |m.elements| && T.HaveSides(TimeParts(m))
    ensures TimeParts(m)[k] == TimePart(m, m.elements[k]) && T.SideStorages(TimeParts(m))[k] == StorageShare(m.elements[k])
  {
    var e, p := m.elements[k], TimeParts(m)[k];
    assert e in m.elements && m.Fits(e) && p in TimeParts(m);
    assert T.SideStorages(TimeParts(m))[k] == T.SideStorage(p);
  }

  lemma {:induction false} StorageOfEdge(m: Mesh, j: nat, k: nat)
    requires m.Valid() && j < |m.edges| && k <= |m.elements| && T.HaveSides(TimeParts(m))
    ensures T.MeshSum(TimeParts(m), T.SideStorages(TimeParts(m)), k, m.edges[j].row)
         == Total(m.elements, SidesOf(), OnSides(Only(j), Stored()), k)
  {
    if k > 0 {
      StorageOfEdge(m, j, k - 1);
      var e := m.elements[k - 1];
      assert e in m.elements && m.Fits(e);
      StorageOfSides(m, e, j, |e.sides|);
      SideStorageIsShare(m, k - 1);
    }
  }

  lemma StorageAtEdge(m: Mesh, j: nat)
    requires m.Valid() && j < |m.edges|
    ensures m.edges[j].row < m.size && Storage(m)[m.edges[j].row] == SidesTotal(m, OnSides(Only(j), Stored()))
  {
    assert m.edges[j] in m.edges;
    TimePartsHaveSides(m);
    StorageOfEdge(m, j, |m.elements|);
  }

  lemma StorageElsewhere(m: Mesh, r: nat)
    requires m.Valid() && r < m.size && forall edge <- m.edges :: edge.row != r
    ensures Storage(m)[r] == 0.0
  {
    TimePartsHaveSides(m);
    NoStorage(m, r, |m.elements|);
  }

  lemma {:induction false} NoStorageOfSides(m: Mesh, e: Element, r: nat, k: nat, v: real)
    requires m.Valid() && e in m.elements && k <= |e.sides| && forall edge <- m.edges :: edge.row != r
    ensures T.SidesSum(TimePart(m, e), k, r, v) == 0.0
  {
    if k > 0 {
      NoStorageOfSides(m, e, r, k - 1, v);
      var s := e.sides[k - 1];
      assert m.Fits(e) && s in e.sides && m.edges[s.edge] in m.edges;
    }
  }

  lemma {:induction false} NoStorage(m: Mesh, r: nat, k: nat)
    requires m.Valid() && k <= |m.elements| && T.HaveSides(TimeParts(m)) && forall edge <- m.edges :: edge.row != r
    ensures T.MeshSum(TimeParts(m), T.SideStorages(TimeParts(m)), k, r) == 0.0
  {
    if k > 0 {
      NoStorage(m, r, k - 1);
      var e := m.elements[k - 1];
      assert e in m.elements && m.Fits(e);
      assert TimeParts(m)[k - 1] == TimePart(m, e);
      NoStorageOfSides(m, e, r, |e.sides|, T.SideStorages(TimeParts(m))[k - 1]);
    }
  }

  // ---------------------------------------------------------------- one solved step

  /** `x` solves a step of length `dt` of the assembled system from `was`. */
  ghost predicate Step(m: Mesh, l: Linear, dt: real, was: Vector, x: Vector) {
    m.Valid() && Assembled(m, l) && dt > 0.0 && T.BackwardEuler(l.matrix, l.rhs, Storage(m), dt, was, x)
  }

  /** Flow into a row over the step and what the row stores cancel. */
  predicate Settled(dt: real, flow: real, storage: real, change: real) {
    dt * flow + storage * change == 0.0
  }

  lemma StepRow(m: Mesh, l: Linear, dt: real, was: Vector, x: Vector, r: nat)
    requires Step(m, l, dt, was, x) && r < m.size
    ensures Settled(dt, Balance(m, |m.elements|, r, x), Storage(m)[r], x[r] - was[r])
  {
    var ax, b := T.Dot(l.matrix[r], x), l.rhs[r];
    assert Residual(l, r, x) == Balance(m, |m.elements|, r, x);
    EulerSettles(ax, b, Storage(m)[r], dt, was[r], x[r], Balance(m, |m.elements|, r, x));
  }

  lemma EulerSettles(ax: real, b: real, storage: real, dt: real, was: real, x: real, flow: real)
    requires T.EulerRow(ax, b, storage, dt, was, x) && flow == ax - b
    ensures Settled(dt, flow, storage, x - was)
  {
  }

  lemma SettledWithoutStorage(dt: real, flow: real, change: real)
    requires dt > 0.0 && Settled(dt, flow, 0.0, change)
    ensures flow == 0.0
  {
  }

  lemma SettledWithStorage(dt: real, flow: real, storage: real, change: real, stored: real)
    requires dt > 0.0 && Settled(dt, flow, storage, change) && Ratio(stored, dt, storage, change)
    ensures flow + stored == 0.0
  {
    assert dt * (flow + stored) == 0.0;
  }

  /** What enters an element leaves it, element by element: elements store nothing themselves. */
  lemma ElementConserves(m: Mesh, l: Linear, dt: real, was: Vector, x: Vector, k: nat)
    requires Step(m, l, dt, was, x) && k < |m.elements|
    ensures NetInflow(m, m.elements[k], x) == 0.0
  {
    var e := m.elements[k];
    assert e in m.elements && m.Fits(e);
    BalanceOfElement(m, k, x, |m.elements|);
    StorageElsewhere(m, e.row);
    StepRow(m, l, dt, was, x, e.row);
    SettledWithoutStorage(dt, NetInflow(m, e, x), x[e.row] - was[e.row]);
  }

  lemma CoefficientTimesStep(e: Element, dt: real)
    requires |e.sides| > 0 && dt > 0.0
    ensures TimeCoefficient(e, dt) * dt == StorageShare(e)
  {
    T.ShareTimesStep(e.measure, e.storativity, e.crossSection, dt, |e.sides| as real);
    assert -e.measure * e.storativity * e.crossSection == -e.measure * e.crossSection * e.storativity;
  }

  lemma Regroup(t: real, d: real, dt: real, share: real)
    requires t * dt == share
    ensures (t * d) * dt == share * d
  {
    assert (t * d) * dt == (t * dt) * d;
  }

  /** On every edge what flows in, stored water included, is what goes to the connected elements of lower dimension. */
  lemma EdgeConserves(m: Mesh, l: Linear, dt: real, was: Vector, x: Vector, j: nat)
    requires Step(m, l, dt, was, x) && j < |m.edges|
    ensures SidesTotal(m, OnSides(Only(j), Inflow(m, x))) + SidesTotal(m, OnSides(Only(j), TimeFlux(m, dt, was, x)))
         == NeighboursTotal(m, OnNeighbours(Only(j), Exchanged(m, x)))
  {
    var r := m.edges[j].row;
    BalanceOfEdge(m, j, x, |m.elements|);
    StorageAtEdge(m, j);
    StepRow(m, l, dt, was, x, r);
    StorageTimesChange(m, dt, was, x, j);
    SettledWithStorage(dt, Balance(m, |m.elements|, r, x), Storage(m)[r], x[r] - was[r],
                       SidesTotal(m, OnSides(Only(j), TimeFlux(m, dt, was, x))));
  }

  lemma StorageTimesChange(m: Mesh, dt: real, was: Vector, x: Vector, j: nat)
    requires m.Valid() && j < |m.edges| && m.edges[j].row < m.size && dt > 0.0 && |was| == |x| == m.size
    ensures Ratio(SidesTotal(m, OnSides(Only(j), TimeFlux(m, dt, was, x))), dt,
                  SidesTotal(m, OnSides(Only(j), Stored())), x[m.edges[j].row] - was[m.edges[j].row])
  {
    var f, g := OnSides(Only(j), TimeFlux(m, dt, was, x)), OnSides(Only(j), Stored());
    var d := Trace(m, j, x) - Trace(m, j, was);
    forall e, s | e in m.elements && s in e.sides
      ensures Ratio(f(e, s), dt, g(e, s), d)
    {
      assert m.Fits(e);
      TimeFluxOnEdge(m, e, s, dt, was, x, j);
    }
    TotalScales(m.elements, SidesOf(), f, g, dt, d, |m.elements|);
  }

  lemma TimeFluxOnEdge(m: Mesh, e: Element, s: Side, dt: real, was: Vector, x: Vector, j: nat)
    requires |e.sides| > 0 && dt > 0.0
    ensures Ratio(OnSides(Only(j), TimeFlux(m, dt, was, x))(e, s), dt, OnSides(Only(j), Stored())(e, s), Trace(m, j, x) - Trace(m, j, was))
  {
    if s.edge == j {
      CoefficientTimesStep(e, dt);
      Regroup(TimeCoefficient(e, dt), Trace(m, j, x) - Trace(m, j, was), dt, StorageShare(e));
    }
  }

  // ---------------------------------------------------------------- postprocessing and the balance of the mesh

  function Inner(m: Mesh): nat -> bool {
    (j: nat) => j < |m.edges| && !m.edges[j].outer
  }

  function Outer(m: Mesh): nat -> bool {
    (j: nat) => j < |m.edges| && m.edges[j].outer
  }

  /** The flux of a side after both loops of the postprocessing. */
  function Corrected(m: Mesh, dt: real, was: Vector, x: Vector): SideFn {
    (e: Element, s: Side) => At(x, s.row) + StoredFlux(m, e, s.edge, dt, was, x) - SourceShare(e)
  }

  function WithStorage(m: Mesh, dt: real, was: Vector, x: Vector): SideFn {
    (e: Element, s: Side) => At(x, s.row) + StoredFlux(m, e, s.edge, dt, was, x)
  }

  ghost predicate SideRow(m: Mesh, r: nat) {
    exists k, i :: m.IsSide(k, i) && m.SideAt(k, i).row == r
  }

  /** `y` is `x` with all fluxes corrected and nothing else changed. */
  ghost predicate Postprocessed(m: Mesh, dt: real, was: Vector, x: Vector, y: Vector) {
    && |y| == |x|
    && (forall e <- m.elements, s <- e.sides :: Flux(y)(e, s) == Corrected(m, dt, was, x)(e, s))
    && (forall r | 0 <= r < |x| && !SideRow(m, r) :: y[r] == x[r])
  }

  /** Water produced by the sources of the first `k` elements. */
  function Sources(m: Mesh, k: nat): real
    requires k <= |m.elements|
  {
    if k == 0 then 0.0 else Sources(m, k - 1) + m.elements[k - 1].measure * m.elements[k - 1].crossSection * m.elements[k - 1].source
  }

  /** Water released from storage: the change of the mean edge pressure of each element times its storativity. */
  ghost function Released(m: Mesh, dt: real, was: Vector, x: Vector, k: nat): real
    requires dt > 0.0 && k <= |m.elements|
  {
    if k == 0 then 0.0 else Released(m, dt, was, x, k - 1) + Release(m, m.elements[k - 1], dt, was, x)
  }

  ghost function Release(m: Mesh, e: Element, dt: real, was: Vector, x: Vector): real
    requires dt > 0.0
  {
    if |e.sides| == 0 then 0.0
    else -(e.measure * e.storativity * e.crossSection / dt) * (Part(e, e.sides, Change(m, was, x), |e.sides|) / |e.sides| as real)
  }

  ghost function BoundaryFlux(m: Mesh, y: Vector): real {
    SidesTotal(m, OnSides(Outer(m), Flux(y)))
  }

  lemma ReleaseFactor(m: real, s: real, c: real, dt: real, n: real, change: real)
    requires dt > 0.0 && n > 0.0
    ensures (-m * c * s / dt / n) * change == -(m * s * c / dt) * (change / n)
  {
    var q, p := -m * c * s / dt, m * s * c / dt;
    Opposite(m, s, c, dt);
    assert q == -p;
    assert (q / n) * change == q * (change / n);
  }

  lemma Opposite(m: real, s: real, c: real, dt: real)
    requires dt > 0.0
    ensures -m * c * s / dt == -(m * s * c / dt)
  {
    var a := m * s * c;
    assert -m * c * s == -a;
  }

  lemma {:induction false} ReleaseOfElement(m: Mesh, e: Element, dt: real, was: Vector, x: Vector)
    requires dt > 0.0 && |e.sides| > 0
    ensures Part(e, e.sides, TimeFlux(m, dt, was, x), |e.sides|) == Release(m, e, dt, was, x)
  {
    var f, g := TimeFlux(m, dt, was, x), Change(m, was, x);
    PartScales(e, e.sides, f, g, 1.0, TimeCoefficient(e, dt), |e.sides|);
    ReleaseFactor(e.measure, e.storativity, e.crossSection, dt, |e.sides| as real, Part(e, e.sides, g, |e.sides|));
  }

  lemma {:induction false} ReleasedThroughSides(m: Mesh, dt: real, was: Vector, x: Vector, k: nat)
    requires m.Valid() && dt > 0.0 && k <= |m.elements|
    ensures Total(m.elements, SidesOf(), TimeFlux(m, dt, was, x), k) == Released(m, dt, was, x, k)
  {
    if k > 0 {
      var e := m.elements[k - 1];
      assert e in m.elements && m.Fits(e);
      ReleasedThroughSides(m, dt, was, x, k - 1);
      ReleaseOfElement(m, e, dt, was, x);
    }
  }

  /** All fluxes together are the sources and the exchange. */
  lemma {:induction false} FluxesTotal(m: Mesh, x: Vector, k: nat)
    requires k <= |m.elements| && forall i | 0 <= i < |m.elements| :: NetInflow(m, m.elements[i], x) == 0.0
    ensures Total(m.elements, SidesOf(), Flux(x), k) == Sources(m, k) + Total(m.elements, NeighboursOf(), Exchanged(m, x), k)
  {
    if k > 0 {
      FluxesTotal(m, x, k - 1);
      assert NetInflow(m, m.elements[k - 1], x) == 0.0;
    }
  }

  /** On an inner edge the corrected fluxes feed the elements of lower dimension, up to the shares of the sources. */
  lemma InnerEdgeConserves(m: Mesh, l: Linear, dt: real, was: Vector, x: Vector, j: nat)
    requires Step(m, l, dt, was, x) && Inner(m)(j)
    ensures SidesTotal(m, OnSides(Only(j), WithStorage(m, dt, was, x))) == NeighboursTotal(m, OnNeighbours(Only(j), Exchanged(m, x)))
  {
    EdgeConserves(m, l, dt, was, x, j);
    hide StoredFlux, Trace, Assembled, T.BackwardEuler, Mesh.RowsApart;
    forall e, s | e in m.elements && s in e.sides
      ensures OnSides(Only(j), WithStorage(m, dt, was, x))(e, s)
           == OnSides(Only(j), Inflow(m, x))(e, s) + OnSides(Only(j), TimeFlux(m, dt, was, x))(e, s)
    {
      assert m.Fits(e);
      assert s.edge == j ==> s.bc.Inner?;
    }
    TotalAdds(m.elements, SidesOf(), OnSides(Only(j), Inflow(m, x)), OnSides(Only(j), TimeFlux(m, dt, was, x)),
              OnSides(Only(j), WithStorage(m, dt, was, x)), |m.elements|);
  }

  lemma InnerEdgesConserve(m: Mesh, l: Linear, dt: real, was: Vector, x: Vector)
    requires Step(m, l, dt, was, x)
    ensures SidesTotal(m, OnSides(Inner(m), WithStorage(m, dt, was, x))) == NeighboursTotal(m, OnNeighbours(Inner(m), Exchanged(m, x)))
  {
    var f, g, n := WithStorage(m, dt, was, x), Exchanged(m, x), |m.edges|;
    forall j: nat | j < n && Inner(m)(j)
      ensures SidesTotal(m, OnSides(Only(j), f)) == NeighboursTotal(m, OnNeighbours(Only(j), g))
    {
      InnerEdgeConserves(m, l, dt, was, x, j);
    }
    EdgewiseEqual(m.elements, SidesOf(), EdgeOfSide(), f, NeighboursOf(), EdgeOfNeighbour(), g, Inner(m), n);
    TotalSame(m.elements, SidesOf(), OnSides(Inner(m), f), OnSides(Below(n, Inner(m)), f));
    TotalSame(m.elements, NeighboursOf(), OnNeighbours(Inner(m), g), OnNeighbours(Below(n, Inner(m)), g));
  }

  /** Water through the boundary, storage included, comes from sources, from storage and from connections on the boundary. */
  lemma OuterConserves(m: Mesh, l: Linear, dt: real, was: Vector, x: Vector)
    requires Step(m, l, dt, was, x)
    ensures SidesTotal(m, OnSides(Outer(m), WithStorage(m, dt, was, x)))
         == Sources(m, |m.elements|) + Released(m, dt, was, x, |m.elements|)
            + NeighboursTotal(m, OnNeighbours(Outer(m), Exchanged(m, x)))
  {
    var f, g := WithStorage(m, dt, was, x), Exchanged(m, x);
    EdgesAreInnerOrOuter(m);
    Split(m.elements, SidesOf(), EdgeOfSide(), f, Inner(m), Outer(m));
    Split(m.elements, NeighboursOf(), EdgeOfNeighbour(), g, Inner(m), Outer(m));
    InnerEdgesConserve(m, l, dt, was, x);
    forall k | 0 <= k < |m.elements|
      ensures NetInflow(m, m.elements[k], x) == 0.0
    {
      ElementConserves(m, l, dt, was, x, k);
    }
    FluxesTotal(m, x, |m.elements|);
    TotalAdds(m.elements, SidesOf(), Flux(x), TimeFlux(m, dt, was, x), f, |m.elements|);
    ReleasedThroughSides(m, dt, was, x, |m.elements|);
  }

  lemma EdgesAreInnerOrOuter(m: Mesh)
    requires m.Valid()
    ensures forall e <- m.elements, s <- e.sides :: Inner(m)(s.edge) <==> !Outer(m)(s.edge)
    ensures forall e <- m.elements, n <- e.neighbours :: Inner(m)(n.edge) <==> !Outer(m)(n.edge)
  {
    forall e | e in m.elements
      ensures forall s <- e.sides :: Inner(m)(s.edge) <==> !Outer(m)(s.edge)
      ensures forall n <- e.neighbours :: Inner(m)(n.edge) <==> !Outer(m)(n.edge)
    {
      assert m.Fits(e);
    }
  }

  lemma CorrectedOn(m: Mesh, dt: real, was: Vector, x: Vector, y: Vector, on: nat -> bool)
    requires Postprocessed(m, dt, was, x, y)
    ensures SidesTotal(m, OnSides(on, WithStorage(m, dt, was, x)))
         == SidesTotal(m, OnSides(on, Flux(y))) + SidesTotal(m, OnSides(on, Share()))
  {
    TotalAdds(m.elements, SidesOf(), OnSides(on, Flux(y)), OnSides(on, Share()), OnSides(on, WithStorage(m, dt, was, x)), |m.elements|);
  }

  // ---------------------------------------------------------------- data that change with time

  /** `d` is the mesh `m` with other data: cross-sections, storativities, sources and boundary conditions may differ. */
  ghost predicate SameShape(m: Mesh, d: Mesh) {
    && d.size == m.size && d.edges == m.edges && |d.elements| == |m.elements|
    && forall k | 0 <= k < |m.elements| :: SameElement(m.elements[k], d.elements[k])
  }

  ghost predicate SameElement(e: Element, d: Element) {
    && d.row == e.row && d.measure == e.measure && |d.sides| == |e.sides|
    && forall i | 0 <= i < |e.sides| :: d.sides[i].row == e.sides[i].row && d.sides[i].edge == e.sides[i].edge
  }

  lemma {:induction false} SameFluxPart(e: Element, d: Element, on: nat -> bool, y: Vector, n: nat)
    requires SameElement(e, d) && n <= |e.sides|
    ensures Part(d, d.sides, OnSides(on, Flux(y)), n) == Part(e, e.sides, OnSides(on, Flux(y)), n)
  {
    if n > 0 {
      SameFluxPart(e, d, on, y, n - 1);
    }
  }

  lemma {:induction false} SameFluxes(m: Mesh, d: Mesh, on: nat -> bool, y: Vector, k: nat)
    requires SameShape(m, d) && k <= |m.elements|
    ensures Total(d.elements, SidesOf(), OnSides(on, Flux(y)), k) == Total(m.elements, SidesOf(), OnSides(on, Flux(y)), k)
  {
    if k > 0 {
      SameFluxes(m, d, on, y, k - 1);
      assert SameElement(m.elements[k - 1], d.elements[k - 1]);
      SameFluxPart(m.elements[k - 1], d.elements[k - 1], on, y, |m.elements[k - 1].sides|);
    }
  }

  /** Water stored at the boundary by the data `d` of the postprocessing, less what the system stores there. */
  ghost function StorageDrift(m: Mesh, d: Mesh, dt: real, was: Vector, x: Vector): real {
    SidesTotal(d, OnSides(Outer(d), TimeFlux(d, dt, was, x))) - SidesTotal(m, OnSides(Outer(m), TimeFlux(m, dt, was, x)))
  }

  /** What the sources and the storage give, and connections on the boundary exchange. */
  ghost function Supply(m: Mesh, dt: real, was: Vector, x: Vector): real
    requires dt > 0.0
  {
    Sources(m, |m.elements|) + Released(m, dt, was, x, |m.elements|) + NeighboursTotal(m, OnNeighbours(Outer(m), Exchanged(m, x)))
  }

  lemma WithStorageSplits(m: Mesh, dt: real, was: Vector, x: Vector, on: nat -> bool)
    ensures SidesTotal(m, OnSides(on, WithStorage(m, dt, was, x)))
         == SidesTotal(m, OnSides(on, Flux(x))) + SidesTotal(m, OnSides(on, TimeFlux(m, dt, was, x)))
  {
    TotalAdds(m.elements, SidesOf(), OnSides(on, Flux(x)), OnSides(on, TimeFlux(m, dt, was, x)),
              OnSides(on, WithStorage(m, dt, was, x)), |m.elements|);
  }

  /** The balance when the system was assembled with the data of `m` and the postprocessing reads those of `d`. */
  lemma DataBalance(m: Mesh, d: Mesh, l: Linear, dt: real, was: Vector, x: Vector, y: Vector)
    requires Step(m, l, dt, was, x) && SameShape(m, d) && Postprocessed(d, dt, was, x, y)
    ensures BoundaryFlux(m, y)
         == Supply(m, dt, was, x) + StorageDrift(m, d, dt, was, x) - SidesTotal(d, OnSides(Outer(d), Share()))
  {
    OuterConserves(m, l, dt, was, x);
    CorrectedOn(d, dt, was, x, y, Outer(d));
    WithStorageSplits(m, dt, was, x, Outer(m));
    WithStorageSplits(d, dt, was, x, Outer(d));
    SameFluxes(m, d, Outer(d), x, |m.elements|);
    SameFluxes(m, d, Outer(d), y, |m.elements|);
    SameOuter(m, d, x);
    SameOuter(m, d, y);
  }

  lemma SameOuter(m: Mesh, d: Mesh, y: Vector)
    requires d.edges == m.edges
    ensures SidesTotal(m, OnSides(Outer(d), Flux(y))) == SidesTotal(m, OnSides(Outer(m), Flux(y)))
  {
    TotalSame(m.elements, SidesOf(), OnSides(Outer(d), Flux(y)), OnSides(Outer(m), Flux(y)));
  }

  /** With data that change, water is conserved exactly when the change of the stored water makes up for the shares of sources. */
  lemma DataConservedIff(m: Mesh, d: Mesh, l: Linear, dt: real, was: Vector, x: Vector, y: Vector)
    requires Step(m, l, dt, was, x) && SameShape(m, d) && Postprocessed(d, dt, was, x, y)
    ensures BoundaryFlux(m, y) == Supply(m, dt, was, x)
       <==> StorageDrift(m, d, dt, was, x) == SidesTotal(d, OnSides(Outer(d), Share()))
    ensures BoundaryFlux(m, y) == Supply(d, dt, was, x)
       <==> Supply(m, dt, was, x) + StorageDrift(m, d, dt, was, x)
            == Supply(d, dt, was, x) + SidesTotal(d, OnSides(Outer(d), Share()))
  {
    DataBalance(m, d, l, dt, was, x, y);
  }

  /** Every element with a side on the boundary keeps its storage per unit of measure. */
  ghost predicate OuterStorageKept(m: Mesh, d: Mesh) {
    && SameShape(m, d)
    && forall k, i | m.IsSide(k, i) && Outer(m)(m.SideAt(k, i).edge) :: SameStorage(m.elements[k], d.elements[k])
  }

  predicate SameStorage(e: Element, d: Element) {
    d.crossSection == e.crossSection && d.storativity == e.storativity
  }

  lemma SameCoefficient(e: Element, d: Element, dt: real)
    requires SameElement(e, d) && SameStorage(e, d)
    ensures TimeCoefficient(d, dt) == TimeCoefficient(e, dt)
  {
    hide Coefficient;
  }

  /** At every side of the boundary the storage is kept or the step changes no pressure. */
  ghost predicate OuterSettled(m: Mesh, d: Mesh, was: Vector, x: Vector) {
    && SameShape(m, d)
    && forall k, i | m.IsSide(k, i) && Outer(m)(m.SideAt(k, i).edge) :: SideSettled(m, d, was, x, k, i)
  }

  ghost predicate SideSettled(m: Mesh, d: Mesh, was: Vector, x: Vector, k: nat, i: nat)
    requires SameShape(m, d) && m.IsSide(k, i)
  {
    SameStorage(m.elements[k], d.elements[k]) || Trace(m, m.SideAt(k, i).edge, x) == Trace(m, m.SideAt(k, i).edge, was)
  }

  lemma {:induction false} NoDriftOfPart(m: Mesh, d: Mesh, dt: real, was: Vector, x: Vector, k: nat, n: nat)
    requires OuterSettled(m, d, was, x) && k < |m.elements| && n <= |m.elements[k].sides|
    ensures SameElement(m.elements[k], d.elements[k])
    ensures Part(d.elements[k], d.elements[k].sides, OnSides(Outer(d), TimeFlux(d, dt, was, x)), n)
         == Part(m.elements[k], m.elements[k].sides, OnSides(Outer(m), TimeFlux(m, dt, was, x)), n)
  {
    assert SameElement(m.elements[k], d.elements[k]);
    if n > 0 {
      NoDriftOfPart(m, d, dt, was, x, k, n - 1);
      var e, f, s := m.elements[k], d.elements[k], m.SideAt(k, n - 1);
      if Outer(m)(s.edge) {
        assert SideSettled(m, d, was, x, k, n - 1);
        SettledFlux(m, d, e, f, s.edge, dt, was, x);
      }
    }
  }

  lemma SettledFlux(m: Mesh, d: Mesh, e: Element, f: Element, j: nat, dt: real, was: Vector, x: Vector)
    requires SameShape(m, d) && SameElement(e, f) && (SameStorage(e, f) || Trace(m, j, x) == Trace(m, j, was))
    ensures StoredFlux(d, f, j, dt, was, x) == StoredFlux(m, e, j, dt, was, x)
  {
    if SameStorage(e, f) {
      SameCoefficient(e, f, dt);
    } else {
      ProductIsZero(TimeCoefficient(e, dt), Trace(m, j, x) - Trace(m, j, was));
      ProductIsZero(TimeCoefficient(f, dt), Trace(m, j, x) - Trace(m, j, was));
    }
  }

  lemma {:induction false} NoDrift(m: Mesh, d: Mesh, dt: real, was: Vector, x: Vector, k: nat)
    requires OuterSettled(m, d, was, x) && k <= |m.elements|
    ensures Total(d.elements, SidesOf(), OnSides(Outer(d), TimeFlux(d, dt, was, x)), k)
         == Total(m.elements, SidesOf(), OnSides(Outer(m), TimeFlux(m, dt, was, x)), k)
  {
    if k > 0 {
      NoDrift(m, d, dt, was, x, k - 1);
      NoDriftOfPart(m, d, dt, was, x, k - 1, |m.elements[k - 1].sides|);
    }
  }

  /** The side is held at a pressure that it already had before the step. */
  ghost predicate Held(m: Mesh, dt: real, was: Vector, k: nat, i: nat)
    requires m.IsSide(k, i)
  {
    && Alone(m, k, i) && m.SideAt(k, i).bc.Dirichlet? && TimeCoefficient(m.elements[k], dt) != 1.0
    && Trace(m, m.SideAt(k, i).edge, was) == m.SideAt(k, i).bc.pressure
  }

  /** At every side of the boundary the storage is kept or the pressure is held, as can be told before the step. */
  ghost predicate OuterKnown(m: Mesh, d: Mesh, dt: real, was: Vector) {
    && SameShape(m, d)
    && forall k, i | m.IsSide(k, i) && Outer(m)(m.SideAt(k, i).edge) ::
         SameStorage(m.elements[k], d.elements[k]) || Held(m, dt, was, k, i)
  }

  /** Where the storage at the boundary is kept or the pressure held, only the sources read by the postprocessing decide. */
  lemma KnownBoundaryConservesIff(m: Mesh, d: Mesh, l: Linear, dt: real, was: Vector, x: Vector, y: Vector)
    requires Step(m, l, dt, was, x) && OuterKnown(m, d, dt, was) && Postprocessed(d, dt, was, x, y)
    ensures BoundaryFlux(m, y) == Supply(m, dt, was, x) <==> SidesTotal(d, OnSides(Outer(d), Share())) == 0.0
  {
    hide Step, Postprocessed, Alone, Supply, BoundaryFlux;
    forall k, i | m.IsSide(k, i) && Outer(m)(m.SideAt(k, i).edge)
      ensures SideSettled(m, d, was, x, k, i)
    {
      if !SameStorage(m.elements[k], d.elements[k]) {
        assert Held(m, dt, was, k, i);
        PressureConditionHoldsIff(m, l, dt, was, x, k, i);
      }
    }
    NoDrift(m, d, dt, was, x, |m.elements|);
    DataConservedIff(m, d, l, dt, was, x, y);
  }

  /** In particular where the storage is kept on the whole boundary. */
  lemma KeptStorageConservesIff(m: Mesh, d: Mesh, l: Linear, dt: real, was: Vector, x: Vector, y: Vector)
    requires Step(m, l, dt, was, x) && OuterStorageKept(m, d) && Postprocessed(d, dt, was, x, y)
    ensures BoundaryFlux(m, y) == Supply(m, dt, was, x) <==> SidesTotal(d, OnSides(Outer(d), Share())) == 0.0
  {
    KnownBoundaryConservesIff(m, d, l, dt, was, x, y);
  }

  // ---------------------------------------------------------------- data that stay

  /**
   * The balance of the mesh after the postprocessing: what leaves through the boundary is what the sources and the storage give,
   * and the exchange with connections that lie on the boundary, less the shares of the sources on boundary sides.
   */
  lemma MassBalance(m: Mesh, l: Linear, dt: real, was: Vector, x: Vector, y: Vector)
    requires Step(m, l, dt, was, x) && Postprocessed(m, dt, was, x, y)
    ensures BoundaryFlux(m, y)
         == Sources(m, |m.elements|) + Released(m, dt, was, x, |m.elements|)
            + NeighboursTotal(m, OnNeighbours(Outer(m), Exchanged(m, x))) - SidesTotal(m, OnSides(Outer(m), Share()))
  {
    OuterConserves(m, l, dt, was, x);
    CorrectedOn(m, dt, was, x, y, Outer(m));
  }

  lemma NoneOnBoundary(m: Mesh, x: Vector)
    requires forall e <- m.elements, n <- e.neighbours :: !Outer(m)(n.edge)
    ensures NeighboursTotal(m, OnNeighbours(Outer(m), Exchanged(m, x))) == 0.0
  {
    var z := OnNeighbours(Outer(m), Exchanged(m, x));
    TotalScales(m.elements, NeighboursOf(), z, z, 1.0, 0.0, |m.elements|);
  }

  /** Water is conserved exactly when the shares of the sources on the boundary sides sum to zero. */
  lemma MassConservedIff(m: Mesh, l: Linear, dt: real, was: Vector, x: Vector, y: Vector)
    requires Step(m, l, dt, was, x) && Postprocessed(m, dt, was, x, y)
    requires forall e <- m.elements, n <- e.neighbours :: !Outer(m)(n.edge)
    ensures BoundaryFlux(m, y) == Sources(m, |m.elements|) + Released(m, dt, was, x, |m.elements|)
       <==> SidesTotal(m, OnSides(Outer(m), Share())) == 0.0
  {
    MassBalance(m, l, dt, was, x, y);
    NoneOnBoundary(m, x);
  }

  /** Without sources nothing is lost: the boundary gives exactly what the storage releases. */
  lemma MassConservedWithoutSources(m: Mesh, l: Linear, dt: real, was: Vector, x: Vector, y: Vector)
    requires Step(m, l, dt, was, x) && Postprocessed(m, dt, was, x, y)
    requires forall e <- m.elements, n <- e.neighbours :: !Outer(m)(n.edge)
    requires forall e <- m.elements :: e.source == 0.0
    ensures BoundaryFlux(m, y) == Released(m, dt, was, x, |m.elements|)
  {
    MassConservedIff(m, l, dt, was, x, y);
    NoSources(m, |m.elements|);
    forall e, s | e in m.elements && s in e.sides
      ensures Ratio(OnSides(Outer(m), Share())(e, s), 1.0, OnSides(Outer(m), Share())(e, s), 0.0)
    {
      NothingShared(e);
    }
    TotalScales(m.elements, SidesOf(), OnSides(Outer(m), Share()), OnSides(Outer(m), Share()), 1.0, 0.0, |m.elements|);
  }

  lemma NothingShared(e: Element)
    requires e.source == 0.0
    ensures SourceOf(e) == 0.0 && SourceShare(e) == 0.0
  {
  }

  lemma {:induction false} NoSources(m: Mesh, k: nat)
    requires k <= |m.elements| && forall e <- m.elements :: e.source == 0.0
    ensures Sources(m, k) == 0.0
  {
    if k > 0 {
      NoSources(m, k - 1);
      assert m.elements[k - 1] in m.elements;
      NothingShared(m.elements[k - 1]);
    }
  }

  /** On an inner edge without connections the corrected fluxes cancel exactly when the shares of the sources do. */
  lemma InnerFluxesCancelIff(m: Mesh, l: Linear, dt: real, was: Vector, x: Vector, y: Vector, j: nat)
    requires Step(m, l, dt, was, x) && Postprocessed(m, dt, was, x, y) && Inner(m)(j)
    requires forall e <- m.elements, n <- e.neighbours :: n.edge != j
    ensures SidesTotal(m, OnSides(Only(j), Flux(y))) == 0.0 <==> SidesTotal(m, OnSides(Only(j), Share())) == 0.0
  {
    InnerEdgeConserves(m, l, dt, was, x, j);
    CorrectedOn(m, dt, was, x, y, Only(j));
    var z := OnNeighbours(Only(j), Exchanged(m, x));
    TotalScales(m.elements, NeighboursOf(), z, z, 1.0, 0.0, |m.elements|);
  }

  // ---------------------------------------------------------------- boundary conditions after the postprocessing

  /** Side `i` of element `k` is the only one on its edge, and no connection is. */
  ghost predicate Alone(m: Mesh, k: nat, i: nat) {
    && m.IsSide(k, i)
    && (forall e <- m.elements, n <- e.neighbours :: n.edge != m.SideAt(k, i).edge)
    && (forall l, q | m.IsSide(l, q) && m.SideAt(l, q).edge == m.SideAt(k, i).edge :: l == k && q == i)
  }

  lemma {:induction false} AloneInElement(m: Mesh, k: nat, i: nat, f: SideFn, l: nat, n: nat)
    requires Alone(m, k, i) && l < |m.elements| && n <= |m.elements[l].sides|
    ensures Part(m.elements[l], m.elements[l].sides, OnSides(Only(m.SideAt(k, i).edge), f), n)
         == if l == k && i < n then f(m.elements[k], m.SideAt(k, i)) else 0.0
  {
    if n > 0 {
      AloneInElement(m, k, i, f, l, n - 1);
      assert m.IsSide(l, n - 1) && m.SideAt(l, n - 1) == m.elements[l].sides[n - 1];
    }
  }

  lemma {:induction false} AloneInTotal(m: Mesh, k: nat, i: nat, f: SideFn, l: nat)
    requires Alone(m, k, i) && l <= |m.elements|
    ensures Total(m.elements, SidesOf(), OnSides(Only(m.SideAt(k, i).edge), f), l)
         == if k < l then f(m.elements[k], m.SideAt(k, i)) else 0.0
  {
    if l > 0 {
      AloneInTotal(m, k, i, f, l - 1);
      AloneInElement(m, k, i, f, l - 1, |m.elements[l - 1].sides|);
    }
  }

  lemma AloneSettles(m: Mesh, l: Linear, dt: real, was: Vector, x: Vector, k: nat, i: nat)
    requires Step(m, l, dt, was, x) && Alone(m, k, i)
    ensures var e, s := m.elements[k], m.SideAt(k, i);
            Inflow(m, x)(e, s) + TimeFlux(m, dt, was, x)(e, s) == 0.0
  {
    var e, s := m.elements[k], m.SideAt(k, i);
    assert e in m.elements && s in e.sides && m.Fits(e);
    EdgeConserves(m, l, dt, was, x, s.edge);
    AloneInTotal(m, k, i, Inflow(m, x), |m.elements|);
    AloneInTotal(m, k, i, TimeFlux(m, dt, was, x), |m.elements|);
    var z := OnNeighbours(Only(s.edge), Exchanged(m, x));
    TotalScales(m.elements, NeighboursOf(), z, z, 1.0, 0.0, |m.elements|);
  }

  /** The flux a boundary condition asks for, given the pressure on the edge. */
  function Prescribed(e: Element, s: Side, trace: real): real {
    match s.bc
    case Neumann(measure, flux) => flux * measure * e.crossSection
    case Robin(measure, sigma, p) => measure * sigma * e.crossSection * (trace - p)
    case _ => 0.0
  }

  /** After the postprocessing a flux condition holds up to the share of the source of its element. */
  lemma FluxConditionHolds(m: Mesh, l: Linear, dt: real, was: Vector, x: Vector, y: Vector, k: nat, i: nat)
    requires Step(m, l, dt, was, x) && Postprocessed(m, dt, was, x, y) && Alone(m, k, i) && !m.SideAt(k, i).bc.Dirichlet?
    ensures var e, s := m.elements[k], m.SideAt(k, i);
            At(y, s.row) == Prescribed(e, s, Trace(m, s.edge, x)) - SourceShare(e)
  {
    var e, s := m.elements[k], m.SideAt(k, i);
    AloneSettles(m, l, dt, was, x, k, i);
    assert e in m.elements && s in e.sides;
    assert Flux(y)(e, s) == Corrected(m, dt, was, x)(e, s);
    LawIsPrescribed(e, s, Trace(m, s.edge, x));
  }

  lemma LawIsPrescribed(e: Element, s: Side, trace: real)
    ensures !s.bc.Dirichlet? ==> EdgeLaw(e, s, trace) == -Prescribed(e, s, trace)
  {
    if s.bc.Robin? {
      var c, p := s.bc.measure * s.bc.sigma * e.crossSection, s.bc.pressure;
      assert c * (p - trace) == -(c * (trace - p));
    }
  }

  /** Data that are not negative give a storage that takes water up. */
  lemma CoefficientNotPositive(e: Element, dt: real)
    requires e.measure >= 0.0 && e.crossSection >= 0.0 && e.storativity >= 0.0
    ensures TimeCoefficient(e, dt) <= 0.0
  {
    if |e.sides| > 0 && dt > 0.0 {
      var a, n := e.measure * e.crossSection * e.storativity, |e.sides| as real;
      assert -e.measure * e.crossSection * e.storativity == -a;
      QuotientNotPositive(-a, dt);
      QuotientNotPositive(-a / dt, n);
    }
  }

  lemma QuotientNotPositive(x: real, y: real)
    requires x <= 0.0 && y > 0.0
    ensures x / y <= 0.0
  {
  }

  /**
   * A step meets a pressure condition exactly when nothing is stored at the edge or the pressure was already the prescribed one:
   * the row of the edge gets the time term too.
   */
  lemma PressureConditionHoldsIff(m: Mesh, l: Linear, dt: real, was: Vector, x: Vector, k: nat, i: nat)
    requires Step(m, l, dt, was, x) && Alone(m, k, i) && m.SideAt(k, i).bc.Dirichlet?
    requires TimeCoefficient(m.elements[k], dt) != 1.0
    ensures var e, s := m.elements[k], m.SideAt(k, i);
            Trace(m, s.edge, x) == s.bc.pressure
            <==> TimeCoefficient(e, dt) == 0.0 || Trace(m, s.edge, was) == s.bc.pressure
  {
    var e, s := m.elements[k], m.SideAt(k, i);
    AloneSettles(m, l, dt, was, x, k, i);
    PressureSettles(s.bc.pressure, TimeCoefficient(e, dt), Trace(m, s.edge, x), Trace(m, s.edge, was));
  }

  lemma PressureSettles(p: real, c: real, x: real, was: real)
    requires p - x + c * (x - was) == 0.0 && c != 1.0
    ensures x == p <==> c == 0.0 || was == p
  {
    ProductIsZero(c, p - was);
    ProductIsZero(1.0 - c, p - x);
    assert x == p ==> c * (p - was) == 0.0;
    assert was == p ==> (1.0 - c) * (p - x) == 0.0;
  }

  lemma ProductIsZero(a: real, b: real)
    ensures a * b == 0.0 <==> a == 0.0 || b == 0.0
  {
  }
}
