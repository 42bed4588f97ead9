/** What the rows of the sides say: the law of Darcy with gravity, and water at rest. */
module DarcyLaw {
  import opened Matrices
  import opened Assembly
  import opened Conservation
  import T = TimeTerm

  // ---------------------------------------------------------------- rows of sides

  /** Heights of the centres of the elements and of their sides. */
  datatype Heights = Heights(elements: seq<real>, sides: seq<seq<real>>) {
    ghost predicate Fit(m: Mesh) {
      && |elements| == |sides| == |m.elements| && (forall k | 0 <= k < |sides| :: |sides[k]| == |m.elements[k].sides|)
      && forall k, i | m.IsSide(k, i) :: m.SideAt(k, i).lift == elements[k] - sides[k][i]
    }
  }

  /** The fluxes through the sides of an element. */
  function Fluxes(e: Element, x: Vector): (q: Vector)
    ensures |q| == |e.sides|
  {
    seq(|e.sides|, i requires 0 <= i < |e.sides| => At(x, e.sides[i].row))
  }

  lemma {:induction false} DotFromEnd(a: Vector, b: Vector)
    requires |a| == |b| > 0
    ensures T.Dot(a, b) == T.Dot(a[..|a| - 1], b[..|b| - 1]) + a[|a| - 1] * b[|b| - 1]
    decreases |a|
  {
    if |a| > 1 {
      DotFromEnd(a[1..], b[1..]);
      assert a[1..][..|a| - 2] == a[..|a| - 1][1..] && b[1..][..|b| - 2] == b[..|b| - 1][1..];
    } else {
      assert T.Dot(a[1..], b[1..]) == 0.0;
    }
  }

  lemma {:induction false} LocalDotIsDot(e: Element, i: nat, k: nat, x: Vector)
    requires Square(e.localMatrix, |e.sides|) && i < |e.sides| && k <= |e.sides|
    ensures LocalDot(e, i, k, x) == T.Dot(e.localMatrix[i][..k], Fluxes(e, x)[..k])
  {
    if k > 0 {
      LocalDotIsDot(e, i, k - 1, x);
      var a, b := e.localMatrix[i][..k], Fluxes(e, x)[..k];
      DotFromEnd(a, b);
      assert a[..k - 1] == e.localMatrix[i][..k - 1] && b[..k - 1] == Fluxes(e, x)[..k - 1];
    }
  }

  /** The pressure on the edge of a side: the prescribed one where there is one. */
  function EdgePressure(m: Mesh, s: Side, x: Vector): real {
    if s.bc.Dirichlet? then s.bc.pressure else At(x, EdgeRow(m, s.edge))
  }

  /** Only the side itself has its row. */
  lemma RowIsOwn(m: Mesh, k: nat, i: nat, l: nat, q: nat)
    requires m.Valid() && m.Linked() && m.IsSide(k, i) && m.IsSide(l, q)
    ensures var r := m.SideAt(k, i).row;
            && (m.SideAt(l, q).row == r <==> l == k && q == i) && EdgeRow(m, m.SideAt(l, q).edge) != r
            && m.elements[l].row != r && r < m.size
  {
    var e, f, s, u := m.elements[k], m.elements[l], m.SideAt(k, i), m.SideAt(l, q);
    assert e in m.elements && f in m.elements && m.Fits(e) && m.Fits(f) && s in e.sides && u in f.sides;
    assert m.edges[u.edge] in m.edges;
  }

  lemma {:induction false} SidesAtSideRow(m: Mesh, k: nat, i: nat, l: nat, n: nat, x: Vector)
    requires m.Valid() && m.Linked() && m.IsSide(k, i) && l < |m.elements| && n <= |m.elements[l].sides|
    ensures Square(m.elements[l].localMatrix, |m.elements[l].sides|)
    ensures var e, s := m.elements[l], m.SideAt(k, i);
            && SidesPart(m, e, n, s.row, x)
               == (if l == k && i < n then EdgePressure(m, s, x) - At(x, e.row) - s.lift else 0.0)
            && LocalPart(e, n, s.row, x) == if l == k && i < n then LocalDot(e, i, |e.sides|, x) else 0.0
  {
    assert m.elements[l] in m.elements && m.Fits(m.elements[l]);
    if n > 0 {
      SidesAtSideRow(m, k, i, l, n - 1, x);
      assert m.IsSide(l, n - 1) && m.SideAt(l, n - 1) == m.elements[l].sides[n - 1];
      RowIsOwn(m, k, i, l, n - 1);
    }
  }

  lemma {:induction false} NeighboursAtSideRow(m: Mesh, k: nat, i: nat, l: nat, n: nat, x: Vector)
    requires m.Valid() && m.Linked() && m.IsSide(k, i) && l < |m.elements| && n <= |m.elements[l].neighbours|
    ensures NeighboursPart(m, m.elements[l], n, m.SideAt(k, i).row, x) == 0.0
  {
    if n > 0 {
      NeighboursAtSideRow(m, k, i, l, n - 1, x);
      var e, f, s := m.elements[k], m.elements[l], m.SideAt(k, i);
      var nb := f.neighbours[n - 1];
      assert e in m.elements && f in m.elements && m.Fits(f) && s in e.sides && nb in f.neighbours && m.edges[nb.edge] in m.edges;
    }
  }

  lemma PartAtSideRow(m: Mesh, k: nat, i: nat, l: nat, x: Vector)
    requires m.Valid() && m.Linked() && m.IsSide(k, i) && l < |m.elements|
    ensures Square(m.elements[l].localMatrix, |m.elements[l].sides|)
    ensures var e, s := m.elements[l], m.SideAt(k, i);
            ElementPart(m, e, s.row, x)
            == if l == k then LocalDot(e, i, |e.sides|, x) + EdgePressure(m, s, x) - At(x, e.row) - s.lift else 0.0
  {
    var f := m.elements[l];
    assert f in m.elements && m.Fits(f);
    SidesAtSideRow(m, k, i, l, |f.sides|, x);
    NeighboursAtSideRow(m, k, i, l, |f.neighbours|, x);
    assert m.IsSide(l, 0);
    RowIsOwn(m, k, i, l, 0);
  }

  lemma {:induction false} BalanceOfSide(m: Mesh, k: nat, i: nat, x: Vector, l: nat)
    requires m.Valid() && m.Linked() && m.IsSide(k, i) && l <= |m.elements|
    ensures Square(m.elements[k].localMatrix, |m.elements[k].sides|)
    ensures var e, s := m.elements[k], m.SideAt(k, i);
            Balance(m, l, s.row, x)
            == if k < l then LocalDot(e, i, |e.sides|, x) + EdgePressure(m, s, x) - At(x, e.row) - s.lift else 0.0
  {
    hide ElementPart, LocalDot, EdgePressure, Mesh.Linked, Mesh.RowsApart, Mesh.Fits;
    PartAtSideRow(m, k, i, k, x);
    if l > 0 {
      BalanceOfSide(m, k, i, x, l - 1);
      PartAtSideRow(m, k, i, l - 1, x);
    }
  }

  /**
   * The law of Darcy: the row of a side says that the row of the local matrix applied to the fluxes is the head in the element,
   * pressure and height, less the head on the edge.
   */
  lemma SideRowIsDarcyLaw(m: Mesh, l: Linear, z: Heights, x: Vector, k: nat, i: nat)
    requires m.Valid() && m.Linked() && Assembled(m, l) && z.Fit(m) && |x| == m.size && m.IsSide(k, i)
    ensures var e, s := m.elements[k], m.SideAt(k, i);
            && s.row < |l.rhs| && Square(e.localMatrix, |e.sides|) && e.row < m.size
            && Residual(l, s.row, x)
               == T.Dot(e.localMatrix[i], Fluxes(e, x)) + (EdgePressure(m, s, x) + z.sides[k][i]) - (x[e.row] + z.elements[k])
  {
    var e, s := m.elements[k], m.SideAt(k, i);
    assert e in m.elements && m.Fits(e) && s in e.sides;
    BalanceOfSide(m, k, i, x, |m.elements|);
    LocalDotIsDot(e, i, |e.sides|, x);
    assert e.localMatrix[i][..|e.sides|] == e.localMatrix[i] && Fluxes(e, x)[..|e.sides|] == Fluxes(e, x);
    assert Residual(l, s.row, x) == Balance(m, |m.elements|, s.row, x);
  }

  // ---------------------------------------------------------------- water at rest

  /** The head is `h` everywhere and nothing flows; `w` are the heights of the edges. */
  ghost predicate AtRest(m: Mesh, z: Heights, w: seq<real>, h: real, x: Vector)
    requires z.Fit(m)
  {
    && |x| == m.size && |w| == |m.edges|
    && (forall k, i | m.IsSide(k, i) :: At(x, m.SideAt(k, i).row) == 0.0)
    && (forall k | 0 <= k < |m.elements| :: At(x, m.elements[k].row) == h - z.elements[k])
    && (forall j | 0 <= j < |m.edges| :: At(x, m.edges[j].row) == h - w[j])
  }

  /** The surroundings are at rest too: sides have the heights of their edges, conditions fit the head, and there are no sources. */
  ghost predicate Calm(m: Mesh, z: Heights, w: seq<real>, h: real)
    requires z.Fit(m) && |w| == |m.edges|
  {
    && (forall k, i | m.IsSide(k, i) && m.SideAt(k, i).edge < |w| :: z.sides[k][i] == w[m.SideAt(k, i).edge])
    && (forall k, i | m.IsSide(k, i) :: Fitting(m.SideAt(k, i).bc, h - z.sides[k][i]))
    && (forall k | 0 <= k < |m.elements| :: m.elements[k].source == 0.0 && Level(m, w, z.elements[k], m.elements[k]))
  }

  /** A boundary condition that a pressure without flux fulfils. */
  predicate Fitting(bc: Boundary, p: real) {
    match bc
    case Dirichlet(pressure) => pressure == p
    case Neumann(_, flux) => flux == 0.0
    case Robin(_, _, pressure) => pressure == p
    case _ => true
  }

  /** The edges an element exchanges water with lie at its height. */
  ghost predicate Level(m: Mesh, w: seq<real>, height: real, e: Element)
    requires |w| == |m.edges|
  {
    forall n <- e.neighbours :: n.edge < |w| ==> w[n.edge] == height
  }

  lemma {:induction false} NoFluxes(row: Vector, q: Vector)
    requires |row| == |q| && forall i | 0 <= i < |q| :: q[i] == 0.0
    ensures T.Dot(row, q) == 0.0
    decreases |q|
  {
    if q != [] {
      NoFluxes(row[1..], q[1..]);
    }
  }

  /** Water at rest fulfils the row of every side of every mesh. */
  lemma RestInSides(m: Mesh, l: Linear, z: Heights, w: seq<real>, h: real, x: Vector, k: nat, i: nat)
    requires m.Valid() && m.Linked() && Assembled(m, l) && z.Fit(m) && AtRest(m, z, w, h, x) && Calm(m, z, w, h) && m.IsSide(k, i)
    ensures m.SideAt(k, i).row < |l.rhs| && Residual(l, m.SideAt(k, i).row, x) == 0.0
  {
    var e, s := m.elements[k], m.SideAt(k, i);
    assert e in m.elements && m.Fits(e) && s in e.sides;
    SideRowIsDarcyLaw(m, l, z, x, k, i);
    forall q | 0 <= q < |e.sides|
      ensures Fluxes(e, x)[q] == 0.0
    {
      assert m.IsSide(k, q) && m.SideAt(k, q) == e.sides[q];
    }
    NoFluxes(e.localMatrix[i], Fluxes(e, x));
    assert Fitting(s.bc, h - z.sides[k][i]);
  }

  lemma {:induction false} NothingInPart<X(!new)>(e: Element, items: seq<X>, f: (Element, X) -> real, n: nat)
    requires n <= |items| && forall s <- items :: f(e, s) == 0.0
    ensures Part(e, items, f, n) == 0.0
  {
    if n > 0 {
      NothingInPart(e, items, f, n - 1);
      assert items[n - 1] in items;
    }
  }

  lemma {:induction false} NothingInTotal<X(!new)>(es: seq<Element>, items: Element -> seq<X>, f: (Element, X) -> real, k: nat)
    requires k <= |es| && forall e <- es, s <- items(e) :: f(e, s) == 0.0
    ensures Total(es, items, f, k) == 0.0
  {
    if k > 0 {
      NothingInTotal(es, items, f, k - 1);
      assert es[k - 1] in es;
      NothingInPart(es[k - 1], items(es[k - 1]), f, |items(es[k - 1])|);
    }
  }

  lemma FluxesAtRest(m: Mesh, x: Vector, k: nat)
    requires k < |m.elements| && forall q, i | m.IsSide(q, i) :: At(x, m.SideAt(q, i).row) == 0.0
    ensures var e := m.elements[k]; Part(e, e.sides, Flux(x), |e.sides|) == 0.0
  {
    var e := m.elements[k];
    forall s | s in e.sides
      ensures Flux(x)(e, s) == 0.0
    {
      var i :| 0 <= i < |e.sides| && e.sides[i] == s;
      assert m.IsSide(k, i) && m.SideAt(k, i) == s;
    }
    NothingInPart(e, e.sides, Flux(x), |e.sides|);
  }

  lemma ExchangeAtRest(m: Mesh, z: Heights, w: seq<real>, h: real, x: Vector, k: nat, n: Neighbour)
    requires m.Valid() && z.Fit(m) && AtRest(m, z, w, h, x) && Calm(m, z, w, h) && k < |m.elements| && n in m.elements[k].neighbours
    ensures Exchanged(m, x)(m.elements[k], n) == 0.0
  {
    var e := m.elements[k];
    assert e in m.elements && m.Fits(e) && Level(m, w, z.elements[k], e);
    assert Trace(m, n.edge, x) == At(x, m.edges[n.edge].row);
    assert Trace(m, n.edge, x) - At(x, e.row) == 0.0;
  }

  /** And the row of every element. */
  lemma RestInElements(m: Mesh, l: Linear, z: Heights, w: seq<real>, h: real, x: Vector, k: nat)
    requires m.Valid() && m.Linked() && Assembled(m, l) && z.Fit(m) && AtRest(m, z, w, h, x) && Calm(m, z, w, h) && k < |m.elements|
    ensures m.elements[k].row < |l.rhs| && Residual(l, m.elements[k].row, x) == 0.0
  {
    var e := m.elements[k];
    assert e in m.elements && m.Fits(e);
    BalanceOfElement(m, k, x, |m.elements|);
    FluxesAtRest(m, x, k);
    assert e.source == 0.0;
    assert Residual(l, e.row, x) == Balance(m, |m.elements|, e.row, x);
    hide Exchanged, Mesh.RowsApart, Mesh.Linked, Mesh.Fits, Residual, Balance;
    forall n | n in e.neighbours
      ensures Exchanged(m, x)(e, n) == 0.0
    {
      ExchangeAtRest(m, z, w, h, x, k, n);
    }
    NothingInPart(e, e.neighbours, Exchanged(m, x), |e.neighbours|);
    assert NetInflow(m, e, x) == 0.0;
  }

  lemma InflowAtRest(m: Mesh, z: Heights, w: seq<real>, h: real, x: Vector, e: Element, s: Side)
    requires m.Valid() && z.Fit(m) && AtRest(m, z, w, h, x) && Calm(m, z, w, h) && e in m.elements && s in e.sides
    ensures Inflow(m, x)(e, s) == 0.0
  {
    var k :| 0 <= k < |m.elements| && m.elements[k] == e;
    var i :| 0 <= i < |e.sides| && e.sides[i] == s;
    assert m.Fits(e) && m.IsSide(k, i) && m.SideAt(k, i) == s;
    assert Fitting(s.bc, h - z.sides[k][i]) && z.sides[k][i] == w[s.edge];
    assert Trace(m, s.edge, x) == At(x, m.edges[s.edge].row) == h - w[s.edge];
    assert EdgeLaw(e, s, Trace(m, s.edge, x)) == 0.0;
  }

  lemma ExchangesAtRest(m: Mesh, z: Heights, w: seq<real>, h: real, x: Vector, j: nat)
    requires m.Valid() && z.Fit(m) && AtRest(m, z, w, h, x) && Calm(m, z, w, h)
    ensures Total(m.elements, NeighboursOf(), OnNeighbours(Only(j), Exchanged(m, x)), |m.elements|) == 0.0
  {
    forall e, n | e in m.elements && n in e.neighbours
      ensures OnNeighbours(Only(j), Exchanged(m, x))(e, n) == 0.0
    {
      var k :| 0 <= k < |m.elements| && m.elements[k] == e;
      ExchangeAtRest(m, z, w, h, x, k, n);
    }
    NothingInTotal(m.elements, NeighboursOf(), OnNeighbours(Only(j), Exchanged(m, x)), |m.elements|);
  }

  lemma InflowsAtRest(m: Mesh, z: Heights, w: seq<real>, h: real, x: Vector, j: nat)
    requires m.Valid() && z.Fit(m) && AtRest(m, z, w, h, x) && Calm(m, z, w, h)
    ensures Total(m.elements, SidesOf(), OnSides(Only(j), Inflow(m, x)), |m.elements|) == 0.0
  {
    forall e, s | e in m.elements && s in e.sides
      ensures OnSides(Only(j), Inflow(m, x))(e, s) == 0.0
    {
      InflowAtRest(m, z, w, h, x, e, s);
    }
    NothingInTotal(m.elements, SidesOf(), OnSides(Only(j), Inflow(m, x)), |m.elements|);
  }

  /** And the row of every edge: water at rest solves the assembled system. */
  lemma RestInEdges(m: Mesh, l: Linear, z: Heights, w: seq<real>, h: real, x: Vector, j: nat)
    requires m.Valid() && m.Linked() && Assembled(m, l) && z.Fit(m) && AtRest(m, z, w, h, x) && Calm(m, z, w, h) && j < |m.edges|
    ensures m.edges[j].row < |l.rhs| && Residual(l, m.edges[j].row, x) == 0.0
  {
    hide AtRest, Calm, Heights.Fit;
    assert m.edges[j] in m.edges;
    BalanceOfEdge(m, j, x, |m.elements|);
    InflowsAtRest(m, z, w, h, x, j);
    ExchangesAtRest(m, z, w, h, x, j);
    RestSized(m, z, w, h, x);
    assert Residual(l, m.edges[j].row, x) == Balance(m, |m.elements|, m.edges[j].row, x);
  }

  lemma RestSized(m: Mesh, z: Heights, w: seq<real>, h: real, x: Vector)
    requires z.Fit(m) && AtRest(m, z, w, h, x)
    ensures |x| == m.size
  {
  }
}
