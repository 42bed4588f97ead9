/** Assembly of the mixed-hybrid Darcy system: every row of it says the balance of a side, an element or an edge. */
module Assembly {
  import opened Matrices
  import T = TimeTerm

  // ---------------------------------------------------------------- the mesh with its data

  datatype Boundary =
    | Inner
    | NoFlow
    | Dirichlet(pressure: real)
    | Neumann(measure: real, flux: real)
    | Robin(measure: real, sigma: real, pressure: real)

  /** A side of an element: its row, its edge, its boundary condition, the height of the centre of the element above it. */
  datatype Side = Side(row: nat, edge: nat, bc: Boundary, lift: real)

  /** Coupling of an element with an edge of elements of higher dimension. */
  datatype Neighbour = Neighbour(edge: nat, sigma: real, sideMeasure: real, sideCrossSection: real) {
    function Value(): real { sigma * sideMeasure * sideCrossSection }
  }

  datatype Element = Element(
    row: nat, sides: seq<Side>, neighbours: seq<Neighbour>, localMatrix: Matrix,
    measure: real, crossSection: real, storativity: real, source: real, initPressure: real)

  /** An edge lists its sides as pairs of an element and a side of it. */
  datatype Edge = Edge(row: nat, outer: bool, sides: seq<(nat, nat)>)

  /** The elements in the order of the assembly loops. */
  datatype Mesh = Mesh(size: nat, elements: seq<Element>, edges: seq<Edge>) {
    predicate IsSide(k: int, i: int) {
      0 <= k < |elements| && 0 <= i < |elements[k].sides|
    }

    function SideAt(k: nat, i: nat): Side
      requires IsSide(k, i)
    {
      elements[k].sides[i]
    }

    ghost predicate ElementsFit() {
      forall e <- elements :: Fits(e)
    }

    ghost predicate Fits(e: Element) {
      && e.row < size && |e.sides| > 0 && Square(e.localMatrix, |e.sides|)
      && (forall s <- e.sides :: s.row < size && s.edge < |edges| && (s.bc.Inner? <==> !edges[s.edge].outer))
      && (forall n <- e.neighbours :: n.edge < |edges|)
    }

    ghost predicate EdgesFit() {
      forall edge <- edges :: edge.row < size
    }

    /** Rows of elements and edges are distinct, and no side has one of them. */
    ghost predicate RowsApart() {
      && (forall k, l | 0 <= k < l < |elements| :: elements[k].row != elements[l].row)
      && (forall j, l | 0 <= j < l < |edges| :: edges[j].row != edges[l].row)
      && (forall e <- elements, edge <- edges :: e.row != edge.row)
      && (forall e <- elements, s <- e.sides, o <- elements :: s.row != o.row)
      && (forall e <- elements, s <- e.sides, edge <- edges :: s.row != edge.row)
    }

    ghost predicate Valid() {
      ElementsFit() && EdgesFit() && RowsApart()
    }

    /** Sides have rows of their own, and every edge lists exactly its sides, each once. */
    ghost predicate Linked() {
      && (forall k, i, l, q | IsSide(k, i) && IsSide(l, q) && SideAt(k, i).row == SideAt(l, q).row :: k == l && i == q)
      && (forall j, p | 0 <= j < |edges| && p in edges[j].sides :: IsSide(p.0, p.1) && SideAt(p.0, p.1).edge == j)
      && (forall k, i | IsSide(k, i) && SideAt(k, i).edge < |edges| :: (k, i) in edges[SideAt(k, i).edge].sides)
      && (forall edge <- edges, p, q | 0 <= p < q < |edge.sides| :: edge.sides[p] != edge.sides[q])
    }
  }

  // ---------------------------------------------------------------- balance of a row

  function At(x: Vector, i: nat): real {
    if i < |x| then x[i] else 0.0
  }

  function EdgeRow(m: Mesh, j: nat): nat {
    if j < |m.edges| then m.edges[j].row else m.size
  }

  /** Pressure on the edge of a side or a neighbour. */
  function Trace(m: Mesh, j: nat, x: Vector): real {
    At(x, EdgeRow(m, j))
  }

  /** The law of the edge on the boundary: what its row says besides the flux and the water stored. */
  function EdgeLaw(e: Element, s: Side, trace: real): real {
    match s.bc
    case Dirichlet(p) => p - trace
    case Neumann(measure, flux) => -flux * measure * e.crossSection
    case Robin(measure, sigma, p) => measure * sigma * e.crossSection * (p - trace)
    case _ => 0.0
  }

  function Coupling(s: Side): real {
    if s.bc.Dirichlet? then 0.0 else 1.0
  }

  /** What one side contributes to row `r`, the local matrix apart: Darcy law, flux into the edge, flux out of the element. */
  function SidePart(m: Mesh, e: Element, s: Side, r: nat, x: Vector): real {
    (if s.row == r then Coupling(s) * Trace(m, s.edge, x) - At(x, e.row) - s.lift + (if s.bc.Dirichlet? then s.bc.pressure else 0.0)
     else 0.0)
    + (if EdgeRow(m, s.edge) == r then Coupling(s) * At(x, s.row) + EdgeLaw(e, s, Trace(m, s.edge, x)) else 0.0)
    - (if e.row == r then At(x, s.row) else 0.0)
  }

  /** Exchange of an element with an edge of higher dimension. */
  function Exchange(m: Mesh, e: Element, n: Neighbour, x: Vector): real {
    n.Value() * (Trace(m, n.edge, x) - At(x, e.row))
  }

  function NeighbourPart(m: Mesh, e: Element, n: Neighbour, r: nat, x: Vector): real {
    (if e.row == r then Exchange(m, e, n, x) else 0.0) - (if EdgeRow(m, n.edge) == r then Exchange(m, e, n, x) else 0.0)
  }

  function SourceOf(e: Element): real {
    e.measure * e.crossSection * e.source
  }

  /** Row `i` of the local matrix applied to the fluxes through the first `k` sides. */
  function LocalDot(e: Element, i: nat, k: nat, x: Vector): real
    requires Square(e.localMatrix, |e.sides|) && i < |e.sides| && k <= |e.sides|
  {
    if k == 0 then 0.0 else LocalDot(e, i, k - 1, x) + e.localMatrix[i][k - 1] * At(x, e.sides[k - 1].row)
  }

  function LocalPart(e: Element, k: nat, r: nat, x: Vector): real
    requires Square(e.localMatrix, |e.sides|) && k <= |e.sides|
  {
    if k == 0 then 0.0
    else LocalPart(e, k - 1, r, x) + (if e.sides[k - 1].row == r then LocalDot(e, k - 1, |e.sides|, x) else 0.0)
  }

  function SidesPart(m: Mesh, e: Element, k: nat, r: nat, x: Vector): real
    requires k <= |e.sides|
  {
    if k == 0 then 0.0 else SidesPart(m, e, k - 1, r, x) + SidePart(m, e, e.sides[k - 1], r, x)
  }

  function NeighboursPart(m: Mesh, e: Element, k: nat, r: nat, x: Vector): real
    requires k <= |e.neighbours|
  {
    if k == 0 then 0.0 else NeighboursPart(m, e, k - 1, r, x) + NeighbourPart(m, e, e.neighbours[k - 1], r, x)
  }

  function ElementPart(m: Mesh, e: Element, r: nat, x: Vector): real
    requires Square(e.localMatrix, |e.sides|)
  {
    SidesPart(m, e, |e.sides|, r, x) + LocalPart(e, |e.sides|, r, x)
    + (if e.row == r then SourceOf(e) else 0.0) + NeighboursPart(m, e, |e.neighbours|, r, x)
  }

  /** The balance of row `r` for the values `x`, from the first `k` elements. */
  function Balance(m: Mesh, k: nat, r: nat, x: Vector): real
    requires m.ElementsFit() && k <= |m.elements|
  {
    if k == 0 then 0.0
    else
      assert m.Fits(m.elements[k - 1]);
      Balance(m, k - 1, r, x) + ElementPart(m, m.elements[k - 1], r, x)
  }

  // ---------------------------------------------------------------- assembly

  datatype Linear = Linear(matrix: Matrix, rhs: Vector) {
    predicate Sized() { Square(matrix, |rhs|) }
  }

  function Residual(l: Linear, r: nat, x: Vector): real
    requires l.Sized() && r < |l.rhs| == |x|
  {
    T.Dot(l.matrix[r], x) - l.rhs[r]
  }

  lemma {:induction false} DotZero(row: Vector, x: Vector)
    requires |row| == |x| && forall i | 0 <= i < |row| :: row[i] == 0.0
    ensures T.Dot(row, x) == 0.0
    decreases |x|
  {
    if x != [] {
      DotZero(row[1..], x[1..]);
    }
  }

  class LinSys {
    var matrix: Matrix
    var rhs: Vector

    function State(): Linear
      reads this
    {
      Linear(matrix, rhs)
    }

    constructor (n: nat)
      ensures State().Sized() && |rhs| == n
      ensures forall r, x: Vector | 0 <= r < n && |x| == n :: Residual(State(), r, x) == 0.0
    {
      matrix := seq(n, _ => seq(n, _ => 0.0));
      rhs := seq(n, _ => 0.0);
      new;
      forall r, x: Vector | 0 <= r < n && |x| == n
        ensures Residual(State(), r, x) == 0.0
      {
        DotZero(matrix[r], x);
      }
    }

    method MatSetValue(row: nat, col: nat, value: real)
      requires State().Sized() && row < |rhs| && col < |rhs|
      modifies this`matrix
      ensures State().Sized()
      ensures forall r, x: Vector | 0 <= r < |rhs| && |x| == |rhs| ::
                Residual(State(), r, x) == Residual(old(State()), r, x) + (if r == row then value * x[col] else 0.0)
    {
      ghost var was := matrix;
      matrix := matrix[row := matrix[row][col := matrix[row][col] + value]];
      forall x: Vector | |x| == |rhs|
        ensures T.Dot(matrix[row], x) == T.Dot(was[row], x) + value * x[col]
      {
        T.DotRaised(was[row], x, col, value);
      }
    }

    method RhsSetValue(row: nat, value: real)
      requires State().Sized() && row < |rhs|
      modifies this`rhs
      ensures State().Sized() && |rhs| == old(|rhs|)
      ensures forall r, x: Vector | 0 <= r < |rhs| && |x| == |rhs| ::
                Residual(State(), r, x) == Residual(old(State()), r, x) - (if r == row then value else 0.0)
    {
      rhs := rhs[row := rhs[row] + value];
    }

    /** One row of the block of an element. */
    method AddLocalRow(e: Element, i: nat)
      requires State().Sized() && Square(e.localMatrix, |e.sides|) && i < |e.sides|
      requires forall s <- e.sides :: s.row < |rhs|
      modifies this`matrix
      ensures State().Sized()
      ensures forall r, x: Vector | 0 <= r < |rhs| && |x| == |rhs| ::
                Residual(State(), r, x)
                == Residual(old(State()), r, x) + (if e.sides[i].row == r then LocalDot(e, i, |e.sides|, x) else 0.0)
    {
      ghost var was := State();
      assert forall x: Vector :: LocalDot(e, i, 0, x) == 0.0;
      for k := 0 to |e.sides|
        invariant State().Sized()
        invariant forall r, x: Vector | 0 <= r < |rhs| && |x| == |rhs| ::
                    Residual(State(), r, x)
                    == Residual(was, r, x) + (if e.sides[i].row == r then LocalDot(e, i, k, x) else 0.0)
      {
        MatSetValue(e.sides[i].row, e.sides[k].row, e.localMatrix[i][k]);
      }
    }

    method AddLocalMatrix(e: Element)
      requires State().Sized() && Square(e.localMatrix, |e.sides|) && forall s <- e.sides :: s.row < |rhs|
      modifies this`matrix
      ensures State().Sized()
      ensures forall r, x: Vector | 0 <= r < |rhs| && |x| == |rhs| ::
                Residual(State(), r, x) == Residual(old(State()), r, x) + LocalPart(e, |e.sides|, r, x)
    {
      ghost var was := State();
      for i := 0 to |e.sides|
        invariant State().Sized()
        invariant forall r, x: Vector | 0 <= r < |rhs| && |x| == |rhs| ::
                    Residual(State(), r, x) == Residual(was, r, x) + LocalPart(e, i, r, x)
      {
        AddLocalRow(e, i);
      }
    }

    /** The entries of the boundary condition on a side. */
    method AddBoundary(e: Element, s: Side, edgeRow: nat)
      requires State().Sized() && edgeRow < |rhs|
      modifies this
      ensures State().Sized() && |rhs| == old(|rhs|)
      ensures forall r, x: Vector | 0 <= r < |rhs| && |x| == |rhs| ::
                Residual(State(), r, x) == Residual(old(State()), r, x) + (if r == edgeRow then EdgeLaw(e, s, x[edgeRow]) else 0.0)
    {
      match s.bc
      case Dirichlet(p) => {
        RhsSetValue(edgeRow, -p);
        MatSetValue(edgeRow, edgeRow, -1.0);
      }
      case Neumann(measure, flux) => {
        RhsSetValue(edgeRow, flux * measure * e.crossSection);
      }
      case Robin(measure, sigma, p) => {
        RhsSetValue(edgeRow, -measure * sigma * p * e.crossSection);
        MatSetValue(edgeRow, edgeRow, -measure * sigma * e.crossSection);
      }
      case _ =>
    }

    /** The entries of a side. */
    method AddSide(m: Mesh, e: Element, s: Side)
      requires State().Sized() && |rhs| == m.size && m.EdgesFit() && e.row < m.size && s.row < m.size && s.edge < |m.edges|
      modifies this
      ensures State().Sized() && |rhs| == old(|rhs|)
      ensures forall r, x: Vector | 0 <= r < |rhs| && |x| == |rhs| ::
                Residual(State(), r, x) == Residual(old(State()), r, x) + SidePart(m, e, s, r, x)
    {
      assert m.edges[s.edge] in m.edges;
      var edgeRow := m.edges[s.edge].row;
      var value, sideRhs := 1.0, s.lift;
      AddBoundary(e, s, edgeRow);
      if s.bc.Dirichlet? {
        value, sideRhs := 0.0, sideRhs - s.bc.pressure;
      }
      MatSetValue(s.row, edgeRow, value);
      MatSetValue(edgeRow, s.row, value);
      RhsSetValue(s.row, sideRhs);
      MatSetValue(e.row, s.row, -1.0);
      MatSetValue(s.row, e.row, -1.0);
    }

    /** One row of the block of a compatible connection. */
    method AddExchange(row: nat, other: nat, value: real)
      requires State().Sized() && row < |rhs| && other < |rhs|
      modifies this`matrix
      ensures State().Sized()
      ensures forall r, x: Vector | 0 <= r < |rhs| && |x| == |rhs| ::
                Residual(State(), r, x)
                == Residual(old(State()), r, x) + (if r == row then value * (x[other] - x[row]) else 0.0)
    {
      MatSetValue(row, row, -value);
      MatSetValue(row, other, value);
    }

    /** Entries of the compatible connections of an element. */
    method AddNeighbours(m: Mesh, e: Element)
      requires State().Sized() && |rhs| == m.size && m.EdgesFit() && m.Fits(e)
      modifies this`matrix
      ensures State().Sized()
      ensures forall r, x: Vector | 0 <= r < |rhs| && |x| == |rhs| ::
                Residual(State(), r, x) == Residual(old(State()), r, x) + NeighboursPart(m, e, |e.neighbours|, r, x)
    {
      ghost var was := State();
      for k := 0 to |e.neighbours|
        invariant State().Sized()
        invariant forall r, x: Vector | 0 <= r < |rhs| && |x| == |rhs| ::
                    Residual(State(), r, x) == Residual(was, r, x) + NeighboursPart(m, e, k, r, x)
      {
        var n := e.neighbours[k];
        assert n in e.neighbours && m.edges[n.edge] in m.edges;
        AddExchange(e.row, m.edges[n.edge].row, n.Value());
        AddExchange(m.edges[n.edge].row, e.row, n.Value());
      }
    }

    method AddElement(m: Mesh, e: Element)
      requires State().Sized() && |rhs| == m.size && m.EdgesFit() && m.Fits(e)
      modifies this
      ensures State().Sized() && |rhs| == old(|rhs|)
      ensures forall r, x: Vector | 0 <= r < |rhs| && |x| == |rhs| ::
                Residual(State(), r, x) == Residual(old(State()), r, x) + ElementPart(m, e, r, x)
    {
      ghost var was := State();
      for k := 0 to |e.sides|
        invariant State().Sized() && |rhs| == m.size
        invariant forall r, x: Vector | 0 <= r < |rhs| && |x| == |rhs| ::
                    Residual(State(), r, x) == Residual(was, r, x) + SidesPart(m, e, k, r, x)
      {
        assert e.sides[k] in e.sides;
        AddSide(m, e, e.sides[k]);
      }
      AddLocalMatrix(e);
      RhsSetValue(e.row, -1.0 * e.measure * e.crossSection * e.source);
      AddNeighbours(m, e);
    }

    /** The assembly: every row of the system says exactly its balance. */
    method Assemble(m: Mesh)
      requires State().Sized() && |rhs| == m.size && m.ElementsFit() && m.EdgesFit()
      requires forall r, x: Vector | 0 <= r < |rhs| && |x| == |rhs| :: Residual(State(), r, x) == 0.0
      modifies this
      ensures Assembled(m, State())
    {
      for k := 0 to |m.elements|
        invariant State().Sized() && |rhs| == m.size
        invariant forall r, x: Vector | 0 <= r < |rhs| && |x| == |rhs| :: Residual(State(), r, x) == Balance(m, k, r, x)
      {
        assert m.elements[k] in m.elements;
        AddElement(m, m.elements[k]);
      }
    }
  }

  /** A linear system that says exactly the balance of the mesh in every row, for all values. */
  ghost predicate Assembled(m: Mesh, l: Linear) {
    && l.Sized() && |l.rhs| == m.size && m.ElementsFit()
    && forall r, x: Vector | 0 <= r < m.size && |x| == m.size :: Residual(l, r, x) == Balance(m, |m.elements|, r, x)
  }
}
