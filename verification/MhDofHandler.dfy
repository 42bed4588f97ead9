/** Numbers of the sides, and the way back from the parallel solution to the sides, elements and edges of the mesh. */
module MhDofHandler {
  import opened RowNumbering
  import A = Assembly

  /** The number of side `i` of element `k` when the elements have `n` sides. */
  function SideNumber(n: seq<nat>, k: nat, i: nat): nat
    requires k < |n|
  {
    SumOf(n, k) + i
  }

  predicate IsSide(n: seq<nat>, k: int, i: int) {
    0 <= k < |n| && 0 <= i < n[k]
  }

  lemma {:induction false} SumGrows(n: seq<nat>, k: nat, l: nat)
    requires k <= l <= |n|
    ensures SumOf(n, k) <= SumOf(n, l)
    decreases l
  {
    if k < l {
      SumGrows(n, k, l - 1);
    }
  }

  /** The numbers of the sides are different and below the number of all sides. */
  lemma SideNumbersDiffer(n: seq<nat>, k: nat, i: nat, l: nat, j: nat)
    requires IsSide(n, k, i) && IsSide(n, l, j)
    ensures SideNumber(n, k, i) < SumOf(n, |n|)
    ensures SideNumber(n, k, i) == SideNumber(n, l, j) ==> k == l && i == j
  {
    SumGrows(n, k + 1, |n|);
    if k < l {
      SumGrows(n, k + 1, l);
    } else if l < k {
      SumGrows(n, l + 1, k);
    }
  }

  /** Every number below the number of all sides is that of a side. */
  lemma {:induction false} SideOfNumber(n: seq<nat>, m: nat, s: nat) returns (k: nat, i: nat)
    requires m <= |n| && s < SumOf(n, m)
    ensures k < m && IsSide(n, k, i) && SideNumber(n, k, i) == s
  {
    if s < SumOf(n, m - 1) {
      k, i := SideOfNumber(n, m - 1, s);
    } else {
      k, i := m - 1, s - SumOf(n, m - 1);
    }
  }

  class MH_DofHandler {
    var elemSideToGlobal: seq<seq<nat>>
    var mhSolution: seq<real>

    constructor ()
    {
      elemSideToGlobal, mhSolution := [], [];
    }

    ghost predicate Numbers(n: seq<nat>)
      reads this
    {
      && |elemSideToGlobal| == |n| && (forall k | 0 <= k < |n| :: |elemSideToGlobal[k]| == n[k])
      && forall k, i | IsSide(n, k, i) :: elemSideToGlobal[k][i] == SideNumber(n, k, i)
    }

    /** Numbers the sides element by element; `n` lists the numbers of sides. */
    method Reinit(n: seq<nat>)
      modifies this`elemSideToGlobal
      ensures Numbers(n)
    {
      elemSideToGlobal := [];
      var sideGlobal := 0;
      for k := 0 to |n|
        invariant |elemSideToGlobal| == k && sideGlobal == SumOf(n, k)
        invariant forall l | 0 <= l < k :: |elemSideToGlobal[l]| == n[l]
        invariant forall l, j | IsSide(n, l, j) && l < k :: elemSideToGlobal[l][j] == SideNumber(n, l, j)
      {
        var row: seq<nat> := [];
        for i := 0 to n[k]
          invariant |row| == i && sideGlobal == SideNumber(n, k, i)
          invariant forall j | 0 <= j < i :: row[j] == SideNumber(n, k, j)
        {
          row := row + [sideGlobal];
          sideGlobal := sideGlobal + 1;
        }
        elemSideToGlobal := elemSideToGlobal + [row];
      }
    }

    method SetSolution(solution: seq<real>)
      modifies this`mhSolution
      ensures mhSolution == solution
    {
      mhSolution := solution;
    }

    function SideDof(k: nat, i: nat): nat
      requires k < |elemSideToGlobal| && i < |elemSideToGlobal[k]|
      reads this
    {
      elemSideToGlobal[k][i]
    }

    /** Flux through side `i` of element `k`. */
    function SideFlux(k: nat, i: nat): real
      requires k < |elemSideToGlobal| && i < |elemSideToGlobal[k]| && elemSideToGlobal[k][i] < |mhSolution|
      reads this
    {
      mhSolution[elemSideToGlobal[k][i]]
    }

    /** Pressure on an edge, in a mesh with the given numbers of sides and elements. */
    function SideScalar(sides: nat, elements: nat, edge: nat): real
      requires sides + elements + edge < |mhSolution|
      reads this
    {
      mhSolution[sides + elements + edge]
    }

    function ElementScalar(sides: nat, k: nat): real
      requires sides + k < |mhSolution|
      reads this
    {
      mhSolution[sides + k]
    }

    /** The index set of the scatter: sides by element, then elements, then edges. */
    method ScatterIndices(n: seq<nat>, side: seq<nat>, el: seq<nat>, edge: seq<nat>) returns (idx: seq<nat>)
      requires Numbers(n) && |side| == SumOf(n, |n|) && |el| == |n|
      ensures idx == side + el + edge
    {
      idx := [];
      for k := 0 to |n|
        invariant |idx| == SumOf(n, k) <= |side| && idx == side[..|idx|]
      {
        SumGrows(n, k + 1, |n|);
        for i := 0 to n[k]
          invariant |idx| == SideNumber(n, k, i) <= |side| && idx == side[..|idx|]
        {
          assert IsSide(n, k, i);
          idx := idx + [side[SideDof(k, i)]];
        }
      }
      for k := 0 to |el|
        invariant idx == side + el[..k]
      {
        idx := idx + [el[k]];
      }
      for k := 0 to |edge|
        invariant idx == side + el + edge[..k]
      {
        idx := idx + [edge[k]];
      }
    }

    /** What the accessors read after a scatter is what the solution holds in the rows of the side, the element and the edge. */
    lemma ReadsRows(n: seq<nat>, side: seq<nat>, el: seq<nat>, edge: seq<nat>, x: seq<real>)
      requires Numbers(n) && |side| == SumOf(n, |n|) && |el| == |n|
      requires Below(side, |x|) && Below(el, |x|) && Below(edge, |x|)
      requires mhSolution == Scattered(side + el + edge, x)
      ensures forall k: nat, i: nat | IsSide(n, k, i) ::
                SideDof(k, i) < |side| && SideFlux(k, i) == x[side[SideDof(k, i)]]
      ensures forall k | 0 <= k < |el| :: ElementScalar(|side|, k) == x[el[k]]
      ensures forall j | 0 <= j < |edge| :: SideScalar(|side|, |el|, j) == x[edge[j]]
    {
      var all := side + el + edge;
      forall k: nat, i: nat | IsSide(n, k, i)
        ensures SideDof(k, i) < |side| && SideFlux(k, i) == x[side[SideDof(k, i)]]
      {
        SideNumbersDiffer(n, k, i, k, i);
        assert all[SideDof(k, i)] == side[SideDof(k, i)];
      }
    }
  }

  predicate Below(s: seq<nat>, n: nat) {
    forall k | 0 <= k < |s| :: s[k] < n
  }

  /** The scattered solution. */
  function Scattered(idx: seq<nat>, x: seq<real>): (s: seq<real>)
    requires Below(idx, |x|)
    ensures |s| == |idx| && forall k | 0 <= k < |s| :: s[k] == x[idx[k]]
  {
    seq(|idx|, k requires 0 <= k < |idx| => x[idx[k]])
  }

  // ---------------------------------------------------------------- the rows the assembly uses

  function SideCounts(m: A.Mesh): (n: seq<nat>)
    ensures |n| == |m.elements| && forall k | 0 <= k < |n| :: n[k] == |m.elements[k].sides|
  {
    seq(|m.elements|, k requires 0 <= k < |m.elements| => |m.elements[k].sides|)
  }

  /** The mesh takes its rows from the numbering. */
  ghost predicate Numbered(m: A.Mesh, nb: Numbering) {
    && nb.Valid() && m.size == nb.layout.Size() && |m.elements| == nb.layout.el.Size() && |m.edges| == nb.layout.edge.Size()
    && SumOf(SideCounts(m), |m.elements|) == nb.layout.side.Size()
    && (forall k | 0 <= k < |m.elements| :: IsElementRow(m, nb, k))
    && (forall j | 0 <= j < |m.edges| :: IsEdgeRow(m, nb, j))
    && forall k, i | m.IsSide(k, i) :: IsSideRow(m, nb, k, i)
  }

  ghost predicate IsElementRow(m: A.Mesh, nb: Numbering, k: nat)
    requires nb.Valid() && k < |m.elements| == nb.layout.el.Size()
  {
    m.elements[k].row == nb.RowOf(ElementPressure(k))
  }

  ghost predicate IsEdgeRow(m: A.Mesh, nb: Numbering, j: nat)
    requires nb.Valid() && j < |m.edges| == nb.layout.edge.Size()
  {
    m.edges[j].row == nb.RowOf(EdgePressure(j))
  }

  ghost predicate IsSideRow(m: A.Mesh, nb: Numbering, k: nat, i: nat)
    requires nb.Valid() && m.IsSide(k, i) && SumOf(SideCounts(m), |m.elements|) == nb.layout.side.Size()
  {
    && SideNumber(SideCounts(m), k, i) < nb.layout.side.Size()
    && m.SideAt(k, i).row == nb.RowOf(Unknown.SideFlux(SideNumber(SideCounts(m), k, i)))
  }

  /** The unknown of a row of the mesh. */
  lemma SideRowOf(m: A.Mesh, nb: Numbering, k: nat, i: nat) returns (u: Unknown)
    requires Numbered(m, nb) && m.IsSide(k, i)
    ensures u == Unknown.SideFlux(SideNumber(SideCounts(m), k, i)) && nb.layout.Has(u) && m.SideAt(k, i).row == nb.RowOf(u)
  {
    u := Unknown.SideFlux(SideNumber(SideCounts(m), k, i));
    assert IsSideRow(m, nb, k, i);
  }

  /** Row of a side against the rows of elements and edges. */
  lemma SideRowApart(m: A.Mesh, nb: Numbering, k: nat, i: nat)
    requires Numbered(m, nb) && m.IsSide(k, i)
    ensures forall l | 0 <= l < |m.elements| :: m.SideAt(k, i).row != m.elements[l].row
    ensures forall j | 0 <= j < |m.edges| :: m.SideAt(k, i).row != m.edges[j].row
  {
    hide Numbering.RowOf;
    var u := SideRowOf(m, nb, k, i);
    forall l | 0 <= l < |m.elements|
      ensures m.SideAt(k, i).row != m.elements[l].row
    {
      assert IsElementRow(m, nb, l);
      RowsInjective(nb, u, ElementPressure(l));
    }
    forall j | 0 <= j < |m.edges|
      ensures m.SideAt(k, i).row != m.edges[j].row
    {
      assert IsEdgeRow(m, nb, j);
      RowsInjective(nb, u, EdgePressure(j));
    }
  }

  lemma ElementAndEdgeRowsApart(m: A.Mesh, nb: Numbering)
    requires Numbered(m, nb)
    ensures forall k, l | 0 <= k < l < |m.elements| :: m.elements[k].row != m.elements[l].row
    ensures forall j, l | 0 <= j < l < |m.edges| :: m.edges[j].row != m.edges[l].row
    ensures forall k, j | 0 <= k < |m.elements| && 0 <= j < |m.edges| :: m.elements[k].row != m.edges[j].row
  {
    hide Numbering.RowOf;
    forall k, l | 0 <= k < l < |m.elements|
      ensures m.elements[k].row != m.elements[l].row
    {
      assert IsElementRow(m, nb, k) && IsElementRow(m, nb, l);
      RowsInjective(nb, ElementPressure(k), ElementPressure(l));
    }
    forall j, l | 0 <= j < l < |m.edges|
      ensures m.edges[j].row != m.edges[l].row
    {
      assert IsEdgeRow(m, nb, j) && IsEdgeRow(m, nb, l);
      RowsInjective(nb, EdgePressure(j), EdgePressure(l));
    }
    forall k, j | 0 <= k < |m.elements| && 0 <= j < |m.edges|
      ensures m.elements[k].row != m.edges[j].row
    {
      assert IsElementRow(m, nb, k) && IsEdgeRow(m, nb, j);
      RowsInjective(nb, ElementPressure(k), EdgePressure(j));
    }
  }

  /** With rows from the numbering, elements, edges and sides have rows of their own: what the assembly relies on. */
  lemma NumberedRowsApart(m: A.Mesh, nb: Numbering)
    requires Numbered(m, nb)
    ensures m.RowsApart()
    ensures forall k, i, l, q | m.IsSide(k, i) && m.IsSide(l, q) && m.SideAt(k, i).row == m.SideAt(l, q).row :: k == l && i == q
  {
    hide Numbered;
    ElementAndEdgeRowsApart(m, nb);
    forall k, i | m.IsSide(k, i)
      ensures forall l | 0 <= l < |m.elements| :: m.SideAt(k, i).row != m.elements[l].row
      ensures forall j | 0 <= j < |m.edges| :: m.SideAt(k, i).row != m.edges[j].row
    {
      SideRowApart(m, nb, k, i);
    }
    forall k, i, l, q | m.IsSide(k, i) && m.IsSide(l, q) && m.SideAt(k, i).row == m.SideAt(l, q).row
      ensures k == l && i == q
    {
      SideRowsDiffer(m, nb, k, i, l, q);
    }
    SidesByIndex(m);
  }

  lemma SideRowsDiffer(m: A.Mesh, nb: Numbering, k: nat, i: nat, l: nat, q: nat)
    requires Numbered(m, nb) && m.IsSide(k, i) && m.IsSide(l, q) && m.SideAt(k, i).row == m.SideAt(l, q).row
    ensures k == l && i == q
  {
    var u := SideRowOf(m, nb, k, i);
    var v := SideRowOf(m, nb, l, q);
    RowsInjective(nb, u, v);
    SideNumbersDiffer(SideCounts(m), k, i, l, q);
  }

  /** Sides and elements of the mesh, found by their indices. */
  lemma SidesByIndex(m: A.Mesh)
    ensures forall e <- m.elements, s <- e.sides :: exists k, i :: m.IsSide(k, i) && m.elements[k] == e && m.SideAt(k, i) == s
  {
    forall e, s | e in m.elements && s in e.sides
      ensures exists k, i :: m.IsSide(k, i) && m.elements[k] == e && m.SideAt(k, i) == s
    {
      var k :| 0 <= k < |m.elements| && m.elements[k] == e;
      var i :| 0 <= i < |e.sides| && e.sides[i] == s;
      assert m.IsSide(k, i) && m.SideAt(k, i) == s;
    }
  }
}
