/** Distributions over processes, and the numbering of the rows of the mixed-hybrid system. */
module RowNumbering {
  // ---------------------------------------------------------------- distributions

  /** Process `p` owns the indices from `starts[p]` up to `starts[p + 1]`. */
  datatype Distribution = Distribution(starts: seq<nat>) {
    ghost predicate Valid() {
      |starts| > 0 && starts[0] == 0 && forall p | 0 <= p < |starts| - 1 :: starts[p] <= starts[p + 1]
    }

    function Np(): nat
      requires Valid()
    {
      |starts| - 1
    }

    function Size(): nat
      requires Valid()
    {
      starts[|starts| - 1]
    }

    function Begin(p: nat): nat
      requires Valid() && p < Np()
    {
      starts[p]
    }

    function Lsize(p: nat): nat
      requires Valid() && p < Np()
    {
      starts[p + 1] - starts[p]
    }

    predicate IsOnProc(idx: int, p: nat)
      requires Valid() && p < Np()
    {
      starts[p] <= idx < starts[p + 1]
    }

    lemma {:induction false} Ordered(p: nat, q: nat)
      requires Valid() && p <= q < |starts|
      ensures starts[p] <= starts[q]
      decreases q - p
    {
      if p < q {
        Ordered(p, q - 1);
        assert starts[q - 1] <= starts[q - 1 + 1];
      }
    }

    /** The process of an index. */
    ghost function ProcFrom(idx: nat, p: nat): (q: nat)
      requires Valid() && p < Np() && starts[p] <= idx < Size()
      ensures q < Np() && IsOnProc(idx, q)
      decreases Np() - p
    {
      if idx < starts[p + 1] then p else ProcFrom(idx, p + 1)
    }

    lemma SomeProc(idx: nat)
      requires Valid() && idx < Size()
      ensures Np() > 0
    {
    }

    ghost function Proc(idx: nat): (p: nat)
      requires Valid() && idx < Size()
      ensures p < Np() && IsOnProc(idx, p)
    {
      SomeProc(idx);
      ProcFrom(idx, 0)
    }

    lemma ProcUnique(idx: nat, p: nat)
      requires Valid() && idx < Size() && p < Np() && IsOnProc(idx, p)
      ensures Proc(idx) == p
    {
      var q := Proc(idx);
      if p < q {
        Ordered(p + 1, q);
      } else if q < p {
        Ordered(q + 1, p);
      }
    }

    /** The linear search for the owner of an index. */
    method GetProc(idx: nat) returns (p: nat)
      requires Valid() && idx < Size()
      ensures p == Proc(idx)
    {
      p := 0;
      while !(starts[p] <= idx && idx < starts[p + 1])
        invariant p < Np() && starts[p] <= idx
        decreases Np() - p
      {
        p := p + 1;
      }
      ProcUnique(idx, p);
    }
  }

  /** Sum of the first `p` sizes. */
  function SumOf(sizes: seq<nat>, p: nat): nat
    requires p <= |sizes|
  {
    if p == 0 then 0 else SumOf(sizes, p - 1) + sizes[p - 1]
  }

  /** Builds a distribution from local sizes. */
  method FromSizes(sizes: seq<nat>) returns (d: Distribution)
    ensures d.Valid() && |d.starts| == |sizes| + 1 && forall p | 0 <= p <= |sizes| :: d.starts[p] == SumOf(sizes, p)
  {
    var starts: seq<nat> := [0];
    for i := 0 to |sizes|
      invariant |starts| == i + 1 && forall p | 0 <= p <= i :: starts[p] == SumOf(sizes, p)
    {
      starts := starts + [starts[i] + sizes[i]];
    }
    d := Distribution(starts);
    forall p | 0 <= p < |starts| - 1
      ensures starts[p] <= starts[p + 1]
    {
      assert starts[p + 1] == SumOf(sizes, p + 1);
    }
  }

  // ---------------------------------------------------------------- layout of the rows

  /** Unknowns in the numbering of their own kind. */
  datatype Unknown = SideFlux(i: nat) | ElementPressure(i: nat) | EdgePressure(i: nat)

  datatype Layout = Layout(side: Distribution, el: Distribution, edge: Distribution) {
    ghost predicate Valid() {
      side.Valid() && el.Valid() && edge.Valid() && side.Np() == el.Np() == edge.Np()
    }

    function Np(): nat
      requires Valid()
    {
      side.Np()
    }

    /** The first row of a process. */
    function Start(p: nat): nat
      requires Valid() && p <= Np()
    {
      side.starts[p] + el.starts[p] + edge.starts[p]
    }

    function Size(): nat
      requires Valid()
    {
      side.Size() + el.Size() + edge.Size()
    }

    function SideShift(p: nat): int
      requires Valid() && p < Np()
    {
      Start(p) - side.Begin(p)
    }

    function ElShift(p: nat): int
      requires Valid() && p < Np()
    {
      Start(p) + side.Lsize(p) - el.Begin(p)
    }

    function EdgeShift(p: nat): int
      requires Valid() && p < Np()
    {
      Start(p) + side.Lsize(p) + el.Lsize(p) - edge.Begin(p)
    }

    predicate Has(u: Unknown)
      requires Valid()
    {
      match u
      case SideFlux(i) => i < side.Size()
      case ElementPressure(i) => i < el.Size()
      case EdgePressure(i) => i < edge.Size()
    }

    /** The process that owns an unknown. */
    ghost function Owner(u: Unknown): (p: nat)
      requires Valid() && Has(u)
      ensures p < Np()
    {
      match u
      case SideFlux(i) => side.Proc(i)
      case ElementPressure(i) => el.Proc(i)
      case EdgePressure(i) => edge.Proc(i)
    }

    ghost function Row(u: Unknown): int
      requires Valid() && Has(u)
    {
      var p := Owner(u);
      match u
      case SideFlux(i) => i + SideShift(p)
      case ElementPressure(i) => i + ElShift(p)
      case EdgePressure(i) => i + EdgeShift(p)
    }

    ghost function Rows(): (d: Distribution)
      requires Valid()
      ensures d.Valid() && d.Np() == Np() && d.Size() == Size()
    {
      Distribution(seq(Np() + 1, p requires 0 <= p <= Np() => Start(p)))
    }

    /** The unknown of a row: sides first, then elements, then edges of the process of the row. */
    ghost function UnknownAt(row: nat): (u: Unknown)
      requires Valid() && row < Size()
      ensures Has(u)
    {
      var p := Rows().Proc(row);
      var k := row - Start(p);
      side.Ordered(p + 1, Np());
      el.Ordered(p + 1, Np());
      edge.Ordered(p + 1, Np());
      if k < side.Lsize(p) then SideFlux(side.Begin(p) + k)
      else if k < side.Lsize(p) + el.Lsize(p) then ElementPressure(el.Begin(p) + k - side.Lsize(p))
      else EdgePressure(edge.Begin(p) + k - side.Lsize(p) - el.Lsize(p))
    }
  }

  /** Each process has consecutive rows: its sides, its elements, its edges. */
  lemma RowInBlock(l: Layout, u: Unknown)
    requires l.Valid() && l.Has(u)
    ensures var p := l.Owner(u);
            && l.Row(u) >= 0 && l.Rows().IsOnProc(l.Row(u), p)
            && match u {
              case SideFlux(i) => l.Row(u) - l.Start(p) == i - l.side.Begin(p) < l.side.Lsize(p)
              case ElementPressure(i) => 0 <= l.Row(u) - l.Start(p) - l.side.Lsize(p) == i - l.el.Begin(p) < l.el.Lsize(p)
              case EdgePressure(i) => 0 <= l.Row(u) - l.Start(p) - l.side.Lsize(p) - l.el.Lsize(p) == i - l.edge.Begin(p) < l.edge.Lsize(p)
            }
  {
  }

  /** Reading the unknown of the row of an unknown gives it back: the rows of different unknowns differ. */
  lemma UnknownOfRow(l: Layout, u: Unknown)
    requires l.Valid() && l.Has(u)
    ensures 0 <= l.Row(u) < l.Size() && l.UnknownAt(l.Row(u)) == u
  {
    var p := l.Owner(u);
    RowInBlock(l, u);
    l.Rows().Ordered(p + 1, l.Np());
    l.Rows().ProcUnique(l.Row(u), p);
  }

  /** Every row belongs to an unknown of the process that owns the row. */
  lemma RowOfUnknown(l: Layout, row: nat)
    requires l.Valid() && row < l.Size()
    ensures l.Row(l.UnknownAt(row)) == row && l.Owner(l.UnknownAt(row)) == l.Rows().Proc(row)
  {
    var p, u := l.Rows().Proc(row), l.UnknownAt(row);
    match u
    case SideFlux(i) => l.side.ProcUnique(i, p);
    case ElementPressure(i) => l.el.ProcUnique(i, p);
    case EdgePressure(i) => l.edge.ProcUnique(i, p);
  }

  lemma RowsDiffer(l: Layout, u: Unknown, v: Unknown)
    requires l.Valid() && l.Has(u) && l.Has(v) && u != v
    ensures l.Row(u) != l.Row(v)
  {
    UnknownOfRow(l, u);
    UnknownOfRow(l, v);
  }

  // ---------------------------------------------------------------- local numberings

  /** On its process the row of a side, shifted to the side distribution, is the index of the side: the row of the Schur complement. */
  lemma SchurRow(l: Layout, i: nat)
    requires l.Valid() && i < l.side.Size()
    ensures var p := l.side.Proc(i);
            l.Row(SideFlux(i)) - l.Rows().Begin(p) + l.side.Begin(p) == i
  {
    RowInBlock(l, SideFlux(i));
  }

  /** Local element `k` and local edge `k` of a process are found behind its sides, and behind its sides and elements. */
  lemma LocalOffsets(l: Layout, p: nat, k: nat)
    requires l.Valid() && p < l.Np()
    ensures k < l.el.Lsize(p) ==>
              l.el.Begin(p) + k < l.el.Size()
              && l.Row(ElementPressure(l.el.Begin(p) + k)) == l.Rows().Begin(p) + (k + l.side.Lsize(p))
    ensures k < l.edge.Lsize(p) ==>
              l.edge.Begin(p) + k < l.edge.Size()
              && l.Row(EdgePressure(l.edge.Begin(p) + k)) == l.Rows().Begin(p) + (l.side.Lsize(p) + l.el.Lsize(p) + k)
  {
    l.el.Ordered(p + 1, l.Np());
    l.edge.Ordered(p + 1, l.Np());
    if k < l.el.Lsize(p) {
      l.el.ProcUnique(l.el.Begin(p) + k, p);
    }
    if k < l.edge.Lsize(p) {
      l.edge.ProcUnique(l.edge.Begin(p) + k, p);
    }
  }

  // ---------------------------------------------------------------- in place

  class RowMaps {
    const sideRow: array<int>
    const elRow: array<int>
    const edgeRow: array<int>

    constructor (side: array<int>, el: array<int>, edge: array<int>)
      ensures sideRow == side && elRow == el && edgeRow == edge
    {
      sideRow, elRow, edgeRow := side, el, edge;
    }

    /** Adds to every known index the shift of its process. */
    method ApplyShift(a: array<int>, d: Distribution, shift: seq<int>)
      requires d.Valid() && |shift| == d.Np() && forall k | 0 <= k < a.Length :: a[k] < d.Size()
      modifies a
      ensures forall k | 0 <= k < a.Length ::
                a[k] == if old(a[k]) >= 0 then old(a[k]) + shift[d.Proc(old(a[k]))] else old(a[k])
    {
      for i := 0 to a.Length
        invariant forall k | i <= k < a.Length :: a[k] == old(a[k])
        invariant forall k | 0 <= k < i ::
                    a[k] == if old(a[k]) >= 0 then old(a[k]) + shift[d.Proc(old(a[k]))] else old(a[k])
      {
        if a[i] >= 0 {
          var p := d.GetProc(a[i]);
          a[i] := a[i] + shift[p];
        }
      }
    }

    /** Turns the numberings of sides, elements and edges into rows and builds the distribution of rows. */
    method MakeRowNumberings(l: Layout) returns (rows: Distribution)
      requires l.Valid() && l.Np() > 0 && sideRow != elRow && sideRow != edgeRow && elRow != edgeRow
      requires forall k | 0 <= k < sideRow.Length :: sideRow[k] < l.side.Size()
      requires forall k | 0 <= k < elRow.Length :: elRow[k] < l.el.Size()
      requires forall k | 0 <= k < edgeRow.Length :: edgeRow[k] < l.edge.Size()
      modifies sideRow, elRow, edgeRow
      ensures rows == l.Rows()
      ensures forall k | 0 <= k < sideRow.Length ::
                sideRow[k] == if old(sideRow[k]) >= 0 then l.Row(SideFlux(old(sideRow[k]))) else old(sideRow[k])
      ensures forall k | 0 <= k < elRow.Length ::
                elRow[k] == if old(elRow[k]) >= 0 then l.Row(ElementPressure(old(elRow[k]))) else old(elRow[k])
      ensures forall k | 0 <= k < edgeRow.Length ::
                edgeRow[k] == if old(edgeRow[k]) >= 0 then l.Row(EdgePressure(old(edgeRow[k]))) else old(edgeRow[k])
    {
      var np := l.Np();
      var sideShift, elShift, edgeShift: seq<int> := [], [], [];
      var starts: seq<nat> := [];
      var shift := 0;
      for i := 0 to np
        invariant |sideShift| == |elShift| == |edgeShift| == |starts| == i && shift == l.Start(i)
        invariant forall p | 0 <= p < i :: sideShift[p] == l.SideShift(p) && elShift[p] == l.ElShift(p) && edgeShift[p] == l.EdgeShift(p)
        invariant forall p | 0 <= p < i :: starts[p] == l.Start(p + 1)
      {
        sideShift := sideShift + [shift - l.side.Begin(i)];
        shift := shift + l.side.Lsize(i);
        elShift := elShift + [shift - l.el.Begin(i)];
        shift := shift + l.el.Lsize(i);
        edgeShift := edgeShift + [shift - l.edge.Begin(i)];
        shift := shift + l.edge.Lsize(i);
        starts := starts + [shift];
      }
      ApplyShift(sideRow, l.side, sideShift);
      ApplyShift(elRow, l.el, elShift);
      ApplyShift(edgeRow, l.edge, edgeShift);
      rows := RowDistribution(l, starts);
    }
  }

  /** Turns the ends of the chunks into their sizes, from the last one down, and builds the distribution of rows. */
  method RowDistribution(l: Layout, ends: seq<nat>) returns (rows: Distribution)
    requires l.Valid() && |ends| == l.Np() > 0 && forall p | 0 <= p < |ends| :: ends[p] == l.Start(p + 1)
    ensures rows == l.Rows()
  {
    var sizes := ends;
    var i := l.Np() - 1;
    while i > 0
      invariant 0 <= i < l.Np() && |sizes| == l.Np()
      invariant forall p | 0 <= p <= i :: sizes[p] == l.Start(p + 1)
      invariant forall p | i < p < l.Np() :: sizes[p] == l.Start(p + 1) - l.Start(p)
    {
      assert sizes[i] >= sizes[i - 1] by {
        assert sizes[i] == l.Start(i + 1) && sizes[i - 1] == l.Start(i - 1 + 1);
      }
      sizes := sizes[i := sizes[i] - sizes[i - 1]];
      i := i - 1;
    }
    rows := FromSizes(sizes);
    forall p: nat | p <= l.Np()
      ensures rows.starts[p] == l.Start(p)
    {
      SizesSumToStarts(l, sizes, p);
    }
    assert rows.starts == l.Rows().starts;
  }

  lemma {:induction false} SizesSumToStarts(l: Layout, sizes: seq<nat>, p: nat)
    requires l.Valid() && |sizes| == l.Np() && p <= l.Np()
    requires forall q | 0 <= q < l.Np() :: sizes[q] == l.Start(q + 1) - l.Start(q)
    ensures SumOf(sizes, p) == l.Start(p)
  {
    if p > 0 {
      SizesSumToStarts(l, sizes, p - 1);
    }
  }

  // ---------------------------------------------------------------- rows of the sides, elements and edges of a mesh

  /** A one-to-one renumbering of `n` things. */
  ghost predicate Renumbers(s: seq<nat>, n: nat) {
    && |s| == n && (forall k | 0 <= k < n :: s[k] < n) && (forall k, l | 0 <= k < l < n :: s[k] != s[l])
    && forall v | 0 <= v < n :: v in s
  }

  /** The numbering with which the rows start: from numbers in the mesh to numbers ordered by process. */
  datatype Numbering = Numbering(layout: Layout, side: seq<nat>, el: seq<nat>, edge: seq<nat>) {
    ghost predicate Valid() {
      && layout.Valid() && Renumbers(side, layout.side.Size()) && Renumbers(el, layout.el.Size())
      && Renumbers(edge, layout.edge.Size())
    }

    /** The row of the side, element or edge with a number in the mesh. */
    ghost function RowOf(id: Unknown): int
      requires Valid() && layout.Has(id)
    {
      match id
      case SideFlux(i) => layout.Row(SideFlux(side[i]))
      case ElementPressure(i) => layout.Row(ElementPressure(el[i]))
      case EdgePressure(i) => layout.Row(EdgePressure(edge[i]))
    }
  }

  /** Different sides, elements and edges have different rows, all below the size of the system. */
  lemma RowsInjective(n: Numbering, u: Unknown, v: Unknown)
    requires n.Valid() && n.layout.Has(u) && n.layout.Has(v)
    ensures 0 <= n.RowOf(u) < n.layout.Size() && (n.RowOf(u) == n.RowOf(v) ==> u == v)
  {
    var a := Renumbered(n, u);
    var b := Renumbered(n, v);
    UnknownOfRow(n.layout, a);
    if a != b {
      RowsDiffer(n.layout, a, b);
    }
  }

  ghost function Renumbered(n: Numbering, id: Unknown): (u: Unknown)
    requires n.Valid() && n.layout.Has(id)
    ensures n.layout.Has(u) && n.layout.Row(u) == n.RowOf(id)
  {
    match id
    case SideFlux(i) => SideFlux(n.side[i])
    case ElementPressure(i) => ElementPressure(n.el[i])
    case EdgePressure(i) => EdgePressure(n.edge[i])
  }

  /** Every row is the row of some side, element or edge. */
  lemma RowsCover(n: Numbering, row: nat) returns (id: Unknown)
    requires n.Valid() && row < n.layout.Size()
    ensures n.layout.Has(id) && n.RowOf(id) == row
  {
    RowOfUnknown(n.layout, row);
    match n.layout.UnknownAt(row)
    case SideFlux(v) => {
      assert v in n.side;
      var i :| 0 <= i < |n.side| && n.side[i] == v;
      id := SideFlux(i);
    }
    case ElementPressure(v) => {
      assert v in n.el;
      var i :| 0 <= i < |n.el| && n.el[i] == v;
      id := ElementPressure(i);
    }
    case EdgePressure(v) => {
      assert v in n.edge;
      var i :| 0 <= i < |n.edge| && n.edge[i] == v;
      id := EdgePressure(i);
    }
  }
}
