/** Distribution of the degrees of freedom of finite elements over the cells of a mesh, process by process. */
module DofHandler {
  import opened Options

  /** How many groups of each multiplicity (1, 2, 3, 6) a finite element has on the cell itself. */
  datatype FiniteElement = FiniteElement(single: nat, pairs: nat, triples: nat, sextuples: nat) {
    /** Number of degrees of freedom on the cell. */
    function OnCell(): nat {
      single * 1 + pairs * 2 + triples * 3 + sextuples * 6
    }
  }

  /** A cell of dimension 1, 2 or 3 and the process it belongs to. */
  datatype Cell = Cell(dim: nat, part: int)

  /** The finite elements of dimensions 1, 2 and 3. */
  datatype Elements = Elements(fe1: FiniteElement, fe2: FiniteElement, fe3: FiniteElement) {
    function Of(dim: nat): FiniteElement {
      if dim == 1 then fe1 else if dim == 2 then fe2 else fe3
    }
  }

  function Count(fes: Elements, c: Cell): nat {
    fes.Of(c.dim).OnCell()
  }

  /** Degrees of freedom of process `p` on the first `k` cells. */
  function OfProc(cells: seq<Cell>, fes: Elements, p: int, k: nat): nat
    requires k <= |cells|
  {
    if k == 0 then 0
    else OfProc(cells, fes, p, k - 1) + (if cells[k - 1].part == p then Count(fes, cells[k - 1]) else 0)
  }

  /** Degrees of freedom of the first `p` processes. */
  function Before(cells: seq<Cell>, fes: Elements, p: nat): nat {
    if p == 0 then 0 else Before(cells, fes, p - 1) + OfProc(cells, fes, p - 1, |cells|)
  }

  /** The first degree of freedom of a cell. */
  function First(cells: seq<Cell>, fes: Elements, offset: nat, k: nat): nat
    requires k < |cells| && cells[k].part >= 0
  {
    offset + Before(cells, fes, cells[k].part) + OfProc(cells, fes, cells[k].part, k)
  }

  function Range(first: nat, count: nat): (r: seq<nat>)
    ensures |r| == count
  {
    seq(count, i requires 0 <= i < count => first + i)
  }

  // ---------------------------------------------------------------- the numbers tile an interval

  lemma {:induction false} OfProcGrows(cells: seq<Cell>, fes: Elements, p: int, k: nat, l: nat)
    requires k <= l <= |cells|
    ensures OfProc(cells, fes, p, k) <= OfProc(cells, fes, p, l)
    decreases l
  {
    if k < l {
      OfProcGrows(cells, fes, p, k, l - 1);
    }
  }

  lemma {:induction false} BeforeGrows(cells: seq<Cell>, fes: Elements, p: nat, q: nat)
    requires p <= q
    ensures Before(cells, fes, p) <= Before(cells, fes, q)
    decreases q
  {
    if p < q {
      BeforeGrows(cells, fes, p, q - 1);
    }
  }

  /** A cell of process `part` has its numbers in the block of the process, behind those of earlier cells. */
  lemma InBlock(cells: seq<Cell>, fes: Elements, offset: nat, np: nat, k: nat)
    requires k < |cells| && 0 <= cells[k].part < np
    ensures var p := cells[k].part;
            && offset + Before(cells, fes, p) <= First(cells, fes, offset, k)
            && First(cells, fes, offset, k) + Count(fes, cells[k]) <= offset + Before(cells, fes, p + 1) <= offset + Before(cells, fes, np)
  {
    var p := cells[k].part;
    OfProcGrows(cells, fes, p, k + 1, |cells|);
    BeforeGrows(cells, fes, p + 1, np);
  }

  /** Cells have disjoint numbers: those of an earlier process, or of an earlier cell of the same one, are smaller. */
  lemma Disjoint(cells: seq<Cell>, fes: Elements, offset: nat, np: nat, k: nat, l: nat)
    requires k < |cells| && l < |cells| && 0 <= cells[k].part < np && 0 <= cells[l].part < np
    requires cells[k].part < cells[l].part || (cells[k].part == cells[l].part && k < l)
    ensures First(cells, fes, offset, k) + Count(fes, cells[k]) <= First(cells, fes, offset, l)
  {
    InBlock(cells, fes, offset, np, k);
    InBlock(cells, fes, offset, np, l);
    if cells[k].part < cells[l].part {
      BeforeGrows(cells, fes, cells[k].part + 1, cells[l].part);
    } else {
      OfProcGrows(cells, fes, cells[k].part, k + 1, l);
    }
  }

  /** Every number of the interval belongs to a cell. */
  lemma {:induction false} OwnerOf(cells: seq<Cell>, fes: Elements, offset: nat, p: nat, d: nat) returns (k: nat)
    requires offset <= d < offset + Before(cells, fes, p)
    ensures k < |cells| && 0 <= cells[k].part < p
    ensures First(cells, fes, offset, k) <= d < First(cells, fes, offset, k) + Count(fes, cells[k])
  {
    if d < offset + Before(cells, fes, p - 1) {
      k := OwnerOf(cells, fes, offset, p - 1, d);
    } else {
      k := OwnerInProc(cells, fes, offset, p - 1, d, |cells|);
    }
  }

  lemma {:induction false} OwnerInProc(cells: seq<Cell>, fes: Elements, offset: nat, p: nat, d: nat, n: nat) returns (k: nat)
    requires n <= |cells| && offset + Before(cells, fes, p) <= d < offset + Before(cells, fes, p) + OfProc(cells, fes, p, n)
    ensures k < n && cells[k].part == p
    ensures First(cells, fes, offset, k) <= d < First(cells, fes, offset, k) + Count(fes, cells[k])
  {
    if d < offset + Before(cells, fes, p) + OfProc(cells, fes, p, n - 1) {
      k := OwnerInProc(cells, fes, offset, p, d, n - 1);
    } else {
      k := n - 1;
    }
  }

  /** All numbers together are those of the cells of the processes. */
  function AllCounts(cells: seq<Cell>, fes: Elements, np: nat, k: nat): nat
    requires k <= |cells|
  {
    if k == 0 then 0
    else AllCounts(cells, fes, np, k - 1) + (if 0 <= cells[k - 1].part < np then Count(fes, cells[k - 1]) else 0)
  }

  lemma {:induction false} CountsByProc(cells: seq<Cell>, fes: Elements, np: nat)
    ensures Before(cells, fes, np) == AllCounts(cells, fes, np, |cells|)
  {
    if np == 0 {
      NoProcs(cells, fes, |cells|);
    } else {
      CountsByProc(cells, fes, np - 1);
      OneMoreProc(cells, fes, np - 1, |cells|);
    }
  }

  lemma {:induction false} NoProcs(cells: seq<Cell>, fes: Elements, k: nat)
    requires k <= |cells|
    ensures AllCounts(cells, fes, 0, k) == 0
  {
    if k > 0 {
      NoProcs(cells, fes, k - 1);
    }
  }

  lemma {:induction false} OneMoreProc(cells: seq<Cell>, fes: Elements, p: nat, k: nat)
    requires k <= |cells|
    ensures AllCounts(cells, fes, p + 1, k) == AllCounts(cells, fes, p, k) + OfProc(cells, fes, p, k)
  {
    if k > 0 {
      OneMoreProc(cells, fes, p, k - 1);
    }
  }

  // ---------------------------------------------------------------- the handler

  /** What the table holds for a cell once the first `p` processes and `k` cells of the next one are done. */
  function Entry(cells: seq<Cell>, fes: Elements, offset: nat, p: nat, k: nat, c: nat): Option<seq<nat>>
    requires c < |cells|
  {
    var part := cells[c].part;
    if 0 <= part < p || (part == p && c < k) then Some(Range(First(cells, fes, offset, c), Count(fes, cells[c]))) else None
  }

  class DOFHandlerMultiDim {
    /** Numbers on the cells themselves; nothing before they are distributed. */
    var objectDofs: seq<Option<seq<nat>>>
    var fes: Option<Elements>
    var globalOffset: nat
    var loffset: nat
    var lsize: nat
    var nDofs: nat

    constructor (nCells: nat)
      ensures objectDofs == seq(nCells, _ => None) && fes.None?
    {
      objectDofs, fes := seq(nCells, _ => None), None;
      globalOffset, loffset, lsize, nDofs := 0, 0, 0, 0;
    }

    ghost predicate Done(cells: seq<Cell>, e: Elements, offset: nat, p: nat, k: nat)
      reads this`objectDofs
    {
      |objectDofs| == |cells| && forall c | 0 <= c < |cells| :: objectDofs[c] == Entry(cells, e, offset, p, k, c)
    }

    /** Numbers the cells of process 0, then of process 1 and so on; `myp` is the process that runs this. */
    method DistributeDofs(cells: seq<Cell>, np: nat, myp: nat, e: Elements, offset: nat)
      requires fes.None? && |objectDofs| == |cells| && (forall d <- objectDofs :: d.None?) && myp < np
      modifies this
      ensures Done(cells, e, offset, np, 0) && fes == Some(e) && globalOffset == offset
      ensures nDofs == Before(cells, e, np)
      ensures loffset == offset + Before(cells, e, myp) && lsize == OfProc(cells, e, myp, |cells|)
    {
      var nextFreeDof := offset;
      fes, globalOffset := Some(e), offset;
      for p := 0 to np
        invariant Done(cells, e, offset, p, 0) && nextFreeDof == offset + Before(cells, e, p)
        invariant fes == Some(e) && globalOffset == offset
        invariant myp < p ==> loffset == offset + Before(cells, e, myp) && lsize == OfProc(cells, e, myp, |cells|)
      {
        if p == myp {
          loffset := nextFreeDof;
        }
        nextFreeDof := DistributeProc(cells, p, e, offset, nextFreeDof);
        if p == myp {
          lsize := nextFreeDof - loffset;
        }
      }
      nDofs := nextFreeDof - offset;
    }

    /** Numbers the cells of one process. */
    method DistributeProc(cells: seq<Cell>, p: nat, e: Elements, offset: nat, free: nat) returns (nextFreeDof: nat)
      requires Done(cells, e, offset, p, 0) && free == offset + Before(cells, e, p)
      modifies this`objectDofs
      ensures Done(cells, e, offset, p + 1, 0) && nextFreeDof == free + OfProc(cells, e, p, |cells|)
    {
      nextFreeDof := free;
      for k := 0 to |cells|
        invariant Done(cells, e, offset, p, k) && nextFreeDof == free + OfProc(cells, e, p, k)
      {
        if cells[k].part == p {
          var dofs: seq<nat> := [];
          for i := 0 to Count(e, cells[k])
            invariant dofs == Range(First(cells, e, offset, k), i) && nextFreeDof == First(cells, e, offset, k) + i
          {
            dofs := dofs + [nextFreeDof];
            nextFreeDof := nextFreeDof + 1;
          }
          objectDofs := objectDofs[k := Some(dofs)];
        }
      }
    }

    /** The numbers of a cell as they are handed out: those of multiplicity one only. */
    method GetDofIndices(cell: Cell, k: nat) returns (indices: seq<nat>)
      requires k < |objectDofs| && objectDofs[k].Some? && fes.Some? && fes.value.Of(cell.dim).single <= |objectDofs[k].value|
      ensures indices == objectDofs[k].value[..fes.value.Of(cell.dim).single]
    {
      indices := [];
      for i := 0 to fes.value.Of(cell.dim).single
        invariant indices == objectDofs[k].value[..i]
      {
        indices := indices + [objectDofs[k].value[i]];
      }
    }

    /** All numbers of a cell are handed out exactly when its finite element has no groups. */
    lemma AllIndicesIff(cells: seq<Cell>, e: Elements, offset: nat, np: nat, k: nat)
      requires Done(cells, e, offset, np, 0) && fes == Some(e) && k < |cells| && 0 <= cells[k].part < np
      ensures objectDofs[k].Some? && e.Of(cells[k].dim).single <= |objectDofs[k].value|
      ensures var fe := e.Of(cells[k].dim);
              objectDofs[k].value[..fe.single] == objectDofs[k].value <==> fe.pairs == 0 && fe.triples == 0 && fe.sextuples == 0
    {
      var fe, dofs := e.Of(cells[k].dim), objectDofs[k].value;
      assert |dofs| == fe.OnCell();
      if fe.single == |dofs| {
        assert dofs[..fe.single] == dofs;
      }
    }
  }

  /** An element with one single number and a pair on a line: three numbers are distributed, one is handed out. */
  method PairIsKeptBack() returns (distributed: seq<nat>, handedOut: seq<nat>)
    ensures distributed == [0, 1, 2] && handedOut == [0]
  {
    var cells, none := [Cell(1, 0)], FiniteElement(0, 0, 0, 0);
    var e := Elements(FiniteElement(1, 1, 0, 0), none, none);
    var handler := new DOFHandlerMultiDim(1);
    handler.DistributeDofs(cells, 1, 0, e, 0);
    assert handler.objectDofs[0] == Entry(cells, e, 0, 1, 0, 0) && Count(e, cells[0]) == 3;
    distributed := handler.objectDofs[0].value;
    assert distributed[..1] == [0];
    handedOut := handler.GetDofIndices(cells[0], 0);
  }

  /**
   * After the distribution the numbers of the cells tile the interval from the offset on: every number belongs to exactly one
   * cell, and those of the process that ran it are exactly its local interval.
   */
  lemma NumbersTile(cells: seq<Cell>, fes: Elements, offset: nat, np: nat, myp: nat, d: nat) returns (k: nat)
    requires myp < np && offset <= d < offset + Before(cells, fes, np)
    ensures k < |cells| && 0 <= cells[k].part < np && d in Range(First(cells, fes, offset, k), Count(fes, cells[k]))
    ensures forall l | 0 <= l < |cells| && 0 <= cells[l].part < np && l != k ::
              d !in Range(First(cells, fes, offset, l), Count(fes, cells[l]))
    ensures var lo := offset + Before(cells, fes, myp);
            cells[k].part == myp <==> lo <= d < lo + OfProc(cells, fes, myp, |cells|)
  {
    k := OwnerOf(cells, fes, offset, np, d);
    assert Range(First(cells, fes, offset, k), Count(fes, cells[k]))[d - First(cells, fes, offset, k)] == d;
    forall l | 0 <= l < |cells| && 0 <= cells[l].part < np && l != k
      ensures d !in Range(First(cells, fes, offset, l), Count(fes, cells[l]))
    {
      if cells[l].part < cells[k].part || (cells[l].part == cells[k].part && l < k) {
        Disjoint(cells, fes, offset, np, l, k);
      } else {
        Disjoint(cells, fes, offset, np, k, l);
      }
    }
    InBlock(cells, fes, offset, np, k);
    if cells[k].part < myp {
      BeforeGrows(cells, fes, cells[k].part + 1, myp);
    } else if myp < cells[k].part {
      BeforeGrows(cells, fes, myp + 1, cells[k].part);
    }
  }
}
