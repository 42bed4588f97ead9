/** The time term of unsteady Darcy flow: setup of the diagonal, its rescaling with the step, the system that is solved. */
module TimeTerm {
  import opened Matrices
  import opened Times
  import opened TimeMarks
  import opened TimeGovernor
  import opened GovernorRuns

  // ---------------------------------------------------------------- matrices

  function Dot(row: Vector, x: Vector): real
    requires |row| == |x|
    decreases |x|
  {
    if x == [] then 0.0 else row[0] * x[0] + Dot(row[1..], x[1..])
  }

  function Diagonal(a: Matrix): Vector
    requires Square(a, |a|)
  {
    seq(|a|, r requires 0 <= r < |a| => a[r][r])
  }

  function SetDiagonal(a: Matrix, d: Vector): (b: Matrix)
    requires Square(a, |d|)
    ensures Square(b, |d|)
  {
    seq(|d|, r requires 0 <= r < |d| => a[r][r := d[r]])
  }

  function AddDiagonal(a: Matrix, d: Vector): (b: Matrix)
    requires Square(a, |d|)
    ensures Square(b, |d|)
  {
    seq(|d|, r requires 0 <= r < |d| => a[r][r := a[r][r] + d[r]])
  }

  function Scaled(d: Vector, f: real): Vector {
    seq(|d|, r requires 0 <= r < |d| => d[r] * f)
  }

  function PointwisePlus(d: Vector, x: Vector, b: Vector): Vector
    requires |d| == |x| == |b|
  {
    seq(|d|, r requires 0 <= r < |d| => d[r] * x[r] + b[r])
  }

  predicate Solves(a: Matrix, x: Vector, b: Vector) {
    Square(a, |b|) && |x| == |b| && forall r | 0 <= r < |b| :: Dot(a[r], x) == b[r]
  }

  lemma {:induction false} DotRaised(row: Vector, x: Vector, i: nat, d: real)
    requires |row| == |x| && i < |x|
    ensures Dot(row[i := row[i] + d], x) == Dot(row, x) + d * x[i]
    decreases |x|
  {
    if i == 0 {
      assert row[0 := row[0] + d][1..] == row[1..];
      assert (row[0] + d) * x[0] == row[0] * x[0] + d * x[0];
    } else {
      assert row[i := row[i] + d][1..] == row[1..][i - 1 := row[1..][i - 1] + d];
      DotRaised(row[1..], x[1..], i - 1, d);
    }
  }

  // ---------------------------------------------------------------- the system and its rescaling

  datatype System = System(
    matrix: Matrix, rhs: Vector, solution: Vector, previous: Vector,
    steadyDiagonal: Vector, newDiagonal: Vector, steadyRhs: Vector)
  {
    predicate Sized(n: nat) {
      && Square(matrix, n) && |rhs| == |solution| == |previous| == n
      && |steadyDiagonal| == |newDiagonal| == |steadyRhs| == n
    }
  }

  /** Before the solve: the diagonal follows a changed step, the old solution enters the right-hand side. */
  function Modified(s: System, changed: bool, lastDt: real, dt: real): (t: System)
    requires s.Sized(|s.rhs|) && dt != 0.0
    ensures t.Sized(|s.rhs|)
  {
    var d := if changed then Scaled(s.newDiagonal, lastDt / dt) else s.newDiagonal;
    var a := if changed then AddDiagonal(SetDiagonal(s.matrix, s.steadyDiagonal), d) else s.matrix;
    System(a, PointwisePlus(d, s.solution, s.steadyRhs), s.previous, s.solution, s.steadyDiagonal, d, s.steadyRhs)
  }

  /** The matrix is the steady one plus a diagonal that, times the step, is the storage. */
  ghost predicate Holds(s: System, steady: Matrix, b: Vector, storage: Vector, dt: real) {
    && dt > 0.0 && Square(steady, |b|) && |storage| == |b| && s.Sized(|b|)
    && s.steadyDiagonal == Diagonal(steady) && s.steadyRhs == b
    && s.matrix == AddDiagonal(steady, s.newDiagonal)
    && Fits(s.newDiagonal, storage, dt)
  }

  /** A diagonal that, times the step, is the storage. */
  predicate Fits(d: Vector, storage: Vector, dt: real) {
    |d| == |storage| && forall r | 0 <= r < |d| :: IsShare(d[r], dt, storage[r])
  }

  predicate IsShare(d: real, dt: real, storage: real) {
    d * dt == storage
  }

  /** The implicit Euler scheme with step `dt`, row by row. */
  ghost predicate BackwardEuler(steady: Matrix, b: Vector, storage: Vector, dt: real, old_: Vector, x: Vector) {
    && Square(steady, |b|) && |storage| == |old_| == |x| == |b| && dt > 0.0
    && forall r | 0 <= r < |b| :: EulerRow(Dot(steady[r], x), b[r], storage[r], dt, old_[r], x[r])
  }

  predicate EulerRow(ax: real, b: real, storage: real, dt: real, was: real, x: real) {
    dt * (ax - b) + storage * (x - was) == 0.0
  }

  lemma Rescale(d: real, last: real, dt: real, storage: real)
    requires last > 0.0 && dt > 0.0 && d * last == storage
    ensures (d * (last / dt)) * dt == storage
  {
    Quotient(last, dt);
    assert (d * (last / dt)) * dt == d * ((last / dt) * dt);
  }

  /** Rescaling exactly when the step has changed keeps the storage. */
  lemma ModifiedHolds(s: System, steady: Matrix, b: Vector, storage: Vector, last: real, dt: real, changed: bool)
    requires Holds(s, steady, b, storage, last) && dt > 0.0 && (changed <==> dt != last)
    ensures Holds(Modified(s, changed, last, dt), steady, b, storage, dt)
  {
    var t := Modified(s, changed, last, dt);
    if changed {
      forall r | 0 <= r < |b|
        ensures IsShare(t.newDiagonal[r], dt, storage[r])
        ensures t.matrix[r] == steady[r][r := steady[r][r] + t.newDiagonal[r]]
      {
        assert IsShare(s.newDiagonal[r], last, storage[r]);
        Rescale(s.newDiagonal[r], last, dt, storage[r]);
        assert s.matrix[r] == steady[r][r := steady[r][r] + s.newDiagonal[r]];
      }
      assert t.matrix == AddDiagonal(steady, t.newDiagonal);
    }
  }

  lemma EulerArithmetic(ax: real, d: real, x: real, was: real, b: real, dt: real, storage: real)
    requires ax + d * x == d * was + b && d * dt == storage
    ensures EulerRow(ax, b, storage, dt, was, x)
  {
    assert ax - b == d * (was - x);
    assert dt * (d * (was - x)) == storage * (was - x);
  }

  /** An exact solution of a system that fits the step is one step of the implicit Euler scheme. */
  lemma SolvedIsEuler(t: System, steady: Matrix, b: Vector, storage: Vector, dt: real, was: Vector, x: Vector)
    requires Holds(t, steady, b, storage, dt) && |was| == |b| && t.rhs == PointwisePlus(t.newDiagonal, was, b)
    requires Solves(t.matrix, x, t.rhs)
    ensures BackwardEuler(steady, b, storage, dt, was, x)
  {
    forall r | 0 <= r < |b|
      ensures EulerRow(Dot(steady[r], x), b[r], storage[r], dt, was[r], x[r])
    {
      var d := t.newDiagonal[r];
      assert IsShare(d, dt, storage[r]);
      assert t.matrix[r] == steady[r][r := steady[r][r] + d];
      DotRaised(steady[r], x, r, d);
      EulerArithmetic(Dot(steady[r], x), d, x[r], was[r], b[r], dt, storage[r]);
    }
  }

  // ---------------------------------------------------------------- whole runs

  /** One solved step; afterwards only rows without storage, the side fluxes, may be changed. */
  ghost predicate Solved(s: System, t: System, changed: bool, last: real, dt: real, storage: Vector, x: Vector) {
    && s.Sized(|s.rhs|) && dt != 0.0
    && var m := Modified(s, changed, last, dt);
    && Solves(m.matrix, x, m.rhs) && |t.solution| == |storage| == |x| && t == m.(solution := t.solution)
    && forall r | 0 <= r < |x| :: storage[r] != 0.0 ==> t.solution[r] == x[r]
  }

  /** A run of the flow equation: systems and solver answers along a run of its governor. */
  ghost predicate IsFlowRun(gs: seq<Gov>, ops: seq<Op>, ms: seq<TimeMark>, ss: seq<System>, xs: seq<Vector>, storage: Vector,
                            bound: real) {
    && IsRun(gs, ops, ms, bound) && |ss| == |gs| && |xs| == |ops|
    && forall i | 0 <= i < |ops| :: FlowStepAt(gs, ops, ss, xs, storage, i)
  }

  ghost predicate FlowStepAt(gs: seq<Gov>, ops: seq<Op>, ss: seq<System>, xs: seq<Vector>, storage: Vector, i: nat)
    requires i < |ops| < |gs| && |ss| == |gs| && |xs| == |ops|
  {
    if Effective(gs[i], ops[i]) then
      var g := gs[i + 1];
      g.timeStep.Fin? && g.lastStep.Fin? && Solved(ss[i], ss[i + 1], g.dtChanged, g.lastStep.t, g.timeStep.t, storage, xs[i])
    else ss[i + 1] == ss[i]
  }

  /** In every run the diagonal fits the current step, whenever and however often the step changes. */
  lemma {:induction false} RunHolds(gs: seq<Gov>, ops: seq<Op>, ms: seq<TimeMark>, ss: seq<System>, xs: seq<Vector>,
                                    steady: Matrix, b: Vector, storage: Vector, bound: real, i: nat)
    requires IsFlowRun(gs, ops, ms, ss, xs, storage, bound) && Inv(gs[0], ms, bound) && i < |gs|
    requires gs[0].timeStep.Fin? && Holds(ss[0], steady, b, storage, gs[0].timeStep.t)
    ensures gs[i].timeStep.Fin? && Holds(ss[i], steady, b, storage, gs[i].timeStep.t)
    decreases i
  {
    if i > 0 {
      RunHolds(gs, ops, ms, ss, xs, steady, b, storage, bound, i - 1);
      FlowStep(gs, ops, ms, ss, xs, steady, b, storage, bound, i - 1);
    }
  }

  lemma NewSolutionHolds(m: System, t: System, steady: Matrix, b: Vector, storage: Vector, dt: real)
    requires Holds(m, steady, b, storage, dt) && t == m.(solution := t.solution) && |t.solution| == |b|
    ensures Holds(t, steady, b, storage, dt)
  {
  }

  /** One solved step keeps the fit and is an implicit Euler step. */
  lemma SolvedStep(s: System, t: System, changed: bool, last: real, dt: real, steady: Matrix, b: Vector, storage: Vector, x: Vector)
    requires Holds(s, steady, b, storage, last) && dt > 0.0 && (changed <==> dt != last)
    requires Solved(s, t, changed, last, dt, storage, x)
    ensures Holds(t, steady, b, storage, dt) && BackwardEuler(steady, b, storage, dt, s.solution, x)
  {
    var m := Modified(s, changed, last, dt);
    ModifiedHolds(s, steady, b, storage, last, dt, changed);
    NewSolutionHolds(m, t, steady, b, storage, dt);
    SolvedIsEuler(m, steady, b, storage, dt, s.solution, x);
  }

  /** What the governor contributes to a solved step. */
  lemma GovernorStep(gs: seq<Gov>, ops: seq<Op>, ms: seq<TimeMark>, bound: real, i: nat)
    requires IsRun(gs, ops, ms, bound) && Inv(gs[0], ms, bound) && i < |ops| && gs[i].timeStep.Fin?
    ensures var g, h := gs[i], gs[i + 1];
            if Effective(g, ops[i]) then
              && g.time.Fin? && h.timeStep.Fin? && h.timeStep.t > 0.0 && h.lastStep == g.timeStep
              && (h.dtChanged <==> h.timeStep != g.timeStep) && h.time == Fin(g.time.t + h.timeStep.t)
            else h.timeStep == g.timeStep
  {
    RunKeepsInvariant(gs, ops, ms, bound, i);
    assert TransitionAt(gs, ops, ms, bound, i);
    if Effective(gs[i], ops[i]) {
      var m, d := EffectiveSafe(gs[i], gs[i + 1], ms, ops[i], bound);
    } else {
      IdleStep(gs[i], gs[i + 1], ms, ops[i]);
    }
  }

  lemma FlowStep(gs: seq<Gov>, ops: seq<Op>, ms: seq<TimeMark>, ss: seq<System>, xs: seq<Vector>,
                 steady: Matrix, b: Vector, storage: Vector, bound: real, i: nat)
    requires IsFlowRun(gs, ops, ms, ss, xs, storage, bound) && Inv(gs[0], ms, bound) && i < |ops|
    requires gs[i].timeStep.Fin? && Holds(ss[i], steady, b, storage, gs[i].timeStep.t)
    ensures gs[i + 1].timeStep.Fin? && Holds(ss[i + 1], steady, b, storage, gs[i + 1].timeStep.t)
    ensures Effective(gs[i], ops[i]) ==>
              BackwardEuler(steady, b, storage, gs[i + 1].timeStep.t, ss[i].solution, xs[i])
  {
    GovernorStep(gs, ops, ms, bound, i);
    assert FlowStepAt(gs, ops, ss, xs, storage, i);
    var h := gs[i + 1];
    if Effective(gs[i], ops[i]) {
      SolvedStep(ss[i], ss[i + 1], h.dtChanged, h.lastStep.t, h.timeStep.t, steady, b, storage, xs[i]);
    }
  }

  /** In every run the state after a solved step remembers the solution before it. */
  lemma RunRemembersPrevious(gs: seq<Gov>, ops: seq<Op>, ms: seq<TimeMark>, ss: seq<System>, xs: seq<Vector>,
                             storage: Vector, bound: real, i: nat)
    requires IsFlowRun(gs, ops, ms, ss, xs, storage, bound) && i < |ops| && Effective(gs[i], ops[i])
    ensures ss[i + 1].previous == ss[i].solution
  {
    assert FlowStepAt(gs, ops, ss, xs, storage, i);
  }

  lemma IdleStep(g: Gov, h: Gov, ms: seq<TimeMark>, op: Op)
    requires Transition(g, h, ms, op) && !Effective(g, op)
    ensures h.timeStep == g.timeStep
  {
  }

  /** Every solved step of every run is an implicit Euler step with exactly the time step the governor took. */
  lemma RunIsBackwardEuler(gs: seq<Gov>, ops: seq<Op>, ms: seq<TimeMark>, ss: seq<System>, xs: seq<Vector>,
                           steady: Matrix, b: Vector, storage: Vector, bound: real, i: nat)
    requires IsFlowRun(gs, ops, ms, ss, xs, storage, bound) && Inv(gs[0], ms, bound) && i < |ops| && Effective(gs[i], ops[i])
    requires gs[0].timeStep.Fin? && Holds(ss[0], steady, b, storage, gs[0].timeStep.t)
    ensures gs[i + 1].timeStep.Fin? && gs[i].time.Fin? && gs[i + 1].time == Fin(gs[i].time.t + gs[i + 1].timeStep.t)
    ensures BackwardEuler(steady, b, storage, gs[i + 1].timeStep.t, ss[i].solution, xs[i])
  {
    RunHolds(gs, ops, ms, ss, xs, steady, b, storage, bound, i);
    FlowStep(gs, ops, ms, ss, xs, steady, b, storage, bound, i);
    GovernorStep(gs, ops, ms, bound, i);
  }

  // ---------------------------------------------------------------- setup

  /** An element of the mesh as the time term sees it: its data and the rows of the edges of its sides. */
  datatype Element = Element(measure: real, crossSection: real, storativity: real, initPressure: real, edgeRows: seq<nat>)

  predicate RowsWithin(es: seq<Element>, n: nat) {
    forall e, i | e in es && 0 <= i < |e.edgeRows| :: e.edgeRows[i] < n
  }

  /** Storage of a side, a share of that of its element; it enters with a negative sign. */
  function SideStorage(e: Element): real
    requires |e.edgeRows| > 0
  {
    StorageShare(e.measure, e.crossSection, e.storativity, |e.edgeRows|)
  }

  function StorageShare(measure: real, crossSection: real, storativity: real, sides: nat): real
    requires sides > 0
  {
    -measure * crossSection * storativity / sides as real
  }

  /** The time term of a side as it is added to the diagonal. */
  function SideTerm(e: Element, dt: real): real
    requires |e.edgeRows| > 0 && dt > 0.0
  {
    -e.measure * e.storativity * e.crossSection / dt / |e.edgeRows| as real
  }

  function SideInitial(e: Element): real
    requires |e.edgeRows| > 0
  {
    e.initPressure / |e.edgeRows| as real
  }

  /** `v` for each of the first `k` sides whose edge has row `r`. */
  function SidesSum(e: Element, k: nat, r: nat, v: real): real
    requires k <= |e.edgeRows|
  {
    if k == 0 then 0.0 else SidesSum(e, k - 1, r, v) + (if e.edgeRows[k - 1] == r then v else 0.0)
  }

  /** The values `vs` of the elements, once for each side whose edge has row `r`. */
  function MeshSum(es: seq<Element>, vs: Vector, k: nat, r: nat): real
    requires k <= |es| == |vs|
  {
    if k == 0 then 0.0 else MeshSum(es, vs, k - 1, r) + SidesSum(es[k - 1], |es[k - 1].edgeRows|, r, vs[k - 1])
  }

  predicate HaveSides(es: seq<Element>) {
    forall e | e in es :: |e.edgeRows| > 0
  }

  function SideTerms(es: seq<Element>, dt: real): Vector
    requires HaveSides(es) && dt > 0.0
  {
    seq(|es|, i requires 0 <= i < |es| => SideTerm(es[i], dt))
  }

  function SideInitials(es: seq<Element>): Vector
    requires HaveSides(es)
  {
    seq(|es|, i requires 0 <= i < |es| => SideInitial(es[i]))
  }

  function SideStorages(es: seq<Element>): Vector
    requires HaveSides(es)
  {
    seq(|es|, i requires 0 <= i < |es| => SideStorage(es[i]))
  }

  /** Storage of the rows: the shares of all sides whose edge has the row. */
  function Storage(es: seq<Element>, n: nat): Vector
    requires HaveSides(es)
  {
    seq(n, r requires 0 <= r < n => MeshSum(es, SideStorages(es), |es|, r))
  }

  /** Initial value of a row: the sum over the sides of its edge, not their mean. */
  function InitialValue(es: seq<Element>, r: nat): real
    requires HaveSides(es)
  {
    MeshSum(es, SideInitials(es), |es|, r)
  }

  /** How much of a uniform pressure the sides of an edge bring to its row. */
  function SideShares(es: seq<Element>, r: nat): real {
    MeshSum(es, seq(|es|, i requires 0 <= i < |es| => if es[i].edgeRows == [] then 0.0 else 1.0 / |es[i].edgeRows| as real),
            |es|, r)
  }

  lemma ScaledSum(a: real, b: real, x: real, y: real, c: real)
    requires IsShare(x, c, a) && IsShare(y, c, b)
    ensures IsShare(x + y, c, a + b)
  {
  }

  lemma {:induction false} SidesSumScales(e: Element, k: nat, r: nat, v: real, w: real, c: real)
    requires k <= |e.edgeRows| && IsShare(v, c, w)
    ensures IsShare(SidesSum(e, k, r, v), c, SidesSum(e, k, r, w))
  {
    if k > 0 {
      SidesSumScales(e, k - 1, r, v, w, c);
      ScaledSum(SidesSum(e, k - 1, r, w), w, SidesSum(e, k - 1, r, v), v, c);
    }
  }

  lemma {:induction false} MeshSumScales(es: seq<Element>, vs: Vector, ws: Vector, k: nat, r: nat, c: real)
    requires k <= |es| == |vs| == |ws| && forall i | 0 <= i < |vs| :: IsShare(vs[i], c, ws[i])
    ensures IsShare(MeshSum(es, vs, k, r), c, MeshSum(es, ws, k, r))
  {
    if k > 0 {
      var n := |es[k - 1].edgeRows|;
      var v, w := vs[k - 1], ws[k - 1];
      assert IsShare(v, c, w);
      MeshSumScales(es, vs, ws, k - 1, r, c);
      SidesSumScales(es[k - 1], n, r, v, w, c);
      ScaledSum(MeshSum(es, ws, k - 1, r), SidesSum(es[k - 1], n, r, w),
                MeshSum(es, vs, k - 1, r), SidesSum(es[k - 1], n, r, v), c);
    }
  }

  lemma ShareTimesStep(m: real, c: real, s: real, dt: real, n: real)
    requires dt > 0.0 && n > 0.0
    ensures -m * c * s / n == (-m * s * c / dt / n) * dt
  {
    var q := -m * s * c;
    assert q == -m * c * s;
    Quotient(q, dt);
    Quotient(q / dt, n);
    Quotient(q, n);
    var x, y := q / dt / n, q / n;
    assert (x * dt) * n == (x * n) * dt == q == y * n;
    Scale(x * dt, y, n);
    Scale(y, x * dt, n);
  }

  lemma SideTermTimesStep(e: Element, dt: real)
    requires |e.edgeRows| > 0 && dt > 0.0
    ensures IsShare(SideTerm(e, dt), dt, SideStorage(e))
  {
    ShareTimesStep(e.measure, e.crossSection, e.storativity, dt, |e.edgeRows| as real);
  }

  /** The assembled diagonal times the step is the storage, whatever the step. */
  lemma DiagonalTimesStep(es: seq<Element>, r: nat, dt: real)
    requires HaveSides(es) && dt > 0.0
    ensures IsShare(MeshSum(es, SideTerms(es, dt), |es|, r), dt, MeshSum(es, SideStorages(es), |es|, r))
  {
    forall i | 0 <= i < |es|
      ensures IsShare(SideTerms(es, dt)[i], dt, SideStorages(es)[i])
    {
      assert es[i] in es;
      SideTermTimesStep(es[i], dt);
    }
    MeshSumScales(es, SideTerms(es, dt), SideStorages(es), |es|, r, dt);
  }

  /** The assembled diagonal fits the step. */
  lemma DiagonalFits(d: Vector, es: seq<Element>, dt: real)
    requires HaveSides(es) && dt > 0.0
    requires forall r | 0 <= r < |d| :: d[r] == MeshSum(es, SideTerms(es, dt), |es|, r)
    ensures Fits(d, Storage(es, |d|), dt)
  {
    forall r | 0 <= r < |d|
      ensures IsShare(d[r], dt, Storage(es, |d|)[r])
    {
      DiagonalTimesStep(es, r, dt);
    }
  }

  /** A uniform initial pressure arrives on an edge exactly when it is zero or the side shares of the edge sum to one. */
  lemma UniformPressureKeptIff(es: seq<Element>, r: nat, p: real)
    requires HaveSides(es) && forall e | e in es :: e.initPressure == p
    ensures InitialValue(es, r) == p <==> p == 0.0 || SideShares(es, r) == 1.0
  {
    var ones := seq(|es|, i requires 0 <= i < |es| => if es[i].edgeRows == [] then 0.0 else 1.0 / |es[i].edgeRows| as real);
    forall i | 0 <= i < |es|
      ensures IsShare(ones[i], p, SideInitials(es)[i])
    {
      assert es[i] in es;
      ShareOfPressure(p, |es[i].edgeRows| as real);
    }
    MeshSumScales(es, ones, SideInitials(es), |es|, r, p);
    UnitFactor(p, SideShares(es, r), InitialValue(es, r));
  }

  /** An edge at the end of a line of one element gets half of the pressure one. */
  lemma PressureHalved()
    ensures var es := [Element(1.0, 1.0, 1.0, 1.0, [0, 1])];
            HaveSides(es) && InitialValue(es, 0) == 0.5
  {
    var es := [Element(1.0, 1.0, 1.0, 1.0, [0, 1])];
    var vs := SideInitials(es);
    assert SidesSum(es[0], 1, 0, vs[0]) == SidesSum(es[0], 0, 0, vs[0]) + vs[0];
    assert SidesSum(es[0], 2, 0, vs[0]) == SidesSum(es[0], 1, 0, vs[0]);
    assert MeshSum(es, vs, 1, 0) == MeshSum(es, vs, 0, 0) + SidesSum(es[0], 2, 0, vs[0]);
  }

  lemma ShareOfPressure(p: real, n: real)
    requires n > 0.0
    ensures p / n == (1.0 / n) * p
  {
  }

  lemma UnitFactor(p: real, x: real, v: real)
    requires v == x * p
    ensures v == p <==> p == 0.0 || x == 1.0
  {
    if p > 0.0 {
      Scale(x, 1.0, p);
      Scale(1.0, x, p);
    } else if p < 0.0 {
      Scale(x, 1.0, -p);
      Scale(1.0, x, -p);
      assert x * -p == -(x * p);
    }
  }

  // ---------------------------------------------------------------- storage on elements

  /** Storage of an element in the scheme that is not lumped; the cross-section does not enter. */
  function ElementStorage(e: Element): real {
    -e.storativity * e.measure
  }

  /** Storage of the rows when the rows of the elements follow each other from `first` on. */
  function ElementStorages(es: seq<Element>, first: nat, n: nat): Vector {
    seq(n, r requires 0 <= r < n => if first <= r < first + |es| then ElementStorage(es[r - first]) else 0.0)
  }

  /** The lumped scheme stores in the sides of an element what the other stores in the element exactly if its cross-section is one. */
  lemma SchemesStoreAlikeIff(e: Element)
    requires |e.edgeRows| > 0
    ensures SideStorage(e) * |e.edgeRows| as real == ElementStorage(e) <==> e.crossSection == 1.0 || e.measure * e.storativity == 0.0
  {
    var n, q, m := |e.edgeRows| as real, -e.measure * e.crossSection * e.storativity, e.measure * e.storativity;
    Quotient(q, n);
    assert q == -(m * e.crossSection) && ElementStorage(e) == -m;
    UnitFactor(m, e.crossSection, m * e.crossSection);
  }

  /** An element with cross-section two stores twice as much in the lumped scheme. */
  lemma SchemesDiffer()
    ensures var e := Element(1.0, 2.0, 1.0, 0.0, [0, 1]);
            SideStorage(e) * 2.0 == -2.0 && ElementStorage(e) == -1.0
  {
  }

  class FlowSystem {
    var matrix: Matrix
    var rhs: Vector
    var solution: Vector
    var previous: Vector
    var steadyDiagonal: Vector
    var newDiagonal: Vector
    var steadyRhs: Vector

    constructor (a: Matrix, b: Vector)
      requires Square(a, |b|)
      ensures matrix == a && rhs == b && |solution| == |b|
    {
      matrix, rhs := a, b;
      solution := seq(|b|, _ => 0.0);
      previous, steadyDiagonal, newDiagonal, steadyRhs := [], [], [], [];
    }

    function State(): System
      reads this
    {
      System(matrix, rhs, solution, previous, steadyDiagonal, newDiagonal, steadyRhs)
    }

    /** The shares of one element for the diagonal and the initial edge pressures. */
    method AddElement(e: Element, dt: real)
      requires |solution| == |newDiagonal| && dt > 0.0 && |e.edgeRows| > 0 && RowsWithin([e], |newDiagonal|)
      modifies this`newDiagonal, this`solution
      ensures |newDiagonal| == |solution| == old(|newDiagonal|)
      ensures forall r | 0 <= r < |newDiagonal| ::
                newDiagonal[r] == old(newDiagonal)[r] + SidesSum(e, |e.edgeRows|, r, SideTerm(e, dt))
      ensures forall r | 0 <= r < |solution| ::
                solution[r] == old(solution)[r] + SidesSum(e, |e.edgeRows|, r, SideInitial(e))
    {
      ghost var n := |newDiagonal|;
      assert e in [e];
      for i := 0 to |e.edgeRows|
        invariant |newDiagonal| == |solution| == n
        invariant forall r | 0 <= r < n :: newDiagonal[r] == old(newDiagonal)[r] + SidesSum(e, i, r, SideTerm(e, dt))
        invariant forall r | 0 <= r < n :: solution[r] == old(solution)[r] + SidesSum(e, i, r, SideInitial(e))
      {
        var row := e.edgeRows[i];
        newDiagonal := newDiagonal[row := newDiagonal[row] + SideTerm(e, dt)];
        solution := solution[row := solution[row] + SideInitial(e)];
      }
    }

    /** The loop over the elements. */
    method AddElements(es: seq<Element>, n: nat, dt: real)
      requires RowsWithin(es, n) && HaveSides(es) && dt > 0.0
      modifies this`newDiagonal, this`solution
      ensures |newDiagonal| == |solution| == n
      ensures forall r | 0 <= r < n :: newDiagonal[r] == MeshSum(es, SideTerms(es, dt), |es|, r)
      ensures forall r | 0 <= r < n :: solution[r] == InitialValue(es, r)
    {
      ghost var terms, initials := SideTerms(es, dt), SideInitials(es);
      solution, newDiagonal := seq(n, _ => 0.0), seq(n, _ => 0.0);
      for k := 0 to |es|
        invariant |solution| == |newDiagonal| == n
        invariant forall r | 0 <= r < n :: newDiagonal[r] == MeshSum(es, terms, k, r)
        invariant forall r | 0 <= r < n :: solution[r] == MeshSum(es, initials, k, r)
      {
        assert es[k] in es;
        AddElement(es[k], dt);
      }
    }

    /** Adds the time term of the lumped scheme to the steady system and reads the initial pressures. */
    method SetupTimeTerm(es: seq<Element>, dt: real)
      requires Square(matrix, |rhs|) && RowsWithin(es, |rhs|) && HaveSides(es) && dt > 0.0
      modifies this
      ensures rhs == old(rhs) && Holds(State(), old(matrix), rhs, Storage(es, |rhs|), dt)
      ensures previous == solution && forall r | 0 <= r < |rhs| :: solution[r] == InitialValue(es, r)
    {
      steadyDiagonal := Diagonal(matrix);
      AddElements(es, |rhs|, dt);
      matrix := AddDiagonal(matrix, newDiagonal);
      previous, steadyRhs := solution, rhs;
      DiagonalFits(newDiagonal, es, dt);
    }

    /** The loop over the elements of the scheme that is not lumped. */
    method SetOnElements(es: seq<Element>, first: nat, n: nat, dt: real)
      requires first + |es| <= n && dt > 0.0
      modifies this`newDiagonal, this`solution
      ensures |solution| == n && Fits(newDiagonal, ElementStorages(es, first, n), dt)
      ensures forall r | 0 <= r < n :: solution[r] == if first <= r < first + |es| then es[r - first].initPressure else 0.0
    {
      solution, newDiagonal := seq(n, _ => 0.0), seq(n, _ => 0.0);
      ghost var storage := ElementStorages(es, first, n);
      for i := 0 to |es|
        invariant |solution| == |newDiagonal| == n
        invariant forall r | 0 <= r < n :: solution[r] == if first <= r < first + i then es[r - first].initPressure else 0.0
        invariant forall r | 0 <= r < n && !(first + i <= r < first + |es|) :: IsShare(newDiagonal[r], dt, storage[r])
      {
        Quotient(ElementStorage(es[i]), dt);
        var value := -es[i].storativity * es[i].measure / dt;
        assert IsShare(value, dt, storage[first + i]);
        solution := solution[first + i := es[i].initPressure];
        newDiagonal := newDiagonal[first + i := value];
      }
    }

    /** The setup of the scheme that is not lumped: storage and initial pressures sit on the elements. */
    method SetupOnElements(es: seq<Element>, first: nat, dt: real)
      requires Square(matrix, |rhs|) && first + |es| <= |rhs| && dt > 0.0
      modifies this
      ensures rhs == old(rhs) && Holds(State(), old(matrix), rhs, ElementStorages(es, first, |rhs|), dt)
      ensures previous == solution
      ensures forall r | 0 <= r < |rhs| :: solution[r] == if first <= r < first + |es| then es[r - first].initPressure else 0.0
    {
      steadyDiagonal := Diagonal(matrix);
      SetOnElements(es, first, |rhs|, dt);
      matrix := AddDiagonal(matrix, newDiagonal);
      previous, steadyRhs := solution, rhs;
    }

    method ModifySystem(g: TimeGovernor)
      requires State().Sized(|rhs|) && g.timeStep.Fin? && g.lastStep.Fin? && g.timeStep.t != 0.0
      modifies this
      ensures State() == Modified(old(State()), g.dtChanged, g.lastStep.t, g.timeStep.t)
    {
      if g.dtChanged {
        matrix := SetDiagonal(matrix, steadyDiagonal);
        newDiagonal := Scaled(newDiagonal, g.lastStep.t / g.timeStep.t);
        matrix := AddDiagonal(matrix, newDiagonal);
      }
      rhs := PointwisePlus(newDiagonal, solution, steadyRhs);
      previous, solution := solution, previous;
    }
  }
}
