/** Whole runs of a time governor over an unchanged set of time marks. */
module GovernorRuns {
  import opened Options
  import opened Times
  import opened TimeMarks
  import opened TimeGovernor

  // ---------------------------------------------------------------- fixed times

  /** A fixed time of a governor: a mark with all bits of its mask, not after its end. */
  ghost predicate FixedTime(ms: seq<TimeMark>, mask: MarkType, end: real, x: real) {
    0.0 <= x <= end && exists k :: k in ms && k.time == Fin(x) && k.Matches(mask)
  }

  /** Every later fixed time is told apart from `t` by the tolerant comparison. */
  ghost predicate Clear(ms: seq<TimeMark>, mask: MarkType, end: real, t: real) {
    forall x | FixedTime(ms, mask, end, x) && t < x :: Lt(Fin(t), Fin(x))
  }

  /** Fixed times are told apart from each other, and the end is one of them. */
  ghost predicate Separated(ms: seq<TimeMark>, mask: MarkType, end: real) {
    && WellFormed(ms) && mask <= EVERY_TYPE && FixedTime(ms, mask, end, end)
    && forall x | FixedTime(ms, mask, end, x) :: Clear(ms, mask, end, x)
  }

  /** `m` is the least fixed time after `t`. */
  ghost predicate NextFixed(ms: seq<TimeMark>, mask: MarkType, end: real, t: real, m: real) {
    FixedTime(ms, mask, end, m) && t < m && forall x | FixedTime(ms, mask, end, x) && t < x :: m <= x
  }

  /** From a clear time the database answers with the least later fixed time. */
  lemma NextMarkIs(ms: seq<TimeMark>, mask: MarkType, end: real, t: real) returns (m: real)
    requires Separated(ms, mask, end) && 0.0 <= t < end && Clear(ms, mask, end, t)
    ensures NextMarkTime(ms, Fin(t), mask) == Fin(m) && NextFixed(ms, mask, end, t, m)
  {
    var c := Clock(Fin(t), Fin(0.0), PosInf);
    assert Comes(ms[|ms| - 1], c, mask);
    var f := FirstComing(ms, c, mask, 0);
    forall x | FixedTime(ms, mask, end, x) && t < x
      ensures ms[f].time.Fin? && ms[f].time.t <= x
    {
      var k :| k in ms && k.time == Fin(x) && k.Matches(mask);
      var i :| 0 <= i < |ms| && ms[i] == k;
      assert Lt(Fin(t), Fin(x));
      assert Comes(ms[i], c, mask) && f <= i;
      assert f < i ==> Precedes(ms[f].time, ms[i].time);
    }
    assert ms[f] in ms && Comes(ms[f], c, mask);
    m := ms[f].time.t;
  }

  // ---------------------------------------------------------------- equal steps

  function Repeat(k: nat, d: real): real {
    if k == 0 then 0.0 else Repeat(k - 1, d) + d
  }

  lemma {:induction false} RepeatIs(k: nat, d: real)
    ensures Repeat(k, d) == k as real * d
  {
    if k > 0 {
      RepeatIs(k - 1, d);
    }
  }

  lemma {:induction false} RepeatGrows(j: nat, k: nat, d: real)
    requires j <= k && d >= 0.0
    ensures Repeat(j, d) <= Repeat(k, d) && (j < k ==> Repeat(j, d) + d <= Repeat(k, d))
    decreases k
  {
    if j < k {
      RepeatGrows(j, k - 1, d);
    }
  }

  /** A finite choice of steps divides the way into `k` steps, above half of the estimate if there are several. */
  lemma ChosenStep(full: real, est: real) returns (k: nat)
    requires full > 0.0 && est > 0.0 && EqualStep(full, est).Fin?
    ensures k > 0 && Repeat(k, EqualStep(full, est).t) == full && (k >= 2 ==> EqualStep(full, est).t > est / 2.0)
  {
    NoStepsIff(full, est);
    EqualStepBounds(full, est);
    k := StepCount(full / est);
    RepeatIs(k, EqualStep(full, est).t);
  }

  lemma DivideByStep(x: real, m: real, d: real)
    requires d > 0.0 && m > 0.0 && x == m * d
    ensures x / d == m && x / m == d
  {
    Quotient(x, d);
    Scale(x / d, m, d);
    Quotient(x, m);
    assert (x / m) * m == d * m;
    Scale(x / m, d, m);
  }

  /** Refitting a whole number of steps changes nothing. */
  lemma RefitWhole(k: nat, d: real)
    requires k > 0 && d > 0.0
    ensures Refit(Repeat(k, d), Fin(d)) == Fin(d)
  {
    RepeatIs(k, d);
    DivideByStep(Repeat(k, d), k as real, d);
    assert Round(k as real) == k;
  }

  // ---------------------------------------------------------------- the state invariant

  /** An unsteady governor with a finite end, not past it; `bound` is a positive bound of its lower constraints. */
  ghost predicate Standing(g: Gov, ms: seq<TimeMark>, bound: real) {
    && !g.steady && g.endTime.Fin? && Separated(ms, g.mask, g.endTime.t)
    && g.time.Fin? && 0.0 <= g.time.t <= g.endTime.t && Clear(ms, g.mask, g.endTime.t, g.time.t)
    && 0.0 < bound <= g.lower && bound <= g.minStep
  }

  /** `k` equal fixed steps, long ones if there are several, lead from here to the next fixed time. */
  ghost predicate FixedSteps(g: Gov, ms: seq<TimeMark>, bound: real, k: nat)
    requires g.time.Fin? && g.endTime.Fin?
  {
    && g.endOfFixed.Fin? && NextFixed(ms, g.mask, g.endTime.t, g.time.t, g.endOfFixed.t)
    && g.fixedDt.Fin? && g.fixedDt.t > Tol(g.endOfFixed.t, g.endOfFixed.t)
    && k > 0 && Repeat(k, g.fixedDt.t) == g.endOfFixed.t - g.time.t && (k >= 2 ==> g.fixedDt.t > bound / 2.0)
    && (!g.dtFixedNow ==> g.timeStep == g.fixedDt)
  }

  /** The governor stands clear, and inside a fixed interval it is a whole number of steps before its end. */
  ghost predicate Inv(g: Gov, ms: seq<TimeMark>, bound: real) {
    && Standing(g, ms, bound)
    && (g.time.t < g.endTime.t && g.InFixedInterval() ==> exists k: nat :: FixedSteps(g, ms, bound, k))
  }

  /** A governor that stands clear has ended exactly when it has reached its end time. */
  lemma EndIff(g: Gov, ms: seq<TimeMark>, bound: real)
    requires Standing(g, ms, bound)
    ensures g.IsEnd() <==> g.time == g.endTime
    ensures Inv(g, ms, bound) ==> Defined(g, ms)
    ensures Defined(g.(endOfFixed := NegInf), ms)
  {
    if g.time.t < g.endTime.t {
      assert Lt(g.time, g.endTime);
      var m := NextMarkIs(ms, g.mask, g.endTime.t, g.time.t);
    }
  }

  // ---------------------------------------------------------------- one step

  /** A newly estimated step is finite and not lost in the tolerance at the next mark. */
  ghost predicate Coarse(g: Gov, ms: seq<TimeMark>)
    requires Defined(g.(endOfFixed := NegInf), ms)
  {
    !g.IsEnd() && !g.steady ==>
      var m, dt := NextMarkTime(ms, g.time, g.mask).t, EstimateDt(g.(endOfFixed := NegInf), ms);
      dt.Fin? && dt.t > Tol(m, m)
  }

  /** A new estimate divides the way to the next fixed time, in steps above half of the lower constraint. */
  lemma EstimateDivides(g: Gov, ms: seq<TimeMark>, bound: real) returns (m: real, d: real, k: nat)
    requires Standing(g, ms, bound) && !g.IsEnd() && Defined(g.(endOfFixed := NegInf), ms) && Coarse(g, ms)
    ensures NextMarkTime(ms, g.time, g.mask) == Fin(m) && NextFixed(ms, g.mask, g.endTime.t, g.time.t, m)
    ensures EstimateDt(g.(endOfFixed := NegInf), ms) == Fin(d) && d > Tol(m, m)
    ensures k > 0 && Repeat(k, d) == m - g.time.t && (k >= 2 ==> d > bound / 2.0)
  {
    EndIff(g, ms, bound);
    m := NextMarkIs(ms, g.mask, g.endTime.t, g.time.t);
    d := EstimateDt(g.(endOfFixed := NegInf), ms).t;
    k := ChosenStep(m - g.time.t, Constrained(m - g.time.t, g.upper, g.lower));
  }

  /** What the next step is: `k` such steps fill the way to the next fixed time `m`. */
  lemma StepPlan(g: Gov, ms: seq<TimeMark>, bound: real) returns (m: real, d: real, k: nat)
    requires Inv(g, ms, bound) && !g.IsEnd() && Defined(g, ms)
    requires !g.InFixedInterval() ==> Defined(g.(endOfFixed := NegInf), ms) && Coarse(g, ms)
    ensures NextFixed(ms, g.mask, g.endTime.t, g.time.t, m)
    ensures d > Tol(m, m) && k > 0 && Repeat(k, d) == m - g.time.t && (k >= 2 ==> d > bound / 2.0)
    ensures if g.InFixedInterval() then g.endOfFixed == Fin(m) && g.fixedDt == Fin(d) && FixedSteps(g, ms, bound, k)
                                        && Refit(m - g.time.t, Fin(d)) == Fin(d)
            else EstimateDt(g, ms) == Fin(d)
  {
    if g.InFixedInterval() {
      m, d, k := FixedPlan(g, ms, bound);
    } else {
      m, d, k := EstimateDivides(g, ms, bound);
    }
  }

  lemma FixedPlan(g: Gov, ms: seq<TimeMark>, bound: real) returns (m: real, d: real, k: nat)
    requires Inv(g, ms, bound) && !g.IsEnd() && g.InFixedInterval()
    ensures FixedSteps(g, ms, bound, k) && g.endOfFixed == Fin(m) && g.fixedDt == Fin(d)
    ensures Refit(m - g.time.t, Fin(d)) == Fin(d)
  {
    EndIff(g, ms, bound);
    k :| FixedSteps(g, ms, bound, k);
    m, d := g.endOfFixed.t, g.fixedDt.t;
    RefitWhole(k, d);
  }

  /** After a step of `d` with `k` of them to the mark `m` the governor stands on the mark or clear before it. */
  lemma StepStaysClear(ms: seq<TimeMark>, mask: MarkType, end: real, t: real, m: real, d: real, k: nat)
    requires Separated(ms, mask, end) && 0.0 <= t < end && NextFixed(ms, mask, end, t, m)
    requires d > Tol(m, m) && k > 0 && Repeat(k, d) == m - t
    ensures t < t + d <= m <= end && Clear(ms, mask, end, t + d)
    ensures k == 1 ==> t + d == m
    ensures k > 1 ==> t + d < m && NextFixed(ms, mask, end, t + d, m) && Repeat(k - 1, d) == m - (t + d)
  {
    var u := t + d;
    RepeatGrows(1, k, d);
    if k > 1 {
      RepeatGrows(1, k - 1, d);
    }
    forall x | FixedTime(ms, mask, end, x) && u < x
      ensures Lt(Fin(u), Fin(x))
    {
      if x != m {
        assert Clear(ms, mask, end, m) && Lt(Fin(m), Fin(x));
      }
    }
  }

  lemma LtDownward(t: real, u: real, o: Time)
    requires 0.0 <= t <= u && Lt(Fin(u), o)
    ensures Lt(Fin(t), o)
  {
  }

  /** What a step changes and what it leaves. */
  ghost predicate SteppedTo(g: Gov, h: Gov, d: real) {
    && g.time.Fin? && g.endTime.Fin? && h.time == Fin(g.time.t + d) && h.timeStep == Fin(d) && h.lastStep == g.timeStep
    && (h.dtChanged <==> h.timeStep != g.timeStep)
    && h.steady == g.steady && h.endTime == g.endTime && h.mask == g.mask
    && h.minStep == g.minStep && h.maxStep == g.maxStep
    && h.lower == h.minStep && h.upper == MinTime(Fin(g.endTime.t - h.time.t), g.maxStep)
    && h.endOfFixed == g.endOfFixed && h.fixedDt == g.fixedDt && h.dtFixedNow == (g.dtFixedNow && !g.InFixedInterval())
    && h.level == g.level + 1 && h.lastTime == Some(g.time)
  }

  lemma FixedStepTaken(g: Gov, ms: seq<TimeMark>, m: real, d: real)
    requires !g.IsEnd() && Defined(g, ms) && !g.steady && g.InFixedInterval() && g.endTime.Fin?
    requires g.endOfFixed == Fin(m) && g.fixedDt == Fin(d) && Refit(m - g.time.t, Fin(d)) == Fin(d)
    requires !g.dtFixedNow ==> g.timeStep == g.fixedDt
    ensures SteppedTo(g, NextTime(g, ms), d)
  {
  }

  lemma EstimatedStepTaken(g: Gov, ms: seq<TimeMark>, d: real)
    requires !g.IsEnd() && Defined(g, ms) && !g.steady && !g.InFixedInterval() && g.endTime.Fin?
    requires EstimateDt(g, ms) == Fin(d)
    ensures SteppedTo(g, NextTime(g, ms), d)
  {
  }

  /** One step never passes a fixed time, never passes the end, and reports truly whether the step has changed. */
  lemma NextTimeSafe(g: Gov, ms: seq<TimeMark>, bound: real) returns (m: real, d: real, k: nat)
    requires Inv(g, ms, bound) && !g.IsEnd() && Defined(g, ms)
    requires !g.InFixedInterval() ==> Defined(g.(endOfFixed := NegInf), ms) && Coarse(g, ms)
    ensures Inv(NextTime(g, ms), ms, bound) && SteppedTo(g, NextTime(g, ms), d)
    ensures NextFixed(ms, g.mask, g.endTime.t, g.time.t, m) && g.time.t < g.time.t + d <= m
    ensures g.time.t + d == m || d > bound / 2.0
    ensures k > 0 && Repeat(k, d) == m - g.time.t
    ensures if g.InFixedInterval() then g.fixedDt == Fin(d) else EstimateDt(g, ms) == Fin(d)
  {
    m, d, k := StepPlan(g, ms, bound);
    if g.InFixedInterval() {
      FixedStepTaken(g, ms, m, d);
    } else {
      EstimatedStepTaken(g, ms, d);
    }
    var h := NextTime(g, ms);
    FromPlan(g, h, ms, bound, m, d, k);
  }

  lemma FromPlan(g: Gov, h: Gov, ms: seq<TimeMark>, bound: real, m: real, d: real, k: nat)
    requires Standing(g, ms, bound) && g.time.t < g.endTime.t && SteppedTo(g, h, d)
    requires NextFixed(ms, g.mask, g.endTime.t, g.time.t, m) && d > Tol(m, m)
    requires k > 0 && Repeat(k, d) == m - g.time.t && (k >= 2 ==> d > bound / 2.0)
    requires g.InFixedInterval() ==> g.endOfFixed == Fin(m) && g.fixedDt == Fin(d)
    ensures Inv(h, ms, bound) && g.time.t < g.time.t + d <= m && (g.time.t + d == m || d > bound / 2.0)
  {
    hide FixedTime, Separated;
    StepStaysClear(ms, g.mask, g.endTime.t, g.time.t, m, d, k);
    if h.time.t < h.endTime.t && h.InFixedInterval() {
      LtDownward(g.time.t, h.time.t, g.endOfFixed);
      assert k > 1;
      assert FixedSteps(h, ms, bound, k - 1);
    }
  }

  /** Fixing the step prepares a whole number of equal steps up to the next fixed time. */
  lemma FixDtSafe(g: Gov, ms: seq<TimeMark>, bound: real)
    requires Inv(g, ms, bound) && Defined(g.(endOfFixed := NegInf), ms) && Coarse(g, ms)
    ensures Inv(FixDt(g, ms), ms, bound)
    ensures !g.IsEnd() ==> FixDt(g, ms).InFixedInterval()
    ensures var h := FixDt(g, ms);
            && h == g.(fixedDt := h.fixedDt, dtFixedNow := true, endOfFixed := h.endOfFixed)
            && (!g.IsEnd() ==> h.endOfFixed.Fin? && NextFixed(ms, g.mask, g.endTime.t, g.time.t, h.endOfFixed.t))
  {
    EndIff(g, ms, bound);
    if !g.IsEnd() {
      var m, d, k := EstimateDivides(g, ms, bound);
      assert FixedSteps(FixDt(g, ms), ms, bound, k);
      assert Lt(g.time, Fin(m));
    }
  }

  lemma SettersSafe(g: Gov, h: Gov, ms: seq<TimeMark>, bound: real)
    requires Inv(g, ms, bound) && bound <= h.lower && bound <= h.minStep
    requires h == g.(upper := h.upper, lower := h.lower, maxStep := h.maxStep, minStep := h.minStep)
    ensures Inv(h, ms, bound)
  {
    if g.time.t < g.endTime.t && g.InFixedInterval() {
      var k: nat :| FixedSteps(g, ms, bound, k);
      assert FixedSteps(h, ms, bound, k);
    }
  }

  // ---------------------------------------------------------------- runs

  datatype Op = Next | Fix | Upper(upper: Time) | Lower(lower: real) | Permanent(minDt: real, maxDt: real)

  /** The operation finds a state it can work on, and a step it estimates is coarse enough. */
  ghost predicate Enabled(g: Gov, ms: seq<TimeMark>, op: Op) {
    match op
    case Next => Defined(g, ms) && (!g.InFixedInterval() ==> Defined(g.(endOfFixed := NegInf), ms) && Coarse(g, ms))
    case Fix => Defined(g.(endOfFixed := NegInf), ms) && Coarse(g, ms)
    case _ => true
  }

  ghost function Apply(g: Gov, ms: seq<TimeMark>, op: Op): Gov
    requires Enabled(g, ms, op)
  {
    match op
    case Next => NextTime(g, ms)
    case Fix => FixDt(g, ms)
    case Upper(u) => SetUpper(g, u).0
    case Lower(l) => SetLower(g, l).0
    case Permanent(minDt, maxDt) => GetOk(SetPermanent(g, minDt, maxDt), g)
  }

  /** Refused limits leave the governor as it is. */
  function GetOk(r: Result<Gov>, g: Gov): Gov {
    if r.Ok? then r.value else g
  }

  /** The operation sets no permanent limits below the bound. */
  predicate Respects(op: Op, bound: real) {
    op.Permanent? ==> bound <= Max(op.minDt, TIME_STEP_LOWER_BOUND)
  }

  predicate Effective(g: Gov, op: Op) {
    op.Next? && !g.IsEnd()
  }

  ghost predicate Transition(g: Gov, h: Gov, ms: seq<TimeMark>, op: Op) {
    Enabled(g, ms, op) && h == Apply(g, ms, op)
  }

  /** A run: the operations in order and the states before and after each of them; `bound` bounds all lower limits it sets. */
  ghost predicate IsRun(gs: seq<Gov>, ops: seq<Op>, ms: seq<TimeMark>, bound: real) {
    |gs| == |ops| + 1 && forall i | 0 <= i < |ops| :: TransitionAt(gs, ops, ms, bound, i)
  }

  ghost predicate TransitionAt(gs: seq<Gov>, ops: seq<Op>, ms: seq<TimeMark>, bound: real, i: nat)
    requires i < |ops| < |gs|
  {
    Transition(gs[i], gs[i + 1], ms, ops[i]) && Respects(ops[i], bound)
  }

  /** What no operation of a run changes. */
  predicate SameRun(g: Gov, h: Gov) {
    g.endTime == h.endTime && g.mask == h.mask
  }

  lemma IdleSafe(g: Gov, h: Gov, ms: seq<TimeMark>, op: Op, bound: real)
    requires Inv(g, ms, bound) && Transition(g, h, ms, op) && !Effective(g, op) && Respects(op, bound)
    ensures Inv(h, ms, bound) && h.time == g.time && SameRun(g, h)
  {
    match op
    case Next =>
    case Fix => FixDtSafe(g, ms, bound);
    case _ => SettersSafe(g, h, ms, bound);
  }

  lemma EffectiveSafe(g: Gov, h: Gov, ms: seq<TimeMark>, op: Op, bound: real) returns (m: real, d: real)
    requires Inv(g, ms, bound) && Transition(g, h, ms, op) && Effective(g, op)
    ensures Inv(h, ms, bound) && SteppedTo(g, h, d) && SameRun(g, h)
    ensures NextFixed(ms, g.mask, g.endTime.t, g.time.t, m) && g.time.t < g.time.t + d <= m
    ensures g.time.t + d == m || d > bound / 2.0
  {
    var k;
    m, d, k := NextTimeSafe(g, ms, bound);
  }

  /** Every state of a run keeps the invariant; time never goes back and never passes the end. */
  lemma {:induction false} RunKeepsInvariant(gs: seq<Gov>, ops: seq<Op>, ms: seq<TimeMark>, bound: real, i: nat)
    requires IsRun(gs, ops, ms, bound) && Inv(gs[0], ms, bound) && i < |gs|
    ensures Inv(gs[i], ms, bound) && SameRun(gs[0], gs[i])
    ensures gs[0].time.t <= gs[i].time.t <= gs[0].endTime.t
    decreases i
  {
    if i > 0 {
      RunKeepsInvariant(gs, ops, ms, bound, i - 1);
      var g, h, op := gs[i - 1], gs[i], ops[i - 1];
      assert TransitionAt(gs, ops, ms, bound, i - 1);
      if Effective(g, op) {
        var m, d := EffectiveSafe(g, h, ms, op, bound);
      } else {
        IdleSafe(g, h, ms, op, bound);
      }
    }
  }

  /** No operation of the run jumps over a fixed time. */
  lemma NoneBetween(gs: seq<Gov>, ops: seq<Op>, ms: seq<TimeMark>, bound: real, i: nat, x: real)
    requires IsRun(gs, ops, ms, bound) && Inv(gs[0], ms, bound) && i < |ops|
    requires FixedTime(ms, gs[0].mask, gs[0].endTime.t, x)
    ensures gs[i].time.Fin? && gs[i + 1].time.Fin?
    ensures gs[i].time.t < x ==> gs[i + 1].time.t <= x
  {
    RunKeepsInvariant(gs, ops, ms, bound, i);
    var g, h, op := gs[i], gs[i + 1], ops[i];
    assert TransitionAt(gs, ops, ms, bound, i);
    if Effective(g, op) {
      var m, d := EffectiveSafe(g, h, ms, op, bound);
    } else {
      IdleSafe(g, h, ms, op, bound);
    }
  }

  /** No fixed time is jumped over: each one up to the time reached was the time of some state of the run. */
  lemma {:induction false} RunVisitsFixedTimes(gs: seq<Gov>, ops: seq<Op>, ms: seq<TimeMark>, bound: real, n: nat, x: real)
    requires IsRun(gs, ops, ms, bound) && Inv(gs[0], ms, bound) && n < |gs|
    requires FixedTime(ms, gs[0].mask, gs[0].endTime.t, x) && gs[0].time.t <= x
    requires gs[n].time.Fin? && x <= gs[n].time.t
    ensures exists i :: 0 <= i <= n && gs[i].time == Fin(x)
    decreases n
  {
    if gs[n].time != Fin(x) && n > 0 {
      NoneBetween(gs, ops, ms, bound, n - 1, x);
      RunVisitsFixedTimes(gs, ops, ms, bound, n - 1, x);
    }
  }

  /** In every run the flag tells exactly whether a step differs from the one before it. */
  lemma RunReportsStepChange(gs: seq<Gov>, ops: seq<Op>, ms: seq<TimeMark>, bound: real, i: nat)
    requires IsRun(gs, ops, ms, bound) && Inv(gs[0], ms, bound) && i < |ops| && Effective(gs[i], ops[i])
    ensures gs[i + 1].dtChanged <==> gs[i + 1].timeStep != gs[i].timeStep
    ensures gs[i + 1].lastStep == gs[i].timeStep
  {
    RunKeepsInvariant(gs, ops, ms, bound, i);
    assert TransitionAt(gs, ops, ms, bound, i);
    var m, d := EffectiveSafe(gs[i], gs[i + 1], ms, ops[i], bound);
  }

  // ---------------------------------------------------------------- number of steps

  /** Number of marks with a fixed time after `t` and not after the end. */
  function MarksAfter(ms: seq<TimeMark>, mask: MarkType, end: real, t: real): nat
    decreases |ms|
  {
    if ms == [] then 0
    else
      (if ms[0].time.Fin? && t < ms[0].time.t <= end && ms[0].Matches(mask) then 1 else 0)
      + MarksAfter(ms[1..], mask, end, t)
  }

  lemma {:induction false} MarksAfterFalls(ms: seq<TimeMark>, mask: MarkType, end: real, t: real, u: real)
    requires t <= u
    ensures MarksAfter(ms, mask, end, u) <= MarksAfter(ms, mask, end, t)
    ensures (exists k :: k in ms && k.time.Fin? && t < k.time.t <= u && k.time.t <= end && k.Matches(mask)) ==>
              MarksAfter(ms, mask, end, u) < MarksAfter(ms, mask, end, t)
    decreases |ms|
  {
    if ms != [] {
      MarksAfterFalls(ms[1..], mask, end, t, u);
      if k :| k in ms && k.time.Fin? && t < k.time.t <= u && k.time.t <= end && k.Matches(mask) {
        assert k == ms[0] || k in ms[1..];
      }
    }
  }

  /** Number of steps taken by the first `n` operations. */
  function Steps(gs: seq<Gov>, ops: seq<Op>, n: nat): nat
    requires n <= |ops| < |gs|
  {
    if n == 0 then 0 else Steps(gs, ops, n - 1) + (if Effective(gs[n - 1], ops[n - 1]) then 1 else 0)
  }

  /** A step of the run reaches a fixed time or is longer than half of the bound; other operations keep the time. */
  lemma StepPays(gs: seq<Gov>, ops: seq<Op>, ms: seq<TimeMark>, bound: real, i: nat)
    requires IsRun(gs, ops, ms, bound) && Inv(gs[0], ms, bound) && i < |ops|
    ensures gs[i].time.Fin? && gs[i + 1].time.Fin? && gs[i].time.t <= gs[i + 1].time.t
    ensures var end, mask := gs[0].endTime.t, gs[0].mask;
            var left, now := MarksAfter(ms, mask, end, gs[i].time.t), MarksAfter(ms, mask, end, gs[i + 1].time.t);
            if Effective(gs[i], ops[i])
            then now <= left && (now < left || gs[i + 1].time.t - gs[i].time.t > bound / 2.0)
            else now == left
  {
    RunKeepsInvariant(gs, ops, ms, bound, i);
    var g, h, op := gs[i], gs[i + 1], ops[i];
    assert TransitionAt(gs, ops, ms, bound, i);
    if Effective(g, op) {
      var m, d := EffectiveSafe(g, h, ms, op, bound);
      MarksAfterFalls(ms, g.mask, g.endTime.t, g.time.t, h.time.t);
    } else {
      IdleSafe(g, h, ms, op, bound);
    }
  }

  lemma OneMoreStep(c: nat, all: nat, left: nat, now: nat, bound: real, s: real, t: real, u: real)
    requires bound > 0.0 && now <= left <= all && t <= u && (now < left || u - t > bound / 2.0)
    requires Repeat(c, bound) <= Repeat(all - left, bound) + 2.0 * (t - s)
    ensures Repeat(c + 1, bound) <= Repeat(all - now, bound) + 2.0 * (u - s)
  {
    RepeatGrows(all - left, all - now, bound);
  }

  /** Steps cost `bound` each; passed marks and twice the way have paid for the first `n` operations. */
  ghost predicate Paid(gs: seq<Gov>, ops: seq<Op>, ms: seq<TimeMark>, bound: real, n: nat)
    requires n <= |ops| < |gs|
  {
    && gs[0].time.Fin? && gs[0].endTime.Fin? && gs[n].time.Fin?
    && var end, mask := gs[0].endTime.t, gs[0].mask;
       var all, left := MarksAfter(ms, mask, end, gs[0].time.t), MarksAfter(ms, mask, end, gs[n].time.t);
       left <= all && Repeat(Steps(gs, ops, n), bound) <= Repeat(all - left, bound) + 2.0 * (gs[n].time.t - gs[0].time.t)
  }

  lemma PaidNext(gs: seq<Gov>, ops: seq<Op>, ms: seq<TimeMark>, bound: real, n: nat)
    requires IsRun(gs, ops, ms, bound) && Inv(gs[0], ms, bound) && n < |ops| && Paid(gs, ops, ms, bound, n)
    ensures Paid(gs, ops, ms, bound, n + 1)
  {
    StepPays(gs, ops, ms, bound, n);
    assert bound > 0.0;
    hide Inv, IsRun, MarksAfter, Effective, Repeat;
    var end, mask := gs[0].endTime.t, gs[0].mask;
    var s, t, u := gs[0].time.t, gs[n].time.t, gs[n + 1].time.t;
    assert Steps(gs, ops, n + 1) == Steps(gs, ops, n) + if Effective(gs[n], ops[n]) then 1 else 0;
    if Effective(gs[n], ops[n]) {
      OneMoreStep(Steps(gs, ops, n), MarksAfter(ms, mask, end, s), MarksAfter(ms, mask, end, t),
                  MarksAfter(ms, mask, end, u), bound, s, t, u);
    }
  }

  lemma {:induction false} RunStepBound(gs: seq<Gov>, ops: seq<Op>, ms: seq<TimeMark>, bound: real, n: nat)
    requires IsRun(gs, ops, ms, bound) && Inv(gs[0], ms, bound) && n <= |ops|
    ensures Paid(gs, ops, ms, bound, n)
    decreases n
  {
    if n > 0 {
      RunStepBound(gs, ops, ms, bound, n - 1);
      PaidNext(gs, ops, ms, bound, n - 1);
    }
  }

  /** The number of steps of a run is at most the fixed times ahead plus twice the way over the least lower constraint. */
  lemma RunStepsBounded(gs: seq<Gov>, ops: seq<Op>, ms: seq<TimeMark>, bound: real)
    requires IsRun(gs, ops, ms, bound) && Inv(gs[0], ms, bound)
    ensures var g := gs[0];
            Steps(gs, ops, |ops|) as real
            <= MarksAfter(ms, g.mask, g.endTime.t, g.time.t) as real + 2.0 * (g.endTime.t - g.time.t) / bound
  {
    var g := gs[0];
    var all := MarksAfter(ms, g.mask, g.endTime.t, g.time.t);
    RunStepBound(gs, ops, ms, bound, |ops|);
    RunKeepsInvariant(gs, ops, ms, bound, |ops|);
    StepsQuotient(Steps(gs, ops, |ops|), all, MarksAfter(ms, g.mask, g.endTime.t, gs[|ops|].time.t), bound,
                  gs[|ops|].time.t - g.time.t, g.endTime.t - g.time.t);
  }

  lemma StepsQuotient(n: nat, all: nat, left: nat, bound: real, way: real, whole: real)
    requires left <= all && bound > 0.0 && way <= whole && Repeat(n, bound) <= Repeat(all - left, bound) + 2.0 * way
    ensures n as real <= all as real + 2.0 * whole / bound
  {
    RepeatGrows(all - left, all, bound);
    RepeatIs(n, bound);
    RepeatIs(all, bound);
    BoundQuotient(n as real, all as real, 2.0 * whole, bound);
  }

  lemma BoundQuotient(n: real, a: real, x: real, b: real)
    requires b > 0.0 && n * b <= a * b + x
    ensures n <= a + x / b
  {
    Quotient(x, b);
    assert (a + x / b) * b == a * b + x;
    Scale(n, a + x / b, b);
  }

  /** Number of steps that the first `n` operations ask for. */
  function NextsUpTo(ops: seq<Op>, n: nat): nat
    requires n <= |ops|
  {
    if n == 0 then 0 else NextsUpTo(ops, n - 1) + (if ops[n - 1].Next? then 1 else 0)
  }

  /** A run that has not arrived exactly at the end took every step it was asked for. */
  lemma {:induction false} RunStillStepping(gs: seq<Gov>, ops: seq<Op>, ms: seq<TimeMark>, bound: real, n: nat)
    requires IsRun(gs, ops, ms, bound) && Inv(gs[0], ms, bound) && n <= |ops|
    requires gs[n].time != gs[0].endTime
    ensures Steps(gs, ops, n) == NextsUpTo(ops, n)
    decreases n
  {
    if n > 0 {
      RunKeepsInvariant(gs, ops, ms, bound, n - 1);
      var g, h, op := gs[n - 1], gs[n], ops[n - 1];
      assert TransitionAt(gs, ops, ms, bound, n - 1);
      EndIff(g, ms, bound);
      if !Effective(g, op) {
        IdleSafe(g, h, ms, op, bound);
      }
      RunStillStepping(gs, ops, ms, bound, n - 1);
    }
  }

  /** A run that asks for more steps than the bound, whatever else it does, has arrived exactly at the end time. */
  lemma RunFinishes(gs: seq<Gov>, ops: seq<Op>, ms: seq<TimeMark>, bound: real)
    requires IsRun(gs, ops, ms, bound) && Inv(gs[0], ms, bound)
    requires var g := gs[0];
             NextsUpTo(ops, |ops|) as real
             > MarksAfter(ms, g.mask, g.endTime.t, g.time.t) as real + 2.0 * (g.endTime.t - g.time.t) / bound
    ensures gs[|ops|].time == gs[0].endTime
  {
    RunStepsBounded(gs, ops, ms, bound);
    if gs[|ops|].time != gs[0].endTime {
      RunStillStepping(gs, ops, ms, bound, |ops|);
    }
  }

  /** In every run the level counts the steps, and the last time is that before the latest of them. */
  lemma {:induction false} RunLevels(gs: seq<Gov>, ops: seq<Op>, ms: seq<TimeMark>, bound: real, n: nat)
    requires IsRun(gs, ops, ms, bound) && Inv(gs[0], ms, bound) && n <= |ops|
    ensures gs[n].level == gs[0].level + Steps(gs, ops, n)
    ensures n > 0 ==> gs[n].lastTime == if Effective(gs[n - 1], ops[n - 1]) then Some(gs[n - 1].time) else gs[n - 1].lastTime
    decreases n
  {
    if n > 0 {
      RunLevels(gs, ops, ms, bound, n - 1);
      RunKeepsInvariant(gs, ops, ms, bound, n - 1);
      assert TransitionAt(gs, ops, ms, bound, n - 1);
      if Effective(gs[n - 1], ops[n - 1]) {
        var m, d := EffectiveSafe(gs[n - 1], gs[n], ms, ops[n - 1], bound);
      } else {
        IdleLevel(gs[n - 1], gs[n], ms, ops[n - 1]);
      }
    }
  }

  lemma IdleLevel(g: Gov, h: Gov, ms: seq<TimeMark>, op: Op)
    requires Transition(g, h, ms, op) && !Effective(g, op)
    ensures h.level == g.level && h.lastTime == g.lastTime
  {
  }

  // ---------------------------------------------------------------- where runs start

  /** A governor built from its record stands, if its marks keep their places and are told apart. */
  lemma InitialStands(input: Settings, mask: MarkType, ms: seq<TimeMark>)
    requires Initial(input, mask).Ok? && Separated(ms, mask, input.endTime)
    requires FixedTime(ms, mask, input.endTime, input.startTime)
    ensures var g := Initial(input, mask).value;
            && Inv(g, ms, Min(g.lower, g.minStep)) && g.time == Fin(input.startTime) && g.endTime == Fin(input.endTime)
            && g.timeStep == Fin(GetOr(input.initDt, input.endTime - input.startTime)) && g.lastStep == Fin(0.0)
            && g.level == 0 && g.lastTime == None && g.dtChanged && !g.dtFixedNow && !g.InFixedInterval()
  {
  }

  // ---------------------------------------------------------------- where the promises fail

  /** Without a coarse step: a fresh estimate passes the next fixed time exactly when it makes no steps at all. */
  lemma EstimatePassesMarkIff(g: Gov, ms: seq<TimeMark>, bound: real) returns (m: real)
    requires Standing(g, ms, bound) && !g.IsEnd() && !g.InFixedInterval() && Defined(g, ms)
    ensures NextFixed(ms, g.mask, g.endTime.t, g.time.t, m)
    ensures Less(Fin(m), NextTime(g, ms).time) <==>
            m - g.time.t < ROUND_N_STEPS_PRECISION * Constrained(m - g.time.t, g.upper, g.lower)
    ensures Less(Fin(m), NextTime(g, ms).time) ==> NextTime(g, ms).time == PosInf
  {
    EndIff(g, ms, bound);
    m := NextMarkIs(ms, g.mask, g.endTime.t, g.time.t);
    var full := m - g.time.t;
    var est := Constrained(full, g.upper, g.lower);
    NoStepsIff(full, est);
    if EqualStep(full, est).Fin? {
      var k := ChosenStep(full, est);
      RepeatGrows(1, k, EqualStep(full, est).t) by { EqualStepBounds(full, est); }
    }
  }

  /** A record with an end 1e-14 after the start and `init_dt` 2: its first step leaps over the end to infinity. */
  lemma LeapToInfinity()
    ensures var input, mask := Settings(0.0, 0.00000000000001, Some(2.0), None, None), {0};
            var ms := AddAll([TimeMark(Fin(0.0), mask), TimeMark(Fin(input.endTime), mask)]);
            && Initial(input, mask).Ok? && Defined(Initial(input, mask).value, ms)
            && NextTime(Initial(input, mask).value, ms).time == PosInf
  {
    hide AddAll, NextTime, Defined, EqualStep;
    FirstStepOfTwo(Settings(0.0, 0.00000000000001, Some(2.0), None, None), {0});
    NoStepsIff(0.00000000000001, 2.0);
  }

  /** A step jumps over a fixed time only if the tolerant comparison takes that time for already reached. */
  lemma JumpedOnlyUnclear(g: Gov, ms: seq<TimeMark>, x: real)
    requires Defined(g, ms) && !g.IsEnd() && !g.steady && !g.InFixedInterval() && g.time.Fin? && g.endTime.Fin?
    requires FixedTime(ms, g.mask, g.endTime.t, x) && g.time.t < x
    requires EstimateDt(g, ms).Fin? && Less(Fin(x), NextTime(g, ms).time)
    ensures !Lt(g.time, Fin(x))
  {
    if Lt(g.time, Fin(x)) {
      var c := Clock(g.time, Fin(0.0), PosInf);
      assert Comes(ms[|ms| - 1], c, g.mask);
      var f := FirstComing(ms, c, g.mask, 0);
      var k :| k in ms && k.time == Fin(x) && k.Matches(g.mask);
      var i :| 0 <= i < |ms| && ms[i] == k;
      assert Comes(ms[i], c, g.mask);
      assert f < i ==> Precedes(ms[f].time, ms[i].time);
      var full := ms[f].time.t - g.time.t;
      assert Lt(g.time, ms[f].time) && full > 0.0;
      var n := ChosenStep(full, Constrained(full, g.upper, g.lower));
      EqualStepBounds(full, Constrained(full, g.upper, g.lower)) by { NoStepsIff(full, Constrained(full, g.upper, g.lower)); }
      RepeatGrows(1, n, EstimateDt(g, ms).t);
    }
  }

  /** A coarse step jumps over a later fixed time exactly when the tolerant comparison takes that time for already reached. */
  lemma JumpedIff(g: Gov, ms: seq<TimeMark>, x: real)
    requires Defined(g, ms) && !g.IsEnd() && !g.steady && !g.InFixedInterval() && g.time.Fin? && 0.0 <= g.time.t && g.endTime.Fin?
    requires FixedTime(ms, g.mask, g.endTime.t, x) && g.time.t < x
    requires var m := NextMarkTime(ms, g.time, g.mask); EstimateDt(g, ms).Fin? && EstimateDt(g, ms).t > Tol(m.t, m.t)
    ensures Less(Fin(x), NextTime(g, ms).time) <==> !Lt(g.time, Fin(x))
  {
    if Less(Fin(x), NextTime(g, ms).time) {
      JumpedOnlyUnclear(g, ms, x);
    }
    if !Lt(g.time, Fin(x)) {
      var m := NextMarkTime(ms, g.time, g.mask).t;
      NextMarkIsLater(ms, g.time, g.mask);
      if m <= x {
        LtMonotone(g.time.t, m, x);
      }
      assert x - g.time.t <= Tol(m, m);
    }
  }

  lemma NextMarkIsLater(ms: seq<TimeMark>, t: Time, mask: MarkType)
    requires WellFormed(ms) && mask <= EVERY_TYPE
    ensures Lt(t, NextMarkTime(ms, t, mask))
  {
    var c := Clock(t, Fin(0.0), PosInf);
    assert Comes(ms[|ms| - 1], c, mask);
  }

  /** Two fixed times 1e-15 apart: the first step from one of them goes a whole unit and jumps over the other. */
  lemma FixedTimeJumped()
    ensures var input, mask, x := Settings(1.0, 3.0, Some(1.0), None, None), {0}, 1.000000000000001;
            var ms := [START, TimeMark(Fin(1.0), mask), TimeMark(Fin(x), mask), TimeMark(Fin(3.0), mask), STOP];
            && Initial(input, mask).Ok? && Defined(Initial(input, mask).value, ms)
            && FixedTime(ms, mask, 3.0, 1.0) && FixedTime(ms, mask, 3.0, x)
            && Initial(input, mask).value.time == Fin(1.0) && NextTime(Initial(input, mask).value, ms).time == Fin(2.0)
  {
    var input, mask, x := Settings(1.0, 3.0, Some(1.0), None, None), {0}, 1.000000000000001;
    var ms := [START, TimeMark(Fin(1.0), mask), TimeMark(Fin(x), mask), TimeMark(Fin(3.0), mask), STOP];
    var g := Initial(input, mask).value;
    ThreeMarks(ms, mask, x);
    assert ms[1] in ms && ms[2] in ms;
    assert 2.0 / 1.0 == 2.0 && StepCount(2.0) == 2;
    assert EqualStep(2.0, 1.0) == Fin(1.0);
  }

  lemma ThreeMarks(ms: seq<TimeMark>, mask: MarkType, x: real)
    requires mask == {0} && x == 1.000000000000001
    requires ms == [START, TimeMark(Fin(1.0), mask), TimeMark(Fin(x), mask), TimeMark(Fin(3.0), mask), STOP]
    ensures WellFormed(ms) && NextMarkTime(ms, Fin(1.0), mask) == Fin(3.0)
  {
    assert ms[0] == START;
    var c := Clock(Fin(1.0), Fin(0.0), PosInf);
    assert !Comes(ms[0], c, mask) && !Comes(ms[1], c, mask) && !Comes(ms[2], c, mask) && Comes(ms[3], c, mask);
  }

  // ---------------------------------------------------------------- permanent limits

  /** Nothing in the governor asks for steps above the limit, up to the rounding of step counts. */
  predicate LimitedBy(g: Gov, limit: real) {
    && !Less(Fin(limit), g.upper) && g.lower <= limit && !Less(Fin(limit), g.maxStep) && g.minStep <= limit
    && (!g.IsEnd() && g.InFixedInterval() ==> StepLimited(g.fixedDt, limit))
  }

  predicate StepLimited(dt: Time, limit: real) {
    !Less(Fin(limit + ROUND_N_STEPS_PRECISION * limit), dt)
  }

  /** The operation sets no permanent limits above the limit. */
  predicate StaysBelow(op: Op, limit: real) {
    op.Permanent? ==> Max(op.maxDt, TIME_STEP_LOWER_BOUND) <= limit
  }

  lemma EstimateLimited(full: real, upper: Time, lower: real, limit: real)
    requires full > 0.0 && 0.0 < lower <= limit && !Less(Fin(limit), upper)
    requires EqualStep(full, Constrained(full, upper, lower)).Fin?
    ensures StepLimited(EqualStep(full, Constrained(full, upper, lower)), limit)
  {
    var est := Constrained(full, upper, lower);
    NoStepsIff(full, est);
    EqualStepBounds(full, est);
    Scale(est, limit, 1.0 + ROUND_N_STEPS_PRECISION);
  }

  lemma NewEstimateLimited(g: Gov, ms: seq<TimeMark>, bound: real, limit: real)
    requires Standing(g, ms, bound) && !g.IsEnd() && LimitedBy(g, limit) && Enabled(g, ms, Fix)
    ensures StepLimited(EstimateDt(g.(endOfFixed := NegInf), ms), limit)
  {
    EndIff(g, ms, bound);
    var m := NextMarkIs(ms, g.mask, g.endTime.t, g.time.t);
    EstimateLimited(m - g.time.t, g.upper, g.lower, limit);
  }

  lemma SteppedLimit(g: Gov, h: Gov, d: real, limit: real)
    requires SteppedTo(g, h, d) && 0.0 <= g.time.t <= h.time.t && !g.IsEnd() && LimitedBy(g, limit)
    ensures LimitedBy(h, limit)
  {
    if h.InFixedInterval() {
      LtDownward(g.time.t, h.time.t, g.endOfFixed);
    }
  }

  lemma EstimateOutside(g: Gov, ms: seq<TimeMark>)
    requires Defined(g, ms) && Defined(g.(endOfFixed := NegInf), ms) && !g.InFixedInterval()
    ensures EstimateDt(g.(endOfFixed := NegInf), ms) == EstimateDt(g, ms)
  {
  }

  lemma StepKeepsLimit(g: Gov, h: Gov, ms: seq<TimeMark>, bound: real, limit: real)
    requires Inv(g, ms, bound) && Transition(g, h, ms, Next) && !g.IsEnd() && LimitedBy(g, limit)
    ensures LimitedBy(h, limit) && StepLimited(h.timeStep, limit)
  {
    hide NextTime, EstimateDt, StepLimited, NextFixed, FixedTime, FixedSteps, Repeat, Tol, Coarse, Separated, Clear;
    EndIff(g, ms, bound);
    var m, d, k := NextTimeSafe(g, ms, bound);
    if !g.InFixedInterval() {
      NewEstimateLimited(g, ms, bound, limit);
      EstimateOutside(g, ms);
    }
    SteppedLimit(g, h, d, limit);
  }

  lemma FixKeepsLimit(g: Gov, ms: seq<TimeMark>, bound: real, limit: real)
    requires Inv(g, ms, bound) && Enabled(g, ms, Fix) && LimitedBy(g, limit)
    ensures LimitedBy(FixDt(g, ms), limit)
  {
    if !g.IsEnd() {
      NewEstimateLimited(g, ms, bound, limit);
    }
  }

  lemma LimitKept(g: Gov, h: Gov, ms: seq<TimeMark>, op: Op, bound: real, limit: real)
    requires Inv(g, ms, bound) && Transition(g, h, ms, op) && Respects(op, bound)
    requires LimitedBy(g, limit) && StaysBelow(op, limit)
    ensures LimitedBy(h, limit) && (Effective(g, op) ==> StepLimited(h.timeStep, limit))
  {
    match op
    case Next =>
      if g.IsEnd() {
        EndStays(g, ms);
      } else {
        StepKeepsLimit(g, h, ms, bound, limit);
      }
    case Fix => FixKeepsLimit(g, ms, bound, limit);
    case _ =>
  }

  /** Once a governor of a run is limited, every later step of the run is. */
  lemma {:induction false} RunStepsLimited(gs: seq<Gov>, ops: seq<Op>, ms: seq<TimeMark>, bound: real, i: nat, j: nat, limit: real)
    requires IsRun(gs, ops, ms, bound) && Inv(gs[0], ms, bound) && i <= j < |ops|
    requires LimitedBy(gs[i], limit) && forall op <- ops :: StaysBelow(op, limit)
    ensures LimitedBy(gs[j], limit) && LimitedBy(gs[j + 1], limit)
    ensures Effective(gs[j], ops[j]) ==> StepLimited(gs[j + 1].timeStep, limit)
    decreases j
  {
    if i < j {
      RunStepsLimited(gs, ops, ms, bound, i, j - 1, limit);
    }
    RunKeepsInvariant(gs, ops, ms, bound, j);
    assert TransitionAt(gs, ops, ms, bound, j) && ops[j] in ops;
    LimitKept(gs[j], gs[j + 1], ms, ops[j], bound, limit);
  }

  /** A step after which no fixed interval is left puts the permanent limits in force, whatever the constraints were before. */
  lemma StepSetsLimits(g: Gov, h: Gov, ms: seq<TimeMark>, bound: real)
    requires Inv(g, ms, bound) && Transition(g, h, ms, Next) && !g.IsEnd() && !h.InFixedInterval()
    requires g.maxStep.Fin? && g.minStep <= g.maxStep.t
    ensures LimitedBy(h, g.maxStep.t)
  {
    hide NextTime, EstimateDt, StepLimited, NextFixed, FixedTime, FixedSteps, Repeat, Tol, Coarse, Separated, Clear;
    EndIff(g, ms, bound);
    var m, d, k := NextTimeSafe(g, ms, bound);
  }

  /** So do new permanent limits outside a fixed interval. */
  lemma PermanentLimits(g: Gov, minDt: real, maxDt: real)
    requires SetPermanent(g, minDt, maxDt).Ok? && (g.IsEnd() || !g.InFixedInterval())
    ensures LimitedBy(SetPermanent(g, minDt, maxDt).value, Max(maxDt, TIME_STEP_LOWER_BOUND))
    ensures SetPermanent(g, minDt, maxDt).value.minStep >= minDt
  {
  }

  lemma {:induction false} LimitsStay(gs: seq<Gov>, ops: seq<Op>, ms: seq<TimeMark>, bound: real, i: nat)
    requires IsRun(gs, ops, ms, bound) && Inv(gs[0], ms, bound) && i < |gs| && forall op <- ops :: !op.Permanent?
    ensures gs[i].minStep == gs[0].minStep && gs[i].maxStep == gs[0].maxStep
    decreases i
  {
    if i > 0 {
      LimitsStay(gs, ops, ms, bound, i - 1);
      RunKeepsInvariant(gs, ops, ms, bound, i - 1);
      assert TransitionAt(gs, ops, ms, bound, i - 1) && ops[i - 1] in ops;
      if Effective(gs[i - 1], ops[i - 1]) {
        var m, d := EffectiveSafe(gs[i - 1], gs[i], ms, ops[i - 1], bound);
      }
    }
  }

  /**
   * In every run of a governor built from its record, all steps after the first one, or after the first fixed interval if there
   * is one, are at most `max_dt` and the rounding.
   */
  lemma RunFromInputLimited(input: Settings, mask: MarkType, gs: seq<Gov>, ops: seq<Op>, ms: seq<TimeMark>, bound: real, i: nat, j: nat)
    requires IsRun(gs, ops, ms, bound) && Initial(input, mask) == Ok(gs[0]) && Inv(gs[0], ms, bound)
    requires (forall op <- ops :: !op.Permanent?) && i < j < |ops|
    requires Effective(gs[i], ops[i]) && !gs[i + 1].InFixedInterval() && Effective(gs[j], ops[j])
    ensures gs[0].maxStep.Fin? && StepLimited(gs[j + 1].timeStep, gs[0].maxStep.t)
  {
    LimitsStay(gs, ops, ms, bound, i);
    RunKeepsInvariant(gs, ops, ms, bound, i);
    assert TransitionAt(gs, ops, ms, bound, i);
    StepSetsLimits(gs[i], gs[i + 1], ms, bound);
    RunStepsLimited(gs, ops, ms, bound, i + 1, j, gs[0].maxStep.t);
  }

  // ---------------------------------------------------------------- settings under which every step is coarse

  /** Fixed times at least `delta` apart, constraints that ask for steps of about `delta` or more. */
  ghost predicate Grid(g: Gov, ms: seq<TimeMark>, delta: real)
    requires g.time.Fin? && g.endTime.Fin?
  {
    var end, t := g.endTime.t, g.time.t;
    && 0.0 < delta && Tol(end, end) < delta
    && (forall x, y | FixedTime(ms, g.mask, end, x) && FixedTime(ms, g.mask, end, y) && x < y :: x + delta <= y)
    && (forall x | FixedTime(ms, g.mask, end, x) && t < x :: t + delta <= x)
    && ROUND_N_STEPS_PRECISION * g.lower <= delta && ROUND_N_STEPS_PRECISION * g.minStep <= delta
    && (!Less(g.maxStep, Fin(2.0 * delta)) || !Less(g.maxStep, Fin(end - t)))
    && (!Less(g.upper, Fin(2.0 * delta)) || !Less(g.upper, Fin(end - t)))
    && (t < end && g.InFixedInterval() ==> g.fixedDt.Fin? && g.fixedDt.t >= delta)
  }

  /** An estimate between the smaller of the way and two grid widths and the way itself gives steps of a grid width. */
  lemma GridStep(full: real, est: real, delta: real)
    requires 0.0 < delta <= full && 0.0 < est && (est <= full || ROUND_N_STEPS_PRECISION * est <= delta)
    requires est >= Min(full, 2.0 * delta)
    ensures EqualStep(full, est).Fin? && EqualStep(full, est).t >= delta
  {
    NoStepsIff(full, est);
    var k := ChosenStep(full, est);
    EqualStepBounds(full, est);
    var d := EqualStep(full, est).t;
    if k >= 2 {
      RepeatGrows(1, k, d);
      assert Repeat(1, d) == Repeat(0, d) + d;
    }
  }

  lemma GridEstimate(g: Gov, ms: seq<TimeMark>, bound: real, delta: real) returns (m: real)
    requires Standing(g, ms, bound) && Grid(g, ms, delta) && g.time.t < g.endTime.t
    ensures NextMarkTime(ms, g.time, g.mask) == Fin(m) && Tol(m, m) < delta
    ensures var dt := EqualStep(m - g.time.t, Constrained(m - g.time.t, g.upper, g.lower)); dt.Fin? && dt.t >= delta
  {
    m := NextMarkIs(ms, g.mask, g.endTime.t, g.time.t);
    GridStep(m - g.time.t, Constrained(m - g.time.t, g.upper, g.lower), delta);
  }

  lemma GridCoarse(g: Gov, ms: seq<TimeMark>, bound: real, delta: real)
    requires Inv(g, ms, bound) && Grid(g, ms, delta)
    ensures Defined(g, ms) && Defined(g.(endOfFixed := NegInf), ms) && Coarse(g, ms)
    ensures !g.IsEnd() ==> var dt := EstimateDt(g.(endOfFixed := NegInf), ms); dt.Fin? && dt.t >= delta
    ensures !g.IsEnd() ==> var dt := EstimateDt(g, ms); dt.Fin? && dt.t >= delta
  {
    EndIff(g, ms, bound);
    if !g.IsEnd() {
      var m := GridEstimate(g, ms, bound, delta);
    }
  }

  /** The constraint setters stay within the grid. */
  predicate GridOp(g: Gov, op: Op, delta: real) {
    match op
    case Upper(u) => !Less(u, Fin(2.0 * delta)) || Less(u, Fin(g.lower))
    case Lower(l) => ROUND_N_STEPS_PRECISION * l <= delta
    case Permanent(minDt, maxDt) => ROUND_N_STEPS_PRECISION * Max(minDt, TIME_STEP_LOWER_BOUND) <= delta && maxDt >= 2.0 * delta
    case _ => true
  }

  /** On a grid every operation is enabled, keeps the grid, and a step is at least a grid width long. */
  lemma GridKept(g: Gov, ms: seq<TimeMark>, bound: real, delta: real, op: Op)
    requires Inv(g, ms, bound) && Grid(g, ms, delta) && GridOp(g, op, delta)
    requires Respects(op, bound) && (op.Lower? ==> bound <= op.lower || op.lower < g.minStep)
    ensures Enabled(g, ms, op) && Inv(Apply(g, ms, op), ms, bound) && Grid(Apply(g, ms, op), ms, delta)
    ensures SameRun(g, Apply(g, ms, op))
    ensures if Effective(g, op) then Apply(g, ms, op).time.t >= g.time.t + delta && Apply(g, ms, op).timeStep.Fin?
                                     && Apply(g, ms, op).timeStep.t >= delta
            else Apply(g, ms, op).time == g.time
  {
    GridCoarse(g, ms, bound, delta);
    hide Grid, GridOp, NextTime, FixDt;
    var h := Apply(g, ms, op);
    assert Transition(g, h, ms, op);
    if Effective(g, op) {
      GridNext(g, h, ms, bound, delta);
    } else {
      IdleSafe(g, h, ms, op, bound);
      if op.Fix? {
        GridFix(g, ms, bound, delta);
      } else if !op.Next? {
        GridSetters(g, h, ms, bound, delta, op);
      } else {
        assert h == g by { EndIff(g, ms, bound); EndStays(g, ms); }
      }
    }
  }

  lemma EndStays(g: Gov, ms: seq<TimeMark>)
    requires Defined(g, ms) && g.IsEnd()
    ensures NextTime(g, ms) == g
  {
  }

  lemma GridFix(g: Gov, ms: seq<TimeMark>, bound: real, delta: real)
    requires Inv(g, ms, bound) && Grid(g, ms, delta) && Defined(g.(endOfFixed := NegInf), ms)
    ensures Grid(FixDt(g, ms), ms, delta)
  {
    GridCoarse(g, ms, bound, delta);
    EndIff(g, ms, bound);
    if !g.IsEnd() {
      var m := NextMarkIs(ms, g.mask, g.endTime.t, g.time.t);
    }
  }

  lemma GridSetters(g: Gov, h: Gov, ms: seq<TimeMark>, bound: real, delta: real, op: Op)
    requires Inv(g, ms, bound) && Grid(g, ms, delta) && GridOp(g, op, delta)
    requires Transition(g, h, ms, op) && !op.Next? && !op.Fix?
    ensures h.time == g.time && h.endTime == g.endTime && Grid(h, ms, delta)
  {
    hide FixedTime, Separated, Clear, FixedSteps, NextFixed, WellFormed;
  }

  lemma GridClear(g: Gov, ms: seq<TimeMark>, delta: real, m: real, d: real, k: nat, x: real)
    requires g.time.Fin? && g.endTime.Fin? && Grid(g, ms, delta) && NextFixed(ms, g.mask, g.endTime.t, g.time.t, m)
    requires d >= delta && k > 0 && Repeat(k, d) == m - g.time.t
    requires FixedTime(ms, g.mask, g.endTime.t, x) && g.time.t + d < x
    ensures g.time.t + d + delta <= x
  {
    RepeatGrows(1, k, d);
    if k > 1 {
      RepeatGrows(1, k - 1, d);
      assert m <= x;
    }
  }

  lemma GridAfter(g: Gov, h: Gov, ms: seq<TimeMark>, delta: real, m: real, d: real, k: nat)
    requires g.time.Fin? && 0.0 <= g.time.t && g.endTime.Fin? && Grid(g, ms, delta) && SteppedTo(g, h, d)
    requires NextFixed(ms, g.mask, g.endTime.t, g.time.t, m)
    requires d >= delta && k > 0 && Repeat(k, d) == m - g.time.t
    ensures Grid(h, ms, delta)
  {
    forall x | FixedTime(ms, g.mask, g.endTime.t, x) && h.time.t < x
      ensures h.time.t + delta <= x
    {
      GridClear(g, ms, delta, m, d, k, x);
    }
    RepeatGrows(1, k, d);
    if h.InFixedInterval() {
      LtDownward(g.time.t, h.time.t, g.endOfFixed);
    }
  }

  lemma GridNext(g: Gov, h: Gov, ms: seq<TimeMark>, bound: real, delta: real)
    requires Inv(g, ms, bound) && Grid(g, ms, delta) && Transition(g, h, ms, Next) && !g.IsEnd()
    ensures Inv(h, ms, bound) && Grid(h, ms, delta) && SameRun(g, h)
    ensures h.time.t >= g.time.t + delta && h.timeStep.Fin? && h.timeStep.t >= delta
  {
    GridCoarse(g, ms, bound, delta);
    var m, d, k := NextTimeSafe(g, ms, bound);
    EndIff(g, ms, bound);
    GridAfter(g, h, ms, delta, m, d, k);
  }
}
