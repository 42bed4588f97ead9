/** The explicit sequential coupling: water flow and transport, each with its own clock. */
module SequentialCoupling {
  import opened Options
  import opened Times
  import opened TimeMarks
  import opened TimeGovernor
  import opened GovernorRuns

  /**
   * One turn of the loop. A water step records where the transport stands and where it plans to be; a transport step records the
   * water time, the water solution whose velocity it uses, the latest one, and the step of the water if it is a constraint.
   */
  datatype Event =
    | WaterStep(start: real, end: real, transport: real, planned: real, midpoint: real)
    | TransportStep(start: real, end: real, midpoint: real, waterTime: real, velocity: nat, latest: nat, limit: Option<real>)

  /** What the loop guarantees of each turn. */
  predicate Sound(e: Event) {
    match e
    case WaterStep(s, t, transport, planned, midpoint) => 2.0 * midpoint == transport + planned && s < midpoint && s < t
    case TransportStep(s, t, midpoint, w, velocity, latest, limit) =>
      && 2.0 * midpoint == s + t && s < t && midpoint <= w && velocity == latest && latest > 0
      && (limit.Some? ==> t - s <= limit.value + ROUND_N_STEPS_PRECISION * limit.value)
  }

  /** The events lead the water from `w0` to `w` and the transport from `t0` to `t`, and number the water solutions from `n` on. */
  predicate Chained(events: seq<Event>, w0: real, t0: real, n: nat, w: real, t: real)
    decreases |events|
  {
    if events == [] then w == w0 && t == t0
    else
      var less := events[..|events| - 1];
      match events[|events| - 1]
      case WaterStep(start, end, transport, _, _) => w == end && t == transport && Chained(less, w0, t0, n, start, t)
      case TransportStep(start, end, _, waterTime, _, latest, _) =>
        t == end && w == waterTime && latest == n + Waters(less) && Chained(less, w0, t0, n, w, start)
  }

  /** Number of water steps. */
  function Waters(events: seq<Event>): nat
    decreases |events|
  {
    if events == [] then 0 else Waters(events[..|events| - 1]) + (if events[|events| - 1].WaterStep? then 1 else 0)
  }

  /** Both clocks stand on their grids; the step of the water is a possible constraint of the transport. */
  ghost predicate Coupled(w: Gov, t: Gov, ms: seq<TimeMark>, bound: real, deltaW: real, deltaT: real) {
    && Inv(w, ms, bound) && Inv(t, ms, bound) && w.endTime == t.endTime
    && Grid(w, ms, deltaW) && Grid(t, ms, deltaT) && 2.0 * deltaT <= deltaW
    && w.timeStep.Fin? && w.timeStep.t >= deltaW
  }

  /** Whole grid widths left until the end; it falls with every step. */
  function WidthsLeft(end: real, t: real, delta: real): int
    requires delta > 0.0
  {
    ((end - t) / delta).Floor
  }

  lemma WidthsFall(end: real, t: real, u: real, delta: real)
    requires delta > 0.0 && t + delta <= u <= end
    ensures 0 <= WidthsLeft(end, u, delta) < WidthsLeft(end, t, delta)
  {
    Quotient(end - t, delta);
    Quotient(end - u, delta);
    Scale(0.0, (end - u) / delta, delta);
    assert ((end - u) / delta + 1.0) * delta == end - u + delta;
    Scale((end - u) / delta + 1.0, (end - t) / delta, delta);
  }

  lemma WidthsNonNegative(end: real, t: real, delta: real)
    requires delta > 0.0 && t <= end
    ensures WidthsLeft(end, t, delta) >= 0
  {
    Quotient(end - t, delta);
    Scale(0.0, (end - t) / delta, delta);
  }

  /** The planned time never passes the end, and is the current time exactly at the end. */
  lemma PlannedWithinEnd(g: Gov, ms: seq<TimeMark>, bound: real, delta: real)
    requires Inv(g, ms, bound) && Grid(g, ms, delta)
    ensures Defined(g, ms) && EstimateDt(g, ms).Fin?
    ensures var d := EstimateDt(g, ms).t; 0.0 <= d && g.time.t + d <= g.endTime.t && (d == 0.0 <==> g.IsEnd())
  {
    GridCoarse(g, ms, bound, delta);
    EndIff(g, ms, bound);
    if !g.IsEnd() {
      var m, d, k := StepPlan(g, ms, bound);
      RepeatGrows(1, k, d);
    }
  }

  /** The water clock takes a step and fixes the next interval. */
  lemma WaterStepCoupled(w: Gov, t: Gov, ms: seq<TimeMark>, bound: real, deltaW: real, deltaT: real)
    requires Coupled(w, t, ms, bound, deltaW, deltaT) && w.time.t < w.endTime.t
    ensures Defined(w, ms) && Defined(NextTime(w, ms).(endOfFixed := NegInf), ms)
    ensures var h := FixDt(NextTime(w, ms), ms);
            Coupled(h, t, ms, bound, deltaW, deltaT) && h.time.t >= w.time.t + deltaW && h.endTime == w.endTime
    ensures !w.steady && !w.IsEnd() && NextTime(w, ms).time == FixDt(NextTime(w, ms), ms).time
  {
    EndIff(w, ms, bound);
    GridKept(w, ms, bound, deltaW, Next);
    GridKept(NextTime(w, ms), ms, bound, deltaW, Fix);
  }

  lemma TransportStepCoupled(w: Gov, t: Gov, ms: seq<TimeMark>, bound: real, deltaW: real, deltaT: real)
    requires Coupled(w, t, ms, bound, deltaW, deltaT) && !t.IsEnd()
    ensures Defined(t, ms)
    ensures var h := NextTime(t, ms);
            Coupled(w, h, ms, bound, deltaW, deltaT) && h.time.t >= t.time.t + deltaT && h.endTime == t.endTime
    ensures !t.steady
  {
    GridKept(t, ms, bound, deltaT, Next);
  }

  lemma ConstrainedCoupled(w: Gov, t: Gov, ms: seq<TimeMark>, bound: real, deltaW: real, deltaT: real)
    requires Coupled(w, t, ms, bound, deltaW, deltaT)
    ensures var h := SetUpper(t, w.timeStep).0;
            Coupled(w, h, ms, bound, deltaW, deltaT) && h.time == t.time && h.endTime == t.endTime
  {
    GridKept(t, ms, bound, deltaT, Upper(w.timeStep));
  }

  /** The midpoint of the planned transport interval decides which clock may advance. */
  lemma MidpointDecides(w: Gov, t: Gov, ms: seq<TimeMark>, bound: real, deltaW: real, deltaT: real)
    requires Coupled(w, t, ms, bound, deltaW, deltaT) && !(w.IsEnd() && t.IsEnd())
    ensures Defined(t, ms) && EstimateDt(t, ms).Fin?
    ensures var midpoint := 0.5 * (t.time.t + EstimateDt(t, ms).t) + 0.5 * t.time.t;
            if w.time.t < midpoint then w.time.t < w.endTime.t else !t.IsEnd() && t.time.t < midpoint
    ensures w.time == t.time ==> w.time.t < 0.5 * (t.time.t + EstimateDt(t, ms).t) + 0.5 * t.time.t
  {
    EndIff(w, ms, bound);
    EndIff(t, ms, bound);
    PlannedWithinEnd(t, ms, bound, deltaT);
  }

  // ---------------------------------------------------------------- where the loop starts

  /** The record fits a grid: its steps are asked to be two grid widths or the whole way, and no more than the rounding allows. */
  predicate OnGrid(input: Settings, delta: real) {
    var way := input.endTime - input.startTime;
    var step := GetOr(input.initDt, way);
    && (step >= 2.0 * delta || step >= way) && (GetOr(input.maxDt, step) >= 2.0 * delta || GetOr(input.maxDt, step) >= way)
    && ROUND_N_STEPS_PRECISION * GetOr(input.initDt, TIME_STEP_LOWER_BOUND) <= delta
    && ROUND_N_STEPS_PRECISION * GetOr(input.minDt, GetOr(input.initDt, TIME_STEP_LOWER_BOUND)) <= delta
  }

  /** Start and end are fixed times, and fixed times are at least `delta` apart. */
  ghost predicate MarksOnGrid(ms: seq<TimeMark>, mask: MarkType, start: real, end: real, delta: real) {
    && Separated(ms, mask, end) && FixedTime(ms, mask, end, start)
    && forall x, y | FixedTime(ms, mask, end, x) && FixedTime(ms, mask, end, y) && x < y :: x + delta <= y
  }

  lemma InitialOnGrid(input: Settings, mask: MarkType, ms: seq<TimeMark>, bound: real, delta: real)
    requires Initial(input, mask).Ok? && OnGrid(input, delta) && Tol(input.endTime, input.endTime) < delta
    requires MarksOnGrid(ms, mask, input.startTime, input.endTime, delta)
    requires var g := Initial(input, mask).value; 0.0 < bound <= g.lower && bound <= g.minStep
    ensures var g := Initial(input, mask).value;
            && Inv(g, ms, bound) && Grid(g, ms, delta) && g.time == Fin(input.startTime) && g.endTime == Fin(input.endTime)
            && g.timeStep == Fin(GetOr(input.initDt, input.endTime - input.startTime)) && !g.steady
  {
    InitialStands(input, mask, ms);
  }

  lemma FixKeepsStep(g: Gov, ms: seq<TimeMark>)
    requires Defined(g.(endOfFixed := NegInf), ms)
    ensures FixDt(g, ms).timeStep == g.timeStep
  {
  }

  /** Two governors built from records with the same start and end are coupled, also after the water has fixed its first interval. */
  lemma CoupledFromInput(water: Settings, transport: Settings, maskW: MarkType, maskT: MarkType, ms: seq<TimeMark>,
                         bound: real, deltaW: real, deltaT: real)
    requires Initial(water, maskW).Ok? && Initial(transport, maskT).Ok?
    requires water.startTime == transport.startTime && water.endTime == transport.endTime
    requires 0.0 < bound && 2.0 * deltaT <= deltaW
    requires var w, t := Initial(water, maskW).value, Initial(transport, maskT).value;
             bound <= w.lower && bound <= w.minStep && bound <= t.lower && bound <= t.minStep
    requires OnGrid(water, deltaW) && OnGrid(transport, deltaT)
    requires Tol(water.endTime, water.endTime) < deltaW && Tol(transport.endTime, transport.endTime) < deltaT
    requires MarksOnGrid(ms, maskW, water.startTime, water.endTime, deltaW)
    requires MarksOnGrid(ms, maskT, transport.startTime, transport.endTime, deltaT)
    requires GetOr(water.initDt, water.endTime - water.startTime) >= deltaW
    ensures var w, t := Initial(water, maskW).value, Initial(transport, maskT).value;
            && w.time == t.time && Coupled(w, t, ms, bound, deltaW, deltaT)
            && Enabled(w, ms, Fix) && Coupled(FixDt(w, ms), t, ms, bound, deltaW, deltaT)
  {
    hide Initial, Inv, Grid, FixDt, Defined;
    var w, t := Initial(water, maskW).value, Initial(transport, maskT).value;
    InitialOnGrid(water, maskW, ms, bound, deltaW);
    InitialOnGrid(transport, maskT, ms, bound, deltaT);
    GridKept(w, ms, bound, deltaW, Fix);
    FixKeepsStep(w, ms);
  }

  lemma Placed(w: Gov, t: Gov, ms: seq<TimeMark>, bound: real, deltaW: real, deltaT: real)
    requires Coupled(w, t, ms, bound, deltaW, deltaT)
    ensures w.time.Fin? && t.time.Fin? && w.endTime.Fin? && w.time.t <= w.endTime.t && t.time.t <= t.endTime.t
    ensures (w.IsEnd() <==> w.time == w.endTime) && (t.IsEnd() <==> t.time == t.endTime)
    ensures !w.steady && !t.steady && deltaW > 0.0 && deltaT > 0.0 && w.endTime == t.endTime
  {
    EndIff(w, ms, bound);
    EndIff(t, ms, bound);
  }

  /** An estimate keeps to a limit that lies between the constraints or above them. */
  lemma EstimateWithin(t: Gov, ms: seq<TimeMark>, bound: real, u: real)
    requires Standing(t, ms, bound) && !t.IsEnd() && !t.InFixedInterval() && Defined(t, ms) && EstimateDt(t, ms).Fin?
    requires t.lower <= u && !Less(Fin(u), t.upper)
    ensures EstimateDt(t, ms).t <= u + ROUND_N_STEPS_PRECISION * u
  {
    EndIff(t, ms, bound);
    var n := NextMarkIs(ms, t.mask, t.endTime.t, t.time.t);
    hide Tol, FixedTime, Separated, Clear, WellFormed;
    EstimateLimited(n - t.time.t, t.upper, t.lower, u);
  }

  /** The transport goes exactly where it planned to be, and keeps to the step of the water where that is a constraint. */
  lemma StepAsPlanned(t: Gov, ms: seq<TimeMark>, bound: real, delta: real)
    requires Inv(t, ms, bound) && Grid(t, ms, delta) && !t.IsEnd()
    ensures Defined(t, ms) && EstimateDt(t, ms).Fin? && NextTime(t, ms).time == Fin(t.time.t + EstimateDt(t, ms).t)
    ensures forall u | !t.InFixedInterval() && t.lower <= u && !Less(Fin(u), t.upper) ::
              EstimateDt(t, ms).t <= u + ROUND_N_STEPS_PRECISION * u
  {
    hide FixedTime, Separated, Clear, WellFormed, NextFixed, FixedSteps, NextTime, Tol, Repeat;
    GridCoarse(t, ms, bound, delta);
    var m, d, k := NextTimeSafe(t, ms, bound);
    assert EstimateDt(t, ms) == Fin(d) && SteppedTo(t, NextTime(t, ms), d);
    forall u | !t.InFixedInterval() && t.lower <= u && !Less(Fin(u), t.upper)
      ensures EstimateDt(t, ms).t <= u + ROUND_N_STEPS_PRECISION * u
    {
      EstimateWithin(t, ms, bound, u);
    }
  }

  /** The step of the water, if it is not below the lower constraint of the transport, which is not in a fixed interval. */
  function WaterLimit(t: Gov, waterStep: Time): Option<real> {
    if waterStep.Fin? && t.lower <= waterStep.t && !t.InFixedInterval() then Some(waterStep.t) else None
  }

  class HC_ExplicitSequential {
    const water: TimeGovernor
    const transport: TimeGovernor
    /** Number of water solutions so far, and the one whose velocity field the transport holds. */
    var waterSolutions: nat
    var velocity: nat
    ghost var history: seq<Event>

    constructor (water: TimeGovernor, transport: TimeGovernor)
      ensures this.water == water && this.transport == transport
      ensures waterSolutions == 0 && velocity == 0 && history == []
    {
      this.water, this.transport := water, transport;
      waterSolutions, velocity, history := 0, 0, [];
    }

    ghost predicate Valid()
      reads this, water, transport, water.timeMarks
    {
      && water != transport && water.timeMarks == transport.timeMarks && water.timeMarks.Valid()
      && (forall e | e in history :: Sound(e))
    }

    /** A new water solution at the next water time, then the choice of the next interval. */
    method StepWater(ghost midpoint: real, ghost planned: real)
      requires Valid() && water.Ready() && !water.steady && !water.State().IsEnd()
      requires Defined(NextTime(water.State(), water.timeMarks.marks).(endOfFixed := NegInf), water.timeMarks.marks)
      requires var h := NextTime(water.State(), water.timeMarks.marks);
               h.time.Fin? && water.time.t < h.time.t && water.time.t < midpoint
      requires transport.time.Fin? && 2.0 * midpoint == transport.time.t + planned
      modifies this, water
      ensures Valid() && waterSolutions == old(waterSolutions) + 1 && velocity == old(velocity)
      ensures var ms := water.timeMarks.marks; water.State() == FixDt(NextTime(old(water.State()), ms), ms)
      ensures history == old(history) + [WaterStep(old(water.time.t), water.time.t, transport.time.t, planned, midpoint)]
    {
      water.NextTimeStep();
      waterSolutions := waterSolutions + 1;
      var _ := water.FixDtUntilMark();
      history := history + [WaterStep(old(water.time.t), water.time.t, transport.time.t, planned, midpoint)];
    }

    /** One transport step with the velocity of the latest water solution. */
    method StepTransport(velocityChanged: bool, ghost midpoint: real, ghost limit: Option<real>)
      requires Valid() && transport.Ready() && !transport.steady && !transport.State().IsEnd()
      requires var h := NextTime(transport.State(), transport.timeMarks.marks);
               && h.time.Fin? && transport.time.t < h.time.t && 2.0 * midpoint == transport.time.t + h.time.t
               && (limit.Some? ==> h.time.t - transport.time.t <= limit.value + ROUND_N_STEPS_PRECISION * limit.value)
      requires water.time.Fin? && midpoint <= water.time.t && waterSolutions > 0
      requires !velocityChanged ==> velocity == waterSolutions
      modifies this, transport
      ensures Valid() && waterSolutions == old(waterSolutions) && velocity == waterSolutions
      ensures transport.State() == NextTime(old(transport.State()), transport.timeMarks.marks)
      ensures history == old(history) +
                [TransportStep(old(transport.time.t), transport.time.t, midpoint, water.time.t, velocity, waterSolutions, limit)]
    {
      if velocityChanged {
        velocity := waterSolutions;
      }
      transport.NextTimeStep();
      history := history +
        [TransportStep(old(transport.time.t), transport.time.t, midpoint, water.time.t, velocity, waterSolutions, limit)];
    }

    /** One turn: the transport is constrained by the water step, then the clock that lags behind is advanced. */
    method Turn(velocityChanged: bool, ghost bound: real, ghost deltaW: real, ghost deltaT: real)
        returns (changed: bool, ghost event: Event)
      requires Valid() && Coupled(water.State(), transport.State(), water.timeMarks.marks, bound, deltaW, deltaT)
      requires !(water.State().IsEnd() && transport.State().IsEnd())
      requires if waterSolutions == 0 then water.time == transport.time else !velocityChanged ==> velocity == waterSolutions
      modifies this, water, transport
      ensures Valid() && Coupled(water.State(), transport.State(), water.timeMarks.marks, bound, deltaW, deltaT)
      ensures water.endTime == old(water.endTime) && transport.endTime == old(transport.endTime)
      ensures waterSolutions > 0 && (!changed ==> velocity == waterSolutions)
      ensures history == old(history) + [event] && Sound(event)
      ensures if event.WaterStep? then transport.time == old(transport.time)
              else water.time == old(water.time) && event.start == old(transport.time.t)
      ensures var w, t, ms := old(water.State()), SetUpper(old(transport.State()), old(water.timeStep)).0, water.timeMarks.marks;
              if event.WaterStep? then
                && event.start == w.time.t && event.end == water.time.t >= w.time.t + deltaW && event.transport == t.time.t
                && transport.State() == t && waterSolutions == old(waterSolutions) + 1
                && Defined(t, ms) && Fin(event.planned) == Plus(t.time, EstimateDt(t, ms))
              else
                && event.start == t.time.t && event.end == transport.time.t >= t.time.t + deltaT && event.waterTime == w.time.t
                && water.State() == w && event.latest == waterSolutions == old(waterSolutions)
                && event.limit == WaterLimit(t, w.timeStep)
    {
      hide NextTime, FixDt, EstimateDt, Inv, Grid;
      ghost var ms, w, t := water.timeMarks.marks, water.State(), transport.State();
      ConstrainedCoupled(w, t, ms, bound, deltaW, deltaT);
      var _ := transport.SetUpperConstraint(water.timeStep);
      t := transport.State();
      MidpointDecides(w, t, ms, bound, deltaW, deltaT);
      Placed(w, t, ms, bound, deltaW, deltaT);
      var step := transport.EstimateStep();
      var planned := transport.time.t + step.t;
      var midpoint := 0.5 * planned + 0.5 * transport.time.t;
      if water.time.t < midpoint {
        WaterStepCoupled(w, t, ms, bound, deltaW, deltaT);
        Placed(FixDt(NextTime(w, ms), ms), t, ms, bound, deltaW, deltaT);
        StepWater(midpoint, planned);
        event := WaterStep(w.time.t, water.time.t, t.time.t, planned, midpoint);
        changed := true;
      } else {
        TransportStepCoupled(w, t, ms, bound, deltaW, deltaT);
        StepAsPlanned(t, ms, bound, deltaT);
        ghost var limit := WaterLimit(t, w.timeStep);
        StepTransport(velocityChanged, midpoint, limit);
        event := TransportStep(t.time.t, transport.time.t, midpoint, w.time.t, velocity, waterSolutions, limit);
        changed := false;
      }
    }

    /**
     * The two-clock loop ends with both clocks at the end, each turn of it is sound, the turns follow each other, and
     * `velocityChanged`, which starts with any value, is read only after it was set.
     */
    method RunSimulation(uninitialized: bool, ghost bound: real, ghost deltaW: real, ghost deltaT: real) returns (ghost events: seq<Event>)
      requires Valid() && water.time == transport.time && waterSolutions == 0
      requires Coupled(water.State(), transport.State(), water.timeMarks.marks, bound, deltaW, deltaT)
      modifies this, water, transport
      ensures Valid() && Coupled(water.State(), transport.State(), water.timeMarks.marks, bound, deltaW, deltaT)
      ensures water.time == old(water.endTime) && transport.time == old(transport.endTime)
      ensures history == old(history) + events && forall e <- events :: Sound(e)
      ensures Chained(events, old(water.time.t), old(transport.time.t), 0, water.time.t, transport.time.t)
    {
      hide Coupled, NextTime, FixDt, EstimateDt, SetUpper, WaterLimit, WidthsLeft, Sound, Gov.IsEnd;
      var velocityChanged := uninitialized;
      Placed(water.State(), transport.State(), water.timeMarks.marks, bound, deltaW, deltaT);
      ghost var end, w0, t0 := water.endTime.t, water.time.t, transport.time.t;
      events := [];
      WidthsNonNegative(end, water.time.t, deltaW);
      WidthsNonNegative(end, transport.time.t, deltaT);
      while !(water.State().IsEnd() && transport.State().IsEnd())
        invariant Valid() && Coupled(water.State(), transport.State(), water.timeMarks.marks, bound, deltaW, deltaT)
        invariant water.endTime == Fin(end)
        invariant if waterSolutions == 0 then water.time == transport.time
                  else !velocityChanged ==> velocity == waterSolutions
        invariant water.time.Fin? && transport.time.Fin? && deltaW > 0.0 && deltaT > 0.0
        invariant WidthsLeft(end, water.time.t, deltaW) >= 0 && WidthsLeft(end, transport.time.t, deltaT) >= 0
        invariant history == old(history) + events && waterSolutions == Waters(events)
        invariant Chained(events, w0, t0, 0, water.time.t, transport.time.t)
        decreases WidthsLeft(end, water.time.t, deltaW) + WidthsLeft(end, transport.time.t, deltaT)
      {
        Placed(water.State(), transport.State(), water.timeMarks.marks, bound, deltaW, deltaT);
        ghost var w, t := water.time.t, transport.time.t;
        ghost var event;
        velocityChanged, event := Turn(velocityChanged, bound, deltaW, deltaT);
        Placed(water.State(), transport.State(), water.timeMarks.marks, bound, deltaW, deltaT);
        OneMoreEvent(events, event, w0, t0, w, t, water.time.t, transport.time.t);
        events := events + [event];
        if event.WaterStep? {
          WidthsFall(end, w, water.time.t, deltaW);
        } else {
          WidthsFall(end, t, transport.time.t, deltaT);
        }
      }
      Placed(water.State(), transport.State(), water.timeMarks.marks, bound, deltaW, deltaT);
      assert forall e | e in events :: e in history;
    }
  }

  lemma OneMoreEvent(events: seq<Event>, event: Event, w0: real, t0: real, w: real, t: real, w': real, t': real)
    requires Chained(events, w0, t0, 0, w, t)
    requires if event.WaterStep? then event.start == w && event.end == w' && event.transport == t == t'
             else event.start == t && event.end == t' && event.waterTime == w == w' && event.latest == Waters(events)
    ensures Chained(events + [event], w0, t0, 0, w', t')
    ensures Waters(events + [event]) == Waters(events) + if event.WaterStep? then 1 else 0
  {
    assert (events + [event])[..|events|] == events;
  }
}
