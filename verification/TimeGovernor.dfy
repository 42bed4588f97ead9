/** The time governor: choice of the next time step between fixed time marks. */
module TimeGovernor {
  import opened Options
  import opened Times
  import opened TimeMarks

  /** The machine epsilon, lower limit of a time step. */
  const TIME_STEP_LOWER_BOUND: real := 1.0 / 4503599627370496.0
  const ROUND_N_STEPS_PRECISION: real := 0.00000000000001

  datatype Error = NegativeStart | EndBeforeStart | NonPositiveStep | MaxBelowMin

  datatype Result<+T> = Ok(value: T) | Err(error: Error)

  /** The record of the input file. */
  datatype Settings = Settings(startTime: real, endTime: real, initDt: Option<real>, minDt: Option<real>, maxDt: Option<real>)

  datatype Gov = Gov(
    level: nat, time: Time, lastTime: Option<Time>,
    endOfFixed: Time, endTime: Time,
    timeStep: Time, lastStep: Time, fixedDt: Time, dtFixedNow: bool, dtChanged: bool,
    upper: Time, lower: real, maxStep: Time, minStep: real,
    mask: MarkType, steady: bool)
  {
    predicate IsEnd() {
      Ge(time, endTime) || time == PosInf
    }

    predicate InFixedInterval() {
      Lt(time, endOfFixed)
    }

    function AsClock(): Clock {
      Clock(time, timeStep, endTime)
    }
  }

  function GetOr<T>(o: Option<T>, default: T): T {
    if o.Some? then o.value else default
  }

  // ---------------------------------------------------------------- construction

  /** The unsteady governor as constructed; the first step is not constrained by the permanent limits. */
  function Initial(input: Settings, mask: MarkType): Result<Gov> {
    if input.startTime < 0.0 then Err(NegativeStart)
    else if input.endTime < input.startTime then Err(EndBeforeStart)
    else if input.initDt.Some? && input.initDt.value <= 0.0 then Err(NonPositiveStep)
    else
      var step := GetOr(input.initDt, input.endTime - input.startTime);
      var maxStep := GetOr(input.maxDt, step);
      var minStep := GetOr(input.minDt, GetOr(input.initDt, TIME_STEP_LOWER_BOUND));
      if minStep <= 0.0 then Err(NonPositiveStep)
      else if maxStep < minStep then Err(MaxBelowMin)
      else Ok(Gov(
                0, Fin(input.startTime), None,
                Fin(input.startTime), Fin(input.endTime),
                Fin(step), Fin(0.0), Fin(0.0), false, true,
                if input.initDt.Some? then Fin(input.initDt.value) else PosInf,
                GetOr(input.initDt, TIME_STEP_LOWER_BOUND),
                Fin(maxStep), minStep,
                mask, false))
  }

  /** The steady governor as constructed: one step, all the way to infinity, is ahead. */
  function Steady(time: real): Gov {
    Gov(0, Fin(time), None, Fin(time), PosInf, PosInf, Fin(0.0), Fin(0.0), false, true,
        PosInf, TIME_STEP_LOWER_BOUND, PosInf, TIME_STEP_LOWER_BOUND, {}, true)
  }

  // ---------------------------------------------------------------- choice of the step

  /** The step to the next fixed time after both constraints, the lower one applied last. */
  function Constrained(full: real, upper: Time, lower: real): real {
    var s := match upper case Fin(u) => Min(full, u) case PosInf => full case NegInf => lower;
    Max(s, lower)
  }

  /** Number of steps: the quotient rounded up unless it is just above an integer. */
  function StepCount(ratio: real): int {
    if ratio - ratio.Floor as real < ROUND_N_STEPS_PRECISION then ratio.Floor else ratio.Floor + 1
  }

  /** One of equal steps that fill `full`; no steps at all is a division by zero. */
  function EqualStep(full: real, est: real): Time
    requires est > 0.0
  {
    var n := StepCount(full / est);
    if n == 0 then PosInf else Fin(full / n as real)
  }

  /** The arithmetic of the step choice meets finite times only. */
  ghost predicate Defined(g: Gov, ms: seq<TimeMark>) {
    && WellFormed(ms) && g.mask <= EVERY_TYPE && g.lower > 0.0 && !g.time.NegInf?
    && (!g.IsEnd() && !g.steady ==>
          g.time.Fin? && if g.InFixedInterval() then g.endOfFixed.Fin? else NextMarkTime(ms, g.time, g.mask).Fin?)
  }

  function EstimateDt(g: Gov, ms: seq<TimeMark>): Time
    requires Defined(g, ms)
  {
    if g.IsEnd() then Fin(0.0)
    else if g.steady then (if g.level == 0 then PosInf else Fin(0.0))
    else if g.InFixedInterval() then g.fixedDt
    else
      var full := NextMarkTime(ms, g.time, g.mask).t - g.time.t;
      EqualStep(full, Constrained(full, g.upper, g.lower))
  }

  /** Nearest integer, halves away from zero, of a non-negative number. */
  function Round(x: real): int {
    (x + 0.5).Floor
  }

  /** The fixed step refitted to the rest of the fixed interval. */
  function Refit(rest: real, dt: Time): Time {
    if dt.Fin? && dt.t > 0.0 then
      var n := Round(rest / dt.t);
      if n == 0 then PosInf else Fin(rest / n as real)
    else dt
  }

  /** What is left until the end, never more than the permanent limit. */
  function Relaxed(endTime: Time, time: Time, maxStep: Time): Time {
    var rest := if endTime.Fin? && time.Fin? then Fin(endTime.t - time.t) else if time.PosInf? then NegInf else PosInf;
    MinTime(rest, maxStep)
  }

  /** Moves on by the chosen step and resets both constraints to the permanent limits. */
  function Moved(g: Gov): Gov
    requires g.time.Fin?
  {
    var time := Plus(g.time, g.timeStep);
    g.(lastTime := Some(g.time), time := time, level := g.level + 1,
       upper := Relaxed(g.endTime, time, g.maxStep), lower := g.minStep)
  }

  function NextTime(g: Gov, ms: seq<TimeMark>): Gov
    requires Defined(g, ms)
  {
    if g.IsEnd() then g
    else if g.steady then
      g.(lastStep := g.endTime, level := 1, timeStep := Fin(0.0), time := g.endTime, dtChanged := false)
    else if g.InFixedInterval() then
      var dt := Refit(g.endOfFixed.t - g.time.t, g.fixedDt);
      Moved(g.(fixedDt := dt, lastStep := g.timeStep, timeStep := dt, dtFixedNow := false,
               dtChanged := g.dtFixedNow && g.timeStep != dt))
    else
      var dt := EstimateDt(g, ms);
      Moved(g.(lastStep := g.timeStep, timeStep := dt, dtChanged := g.timeStep != dt))
  }

  /** A steady governor ignores the request; otherwise the step is fixed up to the next fixed mark. */
  function FixDt(g: Gov, ms: seq<TimeMark>): Gov
    requires Defined(g.(endOfFixed := NegInf), ms)
  {
    if g.steady then g
    else
      g.(fixedDt := EstimateDt(g.(endOfFixed := NegInf), ms), dtFixedNow := true,
         endOfFixed := NextMarkTime(ms, g.time, g.mask))
  }

  function SetUpper(g: Gov, upper: Time): (Gov, int) {
    if Less(g.upper, upper) then (g, -1)
    else if !Less(upper, Fin(g.lower)) then (g.(upper := upper), 0)
    else (g, 1)
  }

  function SetLower(g: Gov, lower: real): (Gov, int) {
    if Less(g.upper, Fin(lower)) then (g, -1)
    else if g.minStep <= lower then (g.(lower := lower), 0)
    else (g, 1)
  }

  function SetPermanent(g: Gov, minDt: real, maxDt: real): Result<Gov> {
    if minDt < 0.0 then Err(NonPositiveStep)
    else if maxDt < minDt then Err(MaxBelowMin)
    else
      var minStep, maxStep := Max(minDt, TIME_STEP_LOWER_BOUND), Relaxed(g.endTime, g.time, Fin(maxDt));
      Ok(g.(minStep := minStep, maxStep := maxStep, upper := maxStep, lower := minStep))
  }

  // ---------------------------------------------------------------- the governor object

  class TimeGovernor {
    const timeMarks: TimeMarks
    const mask: MarkType
    const steady: bool
    var level: nat
    var time: Time
    var lastTime: Option<Time>
    var endOfFixed: Time
    var endTime: Time
    var timeStep: Time
    var lastStep: Time
    var fixedDt: Time
    var dtFixedNow: bool
    var dtChanged: bool
    var upper: Time
    var lower: real
    var maxStep: Time
    var minStep: real

    function State(): Gov
      reads this
    {
      Gov(level, time, lastTime, endOfFixed, endTime, timeStep, lastStep, fixedDt, dtFixedNow, dtChanged,
          upper, lower, maxStep, minStep, mask, steady)
    }

    ghost predicate Ready()
      reads this, timeMarks
    {
      timeMarks.Valid() && Defined(State(), timeMarks.marks)
    }

    constructor FromState(g: Gov, marks: TimeMarks)
      ensures State() == g && timeMarks == marks
    {
      timeMarks, mask, steady := marks, g.mask, g.steady;
      level, time, lastTime, endOfFixed, endTime := g.level, g.time, g.lastTime, g.endOfFixed, g.endTime;
      timeStep, lastStep, fixedDt := g.timeStep, g.lastStep, g.fixedDt;
      dtFixedNow, dtChanged := g.dtFixedNow, g.dtChanged;
      upper, lower, maxStep, minStep := g.upper, g.lower, g.maxStep, g.minStep;
    }

    /** Builds an unsteady governor; start and end become fixed marks unless the two times are refused. */
    static method FromInput(input: Settings, fixedMask: MarkType, marks: TimeMarks) returns (r: Result<TimeGovernor>)
      requires marks.Valid() && fixedMask <= EVERY_TYPE
      modifies marks
      ensures marks.Valid() && marks.nextMarkType == old(marks.nextMarkType)
      ensures var mask := fixedMask + {0};
              var start, end := TimeMark(Fin(input.startTime), mask), TimeMark(Fin(input.endTime), mask);
              && (r.Err? <==> Initial(input, mask).Err?)
              && (r.Err? ==> r.error == Initial(input, mask).error)
              && (r.Ok? ==> fresh(r.value) && r.value.timeMarks == marks && r.value.State() == Initial(input, mask).value)
              && marks.marks == if r.Err? && (r.error.NegativeStart? || r.error.EndBeforeStart?) then old(marks.marks)
                                else Added(Added(old(marks.marks), start), end)
    {
      var mask := fixedMask + {0};
      if input.startTime < 0.0 {
        return Err(NegativeStart);
      }
      if input.endTime < input.startTime {
        return Err(EndBeforeStart);
      }
      marks.Add(TimeMark(Fin(input.startTime), mask));
      marks.Add(TimeMark(Fin(input.endTime), mask));
      var g := Initial(input, mask);
      if g.Err? {
        return Err(g.error);
      }
      var governor := new TimeGovernor.FromState(g.value, marks);
      r := Ok(governor);
    }

    /** Builds a steady governor; its time becomes a mark without bits. */
    static method SteadyAt(time: real, marks: TimeMarks) returns (g: TimeGovernor)
      requires marks.Valid()
      modifies marks
      ensures marks.Valid() && marks.marks == Added(old(marks.marks), TimeMark(Fin(time), {}))
      ensures fresh(g) && g.timeMarks == marks && g.State() == Steady(time)
    {
      marks.Add(TimeMark(Fin(time), {}));
      g := new TimeGovernor.FromState(Steady(time), marks);
    }

    method EstimateStep() returns (dt: Time)
      requires Ready()
      ensures dt == EstimateDt(State(), timeMarks.marks)
    {
      if time == PosInf || Ge(time, endTime) {
        return Fin(0.0);
      }
      if steady {
        return if level == 0 then PosInf else Fin(0.0);
      }
      if Lt(time, endOfFixed) {
        return fixedDt;
      }
      var next := timeMarks.Next(State().AsClock(), mask);
      NextMarkTimeIs(timeMarks.marks, State().AsClock(), mask, next);
      var fullStep := timeMarks.marks[next].time.t - time.t;
      var estimate := fullStep;
      if Less(upper, Fin(estimate)) {
        estimate := if upper.Fin? then upper.t else lower;
      }
      if estimate < lower {
        estimate := lower;
      }
      var ratio := fullStep / estimate;
      var nSteps := if ratio == ratio.Floor as real then ratio.Floor else ratio.Floor + 1;
      if ratio - ratio.Floor as real < ROUND_N_STEPS_PRECISION {
        nSteps := ratio.Floor;
      }
      dt := if nSteps == 0 then PosInf else Fin(fullStep / nSteps as real);
    }

    method NextTimeStep()
      requires Ready()
      modifies this
      ensures State() == NextTime(old(State()), timeMarks.marks)
    {
      if time == PosInf || Ge(time, endTime) {
        return;
      }
      if steady {
        lastStep, level, timeStep, time, dtChanged := endTime, 1, Fin(0.0), endTime, false;
        return;
      }
      if Lt(time, endOfFixed) {
        fixedDt := Refit(endOfFixed.t - time.t, fixedDt);
        lastStep, timeStep := timeStep, fixedDt;
        if dtFixedNow {
          dtFixedNow := false;
          dtChanged := lastStep != timeStep;
        } else {
          dtChanged := false;
        }
      } else {
        var dt := EstimateStep();
        lastStep, timeStep := timeStep, dt;
        dtChanged := lastStep != timeStep;
      }
      MoveOn();
    }

    method MoveOn()
      requires time.Fin?
      modifies this
      ensures State() == Moved(old(State()))
    {
      lastTime := Some(time);
      time := Plus(time, timeStep);
      level := level + 1;
      upper := Relaxed(endTime, time, maxStep);
      lower := minStep;
    }

    method FixDtUntilMark() returns (end: Time)
      requires timeMarks.Valid() && Defined(State().(endOfFixed := NegInf), timeMarks.marks)
      modifies this
      ensures State() == FixDt(old(State()), timeMarks.marks)
      ensures end == if steady then Fin(0.0) else endOfFixed
    {
      if steady {
        return Fin(0.0);
      }
      endOfFixed := NegInf;
      fixedDt := EstimateStep();
      dtFixedNow := true;
      var next := timeMarks.Next(State().AsClock(), mask);
      NextMarkTimeIs(timeMarks.marks, State().AsClock(), mask, next);
      endOfFixed := timeMarks.marks[next].time;
      end := endOfFixed;
    }

    method SetUpperConstraint(upper: Time) returns (r: int)
      modifies this`upper
      ensures (State(), r) == SetUpper(old(State()), upper)
    {
      if Less(this.upper, upper) {
        return -1;
      }
      if !Less(upper, Fin(lower)) {
        this.upper := upper;
        return 0;
      }
      return 1;
    }

    method SetLowerConstraint(lower: real) returns (r: int)
      modifies this`lower
      ensures (State(), r) == SetLower(old(State()), lower)
    {
      if Less(upper, Fin(lower)) {
        return -1;
      }
      if minStep <= lower {
        this.lower := lower;
        return 0;
      }
      return 1;
    }

    method SetPermanentConstraint(minDt: real, maxDt: real) returns (e: Option<Error>)
      modifies this`minStep, this`maxStep, this`upper, this`lower
      ensures var r := SetPermanent(old(State()), minDt, maxDt);
              if r.Ok? then e == None && State() == r.value else e == Some(r.error) && State() == old(State())
    {
      if minDt < 0.0 {
        return Some(NonPositiveStep);
      }
      if maxDt < minDt {
        return Some(MaxBelowMin);
      }
      minStep := Max(minDt, TIME_STEP_LOWER_BOUND);
      maxStep := Relaxed(endTime, time, Fin(maxDt));
      upper, lower := maxStep, minStep;
      e := None;
    }
  }

  // ---------------------------------------------------------------- what the setters promise

  /** An upper constraint is taken exactly between the two constraints; then no estimate is above it. Otherwise nothing changes. */
  lemma UpperConstraintIff(g: Gov, u: real)
    ensures var (h, r) := SetUpper(g, Fin(u));
            && (r == -1 <==> Less(g.upper, Fin(u))) && (r == 0 <==> g.lower <= u && !Less(g.upper, Fin(u)))
            && (r == 1 <==> u < g.lower && !Less(g.upper, Fin(u)))
            && (r == 0 ==> forall full :: Constrained(full, h.upper, h.lower) == Max(Min(full, u), g.lower) <= u)
            && (r != 0 ==> h == g) && h == g.(upper := h.upper)
  {
  }

  /** A lower constraint is taken exactly between the lower limit and the upper constraint; then no estimate is below it. */
  lemma LowerConstraintIff(g: Gov, l: real)
    ensures var (h, r) := SetLower(g, l);
            && (r == -1 <==> Less(g.upper, Fin(l))) && (r == 0 <==> g.minStep <= l && !Less(g.upper, Fin(l)))
            && (r == 1 <==> l < g.minStep && !Less(g.upper, Fin(l)))
            && (r == 0 ==> forall full :: Constrained(full, h.upper, h.lower) >= l)
            && (r == 0 ==> forall full | full >= l :: g.upper.Fin? ==> Constrained(full, h.upper, h.lower) == Min(full, g.upper.t))
            && (r != 0 ==> h == g) && h == g.(lower := h.lower)
  {
  }

  // ---------------------------------------------------------------- arithmetic of the step choice

  /** The count is the least integer above the quotient less the rounding precision. */
  lemma StepCountLeast(ratio: real, k: int)
    ensures k as real > ratio - ROUND_N_STEPS_PRECISION <==> k >= StepCount(ratio)
  {
  }

  lemma Quotient(x: real, y: real)
    requires y > 0.0
    ensures (x / y) * y == x
  {
  }

  lemma Scale(a: real, b: real, c: real)
    requires c > 0.0
    ensures a < b <==> a * c < b * c
    ensures a <= b <==> a * c <= b * c
  {
  }

  lemma StepBelow(full: real, est: real, r: real, m: real, d: real)
    requires est > 0.0 && m >= 1.0 && r * est == full && d * m == full && r < m + ROUND_N_STEPS_PRECISION
    ensures d < est + ROUND_N_STEPS_PRECISION * est
  {
    var p := ROUND_N_STEPS_PRECISION;
    Scale(r, m + p, est);
    Scale(1.0, m, est);
    Scale(d, est + p * est, m);
    assert (m + p) * est == m * est + p * est;
    assert (est + p * est) * m == m * est + p * (m * est);
  }

  lemma StepAboveHalf(full: real, est: real, r: real, m: real, d: real)
    requires est > 0.0 && m >= 2.0 && r * est == full && d * m == full && m - 1.0 < r
    ensures d > est / 2.0
  {
    Scale(m / 2.0, r, est);
    Scale(est / 2.0, d, m);
    assert (m / 2.0) * est == (est / 2.0) * m;
  }

  /** Equal steps fill the way to the mark; a step is at most a hair above the estimate and above its half. */
  lemma EqualStepBounds(full: real, est: real)
    requires full > 0.0 && est > 0.0 && StepCount(full / est) > 0
    ensures var n, d := StepCount(full / est), EqualStep(full, est).t;
            && EqualStep(full, est).Fin? && d > 0.0 && n as real * d == full
            && d < est + ROUND_N_STEPS_PRECISION * est
            && (n >= 2 ==> d > est / 2.0)
  {
    var r, n := full / est, StepCount(full / est);
    var m, d := n as real, full / n as real;
    Quotient(full, est);
    Quotient(full, m);
    Scale(0.0, d, m);
    StepCountLeast(r, n);
    StepBelow(full, est, r, m, d);
    if n >= 2 {
      StepCountLeast(r, n - 1);
      StepAboveHalf(full, est, r, m, d);
    }
  }

  lemma CountSign(ratio: real)
    requires ratio > 0.0
    ensures StepCount(ratio) >= 0
    ensures StepCount(ratio) == 0 <==> ratio < ROUND_N_STEPS_PRECISION
  {
  }

  /** No steps, an infinite step, exactly when the way is tiny against the estimate. */
  lemma NoStepsIff(full: real, est: real)
    requires full > 0.0 && est > 0.0
    ensures StepCount(full / est) >= 0
    ensures EqualStep(full, est) == PosInf <==> full < ROUND_N_STEPS_PRECISION * est
  {
    Quotient(full, est);
    TinyQuotient(full, est, full / est, ROUND_N_STEPS_PRECISION);
    CountSign(full / est);
  }

  lemma TinyQuotient(full: real, est: real, r: real, p: real)
    requires full > 0.0 && est > 0.0 && r * est == full
    ensures r > 0.0
    ensures r < p <==> full < p * est
  {
    Scale(0.0, r, est);
    Scale(r, p, est);
  }

  lemma CountBelow(ratio: real)
    requires ratio > 0.0
    ensures (StepCount(ratio) as real) < ratio <==> 0.0 < ratio - ratio.Floor as real < ROUND_N_STEPS_PRECISION
  {
  }

  function Product(x: real, y: real): real { x * y }

  lemma ProductGrows(a: real, b: real, c: real)
    requires c > 0.0
    ensures a < b <==> Product(a, c) < Product(b, c)
  {
    Scale(a, b, c);
  }

  lemma SameProducts(est: real, d: real, m: real, r: real)
    requires est > 0.0 && m > 0.0 && Product(m, est) == Product(est, m) && Product(d, m) == Product(r, est)
    ensures est < d <==> m < r
  {
    hide Product;
    ProductGrows(est, d, m);
    ProductGrows(m, r, est);
  }

  lemma SameProduct(est: real, d: real, m: real, r: real)
    requires est > 0.0 && m > 0.0 && d * m == r * est
    ensures est < d <==> m < r
  {
    assert Product(m, est) == Product(est, m) && Product(d, m) == Product(r, est);
    SameProducts(est, d, m, r);
  }

  /** The step exceeds the estimate exactly when the quotient was rounded down. */
  lemma EstimateExceededIff(full: real, est: real)
    requires full > 0.0 && est > 0.0 && StepCount(full / est) > 0
    ensures EqualStep(full, est).t > est <==>
            0.0 < full / est - (full / est).Floor as real < ROUND_N_STEPS_PRECISION
  {
    var r, m := full / est, StepCount(full / est) as real;
    Quotient(full, est);
    Quotient(full, m);
    Scale(0.0, r, est);
    SameProduct(est, full / m, m, r);
    CountBelow(r);
  }

  /** The estimate respects the upper constraint whenever the constraints do not conflict. */
  lemma ConstrainedBounds(full: real, upper: Time, lower: real)
    ensures Constrained(full, upper, lower) >= lower
    ensures upper.Fin? && lower <= upper.t ==> Constrained(full, upper, lower) <= upper.t
    ensures upper.Fin? && lower > upper.t ==> Constrained(full, upper, lower) == lower
    ensures lower <= full ==> Constrained(full, upper, lower) <= full
  {
  }

  /** The permanent upper limit is exceeded by a step that was rounded to a smaller number of steps. */
  lemma UpperLimitCanBeExceeded()
    ensures var full, upper := 1.000000000000001, 1.0;
            Constrained(full, Fin(upper), 0.1) == upper && EqualStep(full, upper) == Fin(full) && full > upper
  {
    var r: real := 1.000000000000001;
    assert r / 1.0 == r && r.Floor == 1;
  }

  /** Constraints that do not conflict: the upper one is exceeded exactly by a quotient that was rounded down. */
  lemma UpperExceededIff(full: real, upper: real, lower: real)
    requires full > 0.0 && 0.0 < lower <= upper && EqualStep(full, Constrained(full, Fin(upper), lower)).Fin?
    ensures EqualStep(full, Constrained(full, Fin(upper), lower)).t > upper <==>
            upper < full && 0.0 < full / upper - (full / upper).Floor as real < ROUND_N_STEPS_PRECISION
  {
    var est := Constrained(full, Fin(upper), lower);
    NoStepsIff(full, est);
    EstimateExceededIff(full, est);
    if full <= upper {
      OneStepUpTo(full, est);
    }
  }

  /** A way no longer than the estimate is one step. */
  lemma OneStepUpTo(full: real, est: real)
    requires 0.0 < full <= est && EqualStep(full, est).Fin?
    ensures EqualStep(full, est) == Fin(full)
  {
    Quotient(full, est);
    Scale(full / est, 1.0, est);
    NoStepsIff(full, est);
    StepCountLeast(full / est, 1);
  }

  // ---------------------------------------------------------------- the first step

  /** The limits of a governor hold for a step: it is below the upper one and, if it is one of several, above half of the lower one. */
  predicate WithinLimits(full: real, est: real, minStep: real, maxStep: real)
    requires est > 0.0
  {
    EqualStep(full, est).Fin? ==>
      && EqualStep(full, est).t < maxStep + ROUND_N_STEPS_PRECISION * maxStep
      && (StepCount(full / est) >= 2 ==> EqualStep(full, est).t >= (minStep + ROUND_N_STEPS_PRECISION * minStep) / 2.0)
  }

  /** The estimate of the first step: `init_dt` for every way if it is given, otherwise the whole way. */
  lemma FirstEstimate(input: Settings, mask: MarkType, full: real)
    requires Initial(input, mask).Ok? && full > 0.0
    ensures var g := Initial(input, mask).value;
            Constrained(full, g.upper, g.lower)
            == if input.initDt.Some? then input.initDt.value else Max(full, TIME_STEP_LOWER_BOUND)
  {
  }

  /** The first step of a governor keeps its permanent limits on the way to a fixed time. */
  predicate FirstWithinLimits(g: Gov, full: real)
    requires g.lower > 0.0 && g.maxStep.Fin?
  {
    WithinLimits(full, Constrained(full, g.upper, g.lower), g.minStep, g.maxStep.t)
  }

  /**
   * When the first step keeps the permanent limits. With `init_dt`, on every way: exactly if it lies between `min_dt` and `max_dt`.
   * Without, on every way up to the end: exactly if the whole time is within `max_dt`, or so short that there is no step at all.
   */
  lemma FirstStepLimitedIff(input: Settings, mask: MarkType)
    requires Initial(input, mask).Ok?
    ensures var g, way := Initial(input, mask).value, input.endTime - input.startTime;
            && g.lower > 0.0 && g.maxStep == Fin(GetOr(input.maxDt, GetOr(input.initDt, way)))
            && g.minStep == GetOr(input.minDt, GetOr(input.initDt, TIME_STEP_LOWER_BOUND))
            && (input.initDt.Some? ==>
                  ((forall full | full > 0.0 :: FirstWithinLimits(g, full)) <==> g.minStep <= input.initDt.value <= g.maxStep.t))
            && (input.initDt.None? ==>
                  ((forall full | 0.0 < full <= way :: FirstWithinLimits(g, full))
                   <==> way < g.maxStep.t + ROUND_N_STEPS_PRECISION * g.maxStep.t
                        || way < ROUND_N_STEPS_PRECISION * TIME_STEP_LOWER_BOUND))
  {
    var g := Initial(input, mask).value;
    if input.initDt.Some? {
      forall full | full > 0.0
        ensures FirstWithinLimits(g, full) <==> WithinLimits(full, input.initDt.value, g.minStep, g.maxStep.t)
      {
        FirstEstimate(input, mask, full);
      }
      GivenStepLimitedIff(g, input.initDt.value);
    } else {
      forall full | full > 0.0
        ensures FirstWithinLimits(g, full) <==> WithinLimits(full, Max(full, TIME_STEP_LOWER_BOUND), g.minStep, g.maxStep.t)
      {
        FirstEstimate(input, mask, full);
      }
      WholeWayLimitedIff(g, input.endTime - input.startTime);
    }
  }

  /** Without `init_dt` every way is one step, or none if it is tiny. */
  lemma WholeWayLimitedIff(g: Gov, way: real)
    requires g.maxStep.Fin? && 0.0 < g.minStep <= g.maxStep.t && way >= 0.0
    ensures (forall full | 0.0 < full <= way :: WithinLimits(full, Max(full, TIME_STEP_LOWER_BOUND), g.minStep, g.maxStep.t))
       <==> way < g.maxStep.t + ROUND_N_STEPS_PRECISION * g.maxStep.t || way < ROUND_N_STEPS_PRECISION * TIME_STEP_LOWER_BOUND
  {
    forall full | 0.0 < full
      ensures WithinLimits(full, Max(full, TIME_STEP_LOWER_BOUND), g.minStep, g.maxStep.t)
         <==> full < g.maxStep.t + ROUND_N_STEPS_PRECISION * g.maxStep.t || full < ROUND_N_STEPS_PRECISION * TIME_STEP_LOWER_BOUND
    {
      WayInOneStep(full);
    }
    if way > 0.0 {
      assert WithinLimits(way, Max(way, TIME_STEP_LOWER_BOUND), g.minStep, g.maxStep.t)
        <==> way < g.maxStep.t + ROUND_N_STEPS_PRECISION * g.maxStep.t || way < ROUND_N_STEPS_PRECISION * TIME_STEP_LOWER_BOUND;
    }
  }

  lemma WayInOneStep(full: real)
    requires full > 0.0
    ensures var est := Max(full, TIME_STEP_LOWER_BOUND);
            && StepCount(full / est) <= 1 && (EqualStep(full, est).Fin? ==> EqualStep(full, est) == Fin(full))
            && (EqualStep(full, est).Fin? <==> full >= ROUND_N_STEPS_PRECISION * TIME_STEP_LOWER_BOUND)
  {
    var est := Max(full, TIME_STEP_LOWER_BOUND);
    var ratio := full / est;
    NoStepsIff(full, est);
    Quotient(full, est);
    Scale(ratio, 1.0, est);
    assert ratio * est == full;
    assert ratio <= 1.0;
    StepCountLeast(ratio, 1);
  }

  lemma GivenStepLimitedIff(g: Gov, h: real)
    requires g.maxStep.Fin? && 0.0 < g.minStep <= g.maxStep.t && h > 0.0
    ensures (forall full | full > 0.0 :: WithinLimits(full, h, g.minStep, g.maxStep.t)) <==> g.minStep <= h <= g.maxStep.t
  {
    if g.minStep <= h <= g.maxStep.t {
      forall full | full > 0.0
        ensures WithinLimits(full, h, g.minStep, g.maxStep.t)
      {
        LimitedOnWay(full, h, g.minStep, g.maxStep.t);
      }
    } else if h > g.maxStep.t {
      var _ := TooLongOnSomeWay(h, g.minStep, g.maxStep.t);
    } else {
      var _ := TooShortOnSomeWay(h, g.minStep, g.maxStep.t);
    }
  }

  lemma LimitedOnWay(full: real, h: real, minStep: real, maxStep: real)
    requires full > 0.0 && 0.0 < minStep <= h <= maxStep
    ensures WithinLimits(full, h, minStep, maxStep)
  {
    NoStepsIff(full, h);
    if EqualStep(full, h).Fin? {
      EqualStepBounds(full, h);
      if StepCount(full / h) >= 2 {
        ManySteps(full, h);
      }
    }
  }

  /** Several steps are at least as long as two steps that just do not fit into one. */
  lemma ManySteps(full: real, h: real)
    requires full > 0.0 && h > 0.0 && StepCount(full / h) >= 2
    ensures EqualStep(full, h).t >= (h + ROUND_N_STEPS_PRECISION * h) / 2.0
  {
    var r, n, p := full / h, StepCount(full / h), ROUND_N_STEPS_PRECISION;
    var m, d := n as real, full / n as real;
    Quotient(full, h);
    Quotient(full, m);
    StepCountLeast(r, n - 1);
    Scale(m - 1.0 + p, r, h);
    assert (m - 1.0 + p) * h == (m - 1.0) * h + p * h;
    HalfOfWay(m, h, p * h, d);
  }

  lemma HalfOfWay(m: real, h: real, q: real, d: real)
    requires m >= 2.0 && 0.0 <= q <= h && (m - 1.0) * h + q <= d * m
    ensures d >= (h + q) / 2.0
  {
    var e := (h + q) / 2.0;
    assert (m - 1.0) * h + q - e * m == (m / 2.0 - 1.0) * (h - q);
    ProductNotNegative(m / 2.0 - 1.0, h - q);
    Scale(e, d, m);
  }

  lemma ProductNotNegative(a: real, b: real)
    requires a >= 0.0 && b >= 0.0
    ensures a * b >= 0.0
  {
  }

  lemma JustOneStep(full: real, h: real)
    requires h > 0.0 && h <= full < h + ROUND_N_STEPS_PRECISION * h
    ensures StepCount(full / h) == 1
  {
    Quotient(full, h);
    JustOne(full, h, full / h, ROUND_N_STEPS_PRECISION);
    OneWhole(full / h);
  }

  lemma JustOne(full: real, h: real, r: real, p: real)
    requires h > 0.0 && r * h == full && h <= full < h + p * h
    ensures 1.0 <= r < 1.0 + p
  {
    Scale(1.0, r, h);
    Scale(r - 1.0, p, h);
    assert (r - 1.0) * h == full - h;
  }

  lemma OneWhole(r: real)
    requires 1.0 <= r < 1.0 + ROUND_N_STEPS_PRECISION
    ensures StepCount(r) == 1
  {
  }

  /** A way just longer than `max_dt` allows is taken in one step. */
  lemma TooLongOnSomeWay(h: real, minStep: real, maxStep: real) returns (full: real)
    requires 0.0 < maxStep < h
    ensures full > 0.0 && !WithinLimits(full, h, minStep, maxStep)
  {
    hide StepCount;
    var p := ROUND_N_STEPS_PRECISION;
    full := Max(h, (maxStep + p * maxStep + (h + p * h)) / 2.0);
    JustOneStep(full, h);
    assert EqualStep(full, h) == Fin(full);
  }

  /** Two steps that just do not fit into one are shorter than `min_dt` allows. */
  lemma TooShortOnSomeWay(h: real, minStep: real, maxStep: real) returns (full: real)
    requires 0.0 < h < minStep
    ensures full > 0.0 && !WithinLimits(full, h, minStep, maxStep)
  {
    var p := ROUND_N_STEPS_PRECISION;
    full := (1.0 + p) * h;
    Quotient(full, h);
    Scale(full / h, 1.0 + p, h);
    Scale(1.0 + p, full / h, h);
    assert full / h == 1.0 + p && StepCount(1.0 + p) == 2;
    assert full == h + p * h;
    assert EqualStep(full, h) == Fin(full / 2.0);
  }

  /** The first step of a governor that knows its start and its end only. */
  lemma FirstStepOfTwo(input: Settings, mask: MarkType)
    requires Initial(input, mask).Ok? && mask <= EVERY_TYPE
    requires input.startTime + 1.0 / 2251799813685248.0 <= input.endTime && Lt(Fin(input.startTime), Fin(input.endTime))
    ensures var g := Initial(input, mask).value;
            var ms := AddAll([TimeMark(Fin(input.startTime), mask), TimeMark(Fin(input.endTime), mask)]);
            var full := input.endTime - input.startTime;
            && Defined(g, ms) && g.lower > 0.0
            && NextTime(g, ms).timeStep == EqualStep(full, Constrained(full, g.upper, g.lower))
            && NextTime(g, ms).time == Plus(Fin(input.startTime), NextTime(g, ms).timeStep)
  {
    hide AddAll, NextMarkTime, WellFormed, EqualStep;
    TwoMarks(input.startTime, input.endTime, mask);
    NextOfTwo(input.startTime, input.endTime, mask);
  }

  /** A record whose first step is five times as long as `max_dt`. */
  lemma FirstStepTooLong()
    ensures var input, mask := Settings(0.0, 10.0, Some(5.0), Some(0.1), Some(1.0)), {0};
            var ms := AddAll([TimeMark(Fin(0.0), mask), TimeMark(Fin(10.0), mask)]);
            && Initial(input, mask).Ok? && Defined(Initial(input, mask).value, ms)
            && Initial(input, mask).value.maxStep == Fin(1.0)
            && NextTime(Initial(input, mask).value, ms).timeStep == Fin(5.0)
  {
    hide AddAll, NextMarkTime, WellFormed, NextTime, Defined;
    FirstStepOfTwo(Settings(0.0, 10.0, Some(5.0), Some(0.1), Some(1.0)), {0});
    assert 10.0 / 5.0 == 2.0 && StepCount(2.0) == 2;
    assert EqualStep(10.0, 5.0) == Fin(5.0);
  }

  /** A record without `init_dt`: its first step goes all the way, ten times `max_dt`. */
  lemma FirstStepAllTheWay()
    ensures var input, mask := Settings(0.0, 10.0, None, None, Some(1.0)), {0};
            var ms := AddAll([TimeMark(Fin(0.0), mask), TimeMark(Fin(10.0), mask)]);
            && Initial(input, mask).Ok? && Defined(Initial(input, mask).value, ms)
            && Initial(input, mask).value.maxStep == Fin(1.0)
            && NextTime(Initial(input, mask).value, ms).timeStep == Fin(10.0)
  {
    hide AddAll, NextMarkTime, WellFormed, NextTime, Defined, EqualStep;
    FirstStepOfTwo(Settings(0.0, 10.0, None, None, Some(1.0)), {0});
    WayInOneStep(10.0);
  }

  /** The database of a governor alone: its start and its end. */
  lemma TwoMarks(start: real, end: real, mask: MarkType)
    requires start + 1.0 / 2251799813685248.0 <= end && mask <= EVERY_TYPE
    ensures var ms := AddAll([TimeMark(Fin(start), mask), TimeMark(Fin(end), mask)]);
            ms == [START, TimeMark(Fin(start), mask), TimeMark(Fin(end), mask), STOP] && WellFormed(ms)
  {
    var a, b := TimeMark(Fin(start), mask), TimeMark(Fin(end), mask);
    var one := [START, a, STOP];
    assert [a, b][..1] == [a] && [a][..0] == [];
    assert AddAll([a]) == Added(AddAll([]), a);
    assert LowerBound([START, STOP], a.time, 1) == 1;
    assert Added([START, STOP], a) == one;
    assert LowerBound(one, b.time, 1) == LowerBound(one, b.time, 2) == 2;
    assert Added(one, b) == one[..2] + [b] + one[2..];
    DatabaseRepresentsAdds([a, b]);
  }

  lemma NextOfTwo(start: real, end: real, mask: MarkType)
    requires 0.0 <= start && start + 1.0 / 2251799813685248.0 <= end && Lt(Fin(start), Fin(end)) && mask <= EVERY_TYPE
    ensures var ms := [START, TimeMark(Fin(start), mask), TimeMark(Fin(end), mask), STOP];
            WellFormed(ms) && NextMarkTime(ms, Fin(start), mask) == Fin(end)
  {
    var ms := [START, TimeMark(Fin(start), mask), TimeMark(Fin(end), mask), STOP];
    TwoMarks(start, end, mask);
    var c := Clock(Fin(start), Fin(0.0), PosInf);
    assert !Comes(ms[0], c, mask) && !Comes(ms[1], c, mask) && Comes(ms[2], c, mask);
  }
}
