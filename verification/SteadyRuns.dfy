/** Runs of a steady governor: one step to the end. */
module SteadyRuns {
  import opened Options
  import opened Times
  import opened TimeMarks
  import opened TimeGovernor
  import opened GovernorRuns

  /** Before the step of a steady governor. */
  ghost predicate Before(g: Gov, ms: seq<TimeMark>) {
    && g.steady && Defined(g, ms) && g.minStep > 0.0 && g.level == 0 && !g.IsEnd()
  }

  /** After it: at the end, without a step ahead. */
  ghost predicate After(g: Gov, ms: seq<TimeMark>) {
    && g.steady && Defined(g, ms) && g.minStep > 0.0 && g.level == 1 && g.time == g.endTime && g.IsEnd()
    && g.timeStep == Fin(0.0) && g.lastStep == g.endTime && !g.dtChanged
  }

  /** The steady governor as constructed has its step ahead. */
  lemma SteadyStarts(time: real, ms: seq<TimeMark>)
    requires WellFormed(ms)
    ensures Before(Steady(time), ms) && EstimateDt(Steady(time), ms) == PosInf
  {
  }

  /** The step goes to the end, whatever it is: level one, no further step, and no change of the step. */
  lemma SteadyStepEnds(g: Gov, ms: seq<TimeMark>)
    requires Before(g, ms)
    ensures EstimateDt(g, ms) == PosInf
    ensures var h := NextTime(g, ms);
            After(h, ms) && EstimateDt(h, ms) == Fin(0.0) && h.endTime == g.endTime && NextTime(h, ms) == h
  {
  }

  /** Fixing and the setters neither make the step nor undo it. */
  lemma SteadyIdle(g: Gov, h: Gov, ms: seq<TimeMark>, op: Op)
    requires Before(g, ms) || After(g, ms)
    requires Transition(g, h, ms, op) && !op.Next?
    ensures (Before(g, ms) ==> Before(h, ms)) && (After(g, ms) ==> After(h, ms))
    ensures h.time == g.time && h.endTime == g.endTime
  {
  }

  /**
   * In every run of a steady governor the first step asked for goes to the end and no other does anything: before it the estimate
   * is infinite and time stands still, after it the estimate is zero and the governor is at its end.
   */
  lemma {:induction false} SteadyRun(gs: seq<Gov>, ops: seq<Op>, ms: seq<TimeMark>, bound: real, n: nat)
    requires IsRun(gs, ops, ms, bound) && Before(gs[0], ms) && n <= |ops|
    ensures gs[n].endTime == gs[0].endTime && Defined(gs[n], ms)
    ensures NextsUpTo(ops, n) == 0 ==> Before(gs[n], ms) && gs[n].time == gs[0].time && EstimateDt(gs[n], ms) == PosInf
    ensures NextsUpTo(ops, n) > 0 ==> After(gs[n], ms) && EstimateDt(gs[n], ms) == Fin(0.0)
    ensures n < |ops| ==> (Effective(gs[n], ops[n]) <==> ops[n].Next? && NextsUpTo(ops, n) == 0)
    decreases n
  {
    if n > 0 {
      SteadyRun(gs, ops, ms, bound, n - 1);
      var g, h, op := gs[n - 1], gs[n], ops[n - 1];
      assert TransitionAt(gs, ops, ms, bound, n - 1);
      if !op.Next? {
        SteadyIdle(g, h, ms, op);
      } else if NextsUpTo(ops, n - 1) == 0 {
        SteadyStepEnds(g, ms);
      } else {
        EndStays(g, ms);
      }
    }
  }
}
