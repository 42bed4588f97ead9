/** Times of the simulation and the tolerant comparisons of the time governor. */
module Times {
  datatype Time = NegInf | Fin(t: real) | PosInf

  function Abs(x: real): real {
    if x < 0.0 then -x else x
  }

  function Max(x: real, y: real): real {
    if x < y then y else x
  }

  function Min(x: real, y: real): real {
    if x < y then x else y
  }

  /** The relative tolerance of comparisons, sixteen machine epsilons or 2 to the -48. */
  function Tol(a: real, b: real): real {
    Max(Abs(a), Abs(b)) / 281474976710656.0
  }

  predicate Less(a: Time, b: Time) {
    match (a, b)
    case (Fin(x), Fin(y)) => x < y
    case (NegInf, _) => b != NegInf
    case (_, PosInf) => a != PosInf
    case _ => false
  }

  function MinTime(a: Time, b: Time): Time {
    if Less(a, b) then a else b
  }

  function Plus(a: Time, b: Time): Time
    requires !(a.NegInf? && b.PosInf?) && !(a.PosInf? && b.NegInf?)
  {
    if a.Fin? && b.Fin? then Fin(a.t + b.t) else if a.Fin? then b else a
  }

  /** `time < other` up to the tolerance; an infinite `other` makes the bound not-a-number or -infinity. */
  predicate Lt(time: Time, other: Time) {
    match other
    case PosInf => true
    case NegInf => false
    case Fin(o) => time.Fin? && time.t < o - Tol(time.t, o)
  }

  /** `time >= other` up to the tolerance. */
  predicate Ge(time: Time, other: Time) {
    match other
    case PosInf => false
    case NegInf => true
    case Fin(o) => time.PosInf? || (time.Fin? && time.t >= o - Tol(time.t, o))
  }

  /** The bound that `Lt` compares with grows with the other time. */
  lemma LtMonotone(t: real, o: real, p: real)
    requires o <= p
    ensures o - Tol(t, o) <= p - Tol(t, p)
  {
  }
}
