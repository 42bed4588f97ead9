/** Monomials of a polynomial space: the odometer that lists their exponents, their values and gradients. */
module PolynomialSpace {

  function Sum(p: seq<nat>): nat
    decreases |p|
  {
    if p == [] then 0 else p[0] + Sum(p[1..])
  }

  function Zeros(n: nat): (z: seq<nat>)
    ensures |z| == n && forall i | 0 <= i < n :: z[i] == 0
  {
    seq(n, _ => 0)
  }

  // ---------------------------------------------------------------- reference enumeration

  /** All exponent vectors of `dim` variables and total degree at most `degree`, last variable most significant. */
  function Monomials(dim: nat, degree: nat): seq<seq<nat>>
    decreases dim, degree + 2
  {
    if dim == 0 then [[]] else Blocks(dim, degree, 0)
  }

  /** The part of `Monomials` whose last exponent is at least `k`. */
  function Blocks(dim: nat, degree: nat, k: nat): seq<seq<nat>>
    requires dim > 0 && k <= degree + 1
    decreases dim, degree + 1 - k
  {
    if k == degree + 1 then [] else Extend(Monomials(dim - 1, degree - k), k) + Blocks(dim, degree, k + 1)
  }

  function Extend(ps: seq<seq<nat>>, k: nat): (r: seq<seq<nat>>)
    ensures |r| == |ps| && forall i | 0 <= i < |ps| :: r[i] == ps[i] + [k]
  {
    seq(|ps|, i requires 0 <= i < |ps| => ps[i] + [k])
  }

  function Choose(n: nat, k: nat): nat {
    if k == 0 then 1 else if n == 0 then 0 else Choose(n - 1, k - 1) + Choose(n - 1, k)
  }

  lemma {:induction false} ChooseTooMany(n: nat, k: nat)
    requires n < k
    ensures Choose(n, k) == 0
  {
    if n > 0 {
      ChooseTooMany(n - 1, k - 1);
      ChooseTooMany(n - 1, k);
    }
  }

  lemma {:induction false} BlocksLength(dim: nat, degree: nat, k: nat)
    requires dim > 0 && k <= degree + 1
    ensures |Blocks(dim, degree, k)| == Choose(degree - k + dim, dim)
    decreases dim, degree + 1 - k
  {
    if k == degree + 1 {
      ChooseTooMany(dim - 1, dim);
    } else {
      MonomialsLength(dim - 1, degree - k);
      BlocksLength(dim, degree, k + 1);
    }
  }

  /** The space has dimension binomial(degree + dim, dim). */
  lemma {:induction false} MonomialsLength(dim: nat, degree: nat)
    ensures |Monomials(dim, degree)| == Choose(degree + dim, dim)
    decreases dim, degree + 2
  {
    if dim > 0 {
      BlocksLength(dim, degree, 0);
    }
  }

  /** Every exponent vector within the degree is listed. */
  lemma {:induction false} MonomialsComplete(dim: nat, degree: nat, p: seq<nat>)
    requires |p| == dim && Sum(p) <= degree
    ensures p in Monomials(dim, degree)
    decreases dim
  {
    if dim == 0 {
      assert p == [];
    } else {
      var e, k := p[..dim - 1], p[dim - 1];
      assert p == e + [k];
      SumLast(e, k);
      MonomialsComplete(dim - 1, degree - k, e);
      InBlocks(dim, degree, 0, k, e);
    }
  }

  lemma {:induction false} InBlocks(dim: nat, degree: nat, i: nat, k: nat, e: seq<nat>)
    requires dim > 0 && i <= k <= degree && e in Monomials(dim - 1, degree - k)
    ensures e + [k] in Blocks(dim, degree, i)
    decreases k - i
  {
    if i == k {
      var ps := Monomials(dim - 1, degree - k);
      var j :| 0 <= j < |ps| && ps[j] == e;
      assert Extend(ps, k)[j] == e + [k];
      assert Blocks(dim, degree, k)[j] == e + [k];
    } else {
      InBlocks(dim, degree, i + 1, k, e);
    }
  }

  lemma {:induction false} SumLast(e: seq<nat>, k: nat)
    ensures Sum(e + [k]) == Sum(e) + k
    decreases |e|
  {
    if e == [] {
      assert e + [k] == [k];
    } else {
      assert (e + [k])[1..] == e[1..] + [k];
      SumLast(e[1..], k);
    }
  }

  // ---------------------------------------------------------------- one turn of the odometer

  /** Position of the exponent that is raised next: the first one whose tail still has room. */
  function Carry(p: seq<nat>, degree: nat, j: nat): (c: nat)
    requires j <= |p|
    ensures j <= c <= |p|
    decreases |p| - j
  {
    if j == |p| || Sum(p[j..]) < degree then j else Carry(p, degree, j + 1)
  }

  function Raise(p: seq<nat>, c: nat): (q: seq<nat>)
    requires c < |p|
    ensures |q| == |p| && forall i | 0 <= i < |p| :: q[i] == if i < c then 0 else if i == c then p[i] + 1 else p[i]
  {
    seq(|p|, i requires 0 <= i < |p| => if i < c then 0 else if i == c then p[i] + 1 else p[i])
  }

  lemma {:induction false} CarryLift(e: seq<nat>, k: nat, degree: nat, j: nat)
    requires k <= degree && j <= |e|
    ensures Carry(e + [k], degree, j) ==
            var c := Carry(e, degree - k, j);
            if c < |e| || k < degree then c else |e| + 1
    decreases |e| - j
  {
    assert (e + [k])[j..] == e[j..] + [k];
    SumLast(e[j..], k);
    if j < |e| {
      CarryLift(e, k, degree, j + 1);
    } else {
      assert e[j..] == [];
    }
  }

  predicate Turns(p: seq<nat>, q: seq<nat>, degree: nat) {
    var c := Carry(p, degree, 0);
    c < |p| && q == Raise(p, c)
  }

  predicate Fits(p: seq<nat>, dim: nat, degree: nat) {
    |p| == dim && Sum(p) <= degree
  }

  /** `ps` lists vectors of length `dim` and degree at most `degree`, each one turn after the one before. */
  ghost predicate Chain(ps: seq<seq<nat>>, dim: nat, degree: nat) {
    && (forall p | p in ps :: Fits(p, dim, degree))
    && forall i | 0 < i < |ps| :: TurnsAt(ps, i, degree)
  }

  predicate TurnsAt(ps: seq<seq<nat>>, i: nat, degree: nat)
    requires 0 < i < |ps|
  {
    Turns(ps[i - 1], ps[i], degree)
  }

  lemma {:induction false} SumZeros(n: nat)
    ensures Sum(Zeros(n)) == 0
  {
    if n > 0 {
      assert Zeros(n)[1..] == Zeros(n - 1);
      SumZeros(n - 1);
    }
  }

  lemma ExtendChain(ps: seq<seq<nat>>, dim: nat, degree: nat, k: nat)
    requires k <= degree && Chain(ps, dim, degree - k)
    ensures Chain(Extend(ps, k), dim + 1, degree)
  {
    var qs := Extend(ps, k);
    forall q | q in qs
      ensures Fits(q, dim + 1, degree)
    {
      var i :| 0 <= i < |qs| && qs[i] == q;
      assert Fits(ps[i], dim, degree - k);
      SumLast(ps[i], k);
    }
    forall i | 0 < i < |qs|
      ensures TurnsAt(qs, i, degree)
    {
      assert TurnsAt(ps, i, degree - k);
      TurnLift(ps[i - 1], ps[i], k, degree);
    }
  }

  lemma TurnLift(p: seq<nat>, q: seq<nat>, k: nat, degree: nat)
    requires k <= degree && Turns(p, q, degree - k)
    ensures Turns(p + [k], q + [k], degree)
  {
    CarryLift(p, k, degree, 0);
    var c := Carry(p, degree - k, 0);
    assert Raise(p + [k], c) == Raise(p, c) + [k];
  }

  /** From the last vector of the block of `k` the odometer goes to the first one of the next block. */
  lemma BlockTurn(e: seq<nat>, k: nat, degree: nat)
    requires k <= degree && Carry(e, degree - k, 0) == |e|
    ensures if k < degree then Turns(e + [k], Zeros(|e|) + [k + 1], degree) else Carry(e + [k], degree, 0) == |e| + 1
  {
    CarryLift(e, k, degree, 0);
    if k < degree {
      assert Raise(e + [k], |e|) == Zeros(|e|) + [k + 1];
    }
  }

  lemma ChainConcat(ps: seq<seq<nat>>, qs: seq<seq<nat>>, dim: nat, degree: nat)
    requires Chain(ps, dim, degree) && Chain(qs, dim, degree)
    requires |ps| > 0 && |qs| > 0 && Turns(ps[|ps| - 1], qs[0], degree)
    ensures Chain(ps + qs, dim, degree)
  {
    var rs := ps + qs;
    forall i | 0 < i < |rs|
      ensures TurnsAt(rs, i, degree)
    {
      if i < |ps| {
        assert TurnsAt(ps, i, degree);
      } else if i > |ps| {
        assert TurnsAt(qs, i - |ps|, degree);
      }
    }
  }

  /** A chain over the whole simplex, or the part of one from a given last exponent on. */
  ghost predicate FullChain(ps: seq<seq<nat>>, dim: nat, degree: nat, first: seq<nat>) {
    Chain(ps, dim, degree) && |ps| > 0 && ps[0] == first && Carry(ps[|ps| - 1], degree, 0) == dim
  }

  lemma LastBlock(ps: seq<seq<nat>>, dim: nat, k: nat)
    requires FullChain(ps, dim, 0, Zeros(dim))
    ensures FullChain(Extend(ps, k), dim + 1, k, Zeros(dim) + [k])
  {
    ExtendChain(ps, dim, k, k);
    var e := ps[|ps| - 1];
    assert Fits(e, dim, 0);
    BlockTurn(e, k, k);
  }

  lemma JoinBlocks(ps: seq<seq<nat>>, bs: seq<seq<nat>>, dim: nat, degree: nat, k: nat)
    requires k < degree && FullChain(ps, dim, degree - k, Zeros(dim))
    requires FullChain(bs, dim + 1, degree, Zeros(dim) + [k + 1])
    ensures FullChain(Extend(ps, k) + bs, dim + 1, degree, Zeros(dim) + [k])
  {
    ExtendChain(ps, dim, degree, k);
    var e := ps[|ps| - 1];
    assert Fits(e, dim, degree - k);
    BlockTurn(e, k, degree);
    ChainConcat(Extend(ps, k), bs, dim + 1, degree);
  }

  lemma {:induction false} BlocksChain(dim: nat, degree: nat, k: nat)
    requires dim > 0 && k <= degree
    ensures FullChain(Blocks(dim, degree, k), dim, degree, Zeros(dim - 1) + [k])
    decreases dim, degree + 1 - k
  {
    var ps := Monomials(dim - 1, degree - k);
    MonomialsChain(dim - 1, degree - k);
    if k == degree {
      LastBlock(ps, dim - 1, k);
      assert Blocks(dim, degree, k) == Extend(ps, k);
    } else {
      BlocksChain(dim, degree, k + 1);
      JoinBlocks(ps, Blocks(dim, degree, k + 1), dim - 1, degree, k);
    }
  }

  lemma {:induction false} MonomialsChain(dim: nat, degree: nat)
    ensures FullChain(Monomials(dim, degree), dim, degree, Zeros(dim))
    decreases dim, degree + 2
  {
    if dim > 0 {
      BlocksChain(dim, degree, 0);
      assert Zeros(dim - 1) + [0] == Zeros(dim);
    }
  }

  // ---------------------------------------------------------------- order

  /** `p` comes before `q`: at the last position where they differ `p` is smaller. */
  ghost predicate Before(p: seq<nat>, q: seq<nat>) {
    |p| == |q| && exists j | 0 <= j < |p| :: p[j] < q[j] && forall i | j < i < |p| :: p[i] == q[i]
  }

  lemma BeforeTransitive(p: seq<nat>, q: seq<nat>, r: seq<nat>)
    requires Before(p, q) && Before(q, r)
    ensures Before(p, r) && p != r
  {
    var j :| 0 <= j < |p| && p[j] < q[j] && forall i | j < i < |p| :: p[i] == q[i];
    var k :| 0 <= k < |q| && q[k] < r[k] && forall i | k < i < |q| :: q[i] == r[i];
    var m := if j < k then k else j;
    assert p[m] < r[m] && forall i | m < i < |p| :: p[i] == r[i];
  }

  lemma TurnIncreases(p: seq<nat>, q: seq<nat>, degree: nat)
    requires Turns(p, q, degree)
    ensures Before(p, q) && p != q
  {
    var c := Carry(p, degree, 0);
    assert p[c] < q[c] && forall i | c < i < |p| :: p[i] == q[i];
  }

  lemma {:induction false} ChainIncreases(ps: seq<seq<nat>>, dim: nat, degree: nat, i: nat, j: nat)
    requires Chain(ps, dim, degree) && i < j < |ps|
    ensures Before(ps[i], ps[j]) && ps[i] != ps[j]
    decreases j
  {
    var p := ps[j - 1];
    assert TurnsAt(ps, j, degree);
    TurnIncreases(p, ps[j], degree);
    if i < j - 1 {
      ChainIncreases(ps, dim, degree, i, j - 1);
      BeforeTransitive(ps[i], p, ps[j]);
    }
  }

  /** Nothing but vectors within the degree is listed, each once, in strictly increasing order. */
  lemma MonomialsIncreasing(dim: nat, degree: nat)
    ensures forall p | p in Monomials(dim, degree) :: |p| == dim && Sum(p) <= degree
    ensures forall i, j | 0 <= i < j < |Monomials(dim, degree)| ::
              Before(Monomials(dim, degree)[i], Monomials(dim, degree)[j])
              && Monomials(dim, degree)[i] != Monomials(dim, degree)[j]
  {
    MonomialsChain(dim, degree);
    var ms := Monomials(dim, degree);
    forall p | p in ms
      ensures |p| == dim && Sum(p) <= degree
    {
      assert Fits(p, dim, degree);
    }
    forall i, j | 0 <= i < j < |ms|
      ensures Before(ms[i], ms[j]) && ms[i] != ms[j]
    {
      ChainIncreases(ms, dim, degree, i, j);
    }
  }

  // ---------------------------------------------------------------- the constructor's loop

  /** Raises the exponents in place; `iDim` runs past the last variable when there is nothing left to raise. */
  method Increment(pows: array<nat>, degree: nat, sum: nat) returns (iDim: nat, degreeSum: nat)
    requires sum == Sum(pows[..]) <= degree
    modifies pows
    ensures iDim == Carry(old(pows[..]), degree, 0)
    ensures iDim < pows.Length ==> pows[..] == Raise(old(pows[..]), iDim) && degreeSum == Sum(pows[..])
  {
    var dim := pows.Length;
    ghost var e := pows[..];
    iDim, degreeSum := 0, sum;
    assert e[0..] == e;
    while iDim < dim
      invariant iDim <= dim && Carry(e, degree, 0) == Carry(e, degree, iDim)
      invariant forall k | 0 <= k < dim :: pows[k] == if k < iDim then 0 else e[k]
      invariant degreeSum == Sum(e[iDim..])
    {
      if degreeSum < degree {
        pows[iDim] := pows[iDim] + 1;
        degreeSum := degreeSum + 1;
        SumRaise(e, iDim);
        assert pows[..] == Raise(e, iDim);
        return;
      }
      SumTail(e, iDim);
      degreeSum := degreeSum - pows[iDim];
      pows[iDim] := 0;
      iDim := iDim + 1;
    }
  }

  lemma SumTail(e: seq<nat>, i: nat)
    requires i < |e|
    ensures Sum(e[i..]) == e[i] + Sum(e[i + 1..])
  {
    assert e[i..][1..] == e[i + 1..];
  }

  lemma MonomialAt(dim: nat, degree: nat, k: nat)
    ensures |Monomials(dim, degree)| > 0 && Monomials(dim, degree)[0] == Zeros(dim)
    ensures k < |Monomials(dim, degree)| ==> Fits(Monomials(dim, degree)[k], dim, degree)
    ensures k + 1 < |Monomials(dim, degree)| ==> Turns(Monomials(dim, degree)[k], Monomials(dim, degree)[k + 1], degree)
    ensures k + 1 == |Monomials(dim, degree)| ==> Carry(Monomials(dim, degree)[k], degree, 0) == dim
  {
    MonomialsChain(dim, degree);
    var ms := Monomials(dim, degree);
    if k + 1 < |ms| {
      assert TurnsAt(ms, k + 1, degree);
    }
  }

  /** Fills the table of powers; the loop ends for every degree and dimension. */
  method ListPowers(dim: nat, degree: nat) returns (powers: seq<seq<nat>>)
    ensures powers == Monomials(dim, degree)
  {
    ghost var ms := Monomials(dim, degree);
    MonomialAt(dim, degree, 0);
    var pows := new nat[dim](_ => 0);
    var degreeSum := 0;
    powers := [];
    SumZeros(dim);
    assert pows[..] == Zeros(dim);
    while true
      invariant |powers| < |ms| && powers == ms[..|powers|]
      invariant pows[..] == ms[|powers|] && degreeSum == Sum(pows[..])
      decreases |ms| - |powers|
    {
      ghost var k := |powers|;
      MonomialAt(dim, degree, k);
      powers := powers + [pows[..]];
      assert powers == ms[..k + 1];
      var iDim;
      iDim, degreeSum := Increment(pows, degree, degreeSum);
      if iDim == dim {
        break;
      }
    }
  }

  lemma SumRaise(e: seq<nat>, c: nat)
    requires c < |e|
    ensures Sum(Raise(e, c)) == Sum(e[c..]) + 1
  {
    SumZerosThen(c, [e[c] + 1] + e[c + 1..]);
    assert Raise(e, c) == Zeros(c) + ([e[c] + 1] + e[c + 1..]);
    assert ([e[c] + 1] + e[c + 1..])[1..] == e[c + 1..] == e[c..][1..];
  }

  lemma {:induction false} SumZerosThen(n: nat, p: seq<nat>)
    ensures Sum(Zeros(n) + p) == Sum(p)
  {
    if n == 0 {
      assert Zeros(0) + p == p;
    } else {
      assert (Zeros(n) + p)[1..] == Zeros(n - 1) + p;
      SumZerosThen(n - 1, p);
    }
  }

  // ---------------------------------------------------------------- values and gradients

  function Pow(x: real, n: nat): real {
    if n == 0 then 1.0 else x * Pow(x, n - 1)
  }

  /** Product of the factors from position `j` on. */
  function Product(fs: seq<real>, j: nat): real
    requires j <= |fs|
    decreases |fs| - j
  {
    if j == |fs| then 1.0 else fs[j] * Product(fs, j + 1)
  }

  function Factors(e: seq<nat>, p: seq<real>): seq<real>
    requires |e| == |p|
  {
    seq(|p|, i requires 0 <= i < |p| => Pow(p[i], e[i]))
  }

  /** Value of the monomial with exponents `e` at the point `p`. */
  function Value(e: seq<nat>, p: seq<real>): real
    requires |e| == |p|
  {
    Product(Factors(e, p), 0)
  }

  /** Exponents after differentiation by variable `j`. */
  function Lowered(e: seq<nat>, j: nat): seq<nat>
    requires j < |e| && e[j] > 0
  {
    e[j := e[j] - 1]
  }

  function Derivative(e: seq<nat>, p: seq<real>, j: nat): real
    requires |e| == |p| && j < |p|
  {
    if e[j] == 0 then 0.0 else e[j] as real * Value(Lowered(e, j), p)
  }

  lemma Assoc(a: real, b: real, c: real)
    ensures a * (b * c) == (a * b) * c
  {
  }

  method BasisValue(e: seq<nat>, p: seq<real>) returns (v: real)
    requires |e| == |p|
    ensures v == Value(e, p)
  {
    v := 1.0;
    ghost var fs := Factors(e, p);
    for j := 0 to |p|
      invariant v * Product(fs, j) == Product(fs, 0)
    {
      Assoc(v, fs[j], Product(fs, j + 1));
      v := v * Pow(p[j], e[j]);
    }
  }

  method BasisGrad(e: seq<nat>, p: seq<real>) returns (grad: array<real>)
    requires |e| == |p|
    ensures fresh(grad) && grad.Length == |p|
    ensures forall j | 0 <= j < |p| :: grad[j] == Derivative(e, p, j)
  {
    grad := new real[|p|](_ => 0.0);
    for j := 0 to |p|
      invariant forall i | 0 <= i < j :: grad[i] == Derivative(e, p, i)
    {
      grad[j] := e[j] as real;
      if e[j] == 0 {
        continue;
      }
      grad[j] := MultiplyFactors(e, p, j, grad[j]);
    }
  }

  /** The inner loop: one factor a variable, with the exponent of variable `j` one lower. */
  method MultiplyFactors(e: seq<nat>, p: seq<real>, j: nat, start: real) returns (g: real)
    requires |e| == |p| && j < |p| && e[j] > 0
    ensures g == start * Value(Lowered(e, j), p)
  {
    g := start;
    ghost var fs := Factors(Lowered(e, j), p);
    for k := 0 to |p|
      invariant g * Product(fs, k) == start * Product(fs, 0)
    {
      Assoc(g, fs[k], Product(fs, k + 1));
      g := g * Pow(p[k], if k == j then e[k] - 1 else e[k]);
    }
  }

  /** The polynomial in `h` with ((x + h)^n - x^n) == h * Slope(x, h, n). */
  function Slope(x: real, h: real, n: nat): real {
    if n == 0 then 0.0 else (x + h) * Slope(x, h, n - 1) + Pow(x, n - 1)
  }

  lemma {:induction false} SlopeIsDifference(x: real, h: real, n: nat)
    ensures Pow(x + h, n) == Pow(x, n) + h * Slope(x, h, n)
  {
    if n > 0 {
      SlopeIsDifference(x, h, n - 1);
      var a, b, s := Pow(x + h, n - 1), Pow(x, n - 1), Slope(x, h, n - 1);
      assert (x + h) * (b + h * s) == x * b + h * b + h * ((x + h) * s);
      assert h * ((x + h) * s + b) == h * ((x + h) * s) + h * b;
    }
  }

  lemma {:induction false} SlopeAtZero(x: real, n: nat)
    ensures Slope(x, 0.0, n) == if n == 0 then 0.0 else n as real * Pow(x, n - 1)
  {
    if n > 1 {
      SlopeAtZero(x, n - 1);
      assert x * ((n - 1) as real * Pow(x, n - 2)) == (n - 1) as real * Pow(x, n - 1);
    }
  }

  lemma {:induction false} PullOut(fs: seq<real>, j: nat, x: real, i: nat)
    requires i <= j < |fs|
    ensures Product(fs[j := x], i) == x * Product(fs[j := 1.0], i)
    decreases j - i
  {
    if i < j {
      PullOut(fs, j, x, i + 1);
      var a, c := fs[i], Product(fs[j := 1.0], i + 1);
      assert a * (x * c) == x * (a * c);
    } else {
      ProductTail(fs[j := x], fs[j := 1.0], j + 1);
    }
  }

  lemma {:induction false} ProductTail(fs: seq<real>, gs: seq<real>, i: nat)
    requires |fs| == |gs| && i <= |fs| && forall k | i <= k < |fs| :: fs[k] == gs[k]
    ensures Product(fs, i) == Product(gs, i)
    decreases |fs| - i
  {
    if i < |fs| {
      ProductTail(fs, gs, i + 1);
    }
  }

  /** The factors of the other variables. */
  function Rest(e: seq<nat>, p: seq<real>, j: nat): real
    requires |e| == |p| && j < |p|
  {
    Product(Factors(e, p)[j := 1.0], 0)
  }

  /** A monomial whose exponent or coordinate differs in variable `j` only has the same other factors. */
  lemma SplitFactor(e: seq<nat>, p: seq<real>, f: seq<nat>, q: seq<real>, j: nat)
    requires |e| == |p| == |f| == |q| && j < |p|
    requires forall i | 0 <= i < |p| && i != j :: e[i] == f[i] && p[i] == q[i]
    ensures Value(f, q) == Pow(q[j], f[j]) * Rest(e, p, j)
  {
    PullOut(Factors(e, p), j, Pow(q[j], f[j]), 0);
    assert Factors(f, q) == Factors(e, p)[j := Pow(q[j], f[j])];
  }

  /** The difference quotient in variable `j` is a polynomial in `h`. */
  lemma DifferenceQuotient(e: seq<nat>, p: seq<real>, j: nat, h: real)
    requires |e| == |p| && j < |p|
    ensures Value(e, p[j := p[j] + h]) == Value(e, p) + h * (Slope(p[j], h, e[j]) * Rest(e, p, j))
  {
    SplitFactor(e, p, e, p, j);
    SplitFactor(e, p, e, p[j := p[j] + h], j);
    SlopeIsDifference(p[j], h, e[j]);
    Distribute(Pow(p[j], e[j]), h, Slope(p[j], h, e[j]), Rest(e, p, j));
  }

  /** The gradient is the derivative: the value at h = 0 of the polynomial difference quotient. */
  lemma GradientIsDerivative(e: seq<nat>, p: seq<real>, j: nat)
    requires |e| == |p| && j < |p|
    ensures Derivative(e, p, j) == Slope(p[j], 0.0, e[j]) * Rest(e, p, j)
    ensures forall h: real ::
              Value(e, p[j := p[j] + h]) == Value(e, p) + h * (Slope(p[j], h, e[j]) * Rest(e, p, j))
  {
    forall h: real
      ensures Value(e, p[j := p[j] + h]) == Value(e, p) + h * (Slope(p[j], h, e[j]) * Rest(e, p, j))
    {
      DifferenceQuotient(e, p, j, h);
    }
    SlopeAtZero(p[j], e[j]);
    if e[j] > 0 {
      SplitFactor(e, p, Lowered(e, j), p, j);
      Assoc(e[j] as real, Pow(p[j], e[j] - 1), Rest(e, p, j));
    }
  }

  lemma Distribute(a: real, h: real, s: real, r: real)
    ensures (a + h * s) * r == a * r + h * (s * r)
  {
  }
}
