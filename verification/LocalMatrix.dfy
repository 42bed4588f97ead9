/** Local matrices of the lowest order mixed elements: quadrature, Kronecker fluxes, positive definiteness. */
module LocalMatrix {
  import opened Matrices
  import opened Times

  // ---------------------------------------------------------------- the plane

  datatype V2 = V2(x: real, y: real) {
    function Plus(v: V2): V2 { V2(x + v.x, y + v.y) }
    function Minus(v: V2): V2 { V2(x - v.x, y - v.y) }
    function Times(c: real): V2 { V2(x * c, y * c) }
  }

  const ZERO2 := V2(0.0, 0.0)

  datatype Tensor2 = Tensor2(a00: real, a01: real, a10: real, a11: real)

  function Form2(a: Tensor2, u: V2, v: V2): real {
    Term(a.a00, u.x, v.x) + Term(a.a01, u.x, v.y) + Term(a.a10, u.y, v.x) + Term(a.a11, u.y, v.y)
  }

  function Term(a: real, x: real, y: real): real { a * x * y }

  ghost predicate PositiveDefinite2(a: Tensor2) {
    a.a01 == a.a10 && forall v: V2 :: v != ZERO2 ==> PositiveAt2(a, v)
  }

  predicate PositiveAt2(a: Tensor2, v: V2) {
    Form2(a, v, v) > 0.0
  }

  datatype Triangle = Triangle(p: seq<V2>) {
    predicate Valid() { |p| == 3 && Doubled() != 0.0 }

    /** Twice the signed area. */
    function Doubled(): real
      requires |p| == 3
    {
      (p[1].x - p[0].x) * (p[2].y - p[0].y) - (p[2].x - p[0].x) * (p[1].y - p[0].y)
    }

    function Centre(): V2
      requires |p| == 3
    {
      V2((p[0].x + p[1].x + p[2].x) / 3.0, (p[0].y + p[1].y + p[2].y) / 3.0)
    }

    /** Node opposite to side `i`, which runs from node `i` to the next one. */
    function Opposite(i: nat): V2
      requires |p| == 3 && i < 3
    {
      p[(i + 2) % 3]
    }

    function Midpoint(i: nat): V2
      requires |p| == 3 && i < 3
    {
      var q := p[(i + 1) % 3];
      V2((p[i].x + q.x) / 2.0, (p[i].y + q.y) / 2.0)
    }
  }

  // ---------------------------------------------------------------- basis functions of a triangle

  datatype Basis2 = Basis2(alfa: real, beta: real, gama: real)

  function BasFunc0(x0: real, y0: real, x1: real, y1: real, x2: real, y2: real): Basis2
    requires (x0 - x2) * (y1 - y0) + (y0 - y2) * (x0 - x1) != 0.0
  {
    Basis2(x2, y2, 1.0 / Abs((x0 - x2) * (y1 - y0) + (y0 - y2) * (x0 - x1)))
  }

  lemma CyclicArea(t: Triangle, i: nat)
    requires |t.p| == 3 && i < 3
    ensures var a, b, c := t.p[i], t.p[(i + 1) % 3], t.p[(i + 2) % 3];
            (a.x - c.x) * (b.y - a.y) + (a.y - c.y) * (a.x - b.x) == t.Doubled()
  {
  }

  function Basis(t: Triangle, i: nat): Basis2
    requires t.Valid() && i < 3
  {
    CyclicArea(t, i);
    var a, b, c := t.p[i], t.p[(i + 1) % 3], t.p[(i + 2) % 3];
    BasFunc0(a.x, a.y, b.x, b.y, c.x, c.y)
  }

  /** All three functions have the same factor, and each vanishes in the node opposite to its side. */
  lemma BasisShape(t: Triangle, i: nat)
    requires t.Valid() && i < 3
    ensures Basis(t, i) == Basis2(t.Opposite(i).x, t.Opposite(i).y, 1.0 / Abs(t.Doubled()))
  {
    CyclicArea(t, i);
  }

  /** Value of a basis function. */
  function BasisAt(b: Basis2, x: V2): V2 {
    V2(x.x - b.alfa, x.y - b.beta).Times(b.gama)
  }

  /** Outer normal of side `s`, as long as the side. */
  function Normal(t: Triangle, s: nat): V2
    requires |t.p| == 3 && s < 3
  {
    var a, b := t.p[s], t.p[(s + 1) % 3];
    var sign := if t.Doubled() > 0.0 then 1.0 else -1.0;
    V2(b.y - a.y, a.x - b.x).Times(sign)
  }

  function Dot2(u: V2, v: V2): real { u.x * v.x + u.y * v.y }

  function OnSide(t: Triangle, s: nat, at: real): V2
    requires |t.p| == 3 && s < 3
  {
    t.p[s].Plus(t.p[(s + 1) % 3].Minus(t.p[s]).Times(at))
  }

  lemma HeightTimesSide(t: Triangle, i: nat, s: nat, at: real)
    requires |t.p| == 3 && i < 3 && s < 3
    ensures var a, b := t.p[s], t.p[(s + 1) % 3];
            Dot2(OnSide(t, s, at).Minus(t.Opposite(i)), V2(b.y - a.y, a.x - b.x)) == if i == s then t.Doubled() else 0.0
  {
    var a, b, c := t.p[s], t.p[(s + 1) % 3], t.p[(s + 2) % 3];
    CyclicArea(t, s);
  }

  /** The normal flux of function `i` is constant on every side and the total is one on side `i`, zero on the others. */
  lemma KroneckerFlux(t: Triangle, i: nat, s: nat, at: real)
    requires t.Valid() && i < 3 && s < 3
    ensures Dot2(BasisAt(Basis(t, i), OnSide(t, s, at)), Normal(t, s)) == if i == s then 1.0 else 0.0
  {
    hide Dot2, Triangle.Doubled, Basis;
    BasisShape(t, i);
    HeightTimesSide(t, i, s, at);
    var a, b := t.p[s], t.p[(s + 1) % 3];
    var g, sign := 1.0 / Abs(t.Doubled()), if t.Doubled() > 0.0 then 1.0 else -1.0;
    var u, v := OnSide(t, s, at).Minus(t.Opposite(i)), V2(b.y - a.y, a.x - b.x);
    assert BasisAt(Basis(t, i), OnSide(t, s, at)) == u.Times(g) && Normal(t, s) == v.Times(sign);
    ScaledDot(u, v, g, sign);
    Unit(t.Doubled());
  }

  lemma ScaledDot(u: V2, v: V2, g: real, s: real)
    ensures Dot2(u.Times(g), v.Times(s)) == Dot2(u, v) * (g * s)
  {
    assert (u.x * g) * (v.x * s) == (u.x * v.x) * (g * s);
    assert (u.y * g) * (v.y * s) == (u.y * v.y) * (g * s);
    Distributed(u.x * v.x, u.y * v.y, g * s);
  }

  lemma Distributed(a: real, b: real, c: real)
    ensures (a + b) * c == a * c + b * c
  {
  }

  lemma Unit(d: real)
    requires d != 0.0
    ensures d * ((1.0 / Abs(d)) * (if d > 0.0 then 1.0 else -1.0)) == 1.0
  {
    if d > 0.0 {
      assert d * (1.0 / d) == 1.0;
    } else {
      var e := -d;
      assert e * (1.0 / e) == 1.0;
    }
  }

  // ---------------------------------------------------------------- the polynomial and its quadrature

  function CalcPolynom(bi: Basis2, bj: Basis2, a: Tensor2): (poly: seq<real>)
    ensures |poly| == 6
  {
    [ a.a00 * bi.alfa * bj.alfa + a.a01 * bi.beta * bj.alfa + a.a10 * bi.alfa * bj.beta + a.a11 * bi.beta * bj.beta,
      (a.a00 * bi.alfa + a.a00 * bj.alfa + a.a01 * bi.beta + a.a10 * bj.beta) * -1.0,
      (a.a11 * bi.beta + a.a11 * bj.beta + a.a10 * bi.alfa + a.a01 * bj.alfa) * -1.0,
      a.a00,
      a.a01 + a.a10,
      a.a11 ]
  }

  function PolynomValue(poly: seq<real>, x: V2): real
    requires |poly| == 6
  {
    poly[0] + poly[1] * x.x + poly[2] * x.y + poly[3] * x.x * x.x + poly[4] * x.x * x.y + poly[5] * x.y * x.y
  }

  /** A product of differences, multiplied out. */
  lemma TermOfDifferences(a: real, x: real, p: real, y: real, q: real)
    ensures Term(a, x - p, y - q) == Term(a, x, y) - Term(a, q, x) - Term(a, p, y) + Term(a, q, p)
  {
  }

  lemma SumOfFour(a: real, b: real, c: real, d: real, p: real, q: real, r: real, s: real, x: real)
    ensures ((a * p + b * q + c * r + d * s) * -1.0) * x == -(Term(a, p, x) + Term(b, q, x) + Term(c, r, x) + Term(d, s, x))
  {
  }

  lemma SumOfTwo(a: real, b: real, x: real, y: real)
    ensures (a + b) * x * y == Term(a, x, y) + Term(b, y, x)
  {
  }

  function PolynomTerms(bi: Basis2, bj: Basis2, a: Tensor2, x: V2): real {
    (Term(a.a00, bi.alfa, bj.alfa) + Term(a.a01, bi.beta, bj.alfa) + Term(a.a10, bi.alfa, bj.beta) + Term(a.a11, bi.beta, bj.beta))
    - (Term(a.a00, bi.alfa, x.x) + Term(a.a00, bj.alfa, x.x) + Term(a.a01, bi.beta, x.x) + Term(a.a10, bj.beta, x.x))
    - (Term(a.a11, bi.beta, x.y) + Term(a.a11, bj.beta, x.y) + Term(a.a10, bi.alfa, x.y) + Term(a.a01, bj.alfa, x.y))
    + Term(a.a00, x.x, x.x) + Term(a.a01, x.x, x.y) + Term(a.a10, x.y, x.x) + Term(a.a11, x.y, x.y)
  }

  lemma LinearTerms(bi: Basis2, bj: Basis2, a: Tensor2, x: V2)
    ensures var poly := CalcPolynom(bi, bj, a);
            && poly[1] * x.x
               == -(Term(a.a00, bi.alfa, x.x) + Term(a.a00, bj.alfa, x.x) + Term(a.a01, bi.beta, x.x) + Term(a.a10, bj.beta, x.x))
            && poly[2] * x.y
               == -(Term(a.a11, bi.beta, x.y) + Term(a.a11, bj.beta, x.y) + Term(a.a10, bi.alfa, x.y) + Term(a.a01, bj.alfa, x.y))
  {
    SumOfFour(a.a00, a.a00, a.a01, a.a10, bi.alfa, bj.alfa, bi.beta, bj.beta, x.x);
    SumOfFour(a.a11, a.a11, a.a10, a.a01, bi.beta, bj.beta, bi.alfa, bj.alfa, x.y);
  }

  lemma QuadraticTerms(bi: Basis2, bj: Basis2, a: Tensor2, x: V2)
    ensures var poly := CalcPolynom(bi, bj, a);
            && poly[3] * x.x * x.x == Term(a.a00, x.x, x.x) && poly[5] * x.y * x.y == Term(a.a11, x.y, x.y)
            && poly[4] * x.x * x.y == Term(a.a01, x.x, x.y) + Term(a.a10, x.y, x.x)
  {
    var poly := CalcPolynom(bi, bj, a);
    assert poly[3] == a.a00 && poly[4] == a.a01 + a.a10 && poly[5] == a.a11;
    SumOfTwo(a.a01, a.a10, x.x, x.y);
  }

  lemma ConstantTerms(bi: Basis2, bj: Basis2, a: Tensor2)
    ensures CalcPolynom(bi, bj, a)[0]
         == Term(a.a00, bi.alfa, bj.alfa) + Term(a.a01, bi.beta, bj.alfa) + Term(a.a10, bi.alfa, bj.beta) + Term(a.a11, bi.beta, bj.beta)
  {
  }

  lemma PolynomHasTerms(bi: Basis2, bj: Basis2, a: Tensor2, x: V2)
    ensures PolynomValue(CalcPolynom(bi, bj, a), x) == PolynomTerms(bi, bj, a, x)
  {
    ConstantTerms(bi, bj, a);
    LinearTerms(bi, bj, a, x);
    QuadraticTerms(bi, bj, a, x);
  }

  /** The polynomial is the product of the two basis functions, up to their factors. */
  lemma PolynomIsProduct(bi: Basis2, bj: Basis2, a: Tensor2, x: V2)
    ensures PolynomValue(CalcPolynom(bi, bj, a), x)
         == Form2(a, x.Minus(V2(bj.alfa, bj.beta)), x.Minus(V2(bi.alfa, bi.beta)))
  {
    hide Term, PolynomValue, CalcPolynom;
    PolynomHasTerms(bi, bj, a, x);
    TermOfDifferences(a.a00, x.x, bj.alfa, x.x, bi.alfa);
    TermOfDifferences(a.a01, x.x, bj.alfa, x.y, bi.beta);
    TermOfDifferences(a.a10, x.y, bj.beta, x.x, bi.alfa);
    TermOfDifferences(a.a11, x.y, bj.beta, x.y, bi.beta);
  }

  // ---------------------------------------------------------------- bilinear forms in space

  function Mul(a: real, b: real): real { a * b }

  datatype V3 = V3(x: real, y: real, z: real) {
    function Plus(v: V3): V3 { V3(x + v.x, y + v.y, z + v.z) }
    function Minus(v: V3): V3 { V3(x - v.x, y - v.y, z - v.z) }
    function Times(c: real): V3 { V3(Mul(x, c), Mul(y, c), Mul(z, c)) }
  }

  const ZERO3 := V3(0.0, 0.0, 0.0)

  datatype Tensor3 = Tensor3(x: V3, y: V3, z: V3)

  function Dot(u: V3, v: V3): real { u.x * v.x + u.y * v.y + u.z * v.z }

  function Apply(a: Tensor3, v: V3): V3 { V3(Dot(a.x, v), Dot(a.y, v), Dot(a.z, v)) }

  function Form(a: Tensor3, u: V3, v: V3): real { Dot(u, Apply(a, v)) }

  lemma DotPlus(u: V3, v: V3, w: V3)
    ensures Dot(u.Plus(v), w) == Dot(u, w) + Dot(v, w)
    ensures Dot(w, u.Plus(v)) == Dot(w, u) + Dot(w, v)
  {
    Distributed(u.x, v.x, w.x);
    Distributed(u.y, v.y, w.y);
    Distributed(u.z, v.z, w.z);
  }

  lemma DotTimes(u: V3, c: real, w: V3)
    ensures Dot(u.Times(c), w) == Dot(u, w) * c && Dot(w, u.Times(c)) == Dot(w, u) * c
  {
    assert (u.x * c) * w.x == (u.x * w.x) * c && (u.y * c) * w.y == (u.y * w.y) * c && (u.z * c) * w.z == (u.z * w.z) * c;
    Distributed(u.x * w.x + u.y * w.y, u.z * w.z, c);
    Distributed(u.x * w.x, u.y * w.y, c);
  }

  lemma FormPlus(a: Tensor3, u: V3, v: V3, w: V3)
    ensures Form(a, u.Plus(v), w) == Form(a, u, w) + Form(a, v, w)
    ensures Form(a, w, u.Plus(v)) == Form(a, w, u) + Form(a, w, v)
  {
    DotPlus(u, v, Apply(a, w));
    DotPlus(u, v, a.x);
    DotPlus(u, v, a.y);
    DotPlus(u, v, a.z);
    assert Apply(a, u.Plus(v)) == Apply(a, u).Plus(Apply(a, v));
    DotPlus(Apply(a, u), Apply(a, v), w);
  }

  lemma FormTimes(a: Tensor3, u: V3, c: real, w: V3)
    ensures Form(a, u.Times(c), w) == Mul(Form(a, u, w), c) && Form(a, w, u.Times(c)) == Mul(Form(a, w, u), c)
  {
    DotTimes(u, c, Apply(a, w));
    DotTimes(u, c, a.x);
    DotTimes(u, c, a.y);
    DotTimes(u, c, a.z);
    assert Apply(a, u.Times(c)) == Apply(a, u).Times(c);
    DotTimes(Apply(a, u), c, w);
  }

  // ---------------------------------------------------------------- energy of a local matrix

  function Comb(b: seq<real>, w: seq<V3>, n: nat): V3
    requires n <= |b| == |w|
  {
    if n == 0 then ZERO3 else Comb(b, w, n - 1).Plus(w[n - 1].Times(b[n - 1]))
  }

  function Sum(b: seq<real>, n: nat): real
    requires n <= |b|
  {
    if n == 0 then 0.0 else Sum(b, n - 1) + b[n - 1]
  }

  function RowTimes(row: seq<real>, c: seq<real>, n: nat): real
    requires n <= |row| == |c|
  {
    if n == 0 then 0.0 else RowTimes(row, c, n - 1) + Mul(row[n - 1], c[n - 1])
  }

  /** `c` times the first `n` rows of the matrix times `c`. */
  function Energy(m: Matrix, c: seq<real>, n: nat): real
    requires Square(m, |c|) && n <= |c|
  {
    if n == 0 then 0.0 else Energy(m, c, n - 1) + Mul(c[n - 1], RowTimes(m[n - 1], c, |c|))
  }

  function Weights(c: seq<real>, g: seq<real>): seq<real>
    requires |c| == |g|
  {
    seq(|c|, i requires 0 <= i < |c| => Mul(c[i], g[i]))
  }

  /** Entry of a local matrix: size, factors of two functions, product of their values in the centre, spread of the element. */
  function Entry(a: Tensor3, k: real, gi: real, gj: real, wi: V3, wj: V3, spread: real): real {
    EntryValue(k, gi, gj, Form(a, wj, wi), spread)
  }

  ghost predicate IsLocalMatrix(m: Matrix, a: Tensor3, k: real, g: seq<real>, w: seq<V3>, spread: real) {
    && |g| == |w| && Square(m, |g|)
    && forall i, j | 0 <= i < |g| && 0 <= j < |g| :: m[i][j] == Entry(a, k, g[i], g[j], w[i], w[j], spread)
  }

  function EntryValue(k: real, gi: real, gj: real, form: real, spread: real): real {
    k * (gi * gj) * (form + spread)
  }

  function RowValue(k: real, gi: real, form: real, spread: real, sum: real): real {
    (k * gi) * (form + spread * sum)
  }

  /** Energy of velocity `form` and divergence `sum`. */
  function EnergyValue(k: real, form: real, spread: real, total: real, sum: real): real {
    k * (form + spread * total * sum)
  }

  lemma RowStep(k: real, gi: real, gj: real, cj: real, b: real, f: real, spread: real,
                sum: real, form: real, newSum: real, newForm: real)
    requires b == Mul(cj, gj) && newSum == sum + b && newForm == form + Mul(f, b)
    ensures RowValue(k, gi, form, spread, sum) + Mul(EntryValue(k, gi, gj, f, spread), cj) == RowValue(k, gi, newForm, spread, newSum)
  {
    var q := k * gi;
    assert k * (gi * gj) * (f + spread) * cj == q * (b * (f + spread));
    assert b * (f + spread) == f * b + spread * b;
    assert spread * (sum + b) == spread * sum + spread * b;
  }

  lemma {:induction false} RowEnergy(m: Matrix, a: Tensor3, k: real, g: seq<real>, w: seq<V3>, spread: real, c: seq<real>, i: nat, n: nat)
    requires IsLocalMatrix(m, a, k, g, w, spread) && |c| == |g| && i < |g| && n <= |g|
    ensures var b := Weights(c, g);
            RowTimes(m[i], c, n) == RowValue(k, g[i], Form(a, Comb(b, w, n), w[i]), spread, Sum(b, n))
  {
    var b := Weights(c, g);
    if n == 0 {
      FormTimes(a, ZERO3, 0.0, w[i]);
      assert ZERO3.Times(0.0) == ZERO3;
    } else {
      RowEnergy(m, a, k, g, w, spread, c, i, n - 1);
      FormPlus(a, Comb(b, w, n - 1), w[n - 1].Times(b[n - 1]), w[i]);
      FormTimes(a, w[n - 1], b[n - 1], w[i]);
      assert m[i][n - 1] == Entry(a, k, g[i], g[n - 1], w[i], w[n - 1], spread);
      RowStep(k, g[i], g[n - 1], c[n - 1], b[n - 1], Form(a, w[n - 1], w[i]), spread,
              Sum(b, n - 1), Form(a, Comb(b, w, n - 1), w[i]), Sum(b, n), Form(a, Comb(b, w, n), w[i]));
    }
  }

  lemma EnergyStep(k: real, ci: real, gi: real, b: real, f: real, spread: real, total: real,
                   form: real, sum: real, newForm: real, newSum: real)
    requires b == Mul(ci, gi) && newSum == sum + b && newForm == form + Mul(f, b)
    ensures EnergyValue(k, form, spread, total, sum) + Mul(ci, RowValue(k, gi, f, spread, total))
         == EnergyValue(k, newForm, spread, total, newSum)
  {
    var p := spread * total;
    assert ci * ((k * gi) * (f + p)) == k * (b * (f + p));
    assert b * (f + p) == f * b + p * b;
    assert p * (sum + b) == p * sum + p * b;
  }

  /** The energy of fluxes `c`: their mean velocity squared and their divergence squared, both with positive factors. */
  lemma {:induction false} EnergyIsSquares(m: Matrix, a: Tensor3, k: real, g: seq<real>, w: seq<V3>, spread: real, c: seq<real>, n: nat)
    requires IsLocalMatrix(m, a, k, g, w, spread) && |c| == |g| && n <= |g|
    ensures var b := Weights(c, g);
            Energy(m, c, n) == EnergyValue(k, Form(a, Comb(b, w, |b|), Comb(b, w, n)), spread, Sum(b, |b|), Sum(b, n))
  {
    var b := Weights(c, g);
    var all := Comb(b, w, |b|);
    if n == 0 {
      FormTimes(a, ZERO3, 0.0, all);
      assert ZERO3.Times(0.0) == ZERO3;
    } else {
      EnergyIsSquares(m, a, k, g, w, spread, c, n - 1);
      RowEnergy(m, a, k, g, w, spread, c, n - 1, |g|);
      FormPlus(a, Comb(b, w, n - 1), w[n - 1].Times(b[n - 1]), all);
      FormTimes(a, w[n - 1], b[n - 1], all);
      EnergyStep(k, c[n - 1], g[n - 1], b[n - 1], Form(a, all, w[n - 1]), spread, Sum(b, |b|),
                 Form(a, all, Comb(b, w, n - 1)), Sum(b, n - 1), Form(a, all, Comb(b, w, n)), Sum(b, n));
    }
  }

  // ---------------------------------------------------------------- definiteness

  ghost predicate PositiveDefinite(a: Tensor3, flat: bool) {
    forall v: V3 :: v != ZERO3 && (flat ==> v.z == 0.0) ==> PositiveAt(a, v)
  }

  predicate PositiveAt(a: Tensor3, v: V3) {
    Form(a, v, v) > 0.0
  }

  lemma FormOfZero(a: Tensor3)
    ensures Form(a, ZERO3, ZERO3) == 0.0
  {
    assert Apply(a, ZERO3) == ZERO3;
  }

  /** With a positive definite tensor the energy is not negative, and zero only for a zero velocity and divergence. */
  lemma EnergyPositive(m: Matrix, a: Tensor3, flat: bool, k: real, g: seq<real>, w: seq<V3>, spread: real, c: seq<real>)
    requires IsLocalMatrix(m, a, k, g, w, spread) && |c| == |g| && k > 0.0 && spread > 0.0
    requires PositiveDefinite(a, flat) && (flat ==> forall v <- w :: v.z == 0.0)
    ensures Energy(m, c, |c|) >= 0.0
    ensures var b := Weights(c, g);
            Energy(m, c, |c|) == 0.0 ==> Comb(b, w, |b|) == ZERO3 && Sum(b, |b|) == 0.0
  {
    var b := Weights(c, g);
    var v, s := Comb(b, w, |b|), Sum(b, |b|);
    EnergyIsSquares(m, a, k, g, w, spread, c, |c|);
    if flat {
      CombFlat(b, w, |b|);
    }
    FormOfZero(a);
    assert v == ZERO3 || PositiveAt(a, v);
    SquaresPositive(k, Form(a, v, v), spread, s);
  }

  lemma {:induction false} CombFlat(b: seq<real>, w: seq<V3>, n: nat)
    requires n <= |b| == |w| && forall v <- w :: v.z == 0.0
    ensures Comb(b, w, n).z == 0.0
  {
    if n > 0 {
      CombFlat(b, w, n - 1);
      assert w[n - 1] in w;
    }
  }

  lemma SquaresPositive(k: real, f: real, spread: real, s: real)
    requires k > 0.0 && spread > 0.0 && f >= 0.0
    ensures EnergyValue(k, f, spread, s, s) >= 0.0
    ensures EnergyValue(k, f, spread, s, s) == 0.0 ==> f == 0.0 && s == 0.0
  {
    var q := spread * s * s;
    SquareTimes(spread, s);
    assert EnergyValue(k, f, spread, s, s) == k * (f + q);
    PositiveTimes(k, f + q);
  }

  lemma SquareTimes(a: real, s: real)
    requires a > 0.0
    ensures a * s * s >= 0.0 && (a * s * s == 0.0 ==> s == 0.0)
  {
    if s > 0.0 {
      PositiveProduct(a, s);
      PositiveProduct(a * s, s);
    } else if s < 0.0 {
      PositiveProduct(a, -s);
      PositiveProduct(a * -s, -s);
      assert (a * -s) * -s == a * s * s;
    }
  }

  lemma PositiveProduct(a: real, b: real)
    requires a > 0.0 && b > 0.0
    ensures a * b > 0.0
  {
  }

  lemma PositiveTimes(k: real, t: real)
    requires k > 0.0 && t >= 0.0
    ensures k * t >= 0.0 && (k * t == 0.0 ==> t == 0.0)
  {
  }

  // ---------------------------------------------------------------- the local matrix of a triangle

  function Lift(v: V2): V3 { V3(v.x, v.y, 0.0) }

  function LiftTensor(a: Tensor2): Tensor3 {
    Tensor3(V3(a.a00, a.a01, 0.0), V3(a.a10, a.a11, 0.0), ZERO3)
  }

  lemma FormInPlane(a: Tensor2, u: V2, v: V2)
    ensures Form(LiftTensor(a), Lift(u), Lift(v)) == Form2(a, u, v)
  {
    var p, q := Dot(V3(a.a00, a.a01, 0.0), Lift(v)), Dot(V3(a.a10, a.a11, 0.0), Lift(v));
    assert p == a.a00 * v.x + a.a01 * v.y && q == a.a10 * v.x + a.a11 * v.y;
    TermsOf(a.a00, a.a01, u.x, v.x, v.y);
    TermsOf(a.a10, a.a11, u.y, v.x, v.y);
  }

  lemma TermsOf(a: real, b: real, u: real, x: real, y: real)
    ensures u * (a * x + b * y) == Term(a, u, x) + Term(b, u, y)
  {
  }

  lemma FormShifted(a: Tensor3, u: V3, v: V3, d: V3)
    ensures Form(a, u.Plus(d.Times(-0.5)), v.Plus(d.Times(-0.5)))
         == Form(a, u, v) - Form(a, u, d) / 2.0 - Form(a, d, v) / 2.0 + Form(a, d, d) / 4.0
  {
    var h := d.Times(-0.5);
    FormPlus(a, u, h, v.Plus(h));
    FormPlus(a, v, h, u);
    FormPlus(a, v, h, h);
    FormTimes(a, d, -0.5, u);
    FormTimes(a, d, -0.5, v);
    FormTimes(a, d, -0.5, h);
    FormTimes(a, d, -0.5, d);
  }

  lemma FormOfSum(a: Tensor3, u: V3, d0: V3, d1: V3, d2: V3)
    requires d0.Plus(d1).Plus(d2) == ZERO3
    ensures Form(a, u, d0) + Form(a, u, d1) + Form(a, u, d2) == 0.0
    ensures Form(a, d0, u) + Form(a, d1, u) + Form(a, d2, u) == 0.0
  {
    FormPlus(a, d0.Plus(d1), d2, u);
    FormPlus(a, d0, d1, u);
    FormTimes(a, ZERO3, 0.0, u);
    assert ZERO3.Times(0.0) == ZERO3;
  }

  /** The mean over the midpoints of the sides is the mean over the triangle: the value in the centre and the second moments. */
  lemma MidpointMean(a: Tensor3, u: V3, v: V3, d0: V3, d1: V3, d2: V3)
    requires d0.Plus(d1).Plus(d2) == ZERO3
    ensures (Form(a, u.Plus(d0.Times(-0.5)), v.Plus(d0.Times(-0.5))) + Form(a, u.Plus(d1.Times(-0.5)), v.Plus(d1.Times(-0.5)))
             + Form(a, u.Plus(d2.Times(-0.5)), v.Plus(d2.Times(-0.5)))) / 3.0
         == Form(a, u, v) + (Form(a, d0, d0) + Form(a, d1, d1) + Form(a, d2, d2)) / 12.0
  {
    FormShifted(a, u, v, d0);
    FormShifted(a, u, v, d1);
    FormShifted(a, u, v, d2);
    FormOfSum(a, u, d0, d1, d2);
    FormOfSum(a, v, d0, d1, d2);
  }

  /** From the centre to node `k`. */
  function Arm(t: Triangle, k: nat): V3
    requires |t.p| == 3 && k < 3
  {
    Lift(t.p[k].Minus(t.Centre()))
  }

  function Spread(t: Triangle, a: Tensor2): real
    requires |t.p| == 3
  {
    var b := LiftTensor(a);
    (Form(b, Arm(t, 0), Arm(t, 0)) + Form(b, Arm(t, 1), Arm(t, 1)) + Form(b, Arm(t, 2), Arm(t, 2))) / 12.0
  }

  /** Value of the unscaled basis function `i` in the centre. */
  function AtCentre(t: Triangle, i: nat): V3
    requires |t.p| == 3 && i < 3
  {
    Lift(t.Centre().Minus(t.Opposite(i)))
  }

  /** Sum of the polynomial over the midpoints. */
  function MidpointSum(t: Triangle, a: Tensor2, i: nat, j: nat): real
    requires t.Valid() && i < 3 && j < 3
  {
    var poly := CalcPolynom(Basis(t, i), Basis(t, j), a);
    PolynomValue(poly, t.Midpoint(0)) + PolynomValue(poly, t.Midpoint(1)) + PolynomValue(poly, t.Midpoint(2))
  }

  lemma AtMidpoint(t: Triangle, a: Tensor2, i: nat, j: nat, k: nat)
    requires t.Valid() && i < 3 && j < 3 && k < 3
    ensures var d := Arm(t, (k + 2) % 3);
            PolynomValue(CalcPolynom(Basis(t, i), Basis(t, j), a), t.Midpoint(k))
            == Form(LiftTensor(a), AtCentre(t, j).Plus(d.Times(-0.5)), AtCentre(t, i).Plus(d.Times(-0.5)))
  {
    hide Form, Form2, PolynomValue, CalcPolynom;
    BasisShape(t, i);
    BasisShape(t, j);
    var x, d := t.Midpoint(k), Arm(t, (k + 2) % 3);
    PolynomIsProduct(Basis(t, i), Basis(t, j), a, x);
    FormInPlane(a, x.Minus(t.Opposite(j)), x.Minus(t.Opposite(i)));
    assert Lift(x.Minus(t.Opposite(j))) == AtCentre(t, j).Plus(d.Times(-0.5));
    assert Lift(x.Minus(t.Opposite(i))) == AtCentre(t, i).Plus(d.Times(-0.5));
  }

  /** The mean over the midpoints of the product of two basis functions: its value in the centre and the second moments. */
  lemma MidpointMoments(t: Triangle, a: Tensor2, i: nat, j: nat)
    requires t.Valid() && i < 3 && j < 3
    ensures MidpointSum(t, a, i, j) / 3.0 == Form(LiftTensor(a), AtCentre(t, j), AtCentre(t, i)) + Spread(t, a)
  {
    AtMidpoint(t, a, i, j, 0);
    AtMidpoint(t, a, i, j, 1);
    AtMidpoint(t, a, i, j, 2);
    assert Arm(t, 2).Plus(Arm(t, 0)).Plus(Arm(t, 1)) == ZERO3;
    MidpointMean(LiftTensor(a), AtCentre(t, j), AtCentre(t, i), Arm(t, 2), Arm(t, 0), Arm(t, 1));
  }

  function TriangleEntry(t: Triangle, a: Tensor2, measure: real, scale: real, i: nat, j: nat): real
    requires t.Valid() && i < 3 && j < 3
  {
    scale * Basis(t, i).gama * Basis(t, j).gama * measure * MidpointSum(t, a, i, j) / 3.0
  }

  lemma EntryArithmetic(scale: real, gi: real, gj: real, measure: real, sum: real)
    ensures scale * gi * gj * measure * sum / 3.0 == (scale * measure) * (gi * gj) * (sum / 3.0)
  {
    var q := scale * gi * gj * measure;
    assert q == (scale * measure) * (gi * gj);
    assert q * sum / 3.0 == q * (sum / 3.0);
  }

  lemma FormSymmetric(a: Tensor2, u: V2, v: V2)
    requires a.a01 == a.a10
    ensures Form(LiftTensor(a), Lift(u), Lift(v)) == Form(LiftTensor(a), Lift(v), Lift(u))
  {
    hide Form;
    FormInPlane(a, u, v);
    FormInPlane(a, v, u);
    Form2Symmetric(a, u, v);
  }

  lemma Form2Symmetric(a: Tensor2, u: V2, v: V2)
    requires a.a01 == a.a10
    ensures Form2(a, u, v) == Form2(a, v, u)
  {
  }

  function Factors(t: Triangle): seq<real>
    requires t.Valid()
  {
    [Basis(t, 0).gama, Basis(t, 1).gama, Basis(t, 2).gama]
  }

  function CentreValues(t: Triangle): seq<V3>
    requires t.Valid()
  {
    [AtCentre(t, 0), AtCentre(t, 1), AtCentre(t, 2)]
  }

  /** The entry the loop computes has the shape of a local matrix. */
  lemma TriangleEntryShape(t: Triangle, a: Tensor2, measure: real, scale: real, i: nat, j: nat)
    requires t.Valid() && i < 3 && j < 3
    ensures TriangleEntry(t, a, measure, scale, i, j)
         == Entry(LiftTensor(a), scale * measure, Factors(t)[i], Factors(t)[j], CentreValues(t)[i], CentreValues(t)[j], Spread(t, a))
  {
    hide Form, MidpointSum, Basis, AtCentre, Spread;
    MidpointMoments(t, a, i, j);
    assert Factors(t)[i] == Basis(t, i).gama && Factors(t)[j] == Basis(t, j).gama;
    assert CentreValues(t)[i] == AtCentre(t, i) && CentreValues(t)[j] == AtCentre(t, j);
    EntryArithmetic(scale, Basis(t, i).gama, Basis(t, j).gama, measure, MidpointSum(t, a, i, j));
  }

  /** The matrix of a triangle, filled as the loops do: the upper part and its mirror image. */
  function TriangleMatrix(t: Triangle, a: Tensor2, measure: real, scale: real): (m: Matrix)
    requires t.Valid()
    ensures Square(m, 3)
  {
    seq(3, i requires 0 <= i < 3 => seq(3, j requires 0 <= j < 3 =>
      if i <= j then TriangleEntry(t, a, measure, scale, i, j) else TriangleEntry(t, a, measure, scale, j, i)))
  }

  lemma EntrySymmetric(k: real, gi: real, gj: real, form: real, spread: real)
    ensures EntryValue(k, gi, gj, form, spread) == EntryValue(k, gj, gi, form, spread)
  {
    assert gi * gj == gj * gi;
  }

  lemma TriangleIsLocalMatrix(t: Triangle, a: Tensor2, measure: real, scale: real)
    requires t.Valid() && a.a01 == a.a10
    ensures IsLocalMatrix(TriangleMatrix(t, a, measure, scale), LiftTensor(a), scale * measure, Factors(t), CentreValues(t), Spread(t, a))
  {
    hide Form, TriangleEntry, Basis, Spread, EntryValue;
    var m := TriangleMatrix(t, a, measure, scale);
    forall i, j | 0 <= i < 3 && 0 <= j < 3
      ensures m[i][j] == Entry(LiftTensor(a), scale * measure, Factors(t)[i], Factors(t)[j],
                               CentreValues(t)[i], CentreValues(t)[j], Spread(t, a))
    {
      TriangleEntryShape(t, a, measure, scale, i, j);
      TriangleEntryShape(t, a, measure, scale, j, i);
      FormSymmetric(a, t.Centre().Minus(t.Opposite(i)), t.Centre().Minus(t.Opposite(j)));
      EntrySymmetric(scale * measure, Factors(t)[i], Factors(t)[j], Form(LiftTensor(a), AtCentre(t, j), AtCentre(t, i)), Spread(t, a));
    }
  }

  lemma Cramer2(b: real, c: real, ex: real, ey: real, fx: real, fy: real)
    requires b * ex + c * fx == 0.0 && b * ey + c * fy == 0.0 && ex * fy - fx * ey != 0.0
    ensures b == 0.0 && c == 0.0
  {
    Eliminate(b, c, ex, ey, fx, fy);
    Eliminate(c, b, fx, fy, ex, ey);
    NonzeroFactor(b, ex * fy - fx * ey);
    NonzeroFactor(c, fx * ey - ex * fy);
  }

  lemma Eliminate(b: real, c: real, ex: real, ey: real, fx: real, fy: real)
    requires b * ex + c * fx == 0.0 && b * ey + c * fy == 0.0
    ensures b * (ex * fy - fx * ey) == 0.0
  {
    var p, q := b * ex, b * ey;
    assert p == -(c * fx) && q == -(c * fy);
    assert b * (ex * fy - fx * ey) == p * fy - q * fx;
    assert p * fy == -(c * fx * fy) && q * fx == -(c * fx * fy);
  }

  lemma NonzeroFactor(b: real, d: real)
    requires b * d == 0.0 && d != 0.0
    ensures b == 0.0
  {
  }

  lemma Triple(b0: real, b1: real, b2: real, c: real, q0: real, q1: real, q2: real)
    requires b0 + b1 + b2 == 0.0 && (c - q0) * b0 + (c - q1) * b1 + (c - q2) * b2 == 0.0
    ensures b1 * (q0 - q1) + b2 * (q0 - q2) == 0.0
  {
    assert b0 == -b1 - b2;
    assert (c - q0) * b0 == -(c - q0) * b1 - (c - q0) * b2;
  }

  lemma CombOfThree(b: seq<real>, w: seq<V3>)
    requires |b| == |w| == 3
    ensures Comb(b, w, 3) == ZERO3.Plus(w[0].Times(b[0])).Plus(w[1].Times(b[1])).Plus(w[2].Times(b[2]))
    ensures Sum(b, 3) == b[0] + b[1] + b[2]
  {
    hide V3.Plus, V3.Times;
    assert Comb(b, w, 1) == Comb(b, w, 0).Plus(w[0].Times(b[0]));
    assert Comb(b, w, 2) == Comb(b, w, 1).Plus(w[1].Times(b[1]));
    assert Sum(b, 2) == Sum(b, 1) + b[1];
  }

  lemma VanishingPlane(c: V2, q0: V2, q1: V2, q2: V2, b0: real, b1: real, b2: real)
    requires b0 + b1 + b2 == 0.0
    requires ZERO3.Plus(Lift(c.Minus(q0)).Times(b0)).Plus(Lift(c.Minus(q1)).Times(b1)).Plus(Lift(c.Minus(q2)).Times(b2)) == ZERO3
    ensures b1 * (q0.x - q1.x) + b2 * (q0.x - q2.x) == 0.0
    ensures b1 * (q0.y - q1.y) + b2 * (q0.y - q2.y) == 0.0
  {
    Triple(b0, b1, b2, c.x, q0.x, q1.x, q2.x);
    Triple(b0, b1, b2, c.y, q0.y, q1.y, q2.y);
  }

  lemma OppositeArea(t: Triangle)
    requires |t.p| == 3
    ensures var q0, q1, q2 := t.Opposite(0), t.Opposite(1), t.Opposite(2);
            (q0.x - q1.x) * (q0.y - q2.y) - (q0.x - q2.x) * (q0.y - q1.y) == t.Doubled()
  {
    CyclicArea(t, 2);
  }

  /** The three functions of a triangle are independent: no velocity and no divergence means no weights. */
  lemma TriangleIndependent(t: Triangle, b: seq<real>)
    requires t.Valid() && |b| == 3 && Comb(b, CentreValues(t), 3) == ZERO3 && Sum(b, 3) == 0.0
    ensures b[0] == 0.0 && b[1] == 0.0 && b[2] == 0.0
  {
    hide V3.Plus, V3.Times, Lift, Triangle.Centre, Triangle.Doubled;
    var q0, q1, q2 := t.Opposite(0), t.Opposite(1), t.Opposite(2);
    CombOfThree(b, CentreValues(t));
    VanishingPlane(t.Centre(), q0, q1, q2, b[0], b[1], b[2]);
    OppositeArea(t);
    Cramer2(b[1], b[2], q0.x - q1.x, q0.y - q1.y, q0.x - q2.x, q0.y - q2.y);
  }

  lemma InPlaneDefinite(a: Tensor2)
    requires PositiveDefinite2(a)
    ensures PositiveDefinite(LiftTensor(a), true)
  {
    forall v: V3 | v != ZERO3 && v.z == 0.0
      ensures PositiveAt(LiftTensor(a), v)
    {
      var u := V2(v.x, v.y);
      assert Lift(u) == v && u != ZERO2 && PositiveAt2(a, u);
      FormInPlane(a, u, u);
    }
  }

  lemma NoArmsNoArea(t: Triangle)
    requires |t.p| == 3 && forall k | 0 <= k < 3 :: Arm(t, k) == ZERO3
    ensures t.Doubled() == 0.0
  {
    assert Arm(t, 0) == ZERO3 && Arm(t, 1) == ZERO3;
    assert t.p[0] == t.Centre() && t.p[1] == t.Centre();
  }

  lemma SpreadPositive(t: Triangle, a: Tensor2)
    requires t.Valid() && PositiveDefinite2(a)
    ensures Spread(t, a) > 0.0
  {
    hide Form;
    var b := LiftTensor(a);
    InPlaneDefinite(a);
    FormOfZero(b);
    if forall k | 0 <= k < 3 :: Arm(t, k) == ZERO3 {
      NoArmsNoArea(t);
    }
    forall k | 0 <= k < 3
      ensures Arm(t, k) == ZERO3 || PositiveAt(b, Arm(t, k))
    {
      assert Arm(t, k).z == 0.0;
    }
  }

  lemma FactorNonzero(t: Triangle, i: nat)
    requires t.Valid() && i < 3
    ensures Basis(t, i).gama > 0.0
  {
    BasisShape(t, i);
  }

  /** Whenever weights vanish with their velocity and divergence, a zero energy means zero fluxes; and conversely. */
  lemma WeightsVanish(c: seq<real>, g: seq<real>, i: nat)
    requires i < |c| == |g| && g[i] != 0.0 && Weights(c, g)[i] == 0.0
    ensures c[i] == 0.0
  {
    NonzeroFactor(c[i], g[i]);
  }

  lemma {:induction false} NoFluxNoEnergy(m: Matrix, c: seq<real>, n: nat)
    requires Square(m, |c|) && n <= |c| && forall i | 0 <= i < |c| :: c[i] == 0.0
    ensures Energy(m, c, n) == 0.0
  {
    if n > 0 {
      NoFluxNoEnergy(m, c, n - 1);
    }
  }

  /** For any proper triangle and positive definite resistance the local matrix is symmetric and positive definite. */
  lemma TriangleDefinite(t: Triangle, a: Tensor2, measure: real, scale: real, c: seq<real>)
    requires t.Valid() && PositiveDefinite2(a) && measure > 0.0 && scale > 0.0 && |c| == 3
    ensures var m := TriangleMatrix(t, a, measure, scale);
            && Square(m, 3) && (forall i, j | 0 <= i < 3 && 0 <= j < 3 :: m[i][j] == m[j][i])
            && Energy(m, c, 3) >= 0.0 && (Energy(m, c, 3) == 0.0 <==> c == [0.0, 0.0, 0.0])
  {
    hide Form, Basis, Spread, AtCentre, TriangleEntry, Comb, Triangle.Doubled;
    var m, g, w := TriangleMatrix(t, a, measure, scale), Factors(t), CentreValues(t);
    TriangleIsLocalMatrix(t, a, measure, scale);
    SpreadPositive(t, a);
    InPlaneDefinite(a);
    PositiveProduct(scale, measure);
    CentreValuesFlat(t);
    EnergyPositive(m, LiftTensor(a), true, scale * measure, g, w, Spread(t, a), c);
    if Energy(m, c, 3) == 0.0 {
      TriangleIndependent(t, Weights(c, g));
      forall i | 0 <= i < 3
        ensures c[i] == 0.0
      {
        FactorNonzero(t, i);
        WeightsVanish(c, g, i);
      }
    }
    if c == [0.0, 0.0, 0.0] {
      NoFluxNoEnergy(m, c, 3);
    }
  }

  lemma CentreValuesFlat(t: Triangle)
    requires t.Valid()
    ensures forall v <- CentreValues(t) :: v.z == 0.0
  {
  }

  // ---------------------------------------------------------------- the local matrix of a tetrahedron

  datatype Face = Face(measure: real, normal: V3, centre: V3) {
    /** Height of a node over the face, times the measure of the face. */
    function Height(p: V3): real {
      measure * (normal.x * centre.x + normal.y * centre.y + normal.z * centre.z - normal.x * p.x - normal.y * p.y - normal.z * p.z)
    }
  }

  /** Side `i` is the one opposite to node `i`. */
  datatype Tetrahedron = Tetrahedron(p: seq<V3>, sides: seq<Face>, measure: real) {
    /** Every side is off its node. */
    predicate Valid() {
      |p| == 4 && |sides| == 4 && forall i | 0 <= i < 4 :: sides[i].Height(p[i]) != 0.0
    }

    function Det(): real
      requires |p| == 4
    {
      Determinant(p[0].Minus(p[1]), p[0].Minus(p[2]), p[0].Minus(p[3]))
    }

    function Centre(): V3
      requires |p| == 4
    {
      V3((p[0].x + p[1].x + p[2].x + p[3].x) / 4.0, (p[0].y + p[1].y + p[2].y + p[3].y) / 4.0, (p[0].z + p[1].z + p[2].z + p[3].z) / 4.0)
    }
  }

  function Cross(u: V3, v: V3): V3 {
    V3(u.y * v.z - u.z * v.y, u.z * v.x - u.x * v.z, u.x * v.y - u.y * v.x)
  }

  function Determinant(u: V3, v: V3, w: V3): real { Dot(u, Cross(v, w)) }

  function Delta(e: Tetrahedron, i: nat): real
    requires e.Valid() && i < 4
  {
    1.0 / e.sides[i].Height(e.p[i])
  }

  /** The flux of function `i` through a face is one on its own side and zero on every face that contains its node. */
  lemma KroneckerFlux3(e: Tetrahedron, i: nat, f: Face, x: V3)
    requires e.Valid() && i < 4 && Dot(f.normal, x) == Dot(f.normal, f.centre)
    requires f == e.sides[i] || Dot(f.normal, e.p[i]) == Dot(f.normal, f.centre)
    ensures f.measure * Dot(f.normal, x.Minus(e.p[i]).Times(Delta(e, i)))
         == if f == e.sides[i] then 1.0 else 0.0
  {
    hide Dot, V3.Minus, V3.Times, Face.Height, Mul;
    var u, d, n := x.Minus(e.p[i]), Delta(e, i), f.normal;
    DotTimes(u, d, n);
    DotMinus(n, x, e.p[i]);
    HeightIs(f, e.p[i]);
    FluxValue(f.measure, Dot(n, f.centre) - Dot(n, e.p[i]), f.Height(e.p[i]), d, Dot(n, u.Times(d)));
  }

  lemma HeightIs(f: Face, p: V3)
    ensures f.Height(p) == Mul(f.measure, Dot(f.normal, f.centre) - Dot(f.normal, p))
  {
    assert Dot(f.normal, f.centre) - Dot(f.normal, p)
        == f.normal.x * f.centre.x + f.normal.y * f.centre.y + f.normal.z * f.centre.z - f.normal.x * p.x - f.normal.y * p.y - f.normal.z * p.z;
  }

  lemma FluxValue(measure: real, height: real, h: real, d: real, flux: real)
    requires h == Mul(measure, height) && flux == height * d
    ensures measure * flux == h * d
    ensures height == 0.0 ==> measure * flux == 0.0
  {
  }

  lemma DotMinus(n: V3, x: V3, p: V3)
    ensures Dot(n, x.Minus(p)) == Dot(n, x) - Dot(n, p)
  {
  }

  function ConstantTerm(i: V3, j: V3, a: Tensor3): real {
    a.x.x * i.x * j.x + a.x.y * i.y * j.x + a.x.z * i.z * j.x
    + a.y.x * i.x * j.y + a.y.y * i.y * j.y + a.y.z * i.z * j.y
    + a.z.x * i.x * j.z + a.z.y * i.y * j.z + a.z.z * i.z * j.z
  }

  /** The term of one coordinate, from its row and its column of the tensor. */
  function LinearTerm(row: V3, i: V3, col: V3, j: V3): real {
    (row.x * i.x + row.y * i.y + row.z * i.z + col.x * j.x + col.y * j.y + col.z * j.z) * -1.0
  }

  function CalcPolynom3(i: V3, j: V3, a: Tensor3): (poly: seq<real>)
    ensures |poly| == 10
  {
    [ ConstantTerm(i, j, a),
      LinearTerm(a.x, i, V3(a.x.x, a.y.x, a.z.x), j),
      LinearTerm(a.y, i, V3(a.x.y, a.y.y, a.z.y), j),
      LinearTerm(a.z, i, V3(a.x.z, a.y.z, a.z.z), j),
      a.x.y + a.y.x, a.x.z + a.z.x, a.y.z + a.z.y, a.x.x, a.y.y, a.z.z ]
  }

  function Four(x: seq<real>, y: seq<real>): real
    requires |x| == |y| == 4
  {
    Mul(x[0], y[0]) + Mul(x[1], y[1]) + Mul(x[2], y[2]) + Mul(x[3], y[3])
  }

  /** Coordinates of the nodes relative to the centre. */
  function ArmsX(e: Tetrahedron): (d: seq<real>)
    requires |e.p| == 4
    ensures |d| == 4
  {
    var t := e.Centre();
    [e.p[0].x - t.x, e.p[1].x - t.x, e.p[2].x - t.x, e.p[3].x - t.x]
  }

  function ArmsY(e: Tetrahedron): (d: seq<real>)
    requires |e.p| == 4
    ensures |d| == 4
  {
    var t := e.Centre();
    [e.p[0].y - t.y, e.p[1].y - t.y, e.p[2].y - t.y, e.p[3].y - t.y]
  }

  function ArmsZ(e: Tetrahedron): (d: seq<real>)
    requires |e.p| == 4
    ensures |d| == 4
  {
    var t := e.Centre();
    [e.p[0].z - t.z, e.p[1].z - t.z, e.p[2].z - t.z, e.p[3].z - t.z]
  }

  function PolynomIntegral(e: Tetrahedron, poly: seq<real>): real
    requires |e.p| == 4 && |poly| == 10
  {
    var v, t := e.measure, e.Centre();
    var x, y, z := ArmsX(e), ArmsY(e), ArmsZ(e);
    Mul(poly[0], v) + Term(poly[1], v, t.x) + Term(poly[2], v, t.y) + Term(poly[3], v, t.z)
    + Quadratic(poly[4], v, t.x, t.y, Four(x, y)) + Quadratic(poly[5], v, t.x, t.z, Four(x, z))
    + Quadratic(poly[6], v, t.y, t.z, Four(y, z)) + Quadratic(poly[7], v, t.x, t.x, Four(x, x))
    + Quadratic(poly[8], v, t.y, t.y, Four(y, y)) + Quadratic(poly[9], v, t.z, t.z, Four(z, z))
  }

  function Quadratic(p: real, v: real, x: real, y: real, s: real): real {
    p * v * (x * y + 1.0 / 20.0 * s)
  }

  /** Value of the polynomial in a point, the other products grouped as in the integral. */
  function PolynomValue3(poly: seq<real>, t: V3): real
    requires |poly| == 10
  {
    poly[0] + Mul(poly[1], t.x) + Mul(poly[2], t.y) + Mul(poly[3], t.z)
    + Term(poly[4], t.x, t.y) + Term(poly[5], t.x, t.z) + Term(poly[6], t.y, t.z)
    + Term(poly[7], t.x, t.x) + Term(poly[8], t.y, t.y) + Term(poly[9], t.z, t.z)
  }

  function Moments(e: Tetrahedron, poly: seq<real>): real
    requires |e.p| == 4 && |poly| == 10
  {
    var x, y, z := ArmsX(e), ArmsY(e), ArmsZ(e);
    Mul(poly[4], Four(x, y)) + Mul(poly[5], Four(x, z)) + Mul(poly[6], Four(y, z))
    + Mul(poly[7], Four(x, x)) + Mul(poly[8], Four(y, y)) + Mul(poly[9], Four(z, z))
  }

  lemma VolumeOut(p: real, v: real, x: real, y: real, s: real)
    ensures Quadratic(p, v, x, y, s) == Mul(v, Term(p, x, y) + Mul(p, s) / 20.0)
  {
    assert p * v * (x * y + 1.0 / 20.0 * s) == v * (p * (x * y) + p * s / 20.0);
  }

  lemma TenTimes(v: real, a: real, b: real, c: real, d: real, e: real, f: real, g: real, h: real, i: real, j: real)
    ensures Mul(v, a) + Mul(v, b) + Mul(v, c) + Mul(v, d) + Mul(v, e) + Mul(v, f) + Mul(v, g) + Mul(v, h) + Mul(v, i) + Mul(v, j)
         == Mul(v, a + b + c + d + e + f + g + h + i + j)
  {
  }

  lemma LinearOut(p: real, v: real, x: real)
    ensures Term(p, v, x) == Mul(v, Mul(p, x)) && Mul(p, v) == Mul(v, p)
  {
  }

  /** The integral formula is the volume times the value in the centre and a twentieth of the second moments. */
  lemma IntegralIsMoments(e: Tetrahedron, poly: seq<real>)
    requires |e.p| == 4 && |poly| == 10
    ensures PolynomIntegral(e, poly) == Mul(e.measure, PolynomValue3(poly, e.Centre()) + Moments(e, poly) / 20.0)
  {
    hide Mul, Term, Quadratic, Four, ArmsX, ArmsY, ArmsZ, Tetrahedron.Centre;
    var v, t, x, y, z := e.measure, e.Centre(), ArmsX(e), ArmsY(e), ArmsZ(e);
    LinearOut(poly[0], v, 1.0);
    LinearOut(poly[1], v, t.x);
    LinearOut(poly[2], v, t.y);
    LinearOut(poly[3], v, t.z);
    VolumeOut(poly[4], v, t.x, t.y, Four(x, y));
    VolumeOut(poly[5], v, t.x, t.z, Four(x, z));
    VolumeOut(poly[6], v, t.y, t.z, Four(y, z));
    VolumeOut(poly[7], v, t.x, t.x, Four(x, x));
    VolumeOut(poly[8], v, t.y, t.y, Four(y, y));
    VolumeOut(poly[9], v, t.z, t.z, Four(z, z));
    TenTimes(v, poly[0], Mul(poly[1], t.x), Mul(poly[2], t.y), Mul(poly[3], t.z),
             Term(poly[4], t.x, t.y) + Mul(poly[4], Four(x, y)) / 20.0, Term(poly[5], t.x, t.z) + Mul(poly[5], Four(x, z)) / 20.0,
             Term(poly[6], t.y, t.z) + Mul(poly[6], Four(y, z)) / 20.0, Term(poly[7], t.x, t.x) + Mul(poly[7], Four(x, x)) / 20.0,
             Term(poly[8], t.y, t.y) + Mul(poly[8], Four(y, y)) / 20.0, Term(poly[9], t.z, t.z) + Mul(poly[9], Four(z, z)) / 20.0);
  }

  // ---------------------------------------------------------------- the polynomial in space

  lemma FormHasTerms(a: Tensor3, u: V3, v: V3)
    ensures Form(a, u, v) == Term(a.x.x, u.x, v.x) + Term(a.x.y, u.x, v.y) + Term(a.x.z, u.x, v.z)
                             + Term(a.y.x, u.y, v.x) + Term(a.y.y, u.y, v.y) + Term(a.y.z, u.y, v.z)
                             + Term(a.z.x, u.z, v.x) + Term(a.z.y, u.z, v.y) + Term(a.z.z, u.z, v.z)
  {
    hide Term;
    RowTerms(u.x, a.x, v);
    RowTerms(u.y, a.y, v);
    RowTerms(u.z, a.z, v);
  }

  lemma RowTerms(u: real, r: V3, v: V3)
    ensures u * Dot(r, v) == Term(r.x, u, v.x) + Term(r.y, u, v.y) + Term(r.z, u, v.z)
  {
    assert u * (r.x * v.x + r.y * v.y + r.z * v.z) == u * (r.x * v.x) + u * (r.y * v.y) + u * (r.z * v.z);
  }

  lemma SumOfSix(a: real, p: real, b: real, q: real, c: real, r: real, d: real, s: real, e: real, t: real, f: real, u: real, x: real)
    ensures Mul((a * p + b * q + c * r + d * s + e * t + f * u) * -1.0, x)
         == -(Term(a, p, x) + Term(b, q, x) + Term(c, r, x) + Term(d, s, x) + Term(e, t, x) + Term(f, u, x))
  {
  }

  lemma SplitTerm(a: real, b: real, x: real, y: real)
    ensures Term(a + b, x, y) == Term(a, x, y) + Term(b, y, x)
  {
  }

  lemma ConstantTerms3(i: V3, j: V3, a: Tensor3)
    ensures ConstantTerm(i, j, a)
         == Term(a.x.x, i.x, j.x) + Term(a.x.y, i.y, j.x) + Term(a.x.z, i.z, j.x)
            + Term(a.y.x, i.x, j.y) + Term(a.y.y, i.y, j.y) + Term(a.y.z, i.z, j.y)
            + Term(a.z.x, i.x, j.z) + Term(a.z.y, i.y, j.z) + Term(a.z.z, i.z, j.z)
  {
  }

  /** Row and column of the tensor that meet in one coordinate, applied to the nodes. */
  function SixTerms(r: V3, i: V3, c: V3, j: V3, x: real): real {
    Term(r.x, i.x, x) + Term(r.y, i.y, x) + Term(r.z, i.z, x) + Term(c.x, j.x, x) + Term(c.y, j.y, x) + Term(c.z, j.z, x)
  }

  lemma LinearTerms3(row: V3, i: V3, col: V3, j: V3, x: real)
    ensures Mul(LinearTerm(row, i, col, j), x) == -SixTerms(row, i, col, j, x)
  {
    hide Term;
    SumOfSix(row.x, i.x, row.y, i.y, row.z, i.z, col.x, j.x, col.y, j.y, col.z, j.z, x);
  }

  /** The polynomial is the product of the two basis functions, up to their factors. */
  lemma PolynomIsProduct3(i: V3, j: V3, a: Tensor3, t: V3)
    ensures PolynomValue3(CalcPolynom3(i, j, a), t) == Form(a, t.Minus(j), t.Minus(i))
  {
    hide Term, Mul, Form, ConstantTerm, LinearTerm;
    ConstantTerms3(i, j, a);
    LinearTerms3(a.x, i, V3(a.x.x, a.y.x, a.z.x), j, t.x);
    LinearTerms3(a.y, i, V3(a.x.y, a.y.y, a.z.y), j, t.y);
    LinearTerms3(a.z, i, V3(a.x.z, a.y.z, a.z.z), j, t.z);
    SplitTerm(a.x.y, a.y.x, t.x, t.y);
    SplitTerm(a.x.z, a.z.x, t.x, t.z);
    SplitTerm(a.y.z, a.z.y, t.y, t.z);
    FormHasTerms(a, t.Minus(j), t.Minus(i));
    TermOfDifferences(a.x.x, t.x, j.x, t.x, i.x);
    TermOfDifferences(a.x.y, t.x, j.x, t.y, i.y);
    TermOfDifferences(a.x.z, t.x, j.x, t.z, i.z);
    TermOfDifferences(a.y.x, t.y, j.y, t.x, i.x);
    TermOfDifferences(a.y.y, t.y, j.y, t.y, i.y);
    TermOfDifferences(a.y.z, t.y, j.y, t.z, i.z);
    TermOfDifferences(a.z.x, t.z, j.z, t.x, i.x);
    TermOfDifferences(a.z.y, t.z, j.z, t.y, i.y);
    TermOfDifferences(a.z.z, t.z, j.z, t.z, i.z);
  }

  // ---------------------------------------------------------------- its definiteness

  function Arm3(e: Tetrahedron, k: nat): V3
    requires |e.p| == 4 && k < 4
  {
    e.p[k].Minus(e.Centre())
  }

  function Spread3(e: Tetrahedron, a: Tensor3): real
    requires |e.p| == 4
  {
    (Form(a, Arm3(e, 0), Arm3(e, 0)) + Form(a, Arm3(e, 1), Arm3(e, 1)) + Form(a, Arm3(e, 2), Arm3(e, 2)) + Form(a, Arm3(e, 3), Arm3(e, 3))) / 20.0
  }

  function AtCentre3(e: Tetrahedron, i: nat): V3
    requires |e.p| == 4 && i < 4
  {
    e.Centre().Minus(e.p[i])
  }

  /** The quadratic part of a polynomial in one point. */
  function ArmTerms(poly: seq<real>, d: V3): real
    requires |poly| == 10
  {
    Term(poly[4], d.x, d.y) + Term(poly[5], d.x, d.z) + Term(poly[6], d.y, d.z)
    + Term(poly[7], d.x, d.x) + Term(poly[8], d.y, d.y) + Term(poly[9], d.z, d.z)
  }

  lemma ArmForm(i: V3, j: V3, a: Tensor3, d: V3)
    ensures ArmTerms(CalcPolynom3(i, j, a), d) == Form(a, d, d)
  {
    hide Term, Form, ConstantTerm, LinearTerm;
    SplitTerm(a.x.y, a.y.x, d.x, d.y);
    SplitTerm(a.x.z, a.z.x, d.x, d.z);
    SplitTerm(a.y.z, a.z.y, d.y, d.z);
    FormHasTerms(a, d, d);
  }

  lemma FourTerms(c: real, x: seq<real>, y: seq<real>)
    requires |x| == |y| == 4
    ensures Mul(c, Four(x, y)) == Term(c, x[0], y[0]) + Term(c, x[1], y[1]) + Term(c, x[2], y[2]) + Term(c, x[3], y[3])
  {
    assert c * (x[0] * y[0] + x[1] * y[1] + x[2] * y[2] + x[3] * y[3])
        == c * (x[0] * y[0]) + c * (x[1] * y[1]) + c * (x[2] * y[2]) + c * (x[3] * y[3]);
  }

  lemma MomentsOfArms(e: Tetrahedron, poly: seq<real>)
    requires |e.p| == 4 && |poly| == 10
    ensures Moments(e, poly)
         == ArmTerms(poly, Arm3(e, 0)) + ArmTerms(poly, Arm3(e, 1)) + ArmTerms(poly, Arm3(e, 2)) + ArmTerms(poly, Arm3(e, 3))
  {
    hide Term, Mul, Four;
    var x, y, z := ArmsX(e), ArmsY(e), ArmsZ(e);
    FourTerms(poly[4], x, y);
    FourTerms(poly[5], x, z);
    FourTerms(poly[6], y, z);
    FourTerms(poly[7], x, x);
    FourTerms(poly[8], y, y);
    FourTerms(poly[9], z, z);
  }

  /** The integral of the product of two basis functions: their product in the centre and the second moments. */
  lemma IntegralOfProduct(e: Tetrahedron, a: Tensor3, i: nat, j: nat)
    requires |e.p| == 4 && i < 4 && j < 4
    ensures PolynomIntegral(e, CalcPolynom3(e.p[i], e.p[j], a))
         == Mul(e.measure, Form(a, AtCentre3(e, j), AtCentre3(e, i)) + Spread3(e, a))
  {
    hide Mul, Form, PolynomIntegral, CalcPolynom3, PolynomValue3, Moments, ArmTerms;
    var poly := CalcPolynom3(e.p[i], e.p[j], a);
    IntegralIsMoments(e, poly);
    PolynomIsProduct3(e.p[i], e.p[j], a, e.Centre());
    MomentsOfArms(e, poly);
    ArmForm(e.p[i], e.p[j], a, Arm3(e, 0));
    ArmForm(e.p[i], e.p[j], a, Arm3(e, 1));
    ArmForm(e.p[i], e.p[j], a, Arm3(e, 2));
    ArmForm(e.p[i], e.p[j], a, Arm3(e, 3));
  }

  function TetrahedronEntry(e: Tetrahedron, a: Tensor3, scale: real, i: nat, j: nat): real
    requires e.Valid() && i < 4 && j < 4
  {
    ScaledIntegral(scale, Delta(e, i), Delta(e, j), PolynomIntegral(e, CalcPolynom3(e.p[i], e.p[j], a)))
  }

  function ScaledIntegral(scale: real, di: real, dj: real, integral: real): real {
    scale * di * dj * integral
  }

  /** The matrix of a tetrahedron: the upper part and its mirror image. */
  function TetrahedronMatrix(e: Tetrahedron, a: Tensor3, scale: real): (m: Matrix)
    requires e.Valid()
    ensures Square(m, 4)
  {
    seq(4, i requires 0 <= i < 4 => seq(4, j requires 0 <= j < 4 =>
      if i <= j then TetrahedronEntry(e, a, scale, i, j) else TetrahedronEntry(e, a, scale, j, i)))
  }

  function Deltas(e: Tetrahedron): seq<real>
    requires e.Valid()
  {
    [Delta(e, 0), Delta(e, 1), Delta(e, 2), Delta(e, 3)]
  }

  function CentreValues3(e: Tetrahedron): seq<V3>
    requires |e.p| == 4
  {
    [AtCentre3(e, 0), AtCentre3(e, 1), AtCentre3(e, 2), AtCentre3(e, 3)]
  }

  lemma EntryArithmetic3(k: real, scale: real, gi: real, gj: real, measure: real, form: real, spread: real)
    requires k == scale * measure
    ensures ScaledIntegral(scale, gi, gj, Mul(measure, form + spread)) == EntryValue(k, gi, gj, form, spread)
  {
    assert scale * gi * gj * (measure * (form + spread)) == (scale * measure) * (gi * gj) * (form + spread);
  }

  ghost predicate Symmetric(a: Tensor3) {
    a.x.y == a.y.x && a.x.z == a.z.x && a.y.z == a.z.y
  }

  lemma TermSymmetric(a: real, x: real, y: real)
    ensures Term(a, x, y) == Term(a, y, x)
  {
  }

  lemma FormSymmetric3(a: Tensor3, u: V3, v: V3)
    requires Symmetric(a)
    ensures Form(a, u, v) == Form(a, v, u)
  {
    hide Term, Form;
    FormHasTerms(a, u, v);
    FormHasTerms(a, v, u);
    TermSymmetric(a.x.x, u.x, v.x);
    TermSymmetric(a.x.y, u.x, v.y);
    TermSymmetric(a.x.z, u.x, v.z);
    TermSymmetric(a.y.x, u.y, v.x);
    TermSymmetric(a.y.y, u.y, v.y);
    TermSymmetric(a.y.z, u.y, v.z);
    TermSymmetric(a.z.x, u.z, v.x);
    TermSymmetric(a.z.y, u.z, v.y);
    TermSymmetric(a.z.z, u.z, v.z);
  }

  lemma TetrahedronEntryShape(e: Tetrahedron, a: Tensor3, scale: real, i: nat, j: nat)
    requires e.Valid() && i < 4 && j < 4
    ensures TetrahedronEntry(e, a, scale, i, j)
         == Entry(a, scale * e.measure, Deltas(e)[i], Deltas(e)[j], CentreValues3(e)[i], CentreValues3(e)[j], Spread3(e, a))
  {
    hide Form, PolynomIntegral, CalcPolynom3, Spread3, Delta, AtCentre3, EntryValue, Mul, ScaledIntegral, Tetrahedron.Det, Face.Height;
    IntegralOfProduct(e, a, i, j);
    assert Deltas(e)[i] == Delta(e, i) && Deltas(e)[j] == Delta(e, j);
    assert CentreValues3(e)[i] == AtCentre3(e, i) && CentreValues3(e)[j] == AtCentre3(e, j);
    var form, spread, k := Form(a, AtCentre3(e, j), AtCentre3(e, i)), Spread3(e, a), scale * e.measure;
    EntryArithmetic3(k, scale, Delta(e, i), Delta(e, j), e.measure, form, spread);
  }

  lemma TetrahedronIsLocalMatrix(e: Tetrahedron, a: Tensor3, scale: real)
    requires e.Valid() && Symmetric(a)
    ensures IsLocalMatrix(TetrahedronMatrix(e, a, scale), a, scale * e.measure, Deltas(e), CentreValues3(e), Spread3(e, a))
  {
    hide Form, TetrahedronEntry, Delta, Spread3, EntryValue, AtCentre3, Tetrahedron.Det, Face.Height;
    var m := TetrahedronMatrix(e, a, scale);
    forall i, j | 0 <= i < 4 && 0 <= j < 4
      ensures m[i][j] == Entry(a, scale * e.measure, Deltas(e)[i], Deltas(e)[j], CentreValues3(e)[i], CentreValues3(e)[j], Spread3(e, a))
    {
      TetrahedronEntryShape(e, a, scale, i, j);
      TetrahedronEntryShape(e, a, scale, j, i);
      FormSymmetric3(a, CentreValues3(e)[i], CentreValues3(e)[j]);
      EntrySymmetric(scale * e.measure, Deltas(e)[i], Deltas(e)[j], Form(a, CentreValues3(e)[j], CentreValues3(e)[i]), Spread3(e, a));
    }
  }

  lemma CombOfFour(b: seq<real>, w: seq<V3>)
    requires |b| == |w| == 4
    ensures Comb(b, w, 4) == ZERO3.Plus(w[0].Times(b[0])).Plus(w[1].Times(b[1])).Plus(w[2].Times(b[2])).Plus(w[3].Times(b[3]))
    ensures Sum(b, 4) == b[0] + b[1] + b[2] + b[3]
  {
    hide V3.Plus, V3.Times;
    assert Comb(b, w, 1) == Comb(b, w, 0).Plus(w[0].Times(b[0]));
    assert Comb(b, w, 2) == Comb(b, w, 1).Plus(w[1].Times(b[1]));
    assert Comb(b, w, 3) == Comb(b, w, 2).Plus(w[2].Times(b[2]));
    assert Sum(b, 2) == Sum(b, 1) + b[1] && Sum(b, 3) == Sum(b, 2) + b[2];
  }

  lemma Quadruple(b0: real, b1: real, b2: real, b3: real, c: real, q0: real, q1: real, q2: real, q3: real)
    requires b0 + b1 + b2 + b3 == 0.0 && Mul(c - q0, b0) + Mul(c - q1, b1) + Mul(c - q2, b2) + Mul(c - q3, b3) == 0.0
    ensures Mul(q0 - q1, b1) + Mul(q0 - q2, b2) + Mul(q0 - q3, b3) == 0.0
  {
    assert b0 == -b1 - b2 - b3;
    assert (c - q0) * b0 == -(c - q0) * b1 - (c - q0) * b2 - (c - q0) * b3;
  }

  lemma VanishingSpace(c: V3, q0: V3, q1: V3, q2: V3, q3: V3, b0: real, b1: real, b2: real, b3: real)
    requires b0 + b1 + b2 + b3 == 0.0
    requires ZERO3.Plus(c.Minus(q0).Times(b0)).Plus(c.Minus(q1).Times(b1)).Plus(c.Minus(q2).Times(b2)).Plus(c.Minus(q3).Times(b3)) == ZERO3
    ensures q0.Minus(q1).Times(b1).Plus(q0.Minus(q2).Times(b2)).Plus(q0.Minus(q3).Times(b3)) == ZERO3
  {
    hide Mul;
    Quadruple(b0, b1, b2, b3, c.x, q0.x, q1.x, q2.x, q3.x);
    Quadruple(b0, b1, b2, b3, c.y, q0.y, q1.y, q2.y, q3.y);
    Quadruple(b0, b1, b2, b3, c.z, q0.z, q1.z, q2.z, q3.z);
  }

  lemma CrossOrthogonal(u: V3, v: V3)
    ensures Dot(u, Cross(u, v)) == 0.0 && Dot(v, Cross(u, v)) == 0.0
  {
  }

  /** A vanishing combination of three vectors with nonzero determinant does not use the first one. */
  lemma FirstVanishes(u: V3, v: V3, w: V3, b: real, c: real, d: real)
    requires u.Times(b).Plus(v.Times(c)).Plus(w.Times(d)) == ZERO3 && Determinant(u, v, w) != 0.0
    ensures b == 0.0
  {
    hide Dot, Cross, V3.Plus, V3.Times;
    var n := Cross(v, w);
    CrossOrthogonal(v, w);
    DotPlus(u.Times(b).Plus(v.Times(c)), w.Times(d), n);
    DotPlus(u.Times(b), v.Times(c), n);
    DotTimes(u, b, n);
    DotTimes(v, c, n);
    DotTimes(w, d, n);
    ZeroDot(n);
    NonzeroFactor(b, Dot(u, n));
  }

  lemma ZeroDot(n: V3)
    ensures Dot(ZERO3, n) == 0.0
  {
  }

  lemma DeterminantCyclic(u: V3, v: V3, w: V3)
    ensures Determinant(v, w, u) == Determinant(u, v, w)
  {
  }

  lemma PlusCyclic(u: V3, v: V3, w: V3)
    ensures u.Plus(v).Plus(w) == v.Plus(w).Plus(u)
  {
  }

  lemma ThreeVanish(u: V3, v: V3, w: V3, b: real, c: real, d: real)
    requires u.Times(b).Plus(v.Times(c)).Plus(w.Times(d)) == ZERO3 && Determinant(u, v, w) != 0.0
    ensures b == 0.0 && c == 0.0 && d == 0.0
  {
    hide Determinant, V3.Plus, V3.Times;
    FirstVanishes(u, v, w, b, c, d);
    PlusCyclic(u.Times(b), v.Times(c), w.Times(d));
    DeterminantCyclic(u, v, w);
    FirstVanishes(v, w, u, c, d, b);
    PlusCyclic(v.Times(c), w.Times(d), u.Times(b));
    DeterminantCyclic(v, w, u);
    FirstVanishes(w, u, v, d, b, c);
  }

  /** The four functions of a tetrahedron are independent. */
  lemma TetrahedronIndependent(e: Tetrahedron, b: seq<real>)
    requires |e.p| == |b| == 4 && e.Det() != 0.0 && Comb(b, CentreValues3(e), 4) == ZERO3 && Sum(b, 4) == 0.0
    ensures forall i | 0 <= i < 4 :: b[i] == 0.0
  {
    hide V3.Plus, V3.Times, V3.Minus, Tetrahedron.Centre, Determinant;
    CombOfFour(b, CentreValues3(e));
    VanishingSpace(e.Centre(), e.p[0], e.p[1], e.p[2], e.p[3], b[0], b[1], b[2], b[3]);
    ThreeVanish(e.p[0].Minus(e.p[1]), e.p[0].Minus(e.p[2]), e.p[0].Minus(e.p[3]), b[1], b[2], b[3]);
  }

  lemma NoArmsNoVolume(e: Tetrahedron)
    requires |e.p| == 4 && forall k | 0 <= k < 4 :: Arm3(e, k) == ZERO3
    ensures e.Det() == 0.0
  {
    assert Arm3(e, 0) == ZERO3 && Arm3(e, 1) == ZERO3 && Arm3(e, 2) == ZERO3;
    assert e.p[0] == e.p[1] == e.p[2];
  }

  lemma Spread3Positive(e: Tetrahedron, a: Tensor3)
    requires |e.p| == 4 && !(forall k | 0 <= k < 4 :: Arm3(e, k) == ZERO3)
    requires forall k | 0 <= k < 4 :: Arm3(e, k) == ZERO3 || PositiveAt(a, Arm3(e, k))
    ensures Spread3(e, a) > 0.0
  {
    hide Form, Arm3;
    FormOfZero(a);
  }

  /** For any proper tetrahedron and positive definite resistance the local matrix is symmetric and positive definite. */
  lemma TetrahedronDefinite(e: Tetrahedron, a: Tensor3, scale: real, c: seq<real>)
    requires e.Valid() && e.Det() != 0.0
    requires Symmetric(a) && PositiveDefinite(a, false) && e.measure > 0.0 && scale > 0.0 && |c| == 4
    ensures var m := TetrahedronMatrix(e, a, scale);
            && Square(m, 4) && (forall i, j | 0 <= i < 4 && 0 <= j < 4 :: m[i][j] == m[j][i])
            && Energy(m, c, 4) >= 0.0 && (Energy(m, c, 4) == 0.0 <==> c == [0.0, 0.0, 0.0, 0.0])
  {
    hide Form, Delta, Spread3, AtCentre3, TetrahedronEntry, Comb, Tetrahedron.Det, Face.Height, Arm3, Energy, RowTimes, Mul, Dot, Apply;
    var m, g, w := TetrahedronMatrix(e, a, scale), Deltas(e), CentreValues3(e);
    TetrahedronIsLocalMatrix(e, a, scale);
    if forall k | 0 <= k < 4 :: Arm3(e, k) == ZERO3 {
      NoArmsNoVolume(e);
    }
    assert forall k | 0 <= k < 4 :: Arm3(e, k) == ZERO3 || PositiveAt(a, Arm3(e, k));
    Spread3Positive(e, a);
    PositiveProduct(scale, e.measure);
    EnergyPositive(m, a, false, scale * e.measure, g, w, Spread3(e, a), c);
    if Energy(m, c, 4) == 0.0 {
      TetrahedronIndependent(e, Weights(c, g));
      forall i | 0 <= i < 4
        ensures c[i] == 0.0
      {
        DeltaNonzero(e, i);
        WeightsVanish(c, g, i);
      }
    }
    if c == [0.0, 0.0, 0.0, 0.0] {
      NoFluxNoEnergy(m, c, 4);
    }
  }

  lemma DeltaNonzero(e: Tetrahedron, i: nat)
    requires e.Valid() && i < 4
    ensures Delta(e, i) != 0.0
  {
    hide Face.Height;
    var h := e.sides[i].Height(e.p[i]);
    assert h * (1.0 / h) == 1.0;
  }

  // ---------------------------------------------------------------- the local matrix of a line

  /** `resistance` is that of the unit vector along the line. */
  function LineMatrix(resistance: real, measure: real, scale: real): (m: Matrix)
    ensures Square(m, 2)
  {
    var val := scale * resistance * measure / 3.0;
    [[val, -val / 2.0], [-val / 2.0, val]]
  }

  lemma LineArithmetic(val: real, x: real, y: real)
    ensures x * (val * x + (-val / 2.0) * y) + y * ((-val / 2.0) * x + val * y) == val * (x * x - x * y + y * y)
  {
  }

  lemma EnergyOfTwo(m: Matrix, c: seq<real>)
    requires Square(m, 2) && |c| == 2
    ensures Energy(m, c, 2) == Mul(c[0], Mul(m[0][0], c[0]) + Mul(m[0][1], c[1])) + Mul(c[1], Mul(m[1][0], c[0]) + Mul(m[1][1], c[1]))
  {
    hide Mul;
    assert RowTimes(m[0], c, 0) == RowTimes(m[1], c, 0) == Energy(m, c, 0) == 0.0;
    assert RowTimes(m[0], c, 1) == Mul(m[0][0], c[0]) && RowTimes(m[1], c, 1) == Mul(m[1][0], c[0]);
    assert Energy(m, c, 1) == Mul(c[0], RowTimes(m[0], c, 2));
  }

  lemma LineEnergy(m: Matrix, val: real, c: seq<real>)
    requires m == [[val, -val / 2.0], [-val / 2.0, val]] && |c| == 2
    ensures Energy(m, c, 2) == val * (c[0] * c[0] - c[0] * c[1] + c[1] * c[1])
  {
    EnergyOfTwo(m, c);
    LineArithmetic(val, c[0], c[1]);
  }

  lemma MixedSquare(x: real, y: real)
    ensures x * x - x * y + y * y >= 0.0 && (x * x - x * y + y * y == 0.0 ==> x == 0.0 && y == 0.0)
  {
    var h := x - y / 2.0;
    assert x * x - x * y + y * y == h * h + 0.75 * (y * y);
    SquareTimes(1.0, h);
    SquareTimes(1.0, y);
  }

  /** The matrix of a line is symmetric and positive definite. */
  lemma LineDefinite(resistance: real, measure: real, scale: real, c: seq<real>)
    requires resistance > 0.0 && measure > 0.0 && scale > 0.0 && |c| == 2
    ensures var m := LineMatrix(resistance, measure, scale);
            && Square(m, 2) && m[0][1] == m[1][0]
            && Energy(m, c, 2) >= 0.0 && (Energy(m, c, 2) == 0.0 <==> c == [0.0, 0.0])
  {
    hide Energy;
    var m, val := LineMatrix(resistance, measure, scale), scale * resistance * measure / 3.0;
    PositiveProduct(scale, resistance);
    PositiveProduct(scale * resistance, measure);
    LineEnergy(m, val, c);
    var square := c[0] * c[0] - c[0] * c[1] + c[1] * c[1];
    MixedSquare(c[0], c[1]);
    PositiveTimes(val, square);
    if c == [0.0, 0.0] {
      NoFluxNoEnergy(m, c, 2);
    }
  }

  // ---------------------------------------------------------------- the evaluator that owns the matrix

  class MHFEValues {
    const locMatrix: array2<real>
    const basAlfa: array<real>
    const basBeta: array<real>
    const basGama: array<real>
    const basDelta: array<real>

    constructor ()
      ensures Valid() && fresh(locMatrix) && fresh(basAlfa) && fresh(basBeta) && fresh(basGama) && fresh(basDelta)
    {
      locMatrix := new real[4, 4]((i, j) => 0.0);
      basAlfa := new real[4](i => 0.0);
      basBeta := new real[4](i => 0.0);
      basGama := new real[4](i => 0.0);
      basDelta := new real[4](i => 0.0);
    }

    ghost predicate Valid() {
      && locMatrix.Length0 == locMatrix.Length1 == 4
      && basAlfa.Length == basBeta.Length == basGama.Length == basDelta.Length == 4
      && basAlfa != basBeta && basAlfa != basGama && basAlfa != basDelta
      && basBeta != basGama && basBeta != basDelta && basGama != basDelta
    }

    /** The leading block, which belongs to an element with `n` sides, is `m`. */
    ghost predicate Holds(m: Matrix, n: nat)
      requires Valid() && n <= 4 && Square(m, n)
      reads locMatrix
    {
      forall i, j | 0 <= i < n && 0 <= j < n :: locMatrix[i, j] == m[i][j]
    }

    method LocalMatrixLine(resistance: real, measure: real, scale: real)
      requires Valid() && measure > 0.0
      modifies locMatrix, basAlfa, basBeta
      ensures Holds(LineMatrix(resistance, measure, scale), 2)
      ensures basAlfa[0] == basAlfa[1] == -1.0 / measure && basBeta[0] == 1.0 && basBeta[1] == 0.0
    {
      var val := scale * resistance * measure / 3.0;
      locMatrix[0, 0] := val;
      locMatrix[1, 1] := val;
      locMatrix[0, 1] := -val / 2.0;
      locMatrix[1, 0] := -val / 2.0;
      basAlfa[0], basAlfa[1] := -1.0 / measure, -1.0 / measure;
      basBeta[0], basBeta[1] := 1.0, 0.0;
    }

    /** The loops have filled rows up to `row`, and in row `row` the columns up to `col`, with their mirror images. */
    ghost predicate Filled(m: Matrix, n: nat, row: nat, col: nat)
      requires Valid() && n <= 4 && Square(m, n)
      reads locMatrix
    {
      forall i, j | 0 <= i <= j < n && (i < row || (i == row && j < col)) ::
        locMatrix[i, j] == m[i][j] && locMatrix[j, i] == m[j][i]
    }

    method SetEntry(ghost m: Matrix, ghost n: nat, i: nat, j: nat, value: real)
      requires Valid() && n <= 4 && Square(m, n) && i <= j < n && Filled(m, n, i, j) && m[i][j] == m[j][i] == value
      modifies locMatrix
      ensures Filled(m, n, i, j + 1)
    {
      locMatrix[i, j] := value;
      locMatrix[j, i] := locMatrix[i, j];
    }

    method SetTriangleEntry(t: Triangle, a: Tensor2, measure: real, scale: real, i: nat, j: nat, bi: Basis2, bj: Basis2)
      requires Valid() && t.Valid() && i <= j < 3 && bi == Basis(t, i) && bj == Basis(t, j)
      requires Filled(TriangleMatrix(t, a, measure, scale), 3, i, j)
      modifies locMatrix
      ensures Filled(TriangleMatrix(t, a, measure, scale), 3, i, j + 1)
    {
      hide Triangle.Doubled, CalcPolynom, PolynomValue, Basis;
      var poly := CalcPolynom(bi, bj, a);
      var sum := PolynomValue(poly, t.Midpoint(0)) + PolynomValue(poly, t.Midpoint(1)) + PolynomValue(poly, t.Midpoint(2));
      var value := scale * bi.gama * bj.gama * measure * sum / 3.0;
      assert TriangleEntry(t, a, measure, scale, i, j) == value;
      SetEntry(TriangleMatrix(t, a, measure, scale), 3, i, j, value);
    }

    method FillTriangle(t: Triangle, a: Tensor2, measure: real, scale: real, b: seq<Basis2>)
      requires Valid() && t.Valid() && b == [Basis(t, 0), Basis(t, 1), Basis(t, 2)]
      modifies locMatrix
      ensures Filled(TriangleMatrix(t, a, measure, scale), 3, 3, 3)
    {
      hide Triangle.Doubled, Basis, TriangleMatrix;
      for i := 0 to 3
        invariant Filled(TriangleMatrix(t, a, measure, scale), 3, i, i)
      {
        for j := i to 3
          invariant Filled(TriangleMatrix(t, a, measure, scale), 3, i, j)
        {
          SetTriangleEntry(t, a, measure, scale, i, j, b[i], b[j]);
        }
      }
    }

    lemma FilledIsBlock(m: Matrix, n: nat)
      requires Valid() && n <= 4 && Square(m, n) && Filled(m, n, n, n)
      ensures Holds(m, n)
    {
      forall i, j | 0 <= i < n && 0 <= j < n
        ensures locMatrix[i, j] == m[i][j]
      {
        if i <= j {
          assert locMatrix[i, j] == m[i][j];
        } else {
          assert locMatrix[j, i] == m[j][i];
        }
      }
    }

    method LocalMatrixTriangle(t: Triangle, a: Tensor2, measure: real, scale: real)
      requires Valid() && t.Valid()
      modifies locMatrix, basAlfa, basBeta, basGama
      ensures Holds(TriangleMatrix(t, a, measure, scale), 3)
      ensures forall i | 0 <= i < 3 :: Basis2(basAlfa[i], basBeta[i], basGama[i]) == Basis(t, i)
    {
      hide Triangle.Doubled, Basis, TriangleMatrix;
      var b := [Basis(t, 0), Basis(t, 1), Basis(t, 2)];
      FillTriangle(t, a, measure, scale, b);
      FilledIsBlock(TriangleMatrix(t, a, measure, scale), 3);
      for i := 0 to 3
        invariant forall k | 0 <= k < i :: Basis2(basAlfa[k], basBeta[k], basGama[k]) == b[k]
        invariant Holds(TriangleMatrix(t, a, measure, scale), 3)
      {
        basAlfa[i] := b[i].alfa;
        basBeta[i] := b[i].beta;
        basGama[i] := b[i].gama;
      }
    }

    method SetTetrahedronEntry(e: Tetrahedron, a: Tensor3, scale: real, i: nat, j: nat, di: real, dj: real)
      requires Valid() && e.Valid() && i <= j < 4 && di == Delta(e, i) && dj == Delta(e, j)
      requires Filled(TetrahedronMatrix(e, a, scale), 4, i, j)
      modifies locMatrix
      ensures Filled(TetrahedronMatrix(e, a, scale), 4, i, j + 1)
    {
      hide Tetrahedron.Det, Face.Height, CalcPolynom3, PolynomIntegral, Delta;
      var integral := PolynomIntegral(e, CalcPolynom3(e.p[i], e.p[j], a));
      var value := scale * di * dj * integral;
      assert TetrahedronEntry(e, a, scale, i, j) == value;
      SetEntry(TetrahedronMatrix(e, a, scale), 4, i, j, value);
    }

    method FillTetrahedron(e: Tetrahedron, a: Tensor3, scale: real, delta: seq<real>)
      requires Valid() && e.Valid() && delta == Deltas(e)
      modifies locMatrix
      ensures Filled(TetrahedronMatrix(e, a, scale), 4, 4, 4)
    {
      hide Tetrahedron.Det, Face.Height, Delta, TetrahedronMatrix;
      for i := 0 to 4
        invariant Filled(TetrahedronMatrix(e, a, scale), 4, i, i)
      {
        for j := i to 4
          invariant Filled(TetrahedronMatrix(e, a, scale), 4, i, j)
        {
          SetTetrahedronEntry(e, a, scale, i, j, delta[i], delta[j]);
        }
      }
    }

    method LocalMatrixTetrahedron(e: Tetrahedron, a: Tensor3, scale: real)
      requires Valid() && e.Valid()
      modifies locMatrix, basAlfa, basBeta, basGama, basDelta
      ensures Holds(TetrahedronMatrix(e, a, scale), 4)
      ensures forall i | 0 <= i < 4 :: V3(basAlfa[i], basBeta[i], basGama[i]) == e.p[i] && basDelta[i] == Delta(e, i)
    {
      hide Tetrahedron.Det, Face.Height, Delta, TetrahedronMatrix;
      var delta := Deltas(e);
      FillTetrahedron(e, a, scale, delta);
      FilledIsBlock(TetrahedronMatrix(e, a, scale), 4);
      for i := 0 to 4
        invariant forall k | 0 <= k < i :: V3(basAlfa[k], basBeta[k], basGama[k]) == e.p[k] && basDelta[k] == delta[k]
        invariant Holds(TetrahedronMatrix(e, a, scale), 4)
      {
        basAlfa[i], basBeta[i], basGama[i] := e.p[i].x, e.p[i].y, e.p[i].z;
        basDelta[i] := delta[i];
      }
    }
  }
}
