/** The quadratures of the local matrices against the integrals of barycentric monomials. */
module Quadrature {
  import opened LocalMatrix

  // ---------------------------------------------------------------- barycentric monomials

  function Factorial(n: nat): nat {
    if n == 0 then 1 else n * Factorial(n - 1)
  }

  function Degree(powers: seq<nat>): nat {
    if powers == [] then 0 else powers[0] + Degree(powers[1..])
  }

  function Factorials(powers: seq<nat>): nat {
    if powers == [] then 1 else Factorial(powers[0]) * Factorials(powers[1..])
  }

  lemma {:induction false} FactorialPositive(n: nat)
    ensures Factorial(n) > 0
  {
    if n > 0 {
      FactorialPositive(n - 1);
    }
  }

  /** The mean of a monomial in the barycentric coordinates of a simplex, by the formula of Dirichlet. */
  function MonomialMean(powers: seq<nat>): real
    requires powers != []
  {
    FactorialPositive(Degree(powers) + |powers| - 1);
    (Factorial(|powers| - 1) * Factorials(powers)) as real / Factorial(Degree(powers) + |powers| - 1) as real
  }

  /** The powers of coordinate `i` times coordinate `j`, out of `n`; an index out of range stands for the factor one. */
  function Pair(n: nat, i: int, j: int): (powers: seq<nat>)
    ensures |powers| == n
  {
    seq(n, k requires 0 <= k < n => (if k == i then 1 else 0) + (if k == j then 1 else 0))
  }

  lemma {:induction false} PairCounts(n: nat, i: int, j: int)
    ensures Degree(Pair(n, i, j)) == (if 0 <= i < n then 1 else 0) + (if 0 <= j < n then 1 else 0)
    ensures Factorials(Pair(n, i, j)) == if i == j && 0 <= i < n then 2 else 1
  {
    if n > 0 {
      PairCounts(n - 1, i - 1, j - 1);
      assert Pair(n, i, j)[1..] == Pair(n - 1, i - 1, j - 1);
      assert Factorial(1) == 1 && Factorial(2) == 2;
    }
  }

  /** Means of one coordinate and of the product of two, on triangles and tetrahedra. */
  lemma PairMeans(n: nat, i: nat, j: nat)
    requires n == 2 || n == 3 || n == 4
    requires i < n && j < n
    ensures MonomialMean(Pair(n, i, -1)) == if n == 2 then 1.0 / 2.0 else if n == 3 then 1.0 / 3.0 else 1.0 / 4.0
    ensures MonomialMean(Pair(n, i, j))
         == if n == 2 then (if i == j then 1.0 / 3.0 else 1.0 / 6.0)
            else if n == 3 then (if i == j then 1.0 / 6.0 else 1.0 / 12.0) else (if i == j then 1.0 / 10.0 else 1.0 / 20.0)
  {
    PairCounts(n, i, -1);
    PairCounts(n, i, j);
    assert Factorial(2) == 2 && Factorial(3) == 6 && Factorial(4) == 24 && Factorial(5) == 120;
  }

  // ---------------------------------------------------------------- polynomials in barycentric coordinates

  /** The coordinate of a point, or with means as weights the mean of the coordinate. */
  function Weighted(w: nat -> real, x: seq<real>, n: nat): real
    requires n <= |x|
  {
    if n == 0 then 0.0 else Weighted(w, x, n - 1) + Mul(w(n - 1), x[n - 1])
  }

  /** Row `i` of the products of two coordinates. */
  function WeightedRow(w: (nat, nat) -> real, x: real, i: nat, y: seq<real>, n: nat): real
    requires n <= |y|
  {
    if n == 0 then 0.0 else WeightedRow(w, x, i, y, n - 1) + Mul(w(i, n - 1), Mul(x, y[n - 1]))
  }

  function WeightedPairs(w: (nat, nat) -> real, x: seq<real>, y: seq<real>, n: nat): real
    requires n <= |x|
  {
    if n == 0 then 0.0 else WeightedPairs(w, x, y, n - 1) + WeightedRow(w, x[n - 1], n - 1, y, |y|)
  }

  lemma {:induction false} RowExpands(l: nat -> real, c: real, i: nat, y: seq<real>, n: nat)
    requires n <= |y|
    ensures WeightedRow((a: nat, b: nat) => Mul(l(a), l(b)), c, i, y, n) == Mul(Mul(l(i), c), Weighted(l, y, n))
  {
    var w := (a: nat, b: nat) => Mul(l(a), l(b));
    if n > 0 {
      RowExpands(l, c, i, y, n - 1);
      FactorOut(l(i), c, l(n - 1), y[n - 1], Weighted(l, y, n - 1));
      assert w(i, n - 1) == Mul(l(i), l(n - 1));
    } else {
      assert Mul(Mul(l(i), c), 0.0) == 0.0;
    }
  }

  lemma FactorOut(a: real, c: real, b: real, y: real, s: real)
    ensures Mul(Mul(a, c), s) + Mul(Mul(a, b), Mul(c, y)) == Mul(Mul(a, c), s + Mul(b, y))
  {
  }

  /** In every point the product of two coordinates is the sum of its monomials in barycentric coordinates. */
  lemma {:induction false} ProductExpands(l: nat -> real, x: seq<real>, y: seq<real>, n: nat)
    requires n <= |x|
    ensures WeightedPairs((a: nat, b: nat) => Mul(l(a), l(b)), x, y, n) == Mul(Weighted(l, x, n), Weighted(l, y, |y|))
  {
    if n > 0 {
      ProductExpands(l, x, y, n - 1);
      RowExpands(l, x[n - 1], n - 1, y, |y|);
      assert Mul(Weighted(l, x, n - 1), Weighted(l, y, |y|)) + Mul(Mul(l(n - 1), x[n - 1]), Weighted(l, y, |y|))
          == Mul(Weighted(l, x, n - 1) + Mul(l(n - 1), x[n - 1]), Weighted(l, y, |y|));
    } else {
      assert Mul(0.0, Weighted(l, y, |y|)) == 0.0;
    }
  }

  /** The mean of a coordinate over the simplex with the given coordinates of nodes. */
  function Mean1(x: seq<real>): real
    requires x != []
  {
    Weighted((i: nat) => MonomialMean(Pair(|x|, i, -1)), x, |x|)
  }

  /** The mean of the product of two coordinates: each of its monomials has its mean. */
  function Mean2(x: seq<real>, y: seq<real>): real
    requires |x| == |y| > 0
  {
    WeightedPairs((i: nat, j: nat) => MonomialMean(Pair(|x|, i, j)), x, y, |x|)
  }

  /**
   * The basis functions of a line have the flux one out of their own end and none at the other: they are the barycentric
   * coordinates, against and along the line. An entry of its matrix is the integral of their product.
   */
  lemma LineEntryIsIntegral(resistance: real, measure: real, scale: real, i: nat, j: nat)
    requires i < 2 && j < 2
    ensures LineMatrix(resistance, measure, scale)[i][j]
         == scale * resistance * measure * (if i == j then MonomialMean(Pair(2, i, j)) else -MonomialMean(Pair(2, i, j)))
  {
    hide MonomialMean;
    PairMeans(2, i, j);
  }

  // ---------------------------------------------------------------- the means in closed form

  function Three(x: seq<real>, y: seq<real>): real
    requires |x| == |y| == 3
  {
    Mul(x[0], y[0]) + Mul(x[1], y[1]) + Mul(x[2], y[2])
  }

  lemma Mean1OfThree(x: seq<real>)
    requires |x| == 3
    ensures Mean1(x) == (x[0] + x[1] + x[2]) / 3.0
  {
    hide MonomialMean;
    var w := (i: nat) => MonomialMean(Pair(3, i, -1));
    forall i: nat | i < 3
      ensures Mul(w(i), x[i]) == x[i] / 3.0
    {
      PairMeans(3, i, i);
    }
    assert Weighted(w, x, 1) == Weighted(w, x, 0) + Mul(w(0), x[0]);
    assert Weighted(w, x, 2) == Weighted(w, x, 1) + Mul(w(1), x[1]);
    assert Weighted(w, x, 3) == Weighted(w, x, 2) + Mul(w(2), x[2]);
  }

  lemma Mean1OfFour(x: seq<real>)
    requires |x| == 4
    ensures Mean1(x) == (x[0] + x[1] + x[2] + x[3]) / 4.0
  {
    hide MonomialMean;
    var w := (i: nat) => MonomialMean(Pair(4, i, -1));
    forall i: nat | i < 4
      ensures Mul(w(i), x[i]) == x[i] / 4.0
    {
      PairMeans(4, i, i);
    }
    assert Weighted(w, x, 1) == Weighted(w, x, 0) + Mul(w(0), x[0]);
    assert Weighted(w, x, 2) == Weighted(w, x, 1) + Mul(w(1), x[1]);
    assert Weighted(w, x, 3) == Weighted(w, x, 2) + Mul(w(2), x[2]);
    assert Weighted(w, x, 4) == Weighted(w, x, 3) + Mul(w(3), x[3]);
  }

  /** The weight of every product, the squares have it twice. */
  function Unit(n: nat): real {
    if n == 3 then 1.0 / 12.0 else 1.0 / 20.0
  }

  lemma OneMoreProduct(c: real, s: real, y: real, u: real, square: bool, rest: real)
    ensures Mul(u, Mul(c, s) + rest) + Mul(if square then 2.0 * u else u, Mul(c, y))
         == Mul(u, Mul(c, s + y) + rest + if square then Mul(c, y) else 0.0)
  {
    assert Mul(c, s + y) == Mul(c, s) + Mul(c, y);
    Spread(u, Mul(c, s), rest, Mul(c, y));
  }

  lemma Spread(u: real, a: real, b: real, d: real)
    ensures Mul(u, a + b) + Mul(u, d) == Mul(u, a + d + b)
    ensures Mul(u, a + b) + Mul(2.0 * u, d) == Mul(u, a + d + b + d)
  {
  }

  lemma {:induction false} RowOfMeans(n: nat, c: real, i: nat, y: seq<real>, k: nat)
    requires (n == 3 || n == 4) && |y| == n && i < n && k <= n
    ensures var w := (a: nat, b: nat) => MonomialMean(Pair(n, a, b));
            WeightedRow(w, c, i, y, k) == Mul(Unit(n), Mul(c, Total(y, k)) + if i < k then Mul(c, y[i]) else 0.0)
  {
    hide MonomialMean, Mul;
    var w := (a: nat, b: nat) => MonomialMean(Pair(n, a, b));
    if k > 0 {
      RowOfMeans(n, c, i, y, k - 1);
      PairMeans(n, i, k - 1);
      assert w(i, k - 1) == if i == k - 1 then 2.0 * Unit(n) else Unit(n);
      OneMoreProduct(c, Total(y, k - 1), y[k - 1], Unit(n), i == k - 1, if i < k - 1 then Mul(c, y[i]) else 0.0);
    } else {
      NoProduct(c);
      NoProduct(Unit(n));
    }
  }

  lemma NoProduct(c: real)
    ensures Mul(c, 0.0) == 0.0
  {
  }

  lemma UnitOut(n: nat, x: real)
    ensures Mul(Unit(n), x) == if n == 3 then x / 12.0 else x / 20.0
  {
  }

  function Total(y: seq<real>, k: nat): real
    requires k <= |y|
  {
    if k == 0 then 0.0 else Total(y, k - 1) + y[k - 1]
  }

  lemma Mean2OfThree(x: seq<real>, y: seq<real>)
    requires |x| == |y| == 3
    ensures Mean2(x, y) == (Mul(x[0] + x[1] + x[2], y[0] + y[1] + y[2]) + Three(x, y)) / 12.0
  {
    hide MonomialMean, Mul, WeightedRow;
    var w := (i: nat, j: nat) => MonomialMean(Pair(3, i, j));
    forall i: nat | i < 3
      ensures WeightedRow(w, x[i], i, y, 3) == (Mul(x[i], Total(y, 3)) + Mul(x[i], y[i])) / 12.0
    {
      RowOfMeans(3, x[i], i, y, 3);
      UnitOut(3, Mul(x[i], Total(y, 3)) + Mul(x[i], y[i]));
    }
    assert Total(y, 1) == y[0] && Total(y, 2) == y[0] + y[1] && Total(y, 3) == y[0] + y[1] + y[2];
    assert WeightedPairs(w, x, y, 1) == WeightedPairs(w, x, y, 0) + WeightedRow(w, x[0], 0, y, 3);
    assert WeightedPairs(w, x, y, 2) == WeightedPairs(w, x, y, 1) + WeightedRow(w, x[1], 1, y, 3);
    assert WeightedPairs(w, x, y, 3) == WeightedPairs(w, x, y, 2) + WeightedRow(w, x[2], 2, y, 3);
    Distributes(x[0], x[1], x[2], 0.0, Total(y, 3));
  }

  lemma Distributes(a: real, b: real, c: real, d: real, s: real)
    ensures Mul(a + b + c + d, s) == Mul(a, s) + Mul(b, s) + Mul(c, s) + Mul(d, s)
    ensures d == 0.0 ==> Mul(d, s) == 0.0 && Mul(a + b + c, s) == Mul(a, s) + Mul(b, s) + Mul(c, s)
  {
  }

  lemma Mean2OfFour(x: seq<real>, y: seq<real>)
    requires |x| == |y| == 4
    ensures Mean2(x, y) == (Mul(x[0] + x[1] + x[2] + x[3], y[0] + y[1] + y[2] + y[3]) + Four(x, y)) / 20.0
  {
    hide MonomialMean, Mul, WeightedRow;
    var w := (i: nat, j: nat) => MonomialMean(Pair(4, i, j));
    forall i: nat | i < 4
      ensures WeightedRow(w, x[i], i, y, 4) == (Mul(x[i], Total(y, 4)) + Mul(x[i], y[i])) / 20.0
    {
      RowOfMeans(4, x[i], i, y, 4);
      UnitOut(4, Mul(x[i], Total(y, 4)) + Mul(x[i], y[i]));
    }
    assert Total(y, 1) == y[0] && Total(y, 2) == y[0] + y[1] && Total(y, 3) == y[0] + y[1] + y[2];
    assert Total(y, 4) == y[0] + y[1] + y[2] + y[3];
    assert WeightedPairs(w, x, y, 1) == WeightedPairs(w, x, y, 0) + WeightedRow(w, x[0], 0, y, 4);
    assert WeightedPairs(w, x, y, 2) == WeightedPairs(w, x, y, 1) + WeightedRow(w, x[1], 1, y, 4);
    assert WeightedPairs(w, x, y, 3) == WeightedPairs(w, x, y, 2) + WeightedRow(w, x[2], 2, y, 4);
    assert WeightedPairs(w, x, y, 4) == WeightedPairs(w, x, y, 3) + WeightedRow(w, x[3], 3, y, 4);
    Distributes(x[0], x[1], x[2], x[3], Total(y, 4));
  }

  // ---------------------------------------------------------------- triangles

  function Xs(t: Triangle): seq<real>
    requires |t.p| == 3
  {
    [t.p[0].x, t.p[1].x, t.p[2].x]
  }

  function Ys(t: Triangle): seq<real>
    requires |t.p| == 3
  {
    [t.p[0].y, t.p[1].y, t.p[2].y]
  }

  /** The mean of a quadratic polynomial over a triangle: its integral divided by the area. */
  function TriangleMean(t: Triangle, poly: seq<real>): real
    requires |t.p| == 3 && |poly| == 6
  {
    poly[0] + Mul(poly[1], Mean1(Xs(t))) + Mul(poly[2], Mean1(Ys(t)))
    + Mul(poly[3], Mean2(Xs(t), Xs(t))) + Mul(poly[4], Mean2(Xs(t), Ys(t))) + Mul(poly[5], Mean2(Ys(t), Ys(t)))
  }

  /** The mean of products over the midpoints of the sides is their mean over the triangle. */
  lemma ProductAtMidpoints(x: seq<real>, y: seq<real>)
    requires |x| == |y| == 3
    ensures Mul((x[0] + x[1]) / 2.0, (y[0] + y[1]) / 2.0) + Mul((x[1] + x[2]) / 2.0, (y[1] + y[2]) / 2.0)
            + Mul((x[2] + x[0]) / 2.0, (y[2] + y[0]) / 2.0) == 3.0 * Mean2(x, y)
  {
    hide Mean2;
    Mean2OfThree(x, y);
    HalfSums(x[0], x[1], y[0], y[1]);
    HalfSums(x[1], x[2], y[1], y[2]);
    HalfSums(x[2], x[0], y[2], y[0]);
    NineProducts(x[0], x[1], x[2], y[0], y[1], y[2]);
  }

  lemma HalfSums(a: real, b: real, c: real, d: real)
    ensures Mul((a + b) / 2.0, (c + d) / 2.0) == (Mul(a, c) + Mul(a, d) + Mul(b, c) + Mul(b, d)) / 4.0
  {
  }

  lemma NineProducts(a: real, b: real, c: real, p: real, q: real, r: real)
    ensures Mul(a + b + c, p + q + r)
         == Mul(a, p) + Mul(a, q) + Mul(a, r) + Mul(b, p) + Mul(b, q) + Mul(b, r) + Mul(c, p) + Mul(c, q) + Mul(c, r)
  {
  }

  /** The value of a polynomial in a point, its monomials apart. */
  lemma ValueOf(poly: seq<real>, p: V2)
    requires |poly| == 6
    ensures PolynomValue(poly, p)
         == poly[0] + Mul(poly[1], p.x) + Mul(poly[2], p.y) + Mul(poly[3], Mul(p.x, p.x)) + Mul(poly[4], Mul(p.x, p.y))
            + Mul(poly[5], Mul(p.y, p.y))
  {
    assert poly[3] * p.x * p.x == poly[3] * (p.x * p.x);
    assert poly[4] * p.x * p.y == poly[4] * (p.x * p.y);
    assert poly[5] * p.y * p.y == poly[5] * (p.y * p.y);
  }

  /** In a point with barycentric coordinates `l`; the mean has the means of the monomials in the place of the monomials. */
  lemma ValueInCoordinates(t: Triangle, poly: seq<real>, l: nat -> real, p: V2)
    requires |t.p| == 3 && |poly| == 6 && p.x == Weighted(l, Xs(t), 3) && p.y == Weighted(l, Ys(t), 3)
    ensures var w, x, y := (a: nat, b: nat) => Mul(l(a), l(b)), Xs(t), Ys(t);
            PolynomValue(poly, p)
            == poly[0] + Mul(poly[1], Weighted(l, x, 3)) + Mul(poly[2], Weighted(l, y, 3)) + Mul(poly[3], WeightedPairs(w, x, x, 3))
               + Mul(poly[4], WeightedPairs(w, x, y, 3)) + Mul(poly[5], WeightedPairs(w, y, y, 3))
  {
    hide PolynomValue, Mul, Weighted, WeightedPairs;
    ValueOf(poly, p);
    ProductExpands(l, Xs(t), Xs(t), 3);
    ProductExpands(l, Xs(t), Ys(t), 3);
    ProductExpands(l, Ys(t), Ys(t), 3);
  }

  lemma ThreeTimes(c: real, a: real, b: real, d: real, m: real)
    requires a + b + d == 3.0 * m
    ensures Mul(c, a) + Mul(c, b) + Mul(c, d) == 3.0 * Mul(c, m)
  {
    assert c * a + c * b + c * d == c * (3.0 * m);
  }

  /** The midpoint rule gives the exact mean of every quadratic polynomial over every triangle. */
  lemma MidpointRuleExact(t: Triangle, poly: seq<real>)
    requires |t.p| == 3 && |poly| == 6
    ensures (PolynomValue(poly, t.Midpoint(0)) + PolynomValue(poly, t.Midpoint(1)) + PolynomValue(poly, t.Midpoint(2))) / 3.0
         == TriangleMean(t, poly)
  {
    hide PolynomValue, Mul, Mean1, Mean2;
    var x, y, a, b, c := Xs(t), Ys(t), t.Midpoint(0), t.Midpoint(1), t.Midpoint(2);
    ValueOf(poly, a);
    ValueOf(poly, b);
    ValueOf(poly, c);
    Mean1OfThree(x);
    Mean1OfThree(y);
    ThreeTimes(poly[1], a.x, b.x, c.x, Mean1(x));
    ThreeTimes(poly[2], a.y, b.y, c.y, Mean1(y));
    ProductAtMidpoints(x, x);
    ProductAtMidpoints(x, y);
    ProductAtMidpoints(y, y);
    ThreeTimes(poly[3], Mul(a.x, a.x), Mul(b.x, b.x), Mul(c.x, c.x), Mean2(x, x));
    ThreeTimes(poly[4], Mul(a.x, a.y), Mul(b.x, b.y), Mul(c.x, c.y), Mean2(x, y));
    ThreeTimes(poly[5], Mul(a.y, a.y), Mul(b.y, b.y), Mul(c.y, c.y), Mean2(y, y));
  }

  /** So an entry of the local matrix is the integral of the product of its basis functions. */
  lemma TriangleEntryIsIntegral(t: Triangle, a: Tensor2, measure: real, scale: real, i: nat, j: nat)
    requires t.Valid() && i < 3 && j < 3
    ensures TriangleEntry(t, a, measure, scale, i, j)
         == scale * Basis(t, i).gama * Basis(t, j).gama * (measure * TriangleMean(t, CalcPolynom(Basis(t, i), Basis(t, j), a)))
  {
    hide Basis, PolynomValue, CalcPolynom, TriangleMean;
    var poly := CalcPolynom(Basis(t, i), Basis(t, j), a);
    MidpointRuleExact(t, poly);
    ThirdOut(scale * Basis(t, i).gama * Basis(t, j).gama, measure, MidpointSum(t, a, i, j));
  }

  lemma ThirdOut(q: real, m: real, s: real)
    ensures q * m * s / 3.0 == q * (m * (s / 3.0))
  {
    assert q * m * s / 3.0 == q * m * (s / 3.0);
  }

  // ---------------------------------------------------------------- tetrahedra

  function Xs3(e: Tetrahedron): seq<real>
    requires |e.p| == 4
  {
    [e.p[0].x, e.p[1].x, e.p[2].x, e.p[3].x]
  }

  function Ys3(e: Tetrahedron): seq<real>
    requires |e.p| == 4
  {
    [e.p[0].y, e.p[1].y, e.p[2].y, e.p[3].y]
  }

  function Zs3(e: Tetrahedron): seq<real>
    requires |e.p| == 4
  {
    [e.p[0].z, e.p[1].z, e.p[2].z, e.p[3].z]
  }

  /** The mean of a quadratic polynomial over a tetrahedron. */
  function TetrahedronMean(e: Tetrahedron, poly: seq<real>): real
    requires |e.p| == 4 && |poly| == 10
  {
    var x, y, z := Xs3(e), Ys3(e), Zs3(e);
    poly[0] + Mul(poly[1], Mean1(x)) + Mul(poly[2], Mean1(y)) + Mul(poly[3], Mean1(z))
    + Mul(poly[4], Mean2(x, y)) + Mul(poly[5], Mean2(x, z)) + Mul(poly[6], Mean2(y, z))
    + Mul(poly[7], Mean2(x, x)) + Mul(poly[8], Mean2(y, y)) + Mul(poly[9], Mean2(z, z))
  }

  /** Coordinates relative to their mean. */
  function Arms(x: seq<real>): (d: seq<real>)
    requires |x| == 4
    ensures |d| == 4
  {
    var t := (x[0] + x[1] + x[2] + x[3]) / 4.0;
    [x[0] - t, x[1] - t, x[2] - t, x[3] - t]
  }

  /** The product of the means and a twentieth of the second moment. */
  lemma ProductByMoments(c: real, x: seq<real>, y: seq<real>)
    requires |x| == |y| == 4
    ensures var p, q := (x[0] + x[1] + x[2] + x[3]) / 4.0, (y[0] + y[1] + y[2] + y[3]) / 4.0;
            Term(c, p, q) + Mul(c, Four(Arms(x), Arms(y))) / 20.0 == Mul(c, Mean2(x, y))
  {
    hide Mean2;
    var p, q := (x[0] + x[1] + x[2] + x[3]) / 4.0, (y[0] + y[1] + y[2] + y[3]) / 4.0;
    Mean2OfFour(x, y);
    FourArms(x, y, p, q);
    assert Mul(4.0 * p, 4.0 * q) == 16.0 * Mul(p, q);
    assert Mean2(x, y) == Mul(p, q) + Four(Arms(x), Arms(y)) / 20.0;
    TermAndMoment(c, p, q, Four(Arms(x), Arms(y)), Mean2(x, y));
  }

  lemma TermAndMoment(c: real, p: real, q: real, s: real, m: real)
    requires m == Mul(p, q) + s / 20.0
    ensures Term(c, p, q) + Mul(c, s) / 20.0 == Mul(c, m)
  {
    assert c * p * q == c * (p * q);
    assert c * m == c * (p * q) + c * (s / 20.0);
  }

  lemma FourArms(x: seq<real>, y: seq<real>, p: real, q: real)
    requires |x| == |y| == 4 && 4.0 * p == x[0] + x[1] + x[2] + x[3] && 4.0 * q == y[0] + y[1] + y[2] + y[3]
    ensures Four(Arms(x), Arms(y)) == Four(x, y) - 4.0 * Mul(p, q)
  {
    OneArm(x[0], y[0], p, q);
    OneArm(x[1], y[1], p, q);
    OneArm(x[2], y[2], p, q);
    OneArm(x[3], y[3], p, q);
    Distributes(x[0], x[1], x[2], x[3], q);
    Distributes(y[0], y[1], y[2], y[3], p);
    assert Mul(4.0 * p, q) == 4.0 * Mul(p, q) && Mul(4.0 * q, p) == 4.0 * Mul(p, q);
  }

  lemma OneArm(x: real, y: real, p: real, q: real)
    ensures (x - p) * (y - q) == Mul(x, y) - Mul(x, q) - Mul(y, p) + Mul(p, q)
  {
  }

  /** The integral over a tetrahedron is exact for every quadratic polynomial. */
  lemma IntegralExact(e: Tetrahedron, poly: seq<real>)
    requires |e.p| == 4 && |poly| == 10
    ensures PolynomIntegral(e, poly) == e.measure * TetrahedronMean(e, poly)
  {
    hide PolynomIntegral, Mul, Term, Mean1, Mean2, Four;
    var x, y, z, t := Xs3(e), Ys3(e), Zs3(e), e.Centre();
    IntegralIsMoments(e, poly);
    Mean1OfFour(x);
    Mean1OfFour(y);
    Mean1OfFour(z);
    assert ArmsX(e) == Arms(x) && ArmsY(e) == Arms(y) && ArmsZ(e) == Arms(z);
    ProductByMoments(poly[4], x, y);
    ProductByMoments(poly[5], x, z);
    ProductByMoments(poly[6], y, z);
    ProductByMoments(poly[7], x, x);
    ProductByMoments(poly[8], y, y);
    ProductByMoments(poly[9], z, z);
    assert PolynomValue3(poly, t) + Moments(e, poly) / 20.0 == TetrahedronMean(e, poly);
    MulIs(e.measure, TetrahedronMean(e, poly));
  }

  /** So an entry of the local matrix of a tetrahedron is an integral, too. */
  lemma TetrahedronEntryIsIntegral(e: Tetrahedron, a: Tensor3, scale: real, i: nat, j: nat)
    requires e.Valid() && i < 4 && j < 4
    ensures TetrahedronEntry(e, a, scale, i, j)
         == scale * Delta(e, i) * Delta(e, j) * (e.measure * TetrahedronMean(e, CalcPolynom3(e.p[i], e.p[j], a)))
  {
    hide Delta, CalcPolynom3, TetrahedronMean, PolynomIntegral, Face.Height;
    IntegralExact(e, CalcPolynom3(e.p[i], e.p[j], a));
  }

  lemma MulIs(a: real, b: real)
    ensures Mul(a, b) == a * b
  {
  }
}
