/** Surface splines over exact reals: their polynomial part, and the one sum that evaluating one computes. */
module SplineEval {
  import opened Primitives
  import RealAlgebra

  type Point = (real, real)

  /** A normalization `(x0, y0, r0)`, nodes already normalized, and one coefficient for each feature. */
  datatype Spline = Spline(normalization: (real, real, real), nodes: seq<Point>, coefficients: seq<real>,
                           shape: Option<real>)

  datatype SplinePair = SplinePair(x: Spline, y: Spline)

  /** What a direction's splines have in common, with the functions the source takes from elsewhere. */
  datatype Kernel = Kernel(basis: (real, int, real) -> real, sqrt: real -> real, hypot: (real, real) -> real,
                           order: int, polynomial: bool)

  function Pow(x: real, n: nat): real { if n == 0 then 1.0 else x * Pow(x, n - 1) }

  // -------------------------------------------------- monomials

  /** How many monomials have degree below `m`. */
  function Triangle(m: nat): nat { if m == 0 then 0 else Triangle(m - 1) + m }

  lemma {:induction false} TriangleIs(m: nat)
    ensures 2 * Triangle(m) == m * (m + 1) && Triangle(m) == m * (m + 1) / 2
  {
    if m > 0 {
      TriangleIs(m - 1);
    }
  }

  /** `m(m + 1)/2`, or none when there is no polynomial part. */
  function PolynomialTerms(order: int, polynomial: bool): nat
  {
    if !polynomial || order < 1 then 0
    else
      TriangleIs(order);
      order * (order + 1) / 2
  }

  /** Where the monomial of degree `d` and power `k` of eta comes. */
  function MonomialIndex(d: nat, k: nat): nat { Triangle(d) + k }

  lemma {:induction false} TriangleGrows(m: nat, n: nat)
    requires m <= n
    ensures Triangle(m) <= Triangle(n)
    decreases n
  {
    if m < n {
      TriangleGrows(m, n - 1);
    }
  }

  /** The index of a monomial of degree below `m` is below the number of those. */
  lemma {:induction false} IndexFits(d: nat, k: nat, m: nat)
    requires k <= d < m
    ensures MonomialIndex(d, k) < Triangle(m)
  {
    TriangleGrows(d + 1, m);
  }

  /** Every index is that of one monomial, and of one only. */
  lemma {:induction false} MonomialAt(j: nat, m: nat) returns (d: nat, k: nat)
    requires j < Triangle(m)
    ensures k <= d < m && MonomialIndex(d, k) == j
    ensures forall d': nat, k': nat :: k' <= d' && MonomialIndex(d', k') == j ==> d' == d && k' == k
  {
    if j < Triangle(m - 1) {
      d, k := MonomialAt(j, m - 1);
    } else {
      d, k := m - 1, j - Triangle(m - 1);
      forall d': nat, k': nat | k' <= d' && MonomialIndex(d', k') == j
        ensures d' == d && k' == k
      {
        if d' < d {
          TriangleGrows(d' + 1, d);
        } else if d < d' {
          TriangleGrows(d + 1, d');
        }
      }
    }
  }

  function Monomial(xi: real, eta: real, d: nat, k: nat): real
    requires k <= d
  {
    Pow(xi, d - k) * Pow(eta, k)
  }

  /** The monomials up to power `k` of eta in degree `d`, after all those of lower degree. */
  ghost predicate MonomialsUpTo(out: seq<real>, xi: real, eta: real, d: nat, k: nat)
  {
    |out| == MonomialIndex(d, k)
    && forall d': nat, k': nat :: k' <= d' && MonomialIndex(d', k') < |out| ==>
       out[MonomialIndex(d', k')] == Monomial(xi, eta, d', k')
  }

  /** The polynomial part at a point: by total degree, and within a degree by descending power of xi. */
  method Monomials(xi: real, eta: real, order: int) returns (out: seq<real>)
    ensures |out| == PolynomialTerms(order, true)
    ensures forall d: nat, k: nat :: k <= d < order ==>
      MonomialIndex(d, k) < |out| && out[MonomialIndex(d, k)] == Monomial(xi, eta, d, k)
  {
    out := [];
    if order < 1 {
      return;
    }
    for degree := 0 to order
      invariant MonomialsUpTo(out, xi, eta, degree, 0)
    {
      for k := 0 to degree + 1
        invariant MonomialsUpTo(out, xi, eta, degree, k)
      {
        NextMonomial(out, xi, eta, degree, k);
        out := out + [Pow(xi, degree - k) * Pow(eta, k)];
      }
      assert MonomialIndex(degree, degree + 1) == MonomialIndex(degree + 1, 0);
    }
    TriangleIs(order);
    forall d: nat, k: nat | k <= d < order
      ensures MonomialIndex(d, k) < |out|
    {
      IndexFits(d, k, order);
    }
  }

  lemma {:induction false} NextMonomial(out: seq<real>, xi: real, eta: real, d: nat, k: nat)
    requires k <= d && MonomialsUpTo(out, xi, eta, d, k)
    ensures MonomialsUpTo(out + [Pow(xi, d - k) * Pow(eta, k)], xi, eta, d, k + 1)
  {
    var next := out + [Pow(xi, d - k) * Pow(eta, k)];
    forall d': nat, k': nat | k' <= d' && MonomialIndex(d', k') < |next|
      ensures next[MonomialIndex(d', k')] == Monomial(xi, eta, d', k')
    {
      if MonomialIndex(d', k') == |out| {
        IndexFits(d, k, d + 1);
        var e, l := MonomialAt(|out|, d + 1);
      }
    }
  }

  /** The values those monomials take, as one sequence. */
  ghost function MonomialValues(xi: real, eta: real, order: int): (values: seq<real>)
    ensures |values| == PolynomialTerms(order, true)
  {
    seq(PolynomialTerms(order, true),
        j requires 0 <= j < PolynomialTerms(order, true) => MonomialValue(xi, eta, j, order))
  }

  ghost function MonomialValue(xi: real, eta: real, j: nat, order: nat): real
    requires j < PolynomialTerms(order, true)
  {
    TriangleIs(order);
    var p := DegreeAndPower(j, order);
    Monomial(xi, eta, p.0, p.1)
  }

  /** The degree and the power of eta of the monomial at an index. */
  function DegreeAndPower(j: nat, m: nat): (p: (nat, nat))
    requires j < Triangle(m)
    ensures p.1 <= p.0 < m && MonomialIndex(p.0, p.1) == j
  {
    if j < Triangle(m - 1) then DegreeAndPower(j, m - 1) else (m - 1, j - Triangle(m - 1))
  }

  lemma {:induction false} MonomialsAre(xi: real, eta: real, order: int, out: seq<real>)
    requires |out| == PolynomialTerms(order, true)
    requires forall d: nat, k: nat :: k <= d < order ==>
      MonomialIndex(d, k) < |out| && out[MonomialIndex(d, k)] == Monomial(xi, eta, d, k)
    ensures out == MonomialValues(xi, eta, order)
  {
    forall j | 0 <= j < |out|
      ensures out[j] == MonomialValues(xi, eta, order)[j]
    {
      TriangleIs(order);
      var p := DegreeAndPower(j, order);
      assert MonomialIndex(p.0, p.1) == j;
    }
  }

  // -------------------------------------------------- evaluation

  /** The sum of the first `k` products, term by term. */
  function Dot(a: seq<real>, b: seq<real>, k: nat): real
    requires k <= |a| && k <= |b|
  {
    if k == 0 then 0.0 else Dot(a, b, k - 1) + a[k - 1] * b[k - 1]
  }

  /** A point in a spline's own coordinates. */
  function Normalized(n: (real, real, real), point: Point): Point
  {
    (RealAlgebra.Times(n.2, point.0 - n.0), RealAlgebra.Times(n.2, point.1 - n.1))
  }

  function SumOfSquares(dx: real, dy: real): real { dx * dx + dy * dy }

  /** The kernel's value at the distance of a node, both in the spline's own coordinates. */
  function RadialValue(node: Point, shape: Option<real>, q: Point, kernel: Kernel): real
  {
    kernel.basis(kernel.sqrt(SumOfSquares(q.0 - node.0, q.1 - node.1)), kernel.order, shape.GetOr(0.0))
  }

  function RadialValues(nodes: seq<Point>, shape: Option<real>, q: Point, kernel: Kernel): (values: seq<real>)
    ensures |values| == |nodes|
    ensures forall k :: 0 <= k < |nodes| ==> values[k] == RadialValue(nodes[k], shape, q, kernel)
  {
    seq(|nodes|, k requires 0 <= k < |nodes| => RadialValue(nodes[k], shape, q, kernel))
  }

  /** What evaluation sums: the coefficients against the radial values, and those left over against the monomials. */
  ghost function Evaluated(s: Spline, point: Point, kernel: Kernel): real
  {
    var q := Normalized(s.normalization, point);
    var radial := Min(|s.nodes|, |s.coefficients|);
    var rest := s.coefficients[radial..];
    var monomials := if kernel.polynomial then MonomialValues(q.0, q.1, kernel.order) else [];
    Dot(s.coefficients, RadialValues(s.nodes, s.shape, q, kernel), radial)
      + Dot(rest, monomials, Min(|rest|, |monomials|))
  }

  /** The radial sum at normalized coordinates. */
  method SumRadial(s: Spline, q: Point, kernel: Kernel) returns (value: real)
    ensures value == Dot(s.coefficients, RadialValues(s.nodes, s.shape, q, kernel), Min(|s.nodes|, |s.coefficients|))
  {
    hide SumOfSquares;
    var epsilon := s.shape.GetOr(0.0);
    ghost var radial := RadialValues(s.nodes, s.shape, q, kernel);
    value := 0.0;
    for k := 0 to Min(|s.nodes|, |s.coefficients|)
      invariant value == Dot(s.coefficients, radial, k)
    {
      var dx := q.0 - s.nodes[k].0;
      var dy := q.1 - s.nodes[k].1;
      var phi := kernel.basis(kernel.sqrt(SumOfSquares(dx, dy)), kernel.order, epsilon);
      value := value + s.coefficients[k] * phi;
    }
  }

  /** A sum carried on from a value already reached. */
  method AddProducts(start: real, a: seq<real>, b: seq<real>) returns (value: real)
    ensures value == start + Dot(a, b, Min(|a|, |b|))
  {
    value := start;
    for j := 0 to Min(|a|, |b|)
      invariant value == start + Dot(a, b, j)
    {
      value := value + a[j] * b[j];
    }
  }

  method Eval(s: Spline, point: Point, kernel: Kernel) returns (value: real)
    ensures value == Evaluated(s, point, kernel)
  {
    var q := Normalized(s.normalization, point);
    value := SumRadial(s, q, kernel);
    var scratch := [];
    if kernel.polynomial {
      scratch := Monomials(q.0, q.1, kernel.order);
      MonomialsAre(q.0, q.1, kernel.order, scratch);
    }
    value := AddProducts(value, s.coefficients[Min(|s.nodes|, |s.coefficients|)..], scratch);
  }

  /** The length check: one coefficient a node, then one a monomial. */
  predicate LengthHolds(s: Spline, kernel: Kernel)
  {
    |s.coefficients| == |s.nodes| + PolynomialTerms(kernel.order, kernel.polynomial)
  }

  /** The functions a spline combines: one a node, then the monomials in order. */
  ghost function Features(s: Spline, point: Point, kernel: Kernel): (values: seq<real>)
    ensures |values| == |s.nodes| + PolynomialTerms(kernel.order, kernel.polynomial)
  {
    var q := Normalized(s.normalization, point);
    RadialValues(s.nodes, s.shape, q, kernel) + if kernel.polynomial then MonomialValues(q.0, q.1, kernel.order) else []
  }

  lemma {:induction false} DotSplits(c: seq<real>, f: seq<real>, g: seq<real>, k: nat)
    requires |f| <= |c| && k <= |g| && |f| + k <= |c|
    ensures Dot(c, f + g, |f| + k) == Dot(c, f, |f|) + Dot(c[|f|..], g, k)
  {
    if k == 0 {
      DotPrefix(c, f, g, |f|);
    } else {
      DotSplits(c, f, g, k - 1);
    }
  }

  lemma {:induction false} DotPrefix(c: seq<real>, f: seq<real>, g: seq<real>, k: nat)
    requires k <= |f| && k <= |c|
    ensures Dot(c, f + g, k) == Dot(c, f, k)
  {
    if k > 0 {
      DotPrefix(c, f, g, k - 1);
    }
  }

  /** Under the length check, evaluation is the coefficients against the features, each with its own. */
  lemma {:induction false} EvaluatedIsSum(s: Spline, point: Point, kernel: Kernel)
    requires LengthHolds(s, kernel)
    ensures Evaluated(s, point, kernel) == Dot(s.coefficients, Features(s, point, kernel), |s.coefficients|)
  {
    hide Dot;
    hide RadialValues;
    hide MonomialValues;
    hide Normalized;
    var q := Normalized(s.normalization, point);
    var monomials := if kernel.polynomial then MonomialValues(q.0, q.1, kernel.order) else [];
    DotSplits(s.coefficients, RadialValues(s.nodes, s.shape, q, kernel), monomials, |monomials|);
  }

  lemma {:induction false} DotChanged(c: seq<real>, f: seq<real>, j: nat, delta: real, k: nat)
    requires j < |c| && k <= |c| && k <= |f|
    ensures Dot(c[j := c[j] + delta], f, k) == Dot(c, f, k) + if j < k then delta * f[j] else 0.0
  {
    if k > 0 {
      DotChanged(c, f, j, delta, k - 1);
      assert k - 1 == j ==> (c[j] + delta) * f[j] == c[j] * f[j] + delta * f[j];
    }
  }

  /**
    No coefficient is dropped or misaligned: changing any one changes the value by that much of its
    own feature, a node's radial function or a monomial.
   */
  lemma {:induction false} EveryCoefficientCounts(s: Spline, point: Point, kernel: Kernel, j: nat, delta: real)
    requires LengthHolds(s, kernel) && j < |s.coefficients|
    ensures Evaluated(s.(coefficients := s.coefficients[j := s.coefficients[j] + delta]), point, kernel)
         == Evaluated(s, point, kernel) + RealAlgebra.Times(delta, Features(s, point, kernel)[j])
  {
    var c, f := s.coefficients[j := s.coefficients[j] + delta], Features(s, point, kernel);
    EvaluatedIsSum(s, point, kernel);
    ChangedIsSum(s, point, kernel, c);
    ChangeAdds(Evaluated(s, point, kernel), Evaluated(s.(coefficients := c), point, kernel), s.coefficients, f, j,
               delta);
  }

  lemma {:induction false} ChangeAdds(before: real, after: real, c: seq<real>, f: seq<real>, j: nat, delta: real)
    requires j < |c| == |f| && before == Dot(c, f, |c|) && after == Dot(c[j := c[j] + delta], f, |c|)
    ensures after == before + RealAlgebra.Times(delta, f[j])
  {
    DotChanged(c, f, j, delta, |c|);
  }

  lemma {:induction false} ChangedIsSum(s: Spline, point: Point, kernel: Kernel, c: seq<real>)
    requires LengthHolds(s, kernel) && |c| == |s.coefficients|
    ensures Evaluated(s.(coefficients := c), point, kernel) == Dot(c, Features(s, point, kernel), |c|)
  {
    var changed := s.(coefficients := c);
    EvaluatedIsSum(changed, point, kernel);
    assert Features(changed, point, kernel) == Features(s, point, kernel);
  }

  /**
    Which monomial a coefficient multiplies: those of degree `d` follow the nodes and the `d(d + 1)/2` of lower
    degree, by descending power of the scaled distance from `x0`.
   */
  lemma {:induction false} FeatureIs(s: Spline, point: Point, kernel: Kernel, d: nat, k: nat, xi: real, eta: real)
    requires kernel.polynomial && k <= d < kernel.order
    requires var (x0, y0, r0) := s.normalization; xi == r0 * (point.0 - x0) && eta == r0 * (point.1 - y0)
    ensures var j := |s.nodes| + d * (d + 1) / 2 + k;
      j < |Features(s, point, kernel)| && Features(s, point, kernel)[j] == Pow(xi, d - k) * Pow(eta, k)
  {
    TriangleIs(d);
    MonomialValueIs(xi, eta, kernel.order, d, k);
    CoordinatesAre(s.normalization, point, xi, eta);
    hide Pow;
    hide Normalized;
    hide MonomialValues;
    hide PolynomialTerms;
    FeatureAfterNodes(s, point, kernel, MonomialIndex(d, k));
  }

  lemma {:induction false} CoordinatesAre(n: (real, real, real), point: Point, xi: real, eta: real)
    requires xi == n.2 * (point.0 - n.0) && eta == n.2 * (point.1 - n.1)
    ensures Normalized(n, point) == (xi, eta)
  {
    assert xi == RealAlgebra.Times(n.2, point.0 - n.0) && eta == RealAlgebra.Times(n.2, point.1 - n.1);
  }

  lemma {:induction false} FeatureAfterNodes(s: Spline, point: Point, kernel: Kernel, j: nat)
    requires kernel.polynomial && j < PolynomialTerms(kernel.order, true)
    ensures var q := Normalized(s.normalization, point);
      Features(s, point, kernel)[|s.nodes| + j] == MonomialValues(q.0, q.1, kernel.order)[j]
  {
    hide RadialValues;
    hide MonomialValues;
    hide PolynomialTerms;
    hide Normalized;
  }

  lemma {:induction false} MonomialValueIs(xi: real, eta: real, order: nat, d: nat, k: nat)
    requires k <= d < order
    ensures MonomialIndex(d, k) < PolynomialTerms(order, true)
    ensures MonomialValues(xi, eta, order)[MonomialIndex(d, k)] == Pow(xi, d - k) * Pow(eta, k)
  {
    hide Pow;
    hide Triangle;
    TriangleIs(order);
    IndexFits(d, k, order);
    OneDegreeAndPower(d, k, order);
  }

  lemma {:induction false} OneDegreeAndPower(d: nat, k: nat, m: nat)
    requires k <= d < m && MonomialIndex(d, k) < Triangle(m)
    ensures DegreeAndPower(MonomialIndex(d, k), m) == (d, k)
  {
    hide MonomialIndex;
    hide Triangle;
    var d', k' := MonomialAt(MonomialIndex(d, k), m);
  }

  /** Which radial function: the kernel at the distance of the coefficient's node, in scaled coordinates. */
  lemma {:induction false} NodeFeatureIs(s: Spline, point: Point, kernel: Kernel, i: nat, dx: real, dy: real)
    requires i < |s.nodes|
    requires var (x0, y0, r0) := s.normalization;
      dx == r0 * (point.0 - x0) - s.nodes[i].0 && dy == r0 * (point.1 - y0) - s.nodes[i].1
    ensures Features(s, point, kernel)[i]
         == kernel.basis(kernel.sqrt(dx * dx + dy * dy), kernel.order, s.shape.GetOr(0.0))
  {
    hide MonomialValues;
    assert SumOfSquares(dx, dy) == dx * dx + dy * dy;
    hide SumOfSquares;
    var q := Normalized(s.normalization, point);
    assert dx == q.0 - s.nodes[i].0 && dy == q.1 - s.nodes[i].1;
    hide Normalized;
    assert Features(s, point, kernel)[i] == RadialValue(s.nodes[i], s.shape, q, kernel);
  }

  /** A power is a product of as many factors as its exponent says. */
  lemma {:induction false} PowAdds(x: real, m: nat, n: nat)
    ensures Pow(x, 0) == 1.0 && Pow(x, 1) == x
    ensures Pow(x, m + n) == RealAlgebra.Times(Pow(x, m), Pow(x, n))
  {
    assert Pow(x, 1) == x * Pow(x, 0);
    if m > 0 {
      PowAdds(x, m - 1, n);
      RealAlgebra.TimesAssociates(x, Pow(x, m - 1), Pow(x, n));
      assert Pow(x, m) == RealAlgebra.Times(x, Pow(x, m - 1));
      assert Pow(x, m + n) == RealAlgebra.Times(x, Pow(x, m - 1 + n));
    } else {
      RealAlgebra.TimesZero(Pow(x, n));
    }
  }

  /** Only where a point is relative to the origin of a spline's coordinates matters. */
  lemma {:induction false} ShiftInvariant(s: Spline, point: Point, kernel: Kernel, dx: real, dy: real)
    ensures var (x0, y0, r0) := s.normalization;
      Evaluated(s.(normalization := (x0 + dx, y0 + dy, r0)), (point.0 + dx, point.1 + dy), kernel)
      == Evaluated(s, point, kernel)
  {
    hide Dot;
    hide MonomialValues;
    hide RealAlgebra.Times;
    var (x0, y0, r0) := s.normalization;
    assert point.0 + dx - (x0 + dx) == point.0 - x0 && point.1 + dy - (y0 + dy) == point.1 - y0;
    assert Normalized((x0 + dx, y0 + dy, r0), (point.0 + dx, point.1 + dy)) == Normalized(s.normalization, point);
  }

  // -------------------------------------------------- coefficients too few or too many

  /** As many coefficients as there are features: those missing are zero, and those left over are dropped. */
  function Fitted(c: seq<real>, n: nat): (fitted: seq<real>)
    ensures |fitted| == n
  {
    seq(n, j requires 0 <= j < n => if j < |c| then c[j] else 0.0)
  }

  lemma {:induction false} DotFitted(c: seq<real>, f: seq<real>, k: nat)
    requires k <= |f|
    ensures Dot(Fitted(c, |f|), f, k) == Dot(c, f, Min(k, |c|))
  {
    if k > 0 {
      DotFitted(c, f, k - 1);
    }
  }

  /** Evaluating a spline of any length is evaluating the one whose coefficients fit its features. */
  lemma {:induction false} EvaluatedFits(s: Spline, point: Point, kernel: Kernel)
    ensures var f := Features(s, point, kernel);
      Evaluated(s, point, kernel) == Dot(Fitted(s.coefficients, |f|), f, |f|)
  {
    hide Dot;
    hide RadialValues;
    hide MonomialValues;
    hide Normalized;
    var q, c := Normalized(s.normalization, point), s.coefficients;
    var radial := RadialValues(s.nodes, s.shape, q, kernel);
    var monomials := if kernel.polynomial then MonomialValues(q.0, q.1, kernel.order) else [];
    DotFitted(c, radial + monomials, |radial + monomials|);
    if |c| <= |radial| {
      DotPrefix(c, radial, monomials, |c|);
      DotNothing(c[|c|..], monomials);
    } else {
      DotSplits(c, radial, monomials, Min(|c| - |radial|, |monomials|));
    }
  }

  lemma {:induction false} DotNothing(a: seq<real>, b: seq<real>)
    requires a == []
    ensures Dot(a, b, 0) == 0.0
  {
  }

  /** One coefficient alone gives its feature, scaled. */
  lemma {:induction false} SingleCoefficient(s: Spline, point: Point, kernel: Kernel, j: nat)
    requires LengthHolds(s, kernel) && j < |s.coefficients|
    requires forall i :: 0 <= i < |s.coefficients| && i != j ==> s.coefficients[i] == 0.0
    ensures Evaluated(s, point, kernel) == RealAlgebra.Times(s.coefficients[j], Features(s, point, kernel)[j])
  {
    hide Features;
    hide Evaluated;
    EvaluatedIsSum(s, point, kernel);
    DotSingle(s.coefficients, Features(s, point, kernel), j, |s.coefficients|);
  }

  lemma {:induction false} DotSingle(c: seq<real>, f: seq<real>, j: nat, k: nat)
    requires k <= |c| && k <= |f| && j < |c| && j < |f|
    requires forall i :: 0 <= i < |c| && i != j ==> c[i] == 0.0
    ensures Dot(c, f, k) == if j < k then RealAlgebra.Times(c[j], f[j]) else 0.0
  {
    if k > 0 {
      DotSingle(c, f, j, k - 1);
      RealAlgebra.TimesZero(f[k - 1]);
    }
  }
}
