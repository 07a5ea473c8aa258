/** The residual field of a distortion direction, over exact reals. */
module Residual {
  import opened Primitives
  import opened RealAlgebra
  import opened SplineEval
  import DistortionLoading

  datatype FallbackTerm = FallbackTerm(threshold: real, spline: SplinePair)

  datatype Direction = Direction(kernel: Kernel, global: Option<SplinePair>, local: seq<DistortionLoading.LocalTerm>,
                                 fallback: Option<FallbackTerm>)

  ghost predicate NotNegative(hypot: (real, real) -> real)
  {
    forall dx, dy :: hypot(dx, dy) >= 0.0
  }

  /** What loading a direction has checked, and what the length of a vector is. */
  ghost predicate IsSound(d: Direction)
  {
    NotNegative(d.kernel.hypot) && (forall i :: 0 <= i < |d.local| ==> d.local[i].radius > 0.0)
    && (d.fallback.Some? ==> d.fallback.value.threshold > 0.0)
  }

  // -------------------------------------------------- weights

  function Wendland(t: real): real
  {
    if t < 1.0 then
      var u := 1.0 - t;
      Times(Times(Times(Times(u, u), u), u), 4.0 * t + 1.0)
    else 0.0
  }

  /** From one at the centre to zero at the edge, and never outside that range. */
  lemma {:induction false} WendlandRange(t: real)
    requires t >= 0.0
    ensures 0.0 <= Wendland(t) <= 1.0 && (Wendland(t) > 0.0 <==> t < 1.0)
    ensures Wendland(0.0) == 1.0
  {
    if t < 1.0 {
      var u, f := 1.0 - t, 4.0 * t + 1.0;
      WendlandUnfolds(u, f);
      TimesPositive(u, f);
      TimesPositive(u, Times(u, f));
      TimesPositive(u, Times(u, Times(u, f)));
      TimesPositive(u, Times(u, Times(u, Times(u, f))));
      Damped(u, t, 4.0, f);
      Damped(u, t, 3.0, Times(u, f));
      Damped(u, t, 2.0, Times(u, Times(u, f)));
      Damped(u, t, 1.0, Times(u, Times(u, Times(u, f))));
    }
  }

  /** The weight curve multiplied out. */
  lemma {:induction false} WendlandIs(t: real)
    ensures Wendland(t) == if t < 1.0 then 1.0 - 10.0 * t * t + 20.0 * t * t * t - 15.0 * t * t * t * t
                                           + 4.0 * t * t * t * t * t
                           else 0.0
  {
  }

  /** Nearer is heavier: inside the disc the curve falls all the way. */
  lemma {:induction false} WendlandFalls(s: real, t: real)
    requires 0.0 <= s < t <= 1.0
    ensures Wendland(t) < Wendland(s)
  {
    var u, v := 1.0 - t, 1.0 - s;
    var cubes, quarts := Cubes(u, v), Quarts(u, v);
    hide Times;
    CubesLink(u, v);
    QuartsLink(u, v);
    Telescopes(u, v, cubes);
    Telescopes(u, v, quarts);
    CubesWeigh(u, v);
    TimesPositive(v - u, 5.0 * Total(cubes) - 4.0 * Total(quarts));
    TimesCombines(v - u, Total(cubes), Total(quarts));
    WendlandInside(s, v);
    WendlandInside(t, u);
  }

  function Total(ws: seq<real>): real { if ws == [] then 0.0 else Total(ws[..|ws| - 1]) + ws[|ws| - 1] }

  /** The products of three factors, and of four, from all `v` to all `u`. */
  function Cubes(u: real, v: real): seq<real>
  {
    [Times(v, Times(v, v)), Times(u, Times(v, v)), Times(u, Times(u, v)), Times(u, Times(u, u))]
  }

  function Quarts(u: real, v: real): seq<real>
  {
    var cs := Cubes(u, v);
    [Times(v, cs[0]), Times(v, cs[1]), Times(v, cs[2]), Times(v, cs[3]), Times(u, cs[3])]
  }

  /** Each becomes the next when a factor `u` takes the place of a `v`. */
  ghost predicate Linked(u: real, v: real, es: seq<real>)
  {
    forall i :: 0 < i < |es| ==> Times(u, es[i - 1]) == Times(v, es[i])
  }

  lemma {:induction false} CubesLink(u: real, v: real)
    ensures Linked(u, v, Cubes(u, v))
  {
    hide Times;
    Rotate(u, v, Times(v, v));
    Rotate(u, v, Times(u, v));
    Rotate(v, u, v);
    Rotate(v, u, u);
    TimesSwaps(u, v);
    Rotate(u, v, Times(u, u));
  }

  lemma {:induction false} QuartsLink(u: real, v: real)
    ensures Linked(u, v, Quarts(u, v))
  {
    var cs := Cubes(u, v);
    CubesLink(u, v);
    assert |cs| == 4;
    hide Times;
    hide Cubes;
    forall i | 0 <= i < 4
      ensures Times(u, Times(v, cs[i])) == Times(v, Times(u, cs[i]))
    {
      Rotate(u, v, cs[i]);
    }
  }

  lemma {:induction false} Telescopes(u: real, v: real, es: seq<real>)
    requires es != [] && Linked(u, v, es)
    ensures Times(v - u, Total(es)) == Times(v, es[0]) - Times(u, es[|es| - 1])
  {
    var n := |es| - 1;
    var before := es[..n];
    TimesDiffers(v, u, es[n]);
    if n == 0 {
      assert Total(before) == 0.0;
    } else {
      Telescopes(u, v, before);
      TimesAdds(v - u, Total(before), es[n]);
    }
  }

  lemma {:induction false} TimesDiffers(v: real, u: real, x: real)
    ensures Times(v - u, x) == Times(v, x) - Times(u, x)
  {
  }

  lemma {:induction false} TimesCombines(a: real, x: real, y: real)
    ensures Times(a, 5.0 * x - 4.0 * y) == 5.0 * Times(a, x) - 4.0 * Times(a, y)
  {
  }

  lemma {:induction false} WendlandInside(t: real, u: real)
    requires 0.0 <= t <= 1.0 && u == 1.0 - t
    ensures var quart := Times(u, Times(u, Times(u, u))); Wendland(t) == 5.0 * quart - 4.0 * Times(u, quart)
  {
  }

  /** Fewer than a fifth of the cubes is lost to a further factor of at most one. */
  lemma {:induction false} CubesWeigh(u: real, v: real)
    requires 0.0 <= u < v <= 1.0
    ensures 5.0 * Total(Cubes(u, v)) > 4.0 * Total(Quarts(u, v))
  {
    var cs, qs := Cubes(u, v), Quarts(u, v);
    CubesOrdered(u, v);
    assert |cs| == 4 && |qs| == 5 && qs[4] == Times(u, cs[3]) && forall i :: 0 <= i < 4 ==> qs[i] == Times(v, cs[i]);
    hide Cubes;
    hide Quarts;
    hide Times;
    forall i | 0 <= i < 4
      ensures qs[i] <= cs[i]
    {
      Shrinks(v, cs[i]);
    }
    Shrinks(u, cs[3]);
    TotalOfFour(cs);
    TotalOfFive(qs);
  }

  lemma {:induction false} CubesOrdered(u: real, v: real)
    requires 0.0 <= u < v
    ensures var cs := Cubes(u, v); 0.0 <= cs[3] < cs[0] && cs[3] <= cs[1] && cs[3] <= cs[2]
    ensures forall c <- Cubes(u, v) :: c >= 0.0
  {
    hide Times;
    var uu, uv, vv := Times(u, u), Times(u, v), Times(v, v);
    TimesNotNegative(u, u);
    TimesMonotone(u, u, v);
    TimesMonotone(v, u, v);
    TimesSwaps(u, v);
    TimesPositive(v, v);
    TimesMonotone(u, uu, uv);
    TimesMonotone(u, uu, vv);
    TimesNotNegative(u, uu);
    TimesPositive(v - u, vv);
    TimesDiffers(v, u, vv);
  }

  lemma {:induction false} Shrinks(u: real, a: real)
    requires a >= 0.0 && u <= 1.0
    ensures Times(u, a) <= a
  {
    hide Times;
    TimesMonotone(a, u, 1.0);
    TimesSwaps(u, a);
    TimesZero(a);
  }

  lemma {:induction false} TotalOfFour(es: seq<real>)
    requires |es| == 4
    ensures Total(es) == es[0] + es[1] + es[2] + es[3]
  {
    var three, two, one := es[..3], es[..2], es[..1];
    assert three[..2] == two && two[..1] == one && one[..0] == [];
    assert Total(one) == es[0] && Total(two) == Total(one) + es[1] && Total(three) == Total(two) + es[2];
  }

  lemma {:induction false} TotalOfFive(es: seq<real>)
    requires |es| == 5
    ensures Total(es) == es[0] + es[1] + es[2] + es[3] + es[4]
  {
    TotalOfFour(es[..4]);
  }

  lemma {:induction false} WendlandUnfolds(u: real, f: real)
    ensures Times(Times(Times(Times(u, u), u), u), f) == Times(u, Times(u, Times(u, Times(u, f))))
  {
    TimesAssociates(Times(Times(u, u), u), u, f);
    TimesAssociates(Times(u, u), u, Times(u, f));
    TimesAssociates(u, u, Times(u, Times(u, f)));
  }

  /** A factor of `1 - t` takes one `t` off a bound that is linear in `t`. */
  lemma {:induction false} Damped(u: real, t: real, k: real, f: real)
    requires 0.0 <= t <= 1.0 && u == 1.0 - t && k >= 0.0 && f <= 1.0 + k * t
    ensures Times(u, f) <= 1.0 + (k - 1.0) * t
  {
    TimesMonotone(u, f, 1.0 + k * t);
    TimesAdds(u, 1.0, k * t);
    TimesZero(u);
    Expanded(u, t, k);
    TimesNotNegative(t, k * t);
  }

  lemma {:induction false} Expanded(u: real, t: real, k: real)
    requires u == 1.0 - t
    ensures Times(u, k * t) == k * t - Times(t, k * t)
  {
    TimesSwaps(u, k * t);
    TimesSwaps(t, k * t);
    TimesAdds(k * t, u, t);
    TimesZero(k * t);
  }

  /** How far a point is from a term's centre, in units of its radius. */
  function Reach(t: DistortionLoading.LocalTerm, point: Point, hypot: (real, real) -> real): real
    requires t.radius > 0.0
  {
    hypot(point.0 - t.center.0, point.1 - t.center.1) / t.radius
  }

  function LocalWeight(d: Direction, point: Point, i: nat): (w: real)
    requires i < |d.local| && d.local[i].radius > 0.0
  {
    Wendland(Reach(d.local[i], point, d.kernel.hypot))
  }

  lemma {:induction false} LocalWeightRange(d: Direction, point: Point, i: nat)
    requires IsSound(d) && i < |d.local|
    ensures LocalWeight(d, point, i) >= 0.0
    ensures LocalWeight(d, point, i) > 0.0 <==> Reach(d.local[i], point, d.kernel.hypot) < 1.0
  {
    hide Wendland;
    var t := d.local[i];
    QuotientRange(d.kernel.hypot(point.0 - t.center.0, point.1 - t.center.1), t.radius);
    WendlandRange(Reach(t, point, d.kernel.hypot));
  }

  /** The summed weight of the first `k` Local terms. */
  ghost function Coverage(d: Direction, point: Point, k: nat): real
    requires IsSound(d) && k <= |d.local|
  {
    if k == 0 then 0.0 else Coverage(d, point, k - 1) + LocalWeight(d, point, k - 1)
  }

  lemma {:induction false} CoverageRange(d: Direction, point: Point, k: nat)
    requires IsSound(d) && k <= |d.local|
    ensures Coverage(d, point, k) >= 0.0
    ensures Coverage(d, point, k) > 0.0 <==> exists i :: 0 <= i < k && LocalWeight(d, point, i) > 0.0
  {
    if k > 0 {
      CoverageRange(d, point, k - 1);
      LocalWeightRange(d, point, k - 1);
    }
  }

  // -------------------------------------------------- the field as a weighted mean

  ghost function PairValue(pair: SplinePair, point: Point, kernel: Kernel): Point
  {
    (Evaluated(pair.x, point, kernel), Evaluated(pair.y, point, kernel))
  }

  /** A term's weight at a point, and the vector it contributes. */
  datatype Contribution = Contribution(weight: real, value: Point)

  ghost function GlobalPart(d: Direction, point: Point): seq<Contribution>
  {
    if d.global.Some? then [Contribution(1.0, PairValue(d.global.value, point, d.kernel))] else []
  }

  ghost function LocalPart(d: Direction, point: Point, k: nat): seq<Contribution>
    requires IsSound(d) && k <= |d.local|
  {
    if k == 0 then []
    else LocalPart(d, point, k - 1)
         + [Contribution(LocalWeight(d, point, k - 1), PairValue(d.local[k - 1].spline, point, d.kernel))]
  }

  ghost function FallbackWeight(d: Direction, point: Point): real
    requires IsSound(d) && d.fallback.Some?
  {
    Wendland(Coverage(d, point, |d.local|) / d.fallback.value.threshold)
  }

  ghost function FallbackPart(d: Direction, point: Point): seq<Contribution>
    requires IsSound(d)
  {
    if d.fallback.Some?
    then [Contribution(FallbackWeight(d, point), PairValue(d.fallback.value.spline, point, d.kernel))] else []
  }

  ghost function Contributions(d: Direction, point: Point): seq<Contribution>
    requires IsSound(d)
  {
    GlobalPart(d, point) + LocalPart(d, point, |d.local|) + FallbackPart(d, point)
  }

  function TotalWeight(cs: seq<Contribution>): real
  {
    if cs == [] then 0.0 else TotalWeight(cs[..|cs| - 1]) + cs[|cs| - 1].weight
  }

  function WeightedSum(cs: seq<Contribution>): Point
  {
    if cs == [] then (0.0, 0.0)
    else
      var before, last := WeightedSum(cs[..|cs| - 1]), cs[|cs| - 1];
      (before.0 + Times(last.weight, last.value.0), before.1 + Times(last.weight, last.value.1))
  }

  lemma {:induction false} OneMore(cs: seq<Contribution>, c: Contribution)
    ensures TotalWeight(cs + [c]) == TotalWeight(cs) + c.weight
    ensures WeightedSum(cs + [c]).0 == WeightedSum(cs).0 + Times(c.weight, c.value.0)
    ensures WeightedSum(cs + [c]).1 == WeightedSum(cs).1 + Times(c.weight, c.value.1)
    ensures c.weight == 0.0 ==> TotalWeight(cs + [c]) == TotalWeight(cs) && WeightedSum(cs + [c]) == WeightedSum(cs)
  {
    assert (cs + [c])[..|cs|] == cs;
    TimesZero(c.value.0);
    TimesZero(c.value.1);
  }

  /** The Local term nearest to a point among the first `k`, the first of them if several are. */
  ghost function Nearest(d: Direction, point: Point, k: nat): (i: nat)
    requires IsSound(d) && 0 < k <= |d.local|
    ensures i < k
  {
    if k == 1 then 0
    else
      var best := Nearest(d, point, k - 1);
      if Reach(d.local[k - 1], point, d.kernel.hypot) < Reach(d.local[best], point, d.kernel.hypot) then k - 1 else best
  }

  lemma {:induction false} NearestIsFirstSmallest(d: Direction, point: Point, k: nat)
    requires IsSound(d) && 0 < k <= |d.local|
    ensures forall j :: 0 <= j < k ==>
      Reach(d.local[Nearest(d, point, k)], point, d.kernel.hypot) <= Reach(d.local[j], point, d.kernel.hypot)
    ensures forall j :: 0 <= j < Nearest(d, point, k) ==>
      Reach(d.local[Nearest(d, point, k)], point, d.kernel.hypot) < Reach(d.local[j], point, d.kernel.hypot)
  {
    if k > 1 {
      NearestIsFirstSmallest(d, point, k - 1);
    }
  }

  /** The nearest of the first `k` Local terms, as the loop remembers it. */
  ghost function NearestTo(d: Direction, point: Point, k: nat): Option<(real, Point)>
    requires IsSound(d) && k <= |d.local|
  {
    if k == 0 then None
    else
      var term := d.local[Nearest(d, point, k)];
      Some((Reach(term, point, d.kernel.hypot), PairValue(term.spline, point, d.kernel)))
  }

  /** The weighted mean where there is any weight; else the nearest Local term's value, or zero. */
  ghost function FieldAt(d: Direction, point: Point): Point
    requires IsSound(d)
  {
    var cs := Contributions(d, point);
    if TotalWeight(cs) > 0.0 then (WeightedSum(cs).0 / TotalWeight(cs), WeightedSum(cs).1 / TotalWeight(cs))
    else if d.local == [] then (0.0, 0.0)
    else PairValue(d.local[Nearest(d, point, |d.local|)].spline, point, d.kernel)
  }

  method EvalPair(pair: SplinePair, point: Point, kernel: Kernel) returns (value: Point)
    ensures value == PairValue(pair, point, kernel)
  {
    var x := Eval(pair.x, point, kernel);
    var y := Eval(pair.y, point, kernel);
    return (x, y);
  }

  /** A running weighted sum. */
  datatype Sums = Sums(x: real, y: real, total: real)

  ghost predicate SumsOf(s: Sums, cs: seq<Contribution>)
  {
    s == Sums(WeightedSum(cs).0, WeightedSum(cs).1, TotalWeight(cs))
  }

  /** One term's share, left out where its weight is zero. */
  method AddTerm(s: Sums, weight: real, pair: SplinePair, point: Point, kernel: Kernel,
      ghost cs: seq<Contribution>) returns (next: Sums)
    requires SumsOf(s, cs) && weight >= 0.0
    ensures SumsOf(next, cs + [Contribution(weight, PairValue(pair, point, kernel))])
  {
    OneMore(cs, Contribution(weight, PairValue(pair, point, kernel)));
    next := s;
    if weight > 0.0 {
      var value := EvalPair(pair, point, kernel);
      next := Sums(s.x + Times(weight, value.0), s.y + Times(weight, value.1), s.total + weight);
    }
  }

  /** The Local terms' shares, their coverage, and the nearest of them. */
  method AddLocals(d: Direction, point: Point, s: Sums, ghost cs: seq<Contribution>)
      returns (sums: Sums, coverage: real, nearest: Option<(real, Point)>)
    requires IsSound(d) && SumsOf(s, cs)
    ensures SumsOf(sums, cs + LocalPart(d, point, |d.local|))
    ensures coverage == Coverage(d, point, |d.local|) && nearest == NearestTo(d, point, |d.local|)
  {
    hide Wendland;
    hide Evaluated;
    hide Times;
    hide WeightedSum;
    hide TotalWeight;
    hide Reach;
    hide PairValue;
    sums, coverage, nearest := s, 0.0, None;
    ghost var all := cs;
    for i := 0 to |d.local|
      invariant SumsOf(sums, all) && all == cs + LocalPart(d, point, i)
      invariant coverage == Coverage(d, point, i)
      invariant nearest == NearestTo(d, point, i)
    {
      var t := Reach(d.local[i], point, d.kernel.hypot);
      var weight := Wendland(t);
      coverage := coverage + weight;
      if nearest.None? || t < nearest.value.0 {
        var value := EvalPair(d.local[i].spline, point, d.kernel);
        nearest := Some((t, value));
      }
      LocalWeightRange(d, point, i);
      sums := AddTerm(sums, weight, d.local[i].spline, point, d.kernel, all);
      all := all + [Contribution(weight, PairValue(d.local[i].spline, point, d.kernel))];
    }
  }

  /** The Fallback term's share, which runs the other way: all of it where there is no coverage. */
  method AddFallback(d: Direction, point: Point, coverage: real, s: Sums,
      ghost cs: seq<Contribution>) returns (next: Sums)
    requires IsSound(d) && coverage == Coverage(d, point, |d.local|) && SumsOf(s, cs)
    ensures SumsOf(next, cs + FallbackPart(d, point))
  {
    hide Wendland;
    hide Evaluated;
    hide Times;
    next := s;
    if d.fallback.Some? {
      FallbackWeightRange(d, point);
      var weight := Wendland(coverage / d.fallback.value.threshold);
      next := AddTerm(s, weight, d.fallback.value.spline, point, d.kernel, cs);
    } else {
      assert cs + [] == cs;
    }
  }

  /** Every term's share: Global first, then the Local terms, then Fallback. */
  method GatherTerms(d: Direction, point: Point) returns (sums: Sums, nearest: Option<(real, Point)>)
    requires IsSound(d)
    ensures SumsOf(sums, Contributions(d, point)) && nearest == NearestTo(d, point, |d.local|)
  {
    hide Wendland;
    hide Evaluated;
    hide Times;
    hide WeightedSum;
    hide TotalWeight;
    sums := AddGlobal(d, point);
    var coverage;
    sums, coverage, nearest := AddLocals(d, point, sums, GlobalPart(d, point));
    sums := AddFallback(d, point, coverage, sums, GlobalPart(d, point) + LocalPart(d, point, |d.local|));
  }

  method AddGlobal(d: Direction, point: Point) returns (sums: Sums)
    ensures SumsOf(sums, GlobalPart(d, point))
  {
    hide Evaluated;
    hide Times;
    sums := Sums(0.0, 0.0, 0.0);
    if d.global.Some? {
      sums := AddTerm(sums, 1.0, d.global.value, point, d.kernel, []);
      assert [] + GlobalPart(d, point) == GlobalPart(d, point);
    }
  }

  method Evaluate(d: Direction, point: Point) returns (field: Point)
    requires IsSound(d)
    ensures field == FieldAt(d, point)
  {
    hide Contributions;
    hide PairValue;
    hide WeightedSum;
    hide TotalWeight;
    var sums, nearest := GatherTerms(d, point);
    if sums.total > 0.0 {
      return (sums.x / sums.total, sums.y / sums.total);
    }
    match nearest {
      case Some((_, value)) => return value;
      case None => return (0.0, 0.0);
    }
  }

  // -------------------------------------------------- what the field promises

  lemma {:induction false} TotalSplits(a: seq<Contribution>, b: seq<Contribution>)
    ensures TotalWeight(a + b) == TotalWeight(a) + TotalWeight(b)
  {
    if b == [] {
      assert a + b == a;
    } else {
      TotalSplits(a, b[..|b| - 1]);
      assert (a + b)[..|a + b| - 1] == a + b[..|b| - 1];
    }
  }

  lemma {:induction false} LocalTotal(d: Direction, point: Point, k: nat)
    requires IsSound(d) && k <= |d.local|
    ensures TotalWeight(LocalPart(d, point, k)) == Coverage(d, point, k)
  {
    hide Wendland;
    hide Evaluated;
    if k > 0 {
      LocalTotal(d, point, k - 1);
      OneMore(LocalPart(d, point, k - 1),
              Contribution(LocalWeight(d, point, k - 1), PairValue(d.local[k - 1].spline, point, d.kernel)));
    }
  }

  /** The total weight is one for a Global term, the coverage, and what the Fallback term adds. */
  lemma {:induction false} TotalIs(d: Direction, point: Point)
    requires IsSound(d)
    ensures TotalWeight(Contributions(d, point))
         == (if d.global.Some? then 1.0 else 0.0) + Coverage(d, point, |d.local|)
            + (if d.fallback.Some? then FallbackWeight(d, point) else 0.0)
  {
    hide TotalWeight;
    hide LocalPart;
    hide PairValue;
    hide FallbackWeight;
    hide Coverage;
    var g, l, f := GlobalPart(d, point), LocalPart(d, point, |d.local|), FallbackPart(d, point);
    TotalSplits(g + l, f);
    TotalSplits(g, l);
    LocalTotal(d, point, |d.local|);
    AtMostOneWeighs(g);
    AtMostOneWeighs(f);
  }

  lemma {:induction false} AtMostOneWeighs(cs: seq<Contribution>)
    requires |cs| <= 1
    ensures TotalWeight(cs) == if cs == [] then 0.0 else cs[0].weight
  {
    assert cs != [] ==> cs[..0] == [];
  }

  /** The Fallback term's weight: all of it without coverage, none of it from the threshold on. */
  lemma {:induction false} FallbackWeightRange(d: Direction, point: Point)
    requires IsSound(d) && d.fallback.Some?
    ensures FallbackWeight(d, point) >= 0.0
    ensures FallbackWeight(d, point) > 0.0 <==> Coverage(d, point, |d.local|) < d.fallback.value.threshold
  {
    hide Wendland;
    CoverageRange(d, point, |d.local|);
    QuotientRange(Coverage(d, point, |d.local|), d.fallback.value.threshold);
    WendlandRange(Coverage(d, point, |d.local|) / d.fallback.value.threshold);
  }

  /** There is weight exactly where there is a Global or Fallback term, or inside a support disc. */
  lemma {:induction false} WeightExactly(d: Direction, point: Point)
    requires IsSound(d)
    ensures TotalWeight(Contributions(d, point)) >= 0.0
    ensures TotalWeight(Contributions(d, point)) > 0.0 <==>
      d.global.Some? || d.fallback.Some?
      || exists i :: 0 <= i < |d.local| && Reach(d.local[i], point, d.kernel.hypot) < 1.0
  {
    TotalIs(d, point);
    CoverageRange(d, point, |d.local|);
    if d.fallback.Some? {
      FallbackWeightRange(d, point);
    }
    forall i | 0 <= i < |d.local|
      ensures LocalWeight(d, point, i) > 0.0 <==> Reach(d.local[i], point, d.kernel.hypot) < 1.0
    {
      LocalWeightRange(d, point, i);
    }
  }

  /** Once the Local terms' coverage reaches its threshold, the Fallback term has no effect. */
  lemma {:induction false} FallbackSilent(d: Direction, point: Point)
    requires IsSound(d) && d.fallback.Some? && Coverage(d, point, |d.local|) >= d.fallback.value.threshold
    ensures FieldAt(d, point) == FieldAt(d.(fallback := None), point)
  {
    var plain := d.(fallback := None);
    SameLocals(d, plain, point, |d.local|);
    FallbackWeightRange(d, point);
    var f := Contribution(FallbackWeight(d, point), PairValue(d.fallback.value.spline, point, d.kernel));
    assert Contributions(plain, point) == GlobalPart(d, point) + LocalPart(d, point, |d.local|);
    assert Contributions(d, point) == Contributions(plain, point) + [f];
    OneMore(Contributions(plain, point), f);
    WeightExactly(d, point);
  }

  lemma {:induction false} SameLocals(d: Direction, e: Direction, point: Point, k: nat)
    requires IsSound(d) && IsSound(e) && e.kernel == d.kernel && e.local == d.local && k <= |d.local|
    ensures LocalPart(e, point, k) == LocalPart(d, point, k) && Coverage(e, point, k) == Coverage(d, point, k)
  {
    hide Wendland;
    hide Evaluated;
    if k > 0 {
      SameLocals(d, e, point, k - 1);
    }
  }

  /** Without weight the field is that of the first Local term with the smallest reach, or zero if there is none. */
  lemma {:induction false} FieldWithoutWeight(d: Direction, point: Point)
    requires IsSound(d) && d.global.None? && d.fallback.None?
    requires forall i :: 0 <= i < |d.local| ==> Reach(d.local[i], point, d.kernel.hypot) >= 1.0
    ensures d.local == [] ==> FieldAt(d, point) == (0.0, 0.0)
    ensures d.local != [] ==> exists i: nat ::
      IsNearest(d, point, i)
      && FieldAt(d, point) == (Evaluated(d.local[i].spline.x, point, d.kernel),
                               Evaluated(d.local[i].spline.y, point, d.kernel))
  {
    WeightExactly(d, point);
    if d.local != [] {
      NearestIsFirstSmallest(d, point, |d.local|);
      assert IsNearest(d, point, Nearest(d, point, |d.local|));
    }
  }

  /** Term `i` is no farther than any other, and nearer than any before it. */
  ghost predicate IsNearest(d: Direction, point: Point, i: nat)
    requires IsSound(d)
  {
    i < |d.local|
    && (forall j :: 0 <= j < |d.local| ==>
        Reach(d.local[i], point, d.kernel.hypot) <= Reach(d.local[j], point, d.kernel.hypot))
    && (forall j :: 0 <= j < i ==> Reach(d.local[i], point, d.kernel.hypot) < Reach(d.local[j], point, d.kernel.hypot))
  }

  /** On which side of a line in the plane of values a vector lies. */
  function Side(a: real, b: real, v: Point): real { Times(a, v.0) + Times(b, v.1) }

  lemma {:induction false} SideAdds(a: real, b: real, c: real, s: Point, v: Point, w: real, total: real)
    requires w >= 0.0 && Side(a, b, s) <= Times(c, total) && (w > 0.0 ==> Side(a, b, v) <= c)
    ensures Side(a, b, (s.0 + Times(w, v.0), s.1 + Times(w, v.1))) <= Times(c, total + w)
  {
    TimesAdds(a, s.0, Times(w, v.0));
    TimesAdds(b, s.1, Times(w, v.1));
    TimesAdds(c, total, w);
    SideScales(a, b, v, w);
    if w > 0.0 {
      TimesMonotone(w, Side(a, b, v), c);
      TimesSwaps(w, c);
    } else {
      TimesZero(c);
      TimesZero(Side(a, b, v));
    }
  }

  lemma {:induction false} SideScales(a: real, b: real, v: Point, w: real)
    ensures Side(a, b, (Times(w, v.0), Times(w, v.1))) == Times(w, Side(a, b, v))
  {
    TimesAdds(w, Times(a, v.0), Times(b, v.1));
    Rotate(a, w, v.0);
    Rotate(b, w, v.1);
  }

  lemma {:induction false} Rotate(a: real, w: real, x: real)
    ensures Times(a, Times(w, x)) == Times(w, Times(a, x))
  {
    TimesAssociates(a, w, x);
    TimesAssociates(w, a, x);
    TimesSwaps(a, w);
  }

  ghost predicate WeightsNotNegative(cs: seq<Contribution>) { forall i :: 0 <= i < |cs| ==> cs[i].weight >= 0.0 }

  ghost predicate OnOneSide(cs: seq<Contribution>, a: real, b: real, c: real)
  {
    forall i :: 0 <= i < |cs| && cs[i].weight > 0.0 ==> Side(a, b, cs[i].value) <= c
  }

  lemma {:induction false} SumOnOneSide(cs: seq<Contribution>, a: real, b: real, c: real)
    requires WeightsNotNegative(cs) && OnOneSide(cs, a, b, c)
    ensures Side(a, b, WeightedSum(cs)) <= Times(c, TotalWeight(cs))
  {
    TimesZero(a);
    TimesZero(b);
    TimesZero(c);
    if cs != [] {
      var before, last := cs[..|cs| - 1], cs[|cs| - 1];
      SumOnOneSide(before, a, b, c);
      SideAdds(a, b, c, WeightedSum(before), last.value, last.weight, TotalWeight(before));
    }
  }

  lemma {:induction false} MeanOnOneSide(s: Point, total: real, a: real, b: real, c: real)
    requires total > 0.0 && Side(a, b, s) <= Times(c, total)
    ensures Side(a, b, (s.0 / total, s.1 / total)) <= c
  {
    var x, y := s.0 / total, s.1 / total;
    QuotientTimes(s.0, total);
    QuotientTimes(s.1, total);
    TimesSwaps(x, total);
    TimesSwaps(y, total);
    SideScales(a, b, (x, y), total);
    TimesSwaps(c, total);
    var side := Side(a, b, (x, y));
    if side > c {
      TimesPositive(total, side - c);
      TimesAdds(total, c, side - c);
    }
  }

  lemma {:induction false} ContributionsNotNegative(d: Direction, point: Point)
    requires IsSound(d)
    ensures WeightsNotNegative(Contributions(d, point))
  {
    LocalNotNegative(d, point, |d.local|);
    if d.fallback.Some? {
      FallbackWeightRange(d, point);
    }
  }

  lemma {:induction false} LocalNotNegative(d: Direction, point: Point, k: nat)
    requires IsSound(d) && k <= |d.local|
    ensures WeightsNotNegative(LocalPart(d, point, k))
  {
    hide Wendland;
    hide Evaluated;
    if k > 0 {
      LocalNotNegative(d, point, k - 1);
      LocalWeightRange(d, point, k - 1);
    }
  }

  /**
    The field is a convex combination of its terms: it lies in every half-plane that holds the values
    of all the terms with weight at the point.
   */
  lemma {:induction false} FieldIsConvex(d: Direction, point: Point, a: real, b: real, c: real)
    requires IsSound(d) && TotalWeight(Contributions(d, point)) > 0.0 && OnOneSide(Contributions(d, point), a, b, c)
    ensures Side(a, b, FieldAt(d, point)) <= c
  {
    var cs := Contributions(d, point);
    ContributionsNotNegative(d, point);
    SumOnOneSide(cs, a, b, c);
    MeanOnOneSide(WeightedSum(cs), TotalWeight(cs), a, b, c);
  }

  // -------------------------------------------------- the field, term by term

  function LocalSplines(terms: seq<DistortionLoading.LocalTerm>): (pairs: seq<SplinePair>)
    ensures |pairs| == |terms|
  {
    seq(|terms|, i requires 0 <= i < |terms| => terms[i].spline)
  }

  /** Every term's splines: Global first, then the Local terms, then Fallback. */
  function Terms(d: Direction): seq<SplinePair>
  {
    (if d.global.Some? then [d.global.value] else []) + LocalSplines(d.local)
    + if d.fallback.Some? then [d.fallback.value.spline] else []
  }

  /** How many terms come before the Local ones. */
  function FirstLocal(d: Direction): nat { if d.global.Some? then 1 else 0 }

  /**
    A weight for each term: one for Global; for a Local term the curve at its distance in radii; for Fallback
    the curve at the total of the Local weights in thresholds.
   */
  ghost predicate AreWeights(d: Direction, point: Point, ws: seq<real>)
    requires IsSound(d)
  {
    var first, n := FirstLocal(d), |d.local|;
    |ws| == |Terms(d)| && (d.global.Some? ==> ws[0] == 1.0)
    && (forall i :: 0 <= i < n ==>
        ws[first + i] == Wendland(d.kernel.hypot(point.0 - d.local[i].center.0, point.1 - d.local[i].center.1)
                                  / d.local[i].radius))
    && (d.fallback.Some? ==> ws[first + n] == Wendland(Total(ws[first..first + n]) / d.fallback.value.threshold))
  }

  /** One component's value of each term. */
  ghost predicate AreValues(d: Direction, point: Point, xs: seq<real>, ys: seq<real>)
  {
    |xs| == |ys| == |Terms(d)|
    && forall i :: 0 <= i < |xs| ==>
       xs[i] == Evaluated(Terms(d)[i].x, point, d.kernel) && ys[i] == Evaluated(Terms(d)[i].y, point, d.kernel)
  }

  lemma {:induction false} LocalPartAt(d: Direction, point: Point, k: nat, i: nat)
    requires IsSound(d) && i < k <= |d.local|
    ensures |LocalPart(d, point, k)| == k
    ensures LocalPart(d, point, k)[i]
         == Contribution(LocalWeight(d, point, i), PairValue(d.local[i].spline, point, d.kernel))
  {
    hide Wendland;
    hide Evaluated;
    if i < k - 1 {
      LocalPartAt(d, point, k - 1, i);
    } else if k > 1 {
      LocalPartAt(d, point, k - 1, k - 2);
    }
  }

  lemma {:induction false} CoverageIsTotal(d: Direction, point: Point, ws: seq<real>, k: nat)
    requires IsSound(d) && k <= |d.local| && |ws| == k
    requires forall i :: 0 <= i < k ==> ws[i] == LocalWeight(d, point, i)
    ensures Coverage(d, point, k) == Total(ws)
  {
    hide Wendland;
    if k > 0 {
      CoverageIsTotal(d, point, ws[..k - 1], k - 1);
    }
  }

  lemma {:induction false} PartLengths(d: Direction, point: Point)
    requires IsSound(d)
    ensures |GlobalPart(d, point)| == FirstLocal(d) && |LocalPart(d, point, |d.local|)| == |d.local|
    ensures |Contributions(d, point)| == |Terms(d)|
  {
    hide Evaluated;
    if d.local != [] {
      LocalPartAt(d, point, |d.local|, 0);
    }
  }

  /** The contributions are the terms' weights and values, in order. */
  lemma {:induction false} ContributionsAre(d: Direction, point: Point, ws: seq<real>, xs: seq<real>, ys: seq<real>)
    requires IsSound(d) && AreWeights(d, point, ws) && AreValues(d, point, xs, ys)
    ensures |Contributions(d, point)| == |ws| == |xs| == |ys|
    ensures forall i :: 0 <= i < |ws| ==> Contributions(d, point)[i] == Contribution(ws[i], (xs[i], ys[i]))
  {
    hide Contributions;
    PartLengths(d, point);
    assert |ws| == |xs| == |ys| == |Terms(d)|;
    hide Terms;
    hide AreWeights;
    hide AreValues;
    forall i | 0 <= i < |ws|
      ensures Contributions(d, point)[i] == Contribution(ws[i], (xs[i], ys[i]))
    {
      ContributionAt(d, point, ws, xs, ys, i);
    }
  }

  lemma {:induction false} ContributionAt(d: Direction, point: Point, ws: seq<real>, xs: seq<real>, ys: seq<real>,
      i: nat)
    requires IsSound(d) && AreWeights(d, point, ws) && AreValues(d, point, xs, ys) && i < |ws|
    ensures i < |Contributions(d, point)|
    ensures Contributions(d, point)[i] == Contribution(ws[i], (xs[i], ys[i]))
  {
    hide Wendland;
    hide Evaluated;
    hide LocalPart;
    hide Coverage;
    hide Total;
    var first, n := FirstLocal(d), |d.local|;
    PartLengths(d, point);
    ValueAt(d, point, xs, ys, i);
    hide AreValues;
    if first <= i < first + n {
      assert Contributions(d, point)[i] == LocalPart(d, point, n)[i - first];
      hide Contributions;
      LocalPartAt(d, point, n, i - first);
      assert ws[first + (i - first)] == LocalWeight(d, point, i - first);
    } else if i >= first + n {
      assert Contributions(d, point)[i] == FallbackPart(d, point)[0];
      hide Contributions;
      CoverageIsTotal(d, point, ws[first..first + n], n);
    }
  }

  lemma {:induction false} ValueAt(d: Direction, point: Point, xs: seq<real>, ys: seq<real>, i: nat)
    requires AreValues(d, point, xs, ys) && i < |xs|
    ensures (xs[i], ys[i]) == PairValue(Terms(d)[i], point, d.kernel)
  {
    hide Evaluated;
    hide Terms;
  }

  lemma {:induction false} SumsAre(cs: seq<Contribution>, ws: seq<real>, xs: seq<real>, ys: seq<real>)
    requires |cs| == |ws| == |xs| == |ys|
    requires forall i :: 0 <= i < |cs| ==> cs[i] == Contribution(ws[i], (xs[i], ys[i]))
    ensures TotalWeight(cs) == Total(ws)
    ensures WeightedSum(cs) == (Dot(ws, xs, |ws|), Dot(ws, ys, |ws|))
  {
    if cs != [] {
      var n := |cs| - 1;
      SumsAre(cs[..n], ws[..n], xs[..n], ys[..n]);
      DotOfPrefix(ws, xs, n);
      DotOfPrefix(ws, ys, n);
      hide Times;
      hide Dot;
      assert cs[n] == Contribution(ws[n], (xs[n], ys[n]));
    }
  }

  lemma {:induction false} DotOfPrefix(a: seq<real>, b: seq<real>, k: nat)
    requires k < |a| && k < |b|
    ensures Dot(a, b, k + 1) == Dot(a[..k], b[..k], k) + Times(a[k], b[k])
  {
    DotShortened(a, b, k, k);
  }

  lemma {:induction false} DotShortened(a: seq<real>, b: seq<real>, k: nat, j: nat)
    requires j <= k <= |a| && k <= |b|
    ensures Dot(a[..k], b[..k], j) == Dot(a, b, j)
  {
    if j > 0 {
      DotShortened(a, b, k, j - 1);
    }
  }

  /**
    Where the terms have any weight together, each component of the field is that component's values in the
    proportion of the weights.
   */
  lemma {:induction false} FieldIsMean(d: Direction, point: Point, ws: seq<real>, xs: seq<real>, ys: seq<real>)
    requires IsSound(d) && AreWeights(d, point, ws) && AreValues(d, point, xs, ys) && Total(ws) > 0.0
    ensures Times(FieldAt(d, point).0, Total(ws)) == Dot(ws, xs, |ws|)
    ensures Times(FieldAt(d, point).1, Total(ws)) == Dot(ws, ys, |ws|)
  {
    hide Times;
    hide Contributions;
    ContributionsAre(d, point, ws, xs, ys);
    SumsAre(Contributions(d, point), ws, xs, ys);
    QuotientTimes(Dot(ws, xs, |ws|), Total(ws));
    QuotientTimes(Dot(ws, ys, |ws|), Total(ws));
  }

  /** A Global term alone is the field. */
  lemma {:induction false} GlobalAlone(d: Direction, point: Point)
    requires IsSound(d) && d.global.Some? && d.local == [] && d.fallback.None?
    ensures FieldAt(d, point)
         == (Evaluated(d.global.value.x, point, d.kernel), Evaluated(d.global.value.y, point, d.kernel))
  {
    hide Evaluated;
    var x, y := Evaluated(d.global.value.x, point, d.kernel), Evaluated(d.global.value.y, point, d.kernel);
    assert Terms(d) == [d.global.value];
    assert Total([1.0]) == 1.0 by {
      assert [1.0][..0] == [];
    }
    FieldIsMean(d, point, [1.0], [x], [y]);
    assert Dot([1.0], [x], 1) == x by {
      assert Dot([1.0], [x], 0) == 0.0;
    }
    assert Dot([1.0], [y], 1) == y by {
      assert Dot([1.0], [y], 0) == 0.0;
    }
    TimesZero(FieldAt(d, point).0);
    TimesZero(FieldAt(d, point).1);
  }

  /** Whether a term has weight at a point: Global always, Local inside its disc, Fallback while coverage is short. */
  ghost predicate HasWeight(d: Direction, point: Point, ws: seq<real>, i: nat)
    requires IsSound(d) && AreWeights(d, point, ws) && i < |ws|
  {
    var first, n := FirstLocal(d), |d.local|;
    if i < first then true
    else if i < first + n then
      var t := d.local[i - first];
      d.kernel.hypot(point.0 - t.center.0, point.1 - t.center.1) < t.radius
    else Total(ws[first..first + n]) < d.fallback.value.threshold
  }

  lemma {:induction false} WeightIsPositive(d: Direction, point: Point, ws: seq<real>, i: nat)
    requires IsSound(d) && AreWeights(d, point, ws) && i < |ws|
    ensures ws[i] >= 0.0 && (ws[i] > 0.0 <==> HasWeight(d, point, ws, i))
  {
    hide Wendland;
    var first, n := FirstLocal(d), |d.local|;
    if first <= i < first + n {
      var t := d.local[i - first];
      LocalWeightRange(d, point, i - first);
      QuotientRange(d.kernel.hypot(point.0 - t.center.0, point.1 - t.center.1), t.radius);
      assert ws[first + (i - first)] == LocalWeight(d, point, i - first);
    } else if i >= first + n {
      CoverageIsTotal(d, point, ws[first..first + n], n);
      FallbackWeightRange(d, point);
    }
  }

  ghost predicate Between(v: Point, low: Point, high: Point) { low.0 <= v.0 <= high.0 && low.1 <= v.1 <= high.1 }

  ghost predicate AllBetween(cs: seq<Contribution>, low: Point, high: Point)
  {
    forall i :: 0 <= i < |cs| && cs[i].weight > 0.0 ==> Between(cs[i].value, low, high)
  }

  lemma {:induction false} ContributionsBetween(d: Direction, point: Point, ws: seq<real>, xs: seq<real>,
      ys: seq<real>, low: Point, high: Point)
    requires IsSound(d) && AreWeights(d, point, ws) && AreValues(d, point, xs, ys)
    requires forall i :: 0 <= i < |ws| && HasWeight(d, point, ws, i) ==> Between((xs[i], ys[i]), low, high)
    ensures TotalWeight(Contributions(d, point)) == Total(ws) && AllBetween(Contributions(d, point), low, high)
  {
    hide Contributions;
    hide HasWeight;
    hide AreWeights;
    hide Between;
    ContributionsAre(d, point, ws, xs, ys);
    var cs := Contributions(d, point);
    SumsAre(cs, ws, xs, ys);
    forall i | 0 <= i < |cs| && cs[i].weight > 0.0
      ensures Between(cs[i].value, low, high)
    {
      WeightIsPositive(d, point, ws, i);
    }
  }

  /** Each component of the field is between the least and the greatest of its own splines' values with weight. */
  lemma {:induction false} ComponentsBetween(d: Direction, point: Point, ws: seq<real>, xs: seq<real>, ys: seq<real>,
      low: Point, high: Point)
    requires IsSound(d) && AreWeights(d, point, ws) && AreValues(d, point, xs, ys) && Total(ws) > 0.0
    requires forall i :: 0 <= i < |ws| && HasWeight(d, point, ws, i) ==> Between((xs[i], ys[i]), low, high)
    ensures Between(FieldAt(d, point), low, high)
  {
    hide FieldAt;
    hide Contributions;
    hide AreValues;
    hide AreWeights;
    ContributionsBetween(d, point, ws, xs, ys, low, high);
    FirstBelow(d, point, 1.0, high.0);
    FirstBelow(d, point, -1.0, -low.0);
    SecondBelow(d, point, 1.0, high.1);
    SecondBelow(d, point, -1.0, -low.1);
  }

  lemma {:induction false} FirstBelow(d: Direction, point: Point, a: real, c: real)
    requires IsSound(d) && TotalWeight(Contributions(d, point)) > 0.0 && (a == 1.0 || a == -1.0)
    requires var cs := Contributions(d, point);
      forall i :: 0 <= i < |cs| && cs[i].weight > 0.0 ==> a * cs[i].value.0 <= c
    ensures a * FieldAt(d, point).0 <= c
  {
    hide Contributions;
    hide FieldAt;
    FieldIsConvex(d, point, a, 0.0, c);
  }

  lemma {:induction false} SecondBelow(d: Direction, point: Point, b: real, c: real)
    requires IsSound(d) && TotalWeight(Contributions(d, point)) > 0.0 && (b == 1.0 || b == -1.0)
    requires var cs := Contributions(d, point);
      forall i :: 0 <= i < |cs| && cs[i].weight > 0.0 ==> b * cs[i].value.1 <= c
    ensures b * FieldAt(d, point).1 <= c
  {
    hide Contributions;
    hide FieldAt;
    FieldIsConvex(d, point, 0.0, b, c);
  }
}
