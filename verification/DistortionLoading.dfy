/** Loading a direction's terms from the arrays its properties hold. */
module DistortionLoading {
  import opened Primitives
  import opened SplineEval
  import opened SplinePacking

  /** A term with a support disc; a term that takes over where those fade; a direction of a distortion model. */
  datatype LocalTerm = LocalTerm(center: Point, radius: real, spline: SplinePair)

  /** The arrays of one component, each absent if its property is. */
  datatype RawPacked = RawPacked(normalizations: Option<seq<real>>, offsets: Option<seq<i32>>,
                                 nodes: Option<seq<Point>>, coefficients: Option<seq<real>>,
                                 shapes: Option<seq<real>>)

  datatype RawLocal = RawLocal(centers: Option<seq<Point>>, radii: Option<seq<real>>, x: RawPacked, y: RawPacked)

  function Required<T>(value: Option<T>): Result<T>
  {
    match value
    case None => Err(BadHeader)
    case Some(v) => Ok(v)
  }

  function PackedOf(raw: RawPacked, count: nat, hasShape: bool): (r: Result<Packed>)
    ensures r.Ok? ==> |r.value.offsets| == count
  {
    var normalizations :- Required(raw.normalizations);
    var offsets :- Required(raw.offsets);
    if |offsets| != count then Err(BadHeader)
    else
      var nodes :- Required(raw.nodes);
      var coefficients :- Required(raw.coefficients);
      Ok(Packed(normalizations, offsets, nodes, coefficients, if hasShape then raw.shapes.GetOr([]) else []))
  }

  /** The second component shares the first one's packing unless it has nodes of its own. */
  function SecondOf(raw: RawPacked, x: Packed, count: nat, hasShape: bool): (r: Result<Packed>)
    requires |x.offsets| == count
    ensures r.Ok? ==> |r.value.offsets| == count
  {
    if raw.nodes.Some? then PackedOf(raw, count, hasShape)
    else
      var coefficients :- Required(raw.coefficients);
      Ok(x.(coefficients := coefficients))
  }

  /** The arrays of a direction's Local terms, once all that must be there is. */
  datatype Arrays = Arrays(centers: seq<Point>, radii: seq<real>, x: Packed, y: Packed)

  predicate SameCount(a: Arrays) { |a.centers| == |a.radii| == |a.x.offsets| == |a.y.offsets| }

  function ArraysOf(raw: RawLocal, hasShape: bool): (r: Result<Arrays>)
    ensures r.Ok? ==> SameCount(r.value)
  {
    var centers :- Required(raw.centers);
    var radii :- Required(raw.radii);
    if |centers| != |radii| then Err(BadHeader)
    else
      var x :- PackedOf(raw.x, |centers|, hasShape);
      var y :- SecondOf(raw.y, x, |centers|, hasShape);
      Ok(Arrays(centers, radii, x, y))
  }

  function LocalTermAt(a: Arrays, q: nat, i: nat): Result<LocalTerm>
    requires SameCount(a) && i < |a.centers|
  {
    if a.radii[i] <= 0.0 then Err(BadHeader)
    else
      var xs :- Term(a.x, i, q, |a.centers|);
      var ys :- Term(a.y, i, q, |a.centers|);
      Ok(LocalTerm(a.centers[i], a.radii[i], SplinePair(xs, ys)))
  }

  /** The first `k` terms, or the first failure among them. */
  function FirstTerms(a: Arrays, q: nat, k: nat): (r: Result<seq<LocalTerm>>)
    requires SameCount(a) && k <= |a.centers|
    ensures r.Ok? ==> |r.value| == k
  {
    if k == 0 then Ok([])
    else
      var before :- FirstTerms(a, q, k - 1);
      var term :- LocalTermAt(a, q, k - 1);
      Ok(before + [term])
  }

  function LocalTermsOf(raw: RawLocal, hasShape: bool, q: nat): Result<seq<LocalTerm>>
  {
    var a :- ArraysOf(raw, hasShape);
    FirstTerms(a, q, |a.centers|)
  }

  lemma {:induction false} FailureStays(a: Arrays, q: nat, k: nat, n: nat)
    requires SameCount(a) && k <= n <= |a.centers| && FirstTerms(a, q, k).Err?
    ensures FirstTerms(a, q, n) == FirstTerms(a, q, k)
    decreases n
  {
    hide LocalTermAt;
    if k < n {
      FailureStays(a, q, k, n - 1);
    }
  }

  /** The loop that cuts out the terms one by one. */
  method LocalTerms(raw: RawLocal, hasShape: bool, order: int, polynomial: bool) returns (r: Result<seq<LocalTerm>>)
    ensures r == LocalTermsOf(raw, hasShape, PolynomialTerms(order, polynomial))
  {
    var arrays := ArraysOf(raw, hasShape);
    if arrays.Err? {
      return Err(arrays.kind);
    }
    var a, count := arrays.value, |arrays.value.centers|;
    var q := PolynomialTerms(order, polynomial);
    var terms: seq<LocalTerm> := [];
    for i := 0 to count
      invariant FirstTerms(a, q, i) == Ok(terms)
    {
      if LocalTermAt(a, q, i).Err? {
        FailureStays(a, q, i + 1, count);
      }
      if a.radii[i] <= 0.0 {
        return Err(BadHeader);
      }
      var xs := Term(a.x, i, q, count);
      if xs.Err? {
        return Err(xs.kind);
      }
      var ys := Term(a.y, i, q, count);
      if ys.Err? {
        return Err(ys.kind);
      }
      terms := terms + [LocalTerm(a.centers[i], a.radii[i], SplinePair(xs.value, ys.value))];
    }
    return Ok(terms);
  }

  lemma {:induction false} FirstTermsExactly(a: Arrays, q: nat, k: nat)
    requires SameCount(a) && k <= |a.centers|
    ensures FirstTerms(a, q, k).Ok? <==> forall i :: 0 <= i < k ==> LocalTermAt(a, q, i).Ok?
    ensures FirstTerms(a, q, k).Ok? ==>
      forall i :: 0 <= i < k ==> LocalTermAt(a, q, i) == Ok(FirstTerms(a, q, k).value[i])
  {
    hide LocalTermAt;
    if k > 0 {
      FirstTermsExactly(a, q, k - 1);
      if FirstTerms(a, q, k - 1).Ok? && LocalTermAt(a, q, k - 1).Ok? {
        var before, term := FirstTerms(a, q, k - 1).value, LocalTermAt(a, q, k - 1).value;
        assert FirstTerms(a, q, k) == Ok(before + [term]);
        forall i | 0 <= i < k
          ensures LocalTermAt(a, q, i) == Ok((before + [term])[i])
        {
        }
      }
    }
  }

  /** A direction's Local terms load exactly when its arrays are there, its discs are discs and both packings divide. */
  lemma {:induction false} LocalTermsLoadExactly(raw: RawLocal, hasShape: bool, q: nat)
    ensures LocalTermsOf(raw, hasShape, q).Ok? <==>
      ArraysOf(raw, hasShape).Ok?
      && var a := ArraysOf(raw, hasShape).value;
         (forall i :: 0 <= i < |a.radii| ==> a.radii[i] > 0.0) && Loadable(a.x, q) && Loadable(a.y, q)
  {
    if ArraysOf(raw, hasShape).Ok? {
      var a := ArraysOf(raw, hasShape).value;
      FirstTermsExactly(a, q, |a.centers|);
      AllLoadExactly(a.x, q);
      AllLoadExactly(a.y, q);
      forall i | 0 <= i < |a.centers|
        ensures LocalTermAt(a, q, i).Ok? <==> a.radii[i] > 0.0 && TermLoads(a.x, i, q) && TermLoads(a.y, i, q)
      {
      }
    }
  }

  /** Every loaded Local term passes the length check the single terms are put to. */
  lemma {:induction false} LocalTermsChecked(raw: RawLocal, hasShape: bool, kernel: Kernel)
    requires LocalTermsOf(raw, hasShape, PolynomialTerms(kernel.order, kernel.polynomial)).Ok?
    ensures forall t <- LocalTermsOf(raw, hasShape, PolynomialTerms(kernel.order, kernel.polynomial)).value ::
      t.radius > 0.0 && LengthHolds(t.spline.x, kernel) && LengthHolds(t.spline.y, kernel)
  {
    var q := PolynomialTerms(kernel.order, kernel.polynomial);
    var a, terms := ArraysOf(raw, hasShape).value, LocalTermsOf(raw, hasShape, q).value;
    LocalTermsLoadExactly(raw, hasShape, q);
    FirstTermsExactly(a, q, |a.centers|);
    forall i | 0 <= i < |terms|
      ensures terms[i].radius > 0.0 && LengthHolds(terms[i].spline.x, kernel) && LengthHolds(terms[i].spline.y, kernel)
    {
      TermSlices(a.x, i, q);
      TermSlices(a.y, i, q);
      assert LocalTermAt(a, q, i) == Ok(terms[i]);
    }
  }

  // -------------------------------------------------- packing a direction's Local terms

  function FirstComponents(terms: seq<LocalTerm>): (xs: seq<Spline>)
    ensures |xs| == |terms| && forall i :: 0 <= i < |terms| ==> xs[i] == terms[i].spline.x
  {
    seq(|terms|, i requires 0 <= i < |terms| => terms[i].spline.x)
  }

  function SecondComponents(terms: seq<LocalTerm>): (ys: seq<Spline>)
    ensures |ys| == |terms| && forall i :: 0 <= i < |terms| ==> ys[i] == terms[i].spline.y
  {
    seq(|terms|, i requires 0 <= i < |terms| => terms[i].spline.y)
  }

  ghost predicate PackableTerms(terms: seq<LocalTerm>, q: nat, hasShape: bool)
  {
    Packable(FirstComponents(terms), q, hasShape) && Packable(SecondComponents(terms), q, hasShape)
    && forall i :: 0 <= i < |terms| ==> terms[i].radius > 0.0
  }

  function StoredPacking(p: Packed): RawPacked
  {
    RawPacked(Some(p.normalizations), Some(p.offsets), Some(p.nodes), Some(p.coefficients), Some(p.shapes))
  }

  /** Nothing but coefficients, which is how a component that shares a packing is stored. */
  function StoredShared(coefficients: seq<real>): RawPacked { RawPacked(None, None, None, Some(coefficients), None) }

  /** Two components of every term that differ in nothing but their coefficients. */
  ghost predicate SharesPacking(terms: seq<LocalTerm>)
  {
    forall i :: 0 <= i < |terms| ==>
      terms[i].spline.y == terms[i].spline.x.(coefficients := terms[i].spline.y.coefficients)
  }

  ghost function PackTerms(terms: seq<LocalTerm>, q: nat, hasShape: bool, shared: bool): RawLocal
    requires PackableTerms(terms, q, hasShape)
  {
    var ys := SecondComponents(terms);
    RawLocal(Some(seq(|terms|, i requires 0 <= i < |terms| => terms[i].center)),
             Some(seq(|terms|, i requires 0 <= i < |terms| => terms[i].radius)),
             StoredPacking(Pack(FirstComponents(terms), q, hasShape)),
             if shared then StoredShared(AllCoefficients(ys, |ys|)) else StoredPacking(Pack(ys, q, hasShape)))
  }

  lemma {:induction false} SharedArrays(xs: seq<Spline>, ys: seq<Spline>, k: nat)
    requires |xs| == |ys| >= k
    requires forall i :: 0 <= i < |xs| ==> ys[i] == xs[i].(coefficients := ys[i].coefficients)
    ensures AllNodes(xs, k) == AllNodes(ys, k) && NodesBefore(xs, k) == NodesBefore(ys, k)
    ensures AllNormalizations(xs, k) == AllNormalizations(ys, k)
  {
    if k > 0 {
      SharedArrays(xs, ys, k - 1);
    }
  }

  /** A shared packing with the second component's coefficients is the second component's own packing. */
  lemma {:induction false} SharedPacking(xs: seq<Spline>, ys: seq<Spline>, q: nat, hasShape: bool)
    requires Packable(xs, q, hasShape) && Packable(ys, q, hasShape) && |xs| == |ys|
    requires forall i :: 0 <= i < |xs| ==> ys[i] == xs[i].(coefficients := ys[i].coefficients)
    ensures Pack(xs, q, hasShape).(coefficients := AllCoefficients(ys, |ys|)) == Pack(ys, q, hasShape)
  {
    SharedArrays(xs, ys, |xs|);
    forall i | 0 <= i < |xs|
      ensures NodesBefore(xs, i) == NodesBefore(ys, i)
    {
      SharedArrays(xs, ys, i);
    }
    assert Pack(xs, q, hasShape).offsets == Pack(ys, q, hasShape).offsets;
    assert AllShapes(xs, hasShape) == AllShapes(ys, hasShape);
  }

  /** Loading inverts packing: any list of terms, its second components packed by themselves or sharing. */
  lemma {:induction false} PackedTermsLoad(terms: seq<LocalTerm>, q: nat, hasShape: bool, shared: bool)
    requires PackableTerms(terms, q, hasShape) && (shared ==> SharesPacking(terms))
    ensures LocalTermsOf(PackTerms(terms, q, hasShape, shared), hasShape, q) == Ok(terms)
  {
    var a := PackedArrays(terms, q, hasShape, shared);
    forall i | 0 <= i < |terms|
      ensures LocalTermAt(a, q, i) == Ok(terms[i])
    {
      PackedTermReadsBack(FirstComponents(terms), q, hasShape, i);
      PackedTermReadsBack(SecondComponents(terms), q, hasShape, i);
      TermJoins(a, q, i, terms[i]);
    }
    FirstTermsAre(a, q, terms, |terms|);
    assert terms[..|terms|] == terms;
  }

  lemma {:induction false} TermJoins(a: Arrays, q: nat, i: nat, term: LocalTerm)
    requires SameCount(a) && i < |a.centers| && term.radius > 0.0
    requires a.radii[i] == term.radius && a.centers[i] == term.center
    requires Term(a.x, i, q, |a.centers|) == Ok(term.spline.x) && Term(a.y, i, q, |a.centers|) == Ok(term.spline.y)
    ensures LocalTermAt(a, q, i) == Ok(term)
  {
  }

  lemma {:induction false} FirstTermsAre(a: Arrays, q: nat, terms: seq<LocalTerm>, k: nat)
    requires SameCount(a) && k <= |terms| == |a.centers|
    requires forall i :: 0 <= i < |terms| ==> LocalTermAt(a, q, i) == Ok(terms[i])
    ensures FirstTerms(a, q, k) == Ok(terms[..k])
  {
    hide LocalTermAt;
    if k > 0 {
      FirstTermsAre(a, q, terms, k - 1);
      assert terms[..k] == terms[..k - 1] + [terms[k - 1]];
    }
  }

  lemma {:induction false} PackedArrays(terms: seq<LocalTerm>, q: nat, hasShape: bool, shared: bool) returns (a: Arrays)
    requires PackableTerms(terms, q, hasShape) && (shared ==> SharesPacking(terms))
    ensures ArraysOf(PackTerms(terms, q, hasShape, shared), hasShape) == Ok(a) && SameCount(a) && |a.centers| == |terms|
    ensures a.x == Pack(FirstComponents(terms), q, hasShape) && a.y == Pack(SecondComponents(terms), q, hasShape)
    ensures forall i :: 0 <= i < |terms| ==> a.centers[i] == terms[i].center && a.radii[i] == terms[i].radius
  {
    a := ArraysOf(PackTerms(terms, q, hasShape, shared), hasShape).value;
    if shared {
      SharedPacking(FirstComponents(terms), SecondComponents(terms), q, hasShape);
    }
  }

  // -------------------------------------------------- Global and Fallback terms

  /** The properties of one component of a single term. */
  datatype RawSpline = RawSpline(
    normalization: Option<seq<real>>, nodes: Option<seq<Point>>, coefficients: Option<seq<real>>, shape: Option<real>)

  function SplineOf(raw: RawSpline, nodes: seq<Point>, coefficients: seq<real>, hasShape: bool): Result<Spline>
  {
    var n :- Required(raw.normalization);
    if |n| != 3 then Err(BadHeader)
    else Ok(Spline((n[0], n[1], n[2]), nodes, coefficients, if hasShape then raw.shape else None))
  }

  function Checked(s: Spline, q: nat): Result<Spline>
  {
    if |s.coefficients| != |s.nodes| + q then Err(BadHeader) else Ok(s)
  }

  /** Without nodes of its own, the second component has its own coefficients and the rest of the first. */
  function SingleTerm(x: RawSpline, y: RawSpline, hasShape: bool, q: nat): Result<SplinePair>
  {
    var xNodes :- Required(x.nodes);
    var xCoefficients :- Required(x.coefficients);
    var xs :- SplineOf(x, xNodes, xCoefficients, hasShape);
    var first :- Checked(xs, q);
    var yCoefficients :- Required(y.coefficients);
    var ys :- if y.nodes.None? then Ok(xs.(coefficients := yCoefficients))
              else SplineOf(y, y.nodes.value, yCoefficients, hasShape);
    var second :- Checked(ys, q);
    Ok(SplinePair(first, second))
  }

  /** One component's properties, all there, and the spline they are. */
  ghost predicate Describes(raw: RawSpline, hasShape: bool, s: Spline)
  {
    raw.normalization == Some([s.normalization.0, s.normalization.1, s.normalization.2])
    && raw.nodes == Some(s.nodes) && raw.coefficients == Some(s.coefficients)
    && s.shape == if hasShape then raw.shape else None
  }

  lemma {:induction false} SplineExactly(raw: RawSpline, hasShape: bool, s: Spline)
    requires raw.nodes.Some? && raw.coefficients.Some?
    ensures SplineOf(raw, raw.nodes.value, raw.coefficients.value, hasShape) == Ok(s) <==> Describes(raw, hasShape, s)
  {
    if raw.normalization.Some? && |raw.normalization.value| == 3 {
      var n := raw.normalization.value;
      assert n == [n[0], n[1], n[2]];
    }
  }

  /** Whether the second component is described by its own properties, or shares all but its coefficients. */
  ghost predicate Completes(y: RawSpline, hasShape: bool, pair: SplinePair)
  {
    if y.nodes.None? then y.coefficients.Some? && pair.y == pair.x.(coefficients := y.coefficients.value)
    else Describes(y, hasShape, pair.y)
  }

  /**
    Exactly which properties load as a single term, and as which: both components described, the second
    perhaps by its coefficients alone, and both of the length their order calls for. Every other fails alike.
   */
  lemma {:induction false} SingleTermExactly(x: RawSpline, y: RawSpline, hasShape: bool, kernel: Kernel,
                                             pair: SplinePair)
    ensures var loaded := SingleTerm(x, y, hasShape, PolynomialTerms(kernel.order, kernel.polynomial));
      (loaded == Ok(pair) <==>
         Describes(x, hasShape, pair.x) && Completes(y, hasShape, pair)
         && LengthHolds(pair.x, kernel) && LengthHolds(pair.y, kernel))
      && (loaded.Err? ==> loaded == Err(BadHeader))
  {
    hide SplineOf;
    hide Describes;
    hide PolynomialTerms;
    NotDescribed(x, hasShape, pair.x);
    NotDescribed(y, hasShape, pair.y);
    if x.nodes.Some? && x.coefficients.Some? {
      SplineFails(x, hasShape);
      SplineExactly(x, hasShape, pair.x);
    }
    if y.nodes.Some? && y.coefficients.Some? {
      SplineFails(y, hasShape);
      SplineExactly(y, hasShape, pair.y);
    }
  }

  lemma {:induction false} NotDescribed(raw: RawSpline, hasShape: bool, s: Spline)
    ensures raw.nodes.None? || raw.coefficients.None? ==> !Describes(raw, hasShape, s)
  {
  }

  lemma {:induction false} SplineFails(raw: RawSpline, hasShape: bool)
    requires raw.nodes.Some? && raw.coefficients.Some?
    ensures var loaded := SplineOf(raw, raw.nodes.value, raw.coefficients.value, hasShape);
      loaded.Err? ==> loaded == Err(BadHeader)
  {
  }
}
