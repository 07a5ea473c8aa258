/** The packed arrays all the Local terms of a direction share, and the terms cut out of them. */
module SplinePacking {
  import opened Primitives
  import opened SplineEval

  type i32 = x: int | -0x8000_0000 <= x < 0x8000_0000

  /** One component of all the Local terms, with each kind of number run together in an array. */
  datatype Packed = Packed(normalizations: seq<real>, offsets: seq<i32>, nodes: seq<Point>, coefficients: seq<real>,
                           shapes: seq<real>)

  /** The spline of term `i` of `count`, each with `q` polynomial coefficients. */
  function Term(p: Packed, i: nat, q: nat, count: nat): Result<Spline>
    requires i < count == |p.offsets|
  {
    if p.offsets[i] < 0 then Err(BadHeader)
    else if i + 1 < count && p.offsets[i + 1] < 0 then Err(BadHeader)
    else
      var start: nat := p.offsets[i];
      var end: nat := if i + 1 < count then p.offsets[i + 1] else |p.nodes|;
      if start > end || end > |p.nodes| then Err(BadHeader)
      else
        var cStart := start + i * q;
        var cEnd := end + (i + 1) * q;
        if cEnd > |p.coefficients| then Err(BadHeader)
        else if |p.normalizations| < (i + 1) * 3 then Err(BadHeader)
        else
          RowsAscend(i, q);
          Ok(Spline((p.normalizations[i * 3], p.normalizations[i * 3 + 1], p.normalizations[i * 3 + 2]),
                    p.nodes[start..end], p.coefficients[cStart..cEnd],
                    if i < |p.shapes| then Some(p.shapes[i]) else None))
  }

  lemma {:induction false} RowsAscend(i: nat, q: nat)
    ensures 0 <= i * q && (i + 1) * q == i * q + q
  {
  }

  // -------------------------------------------------- when every term loads

  /** Where term `i` begins among the nodes, the end of the last counting as a beginning. */
  function Start(p: Packed, i: nat): int
    requires i <= |p.offsets|
  {
    if i < |p.offsets| then p.offsets[i] else |p.nodes|
  }

  /** The offsets ascend within the nodes, and the other arrays are long enough for every term. */
  ghost predicate Loadable(p: Packed, q: nat)
  {
    var count := |p.offsets|;
    (count > 0 ==> p.offsets[0] >= 0)
    && (forall i :: 0 <= i < count ==> Start(p, i) <= Start(p, i + 1))
    && |p.coefficients| >= (if count > 0 then |p.nodes| + count * q else 0)
    && |p.normalizations| >= 3 * count
  }

  ghost predicate TermLoads(p: Packed, i: nat, q: nat)
    requires i < |p.offsets|
  {
    Term(p, i, q, |p.offsets|).Ok?
  }

  lemma {:induction false} StartsAscend(p: Packed, i: nat, j: nat)
    requires i <= j <= |p.offsets| && forall k :: 0 <= k < |p.offsets| ==> Start(p, k) <= Start(p, k + 1)
    ensures Start(p, i) <= Start(p, j)
    decreases j
  {
    if i < j {
      StartsAscend(p, i, j - 1);
    }
  }

  lemma {:induction false} RowsBelow(i: nat, count: nat, q: nat)
    requires i <= count
    ensures i * q <= count * q
  {
    if i < count {
      RowsBelow(i, count - 1, q);
      RowsAscend(count - 1, q);
    }
  }

  /** Every term loads exactly when the offsets ascend from zero or later and the arrays reach far enough. */
  lemma {:induction false} AllLoadExactly(p: Packed, q: nat)
    ensures (forall i :: 0 <= i < |p.offsets| ==> TermLoads(p, i, q)) <==> Loadable(p, q)
  {
    var count := |p.offsets|;
    if Loadable(p, q) {
      forall i | 0 <= i < count
        ensures TermLoads(p, i, q)
      {
        LoadableLoads(p, i, q);
      }
    }
    if forall i :: 0 <= i < count ==> TermLoads(p, i, q) {
      forall i | 0 <= i < count
        ensures Start(p, i) <= Start(p, i + 1)
      {
        assert TermLoads(p, i, q);
      }
      if count > 0 {
        assert TermLoads(p, count - 1, q) && TermLoads(p, 0, q);
      }
    }
  }

  lemma {:induction false} LoadableLoads(p: Packed, i: nat, q: nat)
    requires Loadable(p, q) && i < |p.offsets|
    ensures TermLoads(p, i, q)
  {
    StartsAscend(p, 0, i);
    StartsAscend(p, i + 1, |p.offsets|);
    RowsBelow(i + 1, |p.offsets|, q);
  }

  /** The slices of term `i` of a loadable packing. */
  lemma {:induction false} TermSlices(p: Packed, i: nat, q: nat)
    requires Loadable(p, q) && i < |p.offsets|
    ensures 0 <= Start(p, i) <= Start(p, i + 1) <= |p.nodes| && 0 <= i * q
    ensures Start(p, i + 1) + (i + 1) * q <= |p.coefficients|
    ensures Start(p, i) + i * q <= Start(p, i + 1) + (i + 1) * q
    ensures TermLoads(p, i, q)
    ensures var s := Term(p, i, q, |p.offsets|).value;
      s.nodes == p.nodes[Start(p, i)..Start(p, i + 1)]
      && s.coefficients == p.coefficients[Start(p, i) + i * q..Start(p, i + 1) + (i + 1) * q]
      && |s.coefficients| == |s.nodes| + q
  {
    LoadableLoads(p, i, q);
    StartsAscend(p, 0, i);
    StartsAscend(p, i + 1, |p.offsets|);
    RowsBelow(i + 1, |p.offsets|, q);
    RowsAscend(i, q);
  }

  /** The nodes of the first `k` terms, and their coefficients, laid end to end. */
  ghost function TermNodes(p: Packed, q: nat, k: nat): seq<Point>
    requires Loadable(p, q) && k <= |p.offsets|
  {
    if k == 0 then []
    else
      LoadableLoads(p, k - 1, q);
      TermNodes(p, q, k - 1) + Term(p, k - 1, q, |p.offsets|).value.nodes
  }

  ghost function TermCoefficients(p: Packed, q: nat, k: nat): seq<real>
    requires Loadable(p, q) && k <= |p.offsets|
  {
    if k == 0 then []
    else
      LoadableLoads(p, k - 1, q);
      TermCoefficients(p, q, k - 1) + Term(p, k - 1, q, |p.offsets|).value.coefficients
  }

  lemma {:induction false} Adjoin<T>(s: seq<T>, a: nat, b: nat, c: nat)
    requires a <= b <= c <= |s|
    ensures s[a..b] + s[b..c] == s[a..c]
  {
  }

  /** Where the coefficients of the first `k` terms end. */
  function End(p: Packed, q: nat, k: nat): int
    requires k <= |p.offsets|
  {
    Start(p, k) + k * q
  }

  /** What one more term adds, with no arithmetic left in it. */
  lemma {:induction false} TermExtends(p: Packed, q: nat, k: nat)
    requires Loadable(p, q) && 0 < k <= |p.offsets|
    ensures 0 <= Start(p, k - 1) <= Start(p, k) <= |p.nodes|
    ensures 0 <= End(p, q, k - 1) <= End(p, q, k) <= |p.coefficients|
    ensures TermNodes(p, q, k) == TermNodes(p, q, k - 1) + p.nodes[Start(p, k - 1)..Start(p, k)]
    ensures TermCoefficients(p, q, k) == TermCoefficients(p, q, k - 1) + p.coefficients[End(p, q, k - 1)..End(p, q, k)]
  {
    hide Term;
    hide Loadable;
    TermSlices(p, k - 1, q);
  }

  lemma {:induction false} FirstExtends(p: Packed, q: nat)
    requires Loadable(p, q) && p.offsets != []
    ensures 0 <= Start(p, 0) <= |p.nodes| && Start(p, 0) <= |p.coefficients| && End(p, q, 0) == Start(p, 0)
    ensures TermNodes(p, q, 0) == [] && TermCoefficients(p, q, 0) == []
  {
    TermSlices(p, 0, q);
  }

  lemma {:induction false} TermsTile(p: Packed, q: nat, k: nat)
    requires Loadable(p, q) && k <= |p.offsets| && p.offsets != []
    ensures 0 <= Start(p, 0) <= Start(p, k) <= |p.nodes| && Start(p, 0) <= End(p, q, k) <= |p.coefficients|
    ensures TermNodes(p, q, k) == p.nodes[Start(p, 0)..Start(p, k)]
    ensures TermCoefficients(p, q, k) == p.coefficients[Start(p, 0)..End(p, q, k)]
  {
    hide Loadable;
    hide Start;
    hide End;
    hide TermNodes;
    hide TermCoefficients;
    FirstExtends(p, q);
    if k > 0 {
      TermsTile(p, q, k - 1);
      TermExtends(p, q, k);
      Adjoin(p.nodes, Start(p, 0), Start(p, k - 1), Start(p, k));
      Adjoin(p.coefficients, Start(p, 0), End(p, q, k - 1), End(p, q, k));
    }
  }

  /**
    When all the terms load, their nodes are every node from the first offset on and their
    coefficients one contiguous run that ends where the last term's polynomial does: no value between
    is skipped or shared by two terms, and each term passes the length check.
   */
  lemma {:induction false} LoadedTermsTile(p: Packed, q: nat)
    requires Loadable(p, q) && |p.offsets| > 0
    ensures var first, last := p.offsets[0], |p.nodes| + |p.offsets| * q;
      0 <= first <= |p.nodes| && first <= last <= |p.coefficients|
      && TermNodes(p, q, |p.offsets|) == p.nodes[first..]
      && TermCoefficients(p, q, |p.offsets|) == p.coefficients[first..last]
    ensures forall i :: 0 <= i < |p.offsets| ==>
      TermLoads(p, i, q)
      && |Term(p, i, q, |p.offsets|).value.coefficients| == |Term(p, i, q, |p.offsets|).value.nodes| + q
  {
    TermsTile(p, q, |p.offsets|);
    forall i | 0 <= i < |p.offsets|
      ensures TermLoads(p, i, q)
      ensures |Term(p, i, q, |p.offsets|).value.coefficients| == |Term(p, i, q, |p.offsets|).value.nodes| + q
    {
      TermSlices(p, i, q);
    }
  }

  // -------------------------------------------------- packing

  /** How many nodes the first `k` splines have. */
  function NodesBefore(splines: seq<Spline>, k: nat): nat
    requires k <= |splines|
  {
    if k == 0 then 0 else NodesBefore(splines, k - 1) + |splines[k - 1].nodes|
  }

  function AllNodes(splines: seq<Spline>, k: nat): (nodes: seq<Point>)
    requires k <= |splines|
    ensures |nodes| == NodesBefore(splines, k)
  {
    if k == 0 then [] else AllNodes(splines, k - 1) + splines[k - 1].nodes
  }

  function AllCoefficients(splines: seq<Spline>, k: nat): seq<real>
    requires k <= |splines|
  {
    if k == 0 then [] else AllCoefficients(splines, k - 1) + splines[k - 1].coefficients
  }

  function AllNormalizations(splines: seq<Spline>, k: nat): (values: seq<real>)
    requires k <= |splines|
    ensures |values| == 3 * k
  {
    if k == 0 then []
    else
      var n := splines[k - 1].normalization;
      AllNormalizations(splines, k - 1) + [n.0, n.1, n.2]
  }

  function AllShapes(splines: seq<Spline>, hasShape: bool): seq<real>
    requires hasShape ==> forall i :: 0 <= i < |splines| ==> splines[i].shape.Some?
  {
    if hasShape then seq(|splines|, i requires 0 <= i < |splines| => splines[i].shape.value) else []
  }

  /** Splines that can be packed together: coefficients for every node and monomial, offsets that fit their type. */
  ghost predicate Packable(splines: seq<Spline>, q: nat, hasShape: bool)
  {
    (forall i :: 0 <= i < |splines| ==>
       |splines[i].coefficients| == |splines[i].nodes| + q && splines[i].shape.Some? == hasShape)
    && forall i :: 0 <= i < |splines| ==> NodesBefore(splines, i) < 0x8000_0000
  }

  /** The packing of a direction's splines into shared arrays. */
  ghost function Pack(splines: seq<Spline>, q: nat, hasShape: bool): Packed
    requires Packable(splines, q, hasShape)
  {
    Packed(AllNormalizations(splines, |splines|),
           seq(|splines|, i requires 0 <= i < |splines| => NodesBefore(splines, i)),
           AllNodes(splines, |splines|), AllCoefficients(splines, |splines|), AllShapes(splines, hasShape))
  }

  lemma {:induction false} NodesSlice(splines: seq<Spline>, i: nat, k: nat)
    requires i < k <= |splines|
    ensures NodesBefore(splines, i + 1) <= NodesBefore(splines, k)
    ensures AllNodes(splines, k)[NodesBefore(splines, i)..NodesBefore(splines, i + 1)] == splines[i].nodes
  {
    if i + 1 < k {
      NodesSlice(splines, i, k - 1);
      SliceOfLonger(AllNodes(splines, k - 1), splines[k - 1].nodes, NodesBefore(splines, i),
                    NodesBefore(splines, i + 1));
    }
  }

  lemma {:induction false} SliceOfLonger<T>(s: seq<T>, t: seq<T>, a: nat, b: nat)
    requires a <= b <= |s|
    ensures (s + t)[a..b] == s[a..b]
  {
  }

  lemma {:induction false} CoefficientsSlice(splines: seq<Spline>, i: nat, k: nat, q: nat)
    requires i < k <= |splines|
    requires forall j :: 0 <= j < |splines| ==> |splines[j].coefficients| == |splines[j].nodes| + q
    ensures 0 <= i * q
    ensures NodesBefore(splines, i) + i * q <= NodesBefore(splines, i + 1) + (i + 1) * q
    ensures NodesBefore(splines, i + 1) + (i + 1) * q <= |AllCoefficients(splines, k)|
    ensures AllCoefficients(splines, k)[NodesBefore(splines, i) + i * q..NodesBefore(splines, i + 1) + (i + 1) * q]
            == splines[i].coefficients
  {
    RowsAscend(i, q);
    CoefficientsLength(splines, k - 1, q);
    CoefficientsLength(splines, k, q);
    if i + 1 < k {
      CoefficientsSlice(splines, i, k - 1, q);
      SliceOfLonger(AllCoefficients(splines, k - 1), splines[k - 1].coefficients,
                    NodesBefore(splines, i) + i * q, NodesBefore(splines, i + 1) + (i + 1) * q);
    }
  }

  lemma {:induction false} CoefficientsLength(splines: seq<Spline>, k: nat, q: nat)
    requires k <= |splines| && forall j :: 0 <= j < |splines| ==> |splines[j].coefficients| == |splines[j].nodes| + q
    ensures |AllCoefficients(splines, k)| == NodesBefore(splines, k) + k * q
  {
    if k > 0 {
      CoefficientsLength(splines, k - 1, q);
      RowsAscend(k - 1, q);
    }
  }

  lemma {:induction false} NormalizationSlice(splines: seq<Spline>, i: nat, k: nat)
    requires i < k <= |splines|
    ensures var n := AllNormalizations(splines, k); (n[i * 3], n[i * 3 + 1], n[i * 3 + 2]) == splines[i].normalization
  {
    if i + 1 < k {
      NormalizationSlice(splines, i, k - 1);
    }
  }

  /** Cutting out a term, when its bounds are known. */
  lemma {:induction false} TermIs(p: Packed, q: nat, i: nat, start: nat, end: nat)
    requires i < |p.offsets| && p.offsets[i] == start
    requires end == if i + 1 < |p.offsets| then p.offsets[i + 1] else |p.nodes|
    requires start <= end <= |p.nodes| && end + (i + 1) * q <= |p.coefficients| && (i + 1) * 3 <= |p.normalizations|
    ensures 0 <= i * q && start + i * q <= end + (i + 1) * q
    ensures Term(p, i, q, |p.offsets|) == Ok(Spline(
      (p.normalizations[i * 3], p.normalizations[i * 3 + 1], p.normalizations[i * 3 + 2]), p.nodes[start..end],
      p.coefficients[start + i * q..end + (i + 1) * q], if i < |p.shapes| then Some(p.shapes[i]) else None))
  {
    RowsAscend(i, q);
  }

  lemma {:induction false} PackedBounds(splines: seq<Spline>, q: nat, hasShape: bool, i: nat)
    requires Packable(splines, q, hasShape) && i < |splines|
    ensures var p := Pack(splines, q, hasShape);
      |p.offsets| == |splines| && p.offsets[i] == NodesBefore(splines, i)
      && NodesBefore(splines, i + 1) == (if i + 1 < |p.offsets| then p.offsets[i + 1] else |p.nodes|)
      && NodesBefore(splines, i) <= NodesBefore(splines, i + 1) <= |p.nodes|
  {
    hide AllCoefficients;
    hide AllNormalizations;
    hide AllShapes;
    NodesSlice(splines, i, |splines|);
  }

  lemma {:induction false} PackedShape(splines: seq<Spline>, q: nat, hasShape: bool, i: nat)
    requires Packable(splines, q, hasShape) && i < |splines|
    ensures var p := Pack(splines, q, hasShape);
      splines[i].shape == if i < |p.shapes| then Some(p.shapes[i]) else None
  {
    hide AllNodes;
    hide AllCoefficients;
    hide AllNormalizations;
    hide NodesBefore;
  }

  /** Unpacking inverts packing, term by term. */
  lemma {:induction false} PackedTermReadsBack(splines: seq<Spline>, q: nat, hasShape: bool, i: nat)
    requires Packable(splines, q, hasShape) && i < |splines|
    ensures Term(Pack(splines, q, hasShape), i, q, |splines|) == Ok(splines[i])
  {
    hide AllNodes;
    hide AllCoefficients;
    hide AllNormalizations;
    hide AllShapes;
    hide NodesBefore;
    hide Term;
    PackedBounds(splines, q, hasShape, i);
    PackedShape(splines, q, hasShape, i);
    NodesSlice(splines, i, |splines|);
    CoefficientsSlice(splines, i, |splines|, q);
    NormalizationSlice(splines, i, |splines|);
    TermIs(Pack(splines, q, hasShape), q, i, NodesBefore(splines, i), NodesBefore(splines, i + 1));
  }
}
