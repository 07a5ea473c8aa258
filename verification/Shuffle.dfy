/** Byte shuffling, and the same rearrangement applied to interleaved samples. */
module Shuffle {
  import opened Primitives

  /** Whether items of this size leave a block of this length as it is. */
  predicate IsIdle(n: nat, item: nat) { item < 2 || n < item }

  /** Where position `k` of rows of `d` goes when they are read as columns of `m`. */
  function Transposed(k: nat, m: nat, d: nat): nat
    requires d > 0
  {
    k % d * m + k / d
  }

  /** The position in the plain block of what the shuffled block holds at `k`. */
  function ShuffleSource(n: nat, item: nat, k: nat): nat
  {
    if IsIdle(n, item) || k >= n / item * item then k
    else
      DivCeiling(n, item);
      Transposed(k, item, n / item)
  }

  /** The position in the shuffled block of what the plain block holds at `k`. */
  function UnshuffleSource(n: nat, item: nat, k: nat): nat
  {
    if IsIdle(n, item) || k >= n / item * item then k else Transposed(k, n / item, item)
  }

  lemma {:induction false} DivModOf(q: nat, r: nat, d: nat)
    requires r < d
    ensures (q * d + r) / d == q && (q * d + r) % d == r
  {
    var n := q * d + r;
    var e := n / d - q;
    assert d * e == r - n % d;
    assert e >= 1 ==> d * e >= d;
    assert e <= -1 ==> d * e + d <= 0;
  }

  lemma {:induction false} BelowProduct(q: nat, r: nat, d: nat, m: nat)
    requires q < m && r < d
    ensures q * d + r < m * d
  {
    var e: nat := m - 1 - q;
    assert m * d == (e + q + 1) * d == e * d + q * d + d;
  }

  lemma {:induction false} DivBelowFactor(k: nat, m: nat, d: nat)
    requires d > 0 && k < m * d
    ensures k / d < m && k == k / d * d + k % d
  {
    var q := k / d;
    assert k == q * d + k % d;
    var e := q - m;
    assert e >= 0 ==> e * d >= 0;
    assert q * d == e * d + m * d;
  }

  lemma {:induction false} SourcesInRange(n: nat, item: nat, k: nat)
    requires k < n
    ensures ShuffleSource(n, item, k) < n && UnshuffleSource(n, item, k) < n
  {
    SourcesInvert(n, item, k);
  }

  /** The two position maps stay in range and undo each other. */
  lemma {:induction false} SourcesInvert(n: nat, item: nat, k: nat)
    requires k < n
    ensures ShuffleSource(n, item, k) < n && UnshuffleSource(n, item, k) < n
    ensures UnshuffleSource(n, item, ShuffleSource(n, item, k)) == k
    ensures ShuffleSource(n, item, UnshuffleSource(n, item, k)) == k
  {
    if !IsIdle(n, item) && k < n / item * item {
      DivCeiling(n, item);
      SwapsInvert(k, n / item, item);
    }
  }

  lemma {:induction false} SwapsInvert(k: nat, count: nat, item: nat)
    requires count > 0 && item > 0 && k < count * item
    ensures Transposed(k, item, count) < count * item && Transposed(k, count, item) < count * item
    ensures Transposed(Transposed(k, item, count), count, item) == k
    ensures Transposed(Transposed(k, count, item), item, count) == k
  {
    assert item * count == count * item;
    Swap(k, item, count);
    Swap(k, count, item);
  }

  lemma {:induction false} DivCeiling(n: nat, item: nat)
    requires item > 0
    ensures n < (n / item + 1) * item && n / item * item <= n
    ensures n >= item ==> n / item > 0
  {
    assert n == n / item * item + n % item;
    assert (n / item + 1) * item == n / item * item + item;
  }

  /** Transposing `m` rows of `d` stays in range, and transposing back returns. */
  lemma {:induction false} Swap(k: nat, m: nat, d: nat)
    requires d > 0 && m > 0 && k < m * d
    ensures Transposed(k, m, d) < d * m && Transposed(Transposed(k, m, d), d, m) == k
  {
    DivBelowFactor(k, m, d);
    DivModOf(k % d, k / d, m);
    BelowProduct(k % d, k / d, m, d);
  }

  function Shuffled<T>(plain: seq<T>, item: nat): (out: seq<T>)
    ensures |out| == |plain|
  {
    seq(|plain|,
        k requires 0 <= k < |plain| => SourcesInRange(|plain|, item, k); plain[ShuffleSource(|plain|, item, k)])
  }

  function Unshuffled<T>(shuffled: seq<T>, item: nat): (out: seq<T>)
    ensures |out| == |shuffled|
  {
    seq(|shuffled|, k requires 0 <= k < |shuffled| =>
      SourcesInRange(|shuffled|, item, k); shuffled[UnshuffleSource(|shuffled|, item, k)])
  }

  /** Shuffling and unshuffling undo each other in both orders, whatever the item size. */
  lemma {:induction false} ShuffleInverts<T>(s: seq<T>, item: nat)
    ensures Unshuffled(Shuffled(s, item), item) == s
    ensures Shuffled(Unshuffled(s, item), item) == s
  {
    forall k | 0 <= k < |s|
      ensures Unshuffled(Shuffled(s, item), item)[k] == s[k] && Shuffled(Unshuffled(s, item), item)[k] == s[k]
    {
      SourcesInvert(|s|, item, k);
    }
  }

  /** What the shuffled form is: byte `b` of item `i` at `b * count + i`, the trailing partial item in place. */
  lemma {:induction false} ShuffledAt<T>(plain: seq<T>, item: nat, b: nat, i: nat)
    requires 2 <= item && b < item && i < |plain| / item
    ensures var count := |plain| / item;
      b * count + i < |plain| && i * item + b < |plain| && Shuffled(plain, item)[b * count + i] == plain[i * item + b]
  {
    ShuffleSourceAt(|plain|, item, b, i);
  }

  lemma {:induction false} ShuffleSourceAt(n: nat, item: nat, b: nat, i: nat)
    requires 2 <= item && b < item && i < n / item
    ensures b * (n / item) + i < n && i * item + b < n && ShuffleSource(n, item, b * (n / item) + i) == i * item + b
  {
    var count := n / item;
    DivCeiling(n, item);
    BelowProduct(b, i, count, item);
    BelowProduct(i, b, item, count);
    assert item * count == count * item;
    DivModOf(b, i, count);
    assert n >= item;
  }

  lemma {:induction false} ShuffledTail<T>(plain: seq<T>, item: nat)
    requires item > 0
    ensures |plain| / item * item <= |plain|
    ensures Shuffled(plain, item)[|plain| / item * item..] == plain[|plain| / item * item..]
  {
    DivCeiling(|plain|, item);
    var whole := |plain| / item * item;
    forall k | whole <= k < |plain|
      ensures Shuffled(plain, item)[k] == plain[k]
    {
      TailSource(|plain|, item, k);
    }
  }

  lemma {:induction false} TailSource(n: nat, item: nat, k: nat)
    requires item > 0 && n / item * item <= k < n
    ensures ShuffleSource(n, item, k) == k
  {
  }

  // -------------------------------------------------- a permutation

  ghost function Places<T>(s: seq<T>, x: T): set<nat> { set i: nat | i < |s| && s[i] == x }

  lemma {:induction false} CountIsPlaces<T>(s: seq<T>, x: T)
    ensures multiset(s)[x] == |Places(s, x)|
  {
    if s == [] {
      assert Places(s, x) == {};
    } else {
      var n := |s| - 1;
      CountIsPlaces(s[..n], x);
      assert s == s[..n] + [s[n]];
      assert Places(s, x) == Places(s[..n], x) + if s[n] == x then {n} else {};
    }
  }

  ghost function Mapped(a: set<nat>, f: seq<nat>): set<nat> { set i | i in a && i < |f| :: f[i] }

  lemma {:induction false} ImageSize(a: set<nat>, f: seq<nat>)
    requires forall i <- a :: i < |f|
    requires forall i, j :: i in a && j in a && i != j ==> f[i] != f[j]
    ensures |Mapped(a, f)| == |a|
    decreases |a|
  {
    if a != {} {
      var x :| x in a;
      ImageSize(a - {x}, f);
      assert Mapped(a, f) == Mapped(a - {x}, f) + {f[x]};
    }
  }

  lemma {:induction false} SamePlaces<T>(s: seq<T>, t: seq<T>, f: seq<nat>, g: seq<nat>, x: T)
    requires |s| == |t| == |f| == |g|
    requires forall k :: 0 <= k < |s| ==> f[k] < |s| && g[k] < |s|
    requires forall k :: 0 <= k < |s| ==> g[f[k]] == k && f[g[k]] == k
    requires forall k :: 0 <= k < |s| ==> t[k] == s[f[k]]
    ensures |Places(s, x)| == |Places(t, x)|
  {
    var image := Mapped(Places(t, x), f);
    forall j | j in Places(s, x)
      ensures j in image
    {
      assert f[g[j]] == j && g[j] in Places(t, x);
    }
    assert image == Places(s, x);
    ImageSize(Places(t, x), f);
  }

  lemma {:induction false} ShuffledIsPermutation<T(!new)>(s: seq<T>, item: nat)
    ensures multiset(Shuffled(s, item)) == multiset(s)
  {
    var n, t := |s|, Shuffled(s, item);
    var f := seq(n, k requires 0 <= k < n => ShuffleSource(n, item, k));
    var g := seq(n, k requires 0 <= k < n => UnshuffleSource(n, item, k));
    forall k | 0 <= k < n
      ensures f[k] < n && g[k] < n
      ensures g[f[k]] == k && f[g[k]] == k
    {
      SourcesInvert(n, item, k);
    }
    forall x: T
      ensures multiset(t)[x] == multiset(s)[x]
    {
      CountIsPlaces(s, x);
      CountIsPlaces(t, x);
      SamePlaces(s, t, f, g, x);
    }
  }

  /** Both ways round, bytes are only rearranged. */
  lemma {:induction false} ShuffleIsPermutation<T(!new)>(s: seq<T>, item: nat)
    ensures multiset(Shuffled(s, item)) == multiset(s) && multiset(Unshuffled(s, item)) == multiset(s)
  {
    hide Shuffled;
    hide Unshuffled;
    ShuffleInverts(s, item);
    ShuffledIsPermutation(s, item);
    ShuffledIsPermutation(Unshuffled(s, item), item);
  }

  /** Both ways round, the trailing partial item stays in place. */
  lemma {:induction false} TailStays<T>(s: seq<T>, item: nat)
    requires item > 0
    ensures var whole := |s| / item * item;
      whole <= |s| && Shuffled(s, item)[whole..] == s[whole..] && Unshuffled(s, item)[whole..] == s[whole..]
  {
    hide Shuffled;
    hide Unshuffled;
    ShuffledTail(s, item);
    ShuffleInverts(s, item);
    ShuffledTail(Unshuffled(s, item), item);
  }

  // -------------------------------------------------- the source's loops

  /** The inner loop of shuffling: byte `b` of every item, into its plane. */
  method GatherPlane(plain: seq<byte>, item: nat, b: nat, out: array<byte>)
    requires 2 <= item <= |plain| == out.Length && b < item
    modifies out
    ensures forall k :: 0 <= k < out.Length && !InPlane(|plain|, item, b, k) ==> out[k] == old(out[k])
    ensures forall k :: 0 <= k < out.Length && InPlane(|plain|, item, b, k) ==> out[k] == Shuffled(plain, item)[k]
  {
    var count := |plain| / item;
    assert (b + 1) * count == b * count + count;
    for i := 0 to count
      invariant forall k :: 0 <= k < out.Length && !(b * count <= k < b * count + i) ==> out[k] == old(out[k])
      invariant forall k :: b * count <= k < b * count + i && k < out.Length ==> out[k] == Shuffled(plain, item)[k]
    {
      ShuffledAt(plain, item, b, i);
      out[b * count + i] := plain[i * item + b];
    }
  }

  /** Position `k` of a shuffled block is in plane `b`. */
  predicate InPlane(n: nat, item: nat, b: nat, k: nat)
    requires item > 0
  {
    b * (n / item) <= k < (b + 1) * (n / item)
  }

  /** A last item that is not whole keeps its place. */
  method CopyTail(input: seq<byte>, whole: nat, out: array<byte>)
    requires whole <= |input| == out.Length
    modifies out
    ensures forall k :: 0 <= k < whole ==> out[k] == old(out[k])
    ensures forall k :: whole <= k < out.Length ==> out[k] == input[k]
  {
    for k := whole to |input|
      invariant forall j :: 0 <= j < whole ==> out[j] == old(out[j])
      invariant forall j :: whole <= j < k ==> out[j] == input[j]
    {
      out[k] := input[k];
    }
  }

  method ShuffleBytes(plain: seq<byte>, item: nat) returns (result: seq<byte>)
    ensures result == Shuffled(plain, item)
  {
    if item < 2 || |plain| < item {
      return plain;
    }
    var count := |plain| / item;
    DivCeiling(|plain|, item);
    var out := new byte[|plain|](_ => 0);
    for b := 0 to item
      invariant forall k :: 0 <= k < out.Length && k < b * count ==> out[k] == Shuffled(plain, item)[k]
    {
      PlaneEnds(b, count);
      GatherPlane(plain, item, b, out);
    }
    CopyTail(plain, count * item, out);
    TailStays(plain, item);
    forall k | count * item <= k < |plain|
      ensures out[k] == Shuffled(plain, item)[k]
    {
      assert plain[k] == plain[count * item..][k - count * item];
      assert Shuffled(plain, item)[k] == Shuffled(plain, item)[count * item..][k - count * item];
    }
    assert item * count == count * item;
    return out[..];
  }

  lemma {:induction false} PlaneEnds(b: nat, count: nat)
    ensures (b + 1) * count == b * count + count
  {
  }

  /** Byte `b` of the item that position `k` of a plain block is in has index `b`. */
  lemma {:induction false} UnshuffledAt<T>(shuffled: seq<T>, item: nat, b: nat, i: nat)
    requires 2 <= item && b < item && i < |shuffled| / item
    ensures var count := |shuffled| / item;
      b * count + i < |shuffled| && i * item + b < |shuffled|
      && (i * item + b) % item == b && (i * item + b) / item == i
      && Unshuffled(shuffled, item)[i * item + b] == shuffled[b * count + i]
  {
    var n, count := |shuffled|, |shuffled| / item;
    ShuffleSourceAt(n, item, b, i);
    SourcesInvert(n, item, b * count + i);
    DivModOf(i, b, item);
  }

  /** Plane `b` lies within the whole items. */
  lemma {:induction false} PlaneBelow(b: nat, item: nat, count: nat)
    requires b < item
    ensures 0 <= b * count && b * count + count <= count * item
  {
    var e: nat := item - 1 - b;
    assert count * item == (e + b + 1) * count == e * count + b * count + count;
  }

  /** The inner loop of unshuffling: one plane, scattered to byte `b` of every item. */
  method ScatterPlane(shuffled: seq<byte>, item: nat, b: nat, out: array<byte>)
    requires 2 <= item <= |shuffled| == out.Length && b < item
    modifies out
    ensures forall k :: 0 <= k < out.Length && !InLane(item, b, |shuffled| / item, k) ==> out[k] == old(out[k])
    ensures forall k :: 0 <= k < out.Length && InLane(item, b, |shuffled| / item, k) ==>
      out[k] == Unshuffled(shuffled, item)[k]
  {
    hide Unshuffled;
    hide InLane;
    var count := |shuffled| / item;
    DivCeiling(|shuffled|, item);
    PlaneBelow(b, item, count);
    var start: nat := b * count;
    var plane := shuffled[start..start + count];
    LaneStarts(item, b, out.Length);
    ghost var written: set<nat> := {};
    for i := 0 to count
      invariant written == Lane(item, b, i, out.Length)
      invariant forall k :: 0 <= k < out.Length && k !in written ==> out[k] == old(out[k])
      invariant forall k :: 0 <= k < out.Length && k in written ==> out[k] == Unshuffled(shuffled, item)[k]
    {
      UnshuffledAt(shuffled, item, b, i);
      assert plane[i] == shuffled[start + i];
      var place := i * item + b;
      out[place] := plane[i];
      LaneGrows(item, b, i, out.Length);
      written := written + {place};
    }
  }

  /** Position `k` is byte `b` of one of the first `i` items. */
  predicate InLane(item: nat, b: nat, i: nat, k: nat)
    requires item > 0
  {
    k % item == b && k / item < i
  }

  /** Those positions below `n`. */
  ghost function Lane(item: nat, b: nat, i: nat, n: nat): set<nat>
    requires item > 0
  {
    set k: nat | k < n && InLane(item, b, i, k)
  }

  lemma {:induction false} LaneStarts(item: nat, b: nat, n: nat)
    requires item > 0
    ensures Lane(item, b, 0, n) == {}
  {
    forall k: nat
      ensures !InLane(item, b, 0, k)
    {
      QuotientAndRemainder(k, item);
    }
  }

  lemma {:induction false} LaneGrows(item: nat, b: nat, i: nat, n: nat)
    requires b < item && i * item + b < n
    ensures Lane(item, b, i + 1, n) == Lane(item, b, i, n) + {i * item + b}
  {
    forall k: nat
      ensures InLane(item, b, i + 1, k) <==> InLane(item, b, i, k) || k == i * item + b
    {
      LaneStep(item, b, i, k);
    }
  }

  lemma {:induction false} LaneStep(item: nat, b: nat, i: nat, k: nat)
    requires b < item
    ensures InLane(item, b, i + 1, k) <==> InLane(item, b, i, k) || k == i * item + b
  {
    QuotientAndRemainder(k, item);
    DivModOf(i, b, item);
  }

  lemma {:induction false} QuotientAndRemainder(k: nat, item: nat)
    requires item > 0
    ensures k == k / item * item + k % item
  {
  }

  lemma {:induction false} WholeItems(k: nat, item: nat, count: nat)
    requires item > 0
    ensures k / item < count <==> k < count * item
  {
    QuotientAndRemainder(k, item);
    if k / item < count {
      BelowProduct(k / item, k % item, item, count);
    } else {
      var e: nat := k / item - count;
      assert k / item * item == e * item + count * item;
    }
  }

  /** Position `k` is one of the first `b` bytes of one of the first `i` items. */
  predicate BeforeLane(item: nat, b: nat, i: nat, k: nat)
    requires item > 0
  {
    k % item < b && k / item < i
  }

  method UnshuffleBytes(shuffled: seq<byte>, item: nat) returns (result: seq<byte>)
    ensures result == Unshuffled(shuffled, item)
  {
    if item < 2 || |shuffled| < item {
      return shuffled;
    }
    var count := |shuffled| / item;
    DivCeiling(|shuffled|, item);
    var out := new byte[|shuffled|](_ => 0);
    for b := 0 to item
      invariant forall k :: 0 <= k < out.Length && BeforeLane(item, b, count, k) ==>
        out[k] == Unshuffled(shuffled, item)[k]
    {
      ScatterPlane(shuffled, item, b, out);
    }
    CopyTail(shuffled, count * item, out);
    forall k | 0 <= k < |shuffled|
      ensures out[k] == Unshuffled(shuffled, item)[k]
    {
      WholeItems(k, item, count);
    }
    return out[..];
  }
}
