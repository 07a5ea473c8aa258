/** RGB working spaces and their matrices, over exact reals. */
module Colour {
  import opened Primitives
  import opened RealAlgebra

  type Vector = v: seq<real> | |v| == 3 witness [0.0, 0.0, 0.0]

  const ZEROS: Vector := [0.0, 0.0, 0.0]

  /** Rows of three. */
  type Matrix = m: seq<Vector> | |m| == 3 witness [ZEROS, ZEROS, ZEROS]

  const ONES: Vector := [1.0, 1.0, 1.0]

  /** The D50 reference white. */
  const D50_WHITE: Vector := [0.96422, 1.0, 0.82521]

  // -------------------------------------------------- matrices

  function Abs(x: real): real { if x < 0.0 then -x else x }

  function Inner(a: Vector, b: Vector): real { a[0] * b[0] + a[1] * b[1] + a[2] * b[2] }

  function Column(m: Matrix, j: nat): Vector
    requires j < 3
  {
    [m[0][j], m[1][j], m[2][j]]
  }

  function Applied(m: Matrix, v: Vector): Vector { [Inner(m[0], v), Inner(m[1], v), Inner(m[2], v)] }

  function Cross(v: Vector, w: Vector): Vector
  {
    [v[1] * w[2] - v[2] * w[1], v[2] * w[0] - v[0] * w[2], v[0] * w[1] - v[1] * w[0]]
  }

  function Det(m: Matrix): real
  {
    m[0][0] * (m[1][1] * m[2][2] - m[1][2] * m[2][1])
    - m[0][1] * (m[1][0] * m[2][2] - m[1][2] * m[2][0])
    + m[0][2] * (m[1][0] * m[2][1] - m[1][1] * m[2][0])
  }

  /** The cofactor of `(j, i)`, its rows and columns counted cyclically so that no sign is needed. */
  function Cofactor(m: Matrix, i: nat, j: nat): real
    requires i < 3 && j < 3
  {
    Minor(m, (j + 1) % 3, (j + 2) % 3, (i + 1) % 3, (i + 2) % 3)
  }

  /** The minor of two rows and two columns, in the order given. */
  function Minor(m: Matrix, a: nat, b: nat, c: nat, d: nat): real
    requires a < 3 && b < 3 && c < 3 && d < 3
  {
    m[a][c] * m[b][d] - m[a][d] * m[b][c]
  }

  function InverseRow(m: Matrix, i: nat): Vector
    requires i < 3 && Det(m) != 0.0
  {
    [Cofactor(m, i, 0) / Det(m), Cofactor(m, i, 1) / Det(m), Cofactor(m, i, 2) / Det(m)]
  }

  function Inverse(m: Matrix): Matrix
    requires Det(m) != 0.0
  {
    [InverseRow(m, 0), InverseRow(m, 1), InverseRow(m, 2)]
  }

  const SMALLEST_DETERMINANT := 0.000_000_000_000_001
  const SMALLEST_BASE := 0.000_000_000_001

  method Apply(matrix: Matrix, v: Vector) returns (out: Vector)
    ensures out == Applied(matrix, v)
  {
    hide Inner;
    out := ZEROS;
    for i := 0 to 3
      invariant forall k :: 0 <= k < i ==> out[k] == Inner(matrix[k], v)
    {
      out := out[i := Inner(matrix[i], v)];
    }
  }

  /** The matrix's inverse by cofactors, unless its determinant is too small. */
  method Invert(m: Matrix) returns (r: Option<Matrix>)
    ensures r == if Abs(Det(m)) < SMALLEST_DETERMINANT then None else Some(Inverse(m))
  {
    hide Det;
    var det := Det(m);
    if Abs(det) < SMALLEST_DETERMINANT {
      return None;
    }
    var out: Matrix := [ZEROS, ZEROS, ZEROS];
    for i := 0 to 3
      invariant forall k :: 0 <= k < i ==> out[k] == InverseRow(m, k)
    {
      var row: Vector := out[i];
      for j := 0 to 3
        invariant forall k :: 0 <= k < j ==> row[k] == Cofactor(m, i, k) / det
      {
        row := row[j := Cofactor(m, i, j) / det];
      }
      assert row == InverseRow(m, i);
      out := out[i := row];
    }
    assert out == Inverse(m);
    return Some(out);
  }

  // -------------------------------------------------- the inverse is one

  function Triple(u: Vector, v: Vector, w: Vector): real { Inner(u, Cross(v, w)) }

  lemma {:induction false} TripleCycles(u: Vector, v: Vector, w: Vector)
    ensures Triple(u, v, w) == Triple(v, w, u) == Triple(w, u, v)
  {
    TripleTurns(u, v, w);
    TripleTurns(v, w, u);
  }

  lemma {:induction false} TripleTurns(u: Vector, v: Vector, w: Vector)
    ensures Triple(u, v, w) == Triple(v, w, u)
  {
    TurnScalars(u[0], u[1], u[2], v[0], v[1], v[2], w[0], w[1], w[2]);
  }

  lemma {:induction false} TurnScalars(a: real, b: real, c: real, d: real, e: real, f: real, g: real, h: real, i: real)
    ensures a * (e * i - f * h) + b * (f * g - d * i) + c * (d * h - e * g)
         == d * (h * c - i * b) + e * (i * a - g * c) + f * (g * b - h * a)
  {
  }

  lemma {:induction false} TripleVanishes(u: Vector, v: Vector)
    ensures Triple(u, u, v) == 0.0 && Triple(u, v, u) == 0.0
  {
    VanishScalars(u[0], u[1], u[2], v[0], v[1], v[2]);
  }

  lemma {:induction false} VanishScalars(a: real, b: real, c: real, d: real, e: real, f: real)
    ensures a * (b * f - c * e) + b * (c * d - a * f) + c * (a * e - b * d) == 0.0
    ensures a * (e * c - f * b) + b * (f * a - d * c) + c * (d * b - e * a) == 0.0
  {
  }

  lemma {:induction false} DetIsTriple(m: Matrix)
    ensures Det(m) == Triple(m[0], m[1], m[2]) == Triple(Column(m, 0), Column(m, 1), Column(m, 2))
  {
    DetScalars(m[0][0], m[0][1], m[0][2], m[1][0], m[1][1], m[1][2], m[2][0], m[2][1], m[2][2]);
  }

  lemma {:induction false} DetScalars(a: real, b: real, c: real, d: real, e: real, f: real, g: real, h: real, i: real)
    ensures a * (e * i - f * h) - b * (d * i - f * g) + c * (d * h - e * g)
         == a * (e * i - f * h) + b * (f * g - d * i) + c * (d * h - e * g)
    ensures a * (e * i - f * h) - b * (d * i - f * g) + c * (d * h - e * g)
         == a * (e * i - h * f) + d * (h * c - b * i) + g * (b * f - e * c)
  {
  }

  lemma {:induction false} CrossColumns(m: Matrix, c: nat, d: nat)
    requires c < 3 && d < 3
    ensures Cross(Column(m, c), Column(m, d)) == [Minor(m, 1, 2, c, d), Minor(m, 2, 0, c, d), Minor(m, 0, 1, c, d)]
  {
    var v, w, x := Column(m, c), Column(m, d), Cross(Column(m, c), Column(m, d));
    assert x[0] == v[1] * w[2] - v[2] * w[1] == Minor(m, 1, 2, c, d);
    assert x[1] == v[2] * w[0] - v[0] * w[2] == Minor(m, 2, 0, c, d);
    assert x[2] == v[0] * w[1] - v[1] * w[0] == Minor(m, 0, 1, c, d);
  }

  lemma {:induction false} CrossRows(m: Matrix, a: nat, b: nat)
    requires a < 3 && b < 3
    ensures Cross(m[a], m[b]) == [Minor(m, a, b, 1, 2), Minor(m, a, b, 2, 0), Minor(m, a, b, 0, 1)]
  {
    var x := Cross(m[a], m[b]);
    assert x[0] == Minor(m, a, b, 1, 2);
    assert x[1] == Minor(m, a, b, 2, 0);
    assert x[2] == Minor(m, a, b, 0, 1);
  }

  /** The cofactors of a row are a cross product of columns, and those of a column one of rows. */
  lemma {:induction false} CofactorsCross(m: Matrix, k: nat)
    requires k < 3
    ensures [Cofactor(m, k, 0), Cofactor(m, k, 1), Cofactor(m, k, 2)]
            == Cross(Column(m, (k + 1) % 3), Column(m, (k + 2) % 3))
    ensures [Cofactor(m, 0, k), Cofactor(m, 1, k), Cofactor(m, 2, k)] == Cross(m[(k + 1) % 3], m[(k + 2) % 3])
  {
    hide Minor;
    hide Cross;
    CrossColumns(m, (k + 1) % 3, (k + 2) % 3);
    CrossRows(m, (k + 1) % 3, (k + 2) % 3);
  }

  /** Rows against columns of cofactors give the determinant on the diagonal and nothing off it. */
  lemma {:induction false} RowsExpand(m: Matrix, i: nat, j: nat)
    requires i < 3 && j < 3
    ensures Inner(m[i], [Cofactor(m, 0, j), Cofactor(m, 1, j), Cofactor(m, 2, j)]) == if i == j then Det(m) else 0.0
  {
    hide Minor;
    hide Cross;
    hide Inner;
    hide Det;
    hide Cofactor;
    CofactorsCross(m, j);
    DetIsTriple(m);
    TripleCycles(m[0], m[1], m[2]);
    TripleVanishes(m[i], m[(j + 1) % 3]);
    TripleVanishes(m[i], m[(j + 2) % 3]);
    assert i == j || i == (j + 1) % 3 || i == (j + 2) % 3;
  }

  /** And rows of cofactors against columns likewise. */
  lemma {:induction false} ColumnsExpand(m: Matrix, i: nat, j: nat)
    requires i < 3 && j < 3
    ensures Inner([Cofactor(m, i, 0), Cofactor(m, i, 1), Cofactor(m, i, 2)], Column(m, j)) ==
      if i == j then Det(m) else 0.0
  {
    hide Minor;
    hide Cross;
    hide Inner;
    hide Det;
    hide Cofactor;
    hide Column;
    var c := [Cofactor(m, i, 0), Cofactor(m, i, 1), Cofactor(m, i, 2)];
    CofactorsCross(m, i);
    InnerSwaps(c, Column(m, j));
    DetIsTriple(m);
    TripleCycles(Column(m, 0), Column(m, 1), Column(m, 2));
    TripleVanishes(Column(m, j), Column(m, (i + 1) % 3));
    TripleVanishes(Column(m, j), Column(m, (i + 2) % 3));
    assert j == i || j == (i + 1) % 3 || j == (i + 2) % 3;
  }

  lemma {:induction false} InnerSwaps(a: Vector, b: Vector)
    ensures Inner(a, b) == Inner(b, a)
  {
  }

  // -------------------------------------------------- going there and back

  function Scaled(v: Vector, k: real): Vector
    requires k != 0.0
  {
    [v[0] / k, v[1] / k, v[2] / k]
  }

  lemma {:induction false} InnerScales(a: Vector, b: Vector, k: real)
    requires k != 0.0
    ensures Inner(a, Scaled(b, k)) == Inner(a, b) / k && Inner(Scaled(b, k), a) == Inner(b, a) / k
  {
    ScaleScalars(a[0], a[1], a[2], b[0], b[1], b[2], k);
  }

  lemma {:induction false} ScaleScalars(a: real, b: real, c: real, x: real, y: real, z: real, k: real)
    requires k != 0.0
    ensures a * (x / k) + b * (y / k) + c * (z / k) == (a * x + b * y + c * z) / k
    ensures (x / k) * a + (y / k) * b + (z / k) * c == (x * a + y * b + z * c) / k
  {
    OverScalar(a, x, k);
    OverScalar(b, y, k);
    OverScalar(c, z, k);
  }

  lemma {:induction false} OverScalar(a: real, x: real, k: real)
    requires k != 0.0
    ensures a * (x / k) == (a * x) / k && (x / k) * a == (x * a) / k
  {
  }

  /** Two matrices that undo each other, entry by entry, in both orders. */
  ghost predicate AreInverse(m: Matrix, n: Matrix)
  {
    forall i: nat, j: nat :: i < 3 && j < 3 ==>
      Inner(m[i], Column(n, j)) == Kronecker(i, j) && Inner(n[i], Column(m, j)) == Kronecker(i, j)
  }

  function Kronecker(i: nat, j: nat): real { if i == j then 1.0 else 0.0 }

  lemma {:induction false} InverseParts(m: Matrix, i: nat)
    requires i < 3 && Det(m) != 0.0
    ensures Inverse(m)[i] == Scaled([Cofactor(m, i, 0), Cofactor(m, i, 1), Cofactor(m, i, 2)], Det(m))
    ensures Column(Inverse(m), i) == Scaled([Cofactor(m, 0, i), Cofactor(m, 1, i), Cofactor(m, 2, i)], Det(m))
  {
    hide Det;
    hide Cofactor;
  }

  /** The cofactor inverse is a two-sided inverse of every matrix whose determinant is not zero. */
  lemma {:induction false} InverseIsTwoSided(m: Matrix)
    requires Det(m) != 0.0
    ensures AreInverse(m, Inverse(m)) && AreInverse(Inverse(m), m)
  {
    hide Det;
    hide Cofactor;
    hide Inner;
    hide Scaled;
    hide Column;
    forall i: nat, j: nat | i < 3 && j < 3
      ensures Inner(m[i], Column(Inverse(m), j)) == Kronecker(i, j)
      ensures Inner(Inverse(m)[i], Column(m, j)) == Kronecker(i, j)
    {
      InverseParts(m, j);
      InverseParts(m, i);
      InnerScales(m[i], [Cofactor(m, 0, j), Cofactor(m, 1, j), Cofactor(m, 2, j)], Det(m));
      InnerScales(Column(m, j), [Cofactor(m, i, 0), Cofactor(m, i, 1), Cofactor(m, i, 2)], Det(m));
      RowsExpand(m, i, j);
      ColumnsExpand(m, i, j);
      WholeAndNone(Det(m));
    }
  }

  lemma {:induction false} WholeAndNone(k: real)
    requires k != 0.0
    ensures k / k == 1.0 && 0.0 / k == 0.0
  {
  }

  lemma {:induction false} InnerOfApplied(n: Vector, m: Matrix, v: Vector)
    ensures Inner(n, Applied(m, v))
            == Inner([Inner(n, Column(m, 0)), Inner(n, Column(m, 1)), Inner(n, Column(m, 2))], v)
  {
    Distributes(n[0], n[1], n[2], m[0], m[1], m[2], v[0], v[1], v[2]);
  }

  lemma {:induction false} Distributes(a: real, b: real, c: real, p: Vector, q: Vector, r: Vector, x: real, y: real,
      z: real)
    ensures a * (p[0] * x + p[1] * y + p[2] * z)
            + b * (q[0] * x + q[1] * y + q[2] * z)
            + c * (r[0] * x + r[1] * y + r[2] * z)
         == (a * p[0] + b * q[0] + c * r[0]) * x
            + (a * p[1] + b * q[1] + c * r[1]) * y
            + (a * p[2] + b * q[2] + c * r[2]) * z
  {
  }

  /** Applying a matrix and then its inverse changes nothing, whatever the vector. */
  lemma {:induction false} InverseUndoes(m: Matrix, n: Matrix, v: Vector)
    requires AreInverse(m, n)
    ensures Applied(n, Applied(m, v)) == v && Applied(m, Applied(n, v)) == v
  {
    forall i: nat | i < 3
      ensures Applied(n, Applied(m, v))[i] == v[i] && Applied(m, Applied(n, v))[i] == v[i]
    {
      UndoneEntry(n[i], m, v, i);
      UndoneEntry(m[i], n, v, i);
    }
  }

  lemma {:induction false} UndoneEntry(n: Vector, m: Matrix, v: Vector, i: nat)
    requires i < 3 && forall j: nat :: j < 3 ==> Inner(n, Column(m, j)) == Kronecker(i, j)
    ensures Inner(n, Applied(m, v)) == v[i]
  {
    hide Column;
    InnerOfApplied(n, m, v);
    UnitInner(i, v);
  }

  lemma {:induction false} UnitInner(i: nat, v: Vector)
    requires i < 3
    ensures Inner([Kronecker(i, 0), Kronecker(i, 1), Kronecker(i, 2)], v) == v[i]
  {
  }

  // -------------------------------------------------- working spaces

  predicate NoneZero(y: Vector) { y[0] != 0.0 && y[1] != 0.0 && y[2] != 0.0 }

  /** Each primary's tristimulus values at unit luminance, as columns. */
  function Primaries(x: Vector, y: Vector): Matrix
    requires NoneZero(y)
  {
    [[UnitX(x, y, 0), UnitX(x, y, 1), UnitX(x, y, 2)], ONES, [UnitZ(x, y, 0), UnitZ(x, y, 1), UnitZ(x, y, 2)]]
  }

  function UnitX(x: Vector, y: Vector, i: nat): real
    requires i < 3 && y[i] != 0.0
  {
    x[i] / y[i]
  }

  function UnitZ(x: Vector, y: Vector, i: nat): real
    requires i < 3 && y[i] != 0.0
  {
    (1.0 - x[i] - y[i]) / y[i]
  }

  function WithColumn(m: Matrix, k: nat, w: Vector): Matrix
    requires k < 3
  {
    [m[0][k := w[0]], m[1][k := w[1]], m[2][k := w[2]]]
  }

  /** The luminance coefficients that primaries imply, by Cramer's rule, if they enclose anything. */
  function Derived(x: Vector, y: Vector): Option<Vector>
  {
    if !NoneZero(y) then None
    else
      var m := Primaries(x, y);
      if Abs(Det(m)) < SMALLEST_BASE then None
      else Some([Det(WithColumn(m, 0, D50_WHITE)) / Det(m), Det(WithColumn(m, 1, D50_WHITE)) / Det(m),
                 Det(WithColumn(m, 2, D50_WHITE)) / Det(m)])
  }

  method DeriveLuminance(x: Vector, y: Vector) returns (r: Option<Vector>)
    ensures r == Derived(x, y)
  {
    hide Det;
    hide UnitX;
    hide UnitZ;
    var top, bottom: Vector := ZEROS, ZEROS;
    for i := 0 to 3
      invariant forall k :: 0 <= k < i ==> y[k] != 0.0 && top[k] == UnitX(x, y, k) && bottom[k] == UnitZ(x, y, k)
    {
      if y[i] == 0.0 {
        return None;
      }
      top := top[i := UnitX(x, y, i)];
      bottom := bottom[i := UnitZ(x, y, i)];
    }
    var m: Matrix := [top, ONES, bottom];
    assert top == [UnitX(x, y, 0), UnitX(x, y, 1), UnitX(x, y, 2)];
    assert bottom == [UnitZ(x, y, 0), UnitZ(x, y, 1), UnitZ(x, y, 2)];
    var base := Det(m);
    if Abs(base) < SMALLEST_BASE {
      return None;
    }
    var out: Vector := ZEROS;
    for k := 0 to 3
      invariant forall j :: 0 <= j < k ==> out[j] == Det(WithColumn(m, j, D50_WHITE)) / base
    {
      var replaced: Matrix := m;
      for row := 0 to 3
        invariant forall j :: 0 <= j < 3 ==> replaced[j] == if j < row then m[j][k := D50_WHITE[j]] else m[j]
      {
        replaced := replaced[row := replaced[row][k := D50_WHITE[row]]];
      }
      assert replaced == WithColumn(m, k, D50_WHITE);
      out := out[k := Det(replaced) / base];
    }
    assert out == [Det(WithColumn(m, 0, D50_WHITE)) / base, Det(WithColumn(m, 1, D50_WHITE)) / base,
                   Det(WithColumn(m, 2, D50_WHITE)) / base];
    return Some(out);
  }

  /** Replacing a column and taking the determinant is a row of cofactors against what replaced it. */
  lemma {:induction false} CramerEntry(m: Matrix, k: nat, w: Vector)
    requires k < 3
    ensures Det(WithColumn(m, k, w)) == Inner([Cofactor(m, k, 0), Cofactor(m, k, 1), Cofactor(m, k, 2)], w)
  {
    hide Det;
    hide Cofactor;
    hide Inner;
    hide Cross;
    var replaced := WithColumn(m, k, w);
    assert Column(replaced, k) == w;
    assert Column(replaced, (k + 1) % 3) == Column(m, (k + 1) % 3)
      && Column(replaced, (k + 2) % 3) == Column(m, (k + 2) % 3);
    DetIsTriple(replaced);
    TripleCycles(Column(replaced, 0), Column(replaced, 1), Column(replaced, 2));
    CofactorsCross(m, k);
    InnerSwaps([Cofactor(m, k, 0), Cofactor(m, k, 1), Cofactor(m, k, 2)], w);
  }

  /** Cramer's rule gives what the inverse matrix would. */
  lemma {:induction false} CramersRule(x: Vector, y: Vector)
    requires Derived(x, y).Some?
    ensures Det(Primaries(x, y)) != 0.0
    ensures Derived(x, y).value == Applied(Inverse(Primaries(x, y)), D50_WHITE)
  {
    hide Det;
    hide Cofactor;
    hide Inner;
    hide Scaled;
    hide Primaries;
    hide WithColumn;
    var m := Primaries(x, y);
    forall k: nat | k < 3
      ensures Derived(x, y).value[k] == Applied(Inverse(m), D50_WHITE)[k]
    {
      CramerEntry(m, k, D50_WHITE);
      InverseParts(m, k);
      InnerScales(D50_WHITE, [Cofactor(m, k, 0), Cofactor(m, k, 1), Cofactor(m, k, 2)], Det(m));
    }
  }

  // -------------------------------------------------- the transformation

  /** The matrix from linear RGB to XYZ: each primary's column scaled by its luminance. */
  function ToXyz(x: Vector, y: Vector, luminance: Vector): Matrix
    requires NoneZero(y)
  {
    [[ScaledX(x, y, luminance, 0), ScaledX(x, y, luminance, 1), ScaledX(x, y, luminance, 2)],
     luminance,
     [ScaledZ(x, y, luminance, 0), ScaledZ(x, y, luminance, 1), ScaledZ(x, y, luminance, 2)]]
  }

  function ScaledX(x: Vector, y: Vector, luminance: Vector, i: nat): real
    requires i < 3 && y[i] != 0.0
  {
    luminance[i] * x[i] / y[i]
  }

  function ScaledZ(x: Vector, y: Vector, luminance: Vector, i: nat): real
    requires i < 3 && y[i] != 0.0
  {
    luminance[i] * (1.0 - x[i] - y[i]) / y[i]
  }

  datatype Transform = Transform(toXyz: Matrix, fromXyz: Matrix)

  function TransformOf(x: Vector, y: Vector, luminance: Vector): Option<Transform>
  {
    if !NoneZero(y) then None
    else
      var m := ToXyz(x, y, luminance);
      if Abs(Det(m)) < SMALLEST_DETERMINANT then None else Some(Transform(m, Inverse(m)))
  }

  method NewTransform(x: Vector, y: Vector, luminance: Vector) returns (r: Option<Transform>)
    ensures r == TransformOf(x, y, luminance)
  {
    hide Det;
    hide Inverse;
    hide ScaledX;
    hide ScaledZ;
    var top, middle, bottom: Vector := ZEROS, ZEROS, ZEROS;
    for i := 0 to 3
      invariant forall k :: 0 <= k < i ==> y[k] != 0.0 && top[k] == ScaledX(x, y, luminance, k)
      invariant forall k :: 0 <= k < i ==> middle[k] == luminance[k]
      invariant forall k :: 0 <= k < i ==> bottom[k] == ScaledZ(x, y, luminance, k)
    {
      if y[i] == 0.0 {
        return None;
      }
      top := top[i := ScaledX(x, y, luminance, i)];
      middle := middle[i := luminance[i]];
      bottom := bottom[i := ScaledZ(x, y, luminance, i)];
    }
    var toXyz: Matrix := [top, middle, bottom];
    assert top == [ScaledX(x, y, luminance, 0), ScaledX(x, y, luminance, 1), ScaledX(x, y, luminance, 2)];
    assert middle == luminance;
    assert bottom == [ScaledZ(x, y, luminance, 0), ScaledZ(x, y, luminance, 1), ScaledZ(x, y, luminance, 2)];
    var fromXyz := Invert(toXyz);
    match fromXyz {
      case None => return None;
      case Some(inverse) => return Some(Transform(toXyz, inverse));
    }
  }

  /** What the matrix makes of white is what the primaries make of the luminance coefficients. */
  lemma {:induction false} WhiteIsLuminance(x: Vector, y: Vector, luminance: Vector)
    requires NoneZero(y)
    ensures Applied(ToXyz(x, y, luminance), ONES) == Applied(Primaries(x, y), luminance)
  {
    hide Inner;
    hide ScaledX;
    hide ScaledZ;
    hide UnitX;
    hide UnitZ;
    var t, p := ToXyz(x, y, luminance), Primaries(x, y);
    ColumnScales(x, y, luminance, 0);
    ColumnScales(x, y, luminance, 1);
    ColumnScales(x, y, luminance, 2);
    RowOfWhite(t[0], p[0], luminance);
    TimesZero(luminance[0]);
    TimesZero(luminance[1]);
    TimesZero(luminance[2]);
    RowOfWhite(t[1], p[1], luminance);
    RowOfWhite(t[2], p[2], luminance);
  }

  lemma {:induction false} ColumnScales(x: Vector, y: Vector, luminance: Vector, i: nat)
    requires i < 3 && y[i] != 0.0
    ensures ScaledX(x, y, luminance, i) == Times(UnitX(x, y, i), luminance[i])
    ensures ScaledZ(x, y, luminance, i) == Times(UnitZ(x, y, i), luminance[i])
  {
    OverScalar(luminance[i], x[i], y[i]);
    OverScalar(luminance[i], 1.0 - x[i] - y[i], y[i]);
    TimesSwaps(luminance[i], x[i] / y[i]);
    TimesSwaps(luminance[i], (1.0 - x[i] - y[i]) / y[i]);
  }

  lemma {:induction false} RowOfWhite(t: Vector, p: Vector, l: Vector)
    requires t[0] == Times(p[0], l[0]) && t[1] == Times(p[1], l[1]) && t[2] == Times(p[2], l[2])
    ensures Inner(t, ONES) == Inner(p, l)
  {
  }

  /**
    The luminance coefficients derived from the primaries are the only ones with which the matrix
    sends white to the D50 white point.
   */
  lemma {:induction false} LuminanceExactly(x: Vector, y: Vector, luminance: Vector)
    requires Derived(x, y).Some?
    ensures Applied(ToXyz(x, y, luminance), ONES) == D50_WHITE <==> luminance == Derived(x, y).value
  {
    var m := Primaries(x, y);
    WhiteIsLuminance(x, y, luminance);
    CramersRule(x, y);
    InverseIsTwoSided(m);
    InverseUndoes(m, Inverse(m), luminance);
    InverseUndoes(m, Inverse(m), D50_WHITE);
  }

  /**
    When a working space and its transformation both exist, white goes to D50 and D50 back to white,
    and every linear colour survives the way to XYZ and back, as every XYZ colour the other way.
   */
  lemma {:induction false} TransformInverts(x: Vector, y: Vector, v: Vector)
    requires Derived(x, y).Some? && TransformOf(x, y, Derived(x, y).value).Some?
    ensures var t := TransformOf(x, y, Derived(x, y).value).value;
      Applied(t.toXyz, ONES) == D50_WHITE && Applied(t.fromXyz, D50_WHITE) == ONES
      && Applied(t.fromXyz, Applied(t.toXyz, v)) == v && Applied(t.toXyz, Applied(t.fromXyz, v)) == v
  {
    hide Det;
    hide Inner;
    var l := Derived(x, y).value;
    var m := ToXyz(x, y, l);
    LuminanceExactly(x, y, l);
    InverseIsTwoSided(m);
    InverseUndoes(m, Inverse(m), v);
    InverseUndoes(m, Inverse(m), ONES);
  }

  // -------------------------------------------------- when there is a transformation

  /** Scaling a matrix's columns scales its determinant by all three factors. */
  lemma {:induction false} ColumnsScale(a: real, b: real, c: real, d: real, e: real, f: real, g: real, h: real, i: real,
      u: real, v: real, w: real)
    ensures (a * u) * ((e * v) * (i * w) - (f * w) * (h * v)) - (b * v) * ((d * u) * (i * w) - (f * w) * (g * u))
            + (c * w) * ((d * u) * (h * v) - (e * v) * (g * u))
         == (u * v * w) * (a * (e * i - f * h) - b * (d * i - f * g) + c * (d * h - e * g))
  {
  }

  lemma {:induction false} TransformDet(x: Vector, y: Vector, luminance: Vector)
    requires NoneZero(y)
    ensures Det(ToXyz(x, y, luminance)) == luminance[0] * luminance[1] * luminance[2] * Det(Primaries(x, y))
  {
    hide ScaledX;
    hide ScaledZ;
    hide UnitX;
    hide UnitZ;
    var t, p, l := ToXyz(x, y, luminance), Primaries(x, y), luminance;
    ColumnScales(x, y, luminance, 0);
    ColumnScales(x, y, luminance, 1);
    ColumnScales(x, y, luminance, 2);
    ColumnsScale(p[0][0], p[0][1], p[0][2], 1.0, 1.0, 1.0, p[2][0], p[2][1], p[2][2], l[0], l[1], l[2]);
  }

  /**
    There is a transformation exactly when no primary is without a luminance of its own and the product
    of the coefficients and the primaries' determinant is not too small.
   */
  lemma {:induction false} TransformExactly(x: Vector, y: Vector, luminance: Vector)
    ensures TransformOf(x, y, luminance).Some? <==>
      NoneZero(y)
      && Abs(luminance[0] * luminance[1] * luminance[2] * Det(Primaries(x, y))) >= SMALLEST_DETERMINANT
  {
    hide Det;
    hide Inverse;
    if NoneZero(y) {
      TransformDet(x, y, luminance);
    }
  }

  /** A space whose first primary is white itself: its coefficients can be derived, and are one and twice zero. */
  lemma {:induction false} SpaceWithoutTransform() returns (x: Vector, y: Vector)
    ensures Derived(x, y) == Some([1.0, 0.0, 0.0]) && TransformOf(x, y, [1.0, 0.0, 0.0]) == None
  {
    var sum := 0.96422 + 1.0 + 0.82521;
    x, y := [0.96422 / sum, 0.0, 0.0], [1.0 / sum, 1.0, 0.5];
    assert Primaries(x, y) == [[0.96422, 0.0, 0.0], ONES, [0.82521, 0.0, 1.0]];
    TransformExactly(x, y, [1.0, 0.0, 0.0]);
  }

  // -------------------------------------------------- what the matrix does to each primary

  /** One primary at full strength and the others dark. */
  function Lit(i: nat): Vector
    requires i < 3
  {
    if i == 0 then [1.0, 0.0, 0.0] else if i == 1 then [0.0, 1.0, 0.0] else [0.0, 0.0, 1.0]
  }

  /**
    The matrix sends each primary to the colour with that primary's chromaticity and luminance: its luminance is
    the primary's coefficient, and its two coordinates are its parts of the sum of all three.
   */
  lemma {:induction false} PrimaryKeepsChromaticity(x: Vector, y: Vector, luminance: Vector, i: nat)
    requires NoneZero(y) && i < 3
    ensures var xyz := Applied(ToXyz(x, y, luminance), Lit(i)); var sum := xyz[0] + xyz[1] + xyz[2];
      xyz[1] == luminance[i] && Times(x[i], sum) == xyz[0] && Times(y[i], sum) == xyz[1]
  {
    ScaledChromaticity(x, y, luminance, i);
    hide ScaledX;
    hide ScaledZ;
    hide ToXyz;
    hide Applied;
    hide Times;
    ColumnOfLit(ToXyz(x, y, luminance), i);
    ColumnOfPrimary(x, y, luminance, i);
  }

  lemma {:induction false} ScaledChromaticity(x: Vector, y: Vector, luminance: Vector, i: nat)
    requires i < 3 && y[i] != 0.0
    ensures var sum := ScaledX(x, y, luminance, i) + luminance[i] + ScaledZ(x, y, luminance, i);
      Times(x[i], sum) == ScaledX(x, y, luminance, i) && Times(y[i], sum) == luminance[i]
  {
    ChromaticityOf(x[i], y[i], luminance[i]);
  }

  lemma {:induction false} ColumnOfPrimary(x: Vector, y: Vector, luminance: Vector, i: nat)
    requires NoneZero(y) && i < 3
    ensures Column(ToXyz(x, y, luminance), i)
            == [ScaledX(x, y, luminance, i), luminance[i], ScaledZ(x, y, luminance, i)]
  {
    hide ScaledX;
    hide ScaledZ;
  }

  lemma {:induction false} ColumnOfLit(m: Matrix, i: nat)
    requires i < 3
    ensures Applied(m, Lit(i)) == Column(m, i)
  {
  }

  lemma {:induction false} ChromaticityOf(x: real, y: real, l: real)
    requires y != 0.0
    ensures var sum := l * x / y + l + l * (1.0 - x - y) / y; Times(x, sum) == l * x / y && Times(y, sum) == l
  {
    var a, c := l * x / y, l * (1.0 - x - y) / y;
    QuotientTimes(l * x, y);
    QuotientTimes(l * (1.0 - x - y), y);
    assert Times(y, a + l + c) == Times(a, y) + Times(l, y) + Times(c, y);
    assert l * x + l * y + l * (1.0 - x - y) == l;
    var sum := a + l + c;
    assert Times(y, sum) == l;
    assert Times(Times(x, sum), y) == x * l;
    CancelFactor(Times(x, sum), a, y);
  }

  lemma {:induction false} CancelFactor(a: real, b: real, y: real)
    requires y != 0.0 && Times(a, y) == Times(b, y)
    ensures a == b
  {
    QuotientTimes(Times(a, y), y);
  }
}
