/**
 * Matrices over the reals as rows, the helper loops of the Kalman filter, and the embedding that
 * puts one small matrix onto both coordinate axes at once.
 */
module Matrix {
  type Row = seq<real>
  type Mat = seq<Row>

  predicate Rect(a: Mat) {
    |a| > 0 && |a[0]| > 0 && forall i | 0 <= i < |a| :: |a[i]| == |a[0]|
  }

  predicate SameShape(a: Mat, b: Mat) {
    Rect(a) && Rect(b) && |a| == |b| && |a[0]| == |b[0]|
  }

  // The first n terms of row u times column j of b.
  function Dot(u: Row, b: Mat, j: nat, n: nat): real
    requires n <= |u| && n <= |b| && forall k | 0 <= k < n :: j < |b[k]|
  {
    if n == 0 then 0.0 else Dot(u, b, j, n - 1) + u[n - 1] * b[n - 1][j]
  }

  function MulRow(u: Row, b: Mat): Row
    requires Rect(b) && |u| == |b|
  {
    seq(|b[0]|, j requires 0 <= j < |b[0]| => Dot(u, b, j, |b|))
  }

  function Mul(a: Mat, b: Mat): (r: Mat)
    requires Rect(a) && Rect(b) && |a[0]| == |b|
    ensures Rect(r) && |r| == |a| && |r[0]| == |b[0]|
  {
    seq(|a|, i requires 0 <= i < |a| => MulRow(a[i], b))
  }

  function AddRow(u: Row, v: Row): Row
    requires |u| == |v|
  {
    seq(|u|, j requires 0 <= j < |u| => u[j] + v[j])
  }

  function Add(a: Mat, b: Mat): (r: Mat)
    requires SameShape(a, b)
    ensures SameShape(r, a)
  {
    seq(|a|, i requires 0 <= i < |a| => AddRow(a[i], b[i]))
  }

  function SubRow(u: Row, v: Row): Row
    requires |u| == |v|
  {
    seq(|u|, j requires 0 <= j < |u| => u[j] - v[j])
  }

  function Sub(a: Mat, b: Mat): (r: Mat)
    requires SameShape(a, b)
    ensures SameShape(r, a)
  {
    seq(|a|, i requires 0 <= i < |a| => SubRow(a[i], b[i]))
  }

  function Column(a: Mat, j: nat): Row
    requires Rect(a) && j < |a[0]|
  {
    seq(|a|, i requires 0 <= i < |a| => a[i][j])
  }

  function Transpose(a: Mat): (r: Mat)
    requires Rect(a)
    ensures Rect(r) && |r| == |a[0]| && |r[0]| == |a|
  {
    seq(|a[0]|, j requires 0 <= j < |a[0]| => Column(a, j))
  }


  function DotVec(u: Row, v: Row, n: nat): real
    requires n <= |u| && n <= |v|
  {
    if n == 0 then 0.0 else DotVec(u, v, n - 1) + u[n - 1] * v[n - 1]
  }

  function MulVec(a: Mat, v: Row): Row
    requires Rect(a) && |a[0]| == |v|
  {
    seq(|a|, i requires 0 <= i < |a| => DotVec(a[i], v, |v|))
  }

  // ---- the loops ---------------------------------------------------------------------

  method DotLoop(u: Row, b: Mat, j: nat) returns (sum: real)
    requires |u| == |b| && forall k | 0 <= k < |b| :: j < |b[k]|
    ensures sum == Dot(u, b, j, |b|)
  {
    sum := 0.0;
    for k := 0 to |u|
      invariant sum == Dot(u, b, j, k)
    {
      sum := sum + u[k] * b[k][j];
    }
  }

  method MatMul(a: Mat, b: Mat) returns (r: Mat)
    requires Rect(a) && Rect(b) && |a[0]| == |b|
    ensures r == Mul(a, b)
  {
    r := [];
    for i := 0 to |a|
      invariant |r| == i && forall p | 0 <= p < i :: r[p] == MulRow(a[p], b)
    {
      var row := [];
      for j := 0 to |b[0]|
        invariant |row| == j && forall p | 0 <= p < j :: row[p] == Dot(a[i], b, p, |b|)
      {
        var sum := DotLoop(a[i], b, j);
        row := row + [sum];
      }
      assert row == MulRow(a[i], b);
      r := r + [row];
    }
  }

  method MatVecMul(a: Mat, v: Row) returns (r: Row)
    requires Rect(a) && |a[0]| == |v|
    ensures r == MulVec(a, v)
  {
    r := [];
    for i := 0 to |a|
      invariant |r| == i && forall p | 0 <= p < i :: r[p] == DotVec(a[p], v, |v|)
    {
      var sum := 0.0;
      for j := 0 to |v|
        invariant sum == DotVec(a[i], v, j)
      {
        sum := sum + a[i][j] * v[j];
      }
      r := r + [sum];
    }
  }

  method MatAdd(a: Mat, b: Mat) returns (r: Mat)
    requires SameShape(a, b)
    ensures r == Add(a, b)
  {
    r := [];
    for i := 0 to |a|
      invariant |r| == i && forall p | 0 <= p < i :: r[p] == AddRow(a[p], b[p])
    {
      var row := [];
      for j := 0 to |a[0]|
        invariant |row| == j && forall p | 0 <= p < j :: row[p] == a[i][p] + b[i][p]
      {
        row := row + [a[i][j] + b[i][j]];
      }
      assert row == AddRow(a[i], b[i]);
      r := r + [row];
    }
  }

  method MatSub(a: Mat, b: Mat) returns (r: Mat)
    requires SameShape(a, b)
    ensures r == Sub(a, b)
  {
    r := [];
    for i := 0 to |a|
      invariant |r| == i && forall p | 0 <= p < i :: r[p] == SubRow(a[p], b[p])
    {
      var row := [];
      for j := 0 to |a[0]|
        invariant |row| == j && forall p | 0 <= p < j :: row[p] == a[i][p] - b[i][p]
      {
        row := row + [a[i][j] - b[i][j]];
      }
      assert row == SubRow(a[i], b[i]);
      r := r + [row];
    }
  }

  method Transposed(a: Mat) returns (r: Mat)
    requires Rect(a)
    ensures r == Transpose(a)
  {
    r := [];
    for j := 0 to |a[0]|
      invariant |r| == j && forall p | 0 <= p < j :: r[p] == Column(a, p)
    {
      var row := [];
      for i := 0 to |a|
        invariant |row| == i && forall p | 0 <= p < i :: row[p] == a[p][j]
      {
        row := row + [a[i][j]];
      }
      assert row == Column(a, j);
      r := r + [row];
    }
  }

  // ---- one matrix on both axes -------------------------------------------------------

  // Index 2i is entry i of the first axis, index 2i+1 entry i of the second; the axes never mix.
  function LiftEntry(a: Mat, i: nat, j: nat): real
    requires Rect(a) && i < 2 * |a| && j < 2 * |a[0]|
  {
    if i % 2 == j % 2 then a[i / 2][j / 2] else 0.0
  }

  function LiftRow(a: Mat, i: nat): Row
    requires Rect(a) && i < 2 * |a|
  {
    seq(2 * |a[0]|, j requires 0 <= j < 2 * |a[0]| => LiftEntry(a, i, j))
  }

  function Lift(a: Mat): (r: Mat)
    requires Rect(a)
    ensures Rect(r) && |r| == 2 * |a| && |r[0]| == 2 * |a[0]|
  {
    seq(2 * |a|, i requires 0 <= i < 2 * |a| => LiftRow(a, i))
  }

  lemma LiftTerms(a: Mat, b: Mat, i: nat, j: nat, n: nat)
    requires Rect(a) && Rect(b) && |a[0]| == |b| && i < 2 * |a| && j < 2 * |b[0]| && n < |b|
    ensures LiftEntry(a, i, 2 * n) * LiftEntry(b, 2 * n, j) + LiftEntry(a, i, 2 * n + 1) * LiftEntry(b, 2 * n + 1, j)
         == if i % 2 == j % 2 then a[i / 2][n] * b[n][j / 2] else 0.0
  {
    assert (2 * n) % 2 == 0 && (2 * n + 1) % 2 == 1 && (2 * n) / 2 == n && (2 * n + 1) / 2 == n;
  }

  lemma DotTwo(u: Row, b: Mat, j: nat, n: nat)
    requires n + 2 <= |u| && n + 2 <= |b| && forall k | 0 <= k < n + 2 :: j < |b[k]|
    ensures Dot(u, b, j, n + 2) == Dot(u, b, j, n) + (u[n] * b[n][j] + u[n + 1] * b[n + 1][j])
  {
    assert Dot(u, b, j, n + 1) == Dot(u, b, j, n) + u[n] * b[n][j];
  }

  lemma LiftAt(a: Mat, i: nat, j: nat)
    requires Rect(a) && i < 2 * |a| && j < 2 * |a[0]|
    ensures Lift(a)[i][j] == LiftEntry(a, i, j)
  {
  }

  lemma {:induction false} LiftDot(a: Mat, b: Mat, i: nat, j: nat, n: nat)
    requires Rect(a) && Rect(b) && |a[0]| == |b| && i < 2 * |a| && j < 2 * |b[0]| && n <= |b|
    ensures Dot(Lift(a)[i], Lift(b), j, 2 * n) == if i % 2 == j % 2 then Dot(a[i / 2], b, j / 2, n) else 0.0
  {
    hide Dot, Lift, LiftEntry;
    DotNone(Lift(a)[i], Lift(b), j);
    DotNone(a[i / 2], b, j / 2);
    if n > 0 {
      LiftDot(a, b, i, j, n - 1);
      DotTwo(Lift(a)[i], Lift(b), j, 2 * (n - 1));
      LiftedTerms(a, b, i, j, n - 1);
      DotOne(a[i / 2], b, j / 2, n - 1);
      assert 2 * (n - 1) + 2 == 2 * n;
    }
  }

  lemma DotNone(u: Row, b: Mat, j: nat)
    ensures Dot(u, b, j, 0) == 0.0
  {
  }

  lemma DotOne(u: Row, b: Mat, j: nat, n: nat)
    requires n + 1 <= |u| && n + 1 <= |b| && forall k | 0 <= k < n + 1 :: j < |b[k]|
    ensures Dot(u, b, j, n + 1) == Dot(u, b, j, n) + u[n] * b[n][j]
  {
  }

  lemma LiftedTerms(a: Mat, b: Mat, i: nat, j: nat, n: nat)
    requires Rect(a) && Rect(b) && |a[0]| == |b| && i < 2 * |a| && j < 2 * |b[0]| && n < |b|
    ensures Lift(a)[i][2 * n] * Lift(b)[2 * n][j] + Lift(a)[i][2 * n + 1] * Lift(b)[2 * n + 1][j]
         == if i % 2 == j % 2 then a[i / 2][n] * b[n][j / 2] else 0.0
  {
    LiftTerms(a, b, i, j, n);
    LiftAt(a, i, 2 * n);
    LiftAt(a, i, 2 * n + 1);
    LiftAt(b, 2 * n, j);
    LiftAt(b, 2 * n + 1, j);
    hide Lift, LiftEntry;
  }

  lemma {:induction false} LiftMul(a: Mat, b: Mat)
    requires Rect(a) && Rect(b) && |a[0]| == |b|
    ensures Mul(Lift(a), Lift(b)) == Lift(Mul(a, b))
  {
    var l, r := Mul(Lift(a), Lift(b)), Lift(Mul(a, b));
    forall i | 0 <= i < 2 * |a| ensures l[i] == r[i] {
      forall j | 0 <= j < 2 * |b[0]| ensures l[i][j] == r[i][j] {
        LiftDot(a, b, i, j, |b|);
        assert l[i][j] == Dot(Lift(a)[i], Lift(b), j, 2 * |b|);
        assert r[i][j] == LiftEntry(Mul(a, b), i, j);
      }
    }
  }

  lemma LiftAdd(a: Mat, b: Mat)
    requires SameShape(a, b)
    ensures Add(Lift(a), Lift(b)) == Lift(Add(a, b))
  {
    var l, r := Add(Lift(a), Lift(b)), Lift(Add(a, b));
    forall i | 0 <= i < 2 * |a| ensures l[i] == r[i] {
      forall j | 0 <= j < 2 * |a[0]| ensures l[i][j] == r[i][j] {
        assert l[i][j] == LiftEntry(a, i, j) + LiftEntry(b, i, j);
        assert r[i][j] == LiftEntry(Add(a, b), i, j);
      }
    }
  }

  lemma LiftSub(a: Mat, b: Mat)
    requires SameShape(a, b)
    ensures Sub(Lift(a), Lift(b)) == Lift(Sub(a, b))
  {
    var l, r := Sub(Lift(a), Lift(b)), Lift(Sub(a, b));
    forall i | 0 <= i < 2 * |a| ensures l[i] == r[i] {
      forall j | 0 <= j < 2 * |a[0]| ensures l[i][j] == r[i][j] {
        assert l[i][j] == LiftEntry(a, i, j) - LiftEntry(b, i, j);
        assert r[i][j] == LiftEntry(Sub(a, b), i, j);
      }
    }
  }

  lemma LiftTranspose(a: Mat)
    requires Rect(a)
    ensures Transpose(Lift(a)) == Lift(Transpose(a))
  {
    var l, r := Transpose(Lift(a)), Lift(Transpose(a));
    forall i | 0 <= i < 2 * |a[0]| ensures l[i] == r[i] {
      forall j | 0 <= j < 2 * |a| ensures l[i][j] == r[i][j] {
        assert l[i][j] == LiftEntry(a, j, i);
        assert r[i][j] == LiftEntry(Transpose(a), i, j);
      }
    }
  }

  // Two axis vectors interleaved.
  function Weave(u: Row, v: Row): Row
    requires |u| == |v|
  {
    seq(2 * |u|, i requires 0 <= i < 2 * |u| => if i % 2 == 0 then u[i / 2] else v[i / 2])
  }

  lemma {:induction false} LiftDotVec(a: Mat, u: Row, v: Row, i: nat, n: nat)
    requires Rect(a) && |a[0]| == |u| == |v| && i < 2 * |a| && n <= |u|
    ensures DotVec(Lift(a)[i], Weave(u, v), 2 * n) == DotVec(a[i / 2], if i % 2 == 0 then u else v, n)
  {
    if n > 0 {
      LiftDotVec(a, u, v, i, n - 1);
      DotVecTwo(Lift(a)[i], Weave(u, v), 2 * (n - 1));
      WovenTerms(a, u, v, i, n - 1);
      hide Lift, Weave;
      assert 2 * (n - 1) + 2 == 2 * n;
    }
  }

  lemma DotVecTwo(u: Row, v: Row, n: nat)
    requires n + 2 <= |u| && n + 2 <= |v|
    ensures DotVec(u, v, n + 2) == DotVec(u, v, n) + (u[n] * v[n] + u[n + 1] * v[n + 1])
  {
    assert DotVec(u, v, n + 1) == DotVec(u, v, n) + u[n] * v[n];
  }

  lemma WovenTerms(a: Mat, u: Row, v: Row, i: nat, n: nat)
    requires Rect(a) && |a[0]| == |u| == |v| && i < 2 * |a| && n < |u|
    ensures Lift(a)[i][2 * n] * Weave(u, v)[2 * n] + Lift(a)[i][2 * n + 1] * Weave(u, v)[2 * n + 1]
         == a[i / 2][n] * (if i % 2 == 0 then u else v)[n]
  {
    LiftAt(a, i, 2 * n);
    LiftAt(a, i, 2 * n + 1);
    assert (2 * n) / 2 == n && (2 * n + 1) / 2 == n;
    hide Lift;
  }

  // A lifted matrix acts on each axis separately.
  lemma {:induction false} LiftMulVec(a: Mat, u: Row, v: Row)
    requires Rect(a) && |a[0]| == |u| == |v|
    ensures MulVec(Lift(a), Weave(u, v)) == Weave(MulVec(a, u), MulVec(a, v))
  {
    var l, r := MulVec(Lift(a), Weave(u, v)), Weave(MulVec(a, u), MulVec(a, v));
    forall i | 0 <= i < 2 * |a| ensures l[i] == r[i] {
      LiftDotVec(a, u, v, i, |u|);
    }
  }

  // The quadratic form v' a v.
  function Quad(a: Mat, v: Row): real
    requires Rect(a) && |a| == |a[0]| == |v|
  {
    DotVec(v, MulVec(a, v), |v|)
  }

  ghost predicate Symmetric(a: Mat) {
    Rect(a) && |a| == |a[0]| && forall i, j | 0 <= i < |a| && 0 <= j < |a| :: a[i][j] == a[j][i]
  }

  ghost predicate PositiveSemidefinite(a: Mat) {
    Symmetric(a) && forall v: Row | |v| == |a| :: Quad(a, v) >= 0.0
  }
}
