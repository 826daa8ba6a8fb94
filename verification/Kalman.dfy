/**
 * The constant-velocity Kalman filter over the state [x, y, vx, vy], in exact real arithmetic:
 * predict and update as the matrix expressions of the filter, and the proof that the four
 * dimensional filter is one two-dimensional filter (position, velocity) run on both axes.
 */
module Kalman {
  import opened Matrix

  const TINY: real := 0.000000000001
  const HUGE: real := 1000000000000.0

  function Motion(dt: real): Mat {
    [[1.0, 0.0, dt, 0.0], [0.0, 1.0, 0.0, dt], [0.0, 0.0, 1.0, 0.0], [0.0, 0.0, 0.0, 1.0]]
  }

  function Diagonal(q: real): Mat {
    [[q, 0.0, 0.0, 0.0], [0.0, q, 0.0, 0.0], [0.0, 0.0, q, 0.0], [0.0, 0.0, 0.0, q]]
  }

  const OBSERVE: Mat := [[1.0, 0.0, 0.0, 0.0], [0.0, 1.0, 0.0, 0.0]]

  function Noise(m: real): Mat {
    [[m * m, 0.0], [0.0, m * m]]
  }

  predicate Is(a: Mat, rows: nat, cols: nat) {
    Rect(a) && |a| == rows && |a[0]| == cols
  }

  function Det(a: Mat): real
    requires Is(a, 2, 2)
  {
    a[0][0] * a[1][1] - a[0][1] * a[1][0]
  }

  // The inverse of a 2x2 matrix, or a large diagonal when it is nearly singular.
  function Inv2x2(a: Mat): Mat
    requires Is(a, 2, 2)
  {
    var det := Det(a);
    if -TINY < det < TINY then [[HUGE, 0.0], [0.0, HUGE]]
    else [[a[1][1] / det, -a[0][1] / det], [-a[1][0] / det, a[0][0] / det]]
  }

  function PredictCov(p: Mat, q: real, dt: real): Mat
    requires Is(p, 4, 4)
  {
    Add(Mul(Mul(Motion(dt), p), Transpose(Motion(dt))), Diagonal(q))
  }

  function InnovationCov(p: Mat, m: real): (s: Mat)
    requires Is(p, 4, 4)
    ensures Is(s, 2, 2)
  {
    Add(Mul(Mul(OBSERVE, p), Transpose(OBSERVE)), Noise(m))
  }

  function Gain(p: Mat, m: real): (k: Mat)
    requires Is(p, 4, 4)
    ensures Is(k, 4, 2)
  {
    Mul(Mul(p, Transpose(OBSERVE)), Inv2x2(InnovationCov(p, m)))
  }

  function Residual(p: Mat, m: real): (r: Mat)
    requires Is(p, 4, 4)
    ensures Is(r, 4, 4)
  {
    Sub(Diagonal(1.0), Mul(Gain(p, m), OBSERVE))
  }

  // The covariance update in Joseph form.
  function Joseph(p: Mat, m: real): Mat
    requires Is(p, 4, 4)
  {
    Add(Mul(Mul(Residual(p, m), p), Transpose(Residual(p, m))),
        Mul(Mul(Gain(p, m), Noise(m)), Transpose(Gain(p, m))))
  }

  // ---- one axis ----------------------------------------------------------------------

  // Position variance, covariance of position and velocity, velocity variance.
  datatype Cov = Cov(pos: real, mix: real, vel: real)

  function AsMat(c: Cov): Mat {
    [[c.pos, c.mix], [c.mix, c.vel]]
  }

  ghost predicate Positive(c: Cov) {
    c.pos >= 0.0 && c.vel >= 0.0 && c.pos * c.vel >= c.mix * c.mix
  }

  function PredictAxis(c: Cov, q: real, dt: real): Cov {
    Cov(c.pos + dt * c.mix + dt * (c.mix + dt * c.vel) + q, c.mix + dt * c.vel, c.vel + q)
  }

  function UpdateAxis(c: Cov, r: real): Cov
    requires c.pos + r != 0.0
  {
    var g := 1.0 / (c.pos + r);
    Cov(r * (c.pos * g), r * (c.mix * g), c.vel - c.mix * (c.mix * g))
  }

  // ---- products of small matrices ----------------------------------------------------

  lemma RowOf2(u: Row, b: Mat)
    requires |u| == 2 && Rect(b) && |b| == 2
    ensures |MulRow(u, b)| == |b[0]|
    ensures forall j | 0 <= j < |b[0]| :: MulRow(u, b)[j] == u[0] * b[0][j] + u[1] * b[1][j]
  {
    forall j | 0 <= j < |b[0]| ensures MulRow(u, b)[j] == u[0] * b[0][j] + u[1] * b[1][j] {
      DotNone(u, b, j);
      DotOne(u, b, j, 0);
      DotOne(u, b, j, 1);
      hide Dot;
      assert MulRow(u, b)[j] == Dot(u, b, j, 2);
    }
  }

  lemma RowOf1(u: Row, b: Mat)
    requires |u| == 1 && Rect(b) && |b| == 1
    ensures |MulRow(u, b)| == |b[0]|
    ensures forall j | 0 <= j < |b[0]| :: MulRow(u, b)[j] == u[0] * b[0][j]
  {
    forall j | 0 <= j < |b[0]| ensures MulRow(u, b)[j] == u[0] * b[0][j] {
      DotNone(u, b, j);
      DotOne(u, b, j, 0);
      hide Dot;
      assert MulRow(u, b)[j] == Dot(u, b, j, 1);
    }
  }

  lemma Same1(u: Row, v: Row)
    requires |u| == |v| == 1 && u[0] == v[0]
    ensures u == v
  {
  }

  lemma Same2(u: Row, v: Row)
    requires |u| == |v| == 2 && u[0] == v[0] && u[1] == v[1]
    ensures u == v
  {
  }

  // The product of two small matrices, with its entries given.
  lemma Mul22(p: real, q: real, r: real, s: real, t: real, u: real, v: real, w: real, r0: Row, r1: Row)
    requires |r0| == 2 && r0[0] == p * t + q * v && r0[1] == p * u + q * w
    requires |r1| == 2 && r1[0] == r * t + s * v && r1[1] == r * u + s * w
    ensures Mul([[p, q], [r, s]], [[t, u], [v, w]]) == [r0, r1]
  {
    var b := [[t, u], [v, w]];
    RowOf2([p, q], b);
    RowOf2([r, s], b);
    hide MulRow;
    Same2(MulRow([p, q], b), r0);
    Same2(MulRow([r, s], b), r1);
  }

  lemma Mul12(p: real, q: real, t: real, u: real, v: real, w: real, row: Row)
    requires |row| == 2 && row[0] == p * t + q * v && row[1] == p * u + q * w
    ensures Mul([[p, q]], [[t, u], [v, w]]) == [row]
  {
    RowOf2([p, q], [[t, u], [v, w]]);
    hide MulRow;
    Same2(MulRow([p, q], [[t, u], [v, w]]), row);
  }

  lemma Mul121(p: real, q: real, t: real, v: real, x: real)
    requires x == p * t + q * v
    ensures Mul([[p, q]], [[t], [v]]) == [[x]]
  {
    RowOf2([p, q], [[t], [v]]);
    hide MulRow;
    Same1(MulRow([p, q], [[t], [v]]), [x]);
  }

  lemma Mul221(p: real, q: real, r: real, s: real, t: real, v: real, x: real, y: real)
    requires x == p * t + q * v && y == r * t + s * v
    ensures Mul([[p, q], [r, s]], [[t], [v]]) == [[x], [y]]
  {
    RowOf2([p, q], [[t], [v]]);
    RowOf2([r, s], [[t], [v]]);
    hide MulRow;
    Same1(MulRow([p, q], [[t], [v]]), [x]);
    Same1(MulRow([r, s], [[t], [v]]), [y]);
  }

  lemma Mul211(p: real, r: real, t: real, x: real, y: real)
    requires x == p * t && y == r * t
    ensures Mul([[p], [r]], [[t]]) == [[x], [y]]
  {
    RowOf1([p], [[t]]);
    RowOf1([r], [[t]]);
    hide MulRow;
    Same1(MulRow([p], [[t]]), [x]);
    Same1(MulRow([r], [[t]]), [y]);
  }

  lemma Mul212(p: real, r: real, t: real, u: real, r0: Row, r1: Row)
    requires |r0| == 2 && r0[0] == p * t && r0[1] == p * u
    requires |r1| == 2 && r1[0] == r * t && r1[1] == r * u
    ensures Mul([[p], [r]], [[t, u]]) == [r0, r1]
  {
    RowOf1([p], [[t, u]]);
    RowOf1([r], [[t, u]]);
    hide MulRow;
    Same2(MulRow([p], [[t, u]]), r0);
    Same2(MulRow([r], [[t, u]]), r1);
  }

  lemma Add22(p: real, q: real, r: real, s: real, t: real, u: real, v: real, w: real, r0: Row, r1: Row)
    requires |r0| == 2 && r0[0] == p + t && r0[1] == q + u
    requires |r1| == 2 && r1[0] == r + v && r1[1] == s + w
    ensures Add([[p, q], [r, s]], [[t, u], [v, w]]) == [r0, r1]
  {
    assert AddRow([p, q], [t, u]) == r0 && AddRow([r, s], [v, w]) == r1;
  }

  lemma Sub22(p: real, q: real, r: real, s: real, t: real, u: real, v: real, w: real, r0: Row, r1: Row)
    requires |r0| == 2 && r0[0] == p - t && r0[1] == q - u
    requires |r1| == 2 && r1[0] == r - v && r1[1] == s - w
    ensures Sub([[p, q], [r, s]], [[t, u], [v, w]]) == [r0, r1]
  {
    assert SubRow([p, q], [t, u]) == r0 && SubRow([r, s], [v, w]) == r1;
  }

  lemma Transpose22(p: real, q: real, r: real, s: real)
    ensures Transpose([[p, q], [r, s]]) == [[p, r], [q, s]]
  {
    var a := [[p, q], [r, s]];
    assert Column(a, 0) == [p, r] && Column(a, 1) == [q, s];
  }

  lemma Transpose21(p: real, r: real)
    ensures Transpose([[p], [r]]) == [[p, r]] && Transpose([[p, r]]) == [[p], [r]]
  {
    assert Column([[p], [r]], 0) == [p, r];
    assert Column([[p, r]], 0) == [p] && Column([[p, r]], 1) == [r];
  }

  // ---- the filter's matrices are lifted ----------------------------------------------

  lemma Lift22(p: real, q: real, r: real, s: real)
    ensures Lift([[p, q], [r, s]]) == [[p, 0.0, q, 0.0], [0.0, p, 0.0, q], [r, 0.0, s, 0.0], [0.0, r, 0.0, s]]
  {
    var a := [[p, q], [r, s]];
    assert LiftRow(a, 0) == [p, 0.0, q, 0.0];
    assert LiftRow(a, 1) == [0.0, p, 0.0, q];
    assert LiftRow(a, 2) == [r, 0.0, s, 0.0];
    assert LiftRow(a, 3) == [0.0, r, 0.0, s];
  }

  lemma Lift11(s: real)
    ensures Lift([[s]]) == [[s, 0.0], [0.0, s]]
  {
    assert LiftRow([[s]], 0) == [s, 0.0];
    assert LiftRow([[s]], 1) == [0.0, s];
  }

  lemma LiftedObserve()
    ensures OBSERVE == Lift([[1.0, 0.0]])
  {
    assert LiftRow([[1.0, 0.0]], 0) == [1.0, 0.0, 0.0, 0.0];
    assert LiftRow([[1.0, 0.0]], 1) == [0.0, 1.0, 0.0, 0.0];
  }

  // ---- predict -----------------------------------------------------------------------

  lemma PredictAxisMat(c: Cov, q: real, dt: real)
    ensures
      var f := [[1.0, dt], [0.0, 1.0]];
      Add(Mul(Mul(f, AsMat(c)), Transpose(f)), [[q, 0.0], [0.0, q]]) == AsMat(PredictAxis(c, q, dt))
  {
    var a, b, d := c.pos, c.mix, c.vel;
    var n := PredictAxis(c, q, dt);
    var h, t := a + dt * b, b + dt * d;
    var e := h + dt * t;
    Mul22(1.0, dt, 0.0, 1.0, a, b, b, d, [h, t], [b, d]);
    Transpose22(1.0, dt, 0.0, 1.0);
    Mul22(h, t, b, d, 1.0, 0.0, dt, 1.0, [e, t], [t, d]);
    Add22(e, t, t, d, q, 0.0, 0.0, q, [n.pos, n.mix], [n.mix, n.vel]);
  }

  // Predicting the joint covariance predicts each axis.
  lemma PredictLifts(c: Cov, q: real, dt: real)
    ensures Is(Lift(AsMat(c)), 4, 4)
    ensures PredictCov(Lift(AsMat(c)), q, dt) == Lift(AsMat(PredictAxis(c, q, dt)))
  {
    var f, p := [[1.0, dt], [0.0, 1.0]], AsMat(c);
    Lift22(1.0, dt, 0.0, 1.0);
    Lift22(q, 0.0, 0.0, q);
    assert Motion(dt) == Lift(f) && Diagonal(q) == Lift([[q, 0.0], [0.0, q]]);
    PredictAxisMat(c, q, dt);
    hide Mul, Add, Transpose, Lift, Motion, Diagonal, PredictAxis;
    LiftMul(f, p);
    LiftTranspose(f);
    LiftMul(Mul(f, p), Transpose(f));
    LiftAdd(Mul(Mul(f, p), Transpose(f)), [[q, 0.0], [0.0, q]]);
  }

  lemma SquareSum(a: real, b: real, d: real, t: real)
    requires a >= 0.0 && d >= 0.0 && a * d >= b * b
    ensures a + t * b + t * (b + t * d) >= 0.0
  {
    var e := a + t * b + t * (b + t * d);
    if d == 0.0 {
      assert a * d == 0.0;
      if b > 0.0 { assert b * b > 0.0; } else if b < 0.0 { assert b * b > 0.0; }
    } else {
      var w := b + t * d;
      assert d * e == w * w + (a * d - b * b);
      assert w * w >= 0.0;
      assert d * e >= 0.0;
    }
  }

  lemma DetAfterNoise(e: real, w: real, d: real, q: real)
    requires e >= 0.0 && d >= 0.0 && q >= 0.0 && e * d >= w * w
    ensures (e + q) * (d + q) >= w * w
  {
    assert (e + q) * (d + q) == e * d + (q * e + q * d + q * q);
    assert q * e >= 0.0;
    assert q * d >= 0.0;
    assert q * q >= 0.0;
  }

  lemma DetAfterMotion(a: real, b: real, d: real, t: real)
    ensures (a + t * b + t * (b + t * d)) * d - (b + t * d) * (b + t * d) == a * d - b * b
  {
  }

  lemma PredictPositive(c: Cov, q: real, dt: real)
    requires Positive(c) && q >= 0.0
    ensures Positive(PredictAxis(c, q, dt))
  {
    var e, w := c.pos + dt * c.mix + dt * (c.mix + dt * c.vel), c.mix + dt * c.vel;
    SquareSum(c.pos, c.mix, c.vel, dt);
    DetAfterMotion(c.pos, c.mix, c.vel, dt);
    DetAfterNoise(e, w, c.vel, q);
  }

  // The variance of h times the position plus k times the velocity.
  function Variance(c: Cov, h: real, k: real): real {
    h * h * c.pos + 2.0 * h * k * c.mix + k * k * c.vel
  }

  // Prediction carries every combination of position and velocity over by the motion, and adds the
  // process noise once per coordinate.
  lemma PredictVariance(c: Cov, q: real, dt: real, h: real, k: real)
    ensures Variance(PredictAxis(c, q, dt), h, k) == Variance(c, h, k + h * dt) + q * (h * h + k * k)
  {
    var a, b, d := c.pos, c.mix, c.vel;
    var n := PredictAxis(c, q, dt);
    assert h * h * n.pos == h * h * a + 2.0 * (h * h * dt * b) + h * h * dt * dt * d + h * h * q;
    assert 2.0 * h * k * n.mix == 2.0 * h * k * b + 2.0 * (h * k * dt * d);
    assert k * k * n.vel == k * k * d + k * k * q;
    assert (k + h * dt) * (k + h * dt) == k * k + 2.0 * (h * k * dt) + h * h * dt * dt;
    assert 2.0 * h * (k + h * dt) == 2.0 * h * k + 2.0 * (h * h * dt);
  }

  // ---- update ------------------------------------------------------------------------

  lemma InnovationAxis(c: Cov, r: real)
    ensures Add(Mul(Mul([[1.0, 0.0]], AsMat(c)), Transpose([[1.0, 0.0]])), [[r]]) == [[c.pos + r]]
  {
    Mul12(1.0, 0.0, c.pos, c.mix, c.mix, c.vel, [c.pos, c.mix]);
    Transpose21(1.0, 0.0);
    Mul121(c.pos, c.mix, 1.0, 0.0, c.pos);
    assert AddRow([c.pos], [r]) == [c.pos + r];
  }

  lemma InnovationLifts(c: Cov, m: real)
    ensures Is(Lift(AsMat(c)), 4, 4)
    ensures InnovationCov(Lift(AsMat(c)), m) == Lift([[c.pos + m * m]])
  {
    var h, p := [[1.0, 0.0]], AsMat(c);
    LiftedObserve();
    Lift11(m * m);
    assert Noise(m) == Lift([[m * m]]);
    InnovationAxis(c, m * m);
    hide Mul, Add, Transpose, Lift, Noise;
    LiftMul(h, p);
    LiftTranspose(h);
    LiftMul(Mul(h, p), Transpose(h));
    LiftAdd(Mul(Mul(h, p), Transpose(h)), [[m * m]]);
  }

  // The innovation covariance is inverted exactly.
  lemma InverseLifts(s: real, g: real)
    requires s > 0.0 && s * s >= TINY && g * s == 1.0
    ensures Is(Lift([[s]]), 2, 2) && Det(Lift([[s]])) == s * s
    ensures Inv2x2(Lift([[s]])) == Lift([[g]])
    ensures Mul(Lift([[s]]), Lift([[g]])) == [[1.0, 0.0], [0.0, 1.0]]
  {
    Lift11(s);
    Lift11(g);
    var a := Lift([[s]]);
    assert Det(a) == s * s;
    Quotient(s, s * s, g);
    Quotient(0.0, s * s, 0.0);
    Same2([a[1][1] / Det(a), -a[0][1] / Det(a)], [g, 0.0]);
    Same2([-a[1][0] / Det(a), a[0][0] / Det(a)], [0.0, g]);
    Mul22(s, 0.0, 0.0, s, g, 0.0, 0.0, g, [1.0, 0.0], [0.0, 1.0]);
  }

  lemma Quotient(n: real, d: real, x: real)
    requires d > 0.0 && x * d == n
    ensures n / d == x
  {
  }

  // A 2x2 matrix that is not nearly singular, times its computed inverse, is the identity.
  lemma InverseOf(a: Mat)
    requires Is(a, 2, 2) && !(-TINY < Det(a) < TINY)
    ensures Is(Inv2x2(a), 2, 2) && Mul(a, Inv2x2(a)) == [[1.0, 0.0], [0.0, 1.0]]
  {
    var p, q, r, s := a[0][0], a[0][1], a[1][0], a[1][1];
    var det := Det(a);
    assert a == [[p, q], [r, s]] by { Same2(a[0], [p, q]); Same2(a[1], [r, s]); }
    InverseEntries(p, q, r, s, det);
    Mul22(p, q, r, s, s / det, -q / det, -r / det, p / det, [1.0, 0.0], [0.0, 1.0]);
  }

  lemma InverseEntries(p: real, q: real, r: real, s: real, det: real)
    requires det != 0.0 && det == p * s - q * r
    ensures p * (s / det) + q * (-r / det) == 1.0 && p * (-q / det) + q * (p / det) == 0.0
    ensures r * (s / det) + s * (-r / det) == 0.0 && r * (-q / det) + s * (p / det) == 1.0
  {
    var g := 1.0 / det;
    assert g * det == 1.0;
    assert s / det == s * g && -q / det == -q * g && -r / det == -r * g && p / det == p * g;
    assert p * (s * g) + q * (-r * g) == g * (p * s - q * r);
    assert r * (-q * g) + s * (p * g) == g * (p * s - q * r);
  }

  // The gain of one axis: the weight g of a measurement, and what it moves.
  ghost predicate GainOf(c: Cov, m: real, g: real, x: real, y: real) {
    c.pos >= 0.0 && m * m > 0.0 && (m * m) * (m * m) >= TINY
    && g * (c.pos + m * m) == 1.0 && x == c.pos * g && y == c.mix * g
  }

  lemma GainLifts(c: Cov, m: real, g: real, x: real, y: real)
    requires GainOf(c, m, g, x, y)
    ensures Is(Lift(AsMat(c)), 4, 4) && Gain(Lift(AsMat(c)), m) == Lift([[x], [y]])
  {
    var s, h, p := c.pos + m * m, [[1.0, 0.0]], AsMat(c);
    LargerSquare(m * m, s);
    InnovationLifts(c, m);
    InverseLifts(s, g);
    LiftedObserve();
    Transpose21(1.0, 0.0);
    Mul221(c.pos, c.mix, c.mix, c.vel, 1.0, 0.0, c.pos, c.mix);
    Mul211(c.pos, c.mix, g, x, y);
    hide Mul, Transpose, Lift, InnovationCov, Inv2x2, GainOf;
    LiftTranspose(h);
    LiftMul(p, Transpose(h));
    LiftMul(Mul(p, Transpose(h)), [[g]]);
  }

  lemma LargerSquare(r: real, s: real)
    requires 0.0 <= r <= s
    ensures r * r <= s * s
  {
    assert r * r <= r * s <= s * s;
  }

  lemma ResidualLifts(c: Cov, m: real, g: real, x: real, y: real)
    requires GainOf(c, m, g, x, y)
    ensures Is(Lift(AsMat(c)), 4, 4) && Residual(Lift(AsMat(c)), m) == Lift([[1.0 - x, 0.0], [-y, 1.0]])
  {
    GainLifts(c, m, g, x, y);
    LiftedObserve();
    Mul212(x, y, 1.0, 0.0, [x, 0.0], [y, 0.0]);
    Sub22(1.0, 0.0, 0.0, 1.0, x, 0.0, y, 0.0, [1.0 - x, 0.0], [-y, 1.0]);
    Lift22(1.0, 0.0, 0.0, 1.0);
    assert Diagonal(1.0) == Lift([[1.0, 0.0], [0.0, 1.0]]);
    hide Mul, Sub, Lift, Gain, Diagonal;
    LiftMul([[x], [y]], [[1.0, 0.0]]);
    LiftSub([[1.0, 0.0], [0.0, 1.0]], [[x, 0.0], [y, 0.0]]);
  }

  lemma ShortAxis(c: Cov, m: real, g: real, x: real, y: real)
    requires GainOf(c, m, g, x, y)
    ensures UpdateAxis(c, m * m) == Cov(m * m * x, m * m * y, c.vel - c.mix * y)
    ensures Mul([[1.0 - x, 0.0], [-y, 1.0]], AsMat(c)) == AsMat(UpdateAxis(c, m * m))
  {
    var u, r := UpdateAxis(c, m * m), m * m;
    assert 1.0 / (c.pos + r) == g;
    assert 1.0 - x == r * g;
    assert (r * g) * c.pos == r * x;
    assert (r * g) * c.mix == r * y;
    assert -y * c.pos + c.mix == c.mix * (1.0 - x) == c.mix * (r * g) == r * y;
    Mul22(1.0 - x, 0.0, -y, 1.0, c.pos, c.mix, c.mix, c.vel, [u.pos, u.mix], [u.mix, u.vel]);
  }

  lemma JosephAxis(c: Cov, m: real, g: real, x: real, y: real)
    requires GainOf(c, m, g, x, y)
    ensures
      var a, k := [[1.0 - x, 0.0], [-y, 1.0]], [[x], [y]];
      Add(Mul(Mul(a, AsMat(c)), Transpose(a)), Mul(Mul(k, [[m * m]]), Transpose(k))) == AsMat(UpdateAxis(c, m * m))
  {
    var u, r := UpdateAxis(c, m * m), m * m;
    ShortAxis(c, m, g, x, y);
    hide GainOf, UpdateAxis;
    JosephMats(u, r, x, y);
  }

  lemma JosephScalars(r: real, x: real, y: real, up: real, um: real)
    requires up == r * x && um == r * y
    ensures up * (1.0 - x) + r * x * x == up && um - up * y + r * x * y == um
    ensures um * (1.0 - x) + r * x * y == um && um * y == r * y * y
  {
  }

  lemma JosephMats(u: Cov, r: real, x: real, y: real)
    requires u.pos == r * x && u.mix == r * y
    ensures
      var a, k := [[1.0 - x, 0.0], [-y, 1.0]], [[x], [y]];
      Add(Mul(AsMat(u), Transpose(a)), Mul(Mul(k, [[r]]), Transpose(k))) == AsMat(u)
  {
    var l := 1.0 - x;
    var a, k, p, t := [[l, 0.0], [-y, 1.0]], [[x], [y]], [[l, -y], [0.0, 1.0]], [[x, y]];
    Transpose22(l, 0.0, -y, 1.0);
    Transpose21(x, y);
    var e00, e01, e10, e11 := u.pos * l, u.mix - u.pos * y, u.mix * l, u.vel - u.mix * y;
    var k00, k01, k11 := r * x * x, r * x * y, r * y * y;
    JosephScalars(r, x, y, u.pos, u.mix);
    hide Mul, Add, Transpose;
    Mul22(u.pos, u.mix, u.mix, u.vel, l, -y, 0.0, 1.0, [e00, e01], [e10, e11]);
    Mul211(x, y, r, u.pos, u.mix);
    Mul212(u.pos, u.mix, x, y, [k00, k01], [k01, k11]);
    Add22(e00, e01, e10, e11, k00, k01, k01, k11, [u.pos, u.mix], [u.mix, u.vel]);
  }

  // The Joseph update is the short form (I - KH) P, and updates each axis.
  lemma JosephLifts(c: Cov, m: real)
    requires c.pos >= 0.0 && m * m > 0.0 && (m * m) * (m * m) >= TINY
    ensures Is(Lift(AsMat(c)), 4, 4)
    ensures Joseph(Lift(AsMat(c)), m) == Lift(AsMat(UpdateAxis(c, m * m)))
    ensures Joseph(Lift(AsMat(c)), m) == Mul(Residual(Lift(AsMat(c)), m), Lift(AsMat(c)))
  {
    var g := 1.0 / (c.pos + m * m);
    var x, y := c.pos * g, c.mix * g;
    assert GainOf(c, m, g, x, y);
    var p, a, k := AsMat(c), [[1.0 - x, 0.0], [-y, 1.0]], [[x], [y]];
    GainLifts(c, m, g, x, y);
    ResidualLifts(c, m, g, x, y);
    ShortAxis(c, m, g, x, y);
    JosephAxis(c, m, g, x, y);
    Lift11(m * m);
    assert Noise(m) == Lift([[m * m]]);
    hide Mul, Add, Transpose, Lift, Gain, Residual, Noise, GainOf, UpdateAxis;
    LiftMul(a, p);
    LiftTranspose(a);
    LiftMul(Mul(a, p), Transpose(a));
    LiftMul(k, [[m * m]]);
    LiftTranspose(k);
    LiftMul(Mul(k, [[m * m]]), Transpose(k));
    LiftAdd(Mul(Mul(a, p), Transpose(a)), Mul(Mul(k, [[m * m]]), Transpose(k)));
  }

  // An update keeps the axis covariance positive, and brings the position variance below the
  // variance of a measurement.
  lemma UpdatePositive(c: Cov, r: real)
    requires Positive(c) && r > 0.0
    ensures Positive(UpdateAxis(c, r)) && UpdateAxis(c, r).pos < r
  {
    var a, b, d := c.pos, c.mix, c.vel;
    var g := 1.0 / (a + r);
    UpdateVariance(a, r, g);
    UpdateVelocity(a, b, d, r, g);
    UpdateDet(a, b, d, r, g);
  }

  lemma UpdateVariance(a: real, r: real, g: real)
    requires a >= 0.0 && r > 0.0 && g * (a + r) == 1.0
    ensures g > 0.0 && 0.0 <= r * (a * g) < r
  {
    assert g > 0.0;
    assert r * g > 0.0;
    assert 0.0 <= a * g < 1.0;
  }

  lemma UpdateVelocity(a: real, b: real, d: real, r: real, g: real)
    requires a >= 0.0 && d >= 0.0 && a * d >= b * b && r > 0.0 && g > 0.0 && g * (a + r) == 1.0
    ensures d - b * (b * g) >= 0.0
  {
    assert d * r >= 0.0;
    var n := a * d - b * b + d * r;
    assert g * n >= 0.0;
    assert g * n == d * (g * (a + r)) - b * (b * g);
  }

  lemma UpdateDet(a: real, b: real, d: real, r: real, g: real)
    requires a * d >= b * b && r > 0.0 && g > 0.0 && g * (a + r) == 1.0
    ensures (r * (a * g)) * (d - b * (b * g)) >= (r * (b * g)) * (r * (b * g))
  {
    var w := r * g;
    assert w > 0.0;
    assert (r * (a * g)) * (d - b * (b * g)) == w * (a * d - a * (b * (b * g)));
    assert (r * (b * g)) * (r * (b * g)) == w * (r * (b * (b * g)));
    assert a * (b * (b * g)) + r * (b * (b * g)) == b * b * (g * (a + r));
    assert w * (a * d - b * b) >= 0.0;
  }
}
