/**
 * The filter object and its runs. A run of the four-dimensional filter is two independent
 * two-dimensional filters side by side, sharing one covariance; every reachable covariance is
 * symmetric positive semidefinite, and the innovation covariance is always inverted exactly.
 */
module KalmanFilter {
  import opened Wrappers
  import opened Matrix
  import opened Kalman

  datatype Filter = Filter(x: Row, p: Mat, q: real, m: real, initialized: bool, last: Option<real>)
  datatype Event = Initialize(t: real) | Predict(dt: real) | Fix(z: (real, real), t: real)

  function New(q: real, m: real): (f: Filter)
    ensures Shaped(f)
  {
    Filter([0.0, 0.0, 0.0, 0.0], Diagonal(100.0), q, m, false, None)
  }

  predicate Shaped(f: Filter) {
    |f.x| == 4 && Is(f.p, 4, 4)
  }

  function Predicted(f: Filter, dt: real): (r: Filter)
    requires Shaped(f)
    ensures Shaped(r)
  {
    f.(x := MulVec(Motion(dt), f.x), p := PredictCov(f.p, f.q, dt))
  }

  // Seconds since the last fix, when there was one and time has moved on.
  function Elapsed(last: Option<real>, t: real): Option<real> {
    if last.Some? && (t - last.value) / 1000.0 > 0.0 then Some((t - last.value) / 1000.0) else None
  }

  function CaughtUp(f: Filter, t: real): (r: Filter)
    requires Shaped(f)
    ensures Shaped(r)
  {
    if Elapsed(f.last, t).Some? then Predicted(f, Elapsed(f.last, t).value) else f
  }

  function Innovation(x: Row, z: (real, real)): Row
    requires |x| == 4
  {
    [z.0 - x[0], z.1 - x[1]]
  }

  function Corrected(f: Filter, z: (real, real), t: real): (r: Filter)
    requires Shaped(f)
    ensures Shaped(r)
  {
    f.(x := AddRow(f.x, MulVec(Gain(f.p, f.m), Innovation(f.x, z))), p := Joseph(f.p, f.m), last := Some(t))
  }

  function Step(f: Filter, e: Event): (r: Filter)
    requires Shaped(f)
    ensures Shaped(r)
  {
    match e
    case Initialize(t) => f.(initialized := true, last := Some(t))
    case Predict(dt) => Predicted(f, dt)
    case Fix(z, t) => if f.initialized then Corrected(CaughtUp(f, t), z, t) else f
  }

  function Run(f: Filter, es: seq<Event>): Filter
    requires Shaped(f)
    decreases |es|
  {
    if es == [] then f else Run(Step(f, es[0]), es[1..])
  }

  // ---- one axis ----------------------------------------------------------------------

  // The textbook filter on one coordinate: position and velocity, and their covariance.
  datatype Axis = Axis(pos: real, vel: real, c: Cov, q: real, r: real, initialized: bool, last: Option<real>)

  function AxisPredicted(a: Axis, dt: real): Axis {
    a.(pos := a.pos + dt * a.vel, c := PredictAxis(a.c, a.q, dt))
  }

  // How far position and velocity move per unit of innovation.
  function PosGain(c: Cov, r: real): real
    requires c.pos + r != 0.0
  {
    c.pos * (1.0 / (c.pos + r))
  }

  function VelGain(c: Cov, r: real): real
    requires c.pos + r != 0.0
  {
    c.mix * (1.0 / (c.pos + r))
  }

  function AxisCorrected(a: Axis, z: real, t: real): Axis
    requires a.c.pos + a.r != 0.0
  {
    a.(pos := a.pos + PosGain(a.c, a.r) * (z - a.pos), vel := a.vel + VelGain(a.c, a.r) * (z - a.pos),
       c := UpdateAxis(a.c, a.r), last := Some(t))
  }

  function AxisCaughtUp(a: Axis, t: real): Axis {
    if Elapsed(a.last, t).Some? then AxisPredicted(a, Elapsed(a.last, t).value) else a
  }

  ghost predicate Healthy(a: Axis) {
    Positive(a.c) && a.q >= 0.0 && a.r > 0.0
  }

  datatype AxisEvent = AxisInitialize(t: real) | AxisPredict(dt: real) | AxisFix(z: real, t: real)

  ghost function AxisStep(a: Axis, e: AxisEvent): (r: Axis)
    requires Healthy(a)
    ensures Healthy(r) && r.q == a.q && r.r == a.r
    ensures e.AxisFix? && a.initialized ==> r.c.pos < a.r
  {
    match e
    case AxisInitialize(t) => a.(initialized := true, last := Some(t))
    case AxisPredict(dt) =>
      PredictPositive(a.c, a.q, dt);
      AxisPredicted(a, dt)
    case AxisFix(z, t) =>
      if a.initialized then
        var b := AxisCaughtUp(a, t);
        PredictPositive(a.c, a.q, if Elapsed(a.last, t).Some? then Elapsed(a.last, t).value else 0.0);
        assert Healthy(b);
        UpdatePositive(b.c, b.r);
        AxisCorrected(b, z, t)
      else a
  }

  ghost function AxisRun(a: Axis, es: seq<AxisEvent>): (r: Axis)
    requires Healthy(a)
    ensures Healthy(r)
    decreases |es|
  {
    if es == [] then a else AxisRun(AxisStep(a, es[0]), es[1..])
  }

  function NewAxis(q: real, m: real): Axis {
    Axis(0.0, 0.0, Cov(100.0, 0.0, 100.0), q, m * m, false, None)
  }

  // ---- two axes make the filter ------------------------------------------------------

  // f is the two axis filters a and b side by side.
  ghost predicate Splits(f: Filter, a: Axis, b: Axis) {
    f.x == [a.pos, b.pos, a.vel, b.vel] && f.p == Lift(AsMat(a.c)) && a.c == b.c
    && f.q == a.q == b.q && f.m * f.m == a.r == b.r
    && f.initialized == a.initialized == b.initialized && f.last == a.last == b.last
  }

  function OnAxis(e: Event, second: bool): AxisEvent {
    match e
    case Initialize(t) => AxisInitialize(t)
    case Predict(dt) => AxisPredict(dt)
    case Fix(z, t) => AxisFix(if second then z.1 else z.0, t)
  }

  function AllOnAxis(es: seq<Event>, second: bool): seq<AxisEvent> {
    if es == [] then [] else [OnAxis(es[0], second)] + AllOnAxis(es[1..], second)
  }

  lemma Woven(p: real, q: real, v: real, w: real)
    ensures Weave([p, v], [q, w]) == [p, q, v, w]
  {
  }

  lemma MotionOf(p: real, v: real, dt: real, p': real)
    requires p' == p + dt * v
    ensures MulVec([[1.0, dt], [0.0, 1.0]], [p, v]) == [p', v]
  {
    var m, s := [[1.0, dt], [0.0, 1.0]], [p, v];
    DotVecOf2(m[0], s);
    DotVecOf2(m[1], s);
    Same2(MulVec(m, s), [p', v]);
  }

  lemma DotVecOf2(u: Row, v: Row)
    requires |u| == |v| == 2
    ensures DotVec(u, v, 2) == u[0] * v[0] + u[1] * v[1]
  {
    assert DotVec(u, v, 1) == u[0] * v[0];
  }

  lemma DotVecOf1(u: Row, v: Row)
    requires |u| == |v| == 1
    ensures DotVec(u, v, 1) == u[0] * v[0]
  {
    assert DotVec(u, v, 0) == 0.0;
  }

  lemma PredictSplits(f: Filter, a: Axis, b: Axis, dt: real)
    requires Shaped(f) && Splits(f, a, b)
    ensures Splits(Predicted(f, dt), AxisPredicted(a, dt), AxisPredicted(b, dt))
  {
    var m := [[1.0, dt], [0.0, 1.0]];
    PredictLifts(a.c, a.q, dt);
    Lift22(1.0, dt, 0.0, 1.0);
    assert Motion(dt) == Lift(m);
    Woven(a.pos, b.pos, a.vel, b.vel);
    LiftMulVec(m, [a.pos, a.vel], [b.pos, b.vel]);
    var a', b' := AxisPredicted(a, dt), AxisPredicted(b, dt);
    MotionOf(a.pos, a.vel, dt, a'.pos);
    MotionOf(b.pos, b.vel, dt, b'.pos);
    Woven(a'.pos, b'.pos, a.vel, b.vel);
    hide MulVec, Lift, Motion, Weave, PredictCov, PredictAxis;
  }

  lemma GainTimes(x: real, y: real, e: real, p: real, v: real)
    requires p == x * e && v == y * e
    ensures MulVec([[x], [y]], [e]) == [p, v]
  {
    DotVecOf1([x], [e]);
    DotVecOf1([y], [e]);
    Same2(MulVec([[x], [y]], [e]), [p, v]);
  }

  // The correction of the joint state is the correction of each axis by its own innovation.
  lemma CorrectionSplits(c: Cov, m: real, g: real, x: real, y: real, e: real, h: real, k: Row)
    requires GainOf(c, m, g, x, y) && |k| == 4 && k[0] == x * e && k[1] == x * h && k[2] == y * e && k[3] == y * h
    ensures Is(Lift(AsMat(c)), 4, 4) && MulVec(Gain(Lift(AsMat(c)), m), [e, h]) == k
  {
    GainLifts(c, m, g, x, y);
    assert Weave([e], [h]) == [e, h];
    LiftMulVec([[x], [y]], [e], [h]);
    GainTimes(x, y, e, k[0], k[2]);
    GainTimes(x, y, h, k[1], k[3]);
    Woven(k[0], k[1], k[2], k[3]);
    hide MulVec, Lift, Gain, GainOf;
    assert k == [k[0], k[1], k[2], k[3]];
  }

  lemma AddedRow(u: Row, v: Row, w: Row)
    requires |u| == |v| == |w| == 4
    requires u[0] + v[0] == w[0] && u[1] + v[1] == w[1] && u[2] + v[2] == w[2] && u[3] + v[3] == w[3]
    ensures AddRow(u, v) == w
  {
  }

  lemma StateSplits(c: Cov, m: real, g: real, x: real, y: real, s: Row, z: (real, real), w: Row)
    requires GainOf(c, m, g, x, y) && |s| == |w| == 4
    requires w[0] == s[0] + x * (z.0 - s[0]) && w[1] == s[1] + x * (z.1 - s[1])
    requires w[2] == s[2] + y * (z.0 - s[0]) && w[3] == s[3] + y * (z.1 - s[1])
    ensures Is(Lift(AsMat(c)), 4, 4) && AddRow(s, MulVec(Gain(Lift(AsMat(c)), m), Innovation(s, z))) == w
  {
    var k := [w[0] - s[0], w[1] - s[1], w[2] - s[2], w[3] - s[3]];
    CorrectionSplits(c, m, g, x, y, z.0 - s[0], z.1 - s[1], k);
    hide MulVec, Lift, Gain, GainOf;
    AddedRow(s, k, w);
  }

  lemma AxisCorrection(a: Axis, z: real, t: real, m: real, g: real, x: real, y: real)
    requires GainOf(a.c, m, g, x, y) && a.r == m * m
    ensures AxisCorrected(a, z, t) ==
            a.(pos := a.pos + x * (z - a.pos), vel := a.vel + y * (z - a.pos), c := UpdateAxis(a.c, a.r), last := Some(t))
  {
    assert 1.0 / (a.c.pos + a.r) == g;
    assert PosGain(a.c, a.r) == x && VelGain(a.c, a.r) == y;
    hide GainOf, PosGain, VelGain, UpdateAxis;
  }

  lemma CorrectSplits(f: Filter, a: Axis, b: Axis, z: (real, real), t: real)
    requires Shaped(f) && Splits(f, a, b) && Healthy(a) && a.r * a.r >= TINY
    ensures Splits(Corrected(f, z, t), AxisCorrected(a, z.0, t), AxisCorrected(b, z.1, t))
  {
    var g := 1.0 / (a.c.pos + a.r);
    CorrectSplitsBy(f, a, b, z, t, g, a.c.pos * g, a.c.mix * g);
  }

  lemma CorrectSplitsBy(f: Filter, a: Axis, b: Axis, z: (real, real), t: real, g: real, x: real, y: real)
    requires Shaped(f) && Splits(f, a, b) && GainOf(a.c, f.m, g, x, y) && a.c.pos + a.r != 0.0
    ensures Splits(Corrected(f, z, t), AxisCorrected(a, z.0, t), AxisCorrected(b, z.1, t))
  {
    hide MulVec, Lift, Gain, Joseph, UpdateAxis, GainOf, Innovation, AddRow, AxisCorrected, AsMat, Residual, Mul;
    AxisCorrection(a, z.0, t, f.m, g, x, y);
    AxisCorrection(b, z.1, t, f.m, g, x, y);
    GainJoseph(a.c, f.m, g, x, y);
    var a', b' := AxisCorrected(a, z.0, t), AxisCorrected(b, z.1, t);
    StateSplits(a.c, f.m, g, x, y, f.x, z, [a'.pos, b'.pos, a'.vel, b'.vel]);
  }

  lemma GainJoseph(c: Cov, m: real, g: real, x: real, y: real)
    requires GainOf(c, m, g, x, y)
    ensures Is(Lift(AsMat(c)), 4, 4) && c.pos + m * m != 0.0 && Joseph(Lift(AsMat(c)), m) == Lift(AsMat(UpdateAxis(c, m * m)))
  {
    JosephLifts(c, m);
  }

  lemma StepSplits(f: Filter, a: Axis, b: Axis, e: Event)
    requires Shaped(f) && Splits(f, a, b) && Healthy(a) && a.r * a.r >= TINY
    ensures Healthy(b) && Splits(Step(f, e), AxisStep(a, OnAxis(e, false)), AxisStep(b, OnAxis(e, true)))
  {
    match e
    case Initialize(t) =>
    case Predict(dt) => PredictSplits(f, a, b, dt);
    case Fix(z, t) =>
      if f.initialized {
        var dt := Elapsed(f.last, t);
        if dt.Some? { PredictSplits(f, a, b, dt.value); }
        PredictPositive(a.c, a.q, if dt.Some? then dt.value else 0.0);
        CorrectSplits(CaughtUp(f, t), AxisCaughtUp(a, t), AxisCaughtUp(b, t), z, t);
        hide Splits, Corrected, AxisCorrected, Predicted, PredictAxis;
      }
  }

  lemma {:induction false} RunSplits(f: Filter, a: Axis, b: Axis, es: seq<Event>)
    requires Shaped(f) && Splits(f, a, b) && Healthy(a) && a.r * a.r >= TINY
    ensures Healthy(b) && Splits(Run(f, es), AxisRun(a, AllOnAxis(es, false)), AxisRun(b, AllOnAxis(es, true)))
    decreases |es|
  {
    if es != [] {
      var a', b' := OnAxis(es[0], false), OnAxis(es[0], true);
      StepSplits(f, a, b, es[0]);
      RunSplits(Step(f, es[0]), AxisStep(a, a'), AxisStep(b, b'), es[1..]);
      assert AllOnAxis(es, false)[1..] == AllOnAxis(es[1..], false) && AllOnAxis(es, true)[1..] == AllOnAxis(es[1..], true);
      hide Splits, Step, AxisStep, Healthy;
    }
  }

  // The filter started by the constructor is, after any run, two one-axis filters side by side.
  lemma TwoAxes(q: real, m: real, es: seq<Event>)
    requires q >= 0.0 && m * m * m * m >= TINY
    ensures Healthy(NewAxis(q, m))
    ensures Splits(Run(New(q, m), es), AxisRun(NewAxis(q, m), AllOnAxis(es, false)), AxisRun(NewAxis(q, m), AllOnAxis(es, true)))
  {
    var a := NewAxis(q, m);
    NoiseLarge(m);
    Lift22(100.0, 0.0, 0.0, 100.0);
    assert Splits(New(q, m), a, a);
    hide Splits;
    RunSplits(New(q, m), a, a, es);
  }

  lemma NoiseLarge(m: real)
    requires m * m * m * m >= TINY
    ensures m * m > 0.0 && (m * m) * (m * m) == m * m * m * m
  {
    assert (m * m) * (m * m) == m * m * m * m;
    SquarePositive(m * m);
  }

  lemma SquarePositive(r: real)
    requires r >= 0.0 && r * r > 0.0
    ensures r > 0.0
  {
  }

  // ---- what holds in every run -------------------------------------------------------

  lemma QuadPair(a: real, b: real, d: real, p: real, w: real, ap: real, aw: real)
    requires a >= 0.0 && d >= 0.0 && a * d >= b * b && ap == a * p + b * w && aw == b * p + d * w
    ensures p * ap + w * aw >= 0.0
  {
    if p == 0.0 {
      assert w * w >= 0.0;
      assert d * (w * w) >= 0.0;
    } else {
      var t := w / p;
      SquareSum(a, b, d, t);
      var n := a + t * b + t * (b + t * d);
      assert w == t * p;
      assert p * (a * p + b * (t * p)) + (t * p) * (b * p + d * (t * p)) == (p * p) * n;
      assert p * p >= 0.0;
      assert (p * p) * n >= 0.0;
    }
  }

  // The product of a lifted block with a vector, entry by entry.
  lemma BlockTimes(c: Cov, v: Row)
    requires |v| == 4 && Is(Lift(AsMat(c)), 4, 4)
    ensures
      var w := MulVec(Lift(AsMat(c)), v);
      |w| == 4 && w[0] == c.pos * v[0] + c.mix * v[2] && w[1] == c.pos * v[1] + c.mix * v[3]
      && w[2] == c.mix * v[0] + c.vel * v[2] && w[3] == c.mix * v[1] + c.vel * v[3]
  {
    var x, y, m := [v[0], v[2]], [v[1], v[3]], AsMat(c);
    Woven(v[0], v[1], v[2], v[3]);
    assert v == [v[0], v[1], v[2], v[3]];
    LiftMulVec(m, x, y);
    TwoEntries(m, x);
    TwoEntries(m, y);
    hide MulVec, Lift;
  }

  lemma TwoEntries(m: Mat, u: Row)
    requires Is(m, 2, 2) && |u| == 2
    ensures |MulVec(m, u)| == 2
    ensures MulVec(m, u)[0] == m[0][0] * u[0] + m[0][1] * u[1] && MulVec(m, u)[1] == m[1][0] * u[0] + m[1][1] * u[1]
  {
    DotVecOf2(m[0], u);
    DotVecOf2(m[1], u);
    hide DotVec;
  }

  lemma PositiveQuad(c: Cov, v: Row)
    requires Positive(c) && |v| == 4 && Is(Lift(AsMat(c)), 4, 4)
    ensures Quad(Lift(AsMat(c)), v) >= 0.0
  {
    hide MulVec, Lift, DotVec, Positive;
    var w := MulVec(Lift(AsMat(c)), v);
    BlockTimes(c, v);
    DotVecOf4(v, w);
    AxisQuad(c, v[0], v[2], w[0], w[2]);
    AxisQuad(c, v[1], v[3], w[1], w[3]);
  }

  lemma AxisQuad(c: Cov, p: real, w: real, ap: real, aw: real)
    requires Positive(c) && ap == c.pos * p + c.mix * w && aw == c.mix * p + c.vel * w
    ensures p * ap + w * aw >= 0.0
  {
    QuadPair(c.pos, c.mix, c.vel, p, w, ap, aw);
  }

  lemma DotVecOf4(u: Row, v: Row)
    requires |u| == |v| == 4
    ensures DotVec(u, v, 4) == (u[0] * v[0] + u[2] * v[2]) + (u[1] * v[1] + u[3] * v[3])
  {
    assert DotVec(u, v, 1) == u[0] * v[0];
    assert DotVec(u, v, 2) == DotVec(u, v, 1) + u[1] * v[1];
    assert DotVec(u, v, 3) == DotVec(u, v, 2) + u[2] * v[2];
    assert DotVec(u, v, 4) == DotVec(u, v, 3) + u[3] * v[3];
  }

  lemma LiftSymmetric(c: Cov)
    ensures Symmetric(Lift(AsMat(c)))
  {
    Lift22(c.pos, c.mix, c.mix, c.vel);
  }

  // In every run the covariance is symmetric positive semidefinite, with two equal axis blocks
  // and nothing between the axes.
  lemma CovarianceSound(q: real, m: real, es: seq<Event>)
    requires q >= 0.0 && m * m * m * m >= TINY
    ensures PositiveSemidefinite(Run(New(q, m), es).p)
    ensures exists c :: Positive(c) && Run(New(q, m), es).p == Lift(AsMat(c))
  {
    TwoAxes(q, m, es);
    var c := AxisRun(NewAxis(q, m), AllOnAxis(es, false)).c;
    var p := Run(New(q, m), es).p;
    assert Positive(c) && p == Lift(AsMat(c));
    hide Run, AxisRun;
    LiftSymmetric(c);
    forall v: Row | |v| == |p| ensures Quad(p, v) >= 0.0 {
      PositiveQuad(c, v);
    }
  }

  lemma InverseExactFor(c: Cov, m: real)
    requires Positive(c) && m * m * m * m >= TINY && Is(Lift(AsMat(c)), 4, 4)
    ensures
      var s := InnovationCov(Lift(AsMat(c)), m);
      Det(s) >= m * m * m * m && Is(Inv2x2(s), 2, 2) && Mul(s, Inv2x2(s)) == [[1.0, 0.0], [0.0, 1.0]]
  {
    var s := c.pos + m * m;
    NoiseLarge(m);
    InnovationLifts(c, m);
    LargerSquare(m * m, s);
    InverseLifts(s, 1.0 / s);
    hide Lift, Mul, InnovationCov, Inv2x2, Det;
  }

  lemma SharpensFor(c: Cov, m: real)
    requires Positive(c) && m * m * m * m >= TINY && Is(Lift(AsMat(c)), 4, 4)
    ensures
      var p := Joseph(Lift(AsMat(c)), m);
      Is(p, 4, 4) && 0.0 <= p[0][0] == p[1][1] < m * m && p == Mul(Residual(Lift(AsMat(c)), m), Lift(AsMat(c)))
  {
    NoiseLarge(m);
    JosephLifts(c, m);
    UpdatePositive(c, m * m);
    var u := UpdateAxis(c, m * m);
    hide Joseph, Residual, Mul, UpdateAxis;
    Lift22(u.pos, u.mix, u.mix, u.vel);
  }

  // The covariance a fix at time t starts from is still one Positive block on both axes.
  lemma CaughtUpSound(q: real, m: real, es: seq<Event>, t: real) returns (c: Cov)
    requires q >= 0.0 && m * m * m * m >= TINY
    ensures Shaped(Run(New(q, m), es)) && Positive(c) && CaughtUp(Run(New(q, m), es), t).p == Lift(AsMat(c))
  {
    hide Run, CaughtUp, Positive, Lift, PositiveSemidefinite, New, Elapsed;
    CaughtUpIsRun(New(q, m), es, t);
    var dt := Elapsed(Run(New(q, m), es).last, t);
    var es' := if dt.Some? then es + [Predict(dt.value)] else es;
    CovarianceSound(q, m, es');
    c :| Positive(c) && Run(New(q, m), es').p == Lift(AsMat(c));
  }

  // Whatever the run, the next fix finds an innovation covariance with determinant at least m^4:
  // the near-singular fallback is not taken and the computed inverse is the inverse.
  lemma InverseExact(q: real, m: real, es: seq<Event>, t: real)
    requires q >= 0.0 && m * m * m * m >= TINY
    ensures Shaped(Run(New(q, m), es))
    ensures
      var s := InnovationCov(CaughtUp(Run(New(q, m), es), t).p, m);
      Det(s) >= m * m * m * m && Is(Inv2x2(s), 2, 2) && Mul(s, Inv2x2(s)) == [[1.0, 0.0], [0.0, 1.0]]
  {
    var c := CaughtUpSound(q, m, es, t);
    hide Run, CaughtUp, Lift, InnovationCov, Positive;
    InverseExactFor(c, m);
  }

  lemma {:induction false} RunShaped(f: Filter, es: seq<Event>)
    requires Shaped(f)
    ensures Shaped(Run(f, es))
    decreases |es|
  {
    if es != [] { RunShaped(Step(f, es[0]), es[1..]); }
  }

  lemma {:induction false} RunOneMore(f: Filter, es: seq<Event>, e: Event)
    requires Shaped(f)
    ensures Shaped(Run(f, es)) && Run(f, es + [e]) == Step(Run(f, es), e)
    decreases |es|
  {
    RunShaped(f, es);
    if es == [] {
      assert es + [e] == [e] && [e][1..] == [];
      assert Run(Step(f, e), []) == Step(f, e);
    } else {
      assert (es + [e])[1..] == es[1..] + [e];
      RunOneMore(Step(f, es[0]), es[1..], e);
    }
  }

  lemma CaughtUpIsRun(f: Filter, es: seq<Event>, t: real)
    requires Shaped(f)
    ensures Shaped(Run(f, es))
    ensures
      var dt := Elapsed(Run(f, es).last, t);
      CaughtUp(Run(f, es), t) == Run(f, if dt.Some? then es + [Predict(dt.value)] else es)
  {
    RunShaped(f, es);
    var dt := Elapsed(Run(f, es).last, t);
    if dt.Some? { RunOneMore(f, es, Predict(dt.value)); }
  }

  // After a fix on an initialised filter the position variance of both axes is below m^2, and
  // the Joseph update equals the short form (I - KH) P.
  lemma FixSharpens(q: real, m: real, es: seq<Event>, z: (real, real), t: real)
    requires q >= 0.0 && m * m * m * m >= TINY
    ensures Shaped(Run(New(q, m), es)) && Shaped(Run(New(q, m), es + [Fix(z, t)]))
    ensures
      var before, after := CaughtUp(Run(New(q, m), es), t).p, Run(New(q, m), es + [Fix(z, t)]).p;
      Run(New(q, m), es).initialized ==>
        0.0 <= after[0][0] == after[1][1] < m * m && after == Mul(Residual(before, m), before)
  {
    var f := Run(New(q, m), es);
    RunOneMore(New(q, m), es, Fix(z, t));
    KeepsParameters(New(q, m), es);
    var c := CaughtUpSound(q, m, es, t);
    assert f.initialized ==> Step(f, Fix(z, t)).p == Joseph(CaughtUp(f, t).p, m);
    hide Run, CaughtUp, Lift, Joseph, Residual, Positive, Step;
    SharpensFor(c, m);
  }

  lemma {:induction false} KeepsParameters(f: Filter, es: seq<Event>)
    requires Shaped(f)
    ensures Run(f, es).q == f.q && Run(f, es).m == f.m
    decreases |es|
  {
    if es != [] { KeepsParameters(Step(f, es[0]), es[1..]); }
  }

  // ---- what the filter expects -------------------------------------------------------

  lemma EveryEntry(u: Row, v: Row)
    requires |u| == |v| == 4
    ensures DotVec(u, v, 4) == u[0] * v[0] + u[1] * v[1] + u[2] * v[2] + u[3] * v[3]
  {
    DotVecOf4(u, v);
  }

  lemma MotionMoves(dt: real, x: Row)
    requires |x| == 4
    ensures
      var w := MulVec(Motion(dt), x);
      |w| == 4 && w[0] == x[0] + dt * x[2] && w[1] == x[1] + dt * x[3] && w[2] == x[2] && w[3] == x[3]
  {
    var f := Motion(dt);
    EveryEntry(f[0], x);
    EveryEntry(f[1], x);
    EveryEntry(f[2], x);
    EveryEntry(f[3], x);
    hide DotVec;
  }

  lemma Same4(u: Row, v: Row)
    requires |u| == |v| == 4 && u[0] == v[0] && u[1] == v[1] && u[2] == v[2] && u[3] == v[3]
    ensures u == v
  {
  }

  // Catching up moves the position along the velocity for the milliseconds since the last fix, and
  // for an earlier or equal time not at all.
  lemma CaughtUpAt(f: Filter, t: real, dt: real)
    requires Shaped(f) && dt == if f.last.Some? && t > f.last.value then (t - f.last.value) / 1000.0 else 0.0
    ensures
      var x := CaughtUp(f, t).x;
      |x| == 4 && x[0] == f.x[0] + dt * f.x[2] && x[1] == f.x[1] + dt * f.x[3] && x[2] == f.x[2] && x[3] == f.x[3]
  {
    hide MulVec, PredictCov;
    if f.last.Some? && t > f.last.value {
      assert dt > 0.0;
      assert Elapsed(f.last, t) == Some(dt);
      assert CaughtUp(f, t).x == MulVec(Motion(dt), f.x);
      MotionMoves(dt, f.x);
    } else {
      assert f.last.Some? ==> (t - f.last.value) / 1000.0 <= 0.0;
      assert CaughtUp(f, t) == f;
    }
  }

  // So a fix is compared with the position expected at its time.
  lemma InnovationAt(f: Filter, z: (real, real), t: real, dt: real)
    requires Shaped(f) && dt == if f.last.Some? && t > f.last.value then (t - f.last.value) / 1000.0 else 0.0
    ensures
      var y := Innovation(CaughtUp(f, t).x, z);
      |y| == 2 && y[0] == z.0 - (f.x[0] + dt * f.x[2]) && y[1] == z.1 - (f.x[1] + dt * f.x[3])
  {
    CaughtUpAt(f, t, dt);
    hide CaughtUp;
  }

  // A target at constant velocity: where it is at time 0, and how far it moves per second.
  datatype Target = Target(x: real, y: real, vx: real, vy: real)

  function Where(g: Target, t: real): (real, real) {
    (g.x + g.vx * (t / 1000.0), g.y + g.vy * (t / 1000.0))
  }

  // The filter is where the target was at the last fix, and moves as it does.
  ghost predicate Tracks(f: Filter, g: Target) {
    f.initialized && f.last.Some?
    && f.x == [Where(g, f.last.value).0, Where(g, f.last.value).1, g.vx, g.vy]
  }

  lemma Later(p: real, v: real, s: real, t: real)
    ensures p + v * (s / 1000.0) + ((t - s) / 1000.0) * v == p + v * (t / 1000.0)
  {
    assert (t - s) / 1000.0 == t / 1000.0 - s / 1000.0;
    assert (t / 1000.0 - s / 1000.0) * v == v * (t / 1000.0) - v * (s / 1000.0);
  }

  lemma Expected(g: Target, s: real, t: real, dt: real)
    requires s <= t && dt == if t > s then (t - s) / 1000.0 else 0.0
    ensures Where(g, s).0 + dt * g.vx == Where(g, t).0 && Where(g, s).1 + dt * g.vy == Where(g, t).1
  {
    Later(g.x, g.vx, s, t);
    Later(g.y, g.vy, s, t);
    assert dt == (t - s) / 1000.0;
  }

  lemma {:induction false} NoMove(k: Mat)
    requires Is(k, 4, 2)
    ensures MulVec(k, [0.0, 0.0]) == [0.0, 0.0, 0.0, 0.0]
  {
    DotVecOf2(k[0], [0.0, 0.0]);
    DotVecOf2(k[1], [0.0, 0.0]);
    DotVecOf2(k[2], [0.0, 0.0]);
    DotVecOf2(k[3], [0.0, 0.0]);
    hide DotVec;
  }

  // A fix exactly on the path, not before the last one, is exactly what the filter expects.
  lemma OnTarget(f: Filter, g: Target, t: real)
    requires Shaped(f) && Tracks(f, g) && t >= f.last.value
    ensures Innovation(CaughtUp(f, t).x, Where(g, t)) == [0.0, 0.0]
    ensures Tracks(Step(f, Fix(Where(g, t), t)), g)
  {
    var s := f.last.value;
    var c, dt := CaughtUp(f, t), if t > s then (t - s) / 1000.0 else 0.0;
    CaughtUpAt(f, t, dt);
    Expected(g, s, t, dt);
    Same4(c.x, [Where(g, t).0, Where(g, t).1, g.vx, g.vy]);
    assert c.x == [Where(g, t).0, Where(g, t).1, g.vx, g.vy];
    NoMove(Gain(c.p, c.m));
    assert Innovation(c.x, Where(g, t)) == [0.0, 0.0];
    hide CaughtUp, Gain, MulVec, Joseph;
    AddedRow(c.x, [0.0, 0.0, 0.0, 0.0], c.x);
    assert AddRow(c.x, MulVec(Gain(c.p, c.m), Innovation(c.x, Where(g, t)))) == c.x;
  }

  function OnPath(g: Target, times: seq<real>): seq<Event> {
    seq(|times|, i requires 0 <= i < |times| => Fix(Where(g, times[i]), times[i]))
  }

  // Once on a target moving at constant velocity, fixes on its path in order of time keep the filter
  // on it: no fix surprises it, and it keeps its velocity.
  lemma {:induction false} KeepsTarget(f: Filter, g: Target, times: seq<real>, k: nat)
    requires Shaped(f) && Tracks(f, g) && k < |times|
    requires f.last.value <= times[0] && forall i, j | 0 <= i < j < |times| :: times[i] <= times[j]
    ensures
      var before := Run(f, OnPath(g, times[..k]));
      && Shaped(before) && Tracks(before, g)
      && Innovation(CaughtUp(before, times[k]).x, Where(g, times[k])) == [0.0, 0.0]
      && before.x[2] == g.vx && before.x[3] == g.vy
    decreases k
  {
    if k == 0 {
      assert times[..0] == [];
      OnTarget(f, g, times[0]);
    } else {
      var next := Step(f, Fix(Where(g, times[0]), times[0]));
      OnTarget(f, g, times[0]);
      var fixes := OnPath(g, times[..k]);
      assert fixes[0] == Fix(Where(g, times[0]), times[0]) && fixes[1..] == OnPath(g, times[1..][..k - 1]);
      assert next.last == Some(times[0]);
      KeepsTarget(next, g, times[1..], k - 1);
      hide Innovation, CaughtUp, Tracks, Step;
      assert Run(f, fixes) == Run(next, fixes[1..]);
    }
  }

  // A fix on the path but stamped earlier than the last one is as expected only if the target rests.
  lemma LateFixExpectedIff(f: Filter, g: Target, t: real)
    requires Shaped(f) && Tracks(f, g)
    ensures Innovation(CaughtUp(f, t).x, Where(g, t)) == [0.0, 0.0] <==> t >= f.last.value || (g.vx == 0.0 && g.vy == 0.0)
  {
    var s := f.last.value;
    CaughtUpAt(f, t, if t > s then (t - s) / 1000.0 else 0.0);
    if t >= s {
      OnTarget(f, g, t);
    } else {
      Same4(CaughtUp(f, t).x, f.x);
      hide CaughtUp;
      MovedIff(g.x, g.vx, s, t);
      MovedIff(g.y, g.vy, s, t);
      var y := Innovation(f.x, Where(g, t));
      assert y == [0.0, 0.0] <==> y[0] == 0.0 && y[1] == 0.0;
    }
  }

  lemma MovedIff(p: real, v: real, s: real, t: real)
    requires t < s
    ensures p + v * (t / 1000.0) == p + v * (s / 1000.0) <==> v == 0.0
  {
    var d := s / 1000.0 - t / 1000.0;
    assert d > 0.0;
    assert v * (s / 1000.0) - v * (t / 1000.0) == v * d;
  }

  // The position moved by the share k towards the fix on both axes, the velocity by j times as far.
  ghost predicate Blends(before: Filter, z: (real, real), after: Row, k: real, j: real) {
    var p, x, r := before.p, before.x, before.m * before.m;
    Is(p, 4, 4) && |x| == |after| == 4
    && 0.0 <= k < 1.0 && k * (p[0][0] + r) == p[0][0] && j * (p[0][0] + r) == p[0][2]
    && after[0] == x[0] + k * (z.0 - x[0]) && after[1] == x[1] + k * (z.1 - x[1])
    && after[2] == x[2] + j * (z.0 - x[0]) && after[3] == x[3] + j * (z.1 - x[1])
  }

  // A fix moves the position towards itself by the same share on both axes, which is the share of
  // the position's variance in it and the measurement's; and the velocity with it.
  lemma FixBlends(q: real, m: real, es: seq<Event>, z: (real, real), t: real) returns (k: real, j: real)
    requires q >= 0.0 && m * m * m * m >= TINY
    requires Run(New(q, m), es).initialized
    ensures Shaped(Run(New(q, m), es)) && Shaped(Run(New(q, m), es + [Fix(z, t)]))
    ensures
      var b, after := CaughtUp(Run(New(q, m), es), t), Run(New(q, m), es + [Fix(z, t)]).x;
      Blends(b, z, after, k, j)
  {
    assert New(q, m).m == m;
    hide Blends, Run, New, Step, CaughtUp, PositiveSemidefinite, Lift, Positive, AsMat;
    RunOneMore(New(q, m), es, Fix(z, t));
    KeepsParameters(New(q, m), es);
    var c := CaughtUpSound(q, m, es, t);
    k, j := StepBlends(Run(New(q, m), es), c, m, z, t);
  }

  lemma StepBlends(f: Filter, c: Cov, m: real, z: (real, real), t: real) returns (k: real, j: real)
    requires Shaped(f) && f.initialized && f.m == m && m * m * m * m >= TINY
    requires Positive(c) && CaughtUp(f, t).p == Lift(AsMat(c))
    ensures
      var b, after := CaughtUp(f, t), Step(f, Fix(z, t)).x;
      Blends(b, z, after, k, j)
  {
    hide CaughtUp, Step, AddRow, MulVec, Gain, Innovation, Lift;
    NoiseLarge(m);
    FixedState(f, z, t, m);
    Lift22(c.pos, c.mix, c.mix, c.vel);
    k, j := Shares(c, m, CaughtUp(f, t).x, z, Step(f, Fix(z, t)).x);
  }

  lemma FixedState(f: Filter, z: (real, real), t: real, m: real)
    requires Shaped(f) && f.initialized && f.m == m
    ensures
      var b := CaughtUp(f, t);
      b.m == m && |Innovation(b.x, z)| == 2 && |MulVec(Gain(b.p, m), Innovation(b.x, z))| == 4
      && Step(f, Fix(z, t)).x == AddRow(b.x, MulVec(Gain(b.p, m), Innovation(b.x, z)))
  {
    hide AddRow, Gain, Joseph, Motion, PredictCov, DotVec;
  }

  lemma Shares(c: Cov, m: real, x: Row, z: (real, real), w: Row) returns (k: real, j: real)
    requires Positive(c) && m * m > 0.0 && (m * m) * (m * m) >= TINY && |x| == 4 && Is(Lift(AsMat(c)), 4, 4)
    requires w == AddRow(x, MulVec(Gain(Lift(AsMat(c)), m), Innovation(x, z)))
    ensures 0.0 <= k < 1.0 && k * (c.pos + m * m) == c.pos && j * (c.pos + m * m) == c.mix
    ensures |w| == 4 && w[0] == x[0] + k * (z.0 - x[0]) && w[1] == x[1] + k * (z.1 - x[1])
    ensures w[2] == x[2] + j * (z.0 - x[0]) && w[3] == x[3] + j * (z.1 - x[1])
  {
    hide MulVec, Lift, Gain, AddRow, Innovation;
    var g := 1.0 / (c.pos + m * m);
    k, j := c.pos * g, c.mix * g;
    Share(c.pos, m * m, g, k);
    assert j * (c.pos + m * m) == c.mix * (g * (c.pos + m * m));
    var v := [x[0] + k * (z.0 - x[0]), x[1] + k * (z.1 - x[1]), x[2] + j * (z.0 - x[0]), x[3] + j * (z.1 - x[1])];
    StateSplits(c, m, g, k, j, x, z, v);
    assert w == v;
  }

  lemma Share(a: real, r: real, g: real, k: real)
    requires a >= 0.0 && r > 0.0 && g * (a + r) == 1.0 && k == a * g
    ensures 0.0 <= k < 1.0 && k * (a + r) == a
  {
    assert g > 0.0;
    assert r * g > 0.0;
    assert a * g + r * g == g * (a + r);
    assert k >= 0.0;
    assert k * (a + r) == a * (g * (a + r));
  }

  // ---- the filter object -------------------------------------------------------------

  method Inverted(a: Mat) returns (r: Mat)
    requires Is(a, 2, 2)
    ensures r == Inv2x2(a) && Is(r, 2, 2)
    ensures
      var det := a[0][0] * a[1][1] - a[0][1] * a[1][0];
      if -0.000000000001 < det < 0.000000000001 then r == [[1000000000000.0, 0.0], [0.0, 1000000000000.0]]
      else Mul(a, r) == [[1.0, 0.0], [0.0, 1.0]]
  {
    if !(-TINY < Det(a) < TINY) { InverseOf(a); }
    hide Mul;
    var det := a[0][0] * a[1][1] - a[0][1] * a[1][0];
    if (if det < 0.0 then -det else det) < TINY { return [[HUGE, 0.0], [0.0, HUGE]]; }
    r := [[a[1][1] / det, -a[0][1] / det], [-a[1][0] / det, a[0][0] / det]];
  }

  method GainLoops(p: Mat, m: real) returns (s: Mat, k: Mat)
    requires Is(p, 4, 4)
    ensures s == InnovationCov(p, m) && k == Gain(p, m)
  {
    var ht := Transposed(OBSERVE);
    var hp := MatMul(OBSERVE, p);
    var hpht := MatMul(hp, ht);
    s := MatAdd(hpht, Noise(m));
    var sinv := Inverted(s);
    var pht := MatMul(p, ht);
    k := MatMul(pht, sinv);
  }

  method JosephLoops(p: Mat, k: Mat, m: real) returns (r: Mat)
    requires Is(p, 4, 4) && k == Gain(p, m)
    ensures r == Joseph(p, m)
  {
    var kh := MatMul(k, OBSERVE);
    var ikh := MatSub(Diagonal(1.0), kh);
    var left := MatMul(ikh, p);
    var ikht := Transposed(ikh);
    left := MatMul(left, ikht);
    var kr := MatMul(k, Noise(m));
    var kt := Transposed(k);
    var right := MatMul(kr, kt);
    r := MatAdd(left, right);
  }

  class KalmanFilterCV {
    const q: real
    const m: real
    var x: Row
    var p: Mat
    var initialized: bool
    var last: Option<real>

    ghost function View(): Filter
      reads this
    {
      Filter(x, p, q, m, initialized, last)
    }

    constructor (q: real, m: real)
      ensures View() == New(q, m)
      ensures x == [0.0, 0.0, 0.0, 0.0] && !initialized && last == None && this.q == q && this.m == m
      ensures forall i, j | 0 <= i < 4 && 0 <= j < 4 :: p[i][j] == if i == j then 100.0 else 0.0
    {
      this.q, this.m := q, m;
      x, p := [0.0, 0.0, 0.0, 0.0], Diagonal(100.0);
      initialized, last := false, None;
    }

    method Initialize(t: real)
      requires Shaped(View())
      modifies this
      ensures View() == Step(old(View()), Event.Initialize(t))
      ensures initialized && last == Some(t) && x == old(x) && p == old(p)
    {
      initialized, last := true, Some(t);
    }

    method Predict(dt: real)
      requires Shaped(View())
      modifies this
      ensures View() == Step(old(View()), Event.Predict(dt))
    {
      var f := Motion(dt);
      x := MatVecMul(f, x);
      var fp := MatMul(f, p);
      var ft := Transposed(f);
      var fpft := MatMul(fp, ft);
      p := MatAdd(fpft, Diagonal(q));
    }

    // Returns the innovation and its covariance, zero before initialisation.
    method Update(z: (real, real), t: real) returns (y: Row, s: Mat)
      requires Shaped(View())
      modifies this
      ensures View() == Step(old(View()), Fix(z, t))
      ensures
        var f := CaughtUp(old(View()), t);
        if old(initialized) then y == Innovation(f.x, z) && s == InnovationCov(f.p, m)
        else y == [0.0, 0.0] && s == [[0.0, 0.0], [0.0, 0.0]]
      ensures old(initialized) ==>
        var dt := if old(last).Some? && t > old(last).value then (t - old(last).value) / 1000.0 else 0.0;
        |y| == 2 && y[0] == z.0 - (old(x)[0] + dt * old(x)[2]) && y[1] == z.1 - (old(x)[1] + dt * old(x)[3])
    {
      hide Joseph, Gain, MulVec, Motion, PredictCov;
      InnovationAt(View(), z, t, if last.Some? && t > last.value then (t - last.value) / 1000.0 else 0.0);
      if !initialized { return [0.0, 0.0], [[0.0, 0.0], [0.0, 0.0]]; }
      hide CaughtUp, Corrected, Innovation, InnovationCov;
      ghost var expected := Innovation(CaughtUp(View(), t).x, z);
      CatchUp(t);
      y, s := Correct(z, t);
      assert y == expected;
    }

    method CatchUp(t: real)
      requires Shaped(View())
      modifies this
      ensures View() == CaughtUp(old(View()), t)
    {
      hide Predicted;
      if last.Some? {
        var dt := (t - last.value) / 1000.0;
        if dt > 0.0 { Predict(dt); }
      }
    }

    method Correct(z: (real, real), t: real) returns (y: Row, s: Mat)
      requires Shaped(View())
      modifies this
      ensures View() == Corrected(old(View()), z, t)
      ensures y == Innovation(old(x), z) && s == InnovationCov(old(p), m)
    {
      hide Joseph, Gain, InnovationCov, MulVec;
      last := Some(t);
      y := [z.0 - x[0], z.1 - x[1]];
      var k: Mat;
      s, k := GainLoops(p, m);
      var ky := MatVecMul(k, y);
      MulVecSize(k, y);
      x := [x[0] + ky[0], x[1] + ky[1], x[2] + ky[2], x[3] + ky[3]];
      AddedRow(old(x), ky, x);
      p := JosephLoops(p, k, m);
    }
  }

  lemma MulVecSize(a: Mat, v: Row)
    requires Rect(a) && |a[0]| == |v|
    ensures |MulVec(a, v)| == |a|
  {
  }
}
