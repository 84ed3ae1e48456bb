/** The orientation filter of src/core/MadgwickAHRS.c, with its floats taken as reals.

    The C file keeps a quaternion, three cached angles and a flag in static variables; here they are
    the fields of `Filter`.  The library functions and the bit-level first guess of the inverse square
    root are parameters, collected in `Env`; everything the C file computes after them is modelled. */
module Madgwick {
  import opened Vectors

  // ---------- what the C file calls but does not define ----------

  /** `seed(x)` is the value of the bit trick on lines 41-43, `atan2` and `asin` are those of math.h. */
  datatype Env = Env(seed: real -> real, atan2: (real, real) -> real, asin: real --> real) {
    /** The bit trick is within ten per cent (in the square), and `asin` accepts [-1, 1]. */
    ghost predicate Valid() {
      && (forall x :: x > 0.0 ==> GoodSeed(x, seed(x)))
      && (forall x :: -1.0 <= x <= 1.0 ==> asin.requires(x))
    }
  }

  ghost predicate GoodSeed(x: real, y: real) {
    y > 0.0 && -0.1 <= 1.0 - Mul(x, Sq(y)) <= 0.1
  }

  // ---------- the inverse square root ----------

  function NewtonStep(x: real, y: real): real {
    y * (1.5 - 0.5 * x * y * y)
  }

  function InvSqrt(env: Env, x: real): real {
    NewtonStep(x, NewtonStep(x, env.seed(x)))
  }

  function NextError(e: real): real {
    e * e * (3.0 + e) / 4.0
  }

  /** One step maps the error e = 1 - x*y*y to e*e*(3+e)/4, which is never negative: a step never
      overestimates, whatever the guess was. */
  lemma NewtonError(x: real, y: real)
    ensures 1.0 - Mul(x, Sq(NewtonStep(x, y))) == NextError(1.0 - Mul(x, Sq(y)))
  {
  }

  lemma NewtonKeepsPositive(x: real, y: real)
    requires y > 0.0 && Mul(x, Sq(y)) <= 1.1
    ensures NewtonStep(x, y) > 0.0
  {
  }

  lemma ErrorShrinks(e: real, bound: real)
    requires -bound <= e <= bound <= 0.1
    ensures 0.0 <= NextError(e) <= 0.775 * Sq(bound)
  {
    var d := if e >= 0.0 then e else -e;
    ProductMonotone(d, bound, d, bound);
    assert Sq(e) == Mul(d, d) && Sq(bound) == Mul(bound, bound);
    ProductMonotone(Sq(e), Sq(bound), (3.0 + e) / 4.0, 0.775);
    assert NextError(e) == Mul(Sq(e), (3.0 + e) / 4.0);
  }

  /** Two steps from the bit trick: positive, never too large, short by at most 5e-5 in the square. */
  lemma InvSqrtAccuracy(env: Env, x: real)
    requires env.Valid() && x > 0.0
    ensures InvSqrt(env, x) > 0.0
    ensures 0.99995 <= Mul(x, Sq(InvSqrt(env, x))) <= 1.0
  {
    var y0 := env.seed(x);
    assert GoodSeed(x, y0);
    var y1 := NewtonStep(x, y0);
    NewtonError(x, y0);
    NewtonKeepsPositive(x, y0);
    ErrorShrinks(1.0 - Mul(x, Sq(y0)), 0.1);
    NewtonError(x, y1);
    NewtonKeepsPositive(x, y1);
    ErrorShrinks(1.0 - Mul(x, Sq(y1)), 0.00775);
  }

  // ---------- the measurement model ----------

  /** Where the current estimate expects gravity. */
  function PredictedGravity(q: Quat): Vec3 {
    Vec3(2.0 * (q.q1 * q.q3 - q.q0 * q.q2),
         2.0 * (q.q0 * q.q1 + q.q2 * q.q3),
         1.0 - 2.0 * q.q1 * q.q1 - 2.0 * q.q2 * q.q2)
  }

  function Residual(q: Quat, a: Vec3): Vec3 {
    Minus3(PredictedGravity(q), a)
  }

  /** The Jacobian of `PredictedGravity` applied to a direction. */
  function Jacobian(q: Quat, d: Quat): Vec3 {
    Vec3(-2.0 * q.q2 * d.q0 + 2.0 * q.q3 * d.q1 - 2.0 * q.q0 * d.q2 + 2.0 * q.q1 * d.q3,
         2.0 * q.q1 * d.q0 + 2.0 * q.q0 * d.q1 + 2.0 * q.q3 * d.q2 + 2.0 * q.q2 * d.q3,
         -4.0 * q.q1 * d.q1 - 4.0 * q.q2 * d.q2)
  }

  /** Its transpose applied to a residual. */
  function JacobianT(q: Quat, f: Vec3): Quat {
    Quat(-2.0 * q.q2 * f.x + 2.0 * q.q1 * f.y,
         2.0 * q.q3 * f.x + 2.0 * q.q0 * f.y - 4.0 * q.q1 * f.z,
         -2.0 * q.q0 * f.x + 2.0 * q.q3 * f.y - 4.0 * q.q2 * f.z,
         2.0 * q.q1 * f.x + 2.0 * q.q2 * f.y)
  }

  function Gradient(q: Quat, a: Vec3): Quat {
    JacobianT(q, Residual(q, a))
  }

  /** `PredictedGravity` is the world's vertical seen from the sensor frame, conj(q)*k*q, up to the
      missing length of q in the last component. */
  lemma PredictedGravityIsRotation(q: Quat)
    ensures var conj := Quat(q.q0, -q.q1, -q.q2, -q.q3);
            var g := PredictedGravity(q);
            Times(Times(conj, Quat(0.0, 0.0, 0.0, 1.0)), q) == Quat(0.0, g.x, g.y, g.z - (1.0 - Norm2(q)))
  {
  }

  /** `Gradient` is half the gradient of the squared residual: the first-order term in every direction,
      with the second-order rest written out. */
  lemma ObjectiveExpansion(q: Quat, a: Vec3, d: Quat)
    ensures var f := Residual(q, a);
            var bend := Minus3(PredictedGravity(d), Vec3(0.0, 0.0, 1.0));
            var f' := Residual(Plus(q, d), a);
            var rest := Plus3(Jacobian(q, d), bend);
            Dot3(f', f') == Dot3(f, f) + 2.0 * Dot(Gradient(q, a), d) + 2.0 * Dot3(f, bend) + Dot3(rest, rest)
  {
    var f := Residual(q, a);
    var bend := Minus3(PredictedGravity(d), Vec3(0.0, 0.0, 1.0));
    var rest := Plus3(Jacobian(q, d), bend);
    PredictionExpands(q, d);
    assert Residual(Plus(q, d), a) == Plus3(f, rest);
    DotOfSum(f, rest);
    Adjoint(q, f, d);
    assert Dot3(f, rest) == Dot3(f, Jacobian(q, d)) + Dot3(f, bend);
  }

  lemma PredictionExpands(q: Quat, d: Quat)
    ensures PredictedGravity(Plus(q, d))
         == Plus3(PredictedGravity(q), Plus3(Jacobian(q, d), Minus3(PredictedGravity(d), Vec3(0.0, 0.0, 1.0))))
  {
    ProductOfSums(q.q1, d.q1, q.q3, d.q3); ProductOfSums(q.q0, d.q0, q.q2, d.q2);
    ProductOfSums(q.q0, d.q0, q.q1, d.q1); ProductOfSums(q.q2, d.q2, q.q3, d.q3);
    ProductOfSums(q.q1, d.q1, q.q1, d.q1); ProductOfSums(q.q2, d.q2, q.q2, d.q2);
    PredictionAsProducts(Plus(q, d));
    PredictionAsProducts(q);
    PredictionAsProducts(d);
    JacobianAsProducts(q, d);
  }

  lemma ProductOfSums(a: real, x: real, b: real, y: real)
    ensures Mul(a + x, b + y) == Mul(a, b) + Mul(a, y) + Mul(b, x) + Mul(x, y)
  {
  }

  lemma PredictionAsProducts(q: Quat)
    ensures PredictedGravity(q)
         == Vec3(2.0 * Mul(q.q1, q.q3) - 2.0 * Mul(q.q0, q.q2), 2.0 * Mul(q.q0, q.q1) + 2.0 * Mul(q.q2, q.q3),
                 1.0 - 2.0 * Mul(q.q1, q.q1) - 2.0 * Mul(q.q2, q.q2))
  {
  }

  lemma JacobianAsProducts(q: Quat, d: Quat)
    ensures Jacobian(q, d)
         == Vec3(2.0 * (Mul(q.q3, d.q1) + Mul(q.q1, d.q3) - Mul(q.q2, d.q0) - Mul(q.q0, d.q2)),
                 2.0 * (Mul(q.q1, d.q0) + Mul(q.q0, d.q1) + Mul(q.q3, d.q2) + Mul(q.q2, d.q3)),
                 -4.0 * Mul(q.q1, d.q1) - 4.0 * Mul(q.q2, d.q2))
  {
  }

  lemma DotOfSum(u: Vec3, v: Vec3)
    ensures Dot3(Plus3(u, v), Plus3(u, v)) == Dot3(u, u) + 2.0 * Dot3(u, v) + Dot3(v, v)
  {
  }

  lemma Adjoint(q: Quat, f: Vec3, d: Quat)
    ensures Dot3(f, Jacobian(q, d)) == Dot(JacobianT(q, f), d)
  {
  }

  // ---------- when the accelerometer gives no correction ----------

  /** The correction vanishes exactly when the prediction is right, or when both the predicted and the
      measured gravity lie on the vertical axis -- upright or upside down. */
  lemma StationaryExactly(q: Quat, a: Vec3)
    requires q != Quat(0.0, 0.0, 0.0, 0.0)
    ensures Gradient(q, a) == Quat(0.0, 0.0, 0.0, 0.0)
       <==> PredictedGravity(q) == a || (q.q1 == 0.0 && q.q2 == 0.0 && a.x == 0.0 && a.y == 0.0)
  {
    var f := Residual(q, a);
    if Gradient(q, a) == Quat(0.0, 0.0, 0.0, 0.0) {
      if q.q1 == 0.0 && q.q2 == 0.0 {
        Rotated(q.q3, q.q0, f.x, f.y);
        assert PredictedGravity(q).x == 0.0 && PredictedGravity(q).y == 0.0;
      } else {
        Rotated(q.q1, q.q2, f.x, f.y);
        ZeroProduct(q.q1, f.z);
        ZeroProduct(q.q2, f.z);
      }
    }
  }

  /** The plane rotation (c, s) sends only the origin to the origin. */
  lemma Rotated(c: real, s: real, x: real, y: real)
    requires c != 0.0 || s != 0.0
    requires c * x + s * y == 0.0 && c * y - s * x == 0.0
    ensures x == 0.0 && y == 0.0
  {
  }

  lemma ZeroProduct(n: real, x: real)
    ensures n * x == 0.0 ==> n == 0.0 || x == 0.0
  {
  }

  // ---------- one update ----------

  const BETA: real := 0.1
  const DT: real := 0.01

  const START := Quat(1.0, 0.0, 0.0, 0.0)

  function Length2(a: Vec3): real {
    Dot3(a, a)
  }

  /** Half the angular rate, turned into a rate of change of q. */
  function GyroRate(q: Quat, g: Vec3): Quat {
    Scale(0.5, Times(q, Quat(0.0, g.x, g.y, g.z)))
  }

  /** The unit step against the residual; no step when there is no accelerometer reading. */
  function Feedback(env: Env, q: Quat, a: Vec3): Quat {
    if a == Vec3(0.0, 0.0, 0.0) then Quat(0.0, 0.0, 0.0, 0.0)
    else
      var s := Gradient(q, Scale3(InvSqrt(env, Length2(a)), a));
      Scale(InvSqrt(env, Norm2(s)), s)
  }

  function Integrated(env: Env, q: Quat, g: Vec3, a: Vec3): Quat {
    Plus(q, Scale(DT, Plus(GyroRate(q, g), Scale(-BETA, Feedback(env, q, a)))))
  }

  function Updated(env: Env, q: Quat, g: Vec3, a: Vec3): Quat {
    var r := Integrated(env, q, g, a);
    Scale(InvSqrt(env, Norm2(r)), r)
  }

  ghost predicate NearUnit(q: Quat) {
    0.99995 <= Norm2(q) <= 1.0
  }

  /** Scaling any non-zero quaternion by the computed inverse root lands just inside the unit sphere. */
  lemma Normalised(env: Env, r: Quat)
    requires env.Valid() && Norm2(r) > 0.0
    ensures NearUnit(Scale(InvSqrt(env, Norm2(r)), r))
  {
    InvSqrtAccuracy(env, Norm2(r));
    Norm2Scale(InvSqrt(env, Norm2(r)), r);
  }

  lemma FeedbackIsShort(env: Env, q: Quat, a: Vec3)
    requires env.Valid()
    ensures Norm2(Feedback(env, q, a)) <= 1.0
  {
    hide Gradient, InvSqrt, Scale3, Length2;
    if a == Vec3(0.0, 0.0, 0.0) {
      assert Norm2(Feedback(env, q, a)) == 0.0;
    } else {
      UnitOrZero(env, Gradient(q, Scale3(InvSqrt(env, Length2(a)), a)));
    }
  }

  lemma UnitOrZero(env: Env, s: Quat)
    requires env.Valid()
    ensures Norm2(Scale(InvSqrt(env, Norm2(s)), s)) <= 1.0
  {
    hide InvSqrt;
    Norm2NonNegative(s);
    if s == Quat(0.0, 0.0, 0.0, 0.0) {
      assert Scale(InvSqrt(env, Norm2(s)), s) == s;
    } else {
      Normalised(env, s);
    }
  }

  lemma GyroRateIsTangent(q: Quat, g: Vec3)
    ensures Dot(q, GyroRate(q, g)) == 0.0
  {
  }

  lemma WithoutReading(env: Env, q: Quat, g: Vec3)
    ensures Integrated(env, q, g, Vec3(0.0, 0.0, 0.0)) == Plus(q, Scale(DT, GyroRate(q, g)))
  {
  }

  /** The old quaternion sees the integrated one at almost its own length: the gyroscope term is
      tangent and the feedback term moves by at most BETA * DT. */
  lemma IntegratedAlong(env: Env, q: Quat, g: Vec3, a: Vec3)
    requires env.Valid() && NearUnit(q)
    ensures Dot(q, Integrated(env, q, g, a)) >= 0.99895
  {
    GyroRateIsTangent(q, g);
    FeedbackIsShort(env, q, a);
    StepAlong(q, GyroRate(q, g), Feedback(env, q, a));
  }

  lemma StepAlong(q: Quat, w: Quat, s: Quat)
    requires NearUnit(q) && Dot(q, w) == 0.0 && Norm2(s) <= 1.0
    ensures Dot(q, Plus(q, Scale(DT, Plus(w, Scale(-BETA, s))))) >= 0.99895
  {
    DotLinear(q, w, -BETA, s);
    DotLinear(q, q, DT, Plus(w, Scale(-BETA, s)));
    UnitsAgree(q, s);
  }

  lemma UnitsAgree(q: Quat, s: Quat)
    requires Norm2(q) <= 1.0 && Norm2(s) <= 1.0
    ensures Dot(q, s) <= 1.0
  {
    CauchySchwarz(q, s);
    Norm2NonNegative(q);
    Norm2NonNegative(s);
    ProductMonotone(Norm2(q), 1.0, Norm2(s), 1.0);
    SquareAboveOne(Dot(q, s));
  }

  lemma SquareAboveOne(x: real)
    ensures x > 1.0 ==> Sq(x) > 1.0
  {
  }

  lemma LongEnough(q: Quat, r: Quat)
    requires Norm2(q) <= 1.0 && Dot(q, r) >= 0.99895
    ensures Norm2(r) >= 0.9979
  {
    CauchySchwarz(q, r);
    Norm2NonNegative(q);
    Norm2NonNegative(r);
    ProductMonotone(Norm2(q), 1.0, Norm2(r), Norm2(r));
    ProductMonotone(0.99895, Dot(q, r), 0.99895, Dot(q, r));
  }

  /** Main step: whatever the readings, the quantity normalised is well away from zero and the new
      quaternion is again within 5e-5 of the unit sphere, from inside. */
  lemma UpdateKeepsNorm(env: Env, q: Quat, g: Vec3, a: Vec3)
    requires env.Valid() && NearUnit(q)
    ensures Norm2(Integrated(env, q, g, a)) >= 0.9979
    ensures NearUnit(Updated(env, q, g, a))
  {
    IntegratedAlong(env, q, g, a);
    LongEnough(q, Integrated(env, q, g, a));
    Normalised(env, Integrated(env, q, g, a));
  }

  // ---------- every run ----------

  datatype Reading = Reading(gyro: Vec3, acc: Vec3)

  function Run(env: Env, q: Quat, readings: seq<Reading>): Quat
    decreases readings
  {
    if readings == [] then q
    else Run(env, Updated(env, q, readings[0].gyro, readings[0].acc), readings[1..])
  }

  /** However many readings the filter is fed, and whatever they are, its quaternion stays near unit. */
  lemma {:induction false} RunKeepsNorm(env: Env, q: Quat, readings: seq<Reading>)
    requires env.Valid() && NearUnit(q)
    ensures NearUnit(Run(env, q, readings))
    decreases readings
  {
    if readings != [] {
      UpdateKeepsNorm(env, q, readings[0].gyro, readings[0].acc);
      RunKeepsNorm(env, Updated(env, q, readings[0].gyro, readings[0].acc), readings[1..]);
    }
  }

  /** No division by a vanishing length: from the filter's initial state, every length normalised at
      the end of an update is at least 0.9979 in the square. */
  lemma EveryNormalisationIsSafe(env: Env, readings: seq<Reading>, k: nat)
    requires env.Valid() && k < |readings|
    ensures Norm2(Integrated(env, Run(env, START, readings[..k]), readings[k].gyro, readings[k].acc)) >= 0.9979
  {
    RunKeepsNorm(env, START, readings[..k]);
    UpdateKeepsNorm(env, Run(env, START, readings[..k]), readings[k].gyro, readings[k].acc);
  }

  // ---------- the angles ----------

  function PitchArgument(q: Quat): real {
    -2.0 * (q.q1 * q.q3 - q.q0 * q.q2)
  }

  /** The argument of asinf never leaves its domain: |q| <= 1 is what the one-sided Newton error buys. */
  lemma PitchArgumentInDomain(q: Quat)
    requires Norm2(q) <= 1.0
    ensures -1.0 <= PitchArgument(q) <= 1.0
  {
    Norm2NonNegative(q);
    TwiceProduct(q.q1, q.q3);
    TwiceProduct(q.q0, q.q2);
    assert PitchArgument(q) == 2.0 * Mul(q.q0, q.q2) - 2.0 * Mul(q.q1, q.q3);
  }

  lemma TwiceProduct(x: real, y: real)
    ensures -(Sq(x) + Sq(y)) <= 2.0 * Mul(x, y) <= Sq(x) + Sq(y)
  {
    assert Sq(x - y) == Sq(x) + Sq(y) - 2.0 * Mul(x, y);
    assert Sq(x + y) == Sq(x) + Sq(y) + 2.0 * Mul(x, y);
  }

  function RollSine(q: Quat): real { q.q0 * q.q1 + q.q2 * q.q3 }
  function RollCosine(q: Quat): real { 0.5 - q.q1 * q.q1 - q.q2 * q.q2 }
  function YawSine(q: Quat): real { q.q1 * q.q2 + q.q0 * q.q3 }
  function YawCosine(q: Quat): real { 0.5 - q.q2 * q.q2 - q.q3 * q.q3 }

  function Roll(env: Env, q: Quat): real {
    env.atan2(RollSine(q), RollCosine(q))
  }

  function Pitch(env: Env, q: Quat): real
    requires env.Valid() && Norm2(q) <= 1.0
  {
    PitchArgumentInDomain(q);
    env.asin(PitchArgument(q))
  }

  function Yaw(env: Env, q: Quat): real {
    env.atan2(YawSine(q), YawCosine(q))
  }

  const DEGREES: real := 57.29578

  // ---------- the C file's functions ----------

  /** The hand-optimised corrective step of lines 175-196. */
  function CorrectiveStep(q: Quat, a: Vec3): Quat {
    var Quat(q0, q1, q2, q3) := q;
    var twoq0, twoq1, twoq2, twoq3 := 2.0 * q0, 2.0 * q1, 2.0 * q2, 2.0 * q3;
    var fourq0, fourq1, fourq2 := 4.0 * q0, 4.0 * q1, 4.0 * q2;
    var eightq1, eightq2 := 8.0 * q1, 8.0 * q2;
    var q0q0, q1q1, q2q2, q3q3 := q0 * q0, q1 * q1, q2 * q2, q3 * q3;
    Quat(fourq0 * q2q2 + twoq2 * a.x + fourq0 * q1q1 - twoq1 * a.y,
         fourq1 * q3q3 - twoq3 * a.x + 4.0 * q0q0 * q1 - twoq0 * a.y
         - fourq1 + eightq1 * q1q1 + eightq1 * q2q2 + fourq1 * a.z,
         4.0 * q0q0 * q2 + twoq0 * a.x + fourq2 * q3q3 - twoq3 * a.y
         - fourq2 + eightq2 * q1q1 + eightq2 * q2q2 + fourq2 * a.z,
         4.0 * q1q1 * q3 - twoq1 * a.x + 4.0 * q2q2 * q3 - twoq2 * a.y)
  }

  /** It is the transposed Jacobian applied to the residual, for every q and a. */
  lemma CorrectiveStepIsGradient(q: Quat, a: Vec3)
    ensures CorrectiveStep(q, a) == Gradient(q, a)
  {
    FirstAndLastComponent(q, a);
    SecondComponent(q, a);
    ThirdComponent(q, a);
    var s, t := CorrectiveStep(q, a), Gradient(q, a);
    assert s == Quat(s.q0, s.q1, s.q2, s.q3) && t == Quat(t.q0, t.q1, t.q2, t.q3);
  }

  lemma FirstAndLastComponent(q: Quat, a: Vec3)
    ensures CorrectiveStep(q, a).q0 == Gradient(q, a).q0
    ensures CorrectiveStep(q, a).q3 == Gradient(q, a).q3
  {
  }

  lemma SecondComponent(q: Quat, a: Vec3)
    ensures CorrectiveStep(q, a).q1 == Gradient(q, a).q1
  {
  }

  lemma ThirdComponent(q: Quat, a: Vec3)
    ensures CorrectiveStep(q, a).q2 == Gradient(q, a).q2
  {
  }

  method InverseSquareRoot(env: Env, x: real) returns (y: real)
    ensures y == InvSqrt(env, x)
    ensures env.Valid() && x > 0.0 ==> y > 0.0 && 0.99995 <= Mul(x, Sq(y)) <= 1.0
  {
    var halfx := 0.5 * x;
    y := env.seed(x);
    y := y * (1.5 - (halfx * y * y));
    y := y * (1.5 - (halfx * y * y));
    if env.Valid() && x > 0.0 {
      InvSqrtAccuracy(env, x);
    }
  }

  /** Lines 161-164. */
  method RateOfChange(q: Quat, gx: real, gy: real, gz: real) returns (w: Quat)
    ensures w == GyroRate(q, Vec3(gx, gy, gz))
  {
    var Quat(q0, q1, q2, q3) := q;
    var qDot1 := 0.5 * (-q1 * gx - q2 * gy - q3 * gz);
    var qDot2 := 0.5 * (q0 * gx + q2 * gz - q3 * gy);
    var qDot3 := 0.5 * (q0 * gy - q1 * gz + q3 * gx);
    var qDot4 := 0.5 * (q0 * gz + q1 * gy - q2 * gx);
    w := Quat(qDot1, qDot2, qDot3, qDot4);
  }

  method NormalisedReading(env: Env, a: Vec3) returns (n: Vec3)
    ensures n == Scale3(InvSqrt(env, Length2(a)), a)
  {
    var length2 := a.x * a.x + a.y * a.y + a.z * a.z;
    assert length2 == Length2(a);
    var recipNorm := InverseSquareRoot(env, length2);
    n := ScaledReading(recipNorm, a);
  }

  method ScaledReading(k: real, a: Vec3) returns (n: Vec3)
    ensures n == Scale3(k, a)
  {
    n := Vec3(a.x * k, a.y * k, a.z * k);
  }

  method NormalisedQuat(env: Env, r: Quat) returns (n: Quat)
    ensures n == Scale(InvSqrt(env, Norm2(r)), r)
  {
    var norm2 := r.q0 * r.q0 + r.q1 * r.q1 + r.q2 * r.q2 + r.q3 * r.q3;
    assert norm2 == Norm2(r);
    var recipNorm := InverseSquareRoot(env, norm2);
    n := Quat(r.q0 * recipNorm, r.q1 * recipNorm, r.q2 * recipNorm, r.q3 * recipNorm);
  }

  /** Lines 167-207, entered only when the accelerometer reading is not zero. */
  method UnitStep(env: Env, q: Quat, a: Vec3) returns (s: Quat)
    requires a != Vec3(0.0, 0.0, 0.0)
    ensures s == Feedback(env, q, a)
  {
    var n := NormalisedReading(env, a);
    CorrectiveStepIsGradient(q, n);
    s := CorrectiveStep(q, n);
    s := NormalisedQuat(env, s);
  }

  /** Lines 210-213. */
  method ApplyFeedback(w: Quat, s: Quat) returns (w': Quat)
    ensures w' == Plus(w, Scale(-BETA, s))
  {
    w' := Quat(w.q0 - BETA * s.q0, w.q1 - BETA * s.q1, w.q2 - BETA * s.q2, w.q3 - BETA * s.q3);
  }

  /** Lines 215-218. */
  method Integrate(q: Quat, w: Quat) returns (r: Quat)
    ensures r == Plus(q, Scale(DT, w))
  {
    r := Quat(q.q0 + w.q0 * (1.0 / 100.0), q.q1 + w.q1 * (1.0 / 100.0),
              q.q2 + w.q2 * (1.0 / 100.0), q.q3 + w.q3 * (1.0 / 100.0));
  }

  /** Lines 231-233. */
  method Angles(env: Env, q: Quat) returns (roll: real, pitch: real, yaw: real)
    requires env.Valid() && Norm2(q) <= 1.0
    ensures roll == Roll(env, q) && pitch == Pitch(env, q) && yaw == Yaw(env, q)
  {
    var Quat(q0, q1, q2, q3) := q;
    var sine, cosine := q0 * q1 + q2 * q3, 0.5 - q1 * q1 - q2 * q2;
    assert sine == RollSine(q) && cosine == RollCosine(q);
    roll := env.atan2(sine, cosine);
    sine := -2.0 * (q1 * q3 - q0 * q2);
    assert sine == PitchArgument(q);
    PitchArgumentInDomain(q);
    pitch := env.asin(sine);
    sine, cosine := q1 * q2 + q0 * q3, 0.5 - q2 * q2 - q3 * q3;
    assert sine == YawSine(q) && cosine == YawCosine(q);
    yaw := env.atan2(sine, cosine);
  }

  class Filter {
    const env: Env
    var q0: real
    var q1: real
    var q2: real
    var q3: real
    var roll: real
    var pitch: real
    var yaw: real
    var anglesComputed: bool

    function Q(): Quat
      reads this
    {
      Quat(q0, q1, q2, q3)
    }

    /** Near unit, and a set flag means that the cached angles belong to the current quaternion. */
    ghost predicate Valid()
      reads this
    {
      && env.Valid()
      && NearUnit(Q())
      && (anglesComputed ==> roll == Roll(env, Q()) && pitch == Pitch(env, Q()) && yaw == Yaw(env, Q()))
    }

    constructor (env: Env)
      requires env.Valid()
      ensures Valid() && this.env == env && Q() == START && !anglesComputed
    {
      this.env := env;
      q0, q1, q2, q3 := 1.0, 0.0, 0.0, 0.0;
      roll, pitch, yaw := 0.0, 0.0, 0.0;
      anglesComputed := false;
    }

    /** One update; module `Attitude` says how it turns the attitude, and what the getters read from it. */
    method UpdateIMU(gx: real, gy: real, gz: real, ax: real, ay: real, az: real)
      requires Valid()
      modifies this
      ensures Valid() && !anglesComputed
      ensures Q() == Updated(env, old(Q()), Vec3(gx, gy, gz), Vec3(ax, ay, az))
    {
      ghost var q, g, a := Q(), Vec3(gx, gy, gz), Vec3(ax, ay, az);
      var qDot := RateOfChange(Q(), gx, gy, gz);
      if !(ax == 0.0 && ay == 0.0 && az == 0.0) {
        var s := UnitStep(env, Q(), Vec3(ax, ay, az));
        qDot := ApplyFeedback(qDot, s);
      } else {
        WithoutReading(env, q, g);
      }
      var r := Integrate(Q(), qDot);
      Set(r);
      r := NormalisedQuat(env, Q());
      Set(r);
      anglesComputed := false;
      UpdateKeepsNorm(env, q, g, a);
    }

    method Set(q: Quat)
      modifies this`q0, this`q1, this`q2, this`q3
      ensures Q() == q
    {
      q0, q1, q2, q3 := q.q0, q.q1, q.q2, q.q3;
    }

    method ComputeAngles()
      requires Valid()
      modifies this`roll, this`pitch, this`yaw, this`anglesComputed
      ensures Valid() && anglesComputed
    {
      roll, pitch, yaw := Angles(env, Q());
      anglesComputed := true;
    }

    method GetRoll() returns (r: real)
      requires Valid()
      modifies this`roll, this`pitch, this`yaw, this`anglesComputed
      ensures Valid() && r == Roll(env, Q()) * DEGREES
    {
      if !anglesComputed {
        ComputeAngles();
      }
      r := roll * 57.29578;
    }

    method GetPitch() returns (r: real)
      requires Valid()
      modifies this`roll, this`pitch, this`yaw, this`anglesComputed
      ensures Valid() && r == Pitch(env, Q()) * DEGREES
    {
      if !anglesComputed {
        ComputeAngles();
      }
      r := pitch * 57.29578;
    }

    method GetYaw() returns (r: real)
      requires Valid()
      modifies this`roll, this`pitch, this`yaw, this`anglesComputed
      ensures Valid() && r == Yaw(env, Q()) * DEGREES
    {
      if !anglesComputed {
        ComputeAngles();
      }
      r := yaw * 57.29578;
    }
  }
}
