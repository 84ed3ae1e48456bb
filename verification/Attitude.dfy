/** What the filter's quaternion means: how it turns with the gyroscope, that it descends towards the
    accelerometer, and that the three angles are those of the attitude it stands for. */
module Attitude {
  import opened Vectors
  import opened Madgwick

  // ---------- the rotation a quaternion stands for ----------

  function Conj(q: Quat): Quat {
    Quat(q.q0, -q.q1, -q.q2, -q.q3)
  }

  function Pure(v: Vec3): Quat {
    Quat(0.0, v.x, v.y, v.z)
  }

  function Cross(a: Vec3, b: Vec3): Vec3 {
    Vec3(a.y * b.z - a.z * b.y, a.z * b.x - a.x * b.z, a.x * b.y - a.y * b.x)
  }

  function SeenX(a: real, b: real, c: real, d: real, u: real, v: real, w: real): real {
    (a * a + b * b - c * c - d * d) * u + 2.0 * (b * c + a * d) * v + 2.0 * (b * d - a * c) * w
  }

  function SeenY(a: real, b: real, c: real, d: real, u: real, v: real, w: real): real {
    2.0 * (b * c - a * d) * u + (a * a - b * b + c * c - d * d) * v + 2.0 * (c * d + a * b) * w
  }

  function SeenZ(a: real, b: real, c: real, d: real, u: real, v: real, w: real): real {
    2.0 * (b * d + a * c) * u + 2.0 * (c * d - a * b) * v + (a * a - b * b - c * c + d * d) * w
  }

  /** A vector of the world, seen from the sensor; as long as |q| squared times what it was. */
  function Seen(q: Quat, w: Vec3): Vec3 {
    Vec3(SeenX(q.q0, q.q1, q.q2, q.q3, w.x, w.y, w.z), SeenY(q.q0, q.q1, q.q2, q.q3, w.x, w.y, w.z),
         SeenZ(q.q0, q.q1, q.q2, q.q3, w.x, w.y, w.z))
  }

  // The products that make up conj(q) w and then conj(q) w q, over reals.

  lemma HalfRotated(q: Quat, w: Vec3)
    ensures Times(Conj(q), Pure(w))
            == Quat(q.q1 * w.x + q.q2 * w.y + q.q3 * w.z, q.q0 * w.x - q.q2 * w.z + q.q3 * w.y,
                    q.q0 * w.y + q.q1 * w.z - q.q3 * w.x, q.q0 * w.z - q.q1 * w.y + q.q2 * w.x)
  {
  }

  lemma TimesAsProducts(h: Quat, q: Quat)
    ensures Times(h, q)
            == Quat(Mul(h.q0, q.q0) - Mul(h.q1, q.q1) - Mul(h.q2, q.q2) - Mul(h.q3, q.q3),
                    Mul(h.q0, q.q1) + Mul(h.q1, q.q0) + Mul(h.q2, q.q3) - Mul(h.q3, q.q2),
                    Mul(h.q0, q.q2) - Mul(h.q1, q.q3) + Mul(h.q2, q.q0) + Mul(h.q3, q.q1),
                    Mul(h.q0, q.q3) + Mul(h.q1, q.q2) - Mul(h.q2, q.q1) + Mul(h.q3, q.q0))
  {
  }

  lemma SeenAsProducts(a: real, b: real, c: real, d: real, x: real, y: real, z: real)
    ensures Mul(b * x + c * y + d * z, a) - Mul(a * x - c * z + d * y, b) - Mul(a * y + b * z - d * x, c)
            - Mul(a * z - b * y + c * x, d) == 0.0
    ensures SeenX(a, b, c, d, x, y, z)
            == Mul(b * x + c * y + d * z, b) + Mul(a * x - c * z + d * y, a) + Mul(a * y + b * z - d * x, d)
               - Mul(a * z - b * y + c * x, c)
    ensures SeenY(a, b, c, d, x, y, z)
            == Mul(b * x + c * y + d * z, c) - Mul(a * x - c * z + d * y, d) + Mul(a * y + b * z - d * x, a)
               + Mul(a * z - b * y + c * x, b)
    ensures SeenZ(a, b, c, d, x, y, z)
            == Mul(b * x + c * y + d * z, d) + Mul(a * x - c * z + d * y, c) - Mul(a * y + b * z - d * x, b)
               + Mul(a * z - b * y + c * x, a)
  {
  }

  /** It is the quaternion rotation conj(q) w q. */
  lemma SeenIsRotation(q: Quat, w: Vec3)
    ensures Times(Times(Conj(q), Pure(w)), q) == Pure(Seen(q, w))
  {
    hide Times, Mul, SeenX, SeenY, SeenZ, Conj;
    HalfRotated(q, w);
    TimesAsProducts(Times(Conj(q), Pure(w)), q);
    SeenAsProducts(q.q0, q.q1, q.q2, q.q3, w.x, w.y, w.z);
  }

  /** The predicted gravity is the vertical so seen, but for the missing length of q. */
  lemma SeenVertical(q: Quat)
    ensures var v := PredictedGravity(q); Seen(q, Vec3(0.0, 0.0, 1.0)) == Vec3(v.x, v.y, v.z - (1.0 - Norm2(q)))
  {
  }

  // ---------- how it turns ----------

  function TurnX(a: real, b: real, c: real, d: real, p: real, q: real, r: real, s: real, u: real, v: real, w: real)
    : real
  {
    2.0 * (a * p + b * q - c * r - d * s) * u + 2.0 * (b * r + c * q + a * s + d * p) * v
    + 2.0 * (b * s + d * q - a * r - c * p) * w
  }

  function TurnY(a: real, b: real, c: real, d: real, p: real, q: real, r: real, s: real, u: real, v: real, w: real)
    : real
  {
    2.0 * (b * r + c * q - a * s - d * p) * u + 2.0 * (a * p - b * q + c * r - d * s) * v
    + 2.0 * (c * s + d * r + a * q + b * p) * w
  }

  function TurnZ(a: real, b: real, c: real, d: real, p: real, q: real, r: real, s: real, u: real, v: real, w: real)
    : real
  {
    2.0 * (b * s + d * q + a * r + c * p) * u + 2.0 * (c * s + d * r - a * q - b * p) * v
    + 2.0 * (a * p - b * q - c * r + d * s) * w
  }

  /** The first-order change of `Seen(q, w)` when q changes by `r`. */
  function Turning(q: Quat, r: Quat, w: Vec3): Vec3 {
    Vec3(TurnX(q.q0, q.q1, q.q2, q.q3, r.q0, r.q1, r.q2, r.q3, w.x, w.y, w.z),
         TurnY(q.q0, q.q1, q.q2, q.q3, r.q0, r.q1, r.q2, r.q3, w.x, w.y, w.z),
         TurnZ(q.q0, q.q1, q.q2, q.q3, r.q0, r.q1, r.q2, r.q3, w.x, w.y, w.z))
  }

  lemma ExpandX(a: real, b: real, c: real, d: real, p: real, q: real, r: real, s: real, u: real, v: real, w: real)
    ensures SeenX(a + p, b + q, c + r, d + s, u, v, w)
            == SeenX(a, b, c, d, u, v, w) + TurnX(a, b, c, d, p, q, r, s, u, v, w) + SeenX(p, q, r, s, u, v, w)
  {
  }

  lemma ExpandY(a: real, b: real, c: real, d: real, p: real, q: real, r: real, s: real, u: real, v: real, w: real)
    ensures SeenY(a + p, b + q, c + r, d + s, u, v, w)
            == SeenY(a, b, c, d, u, v, w) + TurnY(a, b, c, d, p, q, r, s, u, v, w) + SeenY(p, q, r, s, u, v, w)
  {
  }

  lemma ExpandZ(a: real, b: real, c: real, d: real, p: real, q: real, r: real, s: real, u: real, v: real, w: real)
    ensures SeenZ(a + p, b + q, c + r, d + s, u, v, w)
            == SeenZ(a, b, c, d, u, v, w) + TurnZ(a, b, c, d, p, q, r, s, u, v, w) + SeenZ(p, q, r, s, u, v, w)
  {
  }

  /** With the second-order rest written out, for every change. */
  lemma SeenExpands(q: Quat, d: Quat, w: Vec3)
    ensures Seen(Plus(q, d), w) == Plus3(Seen(q, w), Plus3(Turning(q, d, w), Seen(d, w)))
  {
    hide SeenX, SeenY, SeenZ, TurnX, TurnY, TurnZ;
    ExpandX(q.q0, q.q1, q.q2, q.q3, d.q0, d.q1, d.q2, d.q3, w.x, w.y, w.z);
    ExpandY(q.q0, q.q1, q.q2, q.q3, d.q0, d.q1, d.q2, d.q3, w.x, w.y, w.z);
    ExpandZ(q.q0, q.q1, q.q2, q.q3, d.q0, d.q1, d.q2, d.q3, w.x, w.y, w.z);
  }

  lemma RateParts(q: Quat, g: Vec3)
    ensures var r := GyroRate(q, g);
            && r.q0 == 0.5 * (-q.q1 * g.x - q.q2 * g.y - q.q3 * g.z)
            && r.q1 == 0.5 * (q.q0 * g.x + q.q2 * g.z - q.q3 * g.y)
            && r.q2 == 0.5 * (q.q0 * g.y - q.q1 * g.z + q.q3 * g.x)
            && r.q3 == 0.5 * (q.q0 * g.z + q.q1 * g.y - q.q2 * g.x)
  {
  }

  // The same with the rate's parts put in, first over the products and then as a cross product.

  lemma TurnedX(a: real, b: real, c: real, d: real, x: real, y: real, z: real, u: real, v: real, w: real)
    ensures TurnX(a, b, c, d, 0.5 * (-b * x - c * y - d * z), 0.5 * (a * x + c * z - d * y),
                  0.5 * (a * y - b * z + d * x), 0.5 * (a * z + b * y - c * x), u, v, w)
            == Mul(2.0 * (b * c - a * d) * u + (a * a - b * b + c * c - d * d) * v + 2.0 * (c * d + a * b) * w, z)
               - Mul(2.0 * (b * d + a * c) * u + 2.0 * (c * d - a * b) * v + (a * a - b * b - c * c + d * d) * w, y)
  {
  }

  lemma TurnedY(a: real, b: real, c: real, d: real, x: real, y: real, z: real, u: real, v: real, w: real)
    ensures TurnY(a, b, c, d, 0.5 * (-b * x - c * y - d * z), 0.5 * (a * x + c * z - d * y),
                  0.5 * (a * y - b * z + d * x), 0.5 * (a * z + b * y - c * x), u, v, w)
            == Mul(2.0 * (b * d + a * c) * u + 2.0 * (c * d - a * b) * v + (a * a - b * b - c * c + d * d) * w, x)
               - Mul((a * a + b * b - c * c - d * d) * u + 2.0 * (b * c + a * d) * v + 2.0 * (b * d - a * c) * w, z)
  {
  }

  lemma TurnedZ(a: real, b: real, c: real, d: real, x: real, y: real, z: real, u: real, v: real, w: real)
    ensures TurnZ(a, b, c, d, 0.5 * (-b * x - c * y - d * z), 0.5 * (a * x + c * z - d * y),
                  0.5 * (a * y - b * z + d * x), 0.5 * (a * z + b * y - c * x), u, v, w)
            == Mul((a * a + b * b - c * c - d * d) * u + 2.0 * (b * c + a * d) * v + 2.0 * (b * d - a * c) * w, y)
               - Mul(2.0 * (b * c - a * d) * u + (a * a - b * b + c * c - d * d) * v + 2.0 * (c * d + a * b) * w, x)
  {
  }

  lemma TurnsX(a: real, b: real, c: real, d: real, x: real, y: real, z: real, u: real, v: real, w: real)
    ensures TurnX(a, b, c, d, 0.5 * (-b * x - c * y - d * z), 0.5 * (a * x + c * z - d * y),
                  0.5 * (a * y - b * z + d * x), 0.5 * (a * z + b * y - c * x), u, v, w)
            == Mul(SeenY(a, b, c, d, u, v, w), z) - Mul(SeenZ(a, b, c, d, u, v, w), y)
  {
    hide Mul, TurnX;
    TurnedX(a, b, c, d, x, y, z, u, v, w);
  }

  lemma TurnsY(a: real, b: real, c: real, d: real, x: real, y: real, z: real, u: real, v: real, w: real)
    ensures TurnY(a, b, c, d, 0.5 * (-b * x - c * y - d * z), 0.5 * (a * x + c * z - d * y),
                  0.5 * (a * y - b * z + d * x), 0.5 * (a * z + b * y - c * x), u, v, w)
            == Mul(SeenZ(a, b, c, d, u, v, w), x) - Mul(SeenX(a, b, c, d, u, v, w), z)
  {
    hide Mul, TurnY;
    TurnedY(a, b, c, d, x, y, z, u, v, w);
  }

  lemma TurnsZ(a: real, b: real, c: real, d: real, x: real, y: real, z: real, u: real, v: real, w: real)
    ensures TurnZ(a, b, c, d, 0.5 * (-b * x - c * y - d * z), 0.5 * (a * x + c * z - d * y),
                  0.5 * (a * y - b * z + d * x), 0.5 * (a * z + b * y - c * x), u, v, w)
            == Mul(SeenX(a, b, c, d, u, v, w), y) - Mul(SeenY(a, b, c, d, u, v, w), x)
  {
    hide Mul, TurnZ;
    TurnedZ(a, b, c, d, x, y, z, u, v, w);
  }

  /** While the gyroscope reads `g`, every vector of the world turns, seen from the sensor, as a fixed one
      does in a frame that turns with `g`: its rate of change is its cross product with `g`. */
  lemma WorldTurnsBackward(q: Quat, g: Vec3, w: Vec3)
    ensures Turning(q, GyroRate(q, g), w) == Cross(Seen(q, w), g)
  {
    hide SeenX, SeenY, SeenZ, TurnX, TurnY, TurnZ, GyroRate;
    RateParts(q, g);
    TurnsX(q.q0, q.q1, q.q2, q.q3, g.x, g.y, g.z, w.x, w.y, w.z);
    TurnsY(q.q0, q.q1, q.q2, q.q3, g.x, g.y, g.z, w.x, w.y, w.z);
    TurnsZ(q.q0, q.q1, q.q2, q.q3, g.x, g.y, g.z, w.x, w.y, w.z);
  }

  /** In particular the predicted gravity, whose derivative is `Jacobian`. */
  lemma VerticalTurnsBackward(q: Quat, g: Vec3)
    ensures var v := PredictedGravity(q);
            Jacobian(q, GyroRate(q, g)) == Cross(Vec3(v.x, v.y, v.z - (1.0 - Norm2(q))), g)
  {
    hide GyroRate, SeenX, SeenY, SeenZ, TurnX, TurnY, TurnZ;
    SeenVertical(q);
    WorldTurnsBackward(q, g, Vec3(0.0, 0.0, 1.0));
    GyroRateIsTangent(q, g);
    JacobianIsTurning(q, GyroRate(q, g));
  }

  lemma JacobianIsTurning(q: Quat, r: Quat)
    requires Dot(q, r) == 0.0
    ensures Jacobian(q, r) == Turning(q, r, Vec3(0.0, 0.0, 1.0))
  {
  }

  /** A gyroscope reading of one radian per second about the first axis, from the initial attitude and without
      an accelerometer reading, turns the filter by a hundredth of a radian: half of that goes into q. */
  lemma OneHundredth(env: Env)
    ensures Integrated(env, START, Vec3(1.0, 0.0, 0.0), Vec3(0.0, 0.0, 0.0)) == Quat(1.0, 0.005, 0.0, 0.0)
  {
    hide *;
    WithoutReading(env, START, Vec3(1.0, 0.0, 0.0));
    FirstStep();
  }

  lemma FirstStep()
    ensures Plus(START, Scale(DT, GyroRate(START, Vec3(1.0, 0.0, 0.0)))) == Quat(1.0, 0.005, 0.0, 0.0)
  {
    RateParts(START, Vec3(1.0, 0.0, 0.0));
    hide GyroRate;
    SmallStep(GyroRate(START, Vec3(1.0, 0.0, 0.0)));
  }

  lemma SmallStep(r: Quat)
    requires r == Quat(0.0, 0.5, 0.0, 0.0)
    ensures Plus(START, Scale(DT, r)) == Quat(1.0, 0.005, 0.0, 0.0)
  {
  }

  // ---------- the step against the residual ----------

  /** The reading is compared at very nearly unit length, in its own direction. */
  lemma ReadingIsUnit(env: Env, a: Vec3)
    requires env.Valid() && a != Vec3(0.0, 0.0, 0.0)
    ensures var k := InvSqrt(env, Length2(a)); k > 0.0 && 0.99995 <= Length2(Scale3(k, a)) <= 1.0
  {
    Length2Positive(a);
    InvSqrtAccuracy(env, Length2(a));
    hide InvSqrt;
    Length2Scale(InvSqrt(env, Length2(a)), a);
  }

  lemma Length2Positive(a: Vec3)
    requires a != Vec3(0.0, 0.0, 0.0)
    ensures Length2(a) > 0.0
  {
    assert Length2(a) == Sq(a.x) + Sq(a.y) + Sq(a.z);
  }

  lemma Length2Scale(k: real, a: Vec3)
    ensures Length2(Scale3(k, a)) == Mul(Length2(a), Sq(k))
  {
  }

  /** What an update without rotation moves q by, before it is normalised. */
  function Step(env: Env, q: Quat, a: Vec3): Quat {
    var r := Integrated(env, q, Vec3(0.0, 0.0, 0.0), a);
    Quat(r.q0 - q.q0, r.q1 - q.q1, r.q2 - q.q2, r.q3 - q.q3)
  }

  lemma StepIs(env: Env, q: Quat, a: Vec3)
    ensures Step(env, q, a) == Scale(-0.001, Feedback(env, q, a))
  {
    hide Feedback, GyroRate;
    RateParts(q, Vec3(0.0, 0.0, 0.0));
    assert GyroRate(q, Vec3(0.0, 0.0, 0.0)) == Quat(0.0, 0.0, 0.0, 0.0);
  }

  lemma DotScaled(s: Quat, k: real, m: real)
    ensures Dot(s, Scale(m, Scale(k, s))) == Mul(m, Mul(k, Norm2(s)))
  {
  }

  /** An update without rotation goes down the gradient, by a thousandth of its length but for 25 parts in a
      million: never up, and for every reading but none it stands still only where the gradient vanishes. */
  lemma UpdateDescends(env: Env, q: Quat, a: Vec3)
    requires env.Valid() && a != Vec3(0.0, 0.0, 0.0)
    ensures var s := Gradient(q, Scale3(InvSqrt(env, Length2(a)), a));
            var drop := Dot(s, Step(env, q, a));
            && drop <= 0.0
            && (s != Quat(0.0, 0.0, 0.0, 0.0) ==> drop < 0.0)
            && 0.00000099995 * Norm2(s) <= Sq(drop) <= 0.000001 * Norm2(s)
  {
    var s := Gradient(q, Scale3(InvSqrt(env, Length2(a)), a));
    StepIs(env, q, a);
    hide Gradient, Step, Length2, Scale3;
    Norm2NonNegative(s);
    if s == Quat(0.0, 0.0, 0.0, 0.0) {
      assert Dot(s, Step(env, q, a)) == 0.0 && Norm2(s) == 0.0 && Sq(0.0) == 0.0;
    } else {
      InvSqrtAccuracy(env, Norm2(s));
      hide InvSqrt;
      var k, n := InvSqrt(env, Norm2(s)), Norm2(s);
      DotScaled(s, k, -0.001);
      DropSize(k, n);
    }
  }

  lemma DropSize(k: real, n: real)
    requires k > 0.0 && n > 0.0 && 0.99995 <= Mul(n, Sq(k)) <= 1.0
    ensures var drop := Mul(-0.001, Mul(k, n));
            drop < 0.0 && 0.00000099995 * n <= Sq(drop) <= 0.000001 * n
  {
    var m := Mul(n, Sq(k));
    assert Mul(k, n) > 0.0;
    assert Sq(Mul(-0.001, Mul(k, n))) == 0.000001 * Mul(n, m);
    ProductMonotone(n, n, 0.99995, m);
    ProductMonotone(n, n, m, 1.0);
  }

  /** The update does not turn over: the new quaternion lies on the side of the old one. */
  lemma UpdatedAlong(env: Env, q: Quat, g: Vec3, a: Vec3)
    requires env.Valid() && NearUnit(q)
    ensures Dot(q, Updated(env, q, g, a)) > 0.0
  {
    hide Integrated, InvSqrt, NearUnit, Norm2, Dot, Scale;
    IntegratedAlong(env, q, g, a);
    UpdateKeepsNorm(env, q, g, a);
    NormalisedAlong(env, q, Integrated(env, q, g, a));
  }

  lemma NormalisedAlong(env: Env, q: Quat, r: Quat)
    requires env.Valid() && Norm2(r) > 0.0 && Dot(q, r) > 0.0
    ensures Dot(q, Scale(InvSqrt(env, Norm2(r)), r)) > 0.0
  {
    InvSqrtAccuracy(env, Norm2(r));
    hide InvSqrt, Norm2, Dot, Scale;
    var k := InvSqrt(env, Norm2(r));
    DotOfScaled(q, k, r);
    ProductPositive(k, Dot(q, r), Mul(k, Dot(q, r)));
  }

  lemma DotOfScaled(q: Quat, k: real, r: Quat)
    ensures Dot(q, Scale(k, r)) == Mul(k, Dot(q, r))
  {
  }

  // ---------- the angles of an attitude ----------

  /** Roll and pitch are those of the vertical as the sensor sees it. */
  lemma TiltOfVertical(q: Quat)
    ensures var v := PredictedGravity(q);
            2.0 * RollSine(q) == v.y && 2.0 * RollCosine(q) == v.z && PitchArgument(q) == -v.x
  {
  }

  /** A vector of the sensor, seen from the world. */
  function Carried(q: Quat, v: Vec3): Vec3 {
    Seen(Conj(q), v)
  }

  /** Yaw is that of the sensor's first axis, seen from the world. */
  lemma YawOfFirstAxis(q: Quat)
    ensures var x := Carried(q, Vec3(1.0, 0.0, 0.0));
            2.0 * YawSine(q) == x.y && 2.0 * YawCosine(q) == x.x + (1.0 - Norm2(q))
  {
  }

  function SineOf(c: real, s: real): real {
    2.0 * s * c
  }

  function CosineOf(c: real, s: real): real {
    c * c - s * s
  }

  function SquareOf(c: real, s: real): real {
    c * c + s * s
  }

  /** Cosine and sine of half an angle. */
  datatype Half = Half(c: real, s: real) {
    predicate Valid() {
      SquareOf(c, s) == 1.0
    }

    function Sine(): real {
      SineOf(c, s)
    }

    function Cosine(): real {
      CosineOf(c, s)
    }
  }

  function AboutX(h: Half): Quat { Quat(h.c, h.s, 0.0, 0.0) }
  function AboutY(h: Half): Quat { Quat(h.c, 0.0, h.s, 0.0) }
  function AboutZ(h: Half): Quat { Quat(h.c, 0.0, 0.0, h.s) }

  /** Yaw, then pitch, then roll, each about the sensor's own axis. */
  function Attained(yaw: Half, pitch: Half, roll: Half): Quat {
    Times(Times(AboutZ(yaw), AboutY(pitch)), AboutX(roll))
  }

  /** The five quantities. */
  datatype Five = Five(roll: real, upright: real, pitch: real, ahead: real, yaw: real, norm: real)

  function FiveOf(a: real, b: real, c: real, d: real): Five {
    Five(2.0 * (a * b + c * d), a * a - b * b - c * c + d * d, 2.0 * (b * d - a * c),
         a * a + b * b - c * c - d * d, 2.0 * (b * c + a * d), a * a + b * b + c * c + d * d)
  }

  // What the last turn, about the first axis, makes of the five quantities the angles are read from, and what
  // they are after the first two turns; over the reals.

  lemma PairTilted(a: real, b: real, x: real, y: real)
    ensures 2.0 * ((a * x - b * y) * (b * x + a * y))
            == Mul(2.0 * (a * b), CosineOf(x, y)) + Mul(a * a - b * b, SineOf(x, y))
    ensures (a * x - b * y) * (a * x - b * y) - (b * x + a * y) * (b * x + a * y)
            == Mul(a * a - b * b, CosineOf(x, y)) - Mul(2.0 * (a * b), SineOf(x, y))
  {
  }

  lemma RollTurnsTilt(a: real, b: real, c: real, d: real, x: real, y: real)
    ensures var f, t := FiveOf(a, b, c, d), FiveOf(a * x - b * y, b * x + a * y, c * x + d * y, d * x - c * y);
            && t.roll == Mul(f.roll, CosineOf(x, y)) + Mul(f.upright, SineOf(x, y))
            && t.upright == Mul(f.upright, CosineOf(x, y)) - Mul(f.roll, SineOf(x, y))
  {
    PairTilted(a, b, x, y);
    PairTilted(d, c, x, y);
    MulSum(2.0 * (a * b), 2.0 * (d * c), CosineOf(x, y));
    MulSum(2.0 * (a * b), 2.0 * (d * c), SineOf(x, y));
    MulSum(a * a - b * b, d * d - c * c, CosineOf(x, y));
    MulSum(a * a - b * b, d * d - c * c, SineOf(x, y));
    hide Mul, CosineOf, SineOf;
    TiltsOf(a, b, c, d);
    TiltsOf(a * x - b * y, b * x + a * y, c * x + d * y, d * x - c * y);
    hide FiveOf;
  }

  lemma TiltsOf(a: real, b: real, c: real, d: real)
    ensures FiveOf(a, b, c, d).roll == 2.0 * (a * b) + 2.0 * (d * c)
    ensures FiveOf(a, b, c, d).upright == (a * a - b * b) + (d * d - c * c)
  {
  }

  lemma CrossTurned(a: real, b: real, c: real, d: real, x: real, y: real)
    ensures 2.0 * ((b * x + a * y) * (d * x - c * y) - (a * x - b * y) * (c * x + d * y))
            == Mul(2.0 * (b * d - a * c), SquareOf(x, y))
  {
  }

  lemma CrossTurnedToo(a: real, b: real, c: real, d: real, x: real, y: real)
    ensures 2.0 * ((b * x + a * y) * (c * x + d * y) + (a * x - b * y) * (d * x - c * y))
            == Mul(2.0 * (b * c + a * d), SquareOf(x, y))
  {
  }

  lemma RollKeepsPitchAndYaw(a: real, b: real, c: real, d: real, x: real, y: real)
    ensures var f, t := FiveOf(a, b, c, d), FiveOf(a * x - b * y, b * x + a * y, c * x + d * y, d * x - c * y);
            t.pitch == Mul(f.pitch, SquareOf(x, y)) && t.yaw == Mul(f.yaw, SquareOf(x, y))
  {
    hide Mul, SquareOf;
    CrossTurned(a, b, c, d, x, y);
    CrossTurnedToo(a, b, c, d, x, y);
  }

  lemma PairTurned(a: real, b: real, x: real, y: real)
    ensures (a * x - b * y) * (a * x - b * y) + (b * x + a * y) * (b * x + a * y) == Mul(a * a + b * b, SquareOf(x, y))
  {
  }

  lemma RollKeepsRest(a: real, b: real, c: real, d: real, x: real, y: real)
    ensures var f, t := FiveOf(a, b, c, d), FiveOf(a * x - b * y, b * x + a * y, c * x + d * y, d * x - c * y);
            && t.pitch == Mul(f.pitch, SquareOf(x, y)) && t.ahead == Mul(f.ahead, SquareOf(x, y))
            && t.yaw == Mul(f.yaw, SquareOf(x, y)) && t.norm == Mul(f.norm, SquareOf(x, y))
  {
    RollKeepsPitchAndYaw(a, b, c, d, x, y);
    PairTurned(a, b, x, y);
    PairTurned(d, c, x, y);
    MulSum(a * a + b * b, d * d + c * c, SquareOf(x, y));
    hide Mul, SquareOf;
    SquaresOf(a, b, c, d);
    SquaresOf(a * x - b * y, b * x + a * y, c * x + d * y, d * x - c * y);
    hide FiveOf;
  }

  lemma SquaresOf(a: real, b: real, c: real, d: real)
    ensures FiveOf(a, b, c, d).ahead == (a * a + b * b) - (d * d + c * c)
    ensures FiveOf(a, b, c, d).norm == (a * a + b * b) + (d * d + c * c)
  {
  }

  lemma MulSum(p: real, q: real, r: real)
    ensures Mul(p, r) + Mul(q, r) == Mul(p + q, r) && Mul(p, r) - Mul(q, r) == Mul(p - q, r)
  {
  }

  lemma YawAndPitch(a: real, b: real, p: real, q: real)
    ensures 2.0 * ((a * p) * (-b * q) + (a * q) * (b * p)) == 0.0
    ensures (a * p) * (a * p) - (-b * q) * (-b * q) - (a * q) * (a * q) + (b * p) * (b * p)
            == Mul(p * p - q * q, a * a + b * b)
    ensures 2.0 * ((-b * q) * (b * p) - (a * p) * (a * q)) == -Mul(2.0 * q * p, a * a + b * b)
    ensures (a * p) * (a * p) + (-b * q) * (-b * q) - (a * q) * (a * q) - (b * p) * (b * p)
            == Mul(p * p - q * q, a * a - b * b)
    ensures 2.0 * ((-b * q) * (a * q) + (a * p) * (b * p)) == Mul(p * p - q * q, 2.0 * b * a)
    ensures (a * p) * (a * p) + (-b * q) * (-b * q) + (a * q) * (a * q) + (b * p) * (b * p)
            == Mul(p * p + q * q, a * a + b * b)
  {
  }

  lemma FiveAreRead(q: Quat)
    requires Norm2(q) == 1.0
    ensures var f := FiveOf(q.q0, q.q1, q.q2, q.q3);
            && 2.0 * RollSine(q) == f.roll && 2.0 * RollCosine(q) == f.upright && PitchArgument(q) == -f.pitch
            && 2.0 * YawSine(q) == f.yaw && 2.0 * YawCosine(q) == f.ahead
  {
  }

  predicate Rolled(m: Quat, x: real, y: real, t: Quat) {
    && t.q0 == m.q0 * x - m.q1 * y && t.q1 == m.q1 * x + m.q0 * y
    && t.q2 == m.q2 * x + m.q3 * y && t.q3 == m.q3 * x - m.q2 * y
  }

  lemma YawThenPitch(yaw: Half, pitch: Half)
    ensures Times(AboutZ(yaw), AboutY(pitch))
            == Quat(yaw.c * pitch.c, -yaw.s * pitch.s, yaw.c * pitch.s, yaw.s * pitch.c)
  {
  }

  lemma ThenRoll(m: Quat, roll: Half)
    ensures Rolled(m, roll.c, roll.s, Times(m, AboutX(roll)))
  {
  }

  lemma FiveAfterTwo(yaw: Half, pitch: Half)
    requires yaw.Valid() && pitch.Valid()
    ensures FiveOf(yaw.c * pitch.c, -yaw.s * pitch.s, yaw.c * pitch.s, yaw.s * pitch.c)
            == Five(0.0, pitch.Cosine(), -pitch.Sine(), Mul(pitch.Cosine(), yaw.Cosine()),
                    Mul(pitch.Cosine(), yaw.Sine()), 1.0)
  {
    YawAndPitch(yaw.c, yaw.s, pitch.c, pitch.s);
  }

  lemma RolledFive(m: Quat, x: real, y: real, t: Quat)
    requires Rolled(m, x, y, t)
    ensures FiveOf(t.q0, t.q1, t.q2, t.q3)
            == FiveOf(m.q0 * x - m.q1 * y, m.q1 * x + m.q0 * y, m.q2 * x + m.q3 * y, m.q3 * x - m.q2 * y)
  {
    SameFive(t.q0, t.q1, t.q2, t.q3, m.q0 * x - m.q1 * y, m.q1 * x + m.q0 * y, m.q2 * x + m.q3 * y,
             m.q3 * x - m.q2 * y);
  }

  lemma FiveAfterRoll(m: Quat, roll: Half, t: Quat)
    requires roll.Valid() && Rolled(m, roll.c, roll.s, t)
    ensures var f := FiveOf(m.q0, m.q1, m.q2, m.q3);
            FiveOf(t.q0, t.q1, t.q2, t.q3)
            == Five(Mul(f.roll, roll.Cosine()) + Mul(f.upright, roll.Sine()),
                    Mul(f.upright, roll.Cosine()) - Mul(f.roll, roll.Sine()), f.pitch, f.ahead, f.yaw, f.norm)
  {
    hide FiveOf, Mul, SineOf, CosineOf, SquareOf, Rolled;
    var f := FiveOf(m.q0, m.q1, m.q2, m.q3);
    RollTurnsTilt(m.q0, m.q1, m.q2, m.q3, roll.c, roll.s);
    RollKeepsRest(m.q0, m.q1, m.q2, m.q3, roll.c, roll.s);
    RolledFive(m, roll.c, roll.s, t);
    TimesOne(f.pitch, SquareOf(roll.c, roll.s));
    TimesOne(f.ahead, SquareOf(roll.c, roll.s));
    TimesOne(f.yaw, SquareOf(roll.c, roll.s));
    TimesOne(f.norm, SquareOf(roll.c, roll.s));
  }

  lemma TimesOne(x: real, one: real)
    requires one == 1.0
    ensures Mul(x, one) == x
  {
  }

  lemma FiveAttained(yaw: Half, pitch: Half, roll: Half)
    requires yaw.Valid() && pitch.Valid() && roll.Valid()
    ensures var q := Attained(yaw, pitch, roll);
            FiveOf(q.q0, q.q1, q.q2, q.q3)
            == Five(Mul(pitch.Cosine(), roll.Sine()), Mul(pitch.Cosine(), roll.Cosine()), -pitch.Sine(),
                    Mul(pitch.Cosine(), yaw.Cosine()), Mul(pitch.Cosine(), yaw.Sine()), 1.0)
  {
    hide Times, FiveOf, Half.Sine, Half.Cosine, Mul, Rolled;
    var m, q := Times(AboutZ(yaw), AboutY(pitch)), Attained(yaw, pitch, roll);
    YawThenPitch(yaw, pitch);
    ThenRoll(m, roll);
    FiveAfterTwo(yaw, pitch);
    FiveAfterRoll(m, roll, q);
    MulZero(roll.Sine());
    MulZero(roll.Cosine());
    SameFive(m.q0, m.q1, m.q2, m.q3, yaw.c * pitch.c, -yaw.s * pitch.s, yaw.c * pitch.s, yaw.s * pitch.c);
  }

  lemma SameFive(a: real, b: real, c: real, d: real, a': real, b': real, c': real, d': real)
    requires a == a' && b == b' && c == c' && d == d'
    ensures FiveOf(a, b, c, d) == FiveOf(a', b', c', d')
  {
  }

  lemma MulZero(x: real)
    ensures Mul(0.0, x) == 0.0
  {
  }

  lemma NormIsFive(q: Quat)
    ensures Norm2(q) == FiveOf(q.q0, q.q1, q.q2, q.q3).norm
  {
  }

  /** `atan2` finds the angle of which `h` is half, from any positive multiple of its sine and cosine. */
  ghost predicate Finds(env: Env, h: Half, angle: real) {
    forall k :: k > 0.0 ==> env.atan2(Mul(k, h.Sine()), Mul(k, h.Cosine())) == angle
  }

  /** The angles are the ones the attitude was made from: yaw, then pitch, then roll, wherever the pitch is less
      than a right angle and the library finds angles from their sines and cosines. */
  lemma AnglesAreAttained(env: Env, yaw: Half, pitch: Half, roll: Half, psi: real, theta: real, phi: real)
    requires env.Valid() && yaw.Valid() && pitch.Valid() && roll.Valid() && pitch.Cosine() > 0.0
    requires Finds(env, yaw, psi) && Finds(env, roll, phi)
    requires env.asin.requires(pitch.Sine()) && env.asin(pitch.Sine()) == theta
    ensures var q := Attained(yaw, pitch, roll);
            Norm2(q) == 1.0 && Roll(env, q) == phi && Pitch(env, q) == theta && Yaw(env, q) == psi
  {
    hide Times, Attained, FiveOf, Half.Sine, Half.Cosine, RollSine, RollCosine, PitchArgument, YawSine, YawCosine;
    var q := Attained(yaw, pitch, roll);
    FiveAttained(yaw, pitch, roll);
    NormIsFive(q);
    FiveAreRead(q);
    var k := 0.5 * pitch.Cosine();
    HalfOf(pitch.Cosine(), roll.Sine());
    HalfOf(pitch.Cosine(), roll.Cosine());
    HalfOf(pitch.Cosine(), yaw.Sine());
    HalfOf(pitch.Cosine(), yaw.Cosine());
  }

  /** So the three getters, called in a row on a filter with that attitude, return the angles it was made from,
      in degrees. */
  method ReadAngles(f: Filter, ghost yaw: Half, ghost pitch: Half, ghost roll: Half, ghost psi: real,
      ghost theta: real, ghost phi: real)
    returns (r: real, p: real, y: real)
    requires f.Valid() && yaw.Valid() && pitch.Valid() && roll.Valid() && pitch.Cosine() > 0.0
    requires f.Q() == Attained(yaw, pitch, roll) && Finds(f.env, yaw, psi) && Finds(f.env, roll, phi)
    requires f.env.asin.requires(pitch.Sine()) && f.env.asin(pitch.Sine()) == theta
    modifies f`roll, f`pitch, f`yaw, f`anglesComputed
    ensures f.Valid() && f.Q() == old(f.Q())
    ensures r == phi * DEGREES && p == theta * DEGREES && y == psi * DEGREES
  {
    hide Attained, Finds, Roll, Pitch, Yaw, Half.Sine, Half.Cosine;
    AnglesAreAttained(f.env, yaw, pitch, roll, psi, theta, phi);
    r := f.GetRoll();
    p := f.GetPitch();
    y := f.GetYaw();
  }

  lemma HalfOf(x: real, y: real)
    ensures Mul(0.5 * x, y) == 0.5 * Mul(x, y)
  {
  }

  /** The filter starts level: that is the attitude of no turn at all. */
  lemma StartIsLevel()
    ensures START == Attained(Half(1.0, 0.0), Half(1.0, 0.0), Half(1.0, 0.0))
    ensures PredictedGravity(START) == Vec3(0.0, 0.0, 1.0)
  {
    hide Attained, Times, PredictedGravity;
    NoTurn(Half(1.0, 0.0));
    LevelGravity();
  }

  lemma NoTurn(h: Half)
    requires h == Half(1.0, 0.0)
    ensures Attained(h, h, h) == Quat(1.0, 0.0, 0.0, 0.0)
  {
    hide Times;
    YawThenPitch(h, h);
    ThenRoll(Times(AboutZ(h), AboutY(h)), h);
  }

  lemma LevelGravity()
    ensures PredictedGravity(Quat(1.0, 0.0, 0.0, 0.0)) == Vec3(0.0, 0.0, 1.0)
  {
  }

  /** The factor of the getters turns radians into degrees: 180 of them make half a turn. */
  lemma DegreesAreDegrees()
    ensures 179.9999 < 3.14159265 * DEGREES < 180.0001
  {
  }
}
