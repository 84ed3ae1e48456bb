/** Quaternions and vectors over the reals, and the few facts about them the filter needs. */
module Vectors {

  datatype Vec3 = Vec3(x: real, y: real, z: real)
  datatype Quat = Quat(q0: real, q1: real, q2: real, q3: real)

  function Dot(a: Quat, b: Quat): real {
    a.q0 * b.q0 + a.q1 * b.q1 + a.q2 * b.q2 + a.q3 * b.q3
  }

  function Norm2(a: Quat): real {
    Dot(a, a)
  }

  function Scale(k: real, a: Quat): Quat {
    Quat(k * a.q0, k * a.q1, k * a.q2, k * a.q3)
  }

  function Plus(a: Quat, b: Quat): Quat {
    Quat(a.q0 + b.q0, a.q1 + b.q1, a.q2 + b.q2, a.q3 + b.q3)
  }

  /** The Hamilton product. */
  function Times(a: Quat, b: Quat): Quat {
    Quat(a.q0 * b.q0 - a.q1 * b.q1 - a.q2 * b.q2 - a.q3 * b.q3,
         a.q0 * b.q1 + a.q1 * b.q0 + a.q2 * b.q3 - a.q3 * b.q2,
         a.q0 * b.q2 - a.q1 * b.q3 + a.q2 * b.q0 + a.q3 * b.q1,
         a.q0 * b.q3 + a.q1 * b.q2 - a.q2 * b.q1 + a.q3 * b.q0)
  }

  function Dot3(a: Vec3, b: Vec3): real {
    a.x * b.x + a.y * b.y + a.z * b.z
  }

  function Plus3(a: Vec3, b: Vec3): Vec3 {
    Vec3(a.x + b.x, a.y + b.y, a.z + b.z)
  }

  function Minus3(a: Vec3, b: Vec3): Vec3 {
    Vec3(a.x - b.x, a.y - b.y, a.z - b.z)
  }

  function Scale3(k: real, a: Vec3): Vec3 {
    Vec3(k * a.x, k * a.y, k * a.z)
  }

  lemma Norm2Scale(k: real, a: Quat)
    ensures Norm2(Scale(k, a)) == Mul(Norm2(a), Sq(k))
  {
  }

  /** A square under its own name, so that its sign is known without arithmetic. */
  function Sq(x: real): (r: real)
    ensures r >= 0.0
    ensures x != 0.0 ==> r > 0.0
  {
    SquarePositive(x, x * x);
    x * x
  }

  lemma SquarePositive(x: real, r: real)
    requires r == x * x
    ensures r >= 0.0
    ensures x != 0.0 ==> r > 0.0
  {
    if x > 0.0 {
      ProductPositive(x, x, r);
    } else if x < 0.0 {
      ProductPositive(-x, -x, r);
    }
  }

  lemma ProductPositive(x: real, y: real, r: real)
    requires x > 0.0 && y > 0.0 && r == x * y
    ensures r > 0.0
  {
  }

  /** A product under its own name, so that facts about it stay linear. */
  function Mul(x: real, y: real): real {
    x * y
  }

  lemma Norm2NonNegative(a: Quat)
    ensures Norm2(a) == Sq(a.q0) + Sq(a.q1) + Sq(a.q2) + Sq(a.q3) >= 0.0
    ensures a != Quat(0.0, 0.0, 0.0, 0.0) ==> Norm2(a) > 0.0
  {
  }

  lemma ProductMonotone(a: real, b: real, c: real, d: real)
    requires 0.0 <= a <= b && 0.0 <= c <= d
    ensures 0.0 <= Mul(a, c) <= Mul(b, d)
  {
  }

  lemma DotLinear(a: Quat, b: Quat, k: real, c: Quat)
    ensures Dot(a, Plus(b, Scale(k, c))) == Dot(a, b) + k * Dot(a, c)
  {
  }

  /** The square of a two-by-two minor, over the products it is made of. */
  lemma MinorSquare(ai: real, aj: real, bi: real, bj: real)
    ensures 2.0 * ((ai * bi) * (aj * bj)) <= (ai * ai) * (bj * bj) + (aj * aj) * (bi * bi)
  {
  }

  lemma SumOfFourProduct(a: Quat, b: Quat)
    ensures (a.q0 + a.q1 + a.q2 + a.q3) * (b.q0 + b.q1 + b.q2 + b.q3)
         == a.q0 * b.q0 + a.q0 * b.q1 + a.q0 * b.q2 + a.q0 * b.q3
          + a.q1 * b.q0 + a.q1 * b.q1 + a.q1 * b.q2 + a.q1 * b.q3
          + a.q2 * b.q0 + a.q2 * b.q1 + a.q2 * b.q2 + a.q2 * b.q3
          + a.q3 * b.q0 + a.q3 * b.q1 + a.q3 * b.q2 + a.q3 * b.q3
  {
  }

  lemma ProductOfSquares(x: real, y: real)
    ensures (x * y) * (x * y) == (x * x) * (y * y)
  {
  }

  /** Lagrange's identity in four dimensions gives Cauchy-Schwarz. */
  lemma CauchySchwarz(a: Quat, b: Quat)
    ensures Sq(Dot(a, b)) <= Mul(Norm2(a), Norm2(b))
  {
    var p := Quat(a.q0 * b.q0, a.q1 * b.q1, a.q2 * b.q2, a.q3 * b.q3);
    SumOfFourProduct(p, p);
    SumOfFourProduct(Quat(a.q0 * a.q0, a.q1 * a.q1, a.q2 * a.q2, a.q3 * a.q3),
                     Quat(b.q0 * b.q0, b.q1 * b.q1, b.q2 * b.q2, b.q3 * b.q3));
    ProductOfSquares(a.q0, b.q0); ProductOfSquares(a.q1, b.q1);
    ProductOfSquares(a.q2, b.q2); ProductOfSquares(a.q3, b.q3);
    MinorSquare(a.q0, a.q1, b.q0, b.q1); MinorSquare(a.q0, a.q2, b.q0, b.q2); MinorSquare(a.q0, a.q3, b.q0, b.q3);
    MinorSquare(a.q1, a.q2, b.q1, b.q2); MinorSquare(a.q1, a.q3, b.q1, b.q3); MinorSquare(a.q2, a.q3, b.q2, b.q3);
  }
}
