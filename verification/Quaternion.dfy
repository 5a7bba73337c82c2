/** Quaternion arithmetic of panda/m3/vector.c over the reals. */
module Quaternion {

  datatype Quat = Quat(q1: real, q2: real, q3: real, q4: real)

  datatype Vec = Vec(x: real, y: real, z: real)

  const ONE := Quat(1.0, 0.0, 0.0, 0.0)

  /** `quaternion_mult`. */
  function Mult(a: Quat, b: Quat): Quat {
    Quat(a.q1*b.q1 - a.q2*b.q2 - a.q3*b.q3 - a.q4*b.q4,
         a.q1*b.q2 + a.q2*b.q1 + a.q3*b.q4 - a.q4*b.q3,
         a.q1*b.q3 - a.q2*b.q4 + a.q3*b.q1 + a.q4*b.q2,
         a.q1*b.q4 + a.q2*b.q3 - a.q3*b.q2 + a.q4*b.q1)
  }

  /** `quaternion_multf`. */
  function Scale(q: Quat, f: real): Quat {
    Quat(q.q1*f, q.q2*f, q.q3*f, q.q4*f)
  }

  /** `quaternion_add`. */
  function Add(a: Quat, b: Quat): Quat {
    Quat(a.q1 + b.q1, a.q2 + b.q2, a.q3 + b.q3, a.q4 + b.q4)
  }

  /** `quaternion_sub`. */
  function Sub(a: Quat, b: Quat): Quat {
    Quat(a.q1 - b.q1, a.q2 - b.q2, a.q3 - b.q3, a.q4 - b.q4)
  }

  /** `quaternion_conj`. */
  function Conj(q: Quat): Quat {
    Quat(q.q1, -q.q2, -q.q3, -q.q4)
  }

  function Dot4(a1: real, a2: real, a3: real, a4: real, b1: real, b2: real, b3: real, b4: real): real {
    a1*b1 + a2*b2 + a3*b3 + a4*b4
  }

  function Dot(a: Quat, b: Quat): real {
    Dot4(a.q1, a.q2, a.q3, a.q4, b.q1, b.q2, b.q3, b.q4)
  }

  /** The square of the length, the number under the root in `quaternion_norm`. */
  function Norm2(q: Quat): real {
    Dot(q, q)
  }

  function Times(x: real, y: real): (p: real)
    ensures x > 0.0 && y > 0.0 ==> p > 0.0
    ensures x < 0.0 && y < 0.0 ==> p > 0.0
    ensures x == 0.0 || y == 0.0 ==> p == 0.0
  {
    x*y
  }

  function Square(x: real): (s: real)
    ensures s >= 0.0
    ensures x != 0.0 ==> s > 0.0
    ensures s == x*x
  {
    Times(x, x)
  }

  lemma SquareOfSum(a: real, b: real, c: real, d: real)
    ensures (a + b + c + d)*(a + b + c + d) ==
      a*a + b*b + c*c + d*d + 2.0*(a*b) + 2.0*(a*c) + 2.0*(a*d) + 2.0*(b*c) + 2.0*(b*d) + 2.0*(c*d)
  {
  }

  lemma ProductOfSums(a: real, b: real, c: real, d: real, e: real, f: real, g: real, h: real)
    ensures (a + b + c + d)*(e + f + g + h) ==
      a*e + a*f + a*g + a*h + b*e + b*f + b*g + b*h + c*e + c*f + c*g + c*h + d*e + d*f + d*g + d*h
  {
  }

  lemma FourSquares(a1: real, a2: real, a3: real, a4: real, b1: real, b2: real, b3: real, b4: real)
    ensures var p1, p2 := a1*b1 - a2*b2 - a3*b3 - a4*b4, a1*b2 + a2*b1 + a3*b4 - a4*b3;
      var p3, p4 := a1*b3 - a2*b4 + a3*b1 + a4*b2, a1*b4 + a2*b3 - a3*b2 + a4*b1;
      Dot4(p1, p2, p3, p4, p1, p2, p3, p4) == Dot4(a1, a2, a3, a4, a1, a2, a3, a4) * Dot4(b1, b2, b3, b4, b1, b2, b3, b4)
  {
    SquareOfSum(a1*b1, -(a2*b2), -(a3*b3), -(a4*b4));
    SquareOfSum(a1*b2, a2*b1, a3*b4, -(a4*b3));
    SquareOfSum(a1*b3, -(a2*b4), a3*b1, a4*b2);
    SquareOfSum(a1*b4, a2*b3, -(a3*b2), a4*b1);
    ProductOfSums(a1*a1, a2*a2, a3*a3, a4*a4, b1*b1, b2*b2, b3*b3, b4*b4);
  }

  lemma FourSquaresNamed(p1: real, p2: real, p3: real, p4: real,
                         a1: real, a2: real, a3: real, a4: real, b1: real, b2: real, b3: real, b4: real)
    requires p1 == a1*b1 - a2*b2 - a3*b3 - a4*b4
    requires p2 == a1*b2 + a2*b1 + a3*b4 - a4*b3
    requires p3 == a1*b3 - a2*b4 + a3*b1 + a4*b2
    requires p4 == a1*b4 + a2*b3 - a3*b2 + a4*b1
    ensures Dot4(p1, p2, p3, p4, p1, p2, p3, p4) == Dot4(a1, a2, a3, a4, a1, a2, a3, a4) * Dot4(b1, b2, b3, b4, b1, b2, b3, b4)
  {
    hide Dot4;
    FourSquares(a1, a2, a3, a4, b1, b2, b3, b4);
  }

  /** Euler's four-square identity: lengths multiply. */
  lemma LengthsMultiply(a: Quat, b: Quat)
    ensures Norm2(Mult(a, b)) == Norm2(a) * Norm2(b)
  {
    hide Dot4;
    var p := Mult(a, b);
    FourSquaresNamed(p.q1, p.q2, p.q3, p.q4, a.q1, a.q2, a.q3, a.q4, b.q1, b.q2, b.q3, b.q4);
  }

  lemma LengthIsPositive(q: Quat)
    ensures Norm2(q) >= 0.0
    ensures q.q1 != 0.0 || q.q2 != 0.0 || q.q3 != 0.0 || q.q4 != 0.0 ==> Norm2(q) > 0.0
  {
    assert Norm2(q) == Square(q.q1) + Square(q.q2) + Square(q.q3) + Square(q.q4);
  }

  lemma ScaledDot(a: Quat, b: Quat, f: real)
    ensures Dot(a, Scale(b, f)) == Dot(a, b) * f
    ensures Norm2(Scale(b, f)) == Norm2(b) * (f*f)
  {
  }

  lemma DifferenceLength(a: Quat, b: Quat)
    ensures Norm2(Sub(a, b)) == Norm2(a) - 2.0*Dot(a, b) + Norm2(b)
  {
  }

  lemma NormIsSumOfSquares(q: Quat)
    ensures Norm2(q) == Square(q.q1) + Square(q.q2) + Square(q.q3) + Square(q.q4)
  {
  }

  lemma Opposite(x: real, y: real)
    ensures (-x)*y == -(x*y) && (-x)*(-x) == x*x
  {
  }

  lemma DotIsRealPart(a: Quat, b: Quat)
    ensures Mult(Conj(a), b).q1 == Dot(a, b)
    ensures Norm2(Conj(a)) == Norm2(a)
  {
    Opposite(a.q2, b.q2);
    Opposite(a.q3, b.q3);
    Opposite(a.q4, b.q4);
  }

  lemma CauchySchwarz(a: Quat, b: Quat)
    ensures Square(Dot(a, b)) <= Norm2(a) * Norm2(b)
  {
    hide Mult, Conj, Dot, Norm2, Square;
    DotIsRealPart(a, b);
    LengthsMultiply(Conj(a), b);
    NormIsSumOfSquares(Mult(Conj(a), b));
  }
}
