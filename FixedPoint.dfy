/** Fixed-point arithmetic of the motion engine: quantities are signed 64-bit
    integers scaled by 2^40, and the planner evaluates the constant-jerk
    polynomial with C++ integer division, which truncates toward zero. */
module FixedPoint {

  /** One whole step (or one step per sample, and so on) in fixed point. */
  const SCALE: int := 0x100_0000_0000

  const INT64_MIN: int := -0x8000_0000_0000_0000
  const INT64_MAX: int := 0x7fff_ffff_ffff_ffff
  const INT32_MIN: int := -0x8000_0000
  const INT32_MAX: int := 0x7fff_ffff

  predicate IsInt64(x: int) { INT64_MIN <= x <= INT64_MAX }
  predicate IsInt32(x: int) { INT32_MIN <= x <= INT32_MAX }

  /** The int64 value of an integer taken modulo 2^64, as two's complement
      defines it: what C++20 gives for a left shift whose result does not fit
      (earlier standards leave it undefined). */
  function Wrap64(x: int): (r: int)
    ensures IsInt64(r)
    ensures (x - r) % 0x1_0000_0000_0000_0000 == 0
    ensures IsInt64(x) ==> r == x
  {
    var m := x % 0x1_0000_0000_0000_0000;
    if m > INT64_MAX then m - 0x1_0000_0000_0000_0000 else m
  }

  /** C++ `a / d` for a positive divisor: the quotient is rounded toward
      zero, so the remainder takes the sign of the dividend. */
  function Quot(a: int, d: int): (q: int)
    requires d > 0
    ensures a >= 0 ==> 0 <= q * d <= a < q * d + d
    ensures a < 0 ==> q * d - d < a <= q * d <= 0
  {
    if a >= 0 then
      DivMod(a, d);
      a / d
    else
      DivMod(-a, d);
      -((-a) / d)
  }

  /** Euclidean division facts for a non-negative dividend, stated linearly. */
  lemma DivMod(n: int, d: int)
    requires n >= 0 && d > 0
    ensures 0 <= n / d && (n / d) * d <= n < (n / d) * d + d
    ensures (-(n / d)) * d == -((n / d) * d)
  {
    var q, r := n / d, n % d;
    assert n == d * q + r && 0 <= r < d;
    assert d * q == q * d;
  }

  /** Truncation is symmetric about zero (Euclidean division is not). */
  lemma QuotNegate(a: int, d: int)
    requires d > 0
    ensures Quot(-a, d) == -Quot(a, d)
  {
  }

  lemma NegMul(x: int, y: int)
    ensures (-x) * y == -(x * y)
  {
  }

  /** Position, velocity and acceleration, each scaled by 2^40. */
  datatype Kinematics = Kinematics(p: int, v: int, a: int)

  const Rest := Kinematics(0, 0, 0)

  function Negate(k: Kinematics): Kinematics
  {
    Kinematics(-k.p, -k.v, -k.a)
  }

  /** Every intermediate value of the three C++ expressions of move_pvajt,
      evaluated left to right in int64, is representable. */
  predicate PvajtFits(s: Kinematics, j: int, t: int)
  {
    && IsInt64(s.p) && IsInt64(s.v) && IsInt64(s.a) && IsInt64(j) && IsInt64(t)
    && IsInt64(s.v * t) && IsInt64(s.a * t) && IsInt64(s.a * t * t)
    && IsInt64(j * t) && IsInt64(j * t * t) && IsInt64(j * t * t * t)
    && IsInt64(s.p + s.v * t)
    && IsInt64(s.p + s.v * t + Quot(s.a * t * t, 2))
    && IsInt64(s.p + s.v * t + Quot(s.a * t * t, 2) + Quot(j * t * t * t, 6))
    && IsInt64(s.v + s.a * t)
    && IsInt64(s.v + s.a * t + Quot(j * t * t, 2))
    && IsInt64(s.a + j * t)
  }

  /** Six times the exact position of constant-jerk motion after t samples. */
  function ExactPosition6(s: Kinematics, j: int, t: int): int
  {
    6 * s.p + 6 * (s.v * t) + 3 * (s.a * t * t) + j * t * t * t
  }

  /** Twice the exact velocity of constant-jerk motion after t samples. */
  function ExactVelocity2(s: Kinematics, j: int, t: int): int
  {
    2 * s.v + 2 * (s.a * t) + j * t * t
  }

  /** move_pvajt: the state reached from s after t sample periods of constant
      jerk j, by the closed-form polynomial. Acceleration is exact; velocity
      and position lose the fractions that C++ truncation drops, which is less
      than one unit per divided term. */
  function Pvajt(s: Kinematics, j: int, t: int): (r: Kinematics)
    requires PvajtFits(s, j, t)
    ensures t == 0 ==> r == s
    ensures j == 0 && s.a == 0 ==> r == Kinematics(s.p + s.v * t, s.v, 0)
  {
    Kinematics(
      s.p + s.v * t + Quot(s.a * t * t, 2) + Quot(j * t * t * t, 6),
      s.v + s.a * t + Quot(j * t * t, 2),
      s.a + j * t)
  }

  /** Pvajt is the constant-jerk polynomial up to truncation: acceleration is
      exact, velocity is within half a unit and position within 8/6 of a unit
      of the exact values, and no time leaves the state as it is. */
  lemma PvajtAccuracy(s: Kinematics, j: int, t: int)
    requires PvajtFits(s, j, t)
    ensures Pvajt(s, j, t).a == s.a + j * t
    ensures -1 <= 2 * Pvajt(s, j, t).v - ExactVelocity2(s, j, t) <= 1
    ensures -8 <= 6 * Pvajt(s, j, t).p - ExactPosition6(s, j, t) <= 8
    ensures t == 0 ==> Pvajt(s, j, t) == s
  {
    var att, jtt, jttt := s.a * t * t, j * t * t, j * t * t * t;
    var q1, q2, q3 := Quot(att, 2), Quot(jttt, 6), Quot(jtt, 2);
    assert -1 <= 2 * q1 - att <= 1;
    assert -5 <= 6 * q2 - jttt <= 5;
    assert -1 <= 2 * q3 - jtt <= 1;
    if t == 0 {
      assert s.v * t == 0 && s.a * t == 0 && att == 0 && jtt == 0 && jttt == 0 && j * t == 0;
    }
  }

  /** Because C++ division truncates toward zero, mirroring the initial state
      and the jerk mirrors the result exactly. */
  lemma PvajtNegate(s: Kinematics, j: int, t: int)
    requires PvajtFits(s, j, t) && PvajtFits(Negate(s), -j, t)
    ensures Pvajt(Negate(s), -j, t) == Negate(Pvajt(s, j, t))
  {
    var n := Negate(s);
    var vt, at, att := s.v * t, s.a * t, s.a * t * t;
    var jt, jtt, jttt := j * t, j * t * t, j * t * t * t;
    NegMul(s.v, t);
    NegMul(s.a, t);
    NegMul(at, t);
    NegMul(j, t);
    NegMul(jt, t);
    NegMul(jtt, t);
    QuotNegate(att, 2);
    QuotNegate(jttt, 6);
    QuotNegate(jtt, 2);
    var r := Pvajt(s, j, t);
    assert r == Kinematics(s.p + vt + Quot(att, 2) + Quot(jttt, 6), s.v + at + Quot(jtt, 2), s.a + jt);
  }
}
