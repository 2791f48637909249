/**
 * The pieces of JavaScript number semantics the image wall relies on,
 * over exact reals: truncation, the `%` operator (truncated remainder),
 * congruence, ToInt32 with its wrap-around, `>> 1`, and "falsy" numbers.
 */
module JsNum {
  import opened Options

  const TWO_31: int := 0x8000_0000
  const TWO_32: int := 0x1_0000_0000

  function Abs(x: real): real {
    if x < 0.0 then -x else x
  }

  /** Rounding toward zero (`Math.trunc`). */
  function Trunc(x: real): (t: int)
    ensures 0.0 <= x ==> t as real <= x < t as real + 1.0
    ensures x < 0.0 ==> t as real - 1.0 < x <= t as real
  {
    if x >= 0.0 then x.Floor else -((-x).Floor)
  }

  /** `x` has no fractional part. */
  predicate IsInt(x: real) {
    x.Floor as real == x
  }

  /** `a` and `b` differ by a whole number of periods `m`. */
  predicate Congruent(a: real, b: real, m: real)
    requires m != 0.0
  {
    IsInt((a - b) / m)
  }

  /**
   * JavaScript's `a % m`: the remainder of the division truncated toward
   * zero, so the result carries the sign of the dividend.
   */
  function Rem(a: real, m: real): (r: real)
    requires m != 0.0
    ensures Congruent(r, a, m)
    ensures 0.0 < m && 0.0 <= a ==> 0.0 <= r < m
    ensures 0.0 < m && a < 0.0 ==> -m < r <= 0.0
  {
    var q := a / m;
    var t := Trunc(q);
    var r := a - m * t as real;
    WholeShift(a, m, t);
    if 0.0 < m && 0.0 <= a then
      RemainderBelow(a, m, q, t as real);
      r
    else if 0.0 < m then
      RemainderAbove(a, m, q, t as real);
      r
    else
      r
  }

  /** Taking `t` whole periods off `a` stays congruent to `a`. */
  lemma WholeShift(a: real, m: real, t: int)
    requires m != 0.0
    ensures Congruent(a - m * t as real, a, m)
  {
    assert a - m * t as real - a == -(t as real) * m;
    assert (a - m * t as real - a) / m == -(t as real);
    assert (-(t as real)).Floor == -t;
  }

  lemma RemainderBelow(a: real, m: real, q: real, tr: real)
    requires 0.0 < m && q == a / m
    requires tr <= q < tr + 1.0
    ensures 0.0 <= a - m * tr < m
  {
    assert a == m * q;
    var x := q - tr;
    assert 0.0 <= m * x;
    assert m * x < m * 1.0;
    assert a - m * tr == m * x;
  }

  lemma RemainderAbove(a: real, m: real, q: real, tr: real)
    requires 0.0 < m && q == a / m
    requires tr - 1.0 < q <= tr
    ensures -m < a - m * tr <= 0.0
  {
    assert a == m * q;
    var x := q - tr;
    assert m * x <= 0.0;
    assert m * -1.0 < m * x;
    assert a - m * tr == m * x;
  }

  lemma CongruentRefl(a: real, m: real)
    requires m != 0.0
    ensures Congruent(a, a, m)
  {
    assert (a - a) / m == 0.0;
  }

  lemma CongruentSymm(a: real, b: real, m: real)
    requires m != 0.0
    requires Congruent(a, b, m)
    ensures Congruent(b, a, m)
  {
    var k := (a - b) / m;
    assert (b - a) / m == -k;
    assert (-k).Floor == -(k.Floor);
  }

  /** Congruence is transitive: whole numbers of periods add up. */
  lemma CongruentTrans(a: real, b: real, c: real, m: real)
    requires m != 0.0
    requires Congruent(a, b, m) && Congruent(b, c, m)
    ensures Congruent(a, c, m)
  {
    var k1 := (a - b) / m;
    var k2 := (b - c) / m;
    assert (a - c) / m == k1 + k2;
    assert (k1 + k2).Floor == k1.Floor + k2.Floor;
  }

  /** Shifting both sides by the same amount keeps congruence. */
  lemma CongruentShift(a: real, b: real, d: real, m: real)
    requires m != 0.0
    requires Congruent(a, b, m)
    ensures Congruent(a + d, b + d, m)
  {
    assert (a + d - (b + d)) / m == (a - b) / m;
  }

  /**
   * Two values in one half-open window of width `m` that are congruent
   * modulo `m` are equal: a window of one period holds one representative.
   */
  lemma {:induction false} CongruentInWindow(a: real, b: real, lo: real, m: real)
    requires 0.0 < m
    requires lo <= a < lo + m && lo <= b < lo + m
    requires Congruent(a, b, m)
    ensures a == b
  {
    var k := (a - b) / m;
    QuotientBelowOne(a - b, m);
    assert k.Floor == 0;
  }

  lemma QuotientBelowOne(x: real, m: real)
    requires 0.0 < m && -m < x < m
    ensures -1.0 < x / m < 1.0
  {
    assert x == (x / m) * m;
  }

  /** The JavaScript falsy test on a possibly-absent number (NaN is not modelled). */
  predicate Falsy(v: Option<real>) {
    v.None? || v.value == 0.0
  }

  /**
   * ToInt32: truncate, then wrap modulo 2^32 into the signed 32-bit range.
   */
  function ToInt32(x: real): (v: int)
    ensures -TWO_31 <= v < TWO_31
    ensures (v - Trunc(x)) % TWO_32 == 0
  {
    var u := Trunc(x) % TWO_32;
    if u >= TWO_31 then u - TWO_32 else u
  }

  /** A value already in the signed 32-bit range only loses its fraction. */
  lemma ToInt32InRange(x: real)
    requires -TWO_31 <= Trunc(x) < TWO_31
    ensures ToInt32(x) == Trunc(x)
  {
    var t := Trunc(x);
    if t < 0 {
      assert (t + TWO_32) % TWO_32 == t % TWO_32;
      assert t % TWO_32 == t + TWO_32;
    }
  }

  /** `x >> 1`: the arithmetic right shift of ToInt32(x), i.e. floor-halving. */
  function ShiftRight1(x: real): (v: int)
    ensures 2 * v <= ToInt32(x) <= 2 * v + 1
    ensures -0x4000_0000 <= v < 0x4000_0000
  {
    ToInt32(x) / 2
  }

  /**
   * Within the signed 32-bit range `x >> 1` keeps the sign of `x`: never
   * positive for a non-positive `x`, never negative for a non-negative one.
   */
  lemma ShiftRight1Sign(x: real)
    ensures -(TWO_31 as real) <= x <= 0.0 ==> ShiftRight1(x) <= 0
    ensures 0.0 <= x < TWO_31 as real ==> ShiftRight1(x) >= 0
  {
    if -(TWO_31 as real) <= x < TWO_31 as real {
      ToInt32InRange(x);
    }
  }
}
