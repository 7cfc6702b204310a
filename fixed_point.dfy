/**
 * The fixed-point codec: a real is stored as an integer count of
 * 1/multiplier steps. Decoding divides; encoding multiplies and converts to an
 * int, and the conversion truncates toward zero.
 */
module FixedPointUtility {
  import opened Algebra

  const IntMin: int := -0x8000_0000
  const IntMax: int := 0x7FFF_FFFF

  /** The float-to-int conversion: truncation toward zero, not rounding. */
  function Truncate(r: real): (n: int)
    ensures 0.0 <= r ==> n as real <= r < n as real + 1.0
    ensures r < 0.0 ==> n as real - 1.0 < r <= n as real
  {
    if r >= 0.0 then r.Floor else -((-r).Floor)
  }

  /** x * multiplier converts to an int without leaving the int range. */
  predicate Encodable(x: real, multiplier: nat) {
    0 < multiplier && -2147483649.0 < x * multiplier as real < 2147483648.0
  }

  function DecodeFixedPoint(fixedPoint: int, multiplier: nat): (r: real)
    requires 0 < multiplier
    ensures r * multiplier as real == fixedPoint as real
  {
    fixedPoint as real / multiplier as real
  }

  function EncodeFixedPoint(x: real, multiplier: nat): (i: int)
    requires Encodable(x, multiplier)
    ensures IntMin <= i <= IntMax
    ensures 0.0 <= x ==> 0 <= i && i as real <= x * multiplier as real < i as real + 1.0
    ensures x < 0.0 ==> i <= 0 && i as real - 1.0 < x * multiplier as real <= i as real
  {
    Truncate(x * multiplier as real)
  }

  /** The int2 forms, component by component. */
  function DecodeFixedPointVec(fixedPoint: Int2, multiplier: nat): (v: Vec2)
    requires 0 < multiplier
    ensures v.x * multiplier as real == fixedPoint.x as real && v.y * multiplier as real == fixedPoint.y as real
  {
    Vec2(DecodeFixedPoint(fixedPoint.x, multiplier), DecodeFixedPoint(fixedPoint.y, multiplier))
  }

  predicate EncodableVec(v: Vec2, multiplier: nat) {
    Encodable(v.x, multiplier) && Encodable(v.y, multiplier)
  }

  function EncodeFixedPointVec(v: Vec2, multiplier: nat): (c: Int2)
    requires EncodableVec(v, multiplier)
    ensures IntMin <= c.x <= IntMax && IntMin <= c.y <= IntMax
    ensures 0.0 <= v.x ==> 0 <= c.x && c.x as real <= v.x * multiplier as real
    ensures 0.0 <= v.y ==> 0 <= c.y && c.y as real <= v.y * multiplier as real
  {
    Int2(EncodeFixedPoint(v.x, multiplier), EncodeFixedPoint(v.y, multiplier))
  }

  lemma DecodeExample()
    ensures DecodeFixedPoint(10, 10) == 1.0
  {
  }

  lemma EncodeExample()
    ensures EncodeFixedPoint(1.0, 10) == 10
  {
  }

  /**
   * Encoding then decoding loses less than one step of 1/multiplier; stated
   * scaled by the multiplier: |d * m - x * m| < 1.
   */
  lemma DecodeEncodeError(x: real, multiplier: nat)
    requires Encodable(x, multiplier)
    ensures ScalarWithinOneStep(DecodeFixedPoint(EncodeFixedPoint(x, multiplier), multiplier), x, multiplier)
  {
  }

  /** d is within one step of 1/multiplier of x (stated scaled by the multiplier). */
  predicate ScalarWithinOneStep(d: real, x: real, multiplier: nat) {
    Abs(d * multiplier as real - x * multiplier as real) < 1.0
  }

  /** u is within one step of 1/multiplier of v on both axes. */
  predicate WithinOneStep(u: Vec2, v: Vec2, multiplier: nat) {
    ScalarWithinOneStep(u.x, v.x, multiplier) && ScalarWithinOneStep(u.y, v.y, multiplier)
  }

  /** The same for the int2 form, axis by axis. */
  lemma DecodeEncodeVecError(v: Vec2, multiplier: nat)
    requires EncodableVec(v, multiplier)
    ensures WithinOneStep(DecodeFixedPointVec(EncodeFixedPointVec(v, multiplier), multiplier), v, multiplier)
  {
    DecodeEncodeError(v.x, multiplier);
    DecodeEncodeError(v.y, multiplier);
  }

  /** The round-trip loss is toward zero: the decoded value lies between 0 and x. */
  lemma DecodeEncodeTowardZero(x: real, multiplier: nat)
    requires Encodable(x, multiplier)
    ensures var d := DecodeFixedPoint(EncodeFixedPoint(x, multiplier), multiplier);
      && (0.0 <= x ==> 0.0 <= d <= x)
      && (x < 0.0 ==> x <= d <= 0.0)
  {
    var m := multiplier as real;
    var i := EncodeFixedPoint(x, multiplier);
    var d := DecodeFixedPoint(i, multiplier);
    ScaledSign(d, m);
    ScaledOrder(d, x, m, i as real, x * m);
  }

  /** Truncation toward zero is monotone. */
  lemma TruncateMonotone(r: real, s: real)
    requires r <= s
    ensures Truncate(r) <= Truncate(s)
  {
  }

  /** Decoding then encoding gives back the integer exactly. */
  lemma EncodeDecode(i: int, multiplier: nat)
    requires 0 < multiplier && IntMin <= i <= IntMax
    ensures Encodable(DecodeFixedPoint(i, multiplier), multiplier)
    ensures EncodeFixedPoint(DecodeFixedPoint(i, multiplier), multiplier) == i
  {
    var d := DecodeFixedPoint(i, multiplier);
    assert d * multiplier as real == i as real;
  }

  /** Encoding is odd: it truncates toward zero symmetrically. */
  lemma EncodeOdd(x: real, multiplier: nat)
    requires Encodable(x, multiplier) && Encodable(-x, multiplier)
    ensures EncodeFixedPoint(-x, multiplier) == -EncodeFixedPoint(x, multiplier)
  {
    var m := multiplier as real;
    assert -x * m == -(x * m);
  }

  /** Encoding is monotone. */
  lemma EncodeMonotone(x: real, y: real, multiplier: nat)
    requires Encodable(x, multiplier) && Encodable(y, multiplier) && x <= y
    ensures EncodeFixedPoint(x, multiplier) <= EncodeFixedPoint(y, multiplier)
  {
    var m := multiplier as real;
    ScaledOrder(x, y, m, x * m, y * m);
    TruncateMonotone(x * m, y * m);
  }

  /** Decoding is additive, which is what makes integer accumulation meaningful. */
  lemma DecodeAdditive(a: int, b: int, multiplier: nat)
    requires 0 < multiplier
    ensures DecodeFixedPoint(a + b, multiplier)
         == DecodeFixedPoint(a, multiplier) + DecodeFixedPoint(b, multiplier)
  {
  }
}
