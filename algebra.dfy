/**
 * Two-dimensional vector and 2x2 matrix algebra over the reals, standing in for
 * the float2 / float2x2 types of the mathematics library the simulator uses, and
 * the transcendental functions that library supplies, which this model takes as
 * parameters constrained by a small set of laws.
 */
module Algebra {

  datatype Vec2 = Vec2(x: real, y: real)

  /** The library's int2. */
  datatype Int2 = Int2(x: int, y: int)

  /** The library's uint, a 32-bit unsigned integer. */
  newtype uint32 = x: int | 0 <= x < 0x1_0000_0000

  /** The library's uint2. */
  datatype UInt2 = UInt2(x: uint32, y: uint32)

  /** A 2x2 matrix, entry mRC in row R and column C. */
  datatype Mat2 = Mat2(m00: real, m01: real, m10: real, m11: real)

  const Zero2: Vec2 := Vec2(0.0, 0.0)
  const ZeroMat: Mat2 := Mat2(0.0, 0.0, 0.0, 0.0)
  const Identity: Mat2 := Mat2(1.0, 0.0, 0.0, 1.0)

  function Add(a: Vec2, b: Vec2): Vec2 { Vec2(a.x + b.x, a.y + b.y) }
  function Sub(a: Vec2, b: Vec2): Vec2 { Vec2(a.x - b.x, a.y - b.y) }
  function Neg(a: Vec2): Vec2 { Vec2(-a.x, -a.y) }
  function Scale(s: real, a: Vec2): Vec2 { Vec2(s * a.x, s * a.y) }
  function Dot(a: Vec2, b: Vec2): real { a.x * b.x + a.y * b.y }

  function MatAdd(a: Mat2, b: Mat2): Mat2 {
    Mat2(a.m00 + b.m00, a.m01 + b.m01, a.m10 + b.m10, a.m11 + b.m11)
  }

  function MatScale(s: real, a: Mat2): Mat2 {
    Mat2(s * a.m00, s * a.m01, s * a.m10, s * a.m11)
  }

  function Mul(a: Mat2, b: Mat2): Mat2 {
    Mat2(a.m00 * b.m00 + a.m01 * b.m10, a.m00 * b.m01 + a.m01 * b.m11,
         a.m10 * b.m00 + a.m11 * b.m10, a.m10 * b.m01 + a.m11 * b.m11)
  }

  function MulVec(a: Mat2, v: Vec2): Vec2 {
    Vec2(a.m00 * v.x + a.m01 * v.y, a.m10 * v.x + a.m11 * v.y)
  }

  function Transpose(a: Mat2): Mat2 { Mat2(a.m00, a.m10, a.m01, a.m11) }

  function Determinant(a: Mat2): real { a.m00 * a.m11 - a.m01 * a.m10 }

  function Min(a: real, b: real): real { if a < b then a else b }
  function Max(a: real, b: real): real { if a > b then a else b }
  function Abs(a: real): real { if a < 0.0 then -a else a }

  /** The library's sign: 1, -1 or 0. */
  function Sign(a: real): real { (if a > 0.0 then 1.0 else 0.0) - (if a < 0.0 then 1.0 else 0.0) }

  /** The library's clamp: max(lo, min(hi, x)), so `lo` wins when lo > hi. */
  function Clamp(x: real, lo: real, hi: real): real { Max(lo, Min(hi, x)) }

  function ClampVec(v: Vec2, lo: Vec2, hi: Vec2): Vec2 {
    Vec2(Clamp(v.x, lo.x, hi.x), Clamp(v.y, lo.y, hi.y))
  }

  function AbsVec(v: Vec2): Vec2 { Vec2(Abs(v.x), Abs(v.y)) }

  function Lerp(a: real, b: real, t: real): real { a + t * (b - a) }

  /** a^2 + b^2, named so that the square roots of it are one term wherever they occur. */
  function SumSq(a: real, b: real): real { a * a + b * b }

  /** Helpers that name the angle sums and differences the addition laws speak of. */
  function Sum(a: real, b: real): real { a + b }
  function Difference(a: real, b: real): real { a - b }

  /**
   * The transcendental functions of the mathematics library. Nothing is known
   * about them beyond what `Lawful` states.
   */
  datatype Elementary = Elementary(
    sqrt: real -> real,
    atan2: (real, real) -> real,
    cos: real -> real,
    sin: real -> real,
    normalize: Vec2 -> Vec2)

  /**
   * Names e.sqrt(v) for the square-root law, so that the law is used only where
   * a proof asks for it (through SqrtLaw).
   */
  function Root(e: Elementary, v: real): real { e.sqrt(v) }

  /** The laws the proofs rely on; the real square root, atan2, cosine, sine and normalize satisfy them. */
  ghost predicate Lawful(e: Elementary) {
    && (forall v {:trigger Root(e, v)} :: 0.0 <= v ==> 0.0 <= e.sqrt(v) && e.sqrt(v) * e.sqrt(v) == v)
    && (forall x :: 0.0 <= x ==> e.atan2(0.0, x) == 0.0)
    && (forall y, x {:trigger e.cos(e.atan2(y, x))} :: e.sqrt(SumSq(x, y)) * e.cos(e.atan2(y, x)) == x)
    && (forall y, x {:trigger e.sin(e.atan2(y, x))} :: e.sqrt(SumSq(x, y)) * e.sin(e.atan2(y, x)) == y)
    && e.cos(0.0) == 1.0 && e.sin(0.0) == 0.0
    && (forall v {:trigger e.normalize(v)} :: v != Zero2 ==>
          Scale(e.sqrt(SumSq(v.x, v.y)), e.normalize(v)) == v)
    && (forall a, b {:trigger Sum(a, b)} :: e.cos(Sum(a, b)) == e.cos(a) * e.cos(b) - e.sin(a) * e.sin(b)
                    && e.sin(Sum(a, b)) == e.sin(a) * e.cos(b) + e.cos(a) * e.sin(b))
    && (forall a, b {:trigger Difference(a, b)} :: e.cos(Difference(a, b)) == e.cos(a) * e.cos(b) + e.sin(a) * e.sin(b)
                    && e.sin(Difference(a, b)) == e.sin(a) * e.cos(b) - e.cos(a) * e.sin(b))
  }

  /** The library's float2x2.Rotate(angle): a counter-clockwise rotation. */
  function Rotate(e: Elementary, angle: real): Mat2 {
    Mat2(e.cos(angle), -e.sin(angle), e.sin(angle), e.cos(angle))
  }

  lemma ProductPositive(a: real, b: real)
    requires 0.0 < a && 0.0 < b
    ensures 0.0 < a * b
  {
  }

  lemma ProductNonNegative(a: real, b: real)
    requires 0.0 <= a && 0.0 <= b
    ensures 0.0 <= a * b
  {
  }

  /** A fraction t in [0, 1] of a non-negative d lies in [0, d]. */
  lemma FractionBetween(t: real, d: real)
    requires 0.0 <= t <= 1.0 && 0.0 <= d
    ensures 0.0 <= t * d <= d
  {
    ProductNonNegative(t, d);
    ProductNonNegative(1.0 - t, d);
    assert (1.0 - t) * d == d - t * d;
  }

  /** a (b (-v)) = -((a b) v). */
  lemma ScaleScaleNeg(a: real, b: real, v: Vec2)
    ensures Scale(a, Scale(b, Neg(v))) == Neg(Scale(a * b, v))
  {
    assert a * (b * -v.x) == -(a * b * v.x);
    assert a * (b * -v.y) == -(a * b * v.y);
  }

  lemma SumOfSquaresNonNegative(a: real, b: real)
    ensures 0.0 <= SumSq(a, b)
  {
    if a != 0.0 { ProductPositive(Abs(a), Abs(a)); assert Abs(a) * Abs(a) == a * a; }
    if b != 0.0 { ProductPositive(Abs(b), Abs(b)); assert Abs(b) * Abs(b) == b * b; }
  }

  /** Multiplying by a positive m keeps the sign. */
  lemma ScaledSign(u: real, m: real)
    requires 0.0 < m
    ensures u < 0.0 <==> u * m < 0.0
    ensures u == 0.0 <==> u * m == 0.0
  {
    if u < 0.0 {
      ProductPositive(-u, m);
      assert (-u) * m == -(u * m);
    } else if u > 0.0 {
      ProductPositive(u, m);
    }
  }

  /** Multiplying by a positive m keeps the order. */
  lemma ScaledOrder(a: real, b: real, m: real, am: real, bm: real)
    requires 0.0 < m && am == a * m && bm == b * m
    ensures a < b <==> am < bm
    ensures a == b <==> am == bm
  {
    ScaledSign(a - b, m);
    assert (a - b) * m == am - bm;
  }

  /** Squaring is strictly increasing on the non-negative reals. */
  lemma SquareStrictlyIncreasing(a: real, b: real)
    requires 0.0 <= a < b
    ensures a * a < b * b
  {
    ProductPositive(b - a, b + a);
    assert (b - a) * (b + a) == b * b - a * a;
  }

  /** Two non-negative reals with the same square are equal. */
  lemma SquareInjective(s: real, r: real)
    requires 0.0 <= s && 0.0 <= r && s * s == r * r
    ensures s == r
  {
    if s < r {
      SquareStrictlyIncreasing(s, r);
    } else if r < s {
      SquareStrictlyIncreasing(r, s);
    }
  }

  lemma SqrtLaw(e: Elementary, v: real)
    requires Lawful(e) && 0.0 <= v
    ensures 0.0 <= e.sqrt(v) && e.sqrt(v) * e.sqrt(v) == v
  {
    assert Root(e, v) == e.sqrt(v);
  }

  /** A square root is determined by being non-negative and squaring back. */
  lemma SqrtOf(e: Elementary, v: real, r: real)
    requires Lawful(e)
    requires 0.0 <= r && v == r * r
    ensures e.sqrt(v) == r
  {
    var s := e.sqrt(v);
    SqrtLaw(e, v);
    SquareInjective(s, r);
  }

  /** cos^2 + sin^2 = 1, from the difference formula at (a, a). */
  lemma PythagoreanIdentity(e: Elementary, a: real)
    requires Lawful(e)
    ensures e.cos(a) * e.cos(a) + e.sin(a) * e.sin(a) == 1.0
  {
    assert Difference(a, a) == 0.0;
    assert e.cos(Difference(a, a)) == e.cos(a) * e.cos(a) + e.sin(a) * e.sin(a);
  }

  /** A rotation is orthogonal: its transpose undoes it, on either side. */
  lemma RotationOrthogonal(e: Elementary, a: real, v: Vec2)
    requires Lawful(e)
    ensures MulVec(Transpose(Rotate(e, a)), MulVec(Rotate(e, a), v)) == v
    ensures MulVec(Rotate(e, a), MulVec(Transpose(Rotate(e, a)), v)) == v
  {
    var c, s := e.cos(a), e.sin(a);
    PythagoreanIdentity(e, a);
    assert c * (c * v.x + -s * v.y) + s * (s * v.x + c * v.y) == (c * c + s * s) * v.x;
    assert -s * (c * v.x + -s * v.y) + c * (s * v.x + c * v.y) == (c * c + s * s) * v.y;
    assert c * (c * v.x + s * v.y) + -s * (-s * v.x + c * v.y) == (c * c + s * s) * v.x;
    assert s * (c * v.x + s * v.y) + c * (-s * v.x + c * v.y) == (c * c + s * s) * v.y;
  }

  /** Matrix-vector multiplication distributes over a scaled sum. */
  lemma MulVecLinear(a: Mat2, u: Vec2, k: real, w: Vec2)
    ensures MulVec(a, Add(u, Scale(k, w))) == Add(MulVec(a, u), Scale(k, MulVec(a, w)))
  {
    assert a.m00 * (u.x + k * w.x) + a.m01 * (u.y + k * w.y)
        == (a.m00 * u.x + a.m01 * u.y) + k * (a.m00 * w.x + a.m01 * w.y);
    assert a.m10 * (u.x + k * w.x) + a.m11 * (u.y + k * w.y)
        == (a.m10 * u.x + a.m11 * u.y) + k * (a.m10 * w.x + a.m11 * w.y);
  }
}
