/**
 * The 2x2 matrix helpers: a closed-form singular value decomposition, trace,
 * outer product, diagonal matrix and the length of the diagonal.
 */
module MatrixUtility {
  import opened Algebra

  datatype SVDResult = SVDResult(u: Mat2, sigma: Vec2, vt: Mat2)

  /** The symmetric and antisymmetric halves E, F, G, H of the input. */
  function E(m: Mat2): real { (m.m00 + m.m11) * 0.5 }
  function F(m: Mat2): real { (m.m00 - m.m11) * 0.5 }
  function G(m: Mat2): real { (m.m10 + m.m01) * 0.5 }
  function H(m: Mat2): real { (m.m10 - m.m01) * 0.5 }

  /** Q = hypot(E, H) and R = hypot(F, G). */
  function Q(e: Elementary, m: Mat2): real { e.sqrt(SumSq(E(m), H(m))) }
  function R(e: Elementary, m: Mat2): real { e.sqrt(SumSq(F(m), G(m))) }

  /**
   * u = Rotate(phi), sigma = (Q + R, Q - R), vt = Rotate(theta), where
   * phi and theta are the half sum and half difference of atan2(H, E) and
   * atan2(G, F).
   */
  function SingularValuesDecomposition(e: Elementary, m: Mat2): (r: SVDResult)
    ensures r.u.m00 == r.u.m11 && r.u.m01 == -r.u.m10 && r.vt.m00 == r.vt.m11 && r.vt.m01 == -r.vt.m10
    ensures r.sigma.x + r.sigma.y == 2.0 * Q(e, m) && r.sigma.x - r.sigma.y == 2.0 * R(e, m)
  {
    var q := Q(e, m);
    var r := R(e, m);
    var a1 := e.atan2(G(m), F(m));
    var a2 := e.atan2(H(m), E(m));
    var theta := (a2 - a1) * 0.5;
    var phi := (a2 + a1) * 0.5;
    SVDResult(Rotate(e, phi), Vec2(q + r, q - r), Rotate(e, theta))
  }

  /** The trace: the sum of the diagonal entries. */
  function Tr(m: Mat2): real {
    m.m00 + m.m11
  }

  /**
   * The trace is linear, unchanged by transposition, and cyclic: tr(AB) = tr(BA)
   * although AB and BA differ in general.
   */
  lemma TraceLinearAndCyclic(a: Mat2, b: Mat2, s: real)
    ensures Tr(MatAdd(a, b)) == Tr(a) + Tr(b)
    ensures Tr(MatScale(s, a)) == s * Tr(a)
    ensures Tr(Transpose(a)) == Tr(a)
    ensures Tr(Mul(a, b)) == Tr(Mul(b, a))
  {
  }

  /** x * y^T: entry (r, c) is x[r] * y[c]; its trace is x . y, and it vanishes with either factor. */
  function OuterProduct(x: Vec2, y: Vec2): (o: Mat2)
    ensures Tr(o) == Dot(x, y)
    ensures x == Zero2 || y == Zero2 ==> o == ZeroMat
  {
    Mat2(x.x * y.x, x.x * y.y, x.y * y.x, x.y * y.y)
  }

  /** diag(v), whose trace is v.x + v.y and whose determinant is v.x v.y. */
  function Diagonal(v: Vec2): (d: Mat2)
    ensures Tr(d) == v.x + v.y && Determinant(d) == v.x * v.y
  {
    Mat2(v.x, 0.0, 0.0, v.y)
  }

  /**
   * The Euclidean length of the diagonal (m00, m11); off-diagonal entries
   * are ignored. For lawful functions it is non-negative and squares back to
   * m00^2 + m11^2.
   */
  function Length(e: Elementary, m: Mat2): (l: real)
    ensures Lawful(e) ==> 0.0 <= l && l * l == m.m00 * m.m00 + m.m11 * m.m11
  {
    SumOfSquaresNonNegative(m.m00, m.m11);
    assert Lawful(e) ==> 0.0 <= e.sqrt(SumSq(m.m00, m.m11))
                         && e.sqrt(SumSq(m.m00, m.m11)) * e.sqrt(SumSq(m.m00, m.m11)) == SumSq(m.m00, m.m11) by {
      if Lawful(e) {
        SqrtLaw(e, SumSq(m.m00, m.m11));
      }
    }
    e.sqrt(SumSq(m.m00, m.m11))
  }

  lemma QSquared(e: Elementary, m: Mat2)
    requires Lawful(e)
    ensures 0.0 <= Q(e, m) && Q(e, m) * Q(e, m) == E(m) * E(m) + H(m) * H(m)
  {
    SumOfSquaresNonNegative(E(m), H(m));
    SqrtLaw(e, SumSq(E(m), H(m)));
  }

  lemma RSquared(e: Elementary, m: Mat2)
    requires Lawful(e)
    ensures 0.0 <= R(e, m) && R(e, m) * R(e, m) == F(m) * F(m) + G(m) * G(m)
  {
    SumOfSquaresNonNegative(F(m), G(m));
    SqrtLaw(e, SumSq(F(m), G(m)));
  }

  /** sigma.x is non-negative and not smaller than sigma.y. */
  lemma SigmaOrdered(e: Elementary, m: Mat2)
    requires Lawful(e)
    ensures var s := SingularValuesDecomposition(e, m).sigma;
      0.0 <= s.x && s.y <= s.x
  {
    QSquared(e, m);
    RSquared(e, m);
  }

  /** The product of the singular values is the determinant of the input. */
  lemma SigmaProductIsDeterminant(e: Elementary, m: Mat2)
    requires Lawful(e)
    ensures var s := SingularValuesDecomposition(e, m).sigma;
      s.x * s.y == Determinant(m)
  {
    var q, r := Q(e, m), R(e, m);
    QSquared(e, m);
    RSquared(e, m);
    assert (q + r) * (q - r) == q * q - r * r;
    HalvesDeterminant(m.m00, m.m01, m.m10, m.m11);
  }

  lemma HalvesDeterminant(a: real, b: real, c: real, d: real)
    ensures var m := Mat2(a, b, c, d);
      E(m) * E(m) + H(m) * H(m) - (F(m) * F(m) + G(m) * G(m)) == a * d - b * c
  {
  }

  /** The squares of the singular values add up to the squares of the four entries. */
  lemma SigmaSquaresAreFrobenius(e: Elementary, m: Mat2)
    requires Lawful(e)
    ensures var s := SingularValuesDecomposition(e, m).sigma;
      s.x * s.x + s.y * s.y
        == m.m00 * m.m00 + m.m01 * m.m01 + m.m10 * m.m10 + m.m11 * m.m11
  {
    var q, r := Q(e, m), R(e, m);
    QSquared(e, m);
    RSquared(e, m);
    assert (q + r) * (q + r) + (q - r) * (q - r) == 2.0 * (q * q) + 2.0 * (r * r);
    HalvesFrobenius(m.m00, m.m01, m.m10, m.m11);
  }

  lemma HalvesFrobenius(a: real, b: real, c: real, d: real)
    ensures var m := Mat2(a, b, c, d);
      2.0 * (E(m) * E(m) + H(m) * H(m)) + 2.0 * (F(m) * F(m) + G(m) * G(m))
        == a * a + b * b + c * c + d * d
  {
  }

  /**
   * sigma.y is signed: it is negative exactly when the input reverses
   * orientation (negative determinant).
   */
  lemma SigmaYNegativeIffReflection(e: Elementary, m: Mat2)
    requires Lawful(e)
    ensures SingularValuesDecomposition(e, m).sigma.y < 0.0 <==> Determinant(m) < 0.0
  {
    var q, r := Q(e, m), R(e, m);
    QSquared(e, m);
    RSquared(e, m);
    SigmaProductIsDeterminant(e, m);
    if q < r {
      SquareStrictlyIncreasing(q, r);
    } else {
      if r < q {
        SquareStrictlyIncreasing(r, q);
      }
    }
    HalvesDeterminant(m.m00, m.m01, m.m10, m.m11);
  }

  /**
   * A diagonal matrix diag(a, b) with a >= |b| is its own decomposition: both
   * rotations are the identity and sigma is (a, b).
   */
  lemma DiagonalDecomposition(e: Elementary, a: real, b: real)
    requires Lawful(e) && -a <= b <= a
    ensures SingularValuesDecomposition(e, Diagonal(Vec2(a, b)))
         == SVDResult(Identity, Vec2(a, b), Identity)
  {
    var m := Diagonal(Vec2(a, b));
    HypotOnAxis(e, E(m), H(m));
    HypotOnAxis(e, F(m), G(m));
    AtanOfZero(e, G(m), F(m));
    AtanOfZero(e, H(m), E(m));
    assert Rotate(e, 0.0) == Identity;
  }

  /** The decomposition of the identity is (I, (1, 1), I). */
  lemma IdentityDecomposition(e: Elementary)
    requires Lawful(e)
    ensures SingularValuesDecomposition(e, Identity) == SVDResult(Identity, Vec2(1.0, 1.0), Identity)
  {
    DiagonalDecomposition(e, 1.0, 1.0);
  }

  /** hypot(x, 0) == x for x >= 0. */
  lemma HypotOnAxis(e: Elementary, x: real, y: real)
    requires Lawful(e) && 0.0 <= x && y == 0.0
    ensures e.sqrt(SumSq(x, y)) == x
  {
    SqrtOf(e, SumSq(x, y), x);
  }

  lemma AtanOfZero(e: Elementary, y: real, x: real)
    requires Lawful(e) && y == 0.0 && 0.0 <= x
    ensures e.atan2(y, x) == 0.0
  {
  }

  /**
   * The factors multiply back to the input: u * diag(sigma) * vt == m, under the
   * laws of sqrt, atan2, cos and sin.
   */
  lemma Reconstruction(e: Elementary, m: Mat2)
    requires Lawful(e)
    ensures var s := SingularValuesDecomposition(e, m);
      Mul(Mul(s.u, Diagonal(s.sigma)), s.vt) == m
  {
    var a1 := e.atan2(G(m), F(m));
    var a2 := e.atan2(H(m), E(m));
    var theta := (a2 - a1) * 0.5;
    var phi := (a2 + a1) * 0.5;
    AngleFacts(e, a1, a2);
    PolarFacts(e, m);
    ReconstructionAlgebra(Q(e, m), R(e, m),
                          e.cos(phi), e.sin(phi), e.cos(theta), e.sin(theta),
                          e.cos(a1), e.sin(a1), e.cos(a2), e.sin(a2),
                          E(m), F(m), G(m), H(m));
  }

  /** cos and sin of a1 = phi - theta and a2 = phi + theta, by the addition laws. */
  predicate AdditionLaws(cp: real, sp: real, ct: real, st: real,
                         c1: real, s1: real, c2: real, s2: real) {
    && c2 == cp * ct - sp * st && s2 == sp * ct + cp * st
    && c1 == cp * ct + sp * st && s1 == sp * ct - cp * st
  }

  /** (e, h) and (f, g) in polar form, with radii q and r and angles a2 and a1. */
  predicate PolarForms(q: real, r: real, c1: real, s1: real, c2: real, s2: real,
                       e: real, f: real, g: real, h: real) {
    q * c2 == e && q * s2 == h && r * c1 == f && r * s1 == g
  }

  lemma AngleFacts(e: Elementary, a1: real, a2: real)
    requires Lawful(e)
    ensures var theta, phi := (a2 - a1) * 0.5, (a2 + a1) * 0.5;
      AdditionLaws(e.cos(phi), e.sin(phi), e.cos(theta), e.sin(theta),
                   e.cos(a1), e.sin(a1), e.cos(a2), e.sin(a2))
  {
    var theta, phi := (a2 - a1) * 0.5, (a2 + a1) * 0.5;
    assert Sum(phi, theta) == a2 && Difference(phi, theta) == a1;
  }

  lemma PolarFacts(e: Elementary, m: Mat2)
    requires Lawful(e)
    ensures var a1, a2 := e.atan2(G(m), F(m)), e.atan2(H(m), E(m));
      PolarForms(Q(e, m), R(e, m), e.cos(a1), e.sin(a1), e.cos(a2), e.sin(a2),
                 E(m), F(m), G(m), H(m))
  {
    Polar(e, H(m), E(m));
    Polar(e, G(m), F(m));
  }

  lemma Polar(e: Elementary, y: real, x: real)
    requires Lawful(e)
    ensures e.sqrt(SumSq(x, y)) * e.cos(e.atan2(y, x)) == x
    ensures e.sqrt(SumSq(x, y)) * e.sin(e.atan2(y, x)) == y
  {
  }

  /** The polynomial identity behind Reconstruction, over plain reals. */
  lemma ReconstructionAlgebra(q: real, r: real, cp: real, sp: real, ct: real, st: real,
                              c1: real, s1: real, c2: real, s2: real,
                              e: real, f: real, g: real, h: real)
    requires AdditionLaws(cp, sp, ct, st, c1, s1, c2, s2)
    requires PolarForms(q, r, c1, s1, c2, s2, e, f, g, h)
    ensures Mul(Mul(Mat2(cp, -sp, sp, cp), Diagonal(Vec2(q + r, q - r))), Mat2(ct, -st, st, ct))
         == Mat2(e + f, g - h, g + h, e - f)
  {
    assert q * c2 == q * cp * ct - q * sp * st;
    assert q * s2 == q * sp * ct + q * cp * st;
    assert r * c1 == r * cp * ct + r * sp * st;
    assert r * s1 == r * sp * ct - r * cp * st;
  }

  /** The test matrix [[3, 1], [1, 3]] has singular values (4, 2) and is rebuilt exactly. */
  lemma SymmetricExample(e: Elementary)
    requires Lawful(e)
    ensures var m := Mat2(3.0, 1.0, 1.0, 3.0);
      var s := SingularValuesDecomposition(e, m);
      s.sigma == Vec2(4.0, 2.0) && Mul(Mul(s.u, Diagonal(s.sigma)), s.vt) == m
  {
    var m := Mat2(3.0, 1.0, 1.0, 3.0);
    SqrtOf(e, 9.0, 3.0);
    SqrtOf(e, 1.0, 1.0);
    assert E(m) == 3.0 && H(m) == 0.0 && F(m) == 0.0 && G(m) == 1.0;
    Reconstruction(e, m);
  }

  /** (x y^T) z == (y . z) x: the outer product acts by projecting onto y. */
  lemma OuterProductApplied(x: Vec2, y: Vec2, z: Vec2)
    ensures MulVec(OuterProduct(x, y), z) == Scale(Dot(y, z), x)
  {
  }

  /** diag(v) scales each axis by the matching component of v. */
  lemma DiagonalApplied(v: Vec2, w: Vec2)
    ensures MulVec(Diagonal(v), w) == Vec2(v.x * w.x, v.y * w.y)
  {
  }
}
