/**
 * The particle record the collision code works on, and the two guard-band
 * helpers: a projection that clamps a position into the box that keeps a
 * guard band of cells free at the grid border, and a predicate that tells
 * whether a cell lies strictly inside that box.
 */
module ParticleUtility {
  import opened Algebra

  datatype Particle = Particle(
    position: Vec2,
    displacement: Vec2,
    deformationGradient: Mat2,
    deformationDisplacement: Mat2,
    liquidDensity: real,
    mass: real,
    volume: real,
    logJp: real)

  /** The lower and upper bound of the guarded box on each axis. */
  function GuardLow(guardianSize: real): real { guardianSize }
  function GuardHigh(gridSize: int, guardianSize: real): real { gridSize as real - guardianSize - 1.0 }

  predicate InGuardedBox(p: Vec2, gridSize: int, guardianSize: real) {
    && GuardLow(guardianSize) <= p.x <= GuardHigh(gridSize, guardianSize)
    && GuardLow(guardianSize) <= p.y <= GuardHigh(gridSize, guardianSize)
  }

  /**
   * Clamps both coordinates into [g, gridSize - g - 1]. When the box is not
   * empty the result lies in it; when it is empty both coordinates become g,
   * the library's clamp letting the lower bound win.
   */
  function ProjectInsideGuardian(position: Vec2, gridSize: int, guardianSize: real): (p: Vec2)
    ensures GuardLow(guardianSize) <= GuardHigh(gridSize, guardianSize)
            ==> InGuardedBox(p, gridSize, guardianSize)
    ensures GuardHigh(gridSize, guardianSize) < GuardLow(guardianSize)
            ==> p == Vec2(guardianSize, guardianSize)
  {
    var lo := GuardLow(guardianSize);
    var hi := GuardHigh(gridSize, guardianSize);
    ClampVec(position, Vec2(lo, lo), Vec2(hi, hi))
  }

  /** A point already in the box is returned unchanged. */
  lemma ProjectFixesInside(position: Vec2, gridSize: int, guardianSize: real)
    requires InGuardedBox(position, gridSize, guardianSize)
    ensures ProjectInsideGuardian(position, gridSize, guardianSize) == position
  {
  }

  /** Projecting twice is projecting once. */
  lemma ProjectIdempotent(position: Vec2, gridSize: int, guardianSize: real)
    ensures var p := ProjectInsideGuardian(position, gridSize, guardianSize);
      ProjectInsideGuardian(p, gridSize, guardianSize) == p
  {
  }

  /** The two axes are clamped independently of each other. */
  lemma ProjectAxesIndependent(a: Vec2, b: Vec2, gridSize: int, guardianSize: real)
    ensures a.x == b.x ==> ProjectInsideGuardian(a, gridSize, guardianSize).x
                           == ProjectInsideGuardian(b, gridSize, guardianSize).x
    ensures a.y == b.y ==> ProjectInsideGuardian(a, gridSize, guardianSize).y
                           == ProjectInsideGuardian(b, gridSize, guardianSize).y
  {
  }

  /**
   * On each axis the projection is the nearest point of the box: no point of
   * the box is closer to the input.
   */
  lemma ProjectIsNearest(position: Vec2, q: Vec2, gridSize: int, guardianSize: real)
    requires InGuardedBox(q, gridSize, guardianSize)
    ensures var p := ProjectInsideGuardian(position, gridSize, guardianSize);
      Abs(p.x - position.x) <= Abs(q.x - position.x) && Abs(p.y - position.y) <= Abs(q.y - position.y)
  {
  }

  /** With a guard band of one cell the box is [1, gridSize - 2], the range particles are integrated into. */
  lemma UnitGuardIsIntegrationRange(position: Vec2, gridSize: int)
    ensures ProjectInsideGuardian(position, gridSize, 1.0)
         == ClampVec(position, Vec2(1.0, 1.0), Vec2(gridSize as real - 2.0, gridSize as real - 2.0))
  {
  }

  /**
   * The chain of early returns: false as soon as one coordinate is at or below
   * g, or at or above gridSize - g - 1; true otherwise. The uint operands are
   * converted to float, so the subtraction does not wrap.
   */
  function InsideGuardian(id: UInt2, gridSize: UInt2, guardianSize: real): (inside: bool)
    ensures inside <==> && guardianSize < id.x as real < gridSize.x as real - guardianSize - 1.0
                        && guardianSize < id.y as real < gridSize.y as real - guardianSize - 1.0
  {
    if id.x as real <= guardianSize then false
    else if id.x as real >= gridSize.x as real - guardianSize - 1.0 then false
    else if id.y as real <= guardianSize then false
    else if id.y as real >= gridSize.y as real - guardianSize - 1.0 then false
    else true
  }

  /** A cell strictly inside the guard band is left where it is by the projection (square grids). */
  lemma InsideGuardianIsFixedByProjection(id: UInt2, gridSize: uint32, guardianSize: real)
    requires InsideGuardian(id, UInt2(gridSize, gridSize), guardianSize)
    ensures var p := Vec2(id.x as real, id.y as real);
      ProjectInsideGuardian(p, gridSize as int, guardianSize) == p
  {
  }

  /**
   * The boundary value g itself is allowed by the projection but rejected by
   * the predicate: the two helpers disagree on the border of the band.
   */
  lemma GuardBoundaryDisagreement(g: uint32, gridSize: uint32)
    requires g as int <= gridSize as int - g as int - 1
    ensures var p := Vec2(g as real, g as real);
      && ProjectInsideGuardian(p, gridSize as int, g as real) == p
      && !InsideGuardian(UInt2(g, g), UInt2(gridSize, gridSize), g as real)
  {
  }
}
