/**
 * The terrain collision logic: a height field sampled by linear
 * interpolation, the two collision jobs that push grid cells and particles
 * out of the ground by correcting their displacement in place, and the
 * oriented-box collision test.
 */
module TerrainController {
  import opened Algebra
  import opened FixedPointUtility
  import opened ParticleUtility
  import DynamicsKernel

  /** The controller's grid resolution, m_Resolution. */
  const ControllerResolution: int := 64

  /** math.EPSILON, the single-precision machine epsilon. */
  const Epsilon: real := 0.00000011920929

  /** math.TORADIANS, pi / 180 in single precision. */
  const ToRadians: real := 0.0174532924

  /** What LerpHeight returns: the ground height at x and the segment's normal. */
  datatype HeightSample = HeightSample(height: real, normal: Vec2)

  /** x is at the right end of the field, where the last height is used directly. */
  predicate AtRightEnd(x: real, gridResolution: int) {
    Abs(x - gridResolution as real) < Epsilon
  }

  /** i = (int)floor(x / res * (heightLength - 1)): the segment x falls in. */
  function SegmentIndex(heights: seq<real>, x: real, gridResolution: int): int
    requires gridResolution != 0
  {
    (x / gridResolution as real * (|heights| - 1) as real).Floor
  }

  /**
   * The heights LerpHeight reads exist: the last one at the right end,
   * heights[i] and heights[i + 1] elsewhere.
   */
  predicate LerpDefined(heights: seq<real>, x: real, gridResolution: int) {
    if AtRightEnd(x, gridResolution) then 0 < |heights|
    else
      && gridResolution != 0
      && 0 <= SegmentIndex(heights, x, gridResolution)
      && SegmentIndex(heights, x, gridResolution) + 1 < |heights|
  }

  /**
   * LerpHeight as written: at the right end the clamped last height, unscaled,
   * with normal (0, 1); elsewhere the clamped heights of segment i interpolated
   * with t = (x - i offset) / offset, offset = res / heightLength, and scaled by
   * res, with normal (dir.y, dir.x) for the segment direction dir.
   */
  function LerpHeight(e: Elementary, heights: seq<real>, x: real, gridResolution: int): (r: HeightSample)
    requires LerpDefined(heights, x, gridResolution)
    ensures AtRightEnd(x, gridResolution) ==>
      r == HeightSample(Clamp(heights[|heights| - 1], 0.0, 1.0), Vec2(0.0, 1.0))
  {
    if AtRightEnd(x, gridResolution) then
      HeightSample(Clamp(heights[|heights| - 1], 0.0, 1.0), Vec2(0.0, 1.0))
    else
      var offset := gridResolution as real / |heights| as real;
      var i := SegmentIndex(heights, x, gridResolution);
      var t := (x - i as real * offset) / offset;
      SegmentSample(e, Clamp(heights[i], 0.0, 1.0), Clamp(heights[i + 1], 0.0, 1.0), i, offset, t, gridResolution)
  }

  /**
   * LerpHeight as the height field means it: heights[k] sits at
   * x = k res / (heightLength - 1), the spacing the controller draws the
   * line with, and the right end is scaled by res like every other point.
   */
  function LerpHeightCorrected(e: Elementary, heights: seq<real>, x: real, gridResolution: int)
    : (r: HeightSample)
    requires LerpDefined(heights, x, gridResolution)
    ensures AtRightEnd(x, gridResolution) ==>
      r == HeightSample(Clamp(heights[|heights| - 1], 0.0, 1.0) * gridResolution as real, Vec2(0.0, 1.0))
  {
    if AtRightEnd(x, gridResolution) then
      HeightSample(Clamp(heights[|heights| - 1], 0.0, 1.0) * gridResolution as real, Vec2(0.0, 1.0))
    else
      var i := SegmentIndex(heights, x, gridResolution);
      SegmentSample(e, Clamp(heights[i], 0.0, 1.0), Clamp(heights[i + 1], 0.0, 1.0), i,
                    CorrectedSpacing(heights, gridResolution), CorrectedParameter(heights, x, gridResolution),
                    gridResolution)
  }

  /**
   * The sample inside segment i, whose ends sit at (i offset, h0) and
   * ((i + 1) offset, h1): lerp(h0, h1, t) scaled by res, and the normal
   * (dir.y, dir.x) for the segment's normalized direction dir.
   */
  function SegmentSample(e: Elementary, h0: real, h1: real, i: int, offset: real, t: real, gridResolution: int)
    : HeightSample
  {
    var p0 := Vec2(i as real * offset, h0);
    var p1 := Vec2((i + 1) as real * offset, h1);
    var dir := e.normalize(Sub(p1, p0));
    HeightSample(Lerp(h0, h1, t) * gridResolution as real, Vec2(dir.y, dir.x))
  }

  // ---- the height field ----

  /** res / (heightLength - 1): the distance between two neighbouring heights. */
  function CorrectedSpacing(heights: seq<real>, gridResolution: int): real
    requires 2 <= |heights|
  {
    gridResolution as real / (|heights| - 1) as real
  }

  /** t = (x - i offset) / offset with the corrected spacing: where x lies within its segment. */
  function CorrectedParameter(heights: seq<real>, x: real, gridResolution: int): real
    requires LerpDefined(heights, x, gridResolution) && !AtRightEnd(x, gridResolution)
  {
    var offset := CorrectedSpacing(heights, gridResolution);
    (x - SegmentIndex(heights, x, gridResolution) as real * offset) / offset
  }


  /** Every x in [0, res) falls in a segment whose two heights exist. */
  lemma SegmentInRange(heights: seq<real>, x: real, gridResolution: int)
    requires 0 < gridResolution && 2 <= |heights| && 0.0 <= x < gridResolution as real
    ensures LerpDefined(heights, x, gridResolution)
  {
    var res := gridResolution as real;
    var n := |heights| - 1;
    var q := x / res;
    ScaledOrder(q, 1.0, res, x, res);
    ProductNonNegative(q, n as real);
    ScaledOrder(q, 1.0, n as real, q * n as real, n as real);
    FloorBelow(q * n as real, n);
  }

  /** A real in [0, n) has its floor in [0, n - 1]. */
  lemma FloorBelow(r: real, n: int)
    requires 0.0 <= r < n as real
    ensures 0 <= r.Floor && r.Floor + 1 <= n
  {
  }

  /** With the corrected spacing, t = x / offset - i lies in [0, 1). */
  lemma CorrectedParameterInUnitInterval(heights: seq<real>, x: real, gridResolution: int)
    requires LerpDefined(heights, x, gridResolution) && !AtRightEnd(x, gridResolution)
    ensures 0.0 <= CorrectedParameter(heights, x, gridResolution) < 1.0
  {
    var i := SegmentIndex(heights, x, gridResolution);
    var q := x / gridResolution as real * (|heights| - 1) as real;
    assert i == q.Floor;
    assert i as real <= q < i as real + 1.0;
    SpacingAlgebra(x, gridResolution as real, (|heights| - 1) as real, i as real);
    assert CorrectedParameter(heights, x, gridResolution) == q - i as real;
  }

  /** (x - i (r / n)) / (r / n) = x / r * n - i. */
  lemma SpacingAlgebra(x: real, r: real, n: real, i: real)
    requires r != 0.0 && 0.0 < n
    ensures (x - i * (r / n)) / (r / n) == x / r * n - i
  {
    var o := r / n;
    assert o * n == r;
    assert o != 0.0;
    assert (x - i * o) / o == x / o - i;
    assert (x / r * n) * o == x;
  }

  /** lerp(h0, h1, t) for t in [0, 1] lies between h0 and h1. */
  lemma LerpBetween(h0: real, h1: real, t: real)
    requires 0.0 <= t <= 1.0
    ensures Min(h0, h1) <= Lerp(h0, h1, t) <= Max(h0, h1)
  {
    if h0 <= h1 {
      FractionBetween(t, h1 - h0);
    } else {
      FractionBetween(t, h0 - h1);
      assert t * (h1 - h0) == -(t * (h0 - h1));
    }
  }

  /**
   * Away from the right end the corrected height is lerp(h0, h1, t) res for
   * the segment's two clamped heights and a t in [0, 1).
   */
  lemma CorrectedSegmentHeight(e: Elementary, heights: seq<real>, x: real, gridResolution: int)
    requires LerpDefined(heights, x, gridResolution) && !AtRightEnd(x, gridResolution)
    ensures var i := SegmentIndex(heights, x, gridResolution);
      var h0, h1 := Clamp(heights[i], 0.0, 1.0), Clamp(heights[i + 1], 0.0, 1.0);
      var t := CorrectedParameter(heights, x, gridResolution);
      && 0.0 <= t < 1.0
      && LerpHeightCorrected(e, heights, x, gridResolution).height == Lerp(h0, h1, t) * gridResolution as real
  {
    CorrectedParameterInUnitInterval(heights, x, gridResolution);
  }

  /**
   * The corrected ground is never below 0 nor above res: every clamped height
   * is in [0, 1] and each sample interpolates two of them, scaled by res.
   */
  lemma CorrectedHeightBounded(e: Elementary, heights: seq<real>, x: real, gridResolution: int)
    requires LerpDefined(heights, x, gridResolution) && 0 < gridResolution
    ensures 0.0 <= LerpHeightCorrected(e, heights, x, gridResolution).height <= gridResolution as real
  {
    var res := gridResolution as real;
    if AtRightEnd(x, gridResolution) {
      var last := Clamp(heights[|heights| - 1], 0.0, 1.0);
      assert LerpHeightCorrected(e, heights, x, gridResolution).height == last * res;
      FractionBetween(last, res);
    } else {
      CorrectedSegmentHeight(e, heights, x, gridResolution);
      var i := SegmentIndex(heights, x, gridResolution);
      var h0, h1 := Clamp(heights[i], 0.0, 1.0), Clamp(heights[i + 1], 0.0, 1.0);
      var t := CorrectedParameter(heights, x, gridResolution);
      ScaledLerpBounded(h0, h1, t, res);
    }
  }

  /** Interpolating two values of [0, 1] and scaling by res >= 0 stays in [0, res]. */
  lemma ScaledLerpBounded(h0: real, h1: real, t: real, res: real)
    requires 0.0 <= h0 <= 1.0 && 0.0 <= h1 <= 1.0 && 0.0 <= t <= 1.0 && 0.0 <= res
    ensures 0.0 <= Lerp(h0, h1, t) * res <= res
  {
    LerpBetween(h0, h1, t);
    FractionBetween(Lerp(h0, h1, t), res);
  }

  /** A level field of height c in [0, 1] is sampled as c res everywhere, right end included. */
  lemma CorrectedLevelField(e: Elementary, heights: seq<real>, x: real, gridResolution: int, c: real)
    requires LerpDefined(heights, x, gridResolution) && 0.0 <= c <= 1.0
    requires forall k :: 0 <= k < |heights| ==> heights[k] == c
    ensures LerpHeightCorrected(e, heights, x, gridResolution).height == c * gridResolution as real
  {
  }

  /**
   * As written, the parameter t is measured with the spacing res / heightLength
   * while the segment is chosen with res / (heightLength - 1): with two
   * heights 0 and 1 on a 64-cell grid, at x = 48 t is 1.5 and the sampled
   * ground is at 96, above the highest point of the field (64).
   */
  lemma LerpHeightOvershoots(e: Elementary)
    ensures LerpDefined([0.0, 1.0], 48.0, 64)
    ensures LerpHeight(e, [0.0, 1.0], 48.0, 64).height == 96.0
  {
    assert SegmentIndex([0.0, 1.0], 48.0, 64) == 0;
  }

  /**
   * As written, the right end is not scaled by res: a level field of height 1
   * on a 64-cell grid is sampled at 64 for x = 63 but at 1 for x = 64.
   */
  lemma LerpHeightEndUnscaled(e: Elementary)
    ensures LerpDefined([1.0, 1.0], 63.0, 64) && LerpDefined([1.0, 1.0], 64.0, 64)
    ensures LerpHeight(e, [1.0, 1.0], 63.0, 64).height == 64.0
    ensures LerpHeight(e, [1.0, 1.0], 64.0, 64).height == 1.0
  {
    assert SegmentIndex([1.0, 1.0], 63.0, 64) == 0;
  }

  /**
   * On a level field LerpHeight returns the normal (0, 1), straight up, and
   * the clamped level c: scaled by res away from the right end, unscaled at it.
   */
  lemma LevelFieldSample(e: Elementary, heights: seq<real>, x: real, gridResolution: int)
    requires Lawful(e) && LerpDefined(heights, x, gridResolution) && 0 < gridResolution
    requires forall k :: 0 <= k < |heights| ==> heights[k] == heights[0]
    ensures var c := Clamp(heights[0], 0.0, 1.0);
      var r := LerpHeight(e, heights, x, gridResolution);
      && r.normal == Vec2(0.0, 1.0)
      && r.height == (if AtRightEnd(x, gridResolution) then c else c * gridResolution as real)
  {
    if !AtRightEnd(x, gridResolution) {
      var i := SegmentIndex(heights, x, gridResolution);
      assert heights[i] == heights[0] && heights[i + 1] == heights[0];
      var offset := gridResolution as real / |heights| as real;
      var c, t := Clamp(heights[0], 0.0, 1.0), (x - i as real * offset) / offset;
      assert LerpHeight(e, heights, x, gridResolution) == SegmentSample(e, c, c, i, offset, t, gridResolution);
      LevelSegmentSample(e, c, i, offset, t, gridResolution);
    }
  }

  /** The corrected sampler, too, returns (0, 1) on a level field, right end included. */
  lemma CorrectedLevelNormalIsUp(e: Elementary, heights: seq<real>, x: real, gridResolution: int)
    requires Lawful(e) && LerpDefined(heights, x, gridResolution) && 0 < gridResolution
    requires forall k :: 0 <= k < |heights| ==> heights[k] == heights[0]
    ensures LerpHeightCorrected(e, heights, x, gridResolution).normal == Vec2(0.0, 1.0)
  {
    if !AtRightEnd(x, gridResolution) {
      var i := SegmentIndex(heights, x, gridResolution);
      assert heights[i] == heights[0] && heights[i + 1] == heights[0];
      LevelSegmentSample(e, Clamp(heights[0], 0.0, 1.0), i, CorrectedSpacing(heights, gridResolution),
                         CorrectedParameter(heights, x, gridResolution), gridResolution);
    }
  }

  /** A level segment of a positive spacing has height h res and normal (0, 1) at every t. */
  lemma LevelSegmentSample(e: Elementary, h: real, i: int, offset: real, t: real, gridResolution: int)
    requires Lawful(e) && 0.0 < offset
    ensures SegmentSample(e, h, h, i, offset, t, gridResolution) == HeightSample(h * gridResolution as real, Vec2(0.0, 1.0))
  {
    NextNodeIsOneSpacingOn(i, offset);
    assert Sub(Vec2((i + 1) as real * offset, h), Vec2(i as real * offset, h)) == Vec2(offset, 0.0);
    NormalizedAlongX(e, offset);
  }

  lemma NextNodeIsOneSpacingOn(i: int, offset: real)
    ensures (i + 1) as real * offset - i as real * offset == offset
  {
  }

  /** A positive multiple of (1, 0) normalizes to (1, 0). */
  lemma NormalizedAlongX(e: Elementary, offset: real)
    requires Lawful(e) && 0.0 < offset
    ensures e.normalize(Vec2(offset, 0.0)) == Vec2(1.0, 0.0)
  {
    SqrtOf(e, SumSq(offset, 0.0), offset);
    var n := e.normalize(Vec2(offset, 0.0));
    assert Scale(offset, n) == Vec2(offset, 0.0);
    ScaledOrder(n.x, 1.0, offset, n.x * offset, offset);
    ScaledOrder(n.y, 0.0, offset, n.y * offset, 0.0);
  }

  // ---- grid collision ----

  /** The Cell record the collision job writes: fixed-point displacement, mass and volume. */
  datatype Cell = Cell(displacement: Int2, mass: int, volume: int)

  /** Both components fit a C# int. */
  predicate Int32Pair(v: Int2) {
    IntMin <= v.x <= IntMax && IntMin <= v.y <= IntMax
  }

  /**
   * The grid position the job recovers from index i: x = i / 64, y = i - 64 x,
   * with the constant 64 whatever the job's resolution field holds.
   */
  function GridPosition(i: int): (p: Vec2)
    ensures p.x * ControllerResolution as real + p.y == i as real
    ensures 0 <= i ==> 0.0 <= p.x && 0.0 <= p.y < ControllerResolution as real
  {
    var x := DynamicsKernel.TruncDiv(i, ControllerResolution);
    var y := i - x * ControllerResolution;
    Vec2(x as real, y as real)
  }

  /** The cell's position moved by its decoded displacement. */
  function DisplacedGridPosition(cell: Cell, i: int, multiplier: nat): Vec2
    requires 0 < multiplier
  {
    Add(GridPosition(i), DecodeFixedPointVec(cell.displacement, multiplier))
  }

  /** Whether a cell is below the ground, how hard it is pushed back, and along which normal. */
  datatype Contact = Contact(collides: bool, impulse: real, normal: Vec2)

  /**
   * The cell collides when its displaced position is below the ground. The
   * normal is the negated ground normal; the gap is min(0, n . (point - gridPosition))
   * for the ground point above the displaced position, and the impulse is
   * max(n . displacement - gap, 0).
   */
  function GridContact(e: Elementary, cell: Cell, i: int, multiplier: nat, heights: seq<real>, resolution: int)
    : (c: Contact)
    requires 0 < multiplier && LerpDefined(heights, DisplacedGridPosition(cell, i, multiplier).x, resolution)
    ensures 0.0 <= c.impulse
    ensures !c.collides ==> c.impulse == 0.0
  {
    var gridPosition := GridPosition(i);
    var displacement := DecodeFixedPointVec(cell.displacement, multiplier);
    var displaced := DisplacedGridPosition(cell, i, multiplier);
    var sample := LerpHeight(e, heights, displaced.x, resolution);
    var normal := Neg(sample.normal);
    if displaced.y < sample.height then
      var point := Vec2(displaced.x, sample.height);
      var gap := Min(0.0, Dot(normal, Sub(point, gridPosition)));
      var gridPenetration := Dot(normal, displacement) - gap;
      Contact(true, Max(gridPenetration, 0.0), normal)
    else
      Contact(false, 0.0, normal)
  }

  /** The decoded displacement after the correction: d - (1 - relaxation) impulse n when colliding. */
  function CorrectedCellDisplacement(e: Elementary, cell: Cell, i: int, multiplier: nat, relaxation: real,
                                     heights: seq<real>, resolution: int): Vec2
    requires 0 < multiplier && LerpDefined(heights, DisplacedGridPosition(cell, i, multiplier).x, resolution)
  {
    var displacement := DecodeFixedPointVec(cell.displacement, multiplier);
    var contact := GridContact(e, cell, i, multiplier, heights, resolution);
    if contact.collides then Sub(displacement, Scale(1.0 - relaxation, Scale(contact.impulse, contact.normal)))
    else displacement
  }

  /**
   * What the job demands of cell i: a positive multiplier, an int2
   * displacement, a ground height at its displaced x, and a corrected
   * displacement that encodes without overflow.
   */
  predicate GridCollideDefined(e: Elementary, cell: Cell, i: int, multiplier: nat, relaxation: real,
                               heights: seq<real>, resolution: int) {
    && 0 < multiplier
    && Int32Pair(cell.displacement)
    && LerpDefined(heights, DisplacedGridPosition(cell, i, multiplier).x, resolution)
    && EncodableVec(CorrectedCellDisplacement(e, cell, i, multiplier, relaxation, heights, resolution), multiplier)
  }

  /** Cell i after the grid collision job: only its displacement is rewritten. */
  function GridCollide(e: Elementary, cell: Cell, i: int, multiplier: nat, relaxation: real,
                       heights: seq<real>, resolution: int): (c: Cell)
    requires GridCollideDefined(e, cell, i, multiplier, relaxation, heights, resolution)
    ensures c.mass == cell.mass && c.volume == cell.volume
  {
    var d := CorrectedCellDisplacement(e, cell, i, multiplier, relaxation, heights, resolution);
    cell.(displacement := EncodeFixedPointVec(d, multiplier))
  }

  /**
   * A cell that is not below the ground, is not pushed (impulse 0), or is
   * fully relaxed keeps its displacement exactly: decoding and re-encoding an
   * int gives back the int.
   */
  lemma GridCollideKeepsUnpushedCells(e: Elementary, cell: Cell, i: int, multiplier: nat, relaxation: real,
                                      heights: seq<real>, resolution: int)
    requires GridCollideDefined(e, cell, i, multiplier, relaxation, heights, resolution)
    requires var c := GridContact(e, cell, i, multiplier, heights, resolution);
      !c.collides || c.impulse == 0.0 || relaxation == 1.0
    ensures GridCollide(e, cell, i, multiplier, relaxation, heights, resolution) == cell
  {
    var d := DecodeFixedPointVec(cell.displacement, multiplier);
    assert CorrectedCellDisplacement(e, cell, i, multiplier, relaxation, heights, resolution) == d;
    EncodeDecode(cell.displacement.x, multiplier);
    EncodeDecode(cell.displacement.y, multiplier);
  }

  /**
   * The cell's new decoded displacement is within one fixed-point step
   * (1 / multiplier) of the corrected displacement on each axis: the encoding
   * truncates, nothing else is lost.
   */
  lemma GridCollideCorrection(e: Elementary, cell: Cell, i: int, multiplier: nat, relaxation: real,
                              heights: seq<real>, resolution: int)
    requires GridCollideDefined(e, cell, i, multiplier, relaxation, heights, resolution)
    ensures var target := CorrectedCellDisplacement(e, cell, i, multiplier, relaxation, heights, resolution);
      var got := DecodeFixedPointVec(GridCollide(e, cell, i, multiplier, relaxation, heights, resolution).displacement,
                                     multiplier);
      WithinOneStep(got, target, multiplier)
  {
    var target := CorrectedCellDisplacement(e, cell, i, multiplier, relaxation, heights, resolution);
    assert GridCollide(e, cell, i, multiplier, relaxation, heights, resolution).displacement
        == EncodeFixedPointVec(target, multiplier);
    DecodeEncodeVecError(target, multiplier);
  }

  /** On the controller's own 64 x 64 grid the job recovers the cell (x, y) from its index. */
  lemma GridPositionOfCellIndex(c: UInt2)
    requires c.x as int < ControllerResolution && c.y as int < ControllerResolution
    ensures var i := DynamicsKernel.GetCellIndex(ControllerResolution, c);
      0 <= i < ControllerResolution * ControllerResolution && GridPosition(i) == Vec2(c.x as real, c.y as real)
  {
    DynamicsKernel.CellIndexInRange(ControllerResolution, c);
    DynamicsKernel.CellIndexDecodes(ControllerResolution, c);
  }

  /**
   * The decode ignores the job's resolution: on a 32 x 32 grid the cell
   * (1, 0) has index 32, which the job places at (0, 32).
   */
  lemma GridPositionAssumes64()
    ensures DynamicsKernel.GetCellIndex(32, UInt2(1, 0)) == 32
    ensures GridPosition(32) == Vec2(0.0, 32.0)
  {
  }

  /** The grid collision job: Execute(i) corrects cell i in place. */
  class GridCollisionJob {
    const grid: array<Cell>
    const fixedPointMultiplier: nat
    const relaxation: real
    const heights: seq<real>
    const resolution: int
    const deltaTime: real
    const elementary: Elementary

    constructor (grid: array<Cell>, fixedPointMultiplier: nat, relaxation: real, heights: seq<real>,
                 resolution: int, deltaTime: real, elementary: Elementary)
      ensures this.grid == grid && this.fixedPointMultiplier == fixedPointMultiplier
      ensures this.relaxation == relaxation && this.heights == heights && this.resolution == resolution
      ensures this.deltaTime == deltaTime && this.elementary == elementary
    {
      this.grid := grid;
      this.fixedPointMultiplier := fixedPointMultiplier;
      this.relaxation := relaxation;
      this.heights := heights;
      this.resolution := resolution;
      this.deltaTime := deltaTime;
      this.elementary := elementary;
    }

    /** Cell i becomes GridCollide of itself; no other cell is touched. */
    method Execute(i: int)
      requires 0 <= i < grid.Length
      requires GridCollideDefined(elementary, grid[i], i, fixedPointMultiplier, relaxation, heights, resolution)
      modifies grid
      ensures grid[..] == old(grid[..])[i := GridCollide(elementary, old(grid[i]), i, fixedPointMultiplier,
                                                         relaxation, heights, resolution)]
    {
      var cell := grid[i];
      var displacement := CorrectedCellDisplacement(elementary, cell, i, fixedPointMultiplier, relaxation, heights,
                                                    resolution);
      grid[i] := cell.(displacement := EncodeFixedPointVec(displacement, fixedPointMultiplier));
    }
  }

  /** Every cell i of the grid after one run of the grid collision job over all indices. */
  function GridCollisions(e: Elementary, cells: seq<Cell>, multiplier: nat, relaxation: real,
                          heights: seq<real>, resolution: int): (r: seq<Cell>)
    requires forall j :: 0 <= j < |cells| ==> GridCollideDefined(e, cells[j], j, multiplier, relaxation, heights, resolution)
    ensures |r| == |cells|
    ensures forall j :: 0 <= j < |r| ==> r[j].mass == cells[j].mass && r[j].volume == cells[j].volume
  {
    seq(|cells|, j requires 0 <= j < |cells| => GridCollide(e, cells[j], j, multiplier, relaxation, heights, resolution))
  }

  /** With relaxation 1 the grid collision pass changes nothing. */
  lemma FullyRelaxedGridUnchanged(e: Elementary, cells: seq<Cell>, multiplier: nat, heights: seq<real>, resolution: int)
    requires forall j :: 0 <= j < |cells| ==> GridCollideDefined(e, cells[j], j, multiplier, 1.0, heights, resolution)
    ensures GridCollisions(e, cells, multiplier, 1.0, heights, resolution) == cells
  {
    forall j | 0 <= j < |cells|
      ensures GridCollide(e, cells[j], j, multiplier, 1.0, heights, resolution) == cells[j]
    {
      GridCollideKeepsUnpushedCells(e, cells[j], j, multiplier, 1.0, heights, resolution);
    }
  }

  // ---- particle collision ----

  /**
   * The particle job's response to the ground sample at the particle's x: a
   * particle below the ground (position.y < height) has its displacement
   * decreased by |height - y| n (1 - relaxation) for the negated ground normal
   * n; any other particle is left as it is.
   */
  function ParticleCollide(p: Particle, relaxation: real, sample: HeightSample): (q: Particle)
    ensures q == p.(displacement := q.displacement)
    ensures p.position.y >= sample.height ==> q == p
  {
    var normal := Neg(sample.normal);
    var penetration := Abs(sample.height - p.position.y);
    if p.position.y < sample.height then
      p.(displacement := Sub(p.displacement, Scale(1.0 - relaxation, Scale(penetration, normal))))
    else
      p
  }

  /**
   * A particle below the ground is pushed along the ground normal by
   * (1 - relaxation) times its depth below the ground; fully relaxed, it is
   * not moved at all.
   */
  lemma ParticlePushedByDepth(p: Particle, relaxation: real, sample: HeightSample)
    ensures var q := ParticleCollide(p, relaxation, sample);
      && (p.position.y < sample.height ==>
            q.displacement == Add(p.displacement, Scale((1.0 - relaxation) * (sample.height - p.position.y), sample.normal)))
      && (relaxation == 1.0 ==> q == p)
  {
    var q := ParticleCollide(p, relaxation, sample);
    if p.position.y < sample.height {
      assert q.displacement
          == Sub(p.displacement, Scale(1.0 - relaxation, Scale(Abs(sample.height - p.position.y), Neg(sample.normal))));
      PushAlongNormal(p.displacement, relaxation, sample.height - p.position.y, sample.normal);
    }
  }

  /** Subtracting a relaxed push against the negated normal adds it along the normal; fully relaxed it is nothing. */
  lemma PushAlongNormal(displacement: Vec2, relaxation: real, depth: real, normal: Vec2)
    requires 0.0 < depth
    ensures Sub(displacement, Scale(1.0 - relaxation, Scale(Abs(depth), Neg(normal))))
         == Add(displacement, Scale((1.0 - relaxation) * depth, normal))
    ensures relaxation == 1.0 ==> Add(displacement, Scale((1.0 - relaxation) * depth, normal)) == displacement
  {
    ScaleScaleNeg(1.0 - relaxation, depth, normal);
  }

  /**
   * On level ground a particle below the surface the job samples is pushed
   * straight up, by (1 - relaxation) times its depth.
   */
  lemma LevelGroundPushesUp(e: Elementary, p: Particle, relaxation: real, heights: seq<real>, resolution: int)
    requires Lawful(e) && LerpDefined(heights, p.position.x, resolution) && 0 < resolution
    requires forall k :: 0 <= k < |heights| ==> heights[k] == heights[0]
    ensures var height := LerpHeight(e, heights, p.position.x, resolution).height;
      var q := ParticleCollide(p, relaxation, LerpHeight(e, heights, p.position.x, resolution));
      p.position.y < height ==>
        q.displacement == Vec2(p.displacement.x, p.displacement.y + (1.0 - relaxation) * (height - p.position.y))
  {
    LevelFieldSample(e, heights, p.position.x, resolution);
    ParticlePushedByDepth(p, relaxation, LerpHeight(e, heights, p.position.x, resolution));
  }

  /**
   * As written, a particle at (48, 70) over the field [0, 1] on a 64-cell grid
   * lies above the field's highest point (64) and is still pushed, by
   * (1 - relaxation) 26 along the normal, since the sampled ground is at 96.
   */
  lemma ParticleAboveFieldPushed(e: Elementary, p: Particle, relaxation: real)
    requires p.position == Vec2(48.0, 70.0)
    ensures LerpDefined([0.0, 1.0], 48.0, 64)
    ensures ParticleCollide(p, relaxation, LerpHeight(e, [0.0, 1.0], 48.0, 64)).displacement
         == Add(p.displacement, Scale((1.0 - relaxation) * 26.0, LerpHeight(e, [0.0, 1.0], 48.0, 64).normal))
  {
    LerpHeightOvershoots(e);
    ParticlePushedByDepth(p, relaxation, LerpHeight(e, [0.0, 1.0], 48.0, 64));
  }

  /** With the corrected sampler a particle at or above height res is never pushed. */
  lemma CorrectedGroundBelowTop(e: Elementary, p: Particle, relaxation: real, heights: seq<real>, resolution: int)
    requires LerpDefined(heights, p.position.x, resolution) && 0 < resolution
    requires resolution as real <= p.position.y
    ensures ParticleCollide(p, relaxation, LerpHeightCorrected(e, heights, p.position.x, resolution)) == p
  {
    CorrectedHeightBounded(e, heights, p.position.x, resolution);
  }

  /** The particle collision job: Execute(i) corrects particle i in place. */
  class ParticleCollisionJob {
    const particles: array<Particle>
    const relaxation: real
    const heights: seq<real>
    const resolution: int
    const deltaTime: real
    const elementary: Elementary

    constructor (particles: array<Particle>, relaxation: real, heights: seq<real>, resolution: int,
                 deltaTime: real, elementary: Elementary)
      ensures this.particles == particles && this.relaxation == relaxation && this.heights == heights
      ensures this.resolution == resolution && this.deltaTime == deltaTime && this.elementary == elementary
    {
      this.particles := particles;
      this.relaxation := relaxation;
      this.heights := heights;
      this.resolution := resolution;
      this.deltaTime := deltaTime;
      this.elementary := elementary;
    }

    /** Particle i becomes ParticleCollide of itself and its ground sample; no other particle is touched. */
    method Execute(i: int)
      requires 0 <= i < particles.Length && LerpDefined(heights, particles[i].position.x, resolution)
      modifies particles
      ensures particles[..] == old(particles[..])[i := ParticleCollide(old(particles[i]), relaxation,
                                                                       LerpHeight(elementary, heights, old(particles[i]).position.x, resolution))]
    {
      var sample := LerpHeight(elementary, heights, particles[i].position.x, resolution);
      if particles[i].position.y < sample.height {
        particles[i] := ParticleCollide(particles[i], relaxation, sample);
      }
    }
  }

  /** Every particle after one run of the particle collision job over all indices. */
  function ParticleCollisions(e: Elementary, ps: seq<Particle>, relaxation: real, heights: seq<real>, resolution: int)
    : (r: seq<Particle>)
    requires forall j :: 0 <= j < |ps| ==> LerpDefined(heights, ps[j].position.x, resolution)
    ensures |r| == |ps|
    ensures forall j :: 0 <= j < |r| ==> r[j] == ps[j].(displacement := r[j].displacement)
  {
    seq(|ps|, j requires 0 <= j < |ps| => ParticleCollide(ps[j], relaxation, LerpHeight(e, heights, ps[j].position.x, resolution)))
  }

  /** With relaxation 1 the particle collision pass changes nothing. */
  lemma FullyRelaxedParticlesUnchanged(e: Elementary, ps: seq<Particle>, heights: seq<real>, resolution: int)
    requires forall j :: 0 <= j < |ps| ==> LerpDefined(heights, ps[j].position.x, resolution)
    ensures ParticleCollisions(e, ps, 1.0, heights, resolution) == ps
  {
    forall j | 0 <= j < |ps|
      ensures ParticleCollide(ps[j], 1.0, LerpHeight(e, heights, ps[j].position.x, resolution)) == ps[j]
    {
      ParticlePushedByDepth(ps[j], 1.0, LerpHeight(e, heights, ps[j].position.x, resolution));
    }
  }

  // ---- the controller ----

  // ---------------------------------------------------------------------
  // Oriented-box collision
  // ---------------------------------------------------------------------

  datatype CollideResult = CollideResult(collides: bool, penetration: real, normal: Vec2, point: Vec2)

  /** The box's rotation matrix; the rotation is given in degrees. */
  function BoxRotation(e: Elementary, shapeRotation: real): Mat2 {
    Rotate(e, shapeRotation * ToRadians)
  }

  /** A position expressed in a box frame: the rotated offset from the box centre. */
  function FrameOffset(rotation: Mat2, shapePosition: Vec2, position: Vec2): Vec2 {
    MulVec(rotation, Sub(position, shapePosition))
  }

  /** A position expressed in the frame of a box rotated by shapeRotation degrees. */
  function BoxFrameOffset(e: Elementary, shapePosition: Vec2, shapeRotation: real, position: Vec2): Vec2 {
    FrameOffset(BoxRotation(e, shapeRotation), shapePosition, position)
  }

  /** Per-axis penetration: how far inside each pair of faces the offset lies (negative outside). */
  function PenetrationDepths(offset: Vec2, shapeHalfSize: Vec2): Vec2 {
    Neg(Sub(AbsVec(offset), shapeHalfSize))
  }

  /**
   * The result shared by both axis choices: the smaller penetration, the
   * chosen box-frame axis turned back into world space and negated, and the
   * offset clamped onto the box and turned back into world space.
   */
  function BoxResult(rotation: Mat2, shapePosition: Vec2, shapeHalfSize: Vec2, position: Vec2,
                     localNormal: Vec2): CollideResult
  {
    var offset := FrameOffset(rotation, shapePosition, position);
    var depths := PenetrationDepths(offset, shapeHalfSize);
    var minPen := Min(depths.x, depths.y);
    var pointOnBox := Add(shapePosition, MulVec(Transpose(rotation), ClampVec(offset, Neg(shapeHalfSize), shapeHalfSize)));
    CollideResult(minPen > 0.0, minPen, Neg(MulVec(Transpose(rotation), localNormal)), pointOnBox)
  }

  /** The as-written axis choice in a given box frame: x when the y penetration is the smaller one. */
  function BoxCollideInFrame(rotation: Mat2, shapePosition: Vec2, shapeHalfSize: Vec2, position: Vec2): CollideResult {
    var offset := FrameOffset(rotation, shapePosition, position);
    var depths := PenetrationDepths(offset, shapeHalfSize);
    var localNormal := if depths.y < depths.x then Vec2(Sign(offset.x), 0.0) else Vec2(0.0, Sign(offset.y));
    BoxResult(rotation, shapePosition, shapeHalfSize, position, localNormal)
  }

  /** The corrected axis choice in a given box frame: the axis of least penetration. */
  function BoxCollideCorrectedInFrame(rotation: Mat2, shapePosition: Vec2, shapeHalfSize: Vec2, position: Vec2)
    : CollideResult
  {
    var offset := FrameOffset(rotation, shapePosition, position);
    var depths := PenetrationDepths(offset, shapeHalfSize);
    var localNormal := if depths.y < depths.x then Vec2(0.0, Sign(offset.y)) else Vec2(Sign(offset.x), 0.0);
    BoxResult(rotation, shapePosition, shapeHalfSize, position, localNormal)
  }

  /**
   * BoxCollide as written: the box-frame normal is taken along x when the y
   * penetration is the smaller one, and along y otherwise.
   */
  function BoxCollide(e: Elementary, shapePosition: Vec2, shapeRotation: real, shapeHalfSize: Vec2,
                      position: Vec2): (r: CollideResult)
    ensures var o := BoxFrameOffset(e, shapePosition, shapeRotation, position);
      && (r.collides <==> Abs(o.x) < shapeHalfSize.x && Abs(o.y) < shapeHalfSize.y)
      && r.penetration == Min(shapeHalfSize.x - Abs(o.x), shapeHalfSize.y - Abs(o.y))
  {
    BoxCollideInFrame(BoxRotation(e, shapeRotation), shapePosition, shapeHalfSize, position)
  }

  /** BoxCollide with the normal along the axis of least penetration. */
  function BoxCollideCorrected(e: Elementary, shapePosition: Vec2, shapeRotation: real, shapeHalfSize: Vec2,
                               position: Vec2): (r: CollideResult)
    ensures var o := BoxFrameOffset(e, shapePosition, shapeRotation, position);
      && (r.collides <==> Abs(o.x) < shapeHalfSize.x && Abs(o.y) < shapeHalfSize.y)
      && r.penetration == Min(shapeHalfSize.x - Abs(o.x), shapeHalfSize.y - Abs(o.y))
  {
    BoxCollideCorrectedInFrame(BoxRotation(e, shapeRotation), shapePosition, shapeHalfSize, position)
  }

  /**
   * The contact depth is the smaller of the two face depths, so it is
   * positive exactly when the position is strictly inside the box.
   */
  lemma BoxResultDepth(rotation: Mat2, shapePosition: Vec2, shapeHalfSize: Vec2, position: Vec2, localNormal: Vec2)
    ensures var r := BoxResult(rotation, shapePosition, shapeHalfSize, position, localNormal);
      var o := FrameOffset(rotation, shapePosition, position);
      && (r.collides <==> 0.0 < r.penetration)
      && (r.collides <==> Abs(o.x) < shapeHalfSize.x && Abs(o.y) < shapeHalfSize.y)
      && r.penetration <= shapeHalfSize.x - Abs(o.x) && r.penetration <= shapeHalfSize.y - Abs(o.y)
      && (r.penetration == shapeHalfSize.x - Abs(o.x) || r.penetration == shapeHalfSize.y - Abs(o.y))
  {
  }

  /** The reported point always lies on the closed box. */
  lemma BoxPointOnBox(e: Elementary, shapePosition: Vec2, shapeRotation: real, shapeHalfSize: Vec2, position: Vec2,
                      localNormal: Vec2)
    requires Lawful(e)
    requires 0.0 <= shapeHalfSize.x && 0.0 <= shapeHalfSize.y
    ensures var r := BoxResult(BoxRotation(e, shapeRotation), shapePosition, shapeHalfSize, position, localNormal);
      var o := BoxFrameOffset(e, shapePosition, shapeRotation, r.point);
      Abs(o.x) <= shapeHalfSize.x && Abs(o.y) <= shapeHalfSize.y
  {
    var offset := BoxFrameOffset(e, shapePosition, shapeRotation, position);
    var clamped := ClampVec(offset, Neg(shapeHalfSize), shapeHalfSize);
    RotationOrthogonal(e, shapeRotation * ToRadians, clamped);
  }

  /** A colliding position is its own contact point: clamping leaves an inside offset alone. */
  lemma BoxCollideInsidePoint(e: Elementary, shapePosition: Vec2, shapeRotation: real, shapeHalfSize: Vec2,
                              position: Vec2, localNormal: Vec2)
    requires Lawful(e)
    ensures var r := BoxResult(BoxRotation(e, shapeRotation), shapePosition, shapeHalfSize, position, localNormal);
      r.collides ==> r.point == position
  {
    var offset := BoxFrameOffset(e, shapePosition, shapeRotation, position);
    var r := BoxResult(BoxRotation(e, shapeRotation), shapePosition, shapeHalfSize, position, localNormal);
    if r.collides {
      assert ClampVec(offset, Neg(shapeHalfSize), shapeHalfSize) == offset;
      RotationOrthogonal(e, shapeRotation * ToRadians, Sub(position, shapePosition));
    }
  }

  /** Where a colliding position ends up when moved back by the penetration along the normal. */
  function PushedOut(r: CollideResult, position: Vec2): Vec2 {
    Sub(position, Scale(r.penetration, r.normal))
  }

  /** Moving a position by k times a rotated-back axis moves its rotated offset by k times that axis. */
  lemma RotatedMove(e: Elementary, angle: real, shapePosition: Vec2, position: Vec2, k: real, localNormal: Vec2)
    requires Lawful(e)
    ensures var rotation := Rotate(e, angle);
      MulVec(rotation, Sub(Sub(position, Scale(k, Neg(MulVec(Transpose(rotation), localNormal)))), shapePosition))
        == Add(MulVec(rotation, Sub(position, shapePosition)), Scale(k, localNormal))
  {
    var rotation := Rotate(e, angle);
    var back := MulVec(Transpose(rotation), localNormal);
    assert Sub(Sub(position, Scale(k, Neg(back))), shapePosition) == Add(Sub(position, shapePosition), Scale(k, back));
    MulVecLinear(rotation, Sub(position, shapePosition), k, back);
    RotationOrthogonal(e, angle, localNormal);
  }

  /** In the box frame, pushing out adds the penetration times the box-frame axis to the offset. */
  lemma PushedOutInBoxFrame(e: Elementary, shapePosition: Vec2, shapeRotation: real, shapeHalfSize: Vec2,
                            position: Vec2, localNormal: Vec2)
    requires Lawful(e)
    ensures var r := BoxResult(BoxRotation(e, shapeRotation), shapePosition, shapeHalfSize, position, localNormal);
      BoxFrameOffset(e, shapePosition, shapeRotation, PushedOut(r, position))
        == Add(BoxFrameOffset(e, shapePosition, shapeRotation, position), Scale(r.penetration, localNormal))
  {
    var r := BoxResult(BoxRotation(e, shapeRotation), shapePosition, shapeHalfSize, position, localNormal);
    var rotation := BoxRotation(e, shapeRotation);
    assert r.normal == Neg(MulVec(Transpose(rotation), localNormal));
    RotatedMove(e, shapeRotation * ToRadians, shapePosition, position, r.penetration, localNormal);
  }

  /** Moving an off-axis coordinate by its own depth toward its sign puts it on the face. */
  lemma PushedOntoFace(o: real, halfSize: real, k: real)
    requires o != 0.0 && Abs(o) < halfSize && k == halfSize - Abs(o)
    ensures Abs(o + k * Sign(o)) == halfSize
  {
    if 0.0 < o {
      assert o + k * Sign(o) == halfSize;
    } else {
      assert o + k * Sign(o) == -halfSize;
    }
  }

  /** In the box frame: an inside offset moved by its depth along the matching axis reaches that face. */
  lemma PushedOntoBox(o: Vec2, halfSize: Vec2, k: real, localNormal: Vec2)
    requires o.x != 0.0 && o.y != 0.0 && Abs(o.x) < halfSize.x && Abs(o.y) < halfSize.y
    requires || (localNormal == Vec2(0.0, Sign(o.y)) && k == halfSize.y - Abs(o.y))
             || (localNormal == Vec2(Sign(o.x), 0.0) && k == halfSize.x - Abs(o.x))
    ensures var p := Add(o, Scale(k, localNormal));
      || (Abs(p.x) == halfSize.x && Abs(p.y) < halfSize.y)
      || (Abs(p.y) == halfSize.y && Abs(p.x) < halfSize.x)
  {
    if localNormal == Vec2(0.0, Sign(o.y)) && k == halfSize.y - Abs(o.y) {
      assert Add(o, Scale(k, localNormal)) == Vec2(o.x, o.y + k * Sign(o.y));
      PushedOntoFace(o.y, halfSize.y, k);
    } else {
      assert Add(o, Scale(k, localNormal)) == Vec2(o.x + k * Sign(o.x), o.y);
      PushedOntoFace(o.x, halfSize.x, k);
    }
  }

  /**
   * Corrected: a colliding position off both box axes, pushed out by the
   * penetration along the normal, lands on a face of the box.
   */
  lemma BoxCollideCorrectedResolves(e: Elementary, shapePosition: Vec2, shapeRotation: real, shapeHalfSize: Vec2,
                                    position: Vec2)
    requires Lawful(e)
    requires var o := BoxFrameOffset(e, shapePosition, shapeRotation, position); o.x != 0.0 && o.y != 0.0
    ensures var r := BoxCollideCorrected(e, shapePosition, shapeRotation, shapeHalfSize, position);
      var o := BoxFrameOffset(e, shapePosition, shapeRotation, PushedOut(r, position));
      r.collides ==>
        || (Abs(o.x) == shapeHalfSize.x && Abs(o.y) < shapeHalfSize.y)
        || (Abs(o.y) == shapeHalfSize.y && Abs(o.x) < shapeHalfSize.x)
  {
    var rotation := BoxRotation(e, shapeRotation);
    var offset := BoxFrameOffset(e, shapePosition, shapeRotation, position);
    var depths := PenetrationDepths(offset, shapeHalfSize);
    var localNormal := if depths.y < depths.x then Vec2(0.0, Sign(offset.y)) else Vec2(Sign(offset.x), 0.0);
    var r := BoxCollideCorrected(e, shapePosition, shapeRotation, shapeHalfSize, position);
    assert r == BoxResult(rotation, shapePosition, shapeHalfSize, position, localNormal);
    BoxResultDepth(rotation, shapePosition, shapeHalfSize, position, localNormal);
    if r.collides {
      PushedOutInBoxFrame(e, shapePosition, shapeRotation, shapeHalfSize, position, localNormal);
      PushedOntoBox(offset, shapeHalfSize, r.penetration, localNormal);
    }
  }

  /** An unrotated box's frame is the world frame shifted to the box centre. */
  lemma UnrotatedBoxFrame(e: Elementary, shapePosition: Vec2, position: Vec2)
    requires Lawful(e)
    ensures BoxRotation(e, 0.0) == Identity
    ensures BoxFrameOffset(e, shapePosition, 0.0, position) == Sub(position, shapePosition)
  {
    assert 0.0 * ToRadians == 0.0;
    assert BoxRotation(e, 0.0) == Identity;
  }

  /** An unrotated box collides in the world frame shifted to its centre. */
  lemma BoxCollideUnrotated(e: Elementary, shapePosition: Vec2, shapeHalfSize: Vec2, position: Vec2)
    requires Lawful(e)
    ensures BoxCollide(e, shapePosition, 0.0, shapeHalfSize, position)
         == BoxCollideInFrame(Identity, shapePosition, shapeHalfSize, position)
    ensures BoxCollideCorrected(e, shapePosition, 0.0, shapeHalfSize, position)
         == BoxCollideCorrectedInFrame(Identity, shapePosition, shapeHalfSize, position)
  {
    UnrotatedBoxFrame(e, shapePosition, position);
  }

  /**
   * As written, for an unrotated unit box: a point just below the top face
   * gets the shallow top-face depth 0.1 but a normal along -x, which points
   * at neither of the faces nearest to it.
   */
  lemma BoxCollideNormalAxisSwapped()
    ensures var r := BoxCollideInFrame(Identity, Zero2, Vec2(1.0, 1.0), Vec2(0.5, 0.9));
      r.collides && r.penetration == 0.1 && r.normal == Vec2(-1.0, 0.0)
  {
    var position := Vec2(0.5, 0.9);
    assert FrameOffset(Identity, Zero2, position) == position;
    assert PenetrationDepths(position, Vec2(1.0, 1.0)) == Vec2(0.5, 0.1);
  }

  /**
   * So pushing that point out by the reported penetration along the reported
   * normal moves it sideways, to (0.6, 0.9): a point still strictly inside the
   * box, for which UnitBoxHolds shows the box still reports a collision.
   */
  lemma SidewaysPushStaysInside()
    ensures PushedOut(BoxCollideInFrame(Identity, Zero2, Vec2(1.0, 1.0), Vec2(0.5, 0.9)), Vec2(0.5, 0.9)) == Vec2(0.6, 0.9)
  {
    BoxCollideNormalAxisSwapped();
    PushBySwappedNormal(BoxCollideInFrame(Identity, Zero2, Vec2(1.0, 1.0), Vec2(0.5, 0.9)));
  }

  lemma PushBySwappedNormal(r: CollideResult)
    requires r.penetration == 0.1 && r.normal == Vec2(-1.0, 0.0)
    ensures PushedOut(r, Vec2(0.5, 0.9)) == Vec2(0.6, 0.9)
  {
  }

  /** The unrotated unit box at the origin reports a collision for a point strictly inside it. */
  lemma UnitBoxHolds(q: Vec2)
    requires Abs(q.x) < 1.0 && Abs(q.y) < 1.0
    ensures BoxCollideInFrame(Identity, Zero2, Vec2(1.0, 1.0), q).collides
  {
    assert FrameOffset(Identity, Zero2, q) == q;
  }

  /** The collision solver: a relaxation factor in [0, 1] and the height field. */
  class FakeTerrainController {
    var relaxation: real
    var heights: seq<real>
    const elementary: Elementary

    constructor (relaxation: real, heights: seq<real>, elementary: Elementary)
      ensures this.relaxation == relaxation && this.heights == heights && this.elementary == elementary
    {
      this.relaxation := relaxation;
      this.heights := heights;
      this.elementary := elementary;
    }

    /** Runs the grid collision job once for every index of the grid, in order. */
    method ResolveGridCollisions(grid: array<Cell>, fixedPointMultiplier: nat, deltaTime: real)
      requires forall j :: 0 <= j < grid.Length ==>
        GridCollideDefined(elementary, grid[j], j, fixedPointMultiplier, relaxation, heights, ControllerResolution)
      modifies grid
      ensures grid[..] == GridCollisions(elementary, old(grid[..]), fixedPointMultiplier, relaxation, heights,
                                         ControllerResolution)
    {
      var job := new GridCollisionJob(grid, fixedPointMultiplier, relaxation, heights, ControllerResolution,
                                      0.0, elementary);
      ghost var expected := GridCollisions(elementary, grid[..], fixedPointMultiplier, relaxation, heights,
                                           ControllerResolution);
      for i := 0 to grid.Length
        invariant grid[..i] == expected[..i]
        invariant grid[i..] == old(grid[i..])
      {
        job.Execute(i);
      }
    }

    /** Runs the particle collision job once for every particle, in order. */
    method ResolveParticleCollisions(particles: array<Particle>, fixedPointMultiplier: nat, deltaTime: real)
      requires forall j :: 0 <= j < particles.Length ==>
        LerpDefined(heights, particles[j].position.x, ControllerResolution)
      modifies particles
      ensures particles[..] == ParticleCollisions(elementary, old(particles[..]), relaxation, heights,
                                                  ControllerResolution)
    {
      var job := new ParticleCollisionJob(particles, relaxation, heights, ControllerResolution, 0.0, elementary);
      ghost var expected := ParticleCollisions(elementary, particles[..], relaxation, heights, ControllerResolution);
      for i := 0 to particles.Length
        invariant particles[..i] == expected[..i]
        invariant particles[i..] == old(particles[i..])
      {
        job.Execute(i);
      }
    }
  }
}
