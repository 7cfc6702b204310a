/**
 * The index arithmetic and the quadratic B-spline kernel of the solver: the
 * cell a particle sits in, its 3x3 neighbourhood (with the 32-bit unsigned
 * wrap-around of the neighbour coordinates), the flattened cell index, and
 * the per-axis interpolation weights.
 */
module DynamicsKernel {
  import opened Algebra

  const UIntModulus: int := 0x1_0000_0000
  const IntMin: int := -0x8000_0000
  const IntMax: int := 0x7FFF_FFFF

  /** The float-to-uint conversion of a non-negative value: the fraction is dropped. */
  function UIntCast(r: real): (u: uint32)
    requires 0.0 <= r < 4294967296.0
    ensures u as real <= r < u as real + 1.0
  {
    r.Floor as uint32
  }

  /** (uint2)position: the cell whose lower corner is at or below the position. */
  function CellCoordinate(position: Vec2): (c: UInt2)
    requires 0.0 <= position.x < 4294967296.0 && 0.0 <= position.y < 4294967296.0
    ensures c.x as real <= position.x < c.x as real + 1.0
    ensures c.y as real <= position.y < c.y as real + 1.0
  {
    UInt2(UIntCast(position.x), UIntCast(position.y))
  }

  /** uint arithmetic c + g - 1, which wraps modulo 2^32 (c = 0, g = 0 gives 2^32 - 1). */
  function NeighbourAxis(c: uint32, g: uint32): (n: uint32)
    ensures 1 <= c as int + g as int < UIntModulus ==> n as int == c as int + g as int - 1
    ensures c as int + g as int == 0 ==> n as int == UIntModulus - 1
  {
    ((c as int + g as int - 1) % UIntModulus) as uint32
  }

  function Neighbour(c: UInt2, gx: uint32, gy: uint32): UInt2 {
    UInt2(NeighbourAxis(c.x, gx), NeighbourAxis(c.y, gy))
  }

  /** The (int) cast of a uint: the 32 bits read as a two's-complement int. */
  function Int32Cast(u: uint32): (i: int)
    ensures IntMin <= i <= IntMax
    ensures u as int <= IntMax ==> i == u as int
    ensures IntMax < u as int ==> i == u as int - UIntModulus
  {
    if u as int <= IntMax then u as int else u as int - UIntModulus
  }

  /** Unchecked int arithmetic: the result modulo 2^32, read as a signed int. */
  function WrapInt32(v: int): (w: int)
    ensures IntMin <= w <= IntMax
    ensures IntMin <= v <= IntMax ==> w == v
  {
    (v - IntMin) % UIntModulus + IntMin
  }

  /** (int)x * gridResolution + (int)y, in unchecked int arithmetic. */
  function GetCellIndex(gridResolution: int, cellCoordinate: UInt2): (i: int)
    ensures IntMin <= i <= IntMax
  {
    WrapInt32(Int32Cast(cellCoordinate.x) * gridResolution + Int32Cast(cellCoordinate.y))
  }

  /** C#'s integer division, which truncates toward zero. */
  function TruncDiv(a: int, b: int): (q: int)
    requires b != 0
    ensures 0 <= a && 0 < b ==> q == a / b
  {
    var n := (if a < 0 then -a else a) / (if b < 0 then -b else b);
    if (a < 0) == (b < 0) then n else -n
  }

  /** The resolutions whose res x res grid the int-sized arrays can hold. */
  predicate GridSized(gridResolution: int) {
    0 <= gridResolution && gridResolution * gridResolution <= IntMax
  }

  /** A position in [1, res - 2] on both axes: every neighbour cell is on the grid. */
  predicate InBand(position: Vec2, gridResolution: int) {
    && 1.0 <= position.x <= gridResolution as real - 2.0
    && 1.0 <= position.y <= gridResolution as real - 2.0
  }

  /** The three per-axis weights at offset d = position - cell - 0.5. */
  function KernelWeight(k: int, d: real): real
    requires 0 <= k < 3
  {
    if k == 0 then 0.5 * ((0.5 - d) * (0.5 - d))
    else if k == 1 then 0.75 - d * d
    else 0.5 * ((0.5 + d) * (0.5 + d))
  }

  /** The weights array the solver fills: entry k holds the x and y weights of neighbour k. */
  function QuadraticWeights(position: Vec2, cellCoordinate: UInt2): (weights: seq<Vec2>)
    ensures |weights| == 3
    ensures weights[0].x + weights[1].x + weights[2].x == 1.0
    ensures weights[0].y + weights[1].y + weights[2].y == 1.0
  {
    var dx := position.x - cellCoordinate.x as real - 0.5;
    var dy := position.y - cellCoordinate.y as real - 0.5;
    PartitionOfUnity(dx);
    PartitionOfUnity(dy);
    seq(3, k requires 0 <= k < 3 => Vec2(KernelWeight(k, dx), KernelWeight(k, dy)))
  }

  /** The 2-D weight of neighbour (gx, gy): the product of the two axis weights. */
  function GetWeight(weights: seq<Vec2>, gx: int, gy: int): (w: real)
    requires 0 <= gx < |weights| && 0 <= gy < |weights|
    ensures 0.0 <= weights[gx].x && 0.0 <= weights[gy].y ==> 0.0 <= w
  {
    assert 0.0 < weights[gx].x && 0.0 < weights[gy].y ==> 0.0 < weights[gx].x * weights[gy].y by {
      if 0.0 < weights[gx].x && 0.0 < weights[gy].y {
        ProductPositive(weights[gx].x, weights[gy].y);
      }
    }
    weights[gx].x * weights[gy].y
  }

  /** The offset of neighbour g from the particle along one axis, for d = position - cell - 0.5. */
  function NeighbourOffset(g: int, d: real): real { g as real - 1.0 - d }

  // ---- the kernel ----

  /** The three weights along an axis add up to exactly 1, whatever the offset. */
  lemma PartitionOfUnity(d: real)
    ensures KernelWeight(0, d) + KernelWeight(1, d) + KernelWeight(2, d) == 1.0
  {
  }

  /** For an offset in [-0.5, 0.5] no weight is negative. */
  lemma WeightsNonNegative(d: real)
    requires -0.5 <= d <= 0.5
    ensures 0.0 <= KernelWeight(0, d) && 0.0 <= KernelWeight(1, d) && 0.0 <= KernelWeight(2, d)
  {
    SquareNonNegative(0.5 - d);
    SquareNonNegative(0.5 + d);
    SquareAtMostQuarter(d);
  }

  lemma SquareNonNegative(a: real)
    ensures 0.0 <= a * a
  {
    if a < 0.0 {
      ProductPositive(-a, -a);
    } else if a > 0.0 {
      ProductPositive(a, a);
    }
  }

  lemma SquareAtMostQuarter(d: real)
    requires -0.5 <= d <= 0.5
    ensures d * d <= 0.25
  {
    var a := Abs(d);
    assert a * a == d * d;
    if a < 0.5 {
      SquareStrictlyIncreasing(a, 0.5);
    }
  }

  /**
   * The weighted offsets cancel: the kernel's centre of mass is the particle,
   * so a uniform grid velocity adds nothing to the affine momentum.
   */
  lemma FirstMomentVanishes(d: real)
    ensures KernelWeight(0, d) * NeighbourOffset(0, d) + KernelWeight(1, d) * NeighbourOffset(1, d)
          + KernelWeight(2, d) * NeighbourOffset(2, d) == 0.0
  {
  }

  /**
   * Axis weights w[0..3] about offsets (dx, dy) are balanced when along each
   * axis they add up to 1 and have no first moment.
   */
  predicate AxisBalanced(w: seq<Vec2>, dx: real, dy: real)
    requires |w| == 3
  {
    && w[0].x + w[1].x + w[2].x == 1.0 && w[0].y + w[1].y + w[2].y == 1.0
    && w[0].x * NeighbourOffset(0, dx) + w[1].x * NeighbourOffset(1, dx) + w[2].x * NeighbourOffset(2, dx) == 0.0
    && w[0].y * NeighbourOffset(0, dy) + w[1].y * NeighbourOffset(1, dy) + w[2].y * NeighbourOffset(2, dy) == 0.0
  }

  /** The weights array the solver fills for a particle in a cell is balanced. */
  lemma QuadraticWeightsBalance(position: Vec2, cellCoordinate: UInt2)
    ensures AxisBalanced(QuadraticWeights(position, cellCoordinate),
                         position.x - cellCoordinate.x as real - 0.5, position.y - cellCoordinate.y as real - 0.5)
  {
    var dx := position.x - cellCoordinate.x as real - 0.5;
    var dy := position.y - cellCoordinate.y as real - 0.5;
    PartitionOfUnity(dx);
    PartitionOfUnity(dy);
    FirstMomentVanishes(dx);
    FirstMomentVanishes(dy);
  }

  /**
   * The weighted squared offsets add up to 1/4 for every offset, which is why
   * the gather step multiplies its affine sum by 4.
   */
  lemma SecondMomentIsQuarter(d: real)
    ensures KernelWeight(0, d) * (NeighbourOffset(0, d) * NeighbourOffset(0, d))
          + KernelWeight(1, d) * (NeighbourOffset(1, d) * NeighbourOffset(1, d))
          + KernelWeight(2, d) * (NeighbourOffset(2, d) * NeighbourOffset(2, d)) == 0.25
  {
  }

  /** The nine 2-D weights of a neighbourhood add up to 1. */
  lemma NineWeightsSumToOne(position: Vec2, cellCoordinate: UInt2)
    ensures var w := QuadraticWeights(position, cellCoordinate);
      GetWeight(w, 0, 0) + GetWeight(w, 0, 1) + GetWeight(w, 0, 2)
      + GetWeight(w, 1, 0) + GetWeight(w, 1, 1) + GetWeight(w, 1, 2)
      + GetWeight(w, 2, 0) + GetWeight(w, 2, 1) + GetWeight(w, 2, 2) == 1.0
  {
    var w := QuadraticWeights(position, cellCoordinate);
    var dx := position.x - cellCoordinate.x as real - 0.5;
    var dy := position.y - cellCoordinate.y as real - 0.5;
    PartitionOfUnity(dx);
    PartitionOfUnity(dy);
    ProductOfSums(w[0].x, w[1].x, w[2].x, w[0].y, w[1].y, w[2].y);
  }

  lemma ProductOfSums(a0: real, a1: real, a2: real, b0: real, b1: real, b2: real)
    requires a0 + a1 + a2 == 1.0 && b0 + b1 + b2 == 1.0
    ensures a0 * b0 + a0 * b1 + a0 * b2 + a1 * b0 + a1 * b1 + a1 * b2
          + a2 * b0 + a2 * b1 + a2 * b2 == 1.0
  {
    assert a0 * b0 + a0 * b1 + a0 * b2 == a0 * (b0 + b1 + b2);
    assert a1 * b0 + a1 * b1 + a1 * b2 == a1 * (b0 + b1 + b2);
    assert a2 * b0 + a2 * b1 + a2 * b2 == a2 * (b0 + b1 + b2);
  }

  // ---- cells and indices ----

  /** The offset of a particle from the centre of its own cell lies in [-0.5, 0.5). */
  lemma OffsetInCell(position: Vec2)
    requires 0.0 <= position.x < 4294967296.0 && 0.0 <= position.y < 4294967296.0
    ensures var c := CellCoordinate(position);
      && -0.5 <= position.x - c.x as real - 0.5 < 0.5
      && -0.5 <= position.y - c.y as real - 0.5 < 0.5
  {
  }

  /** Inside the band every neighbour coordinate c + g - 1 is a cell of the grid; nothing wraps. */
  lemma NeighboursOnGrid(position: Vec2, gridResolution: int, gx: uint32, gy: uint32)
    requires GridSized(gridResolution) && InBand(position, gridResolution)
    requires gx < 3 && gy < 3
    ensures var c := CellCoordinate(position);
      var n := Neighbour(c, gx, gy);
      && n.x as int == c.x as int + gx as int - 1 && n.x as int < gridResolution
      && n.y as int == c.y as int + gy as int - 1 && n.y as int < gridResolution
  {
  }

  /** For a cell of the grid, the index is x * res + y and lies in [0, res^2). */
  lemma CellIndexInRange(gridResolution: int, c: UInt2)
    requires GridSized(gridResolution)
    requires c.x as int < gridResolution && c.y as int < gridResolution
    ensures GetCellIndex(gridResolution, c) == c.x as int * gridResolution + c.y as int
    ensures 0 <= GetCellIndex(gridResolution, c) < gridResolution * gridResolution
  {
    var x, y, r := c.x as int, c.y as int, gridResolution;
    RowStartBelowSquare(x, r);
  }

  lemma RowStartBelowSquare(x: int, r: int)
    requires 0 <= x < r
    ensures 0 <= x * r && x * r + r <= r * r
  {
    assert x * r + r == (x + 1) * r;
    assert (x + 1) * r <= r * r by {
      assert r * r - (x + 1) * r == (r - x - 1) * r;
      NonNegativeProduct(r - x - 1, r);
    }
    NonNegativeProduct(x, r);
  }

  lemma NonNegativeProduct(a: int, b: int)
    requires 0 <= a && 0 <= b
    ensures 0 <= a * b
  {
  }

  /**
   * The grid update recovers the cell from its index: x = i / res and
   * y = i - x * res give back the coordinates the index was built from.
   */
  lemma CellIndexDecodes(gridResolution: int, c: UInt2)
    requires GridSized(gridResolution)
    requires c.x as int < gridResolution && c.y as int < gridResolution
    ensures var i := GetCellIndex(gridResolution, c);
      && TruncDiv(i, gridResolution) == c.x as int
      && i - TruncDiv(i, gridResolution) * gridResolution == c.y as int
  {
    CellIndexInRange(gridResolution, c);
    DivOfRowMajor(c.x as int, c.y as int, gridResolution);
  }

  lemma DivOfRowMajor(x: int, y: int, r: int)
    requires 0 <= x && 0 <= y < r
    ensures (x * r + y) / r == x
  {
    var i := x * r + y;
    var q, m := i / r, i % r;
    assert i == q * r + m && 0 <= m < r;
    assert (q - x) * r == y - m;
    if q - x >= 1 {
      AtLeastOneFactor(q - x, r);
    } else if q - x <= -1 {
      AtLeastOneFactor(x - q, r);
    }
  }

  lemma AtLeastOneFactor(a: int, b: int)
    requires 1 <= a && 0 < b
    ensures b <= a * b
  {
    assert a * b == (a - 1) * b + b;
    NonNegativeProduct(a - 1, b);
  }

  /**
   * Every flattened index of the grid is the index of exactly one cell: the
   * decode in the grid update is the inverse of GetCellIndex.
   */
  lemma CellOfIndex(gridResolution: int, i: int)
    requires GridSized(gridResolution) && 0 <= i < gridResolution * gridResolution
    ensures var x := TruncDiv(i, gridResolution);
      var y := i - x * gridResolution;
      && 0 <= x < gridResolution && 0 <= y < gridResolution
      && GetCellIndex(gridResolution, UInt2(x as uint32, y as uint32)) == i
  {
    var r := gridResolution;
    var x, y := i / r, i % r;
    assert i == x * r + y;
    QuotientBelow(i, r);
    CellIndexInRange(r, UInt2(x as uint32, y as uint32));
  }

  lemma QuotientBelow(i: int, r: int)
    requires 0 < r && 0 <= i < r * r
    ensures 0 <= i / r < r
  {
    var x := i / r;
    if x >= r {
      MulMonotone(r, x, r);
    }
  }

  lemma MulMonotone(a: int, b: int, r: int)
    requires a <= b && 0 <= r
    ensures a * r <= b * r
  {
    assert b * r - a * r == (b - a) * r;
    NonNegativeProduct(b - a, r);
  }

  /**
   * At the grid origin the first neighbour wraps: c = 0, g = 0 gives
   * 2^32 - 1, which the (int) cast turns into -1, and the index -res - 1 lies
   * before the first cell.
   */
  lemma OriginNeighbourWraps(gridResolution: int)
    requires GridSized(gridResolution)
    ensures var n := Neighbour(CellCoordinate(Zero2), 0, 0);
      && n == UInt2((UIntModulus - 1) as uint32, (UIntModulus - 1) as uint32)
      && GetCellIndex(gridResolution, n) == -gridResolution - 1
      && GetCellIndex(gridResolution, n) < 0
  {
    var n := Neighbour(CellCoordinate(Zero2), 0, 0);
    assert Int32Cast(n.x) == -1;
  }
}
