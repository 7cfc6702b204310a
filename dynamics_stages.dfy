/**
 * What one step of the solver computes, stage by stage, as functions of the
 * particles and the grid: scatter (particle to grid), grid update, gather
 * (grid to particle) and integration. The solver's job loops are proved to
 * compute exactly these, and the physical properties are proved about them.
 */
module DynamicsStages {
  import opened Algebra
  import opened DynamicsKernel
  import MatrixUtility
  import JobUtility

  /** The particle fields the solver reads and writes. */
  datatype SolverParticle = SolverParticle(
    position: Vec2,
    velocity: Vec2,
    affineMomentum: Mat2,
    deformationGradient: Mat2,
    mass: real,
    volume0: real)

  /** A default-initialised particle: every field zero. */
  const DefaultParticle: SolverParticle := SolverParticle(Zero2, Zero2, ZeroMat, ZeroMat, 0.0, 0.0)

  /** A grid cell: accumulated momentum (velocity after the grid update) and mass. */
  datatype SolverCell = SolverCell(velocity: Vec2, mass: real)

  const EmptyCell: SolverCell := SolverCell(Zero2, 0.0)

  /**
   * The elastic material: the two Lame parameters and the stress of a
   * deformation gradient, stress(mu, lambda, F), which the solver computes from
   * the determinant, the inverse transpose and the logarithm of F. It is taken
   * as a given function.
   */
  datatype Material = Material(elasticMu: real, elasticLambda: real, stress: (real, real, Mat2) -> Mat2)

  predicate AllInBand(particles: seq<SolverParticle>, gridResolution: int) {
    forall i :: 0 <= i < |particles| ==> InBand(particles[i].position, gridResolution)
  }

  predicate GridShaped(grid: seq<SolverCell>, gridResolution: int) {
    GridSized(gridResolution) && |grid| == gridResolution * gridResolution
  }

  // ---- the 3x3 neighbourhood of a particle, neighbour k = (gx, gy) = (k / 3, k % 3) ----

  function NeighbourCell(p: SolverParticle, k: int, gridResolution: int): UInt2
    requires GridSized(gridResolution) && InBand(p.position, gridResolution) && 0 <= k < 9
  {
    Neighbour(CellCoordinate(p.position), (k / 3) as uint32, (k % 3) as uint32)
  }

  /** The grid index of neighbour k; inside the band it is always a cell of the grid. */
  function NeighbourIndex(p: SolverParticle, k: int, gridResolution: int): (i: int)
    requires GridSized(gridResolution) && InBand(p.position, gridResolution) && 0 <= k < 9
    ensures 0 <= i < gridResolution * gridResolution
  {
    var n := NeighbourCell(p, k, gridResolution);
    NeighboursOnGrid(p.position, gridResolution, (k / 3) as uint32, (k % 3) as uint32);
    CellIndexInRange(gridResolution, n);
    GetCellIndex(gridResolution, n)
  }

  /** neighbour - position + 0.5: from the particle to the centre of neighbour k. */
  function NeighbourDistance(p: SolverParticle, k: int, gridResolution: int): Vec2
    requires GridSized(gridResolution) && InBand(p.position, gridResolution) && 0 <= k < 9
  {
    var n := NeighbourCell(p, k, gridResolution);
    Vec2(n.x as real - p.position.x + 0.5, n.y as real - p.position.y + 0.5)
  }

  /**
   * What both transfers read of a particle's neighbourhood, in the loops'
   * order (gx outer, gy inner): the nine cell indices, weights and distances.
   */
  datatype Stencil = Stencil(indices: seq<int>, weights: seq<real>, distances: seq<Vec2>)

  predicate StencilFits(s: Stencil, cellCount: int) {
    && |s.indices| == 9 && |s.weights| == 9 && |s.distances| == 9
    && forall k :: 0 <= k < 9 ==> 0 <= s.indices[k] < cellCount
  }

  /** Neighbour k = (gx, gy) weighs GetWeight(w, gx, gy) = w[gx].x * w[gy].y. */
  function ProductWeights(w: seq<Vec2>): (ws: seq<real>)
    requires |w| == 3
    ensures |ws| == 9
  {
    [GetWeight(w, 0, 0), GetWeight(w, 0, 1), GetWeight(w, 0, 2),
     GetWeight(w, 1, 0), GetWeight(w, 1, 1), GetWeight(w, 1, 2),
     GetWeight(w, 2, 0), GetWeight(w, 2, 1), GetWeight(w, 2, 2)]
  }

  /** The stencil of a particle for the per-axis weights w. */
  function StencilOf(p: SolverParticle, gridResolution: int, w: seq<Vec2>): (s: Stencil)
    requires GridSized(gridResolution) && InBand(p.position, gridResolution) && |w| == 3
    ensures StencilFits(s, gridResolution * gridResolution)
  {
    Stencil(seq(9, k requires 0 <= k < 9 => NeighbourIndex(p, k, gridResolution)),
            ProductWeights(w),
            seq(9, k requires 0 <= k < 9 => NeighbourDistance(p, k, gridResolution)))
  }

  /** The stencil with the quadratic B-spline weights of the particle's offset in its cell. */
  function ParticleStencil(p: SolverParticle, gridResolution: int): (s: Stencil)
    requires GridSized(gridResolution) && InBand(p.position, gridResolution)
    ensures StencilFits(s, gridResolution * gridResolution)
  {
    StencilOf(p, gridResolution, QuadraticWeights(p.position, CellCoordinate(p.position)))
  }

  /**
   * Entry k = 3 gx + gy of a particle's stencil, as the loops over gx and gy
   * compute it.
   */
  lemma StencilAt(p: SolverParticle, gridResolution: int, gx: int, gy: int)
    requires GridSized(gridResolution) && InBand(p.position, gridResolution) && 0 <= gx < 3 && 0 <= gy < 3
    ensures var s, c := ParticleStencil(p, gridResolution), CellCoordinate(p.position);
      var n := Neighbour(c, gx as uint32, gy as uint32);
      && s.indices[3 * gx + gy] == GetCellIndex(gridResolution, n)
      && s.weights[3 * gx + gy] == GetWeight(QuadraticWeights(p.position, c), gx, gy)
      && s.distances[3 * gx + gy] == Vec2(n.x as real - p.position.x + 0.5, n.y as real - p.position.y + 0.5)
  {
    var k := 3 * gx + gy;
    assert k / 3 == gx && k % 3 == gy;
  }

  /** The sum of the first k entries of a sequence of weights. */
  function Sum(weights: seq<real>, k: int): real
    requires 0 <= k <= |weights|
  {
    if k == 0 then 0.0 else Sum(weights, k - 1) + weights[k - 1]
  }

  /** Product weights of two axis weight triples that each sum to 1 sum to 1. */
  lemma ProductWeightsSumToOne(p: SolverParticle, gridResolution: int, w: seq<Vec2>)
    requires GridSized(gridResolution) && InBand(p.position, gridResolution) && |w| == 3
    requires w[0].x + w[1].x + w[2].x == 1.0 && w[0].y + w[1].y + w[2].y == 1.0
    ensures Sum(StencilOf(p, gridResolution, w).weights, 9) == 1.0
  {
    var ws := StencilOf(p, gridResolution, w).weights;
    ProductOfSums(w[0].x, w[1].x, w[2].x, w[0].y, w[1].y, w[2].y);
    assert Sum(ws, 1) == GetWeight(w, 0, 0);
    assert Sum(ws, 2) == Sum(ws, 1) + GetWeight(w, 0, 1);
    assert Sum(ws, 3) == Sum(ws, 2) + GetWeight(w, 0, 2);
    assert Sum(ws, 4) == Sum(ws, 3) + GetWeight(w, 1, 0);
    assert Sum(ws, 5) == Sum(ws, 4) + GetWeight(w, 1, 1);
    assert Sum(ws, 6) == Sum(ws, 5) + GetWeight(w, 1, 2);
    assert Sum(ws, 7) == Sum(ws, 6) + GetWeight(w, 2, 0);
    assert Sum(ws, 8) == Sum(ws, 7) + GetWeight(w, 2, 1);
    assert Sum(ws, 9) == Sum(ws, 8) + GetWeight(w, 2, 2);
  }

  /** The nine neighbour weights of a particle add up to 1. */
  lemma StencilWeightsSumToOne(p: SolverParticle, gridResolution: int)
    requires GridSized(gridResolution) && InBand(p.position, gridResolution)
    ensures Sum(ParticleStencil(p, gridResolution).weights, 9) == 1.0
  {
    var c := CellCoordinate(p.position);
    PartitionOfUnity(p.position.x - c.x as real - 0.5);
    PartitionOfUnity(p.position.y - c.y as real - 0.5);
    ProductWeightsSumToOne(p, gridResolution, QuadraticWeights(p.position, c));
  }

  // ---- scatter ----

  /** eq16term0 = -volume * 4 * stress * dt, with volume = volume0 * det F. */
  function ScatterTerm(p: SolverParticle, deltaTime: real, material: Material): (term: Mat2)
    ensures deltaTime == 0.0 || p.volume0 * Determinant(p.deformationGradient) == 0.0 ==> term == ZeroMat
  {
    var volume := p.volume0 * Determinant(p.deformationGradient);
    MatScale(-volume * 4.0 * deltaTime,
             material.stress(material.elasticMu, material.elasticLambda, p.deformationGradient))
  }

  /**
   * One neighbour's share: mass += w * m; momentum += w * m * (v + C d) + (w * term) d,
   * where d is the distance to the cell and C the affine momentum.
   */
  function ScatterIntoCell(cell: SolverCell, p: SolverParticle, weight: real, distance: Vec2, term: Mat2)
    : (c: SolverCell)
    ensures c.mass == cell.mass + weight * p.mass
  {
    var massContribution := weight * p.mass;
    var q := MulVec(p.affineMomentum, distance);
    var velocity := Add(cell.velocity, Scale(massContribution, Add(p.velocity, q)));
    SolverCell(Add(velocity, MulVec(MatScale(weight, term), distance)), cell.mass + massContribution)
  }

  /** Step k + 1 adds share k to the grid of step k. */
  lemma ScatterStepsNext(grid: seq<SolverCell>, p: SolverParticle, s: Stencil, k: int, term: Mat2)
    requires StencilFits(s, |grid|) && 0 <= k < 9
    ensures var before, i := ScatterSteps(grid, p, s, k, term), s.indices[k];
      ScatterSteps(grid, p, s, k + 1, term)
        == before[i := ScatterIntoCell(before[i], p, s.weights[k], s.distances[k], term)]
  {
  }

  /** The grid after the first k of the nine neighbour shares of p. */
  function ScatterSteps(grid: seq<SolverCell>, p: SolverParticle, s: Stencil, k: int, term: Mat2)
    : (g: seq<SolverCell>)
    requires StencilFits(s, |grid|) && 0 <= k <= 9
    ensures |g| == |grid|
  {
    if k == 0 then grid
    else
      var before := ScatterSteps(grid, p, s, k - 1, term);
      var i := s.indices[k - 1];
      before[i := ScatterIntoCell(before[i], p, s.weights[k - 1], s.distances[k - 1], term)]
  }

  /** The first k shares touch only the stencil's first k cells; every other cell is left as it was. */
  lemma {:induction false} ScatterStepsOnlyStencil(grid: seq<SolverCell>, p: SolverParticle, s: Stencil, k: int,
                                                   term: Mat2, j: int)
    requires StencilFits(s, |grid|) && 0 <= k <= 9 && 0 <= j < |grid|
    requires forall m :: 0 <= m < k ==> s.indices[m] != j
    ensures ScatterSteps(grid, p, s, k, term)[j] == grid[j]
  {
    if k > 0 {
      ScatterStepsOnlyStencil(grid, p, s, k - 1, term, j);
    }
  }

  function ScatterParticle(grid: seq<SolverCell>, p: SolverParticle, gridResolution: int,
                           deltaTime: real, material: Material): (g: seq<SolverCell>)
    requires GridShaped(grid, gridResolution) && InBand(p.position, gridResolution)
    ensures GridShaped(g, gridResolution)
  {
    ScatterSteps(grid, p, ParticleStencil(p, gridResolution), 9, ScatterTerm(p, deltaTime, material))
  }

  /** The grid after scattering the particles one after the other. */
  function Scatter(grid: seq<SolverCell>, particles: seq<SolverParticle>, gridResolution: int,
                   deltaTime: real, material: Material): (g: seq<SolverCell>)
    requires GridShaped(grid, gridResolution) && AllInBand(particles, gridResolution)
    ensures GridShaped(g, gridResolution)
  {
    if |particles| == 0 then grid
    else
      var last := |particles| - 1;
      ScatterParticle(Scatter(grid, particles[..last], gridResolution, deltaTime, material),
                      particles[last], gridResolution, deltaTime, material)
  }

  function TotalMass(grid: seq<SolverCell>): real {
    if |grid| == 0 then 0.0 else TotalMass(grid[..|grid| - 1]) + grid[|grid| - 1].mass
  }

  function ParticleMass(particles: seq<SolverParticle>): real {
    if |particles| == 0 then 0.0 else ParticleMass(particles[..|particles| - 1]) + particles[|particles| - 1].mass
  }

  /** Replacing one cell changes the total mass by the difference of the two cells' masses. */
  lemma {:induction false} TotalMassUpdate(grid: seq<SolverCell>, i: int, cell: SolverCell)
    requires 0 <= i < |grid|
    ensures TotalMass(grid[i := cell]) == TotalMass(grid) - grid[i].mass + cell.mass
    decreases |grid|
  {
    var last := |grid| - 1;
    var g := grid[i := cell];
    assert g[..last] == if i == last then grid[..last] else grid[..last][i := cell];
    if i < last {
      TotalMassUpdate(grid[..last], i, cell);
    }
  }

  /**
   * Scattering one share into one cell of a grid that already holds `added`
   * more mass than `grid` raises that excess by the share's mass.
   */
  lemma MassAfterShare(grid: seq<SolverCell>, before: seq<SolverCell>, i: int, p: SolverParticle, weight: real,
                       distance: Vec2, term: Mat2, added: real)
    requires 0 <= i < |before| && TotalMass(before) == TotalMass(grid) + added
    ensures TotalMass(before[i := ScatterIntoCell(before[i], p, weight, distance, term)])
         == TotalMass(grid) + added + weight * p.mass
  {
    TotalMassUpdate(before, i, ScatterIntoCell(before[i], p, weight, distance, term));
  }

  /** The mass the first k shares of a particle of mass m carry: the sum of weight * m. */
  function Shares(weights: seq<real>, k: int, m: real): real
    requires 0 <= k <= |weights|
  {
    if k == 0 then 0.0 else Shares(weights, k - 1, m) + weights[k - 1] * m
  }

  lemma {:induction false} SharesAreWeightedMass(weights: seq<real>, k: int, m: real)
    requires 0 <= k <= |weights|
    ensures Shares(weights, k, m) == Sum(weights, k) * m
  {
    if k > 0 {
      SharesAreWeightedMass(weights, k - 1, m);
      assert (Sum(weights, k - 1) + weights[k - 1]) * m == Sum(weights, k - 1) * m + weights[k - 1] * m;
    }
  }

  /** The nine shares of a particle carry exactly its mass. */
  lemma ParticleSharesAreItsMass(p: SolverParticle, gridResolution: int)
    requires GridSized(gridResolution) && InBand(p.position, gridResolution)
    ensures Shares(ParticleStencil(p, gridResolution).weights, 9, p.mass) == p.mass
  {
    var weights := ParticleStencil(p, gridResolution).weights;
    StencilWeightsSumToOne(p, gridResolution);
    SharesAreWeightedMass(weights, 9, p.mass);
  }

  /** After k shares the grid has gained the first k shares of the particle's mass. */
  lemma {:induction false} ScatterStepsMass(grid: seq<SolverCell>, p: SolverParticle, s: Stencil, k: int, term: Mat2)
    requires StencilFits(s, |grid|) && 0 <= k <= 9
    ensures TotalMass(ScatterSteps(grid, p, s, k, term)) == TotalMass(grid) + Shares(s.weights, k, p.mass)
  {
    if k > 0 {
      var before := ScatterSteps(grid, p, s, k - 1, term);
      var i := s.indices[k - 1];
      ScatterStepsMass(grid, p, s, k - 1, term);
      ScatterStepsNext(grid, p, s, k - 1, term);
      MassAfterShare(grid, before, i, p, s.weights[k - 1], s.distances[k - 1], term, Shares(s.weights, k - 1, p.mass));
    }
  }

  /** Scatter adds exactly the particles' total mass to the grid's total mass. */
  lemma {:induction false} ScatterConservesMass(grid: seq<SolverCell>, particles: seq<SolverParticle>,
                                                gridResolution: int, deltaTime: real, material: Material)
    requires GridShaped(grid, gridResolution) && AllInBand(particles, gridResolution)
    ensures TotalMass(Scatter(grid, particles, gridResolution, deltaTime, material))
         == TotalMass(grid) + ParticleMass(particles)
    decreases |particles|
  {
    if |particles| > 0 {
      var last := |particles| - 1;
      var p := particles[last];
      ScatterConservesMass(grid, particles[..last], gridResolution, deltaTime, material);
      var before := Scatter(grid, particles[..last], gridResolution, deltaTime, material);
      ScatterStepsMass(before, p, ParticleStencil(p, gridResolution), 9, ScatterTerm(p, deltaTime, material));
      ParticleSharesAreItsMass(p, gridResolution);
    }
  }

  // ---- grid update ----

  /**
   * A cell with mass: momentum / mass + acceleration * dt, then the x (y)
   * component is zeroed when the cell's x (y), decoded from the index as
   * x = i / res, y = i - x * res, is within two cells of the border. A cell
   * without mass is left as it is.
   */
  function UpdateCell(cell: SolverCell, index: int, gridResolution: int, acceleration: Vec2, deltaTime: real)
    : (c: SolverCell)
    requires gridResolution != 0
    ensures c.mass == cell.mass
    ensures cell.mass <= 0.0 ==> c == cell
  {
    if cell.mass > 0.0 then
      var v := Add(Vec2(cell.velocity.x / cell.mass, cell.velocity.y / cell.mass), Scale(deltaTime, acceleration));
      var x := TruncDiv(index, gridResolution);
      var y := index - x * gridResolution;
      var vx := if x < 2 || x > gridResolution - 3 then 0.0 else v.x;
      var vy := if y < 2 || y > gridResolution - 3 then 0.0 else v.y;
      SolverCell(Vec2(vx, vy), cell.mass)
    else
      cell
  }

  function GridUpdate(grid: seq<SolverCell>, gridResolution: int, acceleration: Vec2, deltaTime: real)
    : (g: seq<SolverCell>)
    requires gridResolution != 0 || |grid| == 0
    ensures |g| == |grid|
  {
    seq(|grid|, i requires 0 <= i < |grid| => UpdateCell(grid[i], i, gridResolution, acceleration, deltaTime))
  }

  /** Cells without mass are untouched, and no cell's mass changes. */
  lemma GridUpdateKeepsMasses(grid: seq<SolverCell>, gridResolution: int, acceleration: Vec2, deltaTime: real)
    requires gridResolution != 0 || |grid| == 0
    ensures var g := GridUpdate(grid, gridResolution, acceleration, deltaTime);
      forall i :: 0 <= i < |grid| ==> g[i].mass == grid[i].mass && (grid[i].mass <= 0.0 ==> g[i] == grid[i])
  {
  }

  lemma {:induction false} SameMassesSameTotal(a: seq<SolverCell>, b: seq<SolverCell>)
    requires |a| == |b| && forall i :: 0 <= i < |a| ==> a[i].mass == b[i].mass
    ensures TotalMass(a) == TotalMass(b)
    decreases |a|
  {
    if |a| > 0 {
      SameMassesSameTotal(a[..|a| - 1], b[..|b| - 1]);
    }
  }

  /** The grid update conserves the total mass of the grid. */
  lemma GridUpdateConservesMass(grid: seq<SolverCell>, gridResolution: int, acceleration: Vec2, deltaTime: real)
    requires gridResolution != 0 || |grid| == 0
    ensures TotalMass(GridUpdate(grid, gridResolution, acceleration, deltaTime)) == TotalMass(grid)
  {
    GridUpdateKeepsMasses(grid, gridResolution, acceleration, deltaTime);
    SameMassesSameTotal(GridUpdate(grid, gridResolution, acceleration, deltaTime), grid);
  }

  /**
   * Stated for the cell (x, y) of the grid rather than for its index: a cell
   * with mass gets momentum / mass + acceleration * dt, except that the
   * component across a wall is zero in the two outermost cells on each side.
   */
  lemma GridUpdateOfCell(grid: seq<SolverCell>, gridResolution: int, acceleration: Vec2, deltaTime: real, c: UInt2)
    requires GridShaped(grid, gridResolution)
    requires c.x as int < gridResolution && c.y as int < gridResolution
    ensures var i := GetCellIndex(gridResolution, c);
      && 0 <= i < |grid|
      && var cell := grid[i];
      var updated := GridUpdate(grid, gridResolution, acceleration, deltaTime)[i];
      cell.mass > 0.0 ==>
        && updated.mass == cell.mass
        && updated.velocity.x == (if c.x < 2 || c.x as int > gridResolution - 3 then 0.0
                                  else cell.velocity.x / cell.mass + deltaTime * acceleration.x)
        && updated.velocity.y == (if c.y < 2 || c.y as int > gridResolution - 3 then 0.0
                                  else cell.velocity.y / cell.mass + deltaTime * acceleration.y)
  {
    CellIndexInRange(gridResolution, c);
    CellIndexDecodes(gridResolution, c);
  }

  // ---- gather ----

  /** The running sums of the gather loop: velocity and B. */
  datatype Transfer = Transfer(velocity: Vec2, affine: Mat2)

  /** The first k neighbours of the stencil have no velocity. */
  predicate AtRest(grid: seq<SolverCell>, s: Stencil, k: int)
    requires StencilFits(s, |grid|) && 0 <= k <= 9
  {
    forall m :: 0 <= m < k ==> grid[s.indices[m]].velocity == Zero2
  }

  /** After k neighbours: velocity = sum of w v, B = sum of outer(w v, d). */
  function GatherSteps(grid: seq<SolverCell>, s: Stencil, k: int): Transfer
    requires StencilFits(s, |grid|) && 0 <= k <= 9
  {
    if k == 0 then Transfer(Zero2, ZeroMat)
    else
      var sums := GatherSteps(grid, s, k - 1);
      var weightedVelocity := Scale(s.weights[k - 1], grid[s.indices[k - 1]].velocity);
      Transfer(Add(sums.velocity, weightedVelocity),
               MatAdd(sums.affine, MatrixUtility.OuterProduct(weightedVelocity, s.distances[k - 1])))
  }

  /** Neighbours at rest contribute nothing: the sums stay zero. */
  lemma {:induction false} GatherStepsAtRest(grid: seq<SolverCell>, s: Stencil, k: int)
    requires StencilFits(s, |grid|) && 0 <= k <= 9 && AtRest(grid, s, k)
    ensures GatherSteps(grid, s, k) == Transfer(Zero2, ZeroMat)
  {
    if k > 0 {
      assert AtRest(grid, s, k - 1) && grid[s.indices[k - 1]].velocity == Zero2;
      GatherStepsAtRest(grid, s, k - 1);
      var weightedVelocity := Scale(s.weights[k - 1], grid[s.indices[k - 1]].velocity);
      assert weightedVelocity == Zero2;
      GatherStepsNext(grid, s, k - 1);
    }
  }

  /** Step k + 1 adds neighbour k's weighted velocity and its outer product with the distance. */
  lemma GatherStepsNext(grid: seq<SolverCell>, s: Stencil, k: int)
    requires StencilFits(s, |grid|) && 0 <= k < 9
    ensures var sums, weightedVelocity := GatherSteps(grid, s, k), Scale(s.weights[k], grid[s.indices[k]].velocity);
      GatherSteps(grid, s, k + 1)
        == Transfer(Add(sums.velocity, weightedVelocity),
                    MatAdd(sums.affine, MatrixUtility.OuterProduct(weightedVelocity, s.distances[k])))
  {
  }

  /**
   * The particle after the gather: velocity and affine momentum (4 B) from
   * the grid, and F := (I + dt C) F. Position, mass and volume are kept.
   */
  function GatherParticle(grid: seq<SolverCell>, p: SolverParticle, gridResolution: int, deltaTime: real)
    : (q: SolverParticle)
    requires GridShaped(grid, gridResolution) && InBand(p.position, gridResolution)
    ensures q.position == p.position && q.mass == p.mass && q.volume0 == p.volume0
  {
    var sums := GatherSteps(grid, ParticleStencil(p, gridResolution), 9);
    var affineMomentum := MatScale(4.0, sums.affine);
    var deformationUpdate := MatAdd(Identity, MatScale(deltaTime, affineMomentum));
    p.(velocity := sums.velocity, affineMomentum := affineMomentum,
       deformationGradient := Mul(deformationUpdate, p.deformationGradient))
  }

  function Gather(grid: seq<SolverCell>, particles: seq<SolverParticle>, gridResolution: int, deltaTime: real)
    : (q: seq<SolverParticle>)
    requires GridShaped(grid, gridResolution) && AllInBand(particles, gridResolution)
    ensures |q| == |particles| && AllInBand(q, gridResolution)
    ensures forall i :: 0 <= i < |q| ==> q[i].mass == particles[i].mass
  {
    seq(|particles|, i requires 0 <= i < |particles| => GatherParticle(grid, particles[i], gridResolution, deltaTime))
  }

  /** With a zero time step the deformation gradient is left as it was. */
  lemma GatherWithoutTimeKeepsDeformation(grid: seq<SolverCell>, p: SolverParticle, gridResolution: int)
    requires GridShaped(grid, gridResolution) && InBand(p.position, gridResolution)
    ensures GatherParticle(grid, p, gridResolution, 0.0).deformationGradient == p.deformationGradient
  {
    var sums := GatherSteps(grid, ParticleStencil(p, gridResolution), 9);
    ScaledByZero(MatScale(4.0, sums.affine));
    IdentityKeeps(p.deformationGradient);
  }

  lemma ScaledByZero(m: Mat2)
    ensures MatScale(0.0, m) == ZeroMat
  {
  }

  /** sum over the first k neighbours of w d: the kernel's first moment. */
  function Moment(s: Stencil, k: int): Vec2
    requires |s.weights| == 9 && |s.distances| == 9 && 0 <= k <= 9
  {
    if k == 0 then Zero2 else Add(Moment(s, k - 1), Scale(s.weights[k - 1], s.distances[k - 1]))
  }

  /** Under a uniform grid velocity v the sums are (sum w) v and outer(v, sum w d). */
  lemma {:induction false} GatherStepsUniform(grid: seq<SolverCell>, s: Stencil, v: Vec2, k: int)
    requires StencilFits(s, |grid|) && 0 <= k <= 9
    requires forall j :: 0 <= j < 9 ==> grid[s.indices[j]].velocity == v
    ensures GatherSteps(grid, s, k) == Transfer(Scale(Sum(s.weights, k), v), MatrixUtility.OuterProduct(v, Moment(s, k)))
  {
    if k > 0 {
      GatherStepsUniform(grid, s, v, k - 1);
      GatherStepsNext(grid, s, k - 1);
      assert grid[s.indices[k - 1]].velocity == v;
      UniformStep(Sum(s.weights, k - 1), s.weights[k - 1], v, Moment(s, k - 1), s.distances[k - 1]);
    }
  }

  lemma UniformStep(sum: real, w: real, v: Vec2, moment: Vec2, d: Vec2)
    ensures Add(Scale(sum, v), Scale(w, v)) == Scale(sum + w, v)
    ensures MatAdd(MatrixUtility.OuterProduct(v, moment), MatrixUtility.OuterProduct(Scale(w, v), d))
         == MatrixUtility.OuterProduct(v, Add(moment, Scale(w, d)))
  {
    assert v.x * moment.x + (w * v.x) * d.x == v.x * (moment.x + w * d.x);
    assert v.x * moment.y + (w * v.x) * d.y == v.x * (moment.y + w * d.y);
    assert v.y * moment.x + (w * v.y) * d.x == v.y * (moment.x + w * d.x);
    assert v.y * moment.y + (w * v.y) * d.y == v.y * (moment.y + w * d.y);
  }

  /** The first moment of nine weights and distances, written out. */
  lemma MomentOfNine(s: Stencil)
    requires |s.weights| == 9 && |s.distances| == 9
    ensures var w, d := s.weights, s.distances;
      Moment(s, 9) == Vec2(
        w[0] * d[0].x + w[1] * d[1].x + w[2] * d[2].x + w[3] * d[3].x + w[4] * d[4].x
          + w[5] * d[5].x + w[6] * d[6].x + w[7] * d[7].x + w[8] * d[8].x,
        w[0] * d[0].y + w[1] * d[1].y + w[2] * d[2].y + w[3] * d[3].y + w[4] * d[4].y
          + w[5] * d[5].y + w[6] * d[6].y + w[7] * d[7].y + w[8] * d[8].y)
  {
    assert Moment(s, 1) == Scale(s.weights[0], s.distances[0]);
    assert Moment(s, 2) == Add(Moment(s, 1), Scale(s.weights[1], s.distances[1]));
    assert Moment(s, 3) == Add(Moment(s, 2), Scale(s.weights[2], s.distances[2]));
    assert Moment(s, 4) == Add(Moment(s, 3), Scale(s.weights[3], s.distances[3]));
    assert Moment(s, 5) == Add(Moment(s, 4), Scale(s.weights[4], s.distances[4]));
    assert Moment(s, 6) == Add(Moment(s, 5), Scale(s.weights[5], s.distances[5]));
    assert Moment(s, 7) == Add(Moment(s, 6), Scale(s.weights[6], s.distances[6]));
    assert Moment(s, 8) == Add(Moment(s, 7), Scale(s.weights[7], s.distances[7]));
    assert Moment(s, 9) == Add(Moment(s, 8), Scale(s.weights[8], s.distances[8]));
  }

  /** The distance to neighbour k is (offset(k / 3, dx), offset(k % 3, dy)), d the offset in the cell. */
  lemma DistanceEntry(p: SolverParticle, gridResolution: int, k: int)
    requires GridSized(gridResolution) && InBand(p.position, gridResolution) && 0 <= k < 9
    ensures var c := CellCoordinate(p.position);
      NeighbourDistance(p, k, gridResolution)
        == Vec2(NeighbourOffset(k / 3, p.position.x - c.x as real - 0.5),
                NeighbourOffset(k % 3, p.position.y - c.y as real - 0.5))
  {
    NeighboursOnGrid(p.position, gridResolution, (k / 3) as uint32, (k % 3) as uint32);
  }

  /** Neighbour k = (i, j) lies at (offset(i, dx), offset(j, dy)) from the particle. */
  function OffsetGrid(dx: real, dy: real): (ds: seq<Vec2>)
    ensures |ds| == 9
  {
    var x0, x1, x2 := NeighbourOffset(0, dx), NeighbourOffset(1, dx), NeighbourOffset(2, dx);
    var y0, y1, y2 := NeighbourOffset(0, dy), NeighbourOffset(1, dy), NeighbourOffset(2, dy);
    [Vec2(x0, y0), Vec2(x0, y1), Vec2(x0, y2),
     Vec2(x1, y0), Vec2(x1, y1), Vec2(x1, y2),
     Vec2(x2, y0), Vec2(x2, y1), Vec2(x2, y2)]
  }

  /** The weights and distances of StencilOf, as the separable tables above. */
  lemma StencilEntries(p: SolverParticle, gridResolution: int, w: seq<Vec2>)
    requires GridSized(gridResolution) && InBand(p.position, gridResolution) && |w| == 3
    ensures var s, c := StencilOf(p, gridResolution, w), CellCoordinate(p.position);
      && s.weights == ProductWeights(w)
      && s.distances == OffsetGrid(p.position.x - c.x as real - 0.5, p.position.y - c.y as real - 0.5)
  {
    StencilDistanceTable(p, gridResolution, w);
  }

  lemma StencilDistanceTable(p: SolverParticle, gridResolution: int, w: seq<Vec2>)
    requires GridSized(gridResolution) && InBand(p.position, gridResolution) && |w| == 3
    ensures var c := CellCoordinate(p.position);
      StencilOf(p, gridResolution, w).distances == OffsetGrid(p.position.x - c.x as real - 0.5, p.position.y - c.y as real - 0.5)
  {
    var s, c := StencilOf(p, gridResolution, w), CellCoordinate(p.position);
    var ds := OffsetGrid(p.position.x - c.x as real - 0.5, p.position.y - c.y as real - 0.5);
    DistanceEntry(p, gridResolution, 0);
    assert s.distances[0] == ds[0];
    DistanceEntry(p, gridResolution, 1);
    assert s.distances[1] == ds[1];
    DistanceEntry(p, gridResolution, 2);
    assert s.distances[2] == ds[2];
    DistanceEntry(p, gridResolution, 3);
    assert s.distances[3] == ds[3];
    DistanceEntry(p, gridResolution, 4);
    assert s.distances[4] == ds[4];
    DistanceEntry(p, gridResolution, 5);
    assert s.distances[5] == ds[5];
    DistanceEntry(p, gridResolution, 6);
    assert s.distances[6] == ds[6];
    DistanceEntry(p, gridResolution, 7);
    assert s.distances[7] == ds[7];
    DistanceEntry(p, gridResolution, 8);
    assert s.distances[8] == ds[8];
  }

  /**
   * Nine weights w[i].x w[j].y at distances (offset(i, dx), offset(j, dy)):
   * when each axis' weights sum to 1 and have no first moment, the moment vanishes.
   */
  lemma MomentFromEntries(s: Stencil, w: seq<Vec2>, dx: real, dy: real)
    requires |w| == 3 && s.weights == ProductWeights(w) && s.distances == OffsetGrid(dx, dy)
    requires AxisBalanced(w, dx, dy)
    ensures Moment(s, 9) == Zero2
  {
    MomentOfNine(s);
    MomentXVanishes(s, w, dx, dy);
    MomentYVanishes(s, w, dx, dy);
  }

  /** The x part of MomentFromEntries, on the written-out sum. */
  lemma MomentXVanishes(s: Stencil, w: seq<Vec2>, dx: real, dy: real)
    requires |w| == 3 && s.weights == ProductWeights(w) && s.distances == OffsetGrid(dx, dy)
    requires AxisBalanced(w, dx, dy)
    ensures s.weights[0] * s.distances[0].x + s.weights[1] * s.distances[1].x + s.weights[2] * s.distances[2].x + s.weights[3] * s.distances[3].x + s.weights[4] * s.distances[4].x + s.weights[5] * s.distances[5].x + s.weights[6] * s.distances[6].x + s.weights[7] * s.distances[7].x + s.weights[8] * s.distances[8].x == 0.0
  {
    var ws, ds := s.weights, s.distances;
    SeparableX(ws[0], ws[1], ws[2], ws[3], ws[4], ws[5], ws[6], ws[7], ws[8],
               ds[0].x, ds[1].x, ds[2].x, ds[3].x, ds[4].x, ds[5].x, ds[6].x, ds[7].x, ds[8].x,
               w[0].x, w[1].x, w[2].x, w[0].y, w[1].y, w[2].y,
               NeighbourOffset(0, dx), NeighbourOffset(1, dx), NeighbourOffset(2, dx));
  }

  /** The y part of MomentFromEntries, on the written-out sum. */
  lemma MomentYVanishes(s: Stencil, w: seq<Vec2>, dx: real, dy: real)
    requires |w| == 3 && s.weights == ProductWeights(w) && s.distances == OffsetGrid(dx, dy)
    requires AxisBalanced(w, dx, dy)
    ensures s.weights[0] * s.distances[0].y + s.weights[1] * s.distances[1].y + s.weights[2] * s.distances[2].y + s.weights[3] * s.distances[3].y + s.weights[4] * s.distances[4].y + s.weights[5] * s.distances[5].y + s.weights[6] * s.distances[6].y + s.weights[7] * s.distances[7].y + s.weights[8] * s.distances[8].y == 0.0
  {
    var ws, ds := s.weights, s.distances;
    SeparableY(ws[0], ws[1], ws[2], ws[3], ws[4], ws[5], ws[6], ws[7], ws[8],
               ds[0].y, ds[1].y, ds[2].y, ds[3].y, ds[4].y, ds[5].y, ds[6].y, ds[7].y, ds[8].y,
               w[0].x, w[1].x, w[2].x, w[0].y, w[1].y, w[2].y,
               NeighbourOffset(0, dy), NeighbourOffset(1, dy), NeighbourOffset(2, dy));
  }

  /**
   * For weights w[3 i + j] = a[i] b[j] and x distances x[3 i + j] = o[i]
   * that depend on i only, the first moment factors as (sum a o) (sum b).
   */
  lemma SeparableX(w0: real, w1: real, w2: real, w3: real, w4: real, w5: real, w6: real, w7: real, w8: real,
                   x0: real, x1: real, x2: real, x3: real, x4: real, x5: real, x6: real, x7: real, x8: real,
                   a0: real, a1: real, a2: real, b0: real, b1: real, b2: real, o0: real, o1: real, o2: real)
    requires w0 == a0 * b0 && w1 == a0 * b1 && w2 == a0 * b2
    requires w3 == a1 * b0 && w4 == a1 * b1 && w5 == a1 * b2
    requires w6 == a2 * b0 && w7 == a2 * b1 && w8 == a2 * b2
    requires x0 == o0 && x1 == o0 && x2 == o0 && x3 == o1 && x4 == o1 && x5 == o1 && x6 == o2 && x7 == o2 && x8 == o2
    requires b0 + b1 + b2 == 1.0 && a0 * o0 + a1 * o1 + a2 * o2 == 0.0
    ensures w0 * x0 + w1 * x1 + w2 * x2 + w3 * x3 + w4 * x4 + w5 * x5 + w6 * x6 + w7 * x7 + w8 * x8 == 0.0
  {
    assert w0 * x0 + w1 * x1 + w2 * x2 == (a0 * o0) * (b0 + b1 + b2);
    assert w3 * x3 + w4 * x4 + w5 * x5 == (a1 * o1) * (b0 + b1 + b2);
    assert w6 * x6 + w7 * x7 + w8 * x8 == (a2 * o2) * (b0 + b1 + b2);
  }

  /** The same for y distances y[3 i + j] = o[j] that depend on j only. */
  lemma SeparableY(w0: real, w1: real, w2: real, w3: real, w4: real, w5: real, w6: real, w7: real, w8: real,
                   y0: real, y1: real, y2: real, y3: real, y4: real, y5: real, y6: real, y7: real, y8: real,
                   a0: real, a1: real, a2: real, b0: real, b1: real, b2: real, o0: real, o1: real, o2: real)
    requires w0 == a0 * b0 && w1 == a0 * b1 && w2 == a0 * b2
    requires w3 == a1 * b0 && w4 == a1 * b1 && w5 == a1 * b2
    requires w6 == a2 * b0 && w7 == a2 * b1 && w8 == a2 * b2
    requires y0 == o0 && y1 == o1 && y2 == o2 && y3 == o0 && y4 == o1 && y5 == o2 && y6 == o0 && y7 == o1 && y8 == o2
    requires a0 + a1 + a2 == 1.0 && b0 * o0 + b1 * o1 + b2 * o2 == 0.0
    ensures w0 * y0 + w1 * y1 + w2 * y2 + w3 * y3 + w4 * y4 + w5 * y5 + w6 * y6 + w7 * y7 + w8 * y8 == 0.0
  {
    assert w0 * y0 + w1 * y1 + w2 * y2 == a0 * (b0 * o0 + b1 * o1 + b2 * o2);
    assert w3 * y3 + w4 * y4 + w5 * y5 == a1 * (b0 * o0 + b1 * o1 + b2 * o2);
    assert w6 * y6 + w7 * y7 + w8 * y8 == a2 * (b0 * o0 + b1 * o1 + b2 * o2);
  }

  /** The weighted distances of a particle's nine neighbours cancel. */
  lemma StencilMomentVanishes(p: SolverParticle, gridResolution: int)
    requires GridSized(gridResolution) && InBand(p.position, gridResolution)
    ensures Moment(ParticleStencil(p, gridResolution), 9) == Zero2
  {
    var c := CellCoordinate(p.position);
    QuadraticWeightsBalance(p.position, c);
    ProductMomentVanishes(p, gridResolution, QuadraticWeights(p.position, c));
  }

  /** The same for any axis weights that sum to 1 and have no first moment. */
  lemma ProductMomentVanishes(p: SolverParticle, gridResolution: int, w: seq<Vec2>)
    requires GridSized(gridResolution) && InBand(p.position, gridResolution) && |w| == 3
    requires var c := CellCoordinate(p.position);
      AxisBalanced(w, p.position.x - c.x as real - 0.5, p.position.y - c.y as real - 0.5)
    ensures Moment(StencilOf(p, gridResolution, w), 9) == Zero2
  {
    var c := CellCoordinate(p.position);
    StencilEntries(p, gridResolution, w);
    MomentFromEntries(StencilOf(p, gridResolution, w), w,
                      p.position.x - c.x as real - 0.5, p.position.y - c.y as real - 0.5);
  }

  /**
   * A grid moving as a whole is picked up exactly: if the nine cells around a
   * particle all have velocity v, the particle gets velocity v, no affine
   * momentum, and an unchanged deformation gradient, whatever the time step.
   */
  lemma GatherRigidTranslation(grid: seq<SolverCell>, p: SolverParticle, gridResolution: int, deltaTime: real, v: Vec2)
    requires GridShaped(grid, gridResolution) && InBand(p.position, gridResolution)
    requires forall k :: 0 <= k < 9 ==> grid[ParticleStencil(p, gridResolution).indices[k]].velocity == v
    ensures var q := GatherParticle(grid, p, gridResolution, deltaTime);
      q.velocity == v && q.affineMomentum == ZeroMat && q.deformationGradient == p.deformationGradient
  {
    RigidSums(grid, p, gridResolution, v);
    StillAffineKeepsDeformation(deltaTime, p.deformationGradient);
  }

  /** Under a uniform neighbourhood velocity v the sums are v and the zero matrix. */
  lemma RigidSums(grid: seq<SolverCell>, p: SolverParticle, gridResolution: int, v: Vec2)
    requires GridShaped(grid, gridResolution) && InBand(p.position, gridResolution)
    requires forall k :: 0 <= k < 9 ==> grid[ParticleStencil(p, gridResolution).indices[k]].velocity == v
    ensures GatherSteps(grid, ParticleStencil(p, gridResolution), 9) == Transfer(v, ZeroMat)
  {
    var s := ParticleStencil(p, gridResolution);
    GatherStepsUniform(grid, s, v, 9);
    StencilWeightsSumToOne(p, gridResolution);
    StencilMomentVanishes(p, gridResolution);
    UnitSumsOfUniform(v, Sum(s.weights, 9), Moment(s, 9));
  }

  lemma UnitSumsOfUniform(v: Vec2, total: real, moment: Vec2)
    requires total == 1.0 && moment == Zero2
    ensures Transfer(Scale(total, v), MatrixUtility.OuterProduct(v, moment)) == Transfer(v, ZeroMat)
  {
  }

  /** With no affine momentum the update I + dt 4 0 leaves F as it is. */
  lemma StillAffineKeepsDeformation(deltaTime: real, f: Mat2)
    ensures Mul(MatAdd(Identity, MatScale(deltaTime, MatScale(4.0, ZeroMat))), f) == f
  {
    ScaledZero(4.0);
    ScaledZero(deltaTime);
    IdentityKeeps(f);
  }

  lemma ScaledZero(s: real)
    ensures MatScale(s, ZeroMat) == ZeroMat
  {
  }

  lemma IdentityKeeps(f: Mat2)
    ensures MatAdd(Identity, ZeroMat) == Identity && Mul(Identity, f) == f
  {
  }

  // ---- integration ----

  /** position += velocity * dt, then clamped into [1, res - 2] on both axes. */
  function IntegrateParticle(p: SolverParticle, gridResolution: int, deltaTime: real): (q: SolverParticle)
    ensures q == p.(position := q.position)
    ensures 3 <= gridResolution ==> InBand(q.position, gridResolution)
  {
    var bound := gridResolution as real - 2.0;
    p.(position := ClampVec(Add(p.position, Scale(deltaTime, p.velocity)), Vec2(1.0, 1.0), Vec2(bound, bound)))
  }

  function Integrate(particles: seq<SolverParticle>, gridResolution: int, deltaTime: real)
    : (q: seq<SolverParticle>)
    ensures |q| == |particles|
  {
    seq(|particles|, i requires 0 <= i < |particles| => IntegrateParticle(particles[i], gridResolution, deltaTime))
  }

  /**
   * Whatever the velocities, integration leaves every particle in the band
   * [1, res - 2] (for a grid of at least three cells), and changes nothing
   * but the positions.
   */
  lemma IntegrateLandsInBand(particles: seq<SolverParticle>, gridResolution: int, deltaTime: real)
    requires 3 <= gridResolution
    ensures var q := Integrate(particles, gridResolution, deltaTime);
      && AllInBand(q, gridResolution)
      && forall i :: 0 <= i < |q| ==> q[i] == particles[i].(position := q[i].position)
  {
  }

  /** A move that stays inside the band is taken as it is: the clamp only acts at the border. */
  lemma IntegrateInsideIsExact(p: SolverParticle, gridResolution: int, deltaTime: real)
    requires InBand(Add(p.position, Scale(deltaTime, p.velocity)), gridResolution)
    ensures IntegrateParticle(p, gridResolution, deltaTime).position == Add(p.position, Scale(deltaTime, p.velocity))
  {
  }

  /** A particle in the band is on a grid of at least three cells. */
  lemma BandNeedsThreeCells(position: Vec2, gridResolution: int)
    requires InBand(position, gridResolution)
    ensures 3 <= gridResolution
  {
  }

  /** Particles in the band stay in the band. */
  lemma IntegrateKeepsBand(particles: seq<SolverParticle>, gridResolution: int, deltaTime: real)
    requires AllInBand(particles, gridResolution)
    ensures AllInBand(Integrate(particles, gridResolution, deltaTime), gridResolution)
  {
    if |particles| > 0 {
      BandNeedsThreeCells(particles[0].position, gridResolution);
      IntegrateLandsInBand(particles, gridResolution, deltaTime);
    }
  }

  // ---- one substep and the step ----

  datatype SolverState = SolverState(particles: seq<SolverParticle>, grid: seq<SolverCell>)

  /** clear, scatter, grid update, gather, integrate. */
  function Substep(particles: seq<SolverParticle>, gridResolution: int, deltaTime: real,
                   material: Material, acceleration: Vec2): (s: SolverState)
    requires GridSized(gridResolution) && AllInBand(particles, gridResolution)
    ensures |s.particles| == |particles| && AllInBand(s.particles, gridResolution)
    ensures GridShaped(s.grid, gridResolution)
  {
    var cleared := JobUtility.Filled(gridResolution * gridResolution, EmptyCell);
    var scattered := Scatter(cleared, particles, gridResolution, deltaTime, material);
    var updated := GridUpdate(scattered, gridResolution, acceleration, deltaTime);
    var gathered := Gather(updated, particles, gridResolution, deltaTime);
    IntegrateKeepsBand(gathered, gridResolution, deltaTime);
    SolverState(Integrate(gathered, gridResolution, deltaTime), updated)
  }

  /**
   * n substeps one after the other, starting from the given state. With no
   * substeps the state is left as it is.
   */
  function Substeps(state: SolverState, gridResolution: int, deltaTime: real,
                    material: Material, acceleration: Vec2, n: nat): (s: SolverState)
    requires GridSized(gridResolution) && AllInBand(state.particles, gridResolution)
    ensures |s.particles| == |state.particles| && AllInBand(s.particles, gridResolution)
    ensures n > 0 ==> GridShaped(s.grid, gridResolution)
    decreases n
  {
    if n == 0 then state
    else
      var before := Substeps(state, gridResolution, deltaTime, material, acceleration, n - 1);
      Substep(before.particles, gridResolution, deltaTime, material, acceleration)
  }

  /**
   * Step(dt) with `iterations` substeps: each substep advances by dt / iterations.
   * When the iteration count is not positive the loop body never runs.
   */
  function StepResult(state: SolverState, gridResolution: int, deltaTime: real,
                      material: Material, acceleration: Vec2, iterations: int): (s: SolverState)
    requires GridSized(gridResolution) && AllInBand(state.particles, gridResolution)
    ensures |s.particles| == |state.particles| && AllInBand(s.particles, gridResolution)
  {
    if iterations <= 0 then state
    else Substeps(state, gridResolution, deltaTime / iterations as real, material, acceleration, iterations)
  }

  /** A cleared grid carries no mass. */
  lemma {:induction false} ClearedGridHasNoMass(n: nat)
    ensures TotalMass(JobUtility.Filled(n, EmptyCell)) == 0.0
  {
    if n > 0 {
      ClearedGridHasNoMass(n - 1);
      assert JobUtility.Filled(n, EmptyCell)[..n - 1] == JobUtility.Filled(n - 1, EmptyCell);
    }
  }

  lemma {:induction false} SameParticleMasses(a: seq<SolverParticle>, b: seq<SolverParticle>)
    requires |a| == |b| && forall i :: 0 <= i < |a| ==> a[i].mass == b[i].mass
    ensures ParticleMass(a) == ParticleMass(b)
    decreases |a|
  {
    if |a| > 0 {
      SameParticleMasses(a[..|a| - 1], b[..|b| - 1]);
    }
  }

  /**
   * Mass bookkeeping of one substep: no particle's mass changes, and the
   * grid it leaves behind holds exactly the particles' total mass.
   */
  lemma SubstepConservesMass(particles: seq<SolverParticle>, gridResolution: int, deltaTime: real,
                             material: Material, acceleration: Vec2)
    requires GridSized(gridResolution) && AllInBand(particles, gridResolution)
    ensures var s := Substep(particles, gridResolution, deltaTime, material, acceleration);
      && (forall i :: 0 <= i < |particles| ==> s.particles[i].mass == particles[i].mass)
      && TotalMass(s.grid) == ParticleMass(particles)
  {
    var cleared := JobUtility.Filled(gridResolution * gridResolution, EmptyCell);
    var scattered := Scatter(cleared, particles, gridResolution, deltaTime, material);
    ClearedGridHasNoMass(gridResolution * gridResolution);
    ScatterConservesMass(cleared, particles, gridResolution, deltaTime, material);
    GridUpdateConservesMass(scattered, gridResolution, acceleration, deltaTime);
  }

  /** A substep run on particles with the same masses as `original` conserves their total mass. */
  lemma SubstepAfterEqualMasses(original: seq<SolverParticle>, particles: seq<SolverParticle>, gridResolution: int,
                                deltaTime: real, material: Material, acceleration: Vec2)
    requires GridSized(gridResolution) && AllInBand(particles, gridResolution)
    requires |particles| == |original| && forall i :: 0 <= i < |original| ==> particles[i].mass == original[i].mass
    ensures var s := Substep(particles, gridResolution, deltaTime, material, acceleration);
      && (forall i :: 0 <= i < |original| ==> s.particles[i].mass == original[i].mass)
      && TotalMass(s.grid) == ParticleMass(original)
  {
    SubstepConservesMass(particles, gridResolution, deltaTime, material, acceleration);
    SameParticleMasses(particles, original);
  }

  /**
   * Mass bookkeeping of the step: after n >= 1 substeps every particle has
   * its old mass, and the grid holds exactly the particles' total mass.
   */
  lemma {:induction false} SubstepsConserveMass(state: SolverState, gridResolution: int, deltaTime: real,
                                                material: Material, acceleration: Vec2, n: nat)
    requires GridSized(gridResolution) && AllInBand(state.particles, gridResolution)
    ensures var s := Substeps(state, gridResolution, deltaTime, material, acceleration, n);
      && (forall i :: 0 <= i < |state.particles| ==> s.particles[i].mass == state.particles[i].mass)
      && (n > 0 ==> TotalMass(s.grid) == ParticleMass(state.particles))
    decreases n
  {
    if n > 0 {
      var before := Substeps(state, gridResolution, deltaTime, material, acceleration, n - 1);
      SubstepsConserveMass(state, gridResolution, deltaTime, material, acceleration, n - 1);
      SubstepAfterEqualMasses(state.particles, before.particles, gridResolution, deltaTime, material, acceleration);
    }
  }

  /**
   * What a step promises: particles stay in the band and keep their masses,
   * and after at least one substep the grid holds exactly the particles' mass.
   */
  lemma StepConservesMass(state: SolverState, gridResolution: int, deltaTime: real,
                          material: Material, acceleration: Vec2, iterations: int)
    requires GridSized(gridResolution) && AllInBand(state.particles, gridResolution)
    ensures var s := StepResult(state, gridResolution, deltaTime, material, acceleration, iterations);
      && AllInBand(s.particles, gridResolution)
      && (forall i :: 0 <= i < |state.particles| ==> s.particles[i].mass == state.particles[i].mass)
      && ParticleMass(s.particles) == ParticleMass(state.particles)
      && (iterations > 0 ==> TotalMass(s.grid) == ParticleMass(state.particles))
  {
    var s := StepResult(state, gridResolution, deltaTime, material, acceleration, iterations);
    if iterations > 0 {
      SubstepsConserveMass(state, gridResolution, deltaTime / iterations as real, material, acceleration, iterations);
    }
    SameParticleMasses(s.particles, state.particles);
  }
}
