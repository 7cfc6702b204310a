/**
 * The solver object: it owns the particle array and the res x res grid,
 * runs the four job loops in place, and refuses every call once disposed.
 * Each job loop is proved to compute the stage function of DynamicsStages.
 */
module Dynamics {
  import opened Algebra
  import opened DynamicsKernel
  import opened DynamicsStages
  import JobUtility

  /** Lame parameters and the number of substeps per step, with their defaults. */
  datatype SolverArgs = SolverArgs(elasticLambda: real, elasticMu: real, iterationNumber: int)

  const DefaultSolverArgs: SolverArgs := SolverArgs(10.0, 20.0, 1)

  /** A call either runs, or throws ObjectDisposedException. */
  datatype Outcome = Completed | ObjectDisposed

  class DynamicsSolver {
    const gridResolution: int
    /**
     * The caller's arguments. The caller owns them and may change them between
     * steps; every Step reads the values held at that moment.
     */
    var args: SolverArgs
    const gravitationalAcceleration: Vec2
    /** The stress of a deformation gradient, stress(mu, lambda, F). */
    const stress: (real, real, Mat2) -> Mat2
    var particles: array<SolverParticle>
    var grid: array<SolverCell>
    var isDisposed: bool

    /** The grid holds res * res cells. */
    ghost predicate Valid()
      reads this
    {
      GridSized(gridResolution) && grid.Length == gridResolution * gridResolution
    }

    function SolverMaterial(): Material
      reads this
    {
      Material(args.elasticMu, args.elasticLambda, stress)
    }

    ghost function State(): SolverState
      reads this, particles, grid
    {
      SolverState(particles[..], grid[..])
    }

    /** A solver with an empty, cleared res x res grid and no particles. */
    constructor (gridResolution: int, args: SolverArgs, gravitationalAcceleration: Vec2,
                 stress: (real, real, Mat2) -> Mat2)
      requires GridSized(gridResolution)
      ensures Valid() && !isDisposed
      ensures this.gridResolution == gridResolution && this.args == args
      ensures this.gravitationalAcceleration == gravitationalAcceleration && this.stress == stress
      ensures fresh(grid) && fresh(particles) && particles.Length == 0
      ensures grid[..] == JobUtility.Filled(gridResolution * gridResolution, EmptyCell)
    {
      this.gridResolution := gridResolution;
      this.args := args;
      this.gravitationalAcceleration := gravitationalAcceleration;
      this.stress := stress;
      grid := new SolverCell[gridResolution * gridResolution](_ => EmptyCell);
      particles := new SolverParticle[0];
      isDisposed := false;
      new;
      ClearGrid();
    }

    /** Throws once the solver is disposed; otherwise does nothing. */
    method CheckDisposed() returns (outcome: Outcome)
      ensures outcome == ObjectDisposed <==> isDisposed
    {
      outcome := if isDisposed then ObjectDisposed else Completed;
    }

    /** Every cell becomes the empty cell: zero momentum, zero mass. */
    method ClearGrid()
      modifies grid
      ensures grid[..] == JobUtility.Filled(grid.Length, EmptyCell)
    {
      var job := new JobUtility.FillJob(grid, EmptyCell);
      job.Execute();
    }

    /**
     * Replaces the particles by positions.Count default particles. The
     * positions themselves are not copied: every particle sits at the origin.
     */
    method InstanceParticles(positions: seq<Vec2>) returns (outcome: Outcome)
      modifies this
      ensures grid == old(grid) && isDisposed == old(isDisposed) && args == old(args)
      ensures old(isDisposed) ==> outcome == ObjectDisposed && particles == old(particles)
      ensures !old(isDisposed) ==>
        && outcome == Completed && fresh(particles)
        && particles[..] == JobUtility.Filled(|positions|, DefaultParticle)
    {
      outcome := CheckDisposed();
      if outcome == ObjectDisposed {
        return;
      }
      particles := new SolverParticle[|positions|](_ => DefaultParticle);
    }

    /** InstanceParticles as its signature promises: particle i starts at positions[i]. */
    method InstanceParticlesAt(positions: seq<Vec2>) returns (outcome: Outcome)
      modifies this
      ensures grid == old(grid) && isDisposed == old(isDisposed) && args == old(args)
      ensures old(isDisposed) ==> outcome == ObjectDisposed && particles == old(particles)
      ensures !old(isDisposed) ==>
        && outcome == Completed && fresh(particles)
        && particles[..] == PlacedParticles(positions)
    {
      outcome := CheckDisposed();
      if outcome == ObjectDisposed {
        return;
      }
      particles := new SolverParticle[|positions|](i requires 0 <= i < |positions| =>
                                                     DefaultParticle.(position := positions[i]));
    }

    /** Marks the solver disposed; a second call throws. */
    method Dispose() returns (outcome: Outcome)
      modifies this
      ensures isDisposed && particles == old(particles) && grid == old(grid) && args == old(args)
      ensures outcome == ObjectDisposed <==> old(isDisposed)
    {
      outcome := CheckDisposed();
      if outcome == ObjectDisposed {
        return;
      }
      isDisposed := true;
    }

    /**
     * Unless disposed: dt /= IterationNumber, then IterationNumber times clear
     * the grid, scatter, update the grid, gather and integrate.
     */
    method Step(deltaTime: real) returns (outcome: Outcome)
      requires Valid()
      requires !isDisposed ==> AllInBand(particles[..], gridResolution)
      modifies particles, grid
      ensures outcome == ObjectDisposed <==> isDisposed
      ensures isDisposed ==> unchanged(particles) && unchanged(grid)
      ensures !isDisposed ==>
        State() == old(StepResult(State(), gridResolution, deltaTime, SolverMaterial(),
                                  gravitationalAcceleration, args.iterationNumber))
    {
      outcome := CheckDisposed();
      if outcome == ObjectDisposed {
        return;
      }
      var iterations := args.iterationNumber;
      if iterations <= 0 {
        return;
      }
      RunSubsteps(deltaTime / iterations as real, iterations, SolverMaterial());
    }

    /** The step loop: `iterations` substeps of `substepTime` each, with one material. */
    method RunSubsteps(substepTime: real, iterations: nat, material: Material)
      requires Valid() && AllInBand(particles[..], gridResolution)
      modifies particles, grid
      ensures State() == old(Substeps(State(), gridResolution, substepTime, material,
                                      gravitationalAcceleration, iterations))
    {
      ghost var start := State();
      for i := 0 to iterations
        invariant State() == Substeps(start, gridResolution, substepTime, material, gravitationalAcceleration, i)
      {
        RunSubstepFrom(substepTime, material, start, i);
      }
    }

    /** A pass of the step loop after i passes from start leaves the state after i + 1. */
    method RunSubstepFrom(substepTime: real, material: Material, ghost start: SolverState, ghost i: nat)
      requires Valid() && AllInBand(start.particles, gridResolution)
      requires State() == Substeps(start, gridResolution, substepTime, material, gravitationalAcceleration, i)
      modifies particles, grid
      ensures State() == Substeps(start, gridResolution, substepTime, material, gravitationalAcceleration, i + 1)
    {
      ghost var before := particles[..];
      RunSubstep(substepTime, material);
      assert Substeps(start, gridResolution, substepTime, material, gravitationalAcceleration, i + 1)
          == Substep(before, gridResolution, substepTime, material, gravitationalAcceleration);
    }

    /**
     * One pass of the step loop's body: clear, scatter, grid update, gather,
     * integrate. The scatter uses the material built from the arguments the
     * solver holds when the step runs.
     */
    method RunSubstep(deltaTime: real, material: Material)
      requires Valid() && AllInBand(particles[..], gridResolution)
      modifies particles, grid
      ensures State() == Substep(old(particles[..]), gridResolution, deltaTime, material,
                                 gravitationalAcceleration)
    {
      ClearGrid();
      ParticleToGrid(deltaTime, material);
      GridUpdate(deltaTime, gravitationalAcceleration);
      GridToParticle(deltaTime);
      IntegrateParticles(deltaTime);
    }

    /**
     * The scatter job, built with the elastic constants of the solver's
     * arguments: every particle adds its nine shares of mass and momentum.
     */
    method ParticleToGrid(deltaTime: real, material: Material)
      requires Valid() && AllInBand(particles[..], gridResolution)
      modifies grid
      ensures grid[..] == Scatter(old(grid[..]), particles[..], gridResolution, deltaTime, material)
    {
      ghost var ps := particles[..];
      var length := particles.Length;
      for i := 0 to length
        invariant grid[..] == Scatter(old(grid[..]), ps[..i], gridResolution, deltaTime, material)
      {
        var particle := particles[i];
        assert InBand(ps[i].position, gridResolution);
        ScatterParticleShares(particle, deltaTime, material);
        assert ps[..i + 1][..i] == ps[..i];
      }
      assert ps[..length] == ps;
    }

    /** The body of the scatter loop for one particle: its nine shares, gx outer, gy inner. */
    method ScatterParticleShares(particle: SolverParticle, deltaTime: real, material: Material)
      requires Valid() && InBand(particle.position, gridResolution)
      modifies grid
      ensures grid[..] == ScatterParticle(old(grid[..]), particle, gridResolution, deltaTime, material)
    {
      var term := ScatterTerm(particle, deltaTime, material);
      var cellCoordinate := CellCoordinate(particle.position);
      var weights := QuadraticWeights(particle.position, cellCoordinate);
      ghost var s := ParticleStencil(particle, gridResolution);
      for gx := 0 to 3
        invariant grid[..] == ScatterSteps(old(grid[..]), particle, s, 3 * gx, term)
      {
        for gy := 0 to 3
          invariant grid[..] == ScatterSteps(old(grid[..]), particle, s, 3 * gx + gy, term)
        {
          ScatterShare(particle, gx, gy, cellCoordinate, weights, term, old(grid[..]), s);
        }
      }
    }

    /** The body of the inner scatter loop: the share of neighbour (gx, gy), the (3 gx + gy)-th step. */
    method ScatterShare(particle: SolverParticle, gx: int, gy: int, cellCoordinate: UInt2, weights: seq<Vec2>,
                        term: Mat2, ghost start: seq<SolverCell>, ghost s: Stencil)
      requires Valid() && InBand(particle.position, gridResolution) && 0 <= gx < 3 && 0 <= gy < 3
      requires cellCoordinate == CellCoordinate(particle.position)
      requires weights == QuadraticWeights(particle.position, cellCoordinate)
      requires s == ParticleStencil(particle, gridResolution) && |start| == grid.Length
      requires grid[..] == ScatterSteps(start, particle, s, 3 * gx + gy, term)
      modifies grid
      ensures grid[..] == ScatterSteps(start, particle, s, 3 * gx + gy + 1, term)
    {
      StencilAt(particle, gridResolution, gx, gy);
      var weight := GetWeight(weights, gx, gy);
      var neighbour := Neighbour(cellCoordinate, gx as uint32, gy as uint32);
      var cellDistance := Vec2(neighbour.x as real - particle.position.x + 0.5,
                               neighbour.y as real - particle.position.y + 0.5);
      var cellIndex := GetCellIndex(gridResolution, neighbour);
      AddShare(cellIndex, particle, weight, cellDistance, term);
      ScatterStepsNext(start, particle, s, 3 * gx + gy, term);
    }

    /** One neighbour's share: mass += w m, momentum += w m (v + C d) + (w term) d. */
    method AddShare(cellIndex: int, particle: SolverParticle, weight: real, cellDistance: Vec2, term: Mat2)
      requires 0 <= cellIndex < grid.Length
      modifies grid
      ensures grid[..] == old(grid[..])[cellIndex := ScatterIntoCell(old(grid[cellIndex]), particle, weight, cellDistance, term)]
    {
      var cell := CellWithShare(grid[cellIndex], particle, weight, cellDistance, term);
      grid[cellIndex] := cell;
    }

    /** The arithmetic of one share, as the scatter loop writes it out. */
    static method CellWithShare(cell: SolverCell, particle: SolverParticle, weight: real, cellDistance: Vec2,
                                term: Mat2) returns (updated: SolverCell)
      ensures updated == ScatterIntoCell(cell, particle, weight, cellDistance, term)
    {
      var q := MulVec(particle.affineMomentum, cellDistance);
      var massContribution := weight * particle.mass;
      var mass := cell.mass + massContribution;
      var velocity := Add(cell.velocity, Scale(massContribution, Add(particle.velocity, q)));
      var momentum := MulVec(MatScale(weight, term), cellDistance);
      velocity := Add(velocity, momentum);
      updated := SolverCell(velocity, mass);
    }

    /** The grid update job, cell by cell in index order. */
    method GridUpdate(deltaTime: real, acceleration: Vec2)
      requires Valid()
      modifies grid
      ensures grid[..] == DynamicsStages.GridUpdate(old(grid[..]), gridResolution, acceleration, deltaTime)
    {
      var length := grid.Length;
      for i := 0 to length
        invariant grid[..i] == DynamicsStages.GridUpdate(old(grid[..]), gridResolution, acceleration, deltaTime)[..i]
        invariant grid[i..] == old(grid[i..])
      {
        UpdateCellAt(i, deltaTime, acceleration);
      }
    }

    /** The body of the grid update loop for cell i. */
    method UpdateCellAt(i: int, deltaTime: real, acceleration: Vec2)
      requires Valid() && 0 <= i < grid.Length
      modifies grid
      ensures grid[..] == old(grid[..])[i := UpdateCell(old(grid[i]), i, gridResolution, acceleration, deltaTime)]
    {
      var cell := grid[i];
      if cell.mass > 0.0 {
        cell := cell.(velocity := Vec2(cell.velocity.x / cell.mass, cell.velocity.y / cell.mass));
        cell := cell.(velocity := Add(cell.velocity, Scale(deltaTime, acceleration)));
        var x := TruncDiv(i, gridResolution);
        var y := i - x * gridResolution;
        if x < 2 || x > gridResolution - 3 {
          cell := cell.(velocity := cell.velocity.(x := 0.0));
        }
        if y < 2 || y > gridResolution - 3 {
          cell := cell.(velocity := cell.velocity.(y := 0.0));
        }
        assert cell == UpdateCell(old(grid[i]), i, gridResolution, acceleration, deltaTime);
        grid[i] := cell;
      }
    }

    /** The gather job: every particle reads back velocity, affine momentum and its new F. */
    method GridToParticle(deltaTime: real)
      requires Valid() && AllInBand(particles[..], gridResolution)
      modifies particles
      ensures particles[..] == Gather(grid[..], old(particles[..]), gridResolution, deltaTime)
    {
      var length := particles.Length;
      for i := 0 to length
        invariant particles[..i] == Gather(grid[..], old(particles[..]), gridResolution, deltaTime)[..i]
        invariant particles[i..] == old(particles[i..])
      {
        assert InBand(old(particles[..])[i].position, gridResolution);
        var particle := GatherParticleSums(particles[i], deltaTime);
        particles[i] := particle;
      }
    }

    /** The body of the gather loop for one particle: sums over gx outer, gy inner, then F. */
    method GatherParticleSums(original: SolverParticle, deltaTime: real) returns (particle: SolverParticle)
      requires Valid() && InBand(original.position, gridResolution)
      ensures particle == DynamicsStages.GatherParticle(grid[..], original, gridResolution, deltaTime)
    {
      particle := original.(velocity := Zero2);
      var cellCoordinate := CellCoordinate(particle.position);
      var weights := QuadraticWeights(particle.position, cellCoordinate);
      var b := ZeroMat;
      ghost var s := ParticleStencil(original, gridResolution);
      for gx := 0 to 3
        invariant particle == original.(velocity := particle.velocity)
        invariant Transfer(particle.velocity, b) == GatherSteps(grid[..], s, 3 * gx)
      {
        for gy := 0 to 3
          invariant particle == original.(velocity := particle.velocity)
          invariant Transfer(particle.velocity, b) == GatherSteps(grid[..], s, 3 * gx + gy)
        {
          var velocity;
          velocity, b := GatherShare(original, gx, gy, cellCoordinate, weights, particle.velocity, b, s);
          particle := particle.(velocity := velocity);
        }
      }
      assert particle.velocity == GatherSteps(grid[..], s, 9).velocity && b == GatherSteps(grid[..], s, 9).affine;
      particle := particle.(affineMomentum := MatScale(4.0, b));
      var fNew := Identity;
      fNew := MatAdd(fNew, MatScale(deltaTime, particle.affineMomentum));
      particle := particle.(deformationGradient := Mul(fNew, particle.deformationGradient));
    }

    /**
     * The body of the inner gather loop: adds neighbour (gx, gy)'s weighted
     * velocity to the velocity sum and its outer product with the distance to B.
     */
    method GatherShare(original: SolverParticle, gx: int, gy: int, cellCoordinate: UInt2, weights: seq<Vec2>,
                       velocity: Vec2, b: Mat2, ghost s: Stencil)
      returns (velocity': Vec2, b': Mat2)
      requires Valid() && InBand(original.position, gridResolution) && 0 <= gx < 3 && 0 <= gy < 3
      requires cellCoordinate == CellCoordinate(original.position)
      requires weights == QuadraticWeights(original.position, cellCoordinate)
      requires s == ParticleStencil(original, gridResolution)
      requires Transfer(velocity, b) == GatherSteps(grid[..], s, 3 * gx + gy)
      ensures Transfer(velocity', b') == GatherSteps(grid[..], s, 3 * gx + gy + 1)
    {
      StencilAt(original, gridResolution, gx, gy);
      var weight := GetWeight(weights, gx, gy);
      var neighbour := Neighbour(cellCoordinate, gx as uint32, gy as uint32);
      var cellIndex := GetCellIndex(gridResolution, neighbour);
      var distance := Vec2(neighbour.x as real - original.position.x + 0.5,
                           neighbour.y as real - original.position.y + 0.5);
      var weightedVelocity := Scale(weight, grid[cellIndex].velocity);
      ghost var k := 3 * gx + gy;
      assert weight == s.weights[k] && cellIndex == s.indices[k] && distance == s.distances[k];
      assert weightedVelocity == Scale(s.weights[k], grid[s.indices[k]].velocity);
      b' := MatAdd(b, MatrixUtility.OuterProduct(weightedVelocity, distance));
      velocity' := Add(velocity, weightedVelocity);
      GatherStepsNext(grid[..], s, 3 * gx + gy);
    }

    /** The integrate job: move by velocity * dt, then clamp into [1, res - 2]. */
    method IntegrateParticles(deltaTime: real)
      modifies particles
      ensures particles[..] == Integrate(old(particles[..]), gridResolution, deltaTime)
    {
      var length := particles.Length;
      for i := 0 to length
        invariant particles[..i] == Integrate(old(particles[..]), gridResolution, deltaTime)[..i]
        invariant particles[i..] == old(particles[i..])
      {
        var particle := particles[i];
        particle := particle.(position := Add(particle.position, Scale(deltaTime, particle.velocity)));
        var bound := gridResolution as real - 2.0;
        particle := particle.(position := ClampVec(particle.position, Vec2(1.0, 1.0), Vec2(bound, bound)));
        particles[i] := particle;
      }
    }
  }

  /** Default particles placed at the given positions. */
  function PlacedParticles(positions: seq<Vec2>): (ps: seq<SolverParticle>)
    ensures |ps| == |positions|
    ensures forall i :: 0 <= i < |ps| ==> ps[i] == DefaultParticle.(position := positions[i])
  {
    seq(|positions|, i requires 0 <= i < |positions| => DefaultParticle.(position := positions[i]))
  }
}
