# Fake Continuum Materials Simulation 2-D, modelled in Dafny

This project models the core of a small two-dimensional material point method
(MPM) simulator written for Unity in C#. It covers three parts.

- **The dynamics solver** (`Dynamics`, `DynamicsStages`, `DynamicsKernel`).
  A `DynamicsSolver` owns an array of particles and a `res x res` grid of
  cells. Its arguments (`IterationNumber` and the two elastic constants)
  belong to the caller, who may change them between steps; the solver holds
  them in the mutable field `args` and every `Step` reads the values held when
  it starts. Each `Step(dt)` splits `dt` into `IterationNumber` substeps. Each
  substep runs five loops in place:
  1. clear the grid;
  2. scatter every particle's mass and momentum onto its 3 x 3 neighbourhood
     with quadratic B-spline weights;
  3. turn cell momentum into velocity, add gravity and zero the component
     across the walls in the two outermost cells;
  4. gather velocity, affine momentum and the new deformation gradient back
     onto the particles;
  5. move the particles and clamp them into the band `[1, res - 2]`.

  Every loop is a `method` whose `ensures` ties the new array contents to a
  stage function of the old contents. Mass conservation, the partition of
  unity of the weights and the exact pick-up of a rigid translation are
  proved about those functions.
- **The terrain collision code** (`TerrainController`, `TerrainStore`).
  - A height field is sampled by linear interpolation (`LerpHeight`).
  - Two collision jobs correct the displacement of grid cells (stored in
    fixed point) and of particles in place.
  - An oriented-box collision test, `BoxCollide`.
  - `Terrain` is the array of heights behind a height field.
- **The utilities** (`MatrixUtility`, `FixedPointUtility`, `JobUtility`,
  `ParticleUtility`):
  - the closed-form 2 x 2 singular value decomposition and the small matrix
    helpers;
  - fixed-point encoding and decoding;
  - the fill job;
  - the guard-band projection and test.

Single-precision floats are modelled as `real`. Unity's `sqrt`, `atan2`,
`cos`, `sin` and `normalize` are fields of a value `e: Elementary` passed to
the members that use them. The laws the proofs rely on are collected in the
predicate `Algebra.Lawful(e)`, and a member assumes them only where it
`requires Lawful(e)`. These laws are:
- `sqrt` of a non-negative number is its non-negative square root;
- `cos(0) = 1` and `sin(0) = 0`;
- the angle-addition formulas;
- the polar form of `atan2` (`sqrt(x^2 + y^2) cos(atan2(y, x)) = x`, and the
  same with `sin` and `y`);
- `|v| normalize(v) = v` for `v != 0`.

C#'s 32-bit integer behaviour is written out where the code depends on it:
- the `uint` neighbour coordinate wraps around at 2^32;
- the `(int)` cast of a `uint` is modelled exactly;
- `(int)` of a float truncates toward zero;
- integer division truncates toward zero.

## Model

| member | source | states |
|---|---|---|
| Dynamics.DynamicsSolver.constructor | Assets/Fake.Dynamics/DynamicsSolver.cs:239-248 | a new solver has a `res*res` grid of empty cells (zero momentum, zero mass), no particles, and is not disposed |
| Dynamics.DynamicsSolver.CheckDisposed | Assets/Fake.Dynamics/DynamicsSolver.cs:333-339 | the call throws (`ObjectDisposed`) exactly when the solver is disposed |
| Dynamics.DynamicsSolver.ClearGrid | Assets/Fake.Dynamics/DynamicsSolver.cs:341-348 | afterwards every cell of the grid is the empty cell |
| Dynamics.DynamicsSolver.InstanceParticles | Assets/Fake.Dynamics/DynamicsSolver.cs:252-258 | on a disposed solver it throws and changes nothing; otherwise the particles become a fresh array of `positions.Count` default particles, all at the origin (the positions are not copied) |
| Dynamics.DynamicsSolver.InstanceParticlesAt | Assets/Fake.Dynamics/DynamicsSolver.cs:252-258 | the corrected version: particle `i` starts at `positions[i]`, and disposal is checked as above |
| Dynamics.PlacedParticles | Assets/Fake.Dynamics/DynamicsSolver.cs:252-258 | one default particle per position, with particle `i` at `positions[i]` |
| Dynamics.DynamicsSolver.Dispose | Assets/Fake.Dynamics/DynamicsSolver.cs:291-299 | afterwards the solver is disposed; the call throws exactly when it was already disposed |
| Dynamics.DynamicsSolver.Step | Assets/Fake.Dynamics/DynamicsSolver.cs:301-315 | a disposed solver throws and leaves particles and grid unchanged; otherwise the new particles and grid are `StepResult` of the old ones: `IterationNumber` substeps of `dt / IterationNumber` each, with the substep count and elastic constants read from the arguments the solver holds when the step starts |
| Dynamics.DynamicsSolver.RunSubsteps | Assets/Fake.Dynamics/DynamicsSolver.cs:307-314 | the step loop leaves the state equal to `Substeps` of the old state: the given number of substeps in order (the loop keeps the substep function as its invariant) |
| Dynamics.DynamicsSolver.RunSubstep | Assets/Fake.Dynamics/DynamicsSolver.cs:307-314 | one pass of the step loop leaves the state equal to `Substep` of the old particles: clear, scatter, grid update, gather, integrate |
| Dynamics.DynamicsSolver.ParticleToGrid | Assets/Fake.Dynamics/DynamicsSolver.cs:27-82 | the scatter job, built with the elastic constants of the solver's arguments (:350-361), leaves the grid equal to `Scatter` of the old grid: each particle, in order, adds its nine shares |
| Dynamics.DynamicsSolver.ScatterParticleShares | Assets/Fake.Dynamics/DynamicsSolver.cs:53-80 | the nine shares of one particle, `gx` outer and `gy` inner, give `ScatterParticle` |
| Dynamics.DynamicsSolver.ScatterShare | Assets/Fake.Dynamics/DynamicsSolver.cs:60-78 | the inner loop body adds the share of neighbour `(gx, gy)`, which is step `3 gx + gy` of the stencil |
| Dynamics.DynamicsSolver.AddShare | Assets/Fake.Dynamics/DynamicsSolver.cs:62-78 | only cell `cellIndex` changes, and it receives one share |
| Dynamics.DynamicsSolver.CellWithShare | Assets/Fake.Dynamics/DynamicsSolver.cs:62-78 | the arithmetic of one share is `ScatterIntoCell` |
| Dynamics.DynamicsSolver.GridUpdate | Assets/Fake.Dynamics/DynamicsSolver.cs:94-124 | the grid update job leaves cell `i` equal to `UpdateCell` of the old cell `i`, for every `i` |
| Dynamics.DynamicsSolver.UpdateCellAt | Assets/Fake.Dynamics/DynamicsSolver.cs:101-121 | only cell `i` changes: a cell with mass gets velocity momentum / mass + dt g, with the wall components zeroed; a massless cell is left alone |
| Dynamics.DynamicsSolver.GridToParticle | Assets/Fake.Dynamics/DynamicsSolver.cs:138-190 | the gather job leaves particle `i` equal to `GatherParticle` of the old particle `i`, for every `i` |
| Dynamics.DynamicsSolver.GatherParticleSums | Assets/Fake.Dynamics/DynamicsSolver.cs:148-187 | one particle's gather: the velocity sum, `C = 4 B` and `F := (I + dt C) F` |
| Dynamics.DynamicsSolver.GatherShare | Assets/Fake.Dynamics/DynamicsSolver.cs:159-174 | the inner loop body adds neighbour `(gx, gy)`'s weighted velocity and its outer product with the distance |
| Dynamics.DynamicsSolver.IntegrateParticles | Assets/Fake.Dynamics/DynamicsSolver.cs:200-214 | every particle is moved by velocity times dt and clamped into `[1, res - 2]` on both axes; nothing else changes |
| DynamicsKernel.UIntCast | Assets/Fake.Dynamics/DynamicsSolver.cs:55-56 | the `(uint)` cast of a non-negative float is its floor |
| DynamicsKernel.CellCoordinate | Assets/Fake.Dynamics/DynamicsSolver.cs:55 | the `(uint2)` cast of a position gives the cell that contains it: each coordinate is at most the position and more than the position minus one |
| DynamicsKernel.NeighbourAxis | Assets/Fake.Dynamics/DynamicsSolver.cs:64-65 | `c + g - 1` in `uint` arithmetic: exact when it is in range, and 2^32 - 1 when `c + g = 0` |
| DynamicsKernel.Int32Cast | Assets/Fake.Dynamics/DynamicsSolver.cs:436-439 | the `(int)` cast of a `uint`: the identity below 2^31, and minus 2^32 above |
| DynamicsKernel.WrapInt32 | Assets/Fake.Dynamics/DynamicsSolver.cs:436-439 | the 32-bit wrap-around of `x * res + y` stays in int range and is the identity on in-range values |
| DynamicsKernel.TruncDiv | Assets/Fake.Dynamics/DynamicsSolver.cs:108-109 | C# integer division agrees with floor division on non-negative operands |
| DynamicsKernel.QuadraticWeights | Assets/Fake.Dynamics/DynamicsSolver.cs:405-412 | three weights per axis, and on each axis they sum to 1 |
| DynamicsKernel.GetWeight | Assets/Fake.Dynamics/DynamicsSolver.cs:424-427 | the 2-D weight is non-negative whenever its two axis weights are |
| DynamicsKernel.GetCellIndex | Assets/Fake.Dynamics/DynamicsSolver.cs:436-439 | the unchecked `x * res + y` is always an int; on the grid it is the row-major index, by `CellIndexInRange` |
| DynamicsKernel.PartitionOfUnity | Assets/Fake.Dynamics/DynamicsSolver.cs:405-412 | on each axis the three weights sum to 1, whatever the offset |
| DynamicsKernel.WeightsNonNegative | Assets/Fake.Dynamics/DynamicsSolver.cs:405-412 | for an offset in `[-0.5, 0.5]`, which the cell coordinate guarantees, every weight is non-negative |
| DynamicsKernel.FirstMomentVanishes | Assets/Fake.Dynamics/DynamicsSolver.cs:405-412 | on each axis the weighted offsets to the three neighbours sum to 0 |
| DynamicsKernel.SecondMomentIsQuarter | Assets/Fake.Dynamics/DynamicsSolver.cs:405-412 | on each axis the weighted squared offsets sum to 1/4, the factor behind `C = 4 B` at line 177 |
| DynamicsKernel.QuadraticWeightsBalance | Assets/Fake.Dynamics/DynamicsSolver.cs:405-412 | the weights of a particle sum to 1 and balance its offsets, on each axis |
| DynamicsKernel.NineWeightsSumToOne | Assets/Fake.Dynamics/DynamicsSolver.cs:424-427 | the nine products `GetWeight(gx, gy)` sum to 1 |
| DynamicsKernel.OffsetInCell | Assets/Fake.Dynamics/DynamicsSolver.cs:55-56 | a particle lies within half a cell of the centre of its cell coordinate |
| DynamicsKernel.NeighboursOnGrid | Assets/Fake.Dynamics/DynamicsSolver.cs:58-65 | for a particle in the band `[1, res - 2]`, all nine neighbours are cells of the grid, without wrap-around |
| DynamicsKernel.CellIndexInRange | Assets/Fake.Dynamics/DynamicsSolver.cs:436-439 | a cell of the grid has index `x res + y`, in `[0, res^2)` |
| DynamicsKernel.CellIndexDecodes | Assets/Fake.Dynamics/DynamicsSolver.cs:108-109 | the grid update's `x = i / res`, `y = i - x res` recovers the cell from its index |
| DynamicsKernel.CellOfIndex | Assets/Fake.Dynamics/DynamicsSolver.cs:108-109 | every index in `[0, res^2)` is the index of the cell it decodes to |
| DynamicsKernel.OriginNeighbourWraps | Assets/Fake.Dynamics/DynamicsSolver.cs:58-65 | a particle left at the origin has a first neighbour that wraps to `(2^32 - 1, 2^32 - 1)`, with the negative index `-res - 1` |
| DynamicsStages.NeighbourIndex | Assets/Fake.Dynamics/DynamicsSolver.cs:64-66 | for a particle in the band, every neighbour index is a valid grid index |
| DynamicsStages.StencilAt | Assets/Fake.Dynamics/DynamicsSolver.cs:58-70 | entry `3 gx + gy` of the stencil is the index, weight and distance the loops compute for `(gx, gy)` |
| DynamicsStages.StencilWeightsSumToOne | Assets/Fake.Dynamics/DynamicsSolver.cs:58-62 | a particle's nine weights sum to 1 |
| DynamicsStages.ScatterIntoCell | Assets/Fake.Dynamics/DynamicsSolver.cs:62-78 | one share adds exactly `weight * mass` to the cell's mass |
| DynamicsStages.ScatterTerm | Assets/Fake.Dynamics/DynamicsSolver.cs:40-53 | with `dt = 0`, or a particle of zero current volume `volume0 det F`, the stress term is the zero matrix |
| DynamicsStages.ScatterSteps | Assets/Fake.Dynamics/DynamicsSolver.cs:58-80 | the running scatter keeps the number of cells |
| DynamicsStages.ScatterStepsOnlyStencil | Assets/Fake.Dynamics/DynamicsSolver.cs:58-80 | the first `k` shares touch only the stencil's first `k` cells; every other cell keeps its value |
| DynamicsStages.ScatterParticle | Assets/Fake.Dynamics/DynamicsSolver.cs:53-80 | scattering one particle keeps the grid `res x res` |
| DynamicsStages.Scatter | Assets/Fake.Dynamics/DynamicsSolver.cs:35-81 | scattering the particles in order keeps the grid `res x res` |
| DynamicsStages.TotalMassUpdate | Assets/Fake.Dynamics/DynamicsSolver.cs:75-77 | replacing one cell changes the grid's total mass by that cell's mass difference |
| DynamicsStages.SharesAreWeightedMass | Assets/Fake.Dynamics/DynamicsSolver.cs:71 | the first `k` mass shares of a particle add up to the sum of the first `k` weights times its mass |
| DynamicsStages.ParticleSharesAreItsMass | Assets/Fake.Dynamics/DynamicsSolver.cs:58-80 | a particle's nine mass shares add up to exactly its mass |
| DynamicsStages.ScatterStepsMass | Assets/Fake.Dynamics/DynamicsSolver.cs:58-80 | after `k` shares the grid has gained exactly the first `k` shares of the particle's mass |
| DynamicsStages.ScatterConservesMass | Assets/Fake.Dynamics/DynamicsSolver.cs:27-82 | the scatter adds exactly the particles' total mass to the grid |
| DynamicsStages.GridUpdateKeepsMasses | Assets/Fake.Dynamics/DynamicsSolver.cs:94-124 | the grid update keeps every cell's mass |
| DynamicsStages.UpdateCell | Assets/Fake.Dynamics/DynamicsSolver.cs:101-121 | one cell's update keeps its mass, and a cell without mass is left exactly as it was |
| DynamicsStages.GridUpdateConservesMass | Assets/Fake.Dynamics/DynamicsSolver.cs:94-124 | the grid update keeps the grid's total mass |
| DynamicsStages.GridUpdateOfCell | Assets/Fake.Dynamics/DynamicsSolver.cs:101-121 | stated per cell `(x, y)`: a cell with mass gets velocity momentum / mass + dt g, except the x (y) component is 0 when `x` (`y`) `< 2` or `> res - 3` |
| DynamicsStages.GatherStepsAtRest | Assets/Fake.Dynamics/DynamicsSolver.cs:155-175 | over neighbours at rest the running gather sums stay zero: no velocity and no affine term |
| DynamicsStages.GatherParticle | Assets/Fake.Dynamics/DynamicsSolver.cs:148-187 | the gather keeps the particle's position, mass and rest volume |
| DynamicsStages.Gather | Assets/Fake.Dynamics/DynamicsSolver.cs:138-190 | the gather keeps the particle count, the band and every mass |
| DynamicsStages.GatherWithoutTimeKeepsDeformation | Assets/Fake.Dynamics/DynamicsSolver.cs:179-185 | with `dt = 0` the deformation gradient is unchanged |
| DynamicsStages.GatherStepsUniform | Assets/Fake.Dynamics/DynamicsSolver.cs:155-175 | over a uniform velocity `v`, the sums after `k` steps are (weights so far) `v` and `v` (x) (weighted distances so far) |
| DynamicsStages.StencilMomentVanishes | Assets/Fake.Dynamics/DynamicsSolver.cs:155-175 | the weighted distances from a particle to its nine neighbours sum to the zero vector |
| DynamicsStages.RigidSums | Assets/Fake.Dynamics/DynamicsSolver.cs:155-175 | over a uniform velocity `v` the gathered velocity is `v` and `B` is zero |
| DynamicsStages.GatherRigidTranslation | Assets/Fake.Dynamics/DynamicsSolver.cs:138-190 | a grid moving as a whole is picked up exactly: velocity `v`, zero affine momentum, unchanged `F`, for any `dt` |
| DynamicsStages.Integrate | Assets/Fake.Dynamics/DynamicsSolver.cs:200-214 | integration keeps the particle count |
| DynamicsStages.IntegrateParticle | Assets/Fake.Dynamics/DynamicsSolver.cs:209-210 | only the position changes, and on a grid of at least three cells it ends in the band `[1, res - 2]` |
| DynamicsStages.IntegrateLandsInBand | Assets/Fake.Dynamics/DynamicsSolver.cs:209-210 | whatever the velocities, every particle ends in the band `[1, res - 2]` (for `res >= 3`), and only positions change |
| DynamicsStages.IntegrateInsideIsExact | Assets/Fake.Dynamics/DynamicsSolver.cs:209-210 | a move that stays in the band is not clamped: the new position is `p + v dt` |
| DynamicsStages.IntegrateKeepsBand | Assets/Fake.Dynamics/DynamicsSolver.cs:200-214 | particles in the band stay in the band |
| DynamicsStages.Substep | Assets/Fake.Dynamics/DynamicsSolver.cs:309-313 | a substep keeps the particle count and the band, and leaves a `res x res` grid |
| DynamicsStages.Substeps | Assets/Fake.Dynamics/DynamicsSolver.cs:307-314 | `n` substeps keep the particle count and the band |
| DynamicsStages.StepResult | Assets/Fake.Dynamics/DynamicsSolver.cs:301-315 | a step keeps the particle count and the band; with no iterations nothing changes |
| DynamicsStages.ClearedGridHasNoMass | Assets/Fake.Dynamics/DynamicsSolver.cs:341-348 | a cleared grid has total mass 0 |
| DynamicsStages.SubstepConservesMass | Assets/Fake.Dynamics/DynamicsSolver.cs:309-313 | a substep keeps every particle's mass, and the grid it leaves holds exactly the particles' total mass |
| DynamicsStages.SubstepsConserveMass | Assets/Fake.Dynamics/DynamicsSolver.cs:307-314 | after `n` substeps every particle has its original mass, and for `n > 0` the grid holds exactly the particles' total mass |
| DynamicsStages.StepConservesMass | Assets/Fake.Dynamics/DynamicsSolver.cs:301-315 | a step keeps the band, every particle's mass and the total mass, and after at least one iteration the grid holds exactly that mass |
| ParticleUtility.ProjectInsideGuardian | Assets/Fake.Dynamics/Particle.cs:23-29 | the projection lands in the guarded box `[g, size - g - 1]^2` when it is non-empty, and at `(g, g)` when it is empty |
| ParticleUtility.ProjectFixesInside | Assets/Fake.Dynamics/Particle.cs:23-29 | a position already in the guarded box is left where it is |
| ParticleUtility.ProjectIdempotent | Assets/Fake.Dynamics/Particle.cs:23-29 | projecting twice is projecting once |
| ParticleUtility.ProjectAxesIndependent | Assets/Fake.Dynamics/Particle.cs:23-29 | each coordinate of the projection depends only on the same coordinate of the input |
| ParticleUtility.ProjectIsNearest | Assets/Fake.Dynamics/Particle.cs:23-29 | on each axis, no point of the guarded box is closer to the input than the projection |
| ParticleUtility.UnitGuardIsIntegrationRange | Assets/Fake.Dynamics/Particle.cs:23-29 | with a guard of 1 the projection is the solver's clamp into `[1, res - 2]` |
| ParticleUtility.InsideGuardian | Assets/Fake.Dynamics/Particle.cs:32-55 | the four early returns amount to: `id` lies strictly inside the guarded box on both axes, in both directions |
| ParticleUtility.InsideGuardianIsFixedByProjection | Assets/Fake.Dynamics/Particle.cs:23-55 | a cell that is inside the guard is left alone by the projection |
| ParticleUtility.GuardBoundaryDisagreement | Assets/Fake.Dynamics/Particle.cs:23-55 | the converse fails on the boundary: the corner `(g, g)` is fixed by the projection but is not inside the guard |
| MatrixUtility.QSquared | Assets/Fake.Utilities/MatrixUtility.cs:27-32 | `Q >= 0` and `Q^2 = E^2 + H^2` |
| MatrixUtility.RSquared | Assets/Fake.Utilities/MatrixUtility.cs:27-33 | `R >= 0` and `R^2 = F^2 + G^2` |
| MatrixUtility.SingularValuesDecomposition | Assets/Fake.Utilities/MatrixUtility.cs:20-49 | `u` and `vt` have the shape of rotations, and `sigma` is `(Q + R, Q - R)`: they sum to `2Q` and differ by `2R` |
| MatrixUtility.SigmaOrdered | Assets/Fake.Utilities/MatrixUtility.cs:32-35 | the first singular value is non-negative and at least the second |
| MatrixUtility.SigmaProductIsDeterminant | Assets/Fake.Utilities/MatrixUtility.cs:20-49 | `sx sy = det m` |
| MatrixUtility.SigmaSquaresAreFrobenius | Assets/Fake.Utilities/MatrixUtility.cs:20-49 | `sx^2 + sy^2` is the sum of the squares of the four entries |
| MatrixUtility.SigmaYNegativeIffReflection | Assets/Fake.Utilities/MatrixUtility.cs:20-49 | the second singular value is negative exactly when `det m < 0`: it is signed |
| MatrixUtility.Reconstruction | Assets/Fake.Utilities/MatrixUtility.cs:20-49 | `u diag(sigma) vt = m` for every 2 x 2 matrix |
| MatrixUtility.DiagonalDecomposition | Assets/Fake.Utilities/MatrixUtility.cs:20-49 | `diag(a, b)` with `abs(b) <= a` decomposes as `(I, (a, b), I)` |
| MatrixUtility.IdentityDecomposition | Assets/Fake.Tests/MatrixUtilityTests.cs:13-20 | the identity decomposes as `(I, (1, 1), I)` |
| MatrixUtility.SymmetricExample | Assets/Fake.Tests/MatrixUtilityTests.cs:23-36 | `[[3, 1], [1, 3]]` has singular values `(4, 2)` and is rebuilt exactly |
| MatrixUtility.TraceLinearAndCyclic | Assets/Fake.Utilities/MatrixUtility.cs:52-58 | the trace is additive, scales with its argument, is unchanged by transposition, and satisfies `tr(AB) = tr(BA)` |
| MatrixUtility.OuterProduct | Assets/Fake.Utilities/MatrixUtility.cs:61-64 | the trace of `x y^T` is `x . y`, and it is the zero matrix when either factor is zero |
| MatrixUtility.Diagonal | Assets/Fake.Utilities/MatrixUtility.cs:67-70 | `diag(v)` has trace `v.x + v.y` and determinant `v.x v.y` |
| MatrixUtility.OuterProductApplied | Assets/Fake.Utilities/MatrixUtility.cs:61-64 | `(x y^T) z = (y . z) x`: the columns are `x y.x` and `x y.y` |
| MatrixUtility.DiagonalApplied | Assets/Fake.Utilities/MatrixUtility.cs:67-70 | `diag(v)` scales each coordinate by the matching entry of `v` |
| MatrixUtility.Length | Assets/Fake.Utilities/MatrixUtility.cs:73-79 | for lawful functions `Length` is non-negative and its square is `m00^2 + m11^2`: only the diagonal counts |
| FixedPointUtility.Truncate | Assets/Fake.Utilities/FixedPointUtility.cs:10-13 | the `(int)` cast rounds toward zero |
| FixedPointUtility.DecodeFixedPoint | Assets/Fake.Utilities/FixedPointUtility.cs:5-8 | the decoded value times the multiplier is the stored integer |
| FixedPointUtility.DecodeFixedPointVec | Assets/Fake.Utilities/FixedPointUtility.cs:5-8 | the `int2` decode the grid job relies on, component by component: each decoded value times the multiplier is the stored integer |
| FixedPointUtility.EncodeFixedPoint | Assets/Fake.Utilities/FixedPointUtility.cs:10-13 | the code is an int, with `x m` truncated toward zero |
| FixedPointUtility.EncodeFixedPointVec | Assets/Fake.Utilities/FixedPointUtility.cs:10-13 | the `int2` encode, component by component: both codes are ints, and a non-negative component is never encoded above `x m` |
| FixedPointUtility.DecodeEncodeError | Assets/Fake.Utilities/FixedPointUtility.cs:5-13 | decoding an encoding loses less than one step `1/m` |
| FixedPointUtility.DecodeEncodeVecError | Assets/Fake.Utilities/FixedPointUtility.cs:5-13 | the same for each coordinate of a vector |
| FixedPointUtility.DecodeEncodeTowardZero | Assets/Fake.Utilities/FixedPointUtility.cs:5-13 | the round trip never moves a value away from zero |
| FixedPointUtility.EncodeDecode | Assets/Fake.Utilities/FixedPointUtility.cs:5-13 | encoding a decoded int gives back that int |
| FixedPointUtility.TruncateMonotone | Assets/Fake.Utilities/FixedPointUtility.cs:12 | truncation is monotone |
| FixedPointUtility.EncodeMonotone | Assets/Fake.Utilities/FixedPointUtility.cs:10-13 | encoding is monotone |
| FixedPointUtility.EncodeOdd | Assets/Fake.Utilities/FixedPointUtility.cs:10-13 | encoding is odd: `-x` encodes to minus the code of `x` |
| FixedPointUtility.DecodeAdditive | Assets/Fake.Utilities/FixedPointUtility.cs:5-8 | decoding is additive |
| FixedPointUtility.DecodeExample | Assets/Fake.Tests/FixedPointUtilityTests.cs:10-15 | `Decode(10, 10) = 1` |
| FixedPointUtility.EncodeExample | Assets/Fake.Tests/FixedPointUtilityTests.cs:18-23 | `Encode(1, 10) = 10` |
| JobUtility.Filled | Assets/Fake.Utilities/JobUtility.cs:19-28 | `n` copies of the value: the length is `n` and every element is the value |
| JobUtility.FillJob.constructor | Assets/Fake.Utilities/JobUtility.cs:12-17 | the job holds the array and the value |
| JobUtility.FillJob.Execute | Assets/Fake.Utilities/JobUtility.cs:19-28 | afterwards every element of the array is the value, and the length is unchanged |
| JobUtility.FillJob.ExecuteTwice | Assets/Fake.Utilities/JobUtility.cs:19-28 | a second run leaves what one run left: the fill does not depend on the earlier contents |
| JobUtility.FillSingleElement | Assets/Fake.Tests/JobUtilityTests.cs:10-16 | filling a one-element int array with 1 leaves 1 at index 0 |
| TerrainStore.Terrain.constructor | Assets/Fake.Terrain/Terrain.cs:8-12 | a new terrain has `resolution` heights, all 0 |
| TerrainStore.Terrain.Resolution | Assets/Fake.Terrain/Terrain.cs:14 | the resolution is the number of stored heights |
| TerrainStore.Terrain.GetHeight | Assets/Fake.Terrain/Terrain.cs:16-19 | returns the stored height at `index` |
| TerrainStore.Terrain.SetHeight | Assets/Fake.Terrain/Terrain.cs:21-24 | only the height at `index` changes, and it becomes `height` |
| TerrainStore.SetThenGet | Assets/Fake.Terrain/Terrain.cs:16-24 | reading back a set height gives it, and a different index keeps its old height |
| TerrainController.LerpHeight | Assets/Fake.Controllers/FakeTerrainController.cs:172-190 | as written: at the right end it returns the clamped last height, unscaled, with normal `(0, 1)` |
| TerrainController.LerpHeightCorrected | Assets/Fake.Controllers/FakeTerrainController.cs:172-190 | the corrected sampler: at the right end the clamped last height scaled by `res`, with normal `(0, 1)` |
| TerrainController.SegmentInRange | Assets/Fake.Controllers/FakeTerrainController.cs:179-183 | every `x` in `[0, res)` selects a segment whose two heights exist |
| TerrainController.CorrectedParameterInUnitInterval | Assets/Fake.Controllers/FakeTerrainController.cs:179-181 | with the spacing `res / (n - 1)`, the parameter `t` lies in `[0, 1)` |
| TerrainController.CorrectedSegmentHeight | Assets/Fake.Controllers/FakeTerrainController.cs:179-189 | the corrected height is `lerp(h0, h1, t) res` for the segment's clamped heights, with `t` in `[0, 1)` |
| TerrainController.CorrectedHeightBounded | Assets/Fake.Controllers/FakeTerrainController.cs:172-190 | the corrected ground is never below 0 nor above `res` |
| TerrainController.CorrectedLevelField | Assets/Fake.Controllers/FakeTerrainController.cs:172-190 | a level field of height `c` is sampled at `c res` everywhere, the right end included |
| TerrainController.LerpHeightOvershoots | Assets/Fake.Controllers/FakeTerrainController.cs:179-189 | as written: the heights `[0, 1]` on a 64 grid are sampled at 96 for `x = 48`, above the field's highest point 64 |
| TerrainController.LerpHeightEndUnscaled | Assets/Fake.Controllers/FakeTerrainController.cs:174-189 | as written: a level field of height 1 is sampled at 64 for `x = 63` but at 1 for `x = 64` |
| TerrainController.LevelFieldSample | Assets/Fake.Controllers/FakeTerrainController.cs:172-190 | as written, on a level field of clamped height `c` the normal is `(0, 1)` and the height is `c res` away from the right end and `c` at it |
| TerrainController.CorrectedLevelNormalIsUp | Assets/Fake.Controllers/FakeTerrainController.cs:172-190 | the corrected sampler, too, returns `(0, 1)` on a level field |
| TerrainController.LevelSegmentSample | Assets/Fake.Controllers/FakeTerrainController.cs:183-189 | a level segment of positive spacing gives height `h res` and normal `(0, 1)` at every `t` |
| TerrainController.GridContact | Assets/Fake.Controllers/FakeTerrainController.cs:41-57 | with the ground sampled by `LerpHeight` as written: the impulse is never negative, and a cell that does not collide gets none |
| TerrainController.GridCollide | Assets/Fake.Controllers/FakeTerrainController.cs:35-60 | the grid collision keeps the cell's mass and volume |
| TerrainController.GridCollideKeepsUnpushedCells | Assets/Fake.Controllers/FakeTerrainController.cs:35-60 | a cell that is not below the ground, gets no impulse, or has relaxation 1 keeps its fixed-point displacement exactly |
| TerrainController.GridCollideCorrection | Assets/Fake.Controllers/FakeTerrainController.cs:35-60 | the new decoded displacement is within one fixed-point step of `d - (1 - relaxation) impulse n` on each axis |
| TerrainController.GridPosition | Assets/Fake.Controllers/FakeTerrainController.cs:37-38 | the job's `x = i / 64`, `y = i - 64 x` inverts the row-major index: `64 x + y = i`, with `y` in `[0, 64)` for `i >= 0` |
| TerrainController.GridPositionOfCellIndex | Assets/Fake.Controllers/FakeTerrainController.cs:37-40 | on the controller's 64 x 64 grid the job recovers cell `(x, y)` from its index |
| TerrainController.GridPositionAssumes64 | Assets/Fake.Controllers/FakeTerrainController.cs:37-40 | the decode ignores the job's resolution field: on a 32 grid, cell `(1, 0)` with index 32 is placed at `(0, 32)` |
| TerrainController.GridCollisionJob.constructor | Assets/Fake.Controllers/FakeTerrainController.cs:20-33 | the job holds the grid, multiplier, relaxation, heights, resolution and time step it was given |
| TerrainController.GridCollisionJob.Execute | Assets/Fake.Controllers/FakeTerrainController.cs:35-60 | only cell `i` changes, and it becomes `GridCollide` of its old value, with the ground sampled by `LerpHeight` as written |
| TerrainController.GridCollisions | Assets/Fake.Controllers/FakeTerrainController.cs:140-154 | one pass over the grid keeps the cell count and every mass and volume |
| TerrainController.FullyRelaxedGridUnchanged | Assets/Fake.Controllers/FakeTerrainController.cs:140-154 | with relaxation 1 a grid pass changes nothing |
| TerrainController.ParticleCollide | Assets/Fake.Controllers/FakeTerrainController.cs:82-89 | given the ground sample at the particle's x, only the displacement changes, and a particle on or above the ground is untouched |
| TerrainController.ParticlePushedByDepth | Assets/Fake.Controllers/FakeTerrainController.cs:78-90 | a particle below the ground is pushed along the ground normal by `(1 - relaxation)` times its depth; with relaxation 1 it does not move |
| TerrainController.LevelGroundPushesUp | Assets/Fake.Controllers/FakeTerrainController.cs:78-90 | with `LerpHeight` as written, on level ground a particle below the surface is pushed straight up by `(1 - relaxation)` times its depth |
| TerrainController.ParticleAboveFieldPushed | Assets/Fake.Controllers/FakeTerrainController.cs:78-90 | as written, a particle at `(48, 70)` over the field `[0, 1]` on a 64 grid is above the field's top yet is pushed, by `(1 - relaxation) 26` along the normal |
| TerrainController.CorrectedGroundBelowTop | Assets/Fake.Controllers/FakeTerrainController.cs:78-90 | with the corrected sampler a particle at or above height `res` is never pushed |
| TerrainController.ParticleCollisionJob.constructor | Assets/Fake.Controllers/FakeTerrainController.cs:64-76 | the job holds the particles, relaxation, heights, resolution and time step it was given |
| TerrainController.ParticleCollisionJob.Execute | Assets/Fake.Controllers/FakeTerrainController.cs:78-90 | only particle `i` changes, and it becomes `ParticleCollide` of its old value and the `LerpHeight` sample at its x |
| TerrainController.ParticleCollisions | Assets/Fake.Controllers/FakeTerrainController.cs:156-169 | one pass over the particles keeps their count and changes nothing but displacements |
| TerrainController.FullyRelaxedParticlesUnchanged | Assets/Fake.Controllers/FakeTerrainController.cs:156-169 | with relaxation 1 a particle pass changes nothing |
| TerrainController.FakeTerrainController.constructor | Assets/Fake.Controllers/FakeTerrainController.cs:93-99 | the controller holds its relaxation and heights |
| TerrainController.FakeTerrainController.ResolveGridCollisions | Assets/Fake.Controllers/FakeTerrainController.cs:140-154 | running the grid job on every index leaves the grid equal to `GridCollisions` of the old grid |
| TerrainController.FakeTerrainController.ResolveParticleCollisions | Assets/Fake.Controllers/FakeTerrainController.cs:156-169 | running the particle job on every index leaves the particles equal to `ParticleCollisions` of the old ones |
| TerrainController.BoxResultDepth | Assets/Fake.Controllers/FakeTerrainController.cs:200-220 | the penetration is the smaller face depth, and it is positive exactly when the point is strictly inside the box |
| TerrainController.BoxCollide | Assets/Fake.Controllers/FakeTerrainController.cs:200-220 | as written: it collides exactly when the box-frame offset is strictly inside the half-size on both axes, and the penetration is the smaller face depth |
| TerrainController.BoxCollideCorrected | Assets/Fake.Controllers/FakeTerrainController.cs:200-220 | the corrected version detects the same collisions with the same penetration |
| TerrainController.BoxPointOnBox | Assets/Fake.Controllers/FakeTerrainController.cs:211 | the reported point lies on the closed box |
| TerrainController.BoxCollideInsidePoint | Assets/Fake.Controllers/FakeTerrainController.cs:211-219 | a colliding position is its own contact point |
| TerrainController.PushedOutInBoxFrame | Assets/Fake.Controllers/FakeTerrainController.cs:208-219 | moving back by the penetration along the normal moves the box-frame offset by the penetration along the local axis |
| TerrainController.BoxCollideCorrectedResolves | Assets/Fake.Controllers/FakeTerrainController.cs:200-220 | corrected: a colliding point off both box axes, pushed out, lands exactly on a face of the box |
| TerrainController.BoxCollideUnrotated | Assets/Fake.Controllers/FakeTerrainController.cs:202-204 | an unrotated box collides in the world frame shifted to its centre |
| TerrainController.BoxCollideNormalAxisSwapped | Assets/Fake.Controllers/FakeTerrainController.cs:208 | as written: the unit box and the point `(0.5, 0.9)` give penetration 0.1, the top-face depth, but the normal `(-1, 0)` |
| TerrainController.SidewaysPushStaysInside | Assets/Fake.Controllers/FakeTerrainController.cs:208-219 | pushing the point `(0.5, 0.9)` out by the penetration and normal that `BoxCollideInFrame` itself reports for it moves it to `(0.6, 0.9)`, still strictly inside the box |
| TerrainController.UnitBoxHolds | Assets/Fake.Controllers/FakeTerrainController.cs:200-220 | the unrotated unit box at the origin reports a collision for every point strictly inside it, so `(0.6, 0.9)` still collides |

## Left out

- `CalculateParticleVolumes` (DynamicsSolver.cs:260-289) is not modelled. It runs a scatter of mass and a density gather, and the solver never calls it inside `Step`. The model keeps `volume0` as a given field of each particle.
- The stress of the deformation gradient (DynamicsSolver.cs:39-51) is a function value `stress(mu, lambda, F)` given to the solver. In the source it is computed from `J = det F`, the inverse transpose `F^-T`, `log J` and the factor `1 / J`, in floating point; the decomposition in `MatrixUtility` is not used by the solver. The scatter term `-volume 4 stress dt` with `volume = volume0 det F` is modelled around it.
- Burst compilation, job scheduling (`Schedule`, `Run`, `Complete`), `IJobParallelFor` batching and the concurrency it allows are not modelled. Every job is a sequential loop in index order, and the parallel-for jobs write only their own index.
- Unsafe pointers, `NativeArray` allocation and disposal are not modelled. `Dispose` models only the disposed flag and the exception.
- DynamicsStages.ScatterTerm: assumes the stress is a finite value for every `F`. In the source it is not finite when `det F <= 0`: `inverse(transpose(F))` is singular, `log J` is `-inf` or NaN and `1 / J` is infinite (DynamicsSolver.cs:40-51), so the term is NaN and NaN is added to the velocity of the neighbour cells (:76). Those cells may be massless, and then the `cell.mass > 0` guard of the grid update (:103) never clears it. Every default-initialised particle is such a particle: `DefaultParticle` has `F = 0`, so every particle `InstanceParticles` and `InstanceParticlesAt` create starts in this case. The model's `det F = 0` clause of `ScatterTerm` (a zero term) holds only because the stress is modelled as a total real function.
- Float rounding, infinities and NaN are not modelled: every float is a real. In particular the division by `IterationNumber` in `Step` for a non-positive count is not modelled; the model runs no substep, which is what the loop does.
- `sqrt`, `atan2`, `cos`, `sin` and `normalize` are parameters constrained by the laws in `Algebra.Lawful`, not computed.
- Dynamics.DynamicsSolver.Step: requires that every particle lies in the band `[1, res - 2]`. The band is the design's invariant, kept by the clamp at the end of the integrate job (DynamicsSolver.cs:209-210). Outside it the source's behaviour depends on the position: some neighbour indices fall outside the grid and read or write through the raw pointer out of bounds, some wrap and alias a cell of the neighbouring row (a particle at `(3, 0.5)` with `res = 8` scatters to and gathers from cells 15, 23 and 31 for its `gy = 0` neighbours), and some, such as `(6.5, 3)` with `res = 8`, are computed correctly. The model gives none of these cases a meaning. `InstanceParticles` as written breaks this precondition, as the first finding shows.
- The solver file and the type files disagree. `DynamicsSolver.cs` works on `Particle` and `Cell` values and reads `particle.volume0` (:41), `particle.affineMomentum` (:66), `particle.velocity` (:73) and a `float2` `cell.velocity` (:73-118). `Particle.cs` (lines 7-18) declares none of the first three, and `Cell.cs` declares only an `int2` displacement and `int` mass and volume. The model gives the solver records with exactly the fields the solver reads, `SolverParticle` and `SolverCell`, and uses the declared layouts `Particle` and `Cell` in the collision code, which reads only those.
- `OnEnable`, `Start`, `Update`, the `LineRenderer` drawing, `m_Size` and the registration as an `ICollisionSolver` (FakeTerrainController.cs:93-138) are Unity scene plumbing and are not modelled.
- TerrainController.GridCollisionJob.Execute and TerrainController.ParticleCollisionJob.Execute: require that the heights the sampler reads exist (`LerpDefined`). For an `x` outside the field the source reads the heights array out of bounds; the model gives that case no meaning.
- The `deltaTime` fields of both collision jobs are never read by `Execute`. The two `ResolveCollisions` overloads never set them, so they keep their default 0, and the overloads' own `deltaTime` parameter is unused (FakeTerrainController.cs:140-169). The model builds both jobs with `deltaTime` 0 accordingly.
- Dynamics.DynamicsSolver.constructor: requires `0 <= res` and `res * res` within the int range. The source passes `res * res` unchecked to the `NativeArray` constructor, so a negative `res` with a small square gives a grid indexed with a negative stride, and a square that wraps negative throws. Neither case is modelled.
- TerrainStore.Terrain.constructor: requires `0 <= resolution`. For a negative resolution the source's `new float[resolution]` throws; that exception is not modelled.
- `FixedPointUtility.cs` (lines 5-13) defines only the scalar `Decode` and `Encode`. The grid job calls them on `int2` and `float2` values (FakeTerrainController.cs:41 and :59), which the source does not declare. The model reads those calls component by component as `DecodeFixedPointVec` and `EncodeFixedPointVec`.
- `JobUtility.Fill`, which `ClearGrid` calls (DynamicsSolver.cs:343), is commented out in `JobUtility.cs` (lines 31-40). The model clears the grid with the fill job's `Execute` loop (JobUtility.cs:19-28), which is what `Fill` would run.
- The normal `LerpHeight` returns is `(dir.y, dir.x)`. This is not perpendicular to the segment unless the segment is level. It is modelled as written, in both samplers, and only the level case is proved about.

## Findings

| source | as written | input that shows it | evidently intended | confidence | as-written member | corrected member |
|---|---|---|---|---|---|---|
| Assets/Fake.Dynamics/DynamicsSolver.cs:252-258 | `InstanceParticles` allocates `positions.Count` default particles and never copies the positions, so every particle sits at `(0, 0)` | any non-empty list of positions. Every particle is then at the origin, whose first neighbour wraps to `(2^32 - 1, 2^32 - 1)` with grid index `-res - 1` | particle `i` starts at `positions[i]` | not executed | Dynamics.DynamicsSolver.InstanceParticles, DynamicsKernel.OriginNeighbourWraps | Dynamics.DynamicsSolver.InstanceParticlesAt |
| Assets/Fake.Controllers/FakeTerrainController.cs:179-181 | the segment is chosen with spacing `res / (n - 1)`, but `t` is measured with `offset = res / n` | heights `[0, 1]`, `res = 64`, `x = 48`: `t = 1.5`, and the sampled height is 96, above the field's top 64 | `offset = res / (n - 1)`, so that `t` is in `[0, 1)` | not executed | TerrainController.LerpHeightOvershoots, TerrainController.ParticleAboveFieldPushed | TerrainController.CorrectedHeightBounded, TerrainController.CorrectedGroundBelowTop |
| Assets/Fake.Controllers/FakeTerrainController.cs:174-177 | at the right end the last height is returned without the factor `res` | heights `[1, 1]`, `res = 64`: the height is 64 at `x = 63` but 1 at `x = 64` | `clamp(h[n - 1], 0, 1) res` | not executed | TerrainController.LerpHeightEndUnscaled | TerrainController.CorrectedLevelField |
| Assets/Fake.Controllers/FakeTerrainController.cs:208 | the box-frame normal is taken along x when the y penetration is the smaller one, and along y otherwise | unrotated unit box at the origin, point `(0.5, 0.9)`: the penetration is 0.1 (the top face), but the normal is `(-1, 0)`, so pushing out moves the point to `(0.6, 0.9)`, still inside | the normal along the axis of least penetration | not executed | TerrainController.BoxCollideNormalAxisSwapped, TerrainController.SidewaysPushStaysInside, TerrainController.UnitBoxHolds | TerrainController.BoxCollideCorrectedResolves |
