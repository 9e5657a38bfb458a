# Windchimes wind simulation in Dafny

A model of the parts of the Windchimes wind simulation that can be stated
without the engine:

- **Wind source** (`wind_particle.dfy`, `wind_source.dfy`).
  - The wind source keeps a list of wind particles, a path per particle id, a pruning countdown and an id counter.
  - Each frame it updates every particle. A dead particle is skipped. A particle that left the pruning sphere after entering it dies. Any other particle casts a ray over the distance it would travel.
  - On every hit, a particle hands an impulse to the bell, loses speed by the energy-transfer rule, reflects, and continues along the reflection.
  - Pruning periodically removes the dead particles and their paths.
  - Emission appends a particle with the next id.
  - `WindSource` is a class whose fields the methods update.
  - A particle's step is a pure function, `WindParticles.Step`. The update loop is proved against it.
- **Capped-cylinder queries** (`raycasting.dfy`): the point-in-cylinder test, the ray intersector and its backtracking variant, and the segment query. Each is a function on reals.
- **Bounds** (`bounds.dfy`).
  - The bounds of a transform are a per-axis min/max fold over its renderer boxes, run while its rotation is reset and then restored.
  - The bounds of a collection encapsulate every element's bounds into a box at the first element's position.
- **Partition** (`partition.dfy`): the two-pointer in-place partition of an array by a predicate, with the repository's three expected results.

The engine primitives are parameters: `Mathf.Sqrt`, `Vector3.normalized`, `Vector3.Reflect`, the physics raycast and the frame time. Lemmas that need exact behaviour ask for it explicitly: `ExactSqrt` for the square root, `IsMirror` for the reflection, unit normals for the raycast. Floats are modelled as reals.

In two places this model follows the code rather than its description:
- Pruning keeps the live particles in their original order, as the code's `Where` filter does. It is not an in-place partition, and `Partition` is never called by the simulation.
- With no bells, the bounds computation throws at its first element. `Start` then stops before setting the pruning fields, so they keep their defaults.

## Model

| member | source | states |
|---|---|---|
| ArrayExtensions.Partition | Assets/Scripts/Extensions/ArrayExtensions.cs:33-62 | returns k with 0 <= k <= length; every element below k satisfies the predicate and every element from k fails it; the array is a permutation of its input; k is the number of input elements satisfying the predicate (0 for an empty array) |
| ArrayExtensions.SkipSatisfying | Assets/Scripts/Extensions/ArrayExtensions.cs:40-44 | the inner loop moves `first` past satisfying elements only, stopping at `last` or at an element that fails |
| ArrayExtensions.SkipFailing | Assets/Scripts/Extensions/ArrayExtensions.cs:45-52 | the do-while moves `last` down at least once, past failing elements only, stopping at `first` or at an element that satisfies |
| ArrayExtensions.Swap | Assets/Scripts/Extensions/ArrayExtensions.cs:54-56 | the two slots are exchanged, every other slot is unchanged, the multiset of elements is kept |
| ArrayExtensions.CountPermutation | Assets/Scripts/Extensions/ArrayExtensions.cs:54-56 | two arrangements of the same elements have the same number of elements satisfying the predicate |
| ArrayExtensions.PartitionedCount | Assets/Scripts/Extensions/ArrayExtensions.cs:33-62 | a sequence split at k by the predicate has exactly k satisfying elements |
| ArrayExtensions.PartitionIndexIsCount | Assets/Scripts/Extensions/ArrayExtensions.cs:33-62 | any partition of the input returns the count of satisfying input elements, whatever order they end in |
| ArrayExtensions.EvenDigits | Assets/Scripts/Extensions/ArrayExtensions.cs:66-74 | five of the digits 0 to 8 are even |
| ArrayExtensions.ThreeDigits | Assets/Scripts/Extensions/ArrayExtensions.cs:76-84 | one of the digits 0 to 8 is 3 |
| ArrayExtensions.TenDigits | Assets/Scripts/Extensions/ArrayExtensions.cs:86-94 | none of the digits 0 to 8 is 10 |
| ArrayExtensions.PartitionDigits | Assets/Scripts/Extensions/ArrayExtensions.cs:64-95 | partitioning a fresh array [0..8] returns the number of digits satisfying the predicate |
| ArrayExtensions.TestPartition | Assets/Scripts/Extensions/ArrayExtensions.cs:64-95 | the three expected results: 5 for "is even", 1 for "== 3", 0 for "== 10" |
| Raycasting.InsideWithDistance | Assets/Scripts/Extensions/Raycasting.cs:149-194 | a point before the A cap or beyond the B cap gives (false, 0); a point reported inside has a finite distance from the axis |
| Raycasting.InsideDistance | Assets/Scripts/Extensions/Raycasting.cs:147-194 | with an exact square root, the distance output of a point reported inside is its distance from the axis line: its square times the squared axis length equals the squared norm of (p - A) x (B - A), the quantity the cross-product definition compares |
| Raycasting.Inside | Assets/Scripts/Extensions/Raycasting.cs:196-199 | the 4-argument test returns the boolean of the 5-argument test |
| Raycasting.InsideIsInCylinder | Assets/Scripts/Extensions/Raycasting.cs:167-193 | the test holds exactly when the projection falls between the caps and the cross-product distance from the axis is below the radius (both directions) |
| Raycasting.SurfaceNormalPerpendicular | Assets/Scripts/Extensions/Raycasting.cs:62-70 | with the documented normalisation, the reported normal is perpendicular to the axis, and with an exact square root it is a unit vector whenever the point is farther than 1e-5 from the axis |
| Raycasting.ParallelCoefficients | Assets/Scripts/Extensions/Raycasting.cs:42-50 | a zero-length axis gives a == 0, and a == 0 forces b == 0 and a zero discriminant |
| Raycasting.ProjectionTest | Assets/Scripts/Extensions/Raycasting.cs:62-71 | the intersection is start + dir * distance, and the hit flag holds exactly when the projection passes the between-the-ends test; the normal is the normalised offset of the intersection from its projection on a hit and zero otherwise |
| Raycasting.Ray | Assets/Scripts/Extensions/Raycasting.cs:35-72 | a discriminant below -Epsilon gives a miss with every output zero; a hit has a != 0, the near root as distance, distance >= -Epsilon, intersection start + dir * distance, a projection between the ends, and as normal the normalised offset of the intersection from its projection on the axis; a miss has a zero normal |
| Raycasting.RayAccepts | Assets/Scripts/Extensions/Raycasting.cs:51-71 | the converse: with the discriminant within tolerance, a != 0 and the root not behind, the ray reports the root and hits exactly when the projection test passes |
| Raycasting.NearRootIsRoot | Assets/Scripts/Extensions/Raycasting.cs:56 | (-b - sqrt d) / 2a is a root of a t^2 + b t + c when sqrt is exact |
| Raycasting.RayHitOnSurface | Assets/Scripts/Extensions/Raycasting.cs:35-72 | with an exact square root and d >= 0, a reported hit lies on the lateral surface: its distance from the axis line is r |
| Raycasting.RayBacktracking | Assets/Scripts/Extensions/Raycasting.cs:89-127 | as for Ray, including the normal, except that a root behind the origin is kept when the origin is inside the cylinder (kept: BacktrackingAcceptsInside; otherwise equal to Ray: BacktrackingExtendsRay) |
| Raycasting.BacktrackingExtendsRay | Assets/Scripts/Extensions/Raycasting.cs:112-116 | the two queries agree when Ray hits or the origin is outside; a hit only the backtracking query reports is behind the origin, which is inside |
| Raycasting.BacktrackingAcceptsInside | Assets/Scripts/Extensions/Raycasting.cs:110-126 | the keep direction: from an origin inside the cylinder, with a != 0 and the discriminant within tolerance, the near root is reported whatever its sign, and it is a hit exactly when its projection lies between the ends |
| Raycasting.BacktrackingHitOnSurface | Assets/Scripts/Extensions/Raycasting.cs:89-127 | a reported hit of the backtracking query lies on the lateral surface |
| Raycasting.Line | Assets/Scripts/Extensions/Raycasting.cs:130-137 | the segment query hits exactly when Ray along (end - start) / (length + 1e-5) hits at a distance of at most length + 1e-5, and it reports that ray's intersection, normal and distance; a hit is no farther than the segment length plus 1e-5 |
| Raycasting.LineHitOnSegment | Assets/Scripts/Extensions/Raycasting.cs:130-137 | a hit lies on the line through start and end at a fraction of the segment in [-Epsilon / length, 1] |
| Raycasting.LineHitOnSurface | Assets/Scripts/Extensions/Raycasting.cs:130-137 | with an exact square root and a non-negative discriminant, a segment hit lies on the lateral surface: its distance from the axis line is r |
| Raycasting.RayAsWritten | Assets/Scripts/Extensions/Raycasting.cs:51-56 | as written, a discriminant in [-Epsilon, 0) or a == 0 yields a hit with a NaN distance |
| Raycasting.AsWrittenAgreesWithRay | Assets/Scripts/Extensions/Raycasting.cs:51-72 | away from those two cases the code as written and Ray return the same flag and distance |
| Raycasting.ParallelRayFinding | Assets/Scripts/Extensions/Raycasting.cs:56 | a ray parallel to the axis: a hit with NaN distance as written, a miss in Ray |
| Raycasting.GrazingRayFinding | Assets/Scripts/Extensions/Raycasting.cs:51-56 | a ray passing 1e-6 outside the wall: the discriminant lies in [-Epsilon, 0), a hit with NaN distance as written, distance 5 in Ray |
| Geometry.MinOf | Assets/Scripts/Extensions/TransformExtensions.cs:40-42 | `Mathf.Min`: the result is at most both arguments and is one of them |
| Geometry.MaxOf | Assets/Scripts/Extensions/TransformExtensions.cs:44-46 | `Mathf.Max`: the result is at least both arguments and is one of them |
| TransformExtensions.CalculateTransformBounds | Assets/Scripts/Extensions/TransformExtensions.cs:25-67 | the rotation is restored; the result is the centre and size of the fold of the node's own boxes and then its hierarchy's boxes, seen unrotated, starting from float.MaxValue and float.MinValue |
| TransformExtensions.AccumulateWidens | Assets/Scripts/Extensions/TransformExtensions.cs:37-59 | folding boxes only lowers minimums and raises maximums |
| TransformExtensions.AccumulateEncloses | Assets/Scripts/Extensions/TransformExtensions.cs:37-59 | every folded box lies between the resulting minimums and maximums |
| TransformExtensions.AccumulateAttained | Assets/Scripts/Extensions/TransformExtensions.cs:37-59 | each resulting extreme is the starting one or a corner coordinate of a folded box |
| TransformExtensions.AccumulateAppend | Assets/Scripts/Extensions/TransformExtensions.cs:37-59 | the two loops fold the children's boxes the same way as the node's own: one fold over the concatenation |
| TransformExtensions.UnsetIsNeutral | Assets/Scripts/Extensions/TransformExtensions.cs:30-35 | for boxes within the float range, the starting values vanish once a box is folded: every extreme is a corner coordinate of a folded box |
| TransformExtensions.CenterAndSizeCorners | Assets/Scripts/Extensions/TransformExtensions.cs:63-64 | the box built from the per-axis midpoints and differences has exactly the folded extremes as its corners |
| TransformExtensions.TransformBoundsEncloses | Assets/Scripts/Extensions/TransformExtensions.cs:25-67 | the bounds of a transform cover every renderer box of the node and of its hierarchy |
| TransformExtensions.TransformBoundsSizeNonNegative | Assets/Scripts/Extensions/TransformExtensions.cs:64 | once a box of non-negative size has been folded, the size is non-negative on every axis |
| TransformExtensions.EncapsulatePoint | Assets/Scripts/Extensions/TransformExtensions.cs:19 | `Bounds.Encapsulate(Vector3)`: the grown box contains the point and covers the box it started from |
| TransformExtensions.Encapsulate | Assets/Scripts/Extensions/TransformExtensions.cs:19 | the encapsulated box covers both boxes, whatever the sign of their sizes |
| TransformExtensions.EncapsulateTwoPoints | Assets/Scripts/Extensions/TransformExtensions.cs:19 | encapsulating a box is taking in its min corner and then its max corner as points |
| TransformExtensions.EncapsulateCorners | Assets/Scripts/Extensions/TransformExtensions.cs:19 | for a box of non-negative size, the result has the per-axis minimums and maximums of both boxes' corners as its corners |
| TransformExtensions.CalculateBounds | Assets/Scripts/Extensions/TransformExtensions.cs:11-22 | an empty collection has no result; otherwise the result is a zero box at the first position with every element's bounds encapsulated in order; every rotation is unchanged |
| TransformExtensions.EncapsulateNext | Assets/Scripts/Extensions/TransformExtensions.cs:17-20 | one pass of the loop: the next element's bounds are computed, its rotation is restored, and the collector becomes the encapsulation of one more element |
| TransformExtensions.EncapsulateAllEncloses | Assets/Scripts/Extensions/TransformExtensions.cs:16-20 | the collector covers the starting box and every box encapsulated into it |
| TransformExtensions.CollectionBoundsEncloses | Assets/Scripts/Extensions/TransformExtensions.cs:11-22 | the bounds of a collection contain the first element's position and cover the bounds of every element |
| WindParticles.NewParticle | Assets/Scripts/WindSource.cs:210-221 | a new particle is alive, has not entered the bounds, and has the given id, position, direction, speed and mass |
| WindParticles.PruningSphere | Assets/Scripts/WindSource.cs:50-54 | the sphere is centred on the bounds and its squared radius is non-negative |
| WindParticles.PruningSphereCoversBounds | Assets/Scripts/WindSource.cs:50-54 | every point of the bounds lies inside the pruning sphere built from them |
| WindParticles.EnergyTransfer | Assets/Scripts/WindSource.cs:132-135 | the transfer lies in [0, 1] for an incidence in [-1, 1]; it is 1 for incidence -1 and 0 for incidence 1 |
| WindParticles.RemainingTravel | Assets/Scripts/WindSource.cs:147 | the travel along the reflection is the rest of the frame's travel, but never below 0.01 |
| WindParticles.Deflect | Assets/Scripts/WindSource.cs:126-147 | after a hit the direction is the reflection in the hit normal, the speed is velocity * (1 - energyTransfer) for the incidence between the old and new directions, and the particle is alive exactly when faster than 1e-5; nothing else of the particle changes; one impulse at the hit point is added; the path gains the hit point; the next position is the hit point plus the reflection times RemainingTravel |
| WindParticles.DeflectMomentum | Assets/Scripts/WindSource.cs:136-141 | the impulse's force is the momentum the particle loses along its direction |
| WindParticles.DeflectSlows | Assets/Scripts/WindSource.cs:131-142 | with an exact reflection, a unit direction and a unit normal, a hit never speeds the particle up and keeps its direction a unit vector |
| WindParticles.DeflectHeadOn | Assets/Scripts/WindSource.cs:131-143 | a head-on hit stops the particle and kills it |
| WindParticles.DeflectGrazing | Assets/Scripts/WindSource.cs:131-142 | a hit along the surface changes neither direction nor speed |
| WindParticles.Fly | Assets/Scripts/WindSource.cs:117-148 | the hit loop applies one impulse per hit |
| WindParticles.FlyKeeps | Assets/Scripts/WindSource.cs:117-148 | the hit loop changes only direction, speed and liveness, and records the hit points in order |
| WindParticles.FlyImpulses | Assets/Scripts/WindSource.cs:117-138 | the hit loop applies one impulse per hit, in hit order, at the hit points, and keeps the impulses applied before |
| WindParticles.FlyAlive | Assets/Scripts/WindSource.cs:143 | after at least one hit the particle is alive exactly when faster than 1e-5 |
| WindParticles.FlySlows | Assets/Scripts/WindSource.cs:117-148 | under the assumptions of DeflectSlows for every hit, the hit loop never speeds the particle up |
| WindParticles.Truncate | Assets/Scripts/WindSource.cs:115 | the raycast keeps the first hits that fit in the buffer: all of them or as many as the buffer holds |
| WindParticles.Step | Assets/Scripts/WindSource.cs:78-156 | a dead particle is left as it is; an entered particle outside the sphere dies in place with no path and no impulse; a particle not yet entered marks entry exactly when inside the sphere; entry is never undone; id, mass and colour are kept; at most one impulse per buffer slot; a live particle that is not leaving runs the hit loop over the buffered hits of its ray and ends at the loop's final position (StepFlight); what it does with the hits is stated by StepFollowsHits and StepLastHit |
| WindParticles.StepFollowsHits | Assets/Scripts/WindSource.cs:113-153 | a live particle that is not leaving applies exactly one impulse per buffered hit, at that hit's point; its path is the hit points in order, then its final position; with no hit it moves straight on with its direction and speed |
| WindParticles.StepLastHit | Assets/Scripts/WindSource.cs:131-153 | after the last buffered hit, the direction is the reflection of the incoming direction, the speed is the one the energy transfer leaves, and the final position is the last hit point plus the reflection times the remaining travel (at least 0.01) |
| WindParticles.StepLifecycle | Assets/Scripts/WindSource.cs:79-143 | death is final, and a particle that dies in a step either left the sphere after entering it or was slowed to at most 1e-5 by a hit |
| WindParticles.StepSlows | Assets/Scripts/WindSource.cs:113-148 | with an exact reflection and unit normals, a step never speeds a particle up and keeps its direction a unit vector |
| WindParticles.StepUnobstructed | Assets/Scripts/WindSource.cs:89-156 | a live particle inside the sphere with nothing in its way moves by velocity times dt, is marked entered and records only its new position |
| WindSimulation.Survivors | Assets/Scripts/WindSource.cs:189 | the filtered list is no longer than the input and holds only live particles of the input |
| WindSimulation.SurvivorsKeepsLive | Assets/Scripts/WindSource.cs:189 | no live particle is lost |
| WindSimulation.SurvivorsAppend | Assets/Scripts/WindSource.cs:189 | the filter works piece by piece, so the survivors keep their relative order |
| WindSimulation.SurvivorsIdempotent | Assets/Scripts/WindSource.cs:189 | filtering twice is filtering once |
| WindSimulation.SurvivorsIncreasing | Assets/Scripts/WindSource.cs:189 | filtering keeps ids strictly increasing |
| WindSimulation.SurvivorsIds | Assets/Scripts/WindSource.cs:182-189 | with strictly increasing ids, the surviving ids are the old ones without those of the dead particles, the same ids whose paths are removed |
| WindSimulation.RaycastNonAlloc | Assets/Scripts/WindSource.cs:115 | the buffer's first slots hold the hits that fit, and their number is returned |
| WindSimulation.PruningBounds | Assets/Scripts/WindSource.cs:50-54 | the doubled bounds give the pruning sphere: the centre, and the square of the largest doubled size |
| WindSimulation.WindSource.Start | Assets/Scripts/WindSource.cs:35-62 | one raycast slot per bell; no particles, no paths, id 0; with bells: the pruning sphere of their bounds, a full countdown, and paths rendered when asked or when no particles are emitted; without bells: the default sphere and countdown |
| WindSimulation.WindSource.ProcessHits | Assets/Scripts/WindSource.cs:117-148 | the hit loop over the first `count` buffer slots computes the deflections of the pure model in order |
| WindSimulation.WindSource.StepParticle | Assets/Scripts/WindSource.cs:78-156 | one particle's pass through the loop body computes its Step with the buffer's capacity |
| WindSimulation.WindSource.StepParticles | Assets/Scripts/WindSource.cs:76-156 | the loop stores each particle's Step, adds each step's points to that particle's path when paths are rendered, and collects the impulses in order |
| WindSimulation.WindSource.UpdateWindParticles | Assets/Scripts/WindSource.cs:74-173 | the list becomes the particles' Steps, paths are extended exactly when rendered, the impulses are returned in order, the counter and countdown are unchanged, and the source stays consistent |
| WindSimulation.WindSource.PruneWindParticles | Assets/Scripts/WindSource.cs:175-191 | the countdown drops by dt; when it reaches zero or below it restarts at the period, the paths of dead ids are removed and only the live particles remain in order; otherwise nothing else changes; the source stays consistent |
| WindSimulation.WindSource.ForgetDeadPaths | Assets/Scripts/WindSource.cs:182-188 | the paths without those of the dead particles |
| WindSimulation.WindSource.EmitWindParticle | Assets/Scripts/WindSource.cs:208-225 | the new particle takes the current counter as id, and the counter is then incremented; that id had no path before and its path is the start position; the particle is appended with the source's speed and mass; ids stay strictly increasing and below the counter |
| WindSimulation.UpdateKeepsIds | Assets/Scripts/WindSource.cs:76-156 | an update pass keeps every id in its slot, so the ids stay increasing, below the counter, and keyed by the paths |
| WindSimulation.PathRecorded | Assets/Scripts/WindSource.cs:81 | each particle still has a path when the pass reaches it, so the lookup succeeds |
| WindSimulation.ExtendPathsKeys | Assets/Scripts/WindSource.cs:129-155 | adding points to paths never adds or removes an id |
| WindSimulation.ExtendPathsAt | Assets/Scripts/WindSource.cs:129-155 | with strictly increasing ids, each particle's path gains exactly the points its own step recorded |
| WindSimulation.ExtendPathsUntouched | Assets/Scripts/WindSource.cs:129-155 | the path of an id no visited particle has is unchanged |
| WindSimulation.UpdateSkipsDead | Assets/Scripts/WindSource.cs:79 | a dead particle's slot is unchanged by the pass, and it adds no path point and no impulse |
| WindSimulation.ImpulsesBound | Assets/Scripts/WindSource.cs:115-138 | a pass applies at most one impulse per particle and buffer slot |

## Left out

- `WindSource.EmitWindParticles` (timer, `Random.insideUnitCircle`, `Input.GetKeyDown` and the fan transform): input and randomness. Only `EmitWindParticle`, which it calls with the chosen start and direction, is modelled.
- `transform.LookAt`, the fan scale in `Start`, and the debug drawing of paths in `UpdateWindParticles`: engine calls with no effect on the simulation state.
- `WindSource.Update`: each frame it turns the fan, then runs `EmitWindParticles`, `UpdateWindParticles` and `PruneWindParticles` in that order, all with the same `Time.deltaTime`. The model has no per-frame method. It provides the three steps as separate methods (`EmitWindParticle`, `UpdateWindParticles`, `PruneWindParticles`), each of which keeps `Valid()`, so any sequence of them, including the frame's order, keeps the source consistent. The model does not state the combined effect of one frame.
- `Physics.RaycastNonAlloc` itself: the raycast is a parameter (origin, direction, maximum distance to hits), including its hit order, layer mask and trigger handling. Only the copy into the fixed buffer is modelled.
- `Rigidbody.AddForceAtPosition`: the impulses are returned, in the order applied, instead of being applied to bells.
- `Time.deltaTime`, `Mathf.Sqrt`, `Vector3.normalized` and `Vector3.Reflect`: parameters.
- The bells are given to `Start` as their transforms; `GetComponentsInChildren<ChimeBell>` is not modelled. `GetComponentsInChildren<Renderer>` includes the node's own renderers, so they are folded twice, which does not change the bounds.
- `WindSimulation.WindSource.UpdateWindParticles`: the loop works on local copies of the particle list and the path dictionary and stores them after the loop. Nothing inside the loop reads them, so the final state is the one the source reaches by updating in place. A step's path points are appended after its hit loop rather than one at a time, with the same result.
- `WindSimulation.WindSource.EmitWindParticle`: ids are unbounded integers. The source's 32-bit counter would wrap after 2^31 - 1 emissions.
- `Bounds.Encapsulate` is engine code and is not part of this model's sources. It is modelled as the engine's two point steps (EncapsulateTwoPoints). So a box of negative size, such as the bounds of a bell without renderers, contributes both of its corners rather than being skipped.
- `TransformExtensions.CalculateTransformBounds`: single-precision arithmetic. With no renderer at all, the source's size is float.MinValue - float.MaxValue, which overflows to minus infinity. The model gives -2 * float.MaxValue.
- `TransformExtensions.TransformBoundsSizeNonNegative`: requires a folded box of non-negative size. A renderer box of negative size would make the claim false.
- `Raycasting.GrazingRayFinding`: proves the corrected distance but not the corrected hit flag, which depends on the projection test through the square root parameter.
- `Raycasting.InsideWithDistance`: the NaN distance of a zero-length axis is a NaN value. The distance of an inside point is stated only for an exact square root (InsideDistance), since the square root is a parameter. Any other use of single-precision rounding is left out; every comparison is over the reals.
- `Raycasting.Line`: it is built on the corrected `Ray`. With a discriminant in [-Epsilon, 0) the source's `Ray` returns true with a NaN distance, and `NaN <= length` is false, so the source's `Line` misses where the model reports the tangent hit. With a == 0 both the source and the model miss, since NaN <= length is false there too.
- `Raycasting.RayBacktracking`: it shares the NaN cases of `Ray` (see Findings). Only the corrected form is modelled for it.
- The `Debug.LogFormat` call in `Ray`: logging.
- Assets/Scripts/Extensions/CylinderIntersection.cs, Assets/Scripts/BellSynthesizer.cs, Assets/Scripts/Bell.cs, Assets/Scripts/TubularBell.cs, Assets/Scripts/ChimeBell.cs and the test scenes are not part of this model. They cover a second intersector unused by the simulation, audio synthesis, and component glue.

## Findings

| source | as written | input that shows it | evidently intended | confidence | as-written member | corrected member |
|---|---|---|---|---|---|---|
| Assets/Scripts/Extensions/Raycasting.cs:56 | `distance = (-b - Mathf.Sqrt(d)) / (2 * a)` with no check of `a`. A ray parallel to the axis, or an axis of zero length, gives a = b = d = 0. The distance is then 0/0 = NaN, every later comparison with it is false, and the ray is reported as a hit. | start (2, 0, 0), dir (0, 1, 0), A (0, 0, 0), B (0, 1, 0), r 1 | a ray parallel to the axis misses the lateral surface | high, not executed | Raycasting.ParallelRayFinding | Raycasting.Ray |
| Assets/Scripts/Extensions/Raycasting.cs:51-56 | a discriminant in [-Epsilon, 0) passes the rejection test, then `Mathf.Sqrt` of a negative number gives NaN. The ray is reported as a hit with a NaN distance. | start (-5, 0.5, 1.000001), dir (1, 0, 0), A (0, 0, 0), B (0, 1, 0), r 1: the discriminant is -8.000004e-6 over the reals | the tolerance reads such a discriminant as zero: a tangent hit at distance 5 | medium (the discriminant is computed over the reals, not in single precision), not executed | Raycasting.GrazingRayFinding | Raycasting.Ray |
