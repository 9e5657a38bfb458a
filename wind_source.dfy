/**
 * The wind source: the list of live and dead particles, the path recorded
 * for each particle id, the pruning countdown and the id counter, with the
 * operations a frame performs on them (update every particle, prune the dead
 * ones periodically) and the emission of a single particle.
 */
module WindSimulation {
  import opened Geometry
  import opened TransformExtensions
  import opened WindParticles

  /** Seconds between two prunings. */
  const PruningPeriod: real := 1.0

  /** The ids of the particles in `s`. */
  function Ids(s: seq<WindParticle>): set<int> {
    set p | p in s :: p.id
  }

  /** The ids of the dead particles in `s`. */
  function DeadIds(s: seq<WindParticle>): set<int> {
    set p | p in s && !p.alive :: p.id
  }

  /** The ids in `s` strictly increase from front to back. */
  ghost predicate IncreasingIds(s: seq<WindParticle>) {
    forall i, j :: 0 <= i < j < |s| ==> s[i].id < s[j].id
  }

  /** The `Where` filter of pruning: the live particles of `s`. */
  function Survivors(s: seq<WindParticle>): (r: seq<WindParticle>)
    ensures |r| <= |s|
    ensures forall p :: p in r ==> p in s && p.alive
  {
    if s == [] then []
    else (if s[0].alive then [s[0]] else []) + Survivors(s[1..])
  }

  /** The particle states after a step, in order. */
  function Particles(outcomes: seq<StepOutcome>): (r: seq<WindParticle>)
    ensures |r| == |outcomes|
    ensures forall i :: 0 <= i < |outcomes| ==> r[i] == outcomes[i].particle
  {
    if outcomes == [] then [] else [outcomes[0].particle] + Particles(outcomes[1..])
  }

  /** The impulses of the first `n` steps, in order. */
  function ImpulsesOf(outcomes: seq<StepOutcome>, n: nat): seq<Impulse>
    requires n <= |outcomes|
  {
    if n == 0 then []
    else ImpulsesOf(outcomes, n - 1) + outcomes[n - 1].impulses
  }

  /**
   * The paths after the first `n` particles of `ps` have had what their
   * steps recorded added to them, visiting the particles in order.
   */
  function ExtendPaths(paths: map<int, seq<Vec3>>, ps: seq<WindParticle>, outcomes: seq<StepOutcome>, n: nat): map<int, seq<Vec3>>
    requires |ps| == |outcomes| && n <= |ps|
  {
    if n == 0 then paths
    else
      var before := ExtendPaths(paths, ps, outcomes, n - 1);
      var id := ps[n - 1].id;
      if id in before then before[id := before[id] + outcomes[n - 1].path] else before
  }

  /** The outcome of a step of each particle of `ps`. */
  function Outcomes(m: Numerics, ps: seq<WindParticle>, sphere: Sphere, dt: real, raycast: Raycaster, capacity: nat): (r: seq<StepOutcome>)
    ensures |r| == |ps|
    ensures forall i :: 0 <= i < |ps| ==> r[i] == Step(m, ps[i], sphere, dt, raycast, capacity)
  {
    if ps == [] then [] else [Step(m, ps[0], sphere, dt, raycast, capacity)] + Outcomes(m, ps[1..], sphere, dt, raycast, capacity)
  }

  /**
   * `Physics.RaycastNonAlloc`: stores the hits that fit in `buffer` at its
   * front and returns how many it stored.
   */
  method RaycastNonAlloc(buffer: array<RaycastHit>, hits: seq<RaycastHit>) returns (count: int)
    modifies buffer
    ensures count == |Truncate(hits, buffer.Length)|
    ensures buffer[..count] == Truncate(hits, buffer.Length)
  {
    count := if |hits| <= buffer.Length then |hits| else buffer.Length;
    for k := 0 to count
      invariant buffer[..k] == hits[..k]
    {
      buffer[k] := hits[k];
    }
  }

  /** The pruning sphere of `Start`: the bounds doubled in size, the largest size as the radius. */
  method PruningBounds(bounds: Bounds) returns (origin: Vec3, radius2: real)
    ensures Sphere(origin, radius2) == PruningSphere(bounds)
  {
    var b := bounds;
    b := b.(size := Scale(b.size, 2.0));
    var radius := MaxOf(MaxOf(b.size.x, b.size.y), b.size.z);
    origin := b.center;
    radius2 := radius * radius;
  }

  class WindSource {
    const windVelocity: real
    const windParticleMass: real
    const particlesPerSecond: real
    const renderParticlePaths: bool
    /** One slot per bell, for the raycast results. */
    const raycastHits: array<RaycastHit>
    const particlePruningBoundsOrigin: Vec3
    const particlePruningBoundsRadius2: real

    var particles: seq<WindParticle>
    var particlePaths: map<int, seq<Vec3>>
    var secondsUntilNextParticlePruning: real
    var particleId: int

    /**
     * Every particle has an id below the counter, ids increase along the
     * list, and the recorded paths are exactly those of the listed particles.
     */
    ghost predicate Valid()
      reads this
    {
      0 <= particleId &&
      (forall i :: 0 <= i < |particles| ==> 0 <= particles[i].id < particleId) &&
      IncreasingIds(particles) &&
      particlePaths.Keys == Ids(particles)
    }

    function TargetSphere(): Sphere
    {
      Sphere(particlePruningBoundsOrigin, particlePruningBoundsRadius2)
    }

    /**
     * `Start`: one raycast slot per bell and the pruning sphere around the
     * bells. Without bells the bounds computation has no first element and
     * throws, which leaves the pruning fields at their defaults.
     */
    constructor Start(windVelocity: real, windParticleMass: real, particlesPerSecond: real,
                      renderParticlePaths: bool, bells: seq<Transform>)
      modifies set t | t in bells
      ensures Valid()
      ensures particles == [] && particlePaths == map[] && particleId == 0
      ensures fresh(raycastHits) && raycastHits.Length == |bells|
      ensures this.windVelocity == windVelocity && this.windParticleMass == windParticleMass
      ensures this.particlesPerSecond == particlesPerSecond
      ensures forall t :: t in bells ==> t.rotation == old(t.rotation)
      ensures bells == [] ==>
        TargetSphere() == Sphere(Zero, 0.0) && secondsUntilNextParticlePruning == 0.0 &&
        this.renderParticlePaths == renderParticlePaths
      ensures bells != [] ==>
        TargetSphere() == WindParticles.PruningSphere(EncapsulateAll(Bounds(bells[0].position, Zero), EachBounds(bells))) &&
        secondsUntilNextParticlePruning == PruningPeriod &&
        this.renderParticlePaths == (renderParticlePaths || particlesPerSecond == 0.0)
    {
      this.windVelocity := windVelocity;
      this.windParticleMass := windParticleMass;
      this.particlesPerSecond := particlesPerSecond;
      particles := [];
      particlePaths := map[];
      particleId := 0;
      raycastHits := new RaycastHit[|bells|](_ => NoHit);

      var bounds := CalculateBounds(bells);
      if bounds.None? {
        particlePruningBoundsOrigin := Zero;
        particlePruningBoundsRadius2 := 0.0;
        secondsUntilNextParticlePruning := 0.0;
        this.renderParticlePaths := renderParticlePaths;
      } else {
        var origin, radius2 := PruningBounds(bounds.value);
        particlePruningBoundsOrigin := origin;
        particlePruningBoundsRadius2 := radius2;
        secondsUntilNextParticlePruning := PruningPeriod;
        this.renderParticlePaths := renderParticlePaths || particlesPerSecond == 0.0;
      }
    }

    /**
     * The hit loop of one particle: the first `count` raycast slots, in
     * order, starting from the particle and its unobstructed next position.
     */
    method ProcessHits(m: Numerics, particle: WindParticle, nextPosition: Vec3, count: int, distanceTraveled: real)
      returns (f: Flight)
      requires 0 <= count <= raycastHits.Length
      ensures f == Fly(m, Flight(particle, nextPosition, [], []), raycastHits[..count], distanceTraveled)
    {
      var p := particle;
      var next := nextPosition;
      var impulses: seq<Impulse> := [];
      var path: seq<Vec3> := [];
      for hit := 0 to count
        invariant Flight(p, next, impulses, path) == Fly(m, Flight(particle, nextPosition, [], []), raycastHits[..hit], distanceTraveled)
      {
        ghost var before := Flight(p, next, impulses, path);
        FlyStep(m, Flight(particle, nextPosition, [], []), raycastHits[..], hit, distanceTraveled);
        var hitInfo := raycastHits[hit];
        path := path + [hitInfo.point];

        var reflection := m.reflect(p.dir, hitInfo.normal);
        var incidence := Dot(p.dir, reflection);
        var energyTransfer := EnergyTransfer(incidence);
        var force := Scale(Scale(Scale(p.dir, p.velocity), p.mass), energyTransfer);
        impulses := impulses + [Impulse(force, hitInfo.point)];

        p := p.(velocity := Slowed(p.velocity, energyTransfer));
        p := p.(dir := reflection);
        p := p.(alive := p.velocity > MinVelocity);

        next := Add(hitInfo.point, Scale(reflection, RemainingTravel(distanceTraveled, hitInfo.distance)));
        assert Flight(p, next, impulses, path) == Deflect(m, before, hitInfo, distanceTraveled);
      }
      f := Flight(p, next, impulses, path);
    }

    /**
     * The body of the update loop for one particle: what becomes of it, the
     * points to add to its path and the impulses it applies.
     */
    method StepParticle(m: Numerics, current: WindParticle, dt: real, raycast: Raycaster) returns (o: StepOutcome)
      modifies raycastHits
      ensures o == Step(m, current, TargetSphere(), dt, raycast, raycastHits.Length)
    {
      var particle := current;
      if !particle.alive {
        return StepOutcome(particle, [], []);
      }

      if !particle.hasEnteredTargetBounds {
        if SqrMagnitude(Sub(particle.position, particlePruningBoundsOrigin)) <= particlePruningBoundsRadius2 {
          particle := particle.(hasEnteredTargetBounds := true);
        }
      } else {
        if SqrMagnitude(Sub(particle.position, particlePruningBoundsOrigin)) > particlePruningBoundsRadius2 {
          particle := particle.(alive := false);
          return StepOutcome(particle, [], []);
        }
      }

      var nextPosition := Add(particle.position, Scale(Scale(particle.dir, particle.velocity), dt));
      var distanceTraveled := Magnitude(m, Sub(nextPosition, particle.position));
      var hitCount := RaycastNonAlloc(raycastHits, raycast(particle.position, particle.dir, distanceTraveled));
      var flight := ProcessHits(m, particle, nextPosition, hitCount, distanceTraveled);

      particle := flight.particle.(position := flight.next);
      o := StepOutcome(particle, flight.path + [flight.next], flight.impulses);
    }

    /**
     * The update loop over all particles: each particle's step is stored in
     * its slot, its recorded points are added to its path when paths are
     * rendered, and the impulses are collected in the order they are applied.
     */
    method StepParticles(m: Numerics, dt: real, raycast: Raycaster)
      returns (ps: seq<WindParticle>, paths: map<int, seq<Vec3>>, impulses: seq<Impulse>)
      requires particlePaths.Keys == Ids(particles)
      modifies raycastHits
      ensures ps == Particles(Outcomes(m, particles, TargetSphere(), dt, raycast, raycastHits.Length))
      ensures impulses == ImpulsesOf(Outcomes(m, particles, TargetSphere(), dt, raycast, raycastHits.Length), |particles|)
      ensures paths == if renderParticlePaths
        then ExtendPaths(particlePaths, particles, Outcomes(m, particles, TargetSphere(), dt, raycast, raycastHits.Length), |particles|)
        else particlePaths
    {
      ghost var original := particles;
      ghost var recorded := particlePaths;
      ghost var outcomes := Outcomes(m, particles, TargetSphere(), dt, raycast, raycastHits.Length);
      ps := particles;
      paths := particlePaths;
      impulses := [];
      for i := 0 to |ps|
        invariant ps == Particles(outcomes[..i]) + original[i..]
        invariant impulses == ImpulsesOf(outcomes, i)
        invariant paths == if renderParticlePaths then ExtendPaths(recorded, original, outcomes, i) else recorded
      {
        ReplaceNext(outcomes, original, i);
        var o := StepParticle(m, ps[i], dt, raycast);
        assert o == outcomes[i];
        assert ImpulsesOf(outcomes, i + 1) == impulses + o.impulses;
        if renderParticlePaths {
          PathRecorded(recorded, original, outcomes, i);
          var path := paths[ps[i].id];
          paths := paths[ps[i].id := path + o.path];
        }
        ps := ps[i := o.particle];
        impulses := impulses + o.impulses;
      }
      assert original[|original|..] == [];
      assert outcomes[..|original|] == outcomes;
    }

    /**
     * One update pass over all particles. The impulses applied to the bells
     * are returned in the order they are applied.
     */
    method UpdateWindParticles(m: Numerics, dt: real, raycast: Raycaster) returns (impulses: seq<Impulse>)
      requires Valid()
      modifies this, raycastHits
      ensures Valid()
      ensures particles == Particles(Outcomes(m, old(particles), TargetSphere(), dt, raycast, raycastHits.Length))
      ensures impulses == ImpulsesOf(Outcomes(m, old(particles), TargetSphere(), dt, raycast, raycastHits.Length), |old(particles)|)
      ensures particlePaths == if renderParticlePaths
        then ExtendPaths(old(particlePaths), old(particles), Outcomes(m, old(particles), TargetSphere(), dt, raycast, raycastHits.Length), |old(particles)|)
        else old(particlePaths)
      ensures particleId == old(particleId)
      ensures secondsUntilNextParticlePruning == old(secondsUntilNextParticlePruning)
    {
      ghost var outcomes := Outcomes(m, particles, TargetSphere(), dt, raycast, raycastHits.Length);
      var ps, paths;
      ps, paths, impulses := StepParticles(m, dt, raycast);
      UpdateKeepsIds(particles, outcomes, particleId);
      ExtendPathsKeys(particlePaths, particles, outcomes, |particles|);
      particles := ps;
      particlePaths := paths;
    }

    /**
     * Counts down the pruning period and, when it has run out, restarts it,
     * forgets the paths of the dead particles and keeps only the live ones.
     */
    method PruneWindParticles(dt: real)
      requires Valid()
      modifies this
      ensures Valid()
      ensures particleId == old(particleId)
      ensures old(secondsUntilNextParticlePruning) - dt <= 0.0 ==>
        secondsUntilNextParticlePruning == PruningPeriod &&
        particles == Survivors(old(particles)) &&
        particlePaths == old(particlePaths) - DeadIds(old(particles))
      ensures old(secondsUntilNextParticlePruning) - dt > 0.0 ==>
        secondsUntilNextParticlePruning == old(secondsUntilNextParticlePruning) - dt &&
        particles == old(particles) && particlePaths == old(particlePaths)
    {
      secondsUntilNextParticlePruning := secondsUntilNextParticlePruning - dt;
      if secondsUntilNextParticlePruning <= 0.0 {
        secondsUntilNextParticlePruning := PruningPeriod;
        particlePaths := ForgetDeadPaths();
        SurvivorsIds(particles);
        SurvivorsIncreasing(particles);
        particles := Survivors(particles);
      }
    }

    /** The first loop of pruning: the paths without those of the dead particles. */
    method ForgetDeadPaths() returns (paths: map<int, seq<Vec3>>)
      ensures paths == particlePaths - DeadIds(particles)
    {
      paths := particlePaths;
      for i := 0 to |particles|
        invariant paths == particlePaths - DeadIds(particles[..i])
      {
        DeadIdsStep(particles, i);
        var p := particles[i];
        if !p.alive {
          paths := paths - {p.id};
        }
      }
      assert particles[..|particles|] == particles;
    }

    /**
     * Adds a live particle that has not entered the bounds, with the next id,
     * the source's speed and mass, and a path holding its start.
     */
    method EmitWindParticle(startPosition: Vec3, startDirection: Vec3)
      requires Valid()
      modifies this
      ensures Valid()
      ensures particleId == old(particleId) + 1
      ensures particles == old(particles) + [NewParticle(old(particleId), startPosition, startDirection, windVelocity, windParticleMass)]
      ensures old(particleId) !in old(particlePaths)
      ensures particlePaths == old(particlePaths)[old(particleId) := [startPosition]]
      ensures secondsUntilNextParticlePruning == old(secondsUntilNextParticlePruning)
    {
      var p := NewParticle(particleId, startPosition, startDirection, windVelocity, windParticleMass);
      particleId := particleId + 1;
      particlePaths := particlePaths[p.id := [startPosition]];
      particles := particles + [p];
      assert Ids(particles) == Ids(old(particles)) + {p.id};
    }
  }

  // ---------------------------------------------------------------------
  // Properties of pruning
  // ---------------------------------------------------------------------

  /** No live particle is lost by pruning. */
  lemma {:induction false} SurvivorsKeepsLive(s: seq<WindParticle>, p: WindParticle)
    requires p in s && p.alive
    ensures p in Survivors(s)
    decreases |s|
  {
    if s[0] != p {
      assert p in s[1..];
      SurvivorsKeepsLive(s[1..], p);
    }
  }

  /** Pruning keeps the relative order: it works piece by piece. */
  lemma {:induction false} SurvivorsAppend(s: seq<WindParticle>, t: seq<WindParticle>)
    ensures Survivors(s + t) == Survivors(s) + Survivors(t)
    decreases |s|
  {
    if s == [] {
      assert s + t == t;
    } else {
      assert (s + t)[1..] == s[1..] + t;
      SurvivorsAppend(s[1..], t);
    }
  }

  /** Pruning twice is pruning once. */
  lemma {:induction false} SurvivorsIdempotent(s: seq<WindParticle>)
    ensures Survivors(Survivors(s)) == Survivors(s)
    decreases |s|
  {
    if s != [] {
      SurvivorsIdempotent(s[1..]);
      SurvivorsAppend(if s[0].alive then [s[0]] else [], Survivors(s[1..]));
      assert Survivors([]) == [];
      if s[0].alive {
        assert [s[0]][1..] == [];
      }
    }
  }

  /** Pruning keeps ids increasing. */
  lemma {:induction false} SurvivorsIncreasing(s: seq<WindParticle>)
    requires IncreasingIds(s)
    ensures IncreasingIds(Survivors(s))
    decreases |s|
  {
    if s != [] {
      SurvivorsIncreasing(s[1..]);
      if s[0].alive {
        var r := Survivors(s);
        forall i, j | 0 <= i < j < |r|
          ensures r[i].id < r[j].id
        {
          if i == 0 {
            assert r[j] in Survivors(s[1..]);
          }
        }
      }
    }
  }

  /**
   * With distinct ids, the ids left after pruning are the old ones without
   * those of the dead particles.
   */
  lemma {:induction false} SurvivorsIds(s: seq<WindParticle>)
    requires IncreasingIds(s)
    ensures Ids(Survivors(s)) == Ids(s) - DeadIds(s)
    decreases |s|
  {
    if s != [] {
      var rest := s[1..];
      assert IncreasingIds(rest);
      SurvivorsIds(rest);
      IdsFront(s);
      FirstIdFresh(s);
      assert DeadIds(rest) <= Ids(rest);
      if s[0].alive {
        IdsFront(Survivors(s));
        assert Survivors(s)[1..] == Survivors(rest);
      } else {
        assert Survivors(s) == Survivors(rest);
      }
    }
  }

  /** The ids of a non-empty list: those of its head and of its tail. */
  lemma IdsFront(s: seq<WindParticle>)
    requires s != []
    ensures Ids(s) == {s[0].id} + Ids(s[1..])
    ensures DeadIds(s) == (if s[0].alive then {} else {s[0].id}) + DeadIds(s[1..])
  {
    assert s == [s[0]] + s[1..];
  }

  /** With increasing ids, the head's id is none of the tail's. */
  lemma FirstIdFresh(s: seq<WindParticle>)
    requires s != [] && IncreasingIds(s)
    ensures s[0].id !in Ids(s[1..])
  {
    forall p | p in s[1..]
      ensures p.id > s[0].id
    {
      var k :| 0 <= k < |s[1..]| && s[1..][k] == p;
      assert s[k + 1] == p;
    }
  }

  lemma DeadIdsStep(s: seq<WindParticle>, i: int)
    requires 0 <= i < |s|
    ensures DeadIds(s[..i + 1]) == DeadIds(s[..i]) + (if s[i].alive then {} else {s[i].id})
  {
    assert s[..i + 1] == s[..i] + [s[i]];
  }

  // ---------------------------------------------------------------------
  // Properties of the update pass
  // ---------------------------------------------------------------------

  /** Storing the next outcome advances the split between updated and not yet updated particles. */
  lemma ReplaceNext(outcomes: seq<StepOutcome>, original: seq<WindParticle>, i: int)
    requires |outcomes| == |original| && 0 <= i < |original|
    ensures (Particles(outcomes[..i]) + original[i..])[i] == original[i]
    ensures (Particles(outcomes[..i]) + original[i..])[i := outcomes[i].particle]
      == Particles(outcomes[..i + 1]) + original[i + 1..]
  {
  }

  /**
   * A step keeps every id, so the list after an update pass has the same
   * ids in the same order, below the same counter.
   */
  lemma UpdateKeepsIds(ps: seq<WindParticle>, outcomes: seq<StepOutcome>, counter: int)
    requires |ps| == |outcomes|
    requires forall i :: 0 <= i < |ps| ==> outcomes[i].particle.id == ps[i].id
    requires IncreasingIds(ps)
    requires forall i :: 0 <= i < |ps| ==> 0 <= ps[i].id < counter
    ensures Ids(Particles(outcomes)) == Ids(ps)
    ensures IncreasingIds(Particles(outcomes))
    ensures forall i :: 0 <= i < |ps| ==> 0 <= Particles(outcomes)[i].id < counter
  {
    SameIds(ps, Particles(outcomes));
  }

  /** Two lists whose ids agree slot by slot have the same ids. */
  lemma SameIds(s: seq<WindParticle>, t: seq<WindParticle>)
    requires |s| == |t|
    requires forall i :: 0 <= i < |s| ==> s[i].id == t[i].id
    ensures Ids(s) == Ids(t)
  {
    forall id | id in Ids(s)
      ensures id in Ids(t)
    {
      var i :| 0 <= i < |s| && s[i].id == id;
      assert t[i] in t;
    }
    forall id | id in Ids(t)
      ensures id in Ids(s)
    {
      var i :| 0 <= i < |t| && t[i].id == id;
      assert s[i] in s;
    }
  }

  /** Every particle still has its path when the update pass reaches it. */
  lemma PathRecorded(paths: map<int, seq<Vec3>>, ps: seq<WindParticle>, outcomes: seq<StepOutcome>, i: int)
    requires |ps| == |outcomes| && 0 <= i < |ps|
    requires paths.Keys == Ids(ps)
    ensures ps[i].id in ExtendPaths(paths, ps, outcomes, i)
  {
    ExtendPathsKeys(paths, ps, outcomes, i);
    assert ps[i] in ps;
  }

  /** Extending paths never adds or removes a key. */
  lemma {:induction false} ExtendPathsKeys(paths: map<int, seq<Vec3>>, ps: seq<WindParticle>, outcomes: seq<StepOutcome>, n: nat)
    requires |ps| == |outcomes| && n <= |ps|
    ensures ExtendPaths(paths, ps, outcomes, n).Keys == paths.Keys
  {
    if n > 0 {
      ExtendPathsKeys(paths, ps, outcomes, n - 1);
    }
  }

  /**
   * With distinct ids that all have a path, each particle's path gains
   * exactly the points its own step recorded.
   */
  lemma {:induction false} ExtendPathsAt(paths: map<int, seq<Vec3>>, ps: seq<WindParticle>, outcomes: seq<StepOutcome>, n: nat, i: int)
    requires |ps| == |outcomes| && n <= |ps| && IncreasingIds(ps)
    requires forall k :: 0 <= k < |ps| ==> ps[k].id in paths
    requires 0 <= i < n
    ensures ps[i].id in ExtendPaths(paths, ps, outcomes, n)
    ensures ExtendPaths(paths, ps, outcomes, n)[ps[i].id] == paths[ps[i].id] + outcomes[i].path
  {
    ExtendPathsKeys(paths, ps, outcomes, n);
    ExtendPathsKeys(paths, ps, outcomes, n - 1);
    if i < n - 1 {
      ExtendPathsAt(paths, ps, outcomes, n - 1, i);
    } else {
      ExtendPathsUntouched(paths, ps, outcomes, n - 1, ps[i].id);
    }
  }

  /** A key that none of the first `n` particles has keeps its path. */
  lemma {:induction false} ExtendPathsUntouched(paths: map<int, seq<Vec3>>, ps: seq<WindParticle>, outcomes: seq<StepOutcome>, n: nat, id: int)
    requires |ps| == |outcomes| && n <= |ps|
    requires forall k :: 0 <= k < n ==> ps[k].id != id
    requires id in paths
    ensures id in ExtendPaths(paths, ps, outcomes, n)
    ensures ExtendPaths(paths, ps, outcomes, n)[id] == paths[id]
  {
    if n > 0 {
      ExtendPathsUntouched(paths, ps, outcomes, n - 1, id);
    }
  }

  /**
   * An update pass leaves a dead particle as it is and adds nothing to its
   * path; the pass applies no impulse for it.
   */
  lemma UpdateSkipsDead(m: Numerics, ps: seq<WindParticle>, sphere: Sphere, dt: real, raycast: Raycaster, capacity: nat, i: int)
    requires 0 <= i < |ps| && !ps[i].alive
    ensures Particles(Outcomes(m, ps, sphere, dt, raycast, capacity))[i] == ps[i]
    ensures Outcomes(m, ps, sphere, dt, raycast, capacity)[i].path == []
    ensures Outcomes(m, ps, sphere, dt, raycast, capacity)[i].impulses == []
  {
  }

  /** An update pass applies at most one impulse per particle and buffer slot. */
  lemma {:induction false} ImpulsesBound(outcomes: seq<StepOutcome>, n: nat, capacity: nat)
    requires n <= |outcomes|
    requires forall i :: 0 <= i < |outcomes| ==> |outcomes[i].impulses| <= capacity
    ensures |ImpulsesOf(outcomes, n)| <= n * capacity
  {
    if n > 0 {
      ImpulsesBound(outcomes, n - 1, capacity);
      assert n * capacity == (n - 1) * capacity + capacity;
    }
  }
}
