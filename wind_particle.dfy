/**
 * One wind particle and what a single simulation step does to it: the
 * pruning sphere it may enter and then leave, the ray it travels along in a
 * frame, and the response to each surface it hits (a reflection, a loss of
 * speed and an impulse handed to the body that was hit).
 */
module WindParticles {
  import opened Geometry
  import opened TransformExtensions

  datatype Color = Color(r: real, g: real, b: real, a: real)

  const Black := Color(0.0, 0.0, 0.0, 1.0)

  datatype WindParticle = WindParticle(
    id: int,
    position: Vec3,
    dir: Vec3,
    velocity: real,
    mass: real,
    alive: bool,
    color: Color,
    hasEnteredTargetBounds: bool)

  /** A surface hit reported by the physics raycast. */
  datatype RaycastHit = RaycastHit(point: Vec3, normal: Vec3, distance: real)

  /** The default value of a hit slot. */
  const NoHit := RaycastHit(Zero, Zero, 0.0)

  /** An impulse applied at a point of the body that was hit. */
  datatype Impulse = Impulse(force: Vec3, point: Vec3)

  /** Below or at this speed a particle that hit something is dead. */
  const MinVelocity: real := 0.00001

  /** The least distance a particle travels along its reflection after a hit. */
  const MinTravel: real := 0.01

  /** A freshly emitted particle. */
  function NewParticle(id: int, start: Vec3, dir: Vec3, velocity: real, mass: real): (p: WindParticle)
    ensures p.alive && !p.hasEnteredTargetBounds
    ensures p.id == id && p.position == start && p.dir == dir
    ensures p.velocity == velocity && p.mass == mass
  {
    WindParticle(id, start, dir, velocity, mass, true, Black, false)
  }

  // ---------------------------------------------------------------------
  // The pruning sphere
  // ---------------------------------------------------------------------

  datatype Sphere = Sphere(origin: Vec3, radius2: real)

  /**
   * The sphere around the chimes: the bounds are doubled in size about their
   * centre, and the radius is the largest of the doubled sizes.
   */
  function PruningSphere(b: Bounds): (s: Sphere)
    ensures s.origin == b.center
    ensures 0.0 <= s.radius2
  {
    var size := Scale(b.size, 2.0);
    var radius := MaxOf(MaxOf(size.x, size.y), size.z);
    SquareNonNegative(radius);
    Sphere(b.center, Sq(radius))
  }

  /** The squared distance to the origin is at most the squared radius. */
  predicate InSphere(s: Sphere, p: Vec3) {
    SqrMagnitude(Sub(p, s.origin)) <= s.radius2
  }

  lemma SquareBelow(x: real, h: real)
    requires -h <= x <= h
    ensures Sq(x) <= Sq(h)
  {
    assert 0.0 <= (h - x) * (h + x);
    assert (h - x) * (h + x) == Sq(h) - Sq(x);
  }

  /** One axis of PruningSphereCoversBounds: the offset from the centre is at most a quarter of the radius. */
  lemma AxisWithin(center: real, size: real, x: real, radius: real)
    requires center - size * 0.5 <= x <= center + size * 0.5
    requires size * 2.0 <= radius
    ensures Sq(x - center) <= Sq(radius / 4.0)
  {
    SquareBelow(x - center, radius / 4.0);
  }

  lemma QuarterSquares(a: real, b: real, c: real, radius: real)
    requires a <= Sq(radius / 4.0) && b <= Sq(radius / 4.0) && c <= Sq(radius / 4.0)
    ensures a + b + c <= Sq(radius)
  {
    var quarter := radius / 4.0;
    assert Sq(radius) == 16.0 * Sq(quarter);
    SquareNonNegative(quarter);
  }

  /** Every point of the bounds lies inside the pruning sphere built from them. */
  lemma PruningSphereCoversBounds(b: Bounds, p: Vec3)
    requires Contains(b, p)
    ensures InSphere(PruningSphere(b), p)
  {
    var size := Scale(b.size, 2.0);
    var radius := MaxOf(MaxOf(size.x, size.y), size.z);
    AxisWithin(b.center.x, b.size.x, p.x, radius);
    AxisWithin(b.center.y, b.size.y, p.y, radius);
    AxisWithin(b.center.z, b.size.z, p.z, radius);
    var d := Sub(p, b.center);
    SqrMagnitudeSquares(d);
    QuarterSquares(Sq(d.x), Sq(d.y), Sq(d.z), radius);
  }

  // ---------------------------------------------------------------------
  // Collision response
  // ---------------------------------------------------------------------

  /**
   * The share of the particle's momentum handed over on a hit, from the
   * cosine between the incoming and reflected directions: a head-on hit
   * (cosine -1) hands over everything, a grazing one (cosine 1) nothing.
   */
  function EnergyTransfer(incidence: real): (e: real)
    ensures -1.0 <= incidence <= 1.0 ==> 0.0 <= e <= 1.0
    ensures incidence == -1.0 ==> e == 1.0
    ensures incidence == 1.0 ==> e == 0.0
  {
    1.0 - ((incidence + 1.0) / 2.0)
  }

  /** How far the particle goes along its reflection: what is left of the frame's travel, but at least MinTravel. */
  function RemainingTravel(distanceTraveled: real, hitDistance: real): (r: real)
    ensures MinTravel <= r
    ensures distanceTraveled - hitDistance <= r
    ensures r == MinTravel || r == distanceTraveled - hitDistance
  {
    MaxOf(distanceTraveled - hitDistance, MinTravel)
  }

  /** The speed left after handing over the share `energyTransfer` of it. */
  function Slowed(velocity: real, energyTransfer: real): real {
    velocity * (1.0 - energyTransfer)
  }

  /**
   * The state carried through the hits of one step: the particle, where it
   * will end up, the impulses applied so far and the hit points passed.
   */
  datatype Flight = Flight(particle: WindParticle, next: Vec3, impulses: seq<Impulse>, path: seq<Vec3>)

  /** The response to one hit. */
  function Deflect(m: Numerics, f: Flight, hit: RaycastHit, distanceTraveled: real): (r: Flight)
    ensures r.particle.alive <==> r.particle.velocity > MinVelocity
    ensures r.particle == f.particle.(dir := r.particle.dir, velocity := r.particle.velocity, alive := r.particle.alive)
    ensures |r.impulses| == |f.impulses| + 1 && r.impulses[..|f.impulses|] == f.impulses
    ensures r.impulses[|f.impulses|].point == hit.point
    ensures r.path == f.path + [hit.point]
    ensures r.particle.dir == m.reflect(f.particle.dir, hit.normal)
    ensures r.particle.velocity == Slowed(f.particle.velocity, EnergyTransfer(Dot(f.particle.dir, r.particle.dir)))
    ensures r.next == Add(hit.point, Scale(r.particle.dir, RemainingTravel(distanceTraveled, hit.distance)))
  {
    var p := f.particle;
    var reflection := m.reflect(p.dir, hit.normal);
    var incidence := Dot(p.dir, reflection);
    var energyTransfer := EnergyTransfer(incidence);
    var force := Scale(Scale(Scale(p.dir, p.velocity), p.mass), energyTransfer);
    var velocity := Slowed(p.velocity, energyTransfer);
    Flight(
      p.(velocity := velocity, dir := reflection, alive := velocity > MinVelocity),
      Add(hit.point, Scale(reflection, RemainingTravel(distanceTraveled, hit.distance))),
      f.impulses + [Impulse(force, hit.point)],
      f.path + [hit.point])
  }

  lemma MomentumComponent(d: real, v: real, mass: real, e: real)
    ensures d * v * mass * e == d * (mass * (v - v * (1.0 - e)))
  {
    assert v - v * (1.0 - e) == v * e;
  }

  /** The impulse handed over is exactly the momentum the particle loses. */
  lemma DeflectMomentum(m: Numerics, f: Flight, hit: RaycastHit, distanceTraveled: real)
    ensures Deflect(m, f, hit, distanceTraveled).impulses[|f.impulses|].force
      == Scale(f.particle.dir, f.particle.mass * (f.particle.velocity - Deflect(m, f, hit, distanceTraveled).particle.velocity))
  {
    var p := f.particle;
    var e := EnergyTransfer(Dot(p.dir, m.reflect(p.dir, hit.normal)));
    var r := Deflect(m, f, hit, distanceTraveled);
    assert r.particle.velocity == p.velocity * (1.0 - e);
    assert r.impulses[|f.impulses|].force == Scale(Scale(Scale(p.dir, p.velocity), p.mass), e);
    MomentumComponent(p.dir.x, p.velocity, p.mass, e);
    MomentumComponent(p.dir.y, p.velocity, p.mass, e);
    MomentumComponent(p.dir.z, p.velocity, p.mass, e);
  }

  lemma ScaleDown(v: real, k: real, product: real)
    requires 0.0 <= v && 0.0 <= k <= 1.0
    requires product == v * k
    ensures 0.0 <= product <= v
  {
    assert v - v * k == v * (1.0 - k);
  }

  /**
   * With an exact reflection, a unit direction and a unit normal, a hit never
   * speeds a particle up and leaves its direction a unit vector.
   */
  lemma DeflectSlows(m: Numerics, f: Flight, hit: RaycastHit, distanceTraveled: real)
    requires IsMirror(m)
    requires SqrMagnitude(f.particle.dir) == 1.0 && SqrMagnitude(hit.normal) == 1.0
    requires 0.0 <= f.particle.velocity
    ensures 0.0 <= Deflect(m, f, hit, distanceTraveled).particle.velocity <= f.particle.velocity
    ensures SqrMagnitude(Deflect(m, f, hit, distanceTraveled).particle.dir) == 1.0
  {
    var p := f.particle;
    UnitMirror(p.dir, hit.normal);
    assert m.reflect(p.dir, hit.normal) == Mirror(p.dir, hit.normal);
    var e := EnergyTransfer(Dot(p.dir, Mirror(p.dir, hit.normal)));
    assert 0.0 <= e <= 1.0;
    var k := 1.0 - e;
    var slowed := Deflect(m, f, hit, distanceTraveled).particle.velocity;
    ScaleDown(p.velocity, k, slowed);
  }

  /** A head-on hit with an exact reflection stops the particle and kills it. */
  lemma DeflectHeadOn(m: Numerics, f: Flight, hit: RaycastHit, distanceTraveled: real)
    requires IsMirror(m)
    requires SqrMagnitude(f.particle.dir) == 1.0
    requires hit.normal == Scale(f.particle.dir, -1.0)
    ensures Deflect(m, f, hit, distanceTraveled).particle.velocity == 0.0
    ensures !Deflect(m, f, hit, distanceTraveled).particle.alive
  {
    var d := f.particle.dir;
    MirrorIncidence(d, hit.normal);
    assert Dot(d, hit.normal) == -SqrMagnitude(d);
    assert Sq(Dot(d, hit.normal)) == 1.0;
  }

  /** A hit along the surface changes neither the direction nor the speed. */
  lemma DeflectGrazing(m: Numerics, f: Flight, hit: RaycastHit, distanceTraveled: real)
    requires IsMirror(m)
    requires SqrMagnitude(f.particle.dir) == 1.0
    requires Dot(f.particle.dir, hit.normal) == 0.0
    ensures Deflect(m, f, hit, distanceTraveled).particle.velocity == f.particle.velocity
    ensures Deflect(m, f, hit, distanceTraveled).particle.dir == f.particle.dir
  {
    var d := f.particle.dir;
    MirrorIncidence(d, hit.normal);
    assert Mirror(d, hit.normal) == d;
  }

  /** All the hits of one step, in order. */
  function Fly(m: Numerics, f: Flight, hits: seq<RaycastHit>, distanceTraveled: real): (r: Flight)
    ensures |r.impulses| == |f.impulses| + |hits|
    decreases |hits|
  {
    if hits == [] then f
    else Deflect(m, Fly(m, f, hits[..|hits| - 1], distanceTraveled), hits[|hits| - 1], distanceTraveled)
  }

  /** One more hit of a list is one more deflection. */
  lemma FlyStep(m: Numerics, f: Flight, hits: seq<RaycastHit>, i: int, distanceTraveled: real)
    requires 0 <= i < |hits|
    ensures Fly(m, f, hits[..i + 1], distanceTraveled) == Deflect(m, Fly(m, f, hits[..i], distanceTraveled), hits[i], distanceTraveled)
  {
    assert hits[..i + 1][..i] == hits[..i];
  }

  function HitPoints(hits: seq<RaycastHit>): (points: seq<Vec3>)
    ensures |points| == |hits|
    ensures forall i :: 0 <= i < |hits| ==> points[i] == hits[i].point
  {
    seq(|hits|, i requires 0 <= i < |hits| => hits[i].point)
  }

  /**
   * The hits change only the direction, speed and liveness of the particle;
   * the path gains the hit points in order.
   */
  lemma {:induction false} FlyKeeps(m: Numerics, f: Flight, hits: seq<RaycastHit>, distanceTraveled: real)
    ensures Fly(m, f, hits, distanceTraveled).particle
      == f.particle.(dir := Fly(m, f, hits, distanceTraveled).particle.dir,
                     velocity := Fly(m, f, hits, distanceTraveled).particle.velocity,
                     alive := Fly(m, f, hits, distanceTraveled).particle.alive)
    ensures Fly(m, f, hits, distanceTraveled).path == f.path + HitPoints(hits)
    decreases |hits|
  {
    if hits != [] {
      var n := |hits| - 1;
      FlyKeeps(m, f, hits[..n], distanceTraveled);
      assert HitPoints(hits) == HitPoints(hits[..n]) + [hits[n].point];
    }
  }

  /** After at least one hit the particle is alive exactly when it is faster than MinVelocity. */
  lemma FlyAlive(m: Numerics, f: Flight, hits: seq<RaycastHit>, distanceTraveled: real)
    requires hits != []
    ensures Fly(m, f, hits, distanceTraveled).particle.alive <==> Fly(m, f, hits, distanceTraveled).particle.velocity > MinVelocity
  {
  }

  /** Under the assumptions of DeflectSlows for every hit, the hits of a step never speed a particle up. */
  lemma {:induction false} FlySlows(m: Numerics, f: Flight, hits: seq<RaycastHit>, distanceTraveled: real)
    requires IsMirror(m)
    requires SqrMagnitude(f.particle.dir) == 1.0 && 0.0 <= f.particle.velocity
    requires forall i :: 0 <= i < |hits| ==> SqrMagnitude(hits[i].normal) == 1.0
    ensures 0.0 <= Fly(m, f, hits, distanceTraveled).particle.velocity <= f.particle.velocity
    ensures SqrMagnitude(Fly(m, f, hits, distanceTraveled).particle.dir) == 1.0
    decreases |hits|
  {
    if hits != [] {
      var n := |hits| - 1;
      FlySlows(m, f, hits[..n], distanceTraveled);
      DeflectSlows(m, Fly(m, f, hits[..n], distanceTraveled), hits[n], distanceTraveled);
    }
  }

  /** The hits hand over one impulse each, in order, at the hit points; earlier impulses are kept. */
  lemma {:induction false} FlyImpulses(m: Numerics, f: Flight, hits: seq<RaycastHit>, distanceTraveled: real)
    ensures Fly(m, f, hits, distanceTraveled).impulses[..|f.impulses|] == f.impulses
    ensures forall i :: 0 <= i < |hits| ==> Fly(m, f, hits, distanceTraveled).impulses[|f.impulses| + i].point == hits[i].point
    decreases |hits|
  {
    if hits != [] {
      var n := |hits| - 1;
      FlyImpulses(m, f, hits[..n], distanceTraveled);
      var before := Fly(m, f, hits[..n], distanceTraveled).impulses;
      var after := Fly(m, f, hits, distanceTraveled).impulses;
      assert after[..|before|] == before;
      assert after[..|f.impulses|] == before[..|f.impulses|];
      forall i | 0 <= i < |hits|
        ensures after[|f.impulses| + i].point == hits[i].point
      {
        if i < n {
          assert after[|f.impulses| + i] == before[|f.impulses| + i];
          assert hits[..n][i] == hits[i];
        }
      }
    }
  }

  // ---------------------------------------------------------------------
  // One step of one particle
  // ---------------------------------------------------------------------

  /** The raycast results that fit in a buffer of `capacity` slots. */
  function Truncate(hits: seq<RaycastHit>, capacity: nat): (r: seq<RaycastHit>)
    ensures |r| <= capacity && |r| <= |hits|
    ensures |r| == capacity || |r| == |hits|
    ensures r == hits[..|r|]
  {
    if |hits| <= capacity then hits else hits[..capacity]
  }

  /** Where the particle would be after `dt` seconds without obstacles. */
  function Advance(p: WindParticle, dt: real): Vec3 {
    Add(p.position, Scale(Scale(p.dir, p.velocity), dt))
  }

  /** What a step does to a particle: its new state, the points for its path, the impulses it applies. */
  datatype StepOutcome = StepOutcome(particle: WindParticle, path: seq<Vec3>, impulses: seq<Impulse>)

  /**
   * The physics raycast: the hits along a ray from an origin in a direction,
   * up to a maximum distance.
   */
  type Raycaster = (Vec3, Vec3, real) -> seq<RaycastHit>

  /**
   * One step of one particle over `dt` seconds. A dead particle is left as
   * it is. A particle that has entered the sphere and is now outside it dies
   * where it stands. Otherwise it notes whether it is inside the sphere, casts
   * a ray over the distance it would travel, takes the hits that fit in the
   * buffer, and moves.
   */
  function Step(m: Numerics, p: WindParticle, sphere: Sphere, dt: real, raycast: Raycaster, capacity: nat): (o: StepOutcome)
    ensures !p.alive ==> o == StepOutcome(p, [], [])
    ensures p.alive && p.hasEnteredTargetBounds && !InSphere(sphere, p.position) ==> o == StepOutcome(p.(alive := false), [], [])
    ensures p.alive && !p.hasEnteredTargetBounds ==> (o.particle.hasEnteredTargetBounds <==> InSphere(sphere, p.position))
    ensures p.hasEnteredTargetBounds ==> o.particle.hasEnteredTargetBounds
    ensures o.particle.id == p.id && o.particle.mass == p.mass && o.particle.color == p.color
    ensures |o.impulses| <= capacity
  {
    if !p.alive then StepOutcome(p, [], [])
    else if p.hasEnteredTargetBounds && !InSphere(sphere, p.position) then StepOutcome(p.(alive := false), [], [])
    else
      var q := if !p.hasEnteredTargetBounds && InSphere(sphere, p.position) then p.(hasEnteredTargetBounds := true) else p;
      var next := Advance(q, dt);
      var distanceTraveled := Magnitude(m, Sub(next, q.position));
      var hits := Truncate(raycast(q.position, q.dir, distanceTraveled), capacity);
      var f := Fly(m, Flight(q, next, [], []), hits, distanceTraveled);
      FlyKeeps(m, Flight(q, next, [], []), hits, distanceTraveled);
      StepOutcome(f.particle.(position := f.next), f.path + [f.next], f.impulses)
  }

  /** The particle a live step starts from: marked entered once it is inside the sphere. */
  function Entered(p: WindParticle, sphere: Sphere): (q: WindParticle)
    ensures q.hasEnteredTargetBounds <==> p.hasEnteredTargetBounds || InSphere(sphere, p.position)
  {
    p.(hasEnteredTargetBounds := p.hasEnteredTargetBounds || InSphere(sphere, p.position))
  }

  /** The distance a particle would cover in `dt` seconds, as the engine measures it. */
  function Travel(m: Numerics, q: WindParticle, dt: real): NonNegReal {
    Magnitude(m, Sub(Advance(q, dt), q.position))
  }

  /** The hits of the particle's ray over its travel that fit in the buffer. */
  function CastHits(m: Numerics, q: WindParticle, dt: real, raycast: Raycaster, capacity: nat): seq<RaycastHit> {
    Truncate(raycast(q.position, q.dir, Travel(m, q, dt)), capacity)
  }

  /**
   * A live particle that is not leaving the sphere is carried through the
   * hits of its ray from where it stands, towards where its speed would
   * take it, and ends at the flight's final position.
   */
  lemma StepFlight(m: Numerics, p: WindParticle, sphere: Sphere, dt: real, raycast: Raycaster, capacity: nat)
    requires p.alive && !(p.hasEnteredTargetBounds && !InSphere(sphere, p.position))
    ensures var q := Entered(p, sphere);
      var f := Fly(m, Flight(q, Advance(q, dt), [], []), CastHits(m, q, dt, raycast, capacity), Travel(m, q, dt));
      Step(m, p, sphere, dt, raycast, capacity) == StepOutcome(f.particle.(position := f.next), f.path + [f.next], f.impulses)
  {
    assert Entered(p, sphere) == if !p.hasEnteredTargetBounds && InSphere(sphere, p.position) then p.(hasEnteredTargetBounds := true) else p;
  }

  /**
   * A live particle that is not leaving the sphere follows the hits of its
   * ray that fit in the buffer: one impulse per hit at the hit point, and
   * the hit points and then the final position on its path. Without a hit
   * it moves straight on with its direction and speed.
   */
  lemma StepFollowsHits(m: Numerics, p: WindParticle, sphere: Sphere, dt: real, raycast: Raycaster, capacity: nat)
    requires p.alive && !(p.hasEnteredTargetBounds && !InSphere(sphere, p.position))
    ensures var q := Entered(p, sphere);
      var hits := CastHits(m, q, dt, raycast, capacity);
      var o := Step(m, p, sphere, dt, raycast, capacity);
      |o.impulses| == |hits| &&
      (forall i :: 0 <= i < |hits| ==> o.impulses[i].point == hits[i].point) &&
      o.path == HitPoints(hits) + [o.particle.position] &&
      (hits == [] ==> o.particle == q.(position := Advance(q, dt)))
  {
    var q := Entered(p, sphere);
    var start := Flight(q, Advance(q, dt), [], []);
    var hits := CastHits(m, q, dt, raycast, capacity);
    var f := Fly(m, start, hits, Travel(m, q, dt));
    StepFlight(m, p, sphere, dt, raycast, capacity);
    var o := Step(m, p, sphere, dt, raycast, capacity);
    assert o.impulses == f.impulses && o.path == f.path + [f.next] && o.particle == f.particle.(position := f.next);
    FlyKeeps(m, start, hits, Travel(m, q, dt));
    FlyImpulses(m, start, hits, Travel(m, q, dt));
  }

  /**
   * After the last hit of a step, the particle goes along the reflection of
   * the direction it came in with, at the speed the energy transfer leaves,
   * to the last hit point plus the remaining travel along the reflection.
   */
  lemma StepLastHit(m: Numerics, p: WindParticle, sphere: Sphere, dt: real, raycast: Raycaster, capacity: nat)
    requires p.alive && !(p.hasEnteredTargetBounds && !InSphere(sphere, p.position))
    requires CastHits(m, Entered(p, sphere), dt, raycast, capacity) != []
    ensures var q := Entered(p, sphere);
      var hits := CastHits(m, q, dt, raycast, capacity);
      var last := hits[|hits| - 1];
      var before := Fly(m, Flight(q, Advance(q, dt), [], []), hits[..|hits| - 1], Travel(m, q, dt)).particle;
      var o := Step(m, p, sphere, dt, raycast, capacity);
      o.particle.dir == m.reflect(before.dir, last.normal) &&
      o.particle.velocity == Slowed(before.velocity, EnergyTransfer(Dot(before.dir, o.particle.dir))) &&
      o.particle.position == Add(last.point, Scale(o.particle.dir, RemainingTravel(Travel(m, q, dt), last.distance)))
  {
    var q := Entered(p, sphere);
    var hits := CastHits(m, q, dt, raycast, capacity);
    var n := |hits| - 1;
    StepFlight(m, p, sphere, dt, raycast, capacity);
    assert Fly(m, Flight(q, Advance(q, dt), [], []), hits, Travel(m, q, dt))
      == Deflect(m, Fly(m, Flight(q, Advance(q, dt), [], []), hits[..n], Travel(m, q, dt)), hits[n], Travel(m, q, dt));
  }

  /** Every hit the raycaster reports has a unit normal. */
  ghost predicate UnitNormals(raycast: Raycaster) {
    forall origin, dir, maxDistance, h :: h in raycast(origin, dir, maxDistance) ==> SqrMagnitude(h.normal) == 1.0
  }

  /**
   * The state machine of a particle: death is final, and a particle that
   * was alive and is dead after the step either left the sphere after
   * entering it or was slowed to at most MinVelocity by a hit.
   */
  lemma StepLifecycle(m: Numerics, p: WindParticle, sphere: Sphere, dt: real, raycast: Raycaster, capacity: nat)
    ensures Step(m, p, sphere, dt, raycast, capacity).particle.alive ==> p.alive
    ensures p.alive && !Step(m, p, sphere, dt, raycast, capacity).particle.alive ==>
      (p.hasEnteredTargetBounds && !InSphere(sphere, p.position)) ||
      (Step(m, p, sphere, dt, raycast, capacity).impulses != [] &&
       Step(m, p, sphere, dt, raycast, capacity).particle.velocity <= MinVelocity)
  {
    if p.alive && !(p.hasEnteredTargetBounds && !InSphere(sphere, p.position)) {
      var q := if !p.hasEnteredTargetBounds && InSphere(sphere, p.position) then p.(hasEnteredTargetBounds := true) else p;
      var next := Advance(q, dt);
      var distanceTraveled := Magnitude(m, Sub(next, q.position));
      var hits := Truncate(raycast(q.position, q.dir, distanceTraveled), capacity);
      FlyKeeps(m, Flight(q, next, [], []), hits, distanceTraveled);
      if hits != [] {
        FlyAlive(m, Flight(q, next, [], []), hits, distanceTraveled);
      }
    }
  }

  /**
   * With an exact reflection, unit normals and a unit direction, a step never
   * speeds a particle up and keeps its direction a unit vector.
   */
  lemma StepSlows(m: Numerics, p: WindParticle, sphere: Sphere, dt: real, raycast: Raycaster, capacity: nat)
    requires IsMirror(m) && UnitNormals(raycast)
    requires SqrMagnitude(p.dir) == 1.0 && 0.0 <= p.velocity
    ensures 0.0 <= Step(m, p, sphere, dt, raycast, capacity).particle.velocity <= p.velocity
    ensures SqrMagnitude(Step(m, p, sphere, dt, raycast, capacity).particle.dir) == 1.0
  {
    if p.alive && !(p.hasEnteredTargetBounds && !InSphere(sphere, p.position)) {
      var q := if !p.hasEnteredTargetBounds && InSphere(sphere, p.position) then p.(hasEnteredTargetBounds := true) else p;
      var next := Advance(q, dt);
      var distanceTraveled := Magnitude(m, Sub(next, q.position));
      var all := raycast(q.position, q.dir, distanceTraveled);
      var hits := Truncate(all, capacity);
      forall i | 0 <= i < |hits|
        ensures SqrMagnitude(hits[i].normal) == 1.0
      {
        assert hits[i] in all;
      }
      FlySlows(m, Flight(q, next, [], []), hits, distanceTraveled);
      FlyKeeps(m, Flight(q, next, [], []), hits, distanceTraveled);
    }
  }

  /**
   * A live particle inside the sphere with nothing in its way moves to
   * where its speed takes it and keeps its direction and speed.
   */
  lemma StepUnobstructed(m: Numerics, p: WindParticle, sphere: Sphere, dt: real, raycast: Raycaster, capacity: nat)
    requires p.alive && InSphere(sphere, p.position)
    requires raycast(p.position, p.dir, Magnitude(m, Sub(Advance(p, dt), p.position))) == []
    ensures Step(m, p, sphere, dt, raycast, capacity)
      == StepOutcome(p.(position := Advance(p, dt), hasEnteredTargetBounds := true), [Advance(p, dt)], [])
  {
  }
}
