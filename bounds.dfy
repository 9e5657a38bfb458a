/**
 * Axis-aligned bounding volumes of transforms and their renderers.
 *
 * A `Bounds` is the engine's box, stored as a centre and a size; its corners
 * are derived. The bounds of a transform are found by zeroing its rotation,
 * folding every renderer box (its own, then those of its hierarchy) into six
 * running extremes, restoring the rotation and turning the extremes back into
 * a centre and a size.
 */
module TransformExtensions {
  import opened Geometry

  datatype Option<T> = None | Some(value: T)

  /** `float.MaxValue`; `float.MinValue` is its negation. */
  const FloatMax: real := 340282346638528859811704183484516925440.0

  /** The engine's `Bounds`: a centre and a full size along each axis. */
  datatype Bounds = Bounds(center: Vec3, size: Vec3)

  function Extents(b: Bounds): Vec3 {
    Scale(b.size, 0.5)
  }

  /** `Bounds.min` */
  function Min(b: Bounds): Vec3 {
    Sub(b.center, Extents(b))
  }

  /** `Bounds.max` */
  function Max(b: Bounds): Vec3 {
    Add(b.center, Extents(b))
  }

  /** `Bounds.SetMinMax`: the box with the given corners. */
  function FromMinMax(lo: Vec3, hi: Vec3): (b: Bounds)
    ensures Min(b) == lo && Max(b) == hi
  {
    var extents := Scale(Sub(hi, lo), 0.5);
    Bounds(Add(lo, extents), Sub(hi, lo))
  }

  /** Component-wise order: `u` is nowhere above `v`. */
  predicate Below(u: Vec3, v: Vec3) {
    u.x <= v.x && u.y <= v.y && u.z <= v.z
  }

  /** `p` lies in the closed box `b`. */
  predicate Contains(b: Bounds, p: Vec3) {
    Below(Min(b), p) && Below(p, Max(b))
  }

  /** Box `outer` covers box `inner`. */
  predicate Encloses(outer: Bounds, inner: Bounds) {
    Below(Min(outer), Min(inner)) && Below(Max(inner), Max(outer))
  }

  /** `Vector3.Min` */
  function MinVec(u: Vec3, v: Vec3): Vec3 {
    Vec3(MinOf(u.x, v.x), MinOf(u.y, v.y), MinOf(u.z, v.z))
  }

  /** `Vector3.Max` */
  function MaxVec(u: Vec3, v: Vec3): Vec3 {
    Vec3(MaxOf(u.x, v.x), MaxOf(u.y, v.y), MaxOf(u.z, v.z))
  }

  /**
   * The six running extremes of the bounds computation: the three minimums
   * in `lo` and the three maximums in `hi`.
   */
  datatype Extremes = Extremes(lo: Vec3, hi: Vec3)

  /** The starting extremes: minimums at `float.MaxValue`, maximums at `float.MinValue`. */
  const Unset := Extremes(Vec3(FloatMax, FloatMax, FloatMax), Vec3(-FloatMax, -FloatMax, -FloatMax))

  /** One renderer's step: each minimum and maximum takes that box's corner into account. */
  function Include(e: Extremes, b: Bounds): Extremes {
    var lo := Min(b);
    var hi := Max(b);
    Extremes(
      Vec3(MinOf(lo.x, e.lo.x), MinOf(lo.y, e.lo.y), MinOf(lo.z, e.lo.z)),
      Vec3(MaxOf(hi.x, e.hi.x), MaxOf(hi.y, e.hi.y), MaxOf(hi.z, e.hi.z)))
  }

  /** The extremes after visiting `boxes` in order, starting from `e`. */
  function Accumulate(e: Extremes, boxes: seq<Bounds>): Extremes
    decreases |boxes|
  {
    if boxes == [] then e
    else Include(Accumulate(e, boxes[..|boxes| - 1]), boxes[|boxes| - 1])
  }

  /** The centre and size built from the extremes, axis by axis. */
  function CenterAndSize(e: Extremes): Bounds {
    Bounds(
      Vec3((e.lo.x + e.hi.x) / 2.0, (e.lo.y + e.hi.y) / 2.0, (e.lo.z + e.hi.z) / 2.0),
      Vec3(e.hi.x - e.lo.x, e.hi.y - e.lo.y, e.hi.z - e.lo.z))
  }

  /** A rotation, carried but never inspected. */
  datatype Quaternion = Quaternion(x: real, y: real, z: real, w: real)

  const Identity := Quaternion(0.0, 0.0, 0.0, 1.0)

  /**
   * A node of the scene hierarchy. Its world-space renderer boxes depend on
   * its rotation, so they are given as functions of the rotation:
   * `rendererBounds` for the renderers on the node itself and
   * `childRendererBounds` for those found on the node and everything below it.
   */
  class Transform {
    var rotation: Quaternion
    const position: Vec3
    const rendererBounds: Quaternion -> seq<Bounds>
    const childRendererBounds: Quaternion -> seq<Bounds>

    constructor (rotation: Quaternion, position: Vec3,
                 rendererBounds: Quaternion -> seq<Bounds>,
                 childRendererBounds: Quaternion -> seq<Bounds>)
      ensures this.rotation == rotation && this.position == position
      ensures this.rendererBounds == rendererBounds
      ensures this.childRendererBounds == childRendererBounds
    {
      this.rotation := rotation;
      this.position := position;
      this.rendererBounds := rendererBounds;
      this.childRendererBounds := childRendererBounds;
    }
  }

  /** What the bounds computation returns for `root`: every renderer box seen unrotated. */
  function TransformBounds(root: Transform): Bounds {
    var own := root.rendererBounds(Identity);
    var all := root.childRendererBounds(Identity);
    CenterAndSize(Accumulate(Accumulate(Unset, own), all))
  }

  /**
   * The bounding volume of `root` and its children, computed with the
   * rotation of `root` temporarily reset to the identity.
   */
  method CalculateTransformBounds(root: Transform) returns (b: Bounds)
    modifies root
    ensures root.rotation == old(root.rotation)
    ensures b == TransformBounds(root)
  {
    var currentRotation := root.rotation;
    root.rotation := Identity;

    var minX, minY, minZ := FloatMax, FloatMax, FloatMax;
    var maxX, maxY, maxZ := -FloatMax, -FloatMax, -FloatMax;

    var own := root.rendererBounds(root.rotation);
    for i := 0 to |own|
      invariant Extremes(Vec3(minX, minY, minZ), Vec3(maxX, maxY, maxZ)) == Accumulate(Unset, own[..i])
    {
      assert own[..i + 1][..i] == own[..i];
      assert Accumulate(Unset, own[..i + 1]) == Include(Accumulate(Unset, own[..i]), own[i]);
      var bounds := own[i];
      minX := MinOf(Min(bounds).x, minX);
      minY := MinOf(Min(bounds).y, minY);
      minZ := MinOf(Min(bounds).z, minZ);

      maxX := MaxOf(Max(bounds).x, maxX);
      maxY := MaxOf(Max(bounds).y, maxY);
      maxZ := MaxOf(Max(bounds).z, maxZ);
    }
    assert own[..|own|] == own;
    ghost var afterOwn := Accumulate(Unset, own);

    var all := root.childRendererBounds(root.rotation);
    for i := 0 to |all|
      invariant Extremes(Vec3(minX, minY, minZ), Vec3(maxX, maxY, maxZ)) == Accumulate(afterOwn, all[..i])
    {
      assert all[..i + 1][..i] == all[..i];
      assert Accumulate(afterOwn, all[..i + 1]) == Include(Accumulate(afterOwn, all[..i]), all[i]);
      var bounds := all[i];
      minX := MinOf(Min(bounds).x, minX);
      minY := MinOf(Min(bounds).y, minY);
      minZ := MinOf(Min(bounds).z, minZ);

      maxX := MaxOf(Max(bounds).x, maxX);
      maxY := MaxOf(Max(bounds).y, maxY);
      maxZ := MaxOf(Max(bounds).z, maxZ);
    }
    assert all[..|all|] == all;

    root.rotation := currentRotation;

    var center := Vec3((minX + maxX) / 2.0, (minY + maxY) / 2.0, (minZ + maxZ) / 2.0);
    var size := Vec3(maxX - minX, maxY - minY, maxZ - minZ);
    b := Bounds(center, size);
  }

  /** `Bounds.Encapsulate(Vector3)`: the corners move out just enough to take in `p`. */
  function EncapsulatePoint(b: Bounds, p: Vec3): (r: Bounds)
    ensures Contains(r, p)
    ensures Below(Min(r), Min(b)) && Below(Max(b), Max(r))
  {
    FromMinMax(MinVec(Min(b), p), MaxVec(Max(b), p))
  }

  /**
   * `Bounds.Encapsulate(Bounds)`: the engine takes in the other box's min
   * corner and then its max corner, one point at a time; the corners of the
   * result are those two steps written out (EncapsulateTwoPoints).
   */
  function Encapsulate(b: Bounds, other: Bounds): (r: Bounds)
    ensures Encloses(r, b) && Encloses(r, other)
  {
    FromMinMax(MinVec(MinVec(Min(b), Min(other)), Max(other)), MaxVec(MaxVec(Max(b), Min(other)), Max(other)))
  }

  /** Encapsulate is the engine's two point steps, the min corner and then the max corner. */
  lemma EncapsulateTwoPoints(b: Bounds, other: Bounds)
    ensures Encapsulate(b, other) == EncapsulatePoint(EncapsulatePoint(b, Min(other)), Max(other))
  {
  }

  /**
   * For a box of non-negative size the two point steps give the box whose
   * corners are the per-axis minimums and maximums of both boxes' corners.
   */
  lemma EncapsulateCorners(b: Bounds, other: Bounds)
    requires Below(Zero, other.size)
    ensures Encapsulate(b, other) == FromMinMax(MinVec(Min(b), Min(other)), MaxVec(Max(b), Max(other)))
  {
    var first := EncapsulatePoint(b, Min(other));
    assert Below(Min(other), Max(other));
    assert Min(first) == MinVec(Min(b), Min(other));
    assert Max(first) == MaxVec(Max(b), Min(other));
  }

  /** Encapsulating `boxes` one after the other into `collector`. */
  function EncapsulateAll(collector: Bounds, boxes: seq<Bounds>): Bounds
    decreases |boxes|
  {
    if boxes == [] then collector
    else Encapsulate(EncapsulateAll(collector, boxes[..|boxes| - 1]), boxes[|boxes| - 1])
  }

  /** The bounds of each transform, in order. */
  function EachBounds(things: seq<Transform>): (r: seq<Bounds>)
    ensures |r| == |things|
    ensures forall i :: 0 <= i < |things| ==> r[i] == TransformBounds(things[i])
  {
    seq(|things|, i requires 0 <= i < |things| => TransformBounds(things[i]))
  }

  /**
   * The bounding volume of a collection: a zero-size box at the position of
   * the first element, grown to cover the bounds of every element. An empty
   * collection has no first element, which the engine reports by throwing;
   * here it yields `None`.
   */
  method CalculateBounds(things: seq<Transform>) returns (r: Option<Bounds>)
    modifies set t | t in things
    ensures forall t :: t in things ==> t.rotation == old(t.rotation)
    ensures things == [] ==> r == None
    ensures things != [] ==> r == Some(EncapsulateAll(Bounds(things[0].position, Zero), EachBounds(things)))
  {
    if things == [] {
      return None;
    }
    var first := things[0];
    var collector := Bounds(first.position, Zero);
    ghost var boxes := EachBounds(things);
    for i := 0 to |things|
      invariant forall t :: t in things ==> t.rotation == old(t.rotation)
      invariant collector == EncapsulateAll(Bounds(first.position, Zero), boxes[..i])
    {
      collector := EncapsulateNext(Bounds(first.position, Zero), things, i, collector);
    }
    assert boxes[..|things|] == boxes;
    r := Some(collector);
  }

  /** One pass of the collection loop: the bounds of the next element encapsulated into the collector. */
  method EncapsulateNext(start: Bounds, things: seq<Transform>, i: int, collector: Bounds) returns (c: Bounds)
    requires 0 <= i < |things|
    requires collector == EncapsulateAll(start, EachBounds(things)[..i])
    modifies things[i]
    ensures things[i].rotation == old(things[i].rotation)
    ensures c == EncapsulateAll(start, EachBounds(things)[..i + 1])
  {
    EncapsulateAllStep(start, EachBounds(things), i);
    var b := CalculateTransformBounds(things[i]);
    c := Encapsulate(collector, b);
  }

  /** One more box encapsulated into the collector. */
  lemma EncapsulateAllStep(collector: Bounds, boxes: seq<Bounds>, i: int)
    requires 0 <= i < |boxes|
    ensures EncapsulateAll(collector, boxes[..i + 1]) == Encapsulate(EncapsulateAll(collector, boxes[..i]), boxes[i])
  {
    assert boxes[..i + 1][..i] == boxes[..i];
  }

  // ---------------------------------------------------------------------
  // Properties of the fold
  // ---------------------------------------------------------------------

  /** The extremes only ever move outward: the result is below the start's minimums and above its maximums. */
  lemma {:induction false} AccumulateWidens(e: Extremes, boxes: seq<Bounds>)
    ensures Below(Accumulate(e, boxes).lo, e.lo)
    ensures Below(e.hi, Accumulate(e, boxes).hi)
    decreases |boxes|
  {
    if boxes != [] {
      AccumulateWidens(e, boxes[..|boxes| - 1]);
    }
  }

  /** Every visited box lies between the resulting minimums and maximums. */
  lemma {:induction false} AccumulateEncloses(e: Extremes, boxes: seq<Bounds>, i: int)
    requires 0 <= i < |boxes|
    ensures Below(Accumulate(e, boxes).lo, Min(boxes[i]))
    ensures Below(Max(boxes[i]), Accumulate(e, boxes).hi)
    decreases |boxes|
  {
    var n := |boxes| - 1;
    if i < n {
      AccumulateEncloses(e, boxes[..n], i);
    } else {
      AccumulateWidens(e, boxes[..n]);
    }
  }

  /**
   * The extremes are attained: each minimum (maximum) is either the starting
   * one or the corresponding corner coordinate of some visited box.
   */
  ghost predicate Attained(e: Extremes, boxes: seq<Bounds>, r: Extremes) {
    (r.lo.x == e.lo.x || exists i :: 0 <= i < |boxes| && r.lo.x == Min(boxes[i]).x) &&
    (r.lo.y == e.lo.y || exists i :: 0 <= i < |boxes| && r.lo.y == Min(boxes[i]).y) &&
    (r.lo.z == e.lo.z || exists i :: 0 <= i < |boxes| && r.lo.z == Min(boxes[i]).z) &&
    (r.hi.x == e.hi.x || exists i :: 0 <= i < |boxes| && r.hi.x == Max(boxes[i]).x) &&
    (r.hi.y == e.hi.y || exists i :: 0 <= i < |boxes| && r.hi.y == Max(boxes[i]).y) &&
    (r.hi.z == e.hi.z || exists i :: 0 <= i < |boxes| && r.hi.z == Max(boxes[i]).z)
  }

  lemma {:induction false} AccumulateAttained(e: Extremes, boxes: seq<Bounds>)
    ensures Attained(e, boxes, Accumulate(e, boxes))
    decreases |boxes|
  {
    if boxes != [] {
      var n := |boxes| - 1;
      var prefix := boxes[..n];
      AccumulateAttained(e, prefix);
      forall i | 0 <= i < n
        ensures boxes[i] == prefix[i]
      {
      }
    }
  }

  /** Visiting two lists in a row is visiting their concatenation. */
  lemma {:induction false} AccumulateAppend(e: Extremes, s: seq<Bounds>, t: seq<Bounds>)
    ensures Accumulate(e, s + t) == Accumulate(Accumulate(e, s), t)
    decreases |t|
  {
    if t == [] {
      assert s + t == s;
    } else {
      var n := |t| - 1;
      assert (s + t)[..|s + t| - 1] == s + t[..n];
      AccumulateAppend(e, s, t[..n]);
    }
  }

  /**
   * The starting values are neutral for boxes inside the float range: once a
   * box has been visited, every extreme is a corner coordinate of a visited box.
   */
  lemma UnsetIsNeutral(boxes: seq<Bounds>)
    requires boxes != []
    requires forall i :: 0 <= i < |boxes| ==> Below(Min(boxes[i]), Vec3(FloatMax, FloatMax, FloatMax))
    requires forall i :: 0 <= i < |boxes| ==> Below(Vec3(-FloatMax, -FloatMax, -FloatMax), Max(boxes[i]))
    ensures Attained(Extremes(Min(boxes[0]), Max(boxes[0])), boxes, Accumulate(Unset, boxes))
  {
    AccumulateAttained(Unset, boxes);
    AccumulateEncloses(Unset, boxes, 0);
  }

  /** The box built from the extremes has exactly those extremes as its corners. */
  lemma CenterAndSizeCorners(e: Extremes)
    ensures Min(CenterAndSize(e)) == e.lo
    ensures Max(CenterAndSize(e)) == e.hi
  {
  }

  /**
   * The bounds of a transform cover every renderer box of the node and of its
   * hierarchy, as seen with the node unrotated.
   */
  lemma TransformBoundsEncloses(root: Transform)
    ensures forall b :: b in root.rendererBounds(Identity) ==> Encloses(TransformBounds(root), b)
    ensures forall b :: b in root.childRendererBounds(Identity) ==> Encloses(TransformBounds(root), b)
  {
    var own := root.rendererBounds(Identity);
    var all := root.childRendererBounds(Identity);
    var afterOwn := Accumulate(Unset, own);
    var e := Accumulate(afterOwn, all);
    CenterAndSizeCorners(e);
    AccumulateWidens(afterOwn, all);
    forall b | b in own
      ensures Encloses(TransformBounds(root), b)
    {
      var i :| 0 <= i < |own| && own[i] == b;
      AccumulateEncloses(Unset, own, i);
    }
    forall b | b in all
      ensures Encloses(TransformBounds(root), b)
    {
      var i :| 0 <= i < |all| && all[i] == b;
      AccumulateEncloses(afterOwn, all, i);
    }
  }

  /** With at least one box of non-negative size, the computed size is non-negative. */
  lemma TransformBoundsSizeNonNegative(root: Transform, b: Bounds)
    requires b in root.rendererBounds(Identity) || b in root.childRendererBounds(Identity)
    requires Below(Zero, b.size)
    ensures Below(Zero, TransformBounds(root).size)
  {
    TransformBoundsEncloses(root);
  }

  /** The collector covers the starting box and every box encapsulated into it. */
  lemma {:induction false} EncapsulateAllEncloses(collector: Bounds, boxes: seq<Bounds>)
    ensures Encloses(EncapsulateAll(collector, boxes), collector)
    ensures forall i :: 0 <= i < |boxes| ==> Encloses(EncapsulateAll(collector, boxes), boxes[i])
    decreases |boxes|
  {
    if boxes != [] {
      var n := |boxes| - 1;
      EncapsulateAllEncloses(collector, boxes[..n]);
      var r := EncapsulateAll(collector, boxes);
      forall i | 0 <= i < n
        ensures Encloses(r, boxes[i])
      {
        assert boxes[i] == boxes[..n][i];
      }
    }
  }

  /**
   * The bounds of a non-empty collection contain the position of its first
   * element and cover the bounds of every element.
   */
  lemma CollectionBoundsEncloses(things: seq<Transform>)
    requires things != []
    ensures Contains(EncapsulateAll(Bounds(things[0].position, Zero), EachBounds(things)), things[0].position)
    ensures forall i :: 0 <= i < |things| ==>
      Encloses(EncapsulateAll(Bounds(things[0].position, Zero), EachBounds(things)), TransformBounds(things[i]))
  {
    EncapsulateAllEncloses(Bounds(things[0].position, Zero), EachBounds(things));
  }
}
