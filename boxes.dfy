/** Axis-aligned bounding boxes. The union of two boxes is the componentwise
    minimum and maximum of their corners; the ray/slab overlap test is not
    defined here and reaches the model as a function parameter `boxHit`. */
module Boxes {
  import opened Vectors
  import opened Rays

  datatype Aabb = Aabb(min: Vec3, max: Vec3)

  function Min(a: real, b: real): real { if a < b then a else b }

  function Max(a: real, b: real): real { if a > b then a else b }

  /** `Aabb::surrounding_box`: the smallest box holding both boxes. */
  function SurroundingBox(a: Aabb, b: Aabb): (r: Aabb)
    ensures Contains(r, a) && Contains(r, b)
    ensures forall outer :: Contains(outer, a) && Contains(outer, b) ==> Contains(outer, r)
  {
    Aabb(Vec3(Min(a.min.x, b.min.x), Min(a.min.y, b.min.y), Min(a.min.z, b.min.z)),
         Vec3(Max(a.max.x, b.max.x), Max(a.max.y, b.max.y), Max(a.max.z, b.max.z)))
  }

  /** The point lies in the closed box. */
  predicate InBox(b: Aabb, p: Vec3)
  {
    b.min.x <= p.x <= b.max.x && b.min.y <= p.y <= b.max.y && b.min.z <= p.z <= b.max.z
  }

  /** Every corner coordinate of `inner` lies within the matching slab of `outer`. */
  predicate Contains(outer: Aabb, inner: Aabb)
  {
    outer.min.x <= inner.min.x && outer.min.y <= inner.min.y && outer.min.z <= inner.min.z &&
    inner.max.x <= outer.max.x && inner.max.y <= outer.max.y && inner.max.z <= outer.max.z
  }

  /** What the slab test must at least get right for pruning to be sound: a ray
      that reaches a point of the box strictly inside the parameter range
      overlaps the box. */
  ghost predicate SlabSound(boxHit: (Aabb, Ray, real, real) -> bool)
  {
    forall b: Aabb, ray: Ray, tMin: real, tMax: real, t: real
      {:trigger boxHit(b, ray, tMin, tMax), PointAt(ray, t)} ::
      tMin < t < tMax && InBox(b, PointAt(ray, t)) ==> boxHit(b, ray, tMin, tMax)
  }

  lemma ContainsInBox(outer: Aabb, inner: Aabb, p: Vec3)
    requires Contains(outer, inner) && InBox(inner, p)
    ensures InBox(outer, p)
  {
  }

  lemma ContainsTransitive(a: Aabb, b: Aabb, c: Aabb)
    requires Contains(a, b) && Contains(b, c)
    ensures Contains(a, c)
  {
  }

  lemma SurroundingBoxAssociative(a: Aabb, b: Aabb, c: Aabb)
    ensures SurroundingBox(SurroundingBox(a, b), c) == SurroundingBox(a, SurroundingBox(b, c))
  {
  }
}
