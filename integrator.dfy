/** The path-tracing integrator `colour` (src/main.rs): follow a ray through
    the hierarchy, return the sky colour on a miss, and otherwise scatter off
    the material hit and multiply its attenuation into the colour seen along
    the scattered ray, for at most 20 levels. The random state is threaded
    through and returned. */
module Integrator {
  import opened Vectors
  import opened Rays
  import opened Boxes
  import opened Spheres
  import opened BvhQuery
  import opened BvhBuild
  import opened Materials

  /** The depth from which no more scattering is attempted. */
  const MaxDepth: int := 20

  /** The parameter range of the world query: 0.001 to `MAX_THING` = 1e10. */
  const TMin: real := 0.001
  const MaxThing: real := 10000000000.0

  /** The sky: white blended towards light blue with the height of the
      normalised direction. */
  function Sky(unit: Vec3): (c: Vec3)
    ensures -1.0 <= unit.y <= 1.0 ==> InUnitCube(c) && c.z == 1.0
  {
    var t := 0.5 * (unit.y + 1.0);
    Add(Scale(Ones, 1.0 - t), Scale(Vec3(0.5, 0.7, 1.0), t))
  }

  /** `colour(ray, world, rnd, depth)`, returning the colour and the random
      state afterwards. */
  function Colour<R>(ray: Ray, world: BvhTree, rnd: R, depth: int, c: Collaborators<R>,
                     boxHit: (Aabb, Ray, real, real) -> bool): (r: (Vec3, R))
    ensures depth >= MaxDepth ==> r.1 == rnd
    decreases if depth < MaxDepth then MaxDepth - depth else 0
  {
    match Hit(world.root, ray, TMin, MaxThing, c.sqrt, boxHit)
    case None => (Sky(c.normalise(ray.direction)), rnd)
    case Some(rec) =>
      if depth < MaxDepth then
        var s := Scatter(rec.material, ray, rec, rnd, c);
        if s.scatters then
          var seen := Colour(s.scattered, world, s.next, depth + 1, c, boxHit);
          (Mul(s.attenuation, seen.0), seen.1)
        else
          (Zero, s.next)
      else
        (Zero, rnd)
  }

  /** Every Lambertian and metal primitive has an albedo in the unit cube. */
  predicate AlbedosInUnitCube(ps: seq<Sphere>)
  {
    forall i :: 0 <= i < |ps| ==> (ps[i].material.Dielectric? || InUnitCube(ps[i].material.albedo))
  }

  /** The normaliser never yields a height outside [-1, 1]. */
  ghost predicate HeightBounded(normalise: Vec3 -> Vec3)
  {
    forall v :: -1.0 <= normalise(v).y <= 1.0
  }

  /** Attenuation never amplifies: with albedos in the unit cube, every
      colour the integrator returns has its components in [0, 1]. */
  lemma {:induction false} ColourInUnitCube<R>(ray: Ray, world: BvhTree, rnd: R, depth: int, c: Collaborators<R>,
                                               boxHit: (Aabb, Ray, real, real) -> bool)
    requires AlbedosInUnitCube(Leaves(world.root)) && HeightBounded(c.normalise)
    ensures InUnitCube(Colour(ray, world, rnd, depth, c, boxHit).0)
    decreases if depth < MaxDepth then MaxDepth - depth else 0
  {
    var h := Hit(world.root, ray, TMin, MaxThing, c.sqrt, boxHit);
    SkyHeight(c.normalise, ray.direction);
    if h.Some? && depth < MaxDepth {
      var s := Scatter(h.value.material, ray, h.value, rnd, c);
      if s.scatters {
        HitMaterialBounded(world, ray, c, boxHit);
        ColourInUnitCube(s.scattered, world, s.next, depth + 1, c, boxHit);
        AttenuatedInUnitCube(h.value.material, ray, h.value, rnd, c, Colour(s.scattered, world, s.next, depth + 1, c, boxHit).0);
      }
    }
  }

  lemma SkyHeight(normalise: Vec3 -> Vec3, d: Vec3)
    requires HeightBounded(normalise)
    ensures InUnitCube(Sky(normalise(d)))
  {
  }

  /** The material of whatever the world query reports has its albedo in the
      unit cube. */
  lemma HitMaterialBounded<R>(world: BvhTree, ray: Ray, c: Collaborators<R>, boxHit: (Aabb, Ray, real, real) -> bool)
    requires AlbedosInUnitCube(Leaves(world.root))
    ensures var h := Hit(world.root, ray, TMin, MaxThing, c.sqrt, boxHit);
      h.Some? ==> h.value.material.Dielectric? || InUnitCube(h.value.material.albedo)
  {
    var h := Hit(world.root, ray, TMin, MaxThing, c.sqrt, boxHit);
    if h.Some? {
      var i := HitFromLeaf(world.root, ray, TMin, MaxThing, c.sqrt, boxHit);
      assert h.value.material == Leaves(world.root)[i].material;
    }
  }

  /** Scattering attenuates by the albedo, or not at all for glass, so an
      attenuated colour from the unit cube stays in it. */
  lemma AttenuatedInUnitCube<R>(m: Material, ray: Ray, rec: HitRecord, rnd: R, c: Collaborators<R>, seen: Vec3)
    requires m.Dielectric? || InUnitCube(m.albedo)
    requires InUnitCube(seen)
    ensures InUnitCube(Mul(Scatter(m, ray, rec, rnd, c).attenuation, seen))
  {
    MulInUnitCube(Scatter(m, ray, rec, rnd, c).attenuation, seen);
  }

  /** The number of scatter events along the path the integrator follows. */
  function Bounces<R>(ray: Ray, world: BvhTree, rnd: R, depth: int, c: Collaborators<R>,
                      boxHit: (Aabb, Ray, real, real) -> bool): nat
    decreases if depth < MaxDepth then MaxDepth - depth else 0
  {
    match Hit(world.root, ray, TMin, MaxThing, c.sqrt, boxHit)
    case None => 0
    case Some(rec) =>
      if depth < MaxDepth then
        var s := Scatter(rec.material, ray, rec, rnd, c);
        if s.scatters then 1 + Bounces(s.scattered, world, s.next, depth + 1, c, boxHit) else 0
      else 0
  }

  /** Starting at `depth`, at most 20 - depth rays are scattered: 19 for the
      renderer's starting depth of 1. */
  lemma {:induction false} BouncesBounded<R>(ray: Ray, world: BvhTree, rnd: R, depth: int, c: Collaborators<R>,
                                             boxHit: (Aabb, Ray, real, real) -> bool)
    ensures Bounces(ray, world, rnd, depth, c, boxHit) <= if depth < MaxDepth then MaxDepth - depth else 0
    decreases if depth < MaxDepth then MaxDepth - depth else 0
  {
    var h := Hit(world.root, ray, TMin, MaxThing, c.sqrt, boxHit);
    if h.Some? && depth < MaxDepth {
      var s := Scatter(h.value.material, ray, h.value, rnd, c);
      if s.scatters {
        BouncesBounded(s.scattered, world, s.next, depth + 1, c, boxHit);
      }
    }
  }

  /** A path with no scatter event shows the sky (a miss) or black
      (absorbed, or the depth cap reached). */
  lemma NoBounceIsSkyOrBlack<R>(ray: Ray, world: BvhTree, rnd: R, depth: int, c: Collaborators<R>,
                                boxHit: (Aabb, Ray, real, real) -> bool)
    requires Bounces(ray, world, rnd, depth, c, boxHit) == 0
    ensures var col := Colour(ray, world, rnd, depth, c, boxHit).0;
      col == Sky(c.normalise(ray.direction)) || col == Zero
  {
  }
}
