/** The three scattering models (src/material.rs). Each takes the incoming
    ray, the hit record and the random source and tells whether the ray
    scatters, with what attenuation and along which ray. The vector helpers
    the file imports (reflect, refract, random_in_unit_sphere, normalisation
    and the square root behind `length`) are passed in as `Collaborators`. */
module Materials {
  import opened Vectors
  import opened Rays

  /** The helpers material.rs calls but does not define, and the random
      source as a state value with its two draws. */
  datatype Collaborators<!R> = Collaborators(
    gen: R -> (real, R),
    inUnitSphere: R -> (Vec3, R),
    normalise: Vec3 -> Vec3,
    reflect: (Vec3, Vec3) -> Vec3,
    refract: (Vec3, Vec3, real) -> Option<Vec3>,
    sqrt: real -> real)

  /** What `scatter` returns and writes through its out-parameters, and the
      random state afterwards. */
  datatype ScatterRecord<R> = ScatterRecord(scatters: bool, attenuation: Vec3, scattered: Ray, next: R)

  /** `Lambertian::scatter`: towards p + normal + a random point of the unit
      ball, always scattering with the albedo. */
  function LambertianScatter<R>(albedo: Vec3, rec: HitRecord, rnd: R, c: Collaborators<R>): (s: ScatterRecord<R>)
    ensures s.scatters && s.attenuation == albedo && s.scattered.origin == rec.p
    ensures s.scattered.direction == Add(rec.normal, c.inUnitSphere(rnd).0)
    ensures s.next == c.inUnitSphere(rnd).1
  {
    var drawn := c.inUnitSphere(rnd);
    var target := Add(Add(rec.p, rec.normal), drawn.0);
    ScatterRecord(true, albedo, Ray(rec.p, Sub(target, rec.p)), drawn.1)
  }

  /** `Metal::scatter`: the mirror image of the normalised incoming direction,
      scattering only when it leaves on the normal's side. No draw is made. */
  function MetalScatter<R>(albedo: Vec3, ray: Ray, rec: HitRecord, rnd: R, c: Collaborators<R>): (s: ScatterRecord<R>)
    ensures s.scatters <==> Dot(s.scattered.direction, rec.normal) > 0.0
    ensures s.scattered == Ray(rec.p, c.reflect(c.normalise(ray.direction), rec.normal))
    ensures s.attenuation == albedo && s.next == rnd
  {
    var reflected := c.reflect(c.normalise(ray.direction), rec.normal);
    ScatterRecord(Dot(reflected, rec.normal) > 0.0, albedo, Ray(rec.p, reflected), rnd)
  }

  /** ((1 - n) / (1 + n))^2: the reflectance at normal incidence. */
  function NormalReflectance(n: PositiveReal): (r: real)
    ensures 0.0 <= r < 1.0
  {
    var r0 := (1.0 - n) / (1.0 + n);
    RatioBounds(n, r0);
    SquareBelowOne(r0);
    r0 * r0
  }

  /** `f32::powi` for a non-negative exponent. */
  function Powi(x: real, k: nat): real
  {
    if k == 0 then 1.0 else x * Powi(x, k - 1)
  }

  /** `schlick`: Schlick's approximation of the reflectance at `cosine`. For
      a cosine in [0, 1] it is a probability no smaller than the normal
      reflectance. */
  function Schlick(cosine: real, n: PositiveReal): (r: real)
    ensures 0.0 <= cosine <= 1.0 ==> NormalReflectance(n) <= r <= 1.0
  {
    var r0 := NormalReflectance(n);
    var p := Powi(1.0 - cosine, 5);
    assert 0.0 <= cosine <= 1.0 ==> r0 <= r0 + (1.0 - r0) * p <= 1.0 by {
      if 0.0 <= cosine <= 1.0 {
        PowiUnit(1.0 - cosine, 5);
        Interpolate(r0, p);
      }
    }
    r0 + (1.0 - r0) * p
  }

  /** The direction-dependent choices of `Dielectric::scatter`: the normal to
      refract about, the ratio of indices, and the cosine, which is `None`
      where the source divides 0 by a zero length (a NaN). */
  datatype Geometry = Geometry(outwardNormal: Vec3, niOverNt: real, cosine: Option<real>)

  function DielectricGeometry(n: PositiveReal, ray: Ray, rec: HitRecord, sqrt: real -> real): (g: Geometry)
    ensures Dot(ray.direction, rec.normal) > 0.0 ==>
      g.outwardNormal == Scale(rec.normal, -1.0) && g.niOverNt == n as real
    ensures Dot(ray.direction, rec.normal) <= 0.0 ==>
      g.outwardNormal == rec.normal && g.niOverNt == 1.0 / n
    ensures g.cosine.Some? <==> sqrt(SquareLength(ray.direction)) != 0.0
  {
    var incidentDotNormal := Dot(ray.direction, rec.normal);
    var length := sqrt(SquareLength(ray.direction));
    if incidentDotNormal > 0.0 then
      Geometry(Scale(rec.normal, -1.0), n,
               if length != 0.0 then Some(n * incidentDotNormal / length) else None)
    else
      Geometry(rec.normal, 1.0 / n,
               if length != 0.0 then Some(-incidentDotNormal / length) else None)
  }

  /** The refracted direction the dielectric asks for, if any. */
  function Refracted<R>(n: PositiveReal, ray: Ray, rec: HitRecord, c: Collaborators<R>): Option<Vec3>
  {
    var g := DielectricGeometry(n, ray, rec, c.sqrt);
    c.refract(ray.direction, g.outwardNormal, g.niOverNt)
  }

  /** The draw selects reflection: it is below Schlick's reflectance, the
      cosine being a number. */
  predicate DrawReflects(n: PositiveReal, ray: Ray, rec: HitRecord, sqrt: real -> real, draw: real)
  {
    var g := DielectricGeometry(n, ray, rec, sqrt);
    g.cosine.Some? && draw < Schlick(g.cosine.value, n)
  }

  /** `Dielectric::scatter`: always scatters, with no attenuation, from the
      hit point. Without a refracted direction it reflects the (unnormalised)
      incoming direction and makes no draw; with one it draws once and
      reflects exactly when the draw selects reflection. */
  function DielectricScatter<R>(n: PositiveReal, ray: Ray, rec: HitRecord, rnd: R, c: Collaborators<R>): (s: ScatterRecord<R>)
    ensures s.scatters && s.attenuation == Ones && s.scattered.origin == rec.p
    ensures Refracted(n, ray, rec, c) == None ==>
      s.scattered.direction == c.reflect(ray.direction, rec.normal) && s.next == rnd
    ensures Refracted(n, ray, rec, c).Some? ==> s.next == c.gen(rnd).1
    ensures Refracted(n, ray, rec, c).Some? && DrawReflects(n, ray, rec, c.sqrt, c.gen(rnd).0) ==>
      s.scattered.direction == c.reflect(ray.direction, rec.normal)
    ensures Refracted(n, ray, rec, c).Some? && !DrawReflects(n, ray, rec, c.sqrt, c.gen(rnd).0) ==>
      s.scattered.direction == Refracted(n, ray, rec, c).value
  {
    var reflected := c.reflect(ray.direction, rec.normal);
    var g := DielectricGeometry(n, ray, rec, c.sqrt);
    match c.refract(ray.direction, g.outwardNormal, g.niOverNt)
    case None => ScatterRecord(true, Ones, Ray(rec.p, reflected), rnd)
    case Some(refracted) =>
      var draw := c.gen(rnd);
      var direction := if g.cosine.Some? && draw.0 < Schlick(g.cosine.value, n) then reflected else refracted;
      ScatterRecord(true, Ones, Ray(rec.p, direction), draw.1)
  }

  /** `Material::scatter`, dispatched on the material of the hit. */
  function Scatter<R>(m: Material, ray: Ray, rec: HitRecord, rnd: R, c: Collaborators<R>): (s: ScatterRecord<R>)
    ensures m.Lambertian? ==> s == LambertianScatter(m.albedo, rec, rnd, c)
    ensures m.Metal? ==> s == MetalScatter(m.albedo, ray, rec, rnd, c)
    ensures m.Dielectric? ==> s == DielectricScatter(m.refractionIndex, ray, rec, rnd, c)
    ensures !m.Metal? ==> s.scatters
  {
    match m
    case Lambertian(albedo) => LambertianScatter(albedo, rec, rnd, c)
    case Metal(albedo) => MetalScatter(albedo, ray, rec, rnd, c)
    case Dielectric(index) => DielectricScatter(index, ray, rec, rnd, c)
  }

  lemma RatioBounds(n: real, q: real)
    requires n > 0.0 && q == (1.0 - n) / (1.0 + n)
    ensures -1.0 < q < 1.0
  {
  }

  lemma SquareBelowOne(x: real)
    requires -1.0 < x < 1.0
    ensures 0.0 <= x * x < 1.0
  {
  }

  lemma {:induction false} PowiUnit(x: real, k: nat)
    requires 0.0 <= x <= 1.0
    ensures 0.0 <= Powi(x, k) <= 1.0
  {
    if k > 0 {
      PowiUnit(x, k - 1);
      UnitProduct(x, Powi(x, k - 1));
    }
  }

  lemma Interpolate(a: real, p: real)
    requires 0.0 <= a <= 1.0 && 0.0 <= p <= 1.0
    ensures a <= a + (1.0 - a) * p <= 1.0
  {
    MulNonNegative(1.0 - a, p);
  }

  /** At normal incidence Schlick's value is the normal reflectance. */
  lemma SchlickAtNormalIncidence(n: PositiveReal)
    ensures Schlick(1.0, n) == NormalReflectance(n)
  {
    assert Powi(0.0, 5) == 0.0 * Powi(0.0, 4);
  }

  /** For the glass of the scene (index 1.5) that is 0.04. */
  lemma SchlickOfGlass()
    ensures Schlick(1.0, 1.5) == 0.04
  {
    SchlickAtNormalIncidence(1.5);
  }

  /** The mirror reflection v - 2 (v . n) n, the formula `reflect` is meant
      to compute. */
  function MirrorReflect(v: Vec3, n: Vec3): Vec3
  {
    Sub(v, Scale(n, 2.0 * Dot(v, n)))
  }

  ghost predicate IsMirror(reflect: (Vec3, Vec3) -> Vec3)
  {
    forall v, n :: reflect(v, n) == MirrorReflect(v, n)
  }

  lemma DotSubScale(v: Vec3, n: Vec3, k: real)
    ensures Dot(Sub(v, Scale(n, k)), n) == Dot(v, n) - k * SquareLength(n)
  {
  }

  lemma MulOne(k: real, m: real)
    requires m == 1.0
    ensures k * m == k
  {
  }

  /** About a unit normal the mirror image has the opposite normal component. */
  lemma MirrorFlipsNormalComponent(v: Vec3, n: Vec3)
    requires SquareLength(n) == 1.0
    ensures Dot(MirrorReflect(v, n), n) == -Dot(v, n)
  {
    var k := 2.0 * Dot(v, n);
    DotSubScale(v, n, k);
    MulOne(k, SquareLength(n));
  }

  /** With the mirror formula and a unit normal, a metal scatters exactly when
      the ray arrives against the normal. */
  lemma MetalScattersIffIncoming<R>(albedo: Vec3, ray: Ray, rec: HitRecord, rnd: R, c: Collaborators<R>)
    requires IsMirror(c.reflect) && SquareLength(rec.normal) == 1.0
    ensures MetalScatter(albedo, ray, rec, rnd, c).scatters <==> Dot(c.normalise(ray.direction), rec.normal) < 0.0
  {
    MirrorFlipsNormalComponent(c.normalise(ray.direction), rec.normal);
  }

  lemma QuotientInUnit(x: real, l: real)
    requires 0.0 <= x <= l && l > 0.0
    ensures 0.0 <= x / l <= 1.0
  {
  }

  /** A ray entering a dielectric (against a unit normal, with a direction
      of positive length) has a cosine in [0, 1], so the reflection probability lies
      between the normal reflectance and 1. */
  lemma EnteringReflectanceIsProbability(n: PositiveReal, ray: Ray, rec: HitRecord, sqrt: real -> real)
    requires IsSqrt(sqrt) && SquareLength(rec.normal) == 1.0
    requires Dot(ray.direction, rec.normal) <= 0.0 && SquareLength(ray.direction) > 0.0
    ensures var g := DielectricGeometry(n, ray, rec, sqrt);
      g.cosine.Some? && 0.0 <= g.cosine.value <= 1.0 &&
      NormalReflectance(n) <= Schlick(g.cosine.value, n) <= 1.0
  {
    var d := ray.direction;
    var idn := Dot(d, rec.normal);
    var sl := SquareLength(d);
    var len := sqrt(sl);
    assert len >= 0.0 && len * len == sl;
    LengthPositive(sl, len);
    CauchySchwarz(d, rec.normal);
    MulOne(sl, SquareLength(rec.normal));
    SquareBound(idn, len);
    QuotientInUnit(-idn, len);
  }

  lemma LengthPositive(sl: real, len: real)
    requires sl > 0.0 && len >= 0.0 && len * len == sl
    ensures len > 0.0
  {
    ZeroSquare(len);
  }
}
