/** The sphere primitive: its ray intersection and its bounding box
    (src/hitable.rs, `impl Hitable for Sphere`). The intersection solves
    a t^2 + 2 b t + c = 0 for the ray parameter with the half-b form of the
    quadratic formula; the square root is a parameter. */
module Spheres {
  import opened Vectors
  import opened Rays
  import opened Boxes

  datatype Sphere = Sphere(center: Vec3, radius: real, material: Material)

  /** The point lies on the sphere's surface. */
  predicate OnSurface(s: Sphere, p: Vec3)
  {
    SquareLength(Sub(p, s.center)) == s.radius * s.radius
  }

  function Oc(s: Sphere, ray: Ray): Vec3 { Sub(ray.origin, s.center) }

  function QuadA(ray: Ray): real { SquareLength(ray.direction) }

  function QuadB(s: Sphere, ray: Ray): real { Dot(Oc(s, ray), ray.direction) }

  function QuadC(s: Sphere, ray: Ray): real { SquareLength(Oc(s, ray)) - s.radius * s.radius }

  function Discriminant(s: Sphere, ray: Ray): real
  {
    QuadB(s, ray) * QuadB(s, ray) - QuadA(ray) * QuadC(s, ray)
  }

  /** A positive discriminant makes both divisions of the intersection safe:
      the ray direction is not zero and the radius is not zero. */
  lemma DiscriminantPositive(s: Sphere, ray: Ray)
    requires Discriminant(s, ray) > 0.0
    ensures QuadA(ray) > 0.0 && s.radius != 0.0
  {
    var a, b, r := QuadA(ray), QuadB(s, ray), s.radius;
    CauchySchwarz(Oc(s, ray), ray.direction);
    SquareLengthNonNegative(ray.direction);
    assert Discriminant(s, ray) == b * b - a * SquareLength(Oc(s, ray)) + a * (r * r);
    assert a * (r * r) > 0.0;
    ProductPositive(a, r * r);
  }

  lemma ProductPositive(a: real, b: real)
    requires a >= 0.0 && a * b > 0.0
    ensures a > 0.0 && b != 0.0
  {
  }

  /** The hit record for parameter `t`: the point on the ray, the outward unit
      normal (p - center) / radius and the sphere's material. */
  function HitAt(s: Sphere, ray: Ray, t: real): (r: HitRecord)
    requires s.radius != 0.0
    ensures r.t == t && r.p == PointAt(ray, t) && r.material == s.material
    ensures Scale(r.normal, s.radius) == Sub(r.p, s.center)
  {
    var p := PointAt(ray, t);
    DivScale(Sub(p, s.center), s.radius);
    HitRecord(t, p, Div(Sub(p, s.center), s.radius), s.material)
  }

  /** The nearer root (-b - sqrt(disc)) / a when it lies strictly inside
      (tMin, tMax), else the farther root (-b + sqrt(disc)) / a when it does,
      else no hit; no hit at all unless the discriminant is positive. */
  function SphereHit(s: Sphere, ray: Ray, tMin: real, tMax: real, sqrt: real -> real): (r: Option<HitRecord>)
    ensures r.Some? ==> tMin < r.value.t < tMax && s.radius != 0.0 && r.value == HitAt(s, ray, r.value.t)
    ensures Discriminant(s, ray) <= 0.0 ==> r == None
  {
    var a, b, disc := QuadA(ray), QuadB(s, ray), Discriminant(s, ray);
    if disc > 0.0 then
      DiscriminantPositive(s, ray);
      var near := (-b - sqrt(disc)) / a;
      var far := (-b + sqrt(disc)) / a;
      if near < tMax && near > tMin then Some(HitAt(s, ray, near))
      else if far < tMax && far > tMin then Some(HitAt(s, ray, far))
      else None
    else
      None
  }

  /** `Sphere::bounding_box`: center -/+ (r, r, r). */
  function SphereBox(s: Sphere): (b: Aabb)
    ensures s.radius >= 0.0 ==> forall p :: OnSurface(s, p) ==> InBox(b, p)
  {
    var radial := Vec3(s.radius, s.radius, s.radius);
    var b := Aabb(Sub(s.center, radial), Add(s.center, radial));
    assert s.radius >= 0.0 ==> forall p :: OnSurface(s, p) ==> InBox(b, p) by {
      if s.radius >= 0.0 {
        forall p | OnSurface(s, p)
          ensures InBox(b, p)
        {
          SurfaceInBox(s, p);
        }
      }
    }
    b
  }

  lemma SurfaceInBox(s: Sphere, p: Vec3)
    requires s.radius >= 0.0 && OnSurface(s, p)
    ensures s.center.x - s.radius <= p.x <= s.center.x + s.radius
    ensures s.center.y - s.radius <= p.y <= s.center.y + s.radius
    ensures s.center.z - s.radius <= p.z <= s.center.z + s.radius
  {
    var d := Sub(p, s.center);
    ComponentSquares(d);
    SquareBound(d.x, s.radius);
    SquareBound(d.y, s.radius);
    SquareBound(d.z, s.radius);
  }

  lemma ComponentSquares(v: Vec3)
    ensures v.x * v.x <= SquareLength(v) && v.y * v.y <= SquareLength(v) && v.z * v.z <= SquareLength(v)
  {
    SquareNonNegative(v.x);
    SquareNonNegative(v.y);
    SquareNonNegative(v.z);
  }

  lemma SquareNonNegative(x: real)
    ensures x * x >= 0.0
  {
  }

  /** For a ray with a non-zero direction, the point at `t` is on the surface
      exactly when (a t + b)^2 equals the discriminant. */
  lemma OnSurfaceIff(s: Sphere, ray: Ray, t: real)
    requires QuadA(ray) != 0.0
    ensures OnSurface(s, PointAt(ray, t)) <==>
      (QuadA(ray) * t + QuadB(s, ray)) * (QuadA(ray) * t + QuadB(s, ray)) == Discriminant(s, ray)
  {
    SurfaceExpansion(s, ray, t);
    ScalarIff(QuadA(ray), QuadB(s, ray), QuadC(s, ray), SquareLength(Oc(s, ray)), s.radius * s.radius, t,
              SquareLength(Sub(PointAt(ray, t), s.center)));
  }

  lemma SurfaceExpansion(s: Sphere, ray: Ray, t: real)
    ensures SquareLength(Sub(PointAt(ray, t), s.center))
         == SquareLength(Oc(s, ray)) + 2.0 * t * QuadB(s, ray) + t * t * QuadA(ray)
  {
    var o, d := Oc(s, ray), ray.direction;
    assert Sub(PointAt(ray, t), s.center) == Add(o, Scale(d, t));
    ExpandSquare(o, d, t);
  }

  /** |o + t d|^2 expands to |o|^2 + 2 t (o . d) + t^2 |d|^2. */
  lemma ExpandSquare(o: Vec3, d: Vec3, t: real)
    ensures SquareLength(Add(o, Scale(d, t))) == SquareLength(o) + 2.0 * t * Dot(o, d) + t * t * SquareLength(d)
  {
  }

  /** With g = |P(t) - center|^2 expanded in t: a (g - r^2) == (a t + b)^2 - disc,
      so for a != 0 the point is on the surface exactly when (a t + b)^2 == disc. */
  lemma ScalarIff(a: real, b: real, c: real, o2: real, rr: real, t: real, g: real)
    requires a != 0.0 && g == o2 + 2.0 * t * b + t * t * a && c == o2 - rr
    ensures g == rr <==> (a * t + b) * (a * t + b) == b * b - a * c
  {
    assert a * (g - rr) == (a * t + b) * (a * t + b) - (b * b - a * c);
    if g != rr {
      assert a * (g - rr) != 0.0;
    }
  }

  lemma DivCancel(a: real, b: real, x: real)
    requires a != 0.0
    ensures a * ((x - b) / a) + b == x
  {
  }

  lemma SquareRoots(u: real, sq: real)
    requires u * u == sq * sq
    ensures u == sq || u == -sq
  {
    assert (u - sq) * (u + sq) == u * u - sq * sq;
    ZeroFactor(u - sq, u + sq);
  }

  lemma DivMonotone(x: real, y: real, a: real)
    requires x <= y && a > 0.0
    ensures x / a <= y / a
  {
  }

  lemma Solve(a: real, b: real, t: real, u: real)
    requires a != 0.0 && a * t + b == u
    ensures t == (u - b) / a
  {
  }

  lemma NegSquare(x: real)
    ensures (-x) * (-x) == x * x
  {
  }

  /** Every root the intersection reports lies on the surface, and its normal
      has unit length. */
  lemma SphereHitOnSurface(s: Sphere, ray: Ray, tMin: real, tMax: real, sqrt: real -> real)
    requires IsSqrt(sqrt)
    ensures var r := SphereHit(s, ray, tMin, tMax, sqrt);
      r.Some? ==> OnSurface(s, r.value.p) && SquareLength(r.value.normal) == 1.0
  {
    var r := SphereHit(s, ray, tMin, tMax, sqrt);
    if r.Some? {
      var a, b, disc := QuadA(ray), QuadB(s, ray), Discriminant(s, ray);
      DiscriminantPositive(s, ray);
      var sq := sqrt(disc);
      assert sq * sq == disc;
      var t := r.value.t;
      if t == (-sq - b) / a {
        DivCancel(a, b, -sq);
        NegSquare(sq);
      } else {
        assert t == (sq - b) / a;
        DivCancel(a, b, sq);
      }
      OnSurfaceIff(s, ray, t);
      UnitNormal(Sub(r.value.p, s.center), s.radius);
    }
  }

  /** The reported normal's component along p - center is the radius: it
      points away from the center exactly when the radius is positive (a
      negative radius turns a sphere inside out). */
  lemma SphereNormalOrientation(s: Sphere, ray: Ray, tMin: real, tMax: real, sqrt: real -> real)
    requires IsSqrt(sqrt)
    ensures var r := SphereHit(s, ray, tMin, tMax, sqrt);
      r.Some? ==> Dot(r.value.normal, Sub(r.value.p, s.center)) == s.radius
  {
    var r := SphereHit(s, ray, tMin, tMax, sqrt);
    if r.Some? {
      SphereHitOnSurface(s, ray, tMin, tMax, sqrt);
      NormalAlongRadius(Sub(r.value.p, s.center), s.radius);
    }
  }

  /** (d / k) . d == k when |d|^2 == k^2. */
  lemma NormalAlongRadius(d: Vec3, k: real)
    requires k != 0.0 && SquareLength(d) == k * k
    ensures Dot(Div(d, k), d) == k
  {
    assert Dot(Div(d, k), d) == SquareLength(d) / k;
  }

  /** When the discriminant is positive, every point of the surface that the
      ray reaches strictly inside (tMin, tMax) is found, and the reported hit
      is no farther than it. */
  lemma SphereHitNearest(s: Sphere, ray: Ray, tMin: real, tMax: real, sqrt: real -> real, t: real)
    requires IsSqrt(sqrt) && Discriminant(s, ray) > 0.0
    requires tMin < t < tMax && OnSurface(s, PointAt(ray, t))
    ensures SphereHit(s, ray, tMin, tMax, sqrt).Some?
    ensures SphereHit(s, ray, tMin, tMax, sqrt).value.t <= t
  {
    var a, b, disc := QuadA(ray), QuadB(s, ray), Discriminant(s, ray);
    DiscriminantPositive(s, ray);
    var sq := sqrt(disc);
    assert sq >= 0.0 && sq * sq == disc;
    OnSurfaceIff(s, ray, t);
    var u := a * t + b;
    assert u * u == disc;
    SquareRoots(u, sq);
    Solve(a, b, t, u);
    DivMonotone(-b - sq, -b + sq, a);
  }

  /** A negative discriminant means the ray's line misses the sphere. */
  lemma NegativeDiscriminantMisses(s: Sphere, ray: Ray, t: real)
    requires Discriminant(s, ray) < 0.0
    ensures !OnSurface(s, PointAt(ray, t))
  {
    var a, b := QuadA(ray), QuadB(s, ray);
    SquareNonNegative(b);
    if a != 0.0 {
      OnSurfaceIff(s, ray, t);
      SquareNonNegative(a * t + b);
    }
  }
}
