/** Rays, materials and hit records: the values that flow between the
    primitives, the tree and the integrator. */
module Rays {
  import opened Vectors

  datatype Option<+T> = None | Some(value: T)

  datatype Ray = Ray(origin: Vec3, direction: Vec3)

  /** `ray.point_at_parameter(t)`: origin + t * direction. */
  function PointAt(ray: Ray, t: real): Vec3
  {
    Add(ray.origin, Scale(ray.direction, t))
  }

  /** A strictly positive refraction index. */
  type PositiveReal = n: real | n > 0.0 witness 1.5

  /** The three scattering models a primitive can own. */
  datatype Material =
    | Lambertian(albedo: Vec3)
    | Metal(albedo: Vec3)
    | Dielectric(refractionIndex: PositiveReal)

  /** The result of one intersection query: the ray parameter, the point, the
      surface normal there and the material of the primitive that was hit. */
  datatype HitRecord = HitRecord(t: real, p: Vec3, normal: Vec3, material: Material)
}
