/** A ray is the parametric line `origin + t * direction`; the direction need
    not have unit length. */
module Rays {
  import opened Vectors

  datatype Ray = Ray(origin: Point3, direction: Vec3) {
    /** `point_at_parameter` */
    function At(t: real): Point3 {
      Add(origin, Mul(direction, t))
    }
  }

  /** The ray starts at its origin, and moving along it by `t` is an offset of
      `t` directions from the origin. */
  lemma AtIsOffsetFromOrigin(r: Ray, t: real)
    ensures r.At(0.0) == r.origin
    ensures Sub(r.At(t), r.origin) == Mul(r.direction, t)
  {
  }
}
