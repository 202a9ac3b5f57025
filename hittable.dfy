/** The record of a ray-surface intersection and the orientation rule for its
    normal. */
module Hittable {
  import opened Options
  import opened Vectors
  import opened Rays
  import opened Materials

  datatype HitRecord = HitRecord(t: real, p: Point3, normal: Vec3, material: Material, frontFace: bool)

  /** `set_face_normal`: records whether the ray hit the outward side and
      stores the normal turned to face against the ray. */
  function SetFaceNormal(rec: HitRecord, r: Ray, outwardNormal: Vec3): (res: HitRecord)
    ensures res.frontFace <==> Dot(r.direction, outwardNormal) < 0.0
    ensures res.normal == if res.frontFace then outwardNormal else Neg(outwardNormal)
    ensures Dot(r.direction, res.normal) <= 0.0
    ensures SquaredLength(res.normal) == SquaredLength(outwardNormal)
    ensures res.t == rec.t && res.p == rec.p && res.material == rec.material
  {
    var frontFace := Dot(r.direction, outwardNormal) < 0.0;
    DotSymmetric(r.direction, outwardNormal);
    DotLinear(outwardNormal, outwardNormal, r.direction, 0.0);
    DotSymmetric(Neg(outwardNormal), r.direction);
    NegKeepsSquaredLength(outwardNormal);
    rec.(frontFace := frontFace, normal := if frontFace then outwardNormal else Neg(outwardNormal))
  }

  /** The provided `Hittable::hit`: an object that does not override it is
      never hit. */
  function DefaultHit(r: Ray, tMin: real, tMax: real): (res: Option<HitRecord>)
    ensures res == None
  {
    None
  }
}
