/** The scene: an ordered list of spheres scanned for the nearest hit. */
module HittableList {
  import opened Numeric
  import opened Options
  import opened Vectors
  import opened Rays
  import opened Hittable
  import opened Spheres

  /** `HittableList { list }`; the members are the spheres of the scene. */
  datatype HittableList = HittableList(list: seq<Sphere>)

  /** The reference the scan is specified against: what each member, in
      order, reports when asked on the whole interval `(tMin, tMax)`. The
      scan itself never asks this; it asks with its shrinking bound. */
  function MemberHits(world: HittableList, r: Ray, tMin: real, tMax: real, sqrt: real -> real): seq<Option<HitRecord>> {
    seq(|world.list|, i requires 0 <= i < |world.list| => Spheres.Hit(world.list[i], r, tMin, tMax, sqrt))
  }

  /** Member `k` of the first `n` reports a hit, every earlier member a miss
      or a strictly larger `t`, every later one a miss or a `t` at least as
      large: the nearest hit, the earliest on a tie. */
  ghost predicate NearestAmong(hits: seq<Option<HitRecord>>, n: int, k: int)
    requires 0 <= n <= |hits|
  {
    0 <= k < n && hits[k].Some?
    && (forall i :: 0 <= i < k ==> hits[i].None? || hits[i].value.t > hits[k].value.t)
    && (forall i :: k < i < n ==> hits[i].None? || hits[i].value.t >= hits[k].value.t)
  }

  /** One step of the scan: given the nearest hit among the first `n`
      members, and what member `n` reports under the current bound, the
      updated candidate is the nearest hit among the first `n + 1`. */
  lemma ScanStep(hits: seq<Option<HitRecord>>, n: int, best: int, hit: Option<HitRecord>, tMax: real,
                 rec: Option<HitRecord>)
    requires 0 <= n < |hits|
    requires hit.None? <==> forall i :: 0 <= i < n ==> hits[i].None?
    requires hit.Some? ==> NearestAmong(hits, n, best) && hits[best] == hit
    requires hits[n].Some? ==> hits[n].value.t < tMax
    requires var bound := if hit.Some? then hit.value.t else tMax;
             rec == if hits[n].Some? && hits[n].value.t < bound then hits[n] else None
    ensures rec.Some? ==> NearestAmong(hits, n + 1, n) && hits[n] == rec
    ensures rec.None? ==> (hit.None? <==> forall i :: 0 <= i < n + 1 ==> hits[i].None?)
    ensures rec.None? && hit.Some? ==> NearestAmong(hits, n + 1, best)
  {
  }

  /** The nearest hit among all members has the least `t` of them all. */
  lemma NearestIsLeast(hits: seq<Option<HitRecord>>, k: int)
    requires NearestAmong(hits, |hits|, k)
    ensures forall i :: 0 <= i < |hits| && hits[i].Some? ==> hits[k].value.t <= hits[i].value.t
  {
  }

  /** Member `n` asked with the scan's current bound: the step of `ScanStep`
      on the members' hits over the whole interval. */
  lemma ScanMember(world: HittableList, r: Ray, tMin: real, tMax: real, sqrt: real -> real,
                   n: int, best: int, hit: Option<HitRecord>, bound: real, rec: Option<HitRecord>)
    requires IsSqrt(sqrt)
    requires 0 <= n < |world.list|
    requires var hits := MemberHits(world, r, tMin, tMax, sqrt);
             hit.None? <==> forall i :: 0 <= i < n ==> hits[i].None?
    requires var hits := MemberHits(world, r, tMin, tMax, sqrt);
             hit.Some? ==> NearestAmong(hits, n, best) && hits[best] == hit
    requires bound == (if hit.Some? then hit.value.t else tMax) && bound <= tMax
    requires rec == Spheres.Hit(world.list[n], r, tMin, bound, sqrt)
    ensures var hits := MemberHits(world, r, tMin, tMax, sqrt);
            rec.Some? ==> NearestAmong(hits, n + 1, n) && hits[n] == rec
    ensures var hits := MemberHits(world, r, tMin, tMax, sqrt);
            rec.None? ==> (hit.None? <==> forall i :: 0 <= i < n + 1 ==> hits[i].None?)
    ensures var hits := MemberHits(world, r, tMin, tMax, sqrt);
            rec.None? && hit.Some? ==> NearestAmong(hits, n + 1, best)
  {
    var hits := MemberHits(world, r, tMin, tMax, sqrt);
    assert hits[n] == Spheres.Hit(world.list[n], r, tMin, tMax, sqrt);
    HitShrinksWithBound(world.list[n], r, tMin, bound, tMax, sqrt);
    ScanStep(hits, n, best, hit, tMax, rec);
  }

  /** `HittableList::hit`: a linear scan that asks each member with the
      bound `closestSoFar`, which starts at `tMax` and drops to the `t` of
      every hit found. The result is the hit of the member whose `t` is least
      on `(tMin, tMax)`, the earliest such member on a tie, or `None` when no
      member is hit. `bounds` records the value of `closestSoFar` before each
      member and after the last. */
  method Hit(world: HittableList, r: Ray, tMin: real, tMax: real, sqrt: real -> real)
    returns (hitAnything: Option<HitRecord>, ghost bounds: seq<real>)
    requires IsSqrt(sqrt)
    ensures var hits := MemberHits(world, r, tMin, tMax, sqrt);
            hitAnything.None? <==> forall i :: 0 <= i < |hits| ==> hits[i].None?
    ensures var hits := MemberHits(world, r, tMin, tMax, sqrt);
            hitAnything.Some? ==> exists k :: NearestAmong(hits, |hits|, k) && hits[k] == hitAnything
    ensures var hits := MemberHits(world, r, tMin, tMax, sqrt);
            hitAnything.Some? ==> forall i :: 0 <= i < |hits| && hits[i].Some? ==> hitAnything.value.t <= hits[i].value.t
    ensures hitAnything.Some? ==> tMin < hitAnything.value.t < tMax
    ensures |world.list| == 0 ==> hitAnything.None?
    ensures |bounds| == |world.list| + 1 && bounds[0] == tMax
    ensures forall i, j :: 0 <= i <= j < |bounds| ==> bounds[j] <= bounds[i]
    ensures bounds[|world.list|] == if hitAnything.Some? then hitAnything.value.t else tMax
  {
    ghost var hits := MemberHits(world, r, tMin, tMax, sqrt);
    assert |hits| == |world.list|;
    hitAnything := None;
    var closestSoFar := tMax;
    bounds := [tMax];
    ghost var best := 0;
    for n := 0 to |world.list|
      invariant |bounds| == n + 1 && bounds[0] == tMax && bounds[n] == closestSoFar
      invariant forall i, j :: 0 <= i <= j < |bounds| ==> bounds[j] <= bounds[i]
      invariant closestSoFar == if hitAnything.Some? then hitAnything.value.t else tMax
      invariant hitAnything.None? <==> forall i :: 0 <= i < n ==> hits[i].None?
      invariant hitAnything.Some? ==> NearestAmong(hits, n, best) && hits[best] == hitAnything
    {
      var member := world.list[n];
      var rec := Spheres.Hit(member, r, tMin, closestSoFar, sqrt);
      ScanMember(world, r, tMin, tMax, sqrt, n, best, hitAnything, closestSoFar, rec);
      if rec.Some? {
        closestSoFar := rec.value.t;
        hitAnything := rec;
        best := n;
      }
      bounds := bounds + [closestSoFar];
    }
    if hitAnything.Some? {
      NearestIsLeast(hits, best);
    }
  }
}
