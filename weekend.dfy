/**
 * The depth-bounded path tracer of src/rtcore/weekend.rs: a ray either runs out of depth,
 * misses the scene, or hits a material that scatters it further, stops it with its own
 * colour, or absorbs it.
 */
module Weekend {
  import opened Wrappers
  import opened Vector
  import P = Point
  import opened Materials
  import opened Rays
  import Scenes

  /** The window the scene is queried with. */
  const TMin: real := 0.001
  const TMax: real := 100000.0

  /**
   * What a material's `scatter` leaves behind: whether the ray goes on, the next ray and
   * the attenuation (starting from the values the caller put there), and the advanced
   * generator state.
   */
  datatype Scattered<R> = Scattered(bounced: bool, next: Ray, attenuation: Vec3, rng: R)

  /** The colour a path returns together with the generator state it leaves. */
  datatype Shade<R> = Shade(color: Vec3, rng: R)

  /** `scatter` of the hit material: material, incoming ray, hit, next ray, attenuation, generator. */
  type Scatter<!R> = (Material, Ray, HitData, Ray, Vec3, R) -> Scattered<R>

  /** The next ray the integrator hands to `scatter` before it writes one. */
  function InitialNext(sqrt: real -> real): (r: Ray)
    ensures r.origin == P.Default()
  {
    Rays.New(P.Default(), Vec3(0.0, 0.0, 1.0), sqrt)
  }

  /** The colour `ray_color_weekend` returns for `ray` with `depth` bounces left. */
  function Color<R>(scene: Scenes.Scene, ray: Ray, depth: nat, rng: R, scatter: Scatter<R>, sqrt: real -> real): (r: Shade<R>)
    reads scene
    ensures depth == 0 ==> r == Shade(Vec3(1.0, 1.0, 1.0), rng)
    ensures depth > 0 && scene.SceneHit(ray, TMin, TMax, sqrt).None? ==> r == Shade(Zero(), rng)
    decreases depth, 1
  {
    if depth == 0 then Shade(Vec3(1.0, 1.0, 1.0), rng)
    else
      match scene.SceneHit(ray, TMin, TMax, sqrt)
      case None => Shade(Zero(), rng)
      case Some(h) => Shaded(scene, ray, h, depth, rng, scatter, sqrt)
  }

  /**
   * The colour once the ray has hit: black without a material, the attenuation times the
   * colour of the scattered ray, the attenuation of an emitter, or black.
   */
  function Shaded<R>(scene: Scenes.Scene, ray: Ray, h: HitData, depth: nat, rng: R, scatter: Scatter<R>, sqrt: real -> real): (r: Shade<R>)
    requires depth > 0
    reads scene
    ensures h.material.None? ==> r == Shade(Zero(), rng)
    decreases depth, 0
  {
    if h.material.None? then Shade(Zero(), rng)
    else
      var s := scatter(h.material.value, ray, h, InitialNext(sqrt), Zero(), rng);
      if s.bounced then
        var rest := Color(scene, s.next, depth - 1, s.rng, scatter, sqrt);
        Shade(Mul(s.attenuation, rest.color), rest.rng)
      else if h.material.value.emissive then Shade(s.attenuation, s.rng)
      else Shade(Zero(), s.rng)
  }

  /**
   * `ray_color_weekend`. The ghost `queries` counts the scene intersections the call makes,
   * its own and those of every nested call: at most one per level of depth.
   */
  method RayColorWeekend<R>(ray: Ray, depth: nat, context: Scenes.Context<R>, scatter: Scatter<R>, sqrt: real -> real)
    returns (color: Vec3, ghost queries: nat)
    modifies context
    ensures color == Color(context.scene, ray, depth, old(context.rng), scatter, sqrt).color
    ensures context.rng == Color(context.scene, ray, depth, old(context.rng), scatter, sqrt).rng
    ensures queries <= depth && (depth > 0 <==> queries > 0)
    decreases depth
  {
    if depth == 0 {
      return Vec3(1.0, 1.0, 1.0), 0;
    }
    var record := new HitRecord();
    var hit := context.scene.Intersect(ray, TMin, TMax, record, sqrt);
    queries := 1;
    if hit {
      var nextRay := Rays.New(P.Default(), Vec3(0.0, 0.0, 1.0), sqrt);
      var attenuation := Zero();
      if record.material.None? {
        return Zero(), queries;
      }
      var s := scatter(record.material.value, ray, record.Value(), nextRay, attenuation, context.rng);
      context.rng := s.rng;
      nextRay, attenuation := s.next, s.attenuation;
      if s.bounced {
        var rest, more := RayColorWeekend(nextRay, depth - 1, context, scatter, sqrt);
        return Mul(attenuation, rest), queries + more;
      }
      if record.material.value.emissive {
        return attenuation, queries;
      }
      return Zero(), queries;
    }
    return Zero(), queries;
  }

  // Properties

  /** Every component lies in [0, 1]. */
  predicate InUnitCube(v: Vec3)
  {
    0.0 <= v.x <= 1.0 && 0.0 <= v.y <= 1.0 && 0.0 <= v.z <= 1.0
  }

  /** Every attenuation `scatter` produces lies in the unit cube. */
  ghost predicate Attenuating<R(!new)>(scatter: Scatter<R>)
  {
    forall m, ray, h, next, a, g :: InUnitCube(scatter(m, ray, h, next, a, g).attenuation)
  }

  /**
   * Materials that only attenuate give colours in the unit cube: each bounce multiplies by
   * an attenuation in [0, 1], and the path ends in white, black or an attenuation.
   */
  lemma {:induction false} ColorInUnitCube<R(!new)>(scene: Scenes.Scene, ray: Ray, depth: nat, rng: R, scatter: Scatter<R>, sqrt: real -> real)
    requires Attenuating(scatter)
    ensures InUnitCube(Color(scene, ray, depth, rng, scatter, sqrt).color)
    decreases depth, 1
  {
    if depth > 0 {
      var hit := scene.SceneHit(ray, TMin, TMax, sqrt);
      if hit.Some? {
        ShadedInUnitCube(scene, ray, hit.value, depth, rng, scatter, sqrt);
      }
    }
  }

  /** The same once the ray has hit. */
  lemma {:induction false} ShadedInUnitCube<R(!new)>(scene: Scenes.Scene, ray: Ray, h: HitData, depth: nat, rng: R, scatter: Scatter<R>, sqrt: real -> real)
    requires depth > 0 && Attenuating(scatter)
    ensures InUnitCube(Shaded(scene, ray, h, depth, rng, scatter, sqrt).color)
    decreases depth, 0
  {
    if h.material.Some? {
      var s := scatter(h.material.value, ray, h, InitialNext(sqrt), Zero(), rng);
      assert InUnitCube(s.attenuation);
      if s.bounced {
        ColorInUnitCube(scene, s.next, depth - 1, s.rng, scatter, sqrt);
        var c := Color(scene, s.next, depth - 1, s.rng, scatter, sqrt).color;
        UnitProduct(s.attenuation.x, c.x);
        UnitProduct(s.attenuation.y, c.y);
        UnitProduct(s.attenuation.z, c.z);
      }
    }
  }

  /** The product of two numbers in [0, 1] is in [0, 1]. */
  lemma UnitProduct(a: real, b: real)
    requires 0.0 <= a <= 1.0 && 0.0 <= b <= 1.0
    ensures 0.0 <= b * a <= 1.0
  {
    if a != 0.0 && b != 0.0 {
      assert b * a <= a;
    }
  }
}
