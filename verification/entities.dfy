/** The concrete entities of ssn_entities.cpp: the playfield bounds, the
    player's paddle and the puck. */
module Entities {
  import opened Vectors
  import opened Bodies
  import Winding

  /** `paddle_t::MOVE_ACCEL` (world / second^2). */
  const MOVE_ACCEL: real := 0.2

  /** `bounds_t`: the playfield box, its colour and the ledger of claimed
      areas, oldest first. The ledger's own operations are not part of this
      model. */
  datatype Bounds = Bounds(bbox: Box, color: ColorId, areas: seq<Winding.Area>)

  /** `bounds_t::bounds_t(box)`: the given box in the background colour;
      the ledger of a fresh playfield is taken to be empty. */
  function NewBounds(b: Box): (r: Bounds)
    ensures r.bbox == b && r.color == BackgroundColor && |r.areas| == 0
  {
    Bounds(b, BackgroundColor, [])
  }

  /** `paddle_t`: a body plus the direction input `mDI`. */
  datatype Paddle = Paddle(body: Entity, di: Vec2)

  /** Every component of `v` lies in [-1, 1]. */
  predicate UnitInput(v: Vec2) {
    -1.0 <= v.x <= 1.0 && -1.0 <= v.y <= 1.0
  }

  /** `paddle_t::paddle_t(circle)`: a paddle-coloured body at rest with no
      direction input. */
  function NewPaddle(c: Circle): (p: Paddle)
    ensures p.di == Zero && p.body.vel == Zero && p.body.accel == Zero
    ensures p.body.bounds == c && p.body.color == PaddleColor
  {
    Paddle(NewEntity(c, PaddleColor), Zero)
  }

  /** `glm::clamp(v, -1, 1)` on integers. */
  function ClampUnit(v: int): (r: int)
    ensures -1 <= r <= 1
    ensures -1 <= v <= 1 ==> r == v
    ensures v > 1 ==> r == 1
    ensures v < -1 ==> r == -1
  {
    if v < -1 then -1 else if v > 1 then 1 else v
  }

  /** `paddle_t::move(dx, dy)`: records the clamped direction and nothing
      else. */
  function Move(p: Paddle, dx: int, dy: int): (r: Paddle)
    ensures r.body == p.body
    ensures UnitInput(r.di)
    ensures r.di.x in {-1.0, 0.0, 1.0} && r.di.y in {-1.0, 0.0, 1.0}
    ensures -1 <= dx <= 1 ==> r.di.x == dx as real
    ensures -1 <= dy <= 1 ==> r.di.y == dy as real
    ensures (dx > 1 ==> r.di.x == 1.0) && (dx < -1 ==> r.di.x == -1.0)
    ensures (dy > 1 ==> r.di.y == 1.0) && (dy < -1 ==> r.di.y == -1.0)
  {
    p.(di := Vec2(ClampUnit(dx) as real, ClampUnit(dy) as real))
  }

  /** `paddle_t::update(dt)`: the acceleration is replaced by the scaled
      input, then the Euler step moves the circle and the box together. */
  function PaddleUpdate(p: Paddle, dt: real): (r: Paddle)
    ensures r.di == p.di
    ensures r.body.accel == Scale(MOVE_ACCEL, p.di)
    ensures UnitInput(p.di) ==>
      -MOVE_ACCEL <= r.body.accel.x <= MOVE_ACCEL && -MOVE_ACCEL <= r.body.accel.y <= MOVE_ACCEL
    ensures r.body.vel == Add(p.body.vel, Scale(dt, r.body.accel))
    ensures r.body.bounds.center == Add(p.body.bounds.center, Scale(dt, r.body.vel))
    ensures r.body.bbox.pos == Add(p.body.bbox.pos, Scale(dt, r.body.vel))
    ensures Sub(r.body.bounds.center, r.body.bbox.pos) == Sub(p.body.bounds.center, p.body.bbox.pos)
    ensures r.body.bounds.radius == p.body.bounds.radius
    ensures r.body.bbox.dims == p.body.bbox.dims && r.body.color == p.body.color
  {
    var a := Scale(MOVE_ACCEL, p.di);
    var v := Add(p.body.vel, Scale(dt, a));
    var b := p.body;
    p.(body := b.(accel := a, vel := v,
                  bounds := b.bounds.(center := Add(b.bounds.center, Scale(dt, v))),
                  bbox := b.bbox.(pos := Add(b.bbox.pos, Scale(dt, v)))))
  }

  /** The paddle's step is the shared entity step applied after setting the
      acceleration from the input, with the box carried along. */
  lemma PaddleUpdateIsEntityStep(p: Paddle, dt: real)
    ensures PaddleUpdate(p, dt).body.(bbox := p.body.bbox)
         == Bodies.Update(p.body.(accel := Scale(MOVE_ACCEL, p.di)), dt)
  {
  }

  /** `puck_t::puck_t(circle)`: a puck-coloured body at rest. */
  function NewPuck(c: Circle): (e: Entity)
    ensures e.bounds == c && e.color == PuckColor
    ensures e.vel == Zero && e.accel == Zero
  {
    NewEntity(c, PuckColor)
  }

  /** What `puck_t::hit` learns from its unshown collaborators:
      `circle_t::overlaps`, the circle after `circle_t::exbed`, and the two
      `glm::length`s behind `normalize` and the source's speed. */
  datatype HitGeometry = HitGeometry(overlaps: bool, exbedded: Circle, separation: real, sourceSpeed: real)

  /** The lengths in `g` are the true lengths of the vectors they measure. */
  ghost predicate Measured(source: Entity, g: HitGeometry) {
    && IsLength(g.separation, Sub(g.exbedded.center, source.bounds.center))
    && IsLength(g.sourceSpeed, source.vel)
  }

  datatype HitResult = HitResult(puck: Entity, hit: bool)

  lemma NormSqScale(k: real, v: Vec2)
    ensures NormSq(Scale(k, v)) == k * k * NormSq(v)
  {
  }

  /** Rescaling d to unit length and then to the length of u gives a vector
      as long as u, pointing along d. */
  lemma Rescale(len: real, speed: real, d: Vec2, u: Vec2)
    requires len > 0.0 && IsLength(len, d) && IsLength(speed, u)
    ensures NormSq(Scale(speed, Scale(1.0 / len, d))) == NormSq(u)
    ensures Scale(len, Scale(speed, Scale(1.0 / len, d))) == Scale(speed, d)
  {
    var k := speed / len;
    assert Scale(speed, Scale(1.0 / len, d)) == Scale(k, d);
    NormSqScale(k, d);
    assert k * len == speed;
    calc {
      k * k * NormSq(d);
      k * k * (len * len);
      (k * len) * (k * len);
    }
  }

  /** `puck_t::hit(source)`. Without overlap nothing changes. With overlap the
      puck takes the exbedded circle, its box is re-centred on it, and its
      velocity becomes the unit separation direction times the source's
      speed. A zero separation, where `glm::normalize` would produce NaN,
      leaves the puck at rest in this model. */
  function PuckHit(puck: Entity, source: Entity, g: HitGeometry): (r: HitResult)
    ensures r.hit == g.overlaps
    ensures !g.overlaps ==> r.puck == puck
    ensures g.overlaps ==> r.puck.bounds == g.exbedded
    ensures g.overlaps ==> Add(r.puck.bbox.pos, Scale(0.5, r.puck.bbox.dims)) == r.puck.bounds.center
    ensures r.puck.bbox.dims == puck.bbox.dims && r.puck.accel == puck.accel && r.puck.color == puck.color
    ensures g.overlaps && Measured(source, g) && g.separation > 0.0 ==>
      && Scale(g.separation, r.puck.vel) == Scale(g.sourceSpeed, Sub(r.puck.bounds.center, source.bounds.center))
      && NormSq(r.puck.vel) == NormSq(source.vel)
  {
    if !g.overlaps then HitResult(puck, false)
    else
      var c := g.exbedded;
      var d := Sub(c.center, source.bounds.center);
      var dir := if g.separation != 0.0 then Scale(1.0 / g.separation, d) else Zero;
      var v := Scale(g.sourceSpeed, dir);
      assert Measured(source, g) && g.separation > 0.0 ==>
        NormSq(v) == NormSq(source.vel) && Scale(g.separation, v) == Scale(g.sourceSpeed, d) by {
        if Measured(source, g) && g.separation > 0.0 {
          Rescale(g.separation, g.sourceSpeed, d, source.vel);
        }
      }
      HitResult(puck.(bounds := c, vel := v, bbox := puck.bbox.(pos := Sub(c.center, Scale(0.5, puck.bbox.dims)))), true)
  }
}
