/** `ssn::entity_t` (ssn_entity_t.cpp): a simulated body with a circular
    bound, a box, a velocity and an acceleration, advanced by a
    semi-implicit Euler step. */
module Bodies {
  import opened Vectors

  /** Which palette constant an entity's colour pointer refers to; the
      colour values themselves are not part of this model. */
  datatype ColorId = BackgroundColor | PaddleColor | PuckColor

  /** `llce::circle_t`. */
  datatype Circle = Circle(center: Vec2, radius: real)

  /** `llce::box_t`: lower-left corner and dimensions. */
  datatype Box = Box(pos: Vec2, dims: Vec2)

  datatype Entity = Entity(bounds: Circle, bbox: Box, vel: Vec2, accel: Vec2, color: ColorId)

  /** The square box that encloses a circle. */
  function BoundingBox(c: Circle): (b: Box)
    ensures Add(b.pos, Scale(0.5, b.dims)) == c.center
    ensures b.dims.x == b.dims.y == 2.0 * c.radius
  {
    Box(Sub(c.center, Vec2(c.radius, c.radius)), Vec2(2.0 * c.radius, 2.0 * c.radius))
  }

  /** `entity_t::entity_t(circle, color)`: at rest, with the given bound and
      colour. */
  function NewEntity(c: Circle, color: ColorId): (e: Entity)
    ensures e.bounds == c && e.color == color
    ensures e.vel == Zero && e.accel == Zero
    ensures Add(e.bbox.pos, Scale(0.5, e.bbox.dims)) == c.center
  {
    Entity(c, BoundingBox(c), Zero, Zero, color)
  }

  /** `entity_t::update(dt)`: velocity first, then the centre moves with the
      new velocity. The box is not moved by this step. */
  function Update(e: Entity, dt: real): (r: Entity)
    ensures r.vel == Add(e.vel, Scale(dt, e.accel))
    ensures r.bounds.center == Add(e.bounds.center, Scale(dt, r.vel))
    ensures r.accel == e.accel && r.bounds.radius == e.bounds.radius
    ensures r.color == e.color && r.bbox == e.bbox
  {
    var v := Add(e.vel, Scale(dt, e.accel));
    e.(vel := v, bounds := e.bounds.(center := Add(e.bounds.center, Scale(dt, v))))
  }

  /** Successive updates, one per time step in `dts`. */
  function UpdateAll(e: Entity, dts: seq<real>): Entity
    decreases |dts|
  {
    if |dts| == 0 then e else UpdateAll(Update(e, dts[0]), dts[1..])
  }

  function Sum(dts: seq<real>): real
    decreases |dts|
  {
    if |dts| == 0 then 0.0 else dts[0] + Sum(dts[1..])
  }

  /** A zero time step changes nothing. */
  lemma UpdateZeroIsIdentity(e: Entity)
    ensures Update(e, 0.0) == e
  {
    assert Scale(0.0, e.accel) == Zero;
    assert Add(e.vel, Zero) == e.vel;
    assert Scale(0.0, e.vel) == Zero;
    assert Add(e.bounds.center, Zero) == e.bounds.center;
  }

  /** Without acceleration the velocity is constant and the centre moves by
      the total elapsed time times that velocity, whatever the steps. */
  lemma {:induction false} ZeroAccelUniformMotion(e: Entity, dts: seq<real>)
    requires e.accel == Zero
    ensures UpdateAll(e, dts).vel == e.vel
    ensures UpdateAll(e, dts).accel == Zero
    ensures UpdateAll(e, dts).bounds.center == Add(e.bounds.center, Scale(Sum(dts), e.vel))
    decreases |dts|
  {
    if |dts| == 0 {
    } else {
      var e1 := Update(e, dts[0]);
      assert e1.vel == e.vel;
      ZeroAccelUniformMotion(e1, dts[1..]);
    }
  }
}
