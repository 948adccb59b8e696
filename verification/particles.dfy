/** `particle_t` and `particulator_t` (ssn_particles.cpp): short-lived
    points that drift under the shared Euler step until their lifetime runs
    out, and the fixed-capacity pool that will hold them. */
module Particles {
  import opened Vectors
  import opened Options
  import Bodies

  /** `particulator_t::MAX_PARTICLE_COUNT`. */
  const MAX_PARTICLE_COUNT: nat := 32

  /** A particle; a null colour pointer is `None`. */
  datatype Particle = Particle(pos: Vec2, vel: Vec2, accel: Vec2, color: Option<Bodies.ColorId>, lifetime: real)

  /** `particle_t::valid`: still alive. */
  predicate Valid(p: Particle) {
    p.lifetime > 0.0
  }

  /** `particle_t::particle_t()`: all zero, no colour, and already expired. */
  function DefaultParticle(): (p: Particle)
    ensures p.pos == Zero && p.vel == Zero && p.accel == Zero
    ensures p.color == None && p.lifetime == 0.0
    ensures !Valid(p)
  {
    Particle(Zero, Zero, Zero, None, 0.0)
  }

  /** `particle_t::particle_t(pos, color, lifetime)`: at rest where placed. */
  function NewParticle(pos: Vec2, color: Bodies.ColorId, lifetime: real): (p: Particle)
    ensures p.pos == pos && p.color == Some(color) && p.lifetime == lifetime
    ensures p.vel == Zero && p.accel == Zero
    ensures Valid(p) <==> lifetime > 0.0
  {
    Particle(pos, Zero, Zero, Some(color), lifetime)
  }

  /** `particle_t::update(dt)`: velocity, then position with the new
      velocity, then the lifetime shrinks by dt but not below zero. */
  function Update(p: Particle, dt: real): (r: Particle)
    ensures r.vel == Add(p.vel, Scale(dt, p.accel))
    ensures r.pos == Add(p.pos, Scale(dt, r.vel))
    ensures r.accel == p.accel && r.color == p.color
    ensures r.lifetime >= 0.0
    ensures dt >= 0.0 && p.lifetime >= 0.0 ==> r.lifetime <= p.lifetime
    ensures r.lifetime == 0.0 || r.lifetime == p.lifetime - dt
    ensures r.lifetime >= p.lifetime - dt
  {
    var v := Add(p.vel, Scale(dt, p.accel));
    var life := if 0.0 < p.lifetime - dt then p.lifetime - dt else 0.0;
    p.(vel := v, pos := Add(p.pos, Scale(dt, v)), lifetime := life)
  }

  /** Successive updates, one per time step in `dts`. */
  function UpdateAll(p: Particle, dts: seq<real>): Particle
    decreases |dts|
  {
    if |dts| == 0 then p else UpdateAll(Update(p, dts[0]), dts[1..])
  }

  ghost predicate NonNegative(dts: seq<real>) {
    forall i :: 0 <= i < |dts| ==> dts[i] >= 0.0
  }

  lemma {:induction false} SumNonNegative(dts: seq<real>)
    requires NonNegative(dts)
    ensures Bodies.Sum(dts) >= 0.0
    decreases |dts|
  {
    if |dts| > 0 {
      TailNonNegative(dts);
      SumNonNegative(dts[1..]);
    }
  }

  lemma TailNonNegative(dts: seq<real>)
    requires NonNegative(dts) && |dts| > 0
    ensures NonNegative(dts[1..])
  {
    forall i | 0 <= i < |dts| - 1 ensures dts[1..][i] >= 0.0 {
      assert dts[1..][i] == dts[i + 1];
    }
  }

  /** With non-negative steps a particle's lifetime is what remains of the total elapsed time, floored at 0. */
  lemma {:induction false} LifetimeAfterSteps(p: Particle, dts: seq<real>)
    requires NonNegative(dts)
    requires |dts| > 0 || p.lifetime >= 0.0
    ensures var r := UpdateAll(p, dts);
            r.lifetime == (if p.lifetime - Bodies.Sum(dts) > 0.0 then p.lifetime - Bodies.Sum(dts) else 0.0)
    decreases |dts|
  {
    if |dts| > 0 {
      var p1 := Update(p, dts[0]);
      TailNonNegative(dts);
      SumNonNegative(dts[1..]);
      LifetimeAfterSteps(p1, dts[1..]);
    }
  }

  /** An expired particle stays expired under non-negative steps. */
  lemma {:induction false} ExpiredStaysExpired(p: Particle, dts: seq<real>)
    requires NonNegative(dts)
    requires !Valid(p)
    ensures !Valid(UpdateAll(p, dts))
    decreases |dts|
  {
    if |dts| > 0 {
      TailNonNegative(dts);
      ExpiredStaysExpired(Update(p, dts[0]), dts[1..]);
    }
  }

  /** A particle's step moves it exactly as the entity step moves a body's
      centre. */
  lemma UpdateMatchesEntityStep(p: Particle, e: Bodies.Entity, dt: real)
    requires e.bounds.center == p.pos && e.vel == p.vel && e.accel == p.accel
    ensures Update(p, dt).pos == Bodies.Update(e, dt).bounds.center
    ensures Update(p, dt).vel == Bodies.Update(e, dt).vel
  {
  }

  /** `particulator_t`: a fixed array of particles and the count in use. */
  datatype Particulator = Particulator(particles: seq<Particle>, size: nat)

  /** `particulator_t::particulator_t()`: a full array of default particles,
      none in use. */
  function NewParticulator(): (q: Particulator)
    ensures q.size == 0 && |q.particles| == MAX_PARTICLE_COUNT
    ensures forall i :: 0 <= i < |q.particles| ==> q.particles[i] == DefaultParticle()
  {
    Particulator(seq(MAX_PARTICLE_COUNT, _ => DefaultParticle()), 0)
  }

  /** `particulator_t::update(dt)`: its body is still empty, so the pool is
      left as it is. */
  function PoolUpdate(q: Particulator, dt: real): (r: Particulator)
    ensures r == q
  {
    q
  }

  /** `particulator_t::generate(pos, dir)`: its body is commented out, so
      the pool is left as it is. */
  function Generate(q: Particulator, pos: Vec2, dir: Vec2): (r: Particulator)
    ensures r == q
  {
    q
  }
}
