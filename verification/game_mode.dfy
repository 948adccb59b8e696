/** The game mode of ssn_modes.cpp: the world every mode shares, the
    collaborators the model does not define, `game::init` and
    `game::update`. */
module GameMode {
  import opened Vectors
  import opened Options
  import opened Consts
  import opened Bodies
  import opened Entities
  import opened Particles
  import opened Keys
  import opened Scoring
  import Winding
  import Dispatch

  /** The simulation state the modes read and write beyond the dispatcher's
      clocks and mode ids: the hit-freeze timer `ht`, the menu cursor and
      the game objects. */
  datatype World = World(ht: real, menuIdx: nat, bounds: Bounds, puck: Entity, paddle: Paddle, particulator: Particulator)

  type State = Dispatch.Sim<World>

  /** The collaborators whose bodies are not part of this model, passed in
      as functions: `puck_t::update`, the circle geometry behind
      `puck_t::hit`, `bounds_t::claim`, and the select mode's init and
      update. */
  datatype Env = Env(
    puckUpdate: (Entity, real) -> Entity,
    hitGeometry: (Entity, Entity) -> HitGeometry,
    claim: (Bounds, Paddle) -> Bounds,
    selectInit: State -> (State, bool),
    selectUpdate: (State, Input, real) -> (State, bool))

  /** `cPaddleBaseRadius`. */
  const PADDLE_BASE_RADIUS: real := 0.05

  /** The integer direction `di` read from the held W/S/A/D keys. */
  datatype Direction = Direction(x: int, y: int)

  function InputDirection(down: set<Key>): (d: Direction)
    ensures d.x in {-1, 0, 1} && d.y in {-1, 0, 1}
    ensures d.y == 1 <==> KeyW in down && KeyS !in down
    ensures d.y == -1 <==> KeyS in down && KeyW !in down
    ensures d.y == 0 <==> (KeyW in down <==> KeyS in down)
    ensures d.x == 1 <==> KeyD in down && KeyA !in down
    ensures d.x == -1 <==> KeyA in down && KeyD !in down
    ensures d.x == 0 <==> (KeyA in down <==> KeyD in down)
  {
    Direction(Axis(down, KeyD, KeyA), Axis(down, KeyW, KeyS))
  }

  /** `game::init`: a fresh unit playfield with an empty ledger, the puck
      left of centre, the paddle at the centre, an empty particle pool and
      no hit freeze. Clocks, mode ids and the menu cursor are kept. */
  function GameInit(s: State): (r: (State, bool))
    ensures r.1
    ensures r.0.(world := s.world) == s
    ensures r.0.world.ht == 0.0 && r.0.world.menuIdx == s.world.menuIdx
    ensures r.0.world.bounds.bbox == Box(Vec2(0.0, 0.0), Vec2(1.0, 1.0)) && r.0.world.bounds.areas == []
    ensures r.0.world.bounds.color == BackgroundColor
    ensures r.0.world.puck.bounds == Circle(Vec2(0.25, 0.5), 0.03)
    ensures r.0.world.puck.vel == Zero && r.0.world.puck.color == PuckColor
    ensures r.0.world.paddle.body.bounds == Circle(Vec2(0.5, 0.5), 0.05)
    ensures r.0.world.paddle.body.vel == Zero && r.0.world.paddle.di == Zero
    ensures r.0.world.particulator.size == 0
  {
    var w := s.world;
    var w1 := w.(
      ht := 0.0,
      bounds := NewBounds(Box(Vec2(0.0, 0.0), Vec2(1.0, 1.0))),
      puck := NewPuck(Circle(Vec2(0.25, 0.5), PADDLE_BASE_RADIUS * 0.6)),
      paddle := NewPaddle(Circle(Vec2(0.5, 0.5), PADDLE_BASE_RADIUS)),
      particulator := NewParticulator());
    (s.(world := w1), true)
  }

  /** The hit-freeze branch: `ht` counts up while below `MAX_HIT_TIME` and
      is then cleared; nothing else moves. */
  function Freeze(w: World, dt: real): (r: World)
    requires w.ht > 0.0
    ensures r.(ht := w.ht) == w
    ensures w.ht < MAX_HIT_TIME ==> r.ht == w.ht + dt
    ensures w.ht >= MAX_HIT_TIME ==> r.ht == 0.0
    ensures r.ht == 0.0 || r.ht < MAX_HIT_TIME + dt
  {
    w.(ht := if w.ht < MAX_HIT_TIME then w.ht + dt else 0.0)
  }

  /** The play branch and whether the puck was hit in it. */
  datatype Rally = Rally(world: World, hit: bool)

  /** The play branch: the paddle takes the input and steps, the puck steps
      and is tested against the stepped paddle; on a hit the paddle claims
      and the freeze timer starts counting. */
  function Play(env: Env, w: World, di: Direction, dt: real): (r: Rally)
    ensures r.world.paddle == PaddleUpdate(Move(w.paddle, di.x, di.y), dt)
    ensures
      var puck := env.puckUpdate(w.puck, dt);
      var h := PuckHit(puck, r.world.paddle.body, env.hitGeometry(puck, r.world.paddle.body));
      r.hit == h.hit && r.world.puck == h.puck
    ensures r.hit ==> r.world.bounds == env.claim(w.bounds, r.world.paddle) && r.world.ht == w.ht + dt
    ensures !r.hit ==> r.world.bounds == w.bounds && r.world.ht == w.ht
    ensures r.world.menuIdx == w.menuIdx && r.world.particulator == w.particulator
  {
    var paddle := PaddleUpdate(Move(w.paddle, di.x, di.y), dt);
    var puck := env.puckUpdate(w.puck, dt);
    var h := PuckHit(puck, paddle.body, env.hitGeometry(puck, paddle.body));
    if h.hit then
      Rally(w.(paddle := paddle, puck := h.puck, bounds := env.claim(w.bounds, paddle), ht := w.ht + dt), true)
    else
      Rally(w.(paddle := paddle, puck := h.puck), false)
  }

  /** The outcome of a game tick: the new state and, when T was held, the
      tally that would be printed. */
  datatype GameStep = GameStep(state: State, scores: Option<Scores>)

  /** `game::update`: set `dt` and add it to `tt` (again, on top of the
      dispatcher), run either the freeze or the play branch, step the
      particle pool, and on T score the ledger and request the reset mode.
      The tally counts with the given crossing rule: the program's strict
      comparisons are `Winding.AsWritten`, which counts some outside points
      (see `Winding.AsWrittenCountsOutsidePoint`), and `Winding.HalfOpen` is
      the rule of the inclusion algorithm the code cites. */
  function GameUpdate(env: Env, rule: Winding.CrossingRule, s: State, input: Input, dt: real): (r: GameStep)
    ensures r.state.dt == dt && r.state.tt == s.tt + dt
    ensures r.state.st == s.st && r.state.mode == s.mode
    ensures r.state.world.menuIdx == s.world.menuIdx
    ensures s.world.ht > 0.0 ==>
      && r.state.world.paddle == s.world.paddle
      && r.state.world.puck == s.world.puck
      && r.state.world.bounds == s.world.bounds
      && (r.state.world.ht == 0.0 || r.state.world.ht < MAX_HIT_TIME + dt)
    ensures s.world.ht <= 0.0 ==>
      var di := InputDirection(input.down);
      r.state.world.paddle == PaddleUpdate(Move(s.world.paddle, di.x, di.y), dt)
    ensures s.world.ht == 0.0 && Play(env, s.world, InputDirection(input.down), dt).hit ==>
      r.state.world.ht == dt
    ensures KeyT in input.down ==>
      && r.state.pmode == Dispatch.RESET_ID
      && r.scores == Some(TallyScores(rule, r.state.world.bounds.areas, r.state.world.bounds.bbox))
    ensures KeyT !in input.down ==> r.state.pmode == s.pmode && r.scores == None
  {
    var s1 := s.(dt := dt, tt := s.tt + dt);
    var w := s.world;
    var w1 := if w.ht > 0.0 then Freeze(w, dt) else Play(env, w, InputDirection(input.down), dt).world;
    var w2 := w1.(particulator := PoolUpdate(w1.particulator, dt));
    if KeyT in input.down then
      GameStep(s1.(world := w2, pmode := Dispatch.RESET_ID),
               Some(TallyScores(rule, w2.bounds.areas, w2.bounds.bbox)))
    else
      GameStep(s1.(world := w2), None)
  }

  /** The crossing rule affects only the reported tally: the next state is
      the same under both rules, and so is the tally when no pixel row of
      the playfield lies at the height of a claimed corner. */
  lemma ScoringRuleOnlyChangesTally(env: Env, s: State, input: Input, dt: real)
    ensures GameUpdate(env, Winding.AsWritten, s, input, dt).state == GameUpdate(env, Winding.HalfOpen, s, input, dt).state
    ensures
      var b := GameUpdate(env, Winding.HalfOpen, s, input, dt).state.world.bounds;
      (forall y: nat :: y < PIXEL_RES ==> RowOffLevel(b.areas, b.bbox, y)) ==>
        GameUpdate(env, Winding.AsWritten, s, input, dt).scores == GameUpdate(env, Winding.HalfOpen, s, input, dt).scores
  {
    var b := GameUpdate(env, Winding.HalfOpen, s, input, dt).state.world.bounds;
    if forall y: nat :: y < PIXEL_RES ==> RowOffLevel(b.areas, b.bbox, y) {
      TallyAgreesOffLevel(b.areas, b.bbox);
    }
  }

  /** A hit from rest freezes the following tick: with a positive dt the
      timer is then above zero, so the next tick leaves the paddle, the puck
      and the bounds where they are. */
  lemma HitFreezesNextTick(env: Env, rule: Winding.CrossingRule, s: State, input: Input, dt: real, next: Input, dt2: real)
    requires s.world.ht == 0.0 && dt > 0.0
    ensures Play(env, s.world, InputDirection(input.down), dt).hit ==>
      var s1 := GameUpdate(env, rule, s, input, dt).state;
      var s2 := GameUpdate(env, rule, s1, next, dt2).state;
      && s1.world.ht == dt
      && s2.world.paddle == s1.world.paddle && s2.world.puck == s1.world.puck
      && s2.world.bounds == s1.world.bounds
  {
  }

  /** The tally a scoring tick reports splits the pixel grid: the two teams'
      counts never exceed 512 x 512. */
  lemma ScoringTickTallyBounded(env: Env, rule: Winding.CrossingRule, s: State, input: Input, dt: real)
    requires KeyT in input.down
    ensures
      var r := GameUpdate(env, rule, s, input, dt);
      r.scores.Some? && r.scores.value.left + r.scores.value.right <= PIXEL_RES * PIXEL_RES
  {
    var r := GameUpdate(env, rule, s, input, dt);
    TallyConservation(rule, r.state.world.bounds.areas, r.state.world.bounds.bbox);
  }
}
