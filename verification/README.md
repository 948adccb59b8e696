# ssn simulation core in Dafny

A model of the simulation core of *ssn*, a small C++ paddle-and-puck game.
Three pieces are modelled:

- **The mode dispatcher** (`ssn.cpp`). `init` zeroes the clocks, makes the
  boot sentinel current with the title pending, and runs each mode's init
  once. `update` performs a pending transition (run the target's init,
  switch, restart the mode clock `st`), or refuses at a negative sentinel.
  It then advances `dt`, `tt` and `st` and dispatches through the five-slot
  mode table.
- **The mode bodies** (`ssn_modes.cpp`). These are `game::init` and
  `game::update` with their hit-freeze timer, the winding-number
  point-in-triangle test, and the 512 x 512 pixel tally of claimed areas.
  They also include the title and reset menus.
- **Entity kinematics** (`ssn_entity_t.cpp`, `ssn_entities.cpp`,
  `ssn_particles.cpp`). These are the semi-implicit Euler step, the paddle's
  clamped input, the puck's hit response, particle lifetimes, and the
  (still empty) particle pool.

Floating point values are modelled as `real`. Every state record is an
immutable datatype, and every operation is a pure function. The few loops,
which are the dispatcher's init loop and the scoring loops, are methods
proved against a functional definition.

Files and modules:

| file | modules | contents |
|---|---|---|
| `vectors.dfy` | `Vectors`, `Consts`, `Options` | 2-vectors, `MAX_HIT_TIME`, teams, `Option` |
| `bodies.dfy` | `Bodies` | `entity_t`: circle, box, velocity, acceleration |
| `entities.dfy` | `Entities` | bounds, paddle, puck |
| `particles.dfy` | `Particles` | `particle_t`, `particulator_t` |
| `winding.dfy` | `Winding` | `csTriDeterminant`, `csPointInArea` and their geometry |
| `scoring.dfy` | `Scoring` | newest-first ownership and the pixel tally |
| `keys.dfy` | `Keys` | held and pressed keys |
| `menus.dfy` | `Menus` | title and reset menus |
| `dispatch.dfy` | `Dispatch` | mode ids, `init` and `update` over any mode table |
| `game_mode.dfy` | `GameMode` | the shared world, `game::init`, `game::update` |
| `modes.dfy` | `Modes` | the concrete mode table and whole-tick properties |

The dispatcher is generic: `Dispatch.ModeTable` holds one init and one
update function per slot. `Modes.Table` instantiates it with the game,
title, score and reset modes of `ssn_modes.cpp`. The select mode's init
and update come from `GameMode.Env`, because their bodies are not part of
this model. The table also takes the crossing rule the game tick scores
with: `Modes.Table(env, Winding.AsWritten)` is the program's own table,
and every `Modes` lemma holds for either rule.

Where this snapshot of the code disagrees with itself, the model follows
the code:

- Mode ids are taken from `ssn_modes.h`. `ssn_consts.h:10` declares an
  older enum in which `reset_id` is 2.
- `ssn_modes.cpp` writes the pending mode as `pmid` and `ssn.cpp` reads
  `pmode`. The model treats them as one field, `Sim.pmode`.
- The code has no round timer, no transition from the game to the score
  mode and no winner computation. The game tick has only the hit-freeze
  timer `ht`, holding T scores the field, and the reset mode is a two-item
  menu.
- `puck_t::hit` is declared `void` in `ssn_entities.cpp:54`, but
  `game::update` tests its result (`ssn_modes.cpp:120`). The model returns
  the overlap test, which is the only branch the body makes.

## Model

| member | source | states |
|---|---|---|
| Consts.TeamIndex | ssn_consts.h:11 | left is slot 0, right slot 1, neutral 2; only left and right index the two-slot score vector |
| Bodies.NewEntity | ssn_entity_t.cpp:14-15 | a new entity keeps the given circle and colour and is at rest: zero velocity and zero acceleration |
| Bodies.Update | ssn_entity_t.cpp:20-23 | velocity gains dt times acceleration first; the centre then moves by dt times the new velocity; acceleration, radius, colour and box are unchanged |
| Bodies.UpdateZeroIsIdentity | ssn_entity_t.cpp:20-23 | a zero time step leaves the entity exactly as it was |
| Bodies.ZeroAccelUniformMotion | ssn_entity_t.cpp:20-23 | with zero acceleration, any sequence of steps keeps the velocity constant and moves the centre by total elapsed time times that velocity |
| Entities.NewBounds | ssn_entities.cpp:13-16 | a new playfield has the given box, the background colour and no claimed areas |
| Entities.NewPaddle | ssn_entities.cpp:26-29 | a new paddle has zero direction input, is at rest, and has the paddle colour |
| Entities.ClampUnit | ssn_entities.cpp:33-34 | the clamp lands in [-1, 1]; it is the identity in range and saturates at the nearer bound outside it |
| Entities.Move | ssn_entities.cpp:32-35 | `move` stores each direction component clamped to {-1, 0, 1}, unchanged when already in range, and leaves the body untouched |
| Entities.PaddleUpdate | ssn_entities.cpp:38-44 | acceleration becomes MOVE_ACCEL times the input, so each component is at most MOVE_ACCEL in size for a unit input; centre and box move by the same dt times the new velocity, so centre minus box position is invariant |
| Entities.PaddleUpdateIsEntityStep | ssn_entities.cpp:38-44 | apart from carrying the box along, the paddle step is the shared entity step applied after setting the acceleration from the input |
| Entities.NewPuck | ssn_entities.cpp:48-51 | a new puck keeps the given circle, has the puck colour and is at rest |
| Entities.Rescale | ssn_entities.cpp:59-61 | the separation scaled to unit length and then by the source's speed is as long as the source's velocity and points along the separation |
| Entities.PuckHit | ssn_entities.cpp:54-63 | without overlap the puck is unchanged; with overlap it takes the exbedded circle, its box is re-centred on it, and its velocity points from the source centre to the puck centre with the source's speed |
| Winding.Det | ssn_modes.cpp:139-142 | `csTriDeterminant`; it vanishes when two of its points coincide, and `Winding.DetIdentities` states how the three edge determinants of a point relate to the triangle's signed area |
| Winding.EdgeWinding | ssn_modes.cpp:149-165 | an edge adds +1 only on a strict upward crossing, -1 only on a strict downward crossing, and an edge with an endpoint level with the point adds nothing |
| Winding.EdgeCountsRightwardCrossing | ssn_modes.cpp:153-165 | an edge counts +1 exactly when it crosses the horizontal ray to the right of the point going up, and -1 exactly when it does so going down |
| Winding.WindCount | ssn_modes.cpp:146-169 | the winding count of `csPointInArea`, the sum of the three edge contributions; its meaning is stated by `Winding.HalfOpenSoundAndComplete` and `Winding.AsWrittenOffLevel` |
| Winding.PointInArea | ssn_modes.cpp:146-169 | `csPointInArea`: a non-zero winding count; under the half-open rule `Winding.HalfOpenSoundAndComplete` proves that every counted point lies in the closed triangle and every strictly interior point is counted, and `Winding.AsWrittenOffLevel` proves it equals strict interiority under the code's rule for points level with no corner and off the edge lines |
| Winding.EdgeReversal | ssn_modes.cpp:149-165 | reversing an edge negates its contribution |
| Winding.OrientationIndependent | ssn_modes.cpp:146-169 | listing the corners in the opposite order negates the count and leaves the containment verdict unchanged |
| Winding.DetIdentities | ssn_modes.cpp:139-142 | the three edge determinants of a point sum to the triangle's signed area and are weighted to zero by the corners' heights above the point |
| Winding.HalfOpenSoundAndComplete | ssn_modes.cpp:146-169 | under the half-open rule a counted point lies in the closed, non-degenerate triangle; every point strictly inside is counted; collinear corners contain nothing |
| Winding.AsWrittenAgreesOffLevel | ssn_modes.cpp:154-160 | for a point level with no corner, the strict rule the code uses gives the same count as the half-open rule |
| Winding.AsWrittenOffLevel | ssn_modes.cpp:146-169 | for a point level with no corner, the code's test is sound and complete and collinear corners contain nothing; off every edge line it holds iff the point is strictly inside, in either orientation |
| Winding.BoundaryPointCounted | ssn_modes.cpp:146-169 | a point on an edge and level with no corner can be counted although it is not strictly inside, so the exact iff needs the point off the edge lines |
| Winding.AsWrittenCountsOutsidePoint | ssn_modes.cpp:154-160 | the strict comparisons count a point level with a corner and outside the closed triangle, which the half-open rule rejects |
| Scoring.PixelCenter | ssn_modes.cpp:176-178 | the sample point of pixel (x, y): the box position plus (i + 0.5) / 512 of the box size on each axis, with `interp` taken as linear interpolation (see `Scoring.Tally` under Left out) |
| Scoring.Owner | ssn_modes.cpp:180-186 | the newest-first scan of the ledger; `Scoring.OwnerIsNewestContainer` and `Scoring.NoOwnerIffUncovered` state that it credits the newest containing area's team and nobody exactly when no area contains the point |
| Scoring.OwnerIsNewestContainer | ssn_modes.cpp:180-186 | a pixel has an owner iff some area contains it, and the owner is the team of the newest containing area |
| Scoring.NoOwnerIffUncovered | ssn_modes.cpp:180-186 | a pixel is credited to nobody exactly when no claimed area contains it |
| Scoring.OwnerAgreesOffLevel | ssn_modes.cpp:180-186 | at a point level with no corner of any area, the strict and half-open rules credit the same team |
| Scoring.RowPartition | ssn_modes.cpp:175-187 | each pixel of a row goes to exactly one of left, right or nobody |
| Scoring.GridPartition | ssn_modes.cpp:174-188 | each pixel of the grid goes to exactly one of left, right or nobody, so the three counts sum to rows times columns |
| Scoring.RowCountAgreesOffLevel | ssn_modes.cpp:175-187 | in a pixel row at the height of no claimed corner, the strict and half-open rules credit each owner with the same number of pixels |
| Scoring.GridCountAgreesOffLevel | ssn_modes.cpp:174-188 | over rows that are all at the height of no claimed corner, the two rules give the same per-owner counts |
| Scoring.AsWrittenMiscreditsLevelRow | ssn_modes.cpp:146-186 | with one left-owned area whose corner lies at the height of pixel row 255 of the unit playfield, the strict rule credits pixel (0, 255), outside the area, to left and pixel (307, 255), strictly inside, to nobody; the half-open rule credits them to nobody and to left |
| Scoring.TallyConservation | ssn_modes.cpp:173-190 | left plus right plus unowned is 512 x 512, so left plus right is at most the pixel total |
| Scoring.TallyAgreesOffLevel | ssn_modes.cpp:173-188 | when no pixel row of the grid lies at the height of a claimed corner, the tally is the same under the strict and the half-open rule |
| Scoring.CreditPixel | ssn_modes.cpp:180-186 | scanning areas newest-first and stopping at the first container adds one to exactly the owner's count, the slot picked by the team's enum value, and nothing when there is none |
| Scoring.TallyRow | ssn_modes.cpp:175-187 | the pixel loop adds each team's count of owned pixels in the row |
| Scoring.TallyGrid | ssn_modes.cpp:174-188 | the row loop produces each team's count of owned pixels in the grid |
| Scoring.Tally | ssn_modes.cpp:173-188 | the nested scoring loops compute exactly the per-team pixel counts |
| Particles.Valid | ssn_particles.cpp:37-39 | `particle_t::valid`: a positive lifetime; `Particles.NewParticle`, `Particles.DefaultParticle` and `Particles.ExpiredStaysExpired` state when a particle is valid and that it stays expired |
| Particles.DefaultParticle | ssn_particles.cpp:12-13 | a default particle is all zero with no colour and lifetime 0, hence not valid |
| Particles.NewParticle | ssn_particles.cpp:18-19 | a constructed particle has the given position, colour and lifetime and is at rest; it is valid iff the lifetime is positive |
| Particles.Update | ssn_particles.cpp:24-28 | velocity, then position with the new velocity; the lifetime drops by dt but never below 0, and never grows for dt at least 0 |
| Particles.LifetimeAfterSteps | ssn_particles.cpp:27 | after non-negative steps the lifetime is the initial lifetime minus the total elapsed time, floored at 0 |
| Particles.ExpiredStaysExpired | ssn_particles.cpp:37-39 | once not valid, a particle stays not valid under non-negative steps |
| Particles.UpdateMatchesEntityStep | ssn_particles.cpp:24-26 | a particle moves exactly as the entity step moves a body's centre |
| Particles.NewParticulator | ssn_particles.cpp:43-46 | a new pool has size 0 and MAX_PARTICLE_COUNT default particles |
| Particles.PoolUpdate | ssn_particles.cpp:49-54 | the pool update leaves the pool unchanged |
| Particles.Generate | ssn_particles.cpp:65-80 | generate leaves the pool unchanged |
| Dispatch.Boot | ssn.cpp:55-60 | dt, tt and st become 0, the boot sentinel is current and the title pending; the world is untouched |
| Dispatch.Init | ssn.cpp:98-104 | every table init runs once, in table order, each on its predecessor's result; the result is true iff all of them succeed |
| Dispatch.Prepare | ssn.cpp:109-118 | on a pending transition the target's init runs once, the mode becomes the pending one and st ends at dt; otherwise no init runs and st grows by dt; tt grows by dt once either way |
| Dispatch.Tick | ssn.cpp:108-122 | at a negative pending id the tick returns false and changes nothing, not even the clocks; otherwise it returns the current mode's update called on the prepared state |
| Dispatch.TickSettles | ssn.cpp:109-121 | after a continuing tick whose init and update leave the pending id alone on that state (`TickKeepsPending`), current equals pending and the next tick can dispatch, so a pending id takes effect only on a later call |
| Dispatch.SingleInit | ssn.cpp:109-118 | over a run of N ticks in which each tick's init and update leave the pending id alone (`RunKeepsPending`), inits run at most once, and exactly once iff the first tick starts a transition |
| Dispatch.SettledRunHasNoInit | ssn.cpp:109-118 | on such a run starting with current equal to pending, no tick calls an init |
| Keys.Axis | ssn_modes.cpp:84-91 | an axis is +1 or -1 when exactly one of its two keys is held, and 0 when both or neither are |
| Menus.CursorDelta | ssn_modes.cpp:242-250 | the two players' summed up/down presses lie in [-2, 2] |
| Menus.MenuInit | ssn_modes.cpp:226-229 | a menu's init puts the cursor on its first item and leaves the pending mode alone |
| Menus.MenuUpdate | ssn_modes.cpp:252-260 | on select the cursor stays, item 0 and item 1 request their targets, and any other index requests nothing; otherwise the pending mode stays and the cursor stays below the item count |
| Menus.TitleUpdate | ssn_modes.cpp:252-259 | title select on START requests the game and on EXIT the exit sentinel; without select the cursor lands on an item: a single up or down press moves it to the item of the other parity (toggling between the two items), and a net-zero or double press to the item of the same parity |
| Menus.ResetUpdate | ssn_modes.cpp:338-345 | reset select on REPLAY requests the game and on EXIT the title; without select a single press moves the cursor to the item of the other parity, and a net-zero or double press to the item of the same parity |
| Menus.CursorStepAgreesWithUint32 | ssn_modes.cpp:259 | with two items, the cursor step computed on an unsigned 32-bit index agrees with the mathematical remainder, also when moving up from item 0 |
| Menus.TitleRunStaysOnItems | ssn_modes.cpp:252-259 | after any sequence of title ticks from a valid cursor, the cursor is on one of the two items, and the only pending modes requested are the game and the exit sentinel |
| GameMode.InputDirection | ssn_modes.cpp:80-92 | each input component is in {-1, 0, 1}; W/S and A/D held together cancel |
| GameMode.GameInit | ssn_modes.cpp:33-76 | no hit freeze; a unit playfield in the background colour with no claims; puck of radius 0.03 at (0.25, 0.5) and paddle of radius 0.05 at (0.5, 0.5), both at rest; an empty pool; clocks, mode ids and cursor untouched |
| GameMode.Freeze | ssn_modes.cpp:110-111 | while frozen only ht changes: it counts up by dt below MAX_HIT_TIME and is cleared at or above it, so afterwards ht is 0 or below MAX_HIT_TIME + dt |
| GameMode.Play | ssn_modes.cpp:112-125 | the paddle takes the clamped input and steps, the stepped puck is tested against the stepped paddle; a hit claims and adds dt to ht, a miss leaves bounds and ht alone |
| GameMode.GameUpdate | ssn_modes.cpp:79-199 | the game tick sets dt and adds it to tt; when frozen, paddle, puck and bounds are untouched; a hit from ht = 0 leaves ht = dt; holding T reports the tally under the crossing rule passed in and requests the reset mode |
| GameMode.ScoringRuleOnlyChangesTally | ssn_modes.cpp:79-199 | the crossing rule changes only the reported tally: the next state is the same under both rules, and so is the tally when no pixel row lies at the height of a claimed corner |
| GameMode.HitFreezesNextTick | ssn_modes.cpp:110-124 | a hit from rest with positive dt makes the following tick leave paddle, puck and bounds where they are |
| GameMode.ScoringTickTallyBounded | ssn_modes.cpp:173-190 | the tally of a scoring tick credits at most 512 x 512 pixels in total |
| Modes.InitMode | ssn.cpp:27-28 | `MODE_INIT_FUNS`: the inits of game, select, title, score and reset by id; `Modes.BootThenInits`, `Modes.EnterTitle` and `Modes.EnterReset` state what they do when the dispatcher runs them |
| Modes.UpdateMode | ssn.cpp:29-30 | `MODE_UPDATE_FUNS`: the updates of the five modes by id; `Modes.GameTickAdvancesTwice`, `Modes.TitleExitStops` and `Modes.ScoringRequestsReset` state what they do on a tick |
| Modes.Table | ssn.cpp:27-33 | the five-slot table the dispatcher indexes; `Modes.TableCanDispatch` states which ids it can dispatch, and `Modes.GameRunInitsOnce` that it meets the run-level hypothesis of `Dispatch.SingleInit` on game runs |
| Modes.MenuModeInit | ssn_modes.cpp:312-315 | title and reset init put the cursor on item 0, change nothing else, and succeed |
| Modes.TableCanDispatch | ssn.cpp:27-33 | a tick can index the five-slot table exactly when the pending id (or the current one, with nothing pending) is below MODE_COUNT; bind's id 5 has no slot |
| Modes.BootThenInits | ssn.cpp:52-104 | after `init` the clocks are 0, boot is current, the title is pending, the cursor is on item 0, and the result is the select mode's init result |
| Modes.EnterTitle | ssn.cpp:109-120 | the tick that enters the title runs its init, sets st to dt and tt up by dt, and then applies the title update to this tick's presses |
| Modes.EnterReset | ssn.cpp:109-120 | the tick that enters the reset menu runs its init and restarts st at dt; without presses the cursor is on REPLAY |
| Modes.GameTickAdvancesTwice | ssn_modes.cpp:105-106 | in game mode tt grows by 2 dt per tick, because both the dispatcher and the game tick add dt |
| Modes.TitleExitStops | ssn_modes.cpp:255-256 | choosing EXIT leaves the title current with the exit sentinel pending, and the next tick returns false with the state unchanged |
| Modes.GameTickKeepsGame | ssn_modes.cpp:79-199 | a game-mode tick without T held can dispatch, keeps the pending id, continues, and leaves the game both current and pending |
| Modes.GameRunInitsOnce | ssn.cpp:109-121 | on the program's own table, any run of game ticks without T held meets the run-level hypothesis of `Dispatch.SingleInit`, never stops, and calls the game's init once if it starts by entering the game and never otherwise |
| Modes.ScoringRequestsReset | ssn_modes.cpp:134-195 | holding T in game mode requests the reset mode while the game stays current for this tick |

## Left out

- Rendering is left out: every `render` function, GL/SDL drawing and text. There is no state to check in it.
- `boot`, output buffers and input binding (`ssn.cpp:37-49`, `66-94`) are left out. Input is modelled as the sets of held and pressed keys.
- RNG seeding and colour values (`ssn.cpp:62`, `ssn_data.cpp`) are left out. Colours are modelled as an identifier of the palette entry.
- The printing of scores (`ssn_modes.cpp:191-193`) is I/O. `GameMode.GameUpdate` returns the counts instead, under the crossing rule it is given. With `Winding.AsWritten`, as in the program's table, these are the counts the program divides by the pixel total and prints.
- float32/float64 rounding and the casts between them are not modelled; arithmetic is on reals.
- The collaborators whose bodies are not part of this model are passed in as `GameMode.Env` functions: `puck_t::update`, `bounds_t::claim` and the select mode's init and update. `circle_t::overlaps`, `circle_t::exbed`, `glm::normalize` and `glm::length` arrive as a `HitGeometry` record. `Entities.Measured` states what the two lengths must be.
- `bounds->update` (`ssn_modes.cpp:116`) is left out. `bounds_t` declares no `update`, so the call is the inherited entity step (`ssn_entity_t.cpp:20-23`). That step changes only the velocity and the circle centre, and `Entities.Bounds` keeps neither for the playfield.
- `paddle_t::rush` (the E key), `mAmRushing`, `genHit` and `genTrail` are left out. They have no bodies in this snapshot.
- The bind mode (id 5) is left out. It has no table slot, and `Dispatch.CanDispatch` excludes it.
- The score mode is an empty stub. Its init and update are modelled as succeeding and changing nothing.
- Bodies.NewEntity: the entity constructor does not set the box, and `box_t`'s constructor is not part of this model. The model assumes the box is the circle's bounding square.
- Entities.PuckHit: when the puck and source centres coincide, `glm::normalize` would yield NaN. The model gives the puck zero velocity instead. The direction and speed are only promised when the separation is positive and both lengths are measured.
- Scoring.Tally: `interval::interp` is not part of this model. It is assumed to be linear interpolation across the box, which gives pixel centres at (i + 0.5) / 512.
- Winding.AsWrittenOffLevel: the claim that "not level with a corner" implies "counted iff strictly inside" is stated only for points that are also off every edge line. Points on an edge follow the algorithm's half-open convention (`Winding.BoundaryPointCounted`).
- Menus.CursorStepAgreesWithUint32: the type of `menuIdx` is not part of this model. The menus use the mathematical remainder, and this lemma shows it agrees with unsigned 32-bit arithmetic for two items.
- Modes.BootThenInits: the select mode is assumed to leave the clocks and mode ids alone in its init, as every shown init does.
- Entities.NewBounds: the `bounds_t` declaration (`ssn_entities.h:14-27`) has no ledger fields, and its constructor (`ssn_entities.cpp:13-16`) sets no area count, so the ledger's initial state is not part of this model. It is assumed to start with 0 areas. The fixed-capacity `mAreaCorners` and `mAreaTeams` arrays are modelled as an unbounded sequence of areas.
- GameMode.GameInit: `game::init` calls the three-argument `puck_t` and `paddle_t` constructors (`ssn_modes.cpp:44-45`, `49-50`), whose bodies are not part of this model. The model uses the one-argument constructors (`ssn_entities.cpp:26-29`, `48-51`) and their colours instead. The neutral team of the puck, the left team of the paddle and the pointer to the playfield are not modelled, so the team that `bounds_t::claim` records is supplied by the `GameMode.Env` claim function. The pool is built by `particulator_t(&rng)` (`ssn_modes.cpp:52`), a constructor whose body is not part of this model; the model uses the zero-argument constructor (`ssn_particles.cpp:43-46`) instead.

## Findings

| source | as written | input that shows it | evidently intended | confidence | as-written member | corrected member |
|---|---|---|---|---|---|---|
| ssn_modes.cpp:154-160 | An edge counts only if the point's height is strictly between the edge's endpoint heights (`<` and `>` at both ends). So an edge ending at a corner level with the point never counts, and the crossings on either side of that corner no longer pair up. | Triangle (0,0), (1,1), (0,2) and point (-5,1). The point is level with corner (1,1) and lies far outside, yet only edge (0,2) -> (0,0) counts, giving a winding count of -1, so the point is reported inside. | The inclusion algorithm the code cites compares half-open: the start is inclusive and the end exclusive. Under that rule every counted point lies in the closed triangle and every interior point is counted. | not executed | Winding.AsWrittenCountsOutsidePoint | Winding.HalfOpenSoundAndComplete |

The game tick (`GameMode.GameUpdate`) scores with the rule it is given: the
program's table passes the strict rule as written, and the corrected table
`Modes.Table(env, Winding.HalfOpen)` the half-open one.
`Scoring.AsWrittenMiscreditsLevelRow` shows the discrepancy on real pixel
centres. `Scoring.OwnerAgreesOffLevel` and `Scoring.TallyAgreesOffLevel`
show that the two rules credit every pixel centre, and hence give the same
tally, unless a pixel row lies at the height of some corner of a claimed
area. `GameMode.ScoringRuleOnlyChangesTally` shows that the rule affects
nothing but the reported tally.
