/** The concrete mode table of ssn.cpp (`MODE_INIT_FUNS`,
    `MODE_UPDATE_FUNS`) over the shared world, and what the dispatcher does
    with it end to end. */
module Modes {
  import opened Keys
  import opened Dispatch
  import opened GameMode
  import Menus
  import Winding

  /** The cursor and pending id a menu works on. */
  function MenuOf(s: State): Menus.Menu {
    Menus.Menu(s.world.menuIdx, s.pmode)
  }

  /** Writes a menu's cursor and pending id back into the state. */
  function WithMenu(s: State, m: Menus.Menu): (r: State)
    ensures MenuOf(r) == m
    ensures r.(pmode := s.pmode, world := r.world.(menuIdx := s.world.menuIdx)) == s
  {
    s.(pmode := m.pmode, world := s.world.(menuIdx := m.menuIdx))
  }

  /** `title::init` and `reset::init`. */
  function MenuModeInit(s: State): (r: (State, bool))
    ensures r.1 && r.0.world.menuIdx == 0
    ensures r.0.(world := r.0.world.(menuIdx := s.world.menuIdx)) == s
  {
    (WithMenu(s, Menus.MenuInit(MenuOf(s))), true)
  }

  /** Every mode's init, by id: game, select, title, score (an empty stub)
      and reset. */
  function InitMode(env: Env, id: ModeIndex, s: State): (State, bool) {
    if id == GAME_ID then GameInit(s)
    else if id == SELECT_ID then env.selectInit(s)
    else if id == TITLE_ID then MenuModeInit(s)
    else if id == SCORE_ID then (s, true)
    else MenuModeInit(s)
  }

  /** Every mode's update, by id. */
  function UpdateMode(env: Env, rule: Winding.CrossingRule, id: ModeIndex, s: State, input: Input, dt: real): (State, bool) {
    if id == GAME_ID then (GameUpdate(env, rule, s, input, dt).state, true)
    else if id == SELECT_ID then env.selectUpdate(s, input, dt)
    else if id == TITLE_ID then (WithMenu(s, Menus.TitleUpdate(MenuOf(s), input.pressed)), true)
    else if id == SCORE_ID then (s, true)
    else (WithMenu(s, Menus.ResetUpdate(MenuOf(s), input.pressed)), true)
  }

  /** The table with the game tick scoring by `rule`; the program's own
      table is `Table(env, Winding.AsWritten)`. */
  function Table(env: Env, rule: Winding.CrossingRule): ModeTable<World, Input> {
    ModeTable((id, s) => InitMode(env, id, s), (id, s, i, dt) => UpdateMode(env, rule, id, s, i, dt))
  }

  /** The select mode's init leaves the dispatcher's clocks and mode ids
      alone, as every shown init does. */
  ghost predicate SelectInitKeepsClocks(env: Env) {
    forall x: State {:trigger env.selectInit(x)} ::
      var y := env.selectInit(x).0;
      y.dt == x.dt && y.tt == x.tt && y.st == x.st && y.mode == x.mode && y.pmode == x.pmode
  }

  /** With such a select mode, a tick can dispatch exactly when a pending
      transition targets a table slot (or a negative sentinel) and otherwise
      the current mode has one. Bind's id 5 has no slot. */
  lemma TableCanDispatch(env: Env, rule: Winding.CrossingRule, s: State)
    requires SelectInitKeepsClocks(env)
    ensures CanDispatch(Table(env, rule), s) <==>
      if Entering(s) then s.pmode < MODE_COUNT else 0 <= s.mode < MODE_COUNT
  {
    if Entering(s) && 0 <= s.pmode < MODE_COUNT {
      assert Table(env, rule).init(s.pmode, s).0.pmode == s.pmode;
    }
  }

  /** `init` on the concrete table: the clocks stay zero, boot is current
      and the title pending, the menu cursor is at its first item, and the
      overall result is the select mode's init result, every other init
      succeeding. */
  lemma BootThenInits(env: Env, rule: Winding.CrossingRule, s: State)
    requires SelectInitKeepsClocks(env)
    ensures
      var r := InitPrefix(Table(env, rule), Boot(s), MODE_COUNT);
      && r.dt == 0.0 && r.tt == 0.0 && r.st == 0.0
      && r.mode == BOOT_ID && r.pmode == TITLE_ID
      && r.world.menuIdx == 0
    ensures InitsSucceeded(Table(env, rule), Boot(s), MODE_COUNT) <==>
      env.selectInit(InitPrefix(Table(env, rule), Boot(s), 1)).1
  {
    var t := Table(env, rule);
    var b := Boot(s);
    var s1 := InitPrefix(t, b, 1);
    var s2 := InitPrefix(t, b, 2);
    var s3 := InitPrefix(t, b, 3);
    var s4 := InitPrefix(t, b, 4);
    assert s1 == GameInit(b).0;
    assert s2 == env.selectInit(s1).0;
    assert s3 == MenuModeInit(s2).0;
    assert s4 == s3;
    assert InitPrefix(t, b, 5) == MenuModeInit(s4).0;
    assert t.init(0, InitPrefix(t, b, 0)).1;
    assert t.init(2, s2).1 && t.init(3, s3).1 && t.init(4, s4).1;
  }

  /** A tick that enters the title screen: the title's init resets the
      cursor, the mode-local clock restarts at dt, and the title update then
      reads this tick's presses. */
  lemma EnterTitle(env: Env, rule: Winding.CrossingRule, s: State, input: Input, dt: real)
    requires s.mode != s.pmode && s.pmode == TITLE_ID
    ensures CanDispatch(Table(env, rule), s)
    ensures
      var r := Tick(Table(env, rule), s, input, dt);
      && r.1 && r.0.mode == TITLE_ID && r.0.st == dt && r.0.tt == s.tt + dt && r.0.dt == dt
      && (Menus.Selected(input.pressed) ==> r.0.world.menuIdx == 0 && r.0.pmode == GAME_ID)
      && (!Menus.Selected(input.pressed) ==> r.0.pmode == TITLE_ID && r.0.world.menuIdx < 2)
  {
    assert Table(env, rule).init(s.pmode, s) == MenuModeInit(s);
  }

  /** In the game mode both the dispatcher and `game::update` add dt to
      `tt`, so game time runs at twice the rate of the mode clock. */
  lemma GameTickAdvancesTwice(env: Env, rule: Winding.CrossingRule, s: State, input: Input, dt: real)
    requires s.mode == GAME_ID && s.pmode == GAME_ID
    ensures CanDispatch(Table(env, rule), s)
    ensures
      var r := Tick(Table(env, rule), s, input, dt);
      r.1 && r.0.tt == s.tt + 2.0 * dt && r.0.st == s.st + dt && r.0.dt == dt && r.0.mode == GAME_ID
  {
  }

  /** Choosing EXIT on the title screen leaves the title current with the
      exit sentinel pending; the next tick then refuses and changes
      nothing. */
  lemma TitleExitStops(env: Env, rule: Winding.CrossingRule, s: State, input: Input, dt: real, next: Input, dt2: real)
    requires s.mode == TITLE_ID && s.pmode == TITLE_ID && s.world.menuIdx == 1
    requires Menus.Selected(input.pressed)
    ensures CanDispatch(Table(env, rule), s)
    ensures
      var r := Tick(Table(env, rule), s, input, dt);
      && r.1 && r.0.mode == TITLE_ID && r.0.pmode == EXIT_ID && Stops(r.0)
      && CanDispatch(Table(env, rule), r.0)
      && Tick(Table(env, rule), r.0, next, dt2) == (r.0, false)
  {
  }

  /** A tick that enters the reset menu: its init resets the cursor, the
      mode-local clock restarts at dt, and the reset update then reads this
      tick's presses. */
  lemma EnterReset(env: Env, rule: Winding.CrossingRule, s: State, input: Input, dt: real)
    requires s.mode != s.pmode && s.pmode == RESET_ID
    ensures CanDispatch(Table(env, rule), s)
    ensures
      var r := Tick(Table(env, rule), s, input, dt);
      && r.1 && r.0.mode == RESET_ID && r.0.st == dt && r.0.tt == s.tt + dt && r.0.dt == dt
      && (Menus.Selected(input.pressed) ==> r.0.world.menuIdx == 0 && r.0.pmode == GAME_ID)
      && (!Menus.Selected(input.pressed) ==> r.0.pmode == RESET_ID && r.0.world.menuIdx < 2)
      && (!Menus.Selected(input.pressed) && Menus.CursorDelta(input.pressed) == 0 ==> r.0.world.menuIdx == 0)
  {
    assert Table(env, rule).init(s.pmode, s) == MenuModeInit(s);
  }

  /** Holding T in the game requests the reset menu, which the game tick
      itself does not enter: the game stays current. */
  lemma ScoringRequestsReset(env: Env, rule: Winding.CrossingRule, s: State, input: Input, dt: real)
    requires s.mode == GAME_ID && s.pmode == GAME_ID && KeyT in input.down
    ensures CanDispatch(Table(env, rule), s)
    ensures
      var r := Tick(Table(env, rule), s, input, dt);
      r.1 && r.0.mode == GAME_ID && r.0.pmode == RESET_ID
  {
  }

  /** One game tick without T held: it can dispatch, keeps the pending
      game id, continues, and leaves the game current. */
  lemma GameTickKeepsGame(env: Env, rule: Winding.CrossingRule, s: State, input: Input, dt: real)
    requires s.pmode == GAME_ID && KeyT !in input.down
    ensures CanDispatch(Table(env, rule), s)
    ensures TickKeepsPending(Table(env, rule), s, input, dt)
    ensures
      var t := Tick(Table(env, rule), s, input, dt);
      t.1 && t.0.mode == GAME_ID && t.0.pmode == GAME_ID
  {
    if Entering(s) {
      assert Table(env, rule).init(s.pmode, s) == GameInit(s);
    }
  }

  /** A run in which nobody holds T keeps the game pending on the
      program's own table: every tick continues, and the game's init runs
      exactly once if the run starts by entering the game, and never
      otherwise. */
  lemma {:induction false} GameRunInitsOnce(env: Env, rule: Winding.CrossingRule, s: State, inputs: seq<Input>, dts: seq<real>)
    requires s.pmode == GAME_ID && |inputs| == |dts|
    requires forall i :: 0 <= i < |inputs| ==> KeyT !in inputs[i].down
    ensures Dispatchable(Table(env, rule), s, inputs, dts)
    ensures RunKeepsPending(Table(env, rule), s, inputs, dts)
    ensures Run(Table(env, rule), s, inputs, dts).1
    ensures Run(Table(env, rule), s, inputs, dts).2 == (if |dts| > 0 && s.mode != GAME_ID then 1 else 0)
    decreases |dts|
  {
    if |dts| > 0 {
      GameTickKeepsGame(env, rule, s, inputs[0], dts[0]);
      var t := Tick(Table(env, rule), s, inputs[0], dts[0]);
      assert forall i :: 0 <= i < |inputs| - 1 ==> inputs[1..][i] == inputs[i + 1];
      GameRunInitsOnce(env, rule, t.0, inputs[1..], dts[1..]);
      RunCons(Table(env, rule), s, inputs, dts);
    }
  }
}
