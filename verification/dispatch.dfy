/** The mode dispatcher of ssn.cpp: global clocks, the current and pending
    mode ids, and the five-entry tables of per-mode `init` and `update`
    functions. The dispatcher is generic in what the modes do: `W` is the
    rest of the game state and `I` the per-tick input. */
module Dispatch {

  // Mode ids (ssn_modes.h). Negative ids are sentinels that are never
  // looked up in the tables.
  const BOOT_ID: int := -1
  const EXIT_ID: int := -2
  const GAME_ID: int := 0
  const SELECT_ID: int := 1
  const TITLE_ID: int := 2
  const SCORE_ID: int := 3
  const RESET_ID: int := 4
  const BIND_ID: int := 5

  /** `MODE_COUNT`: the tables hold game, select, title, score and reset, in
      id order; the bind id has no slot. */
  const MODE_COUNT: int := 5

  /** A valid index into the mode tables. */
  type ModeIndex = i: int | 0 <= i < 5

  /** `ssn::state_t` as far as the dispatcher sees it: elapsed tick time
      `dt`, total time `tt`, time in the current mode `st`, the current and
      pending mode ids, and everything else. */
  datatype Sim<W> = Sim(dt: real, tt: real, st: real, mode: int, pmode: int, world: W)

  /** `MODE_INIT_FUNS` and `MODE_UPDATE_FUNS`: each returns the new state
      and its success flag. */
  datatype ModeTable<!W, !I> = ModeTable(
    init: (ModeIndex, Sim<W>) -> (Sim<W>, bool),
    update: (ModeIndex, Sim<W>, I, real) -> (Sim<W>, bool))

  /** The first part of `init`: clocks zeroed, the current mode the boot
      sentinel and the title pending, the rest untouched. */
  function Boot<W>(s: Sim<W>): (r: Sim<W>)
    ensures r.dt == 0.0 && r.tt == 0.0 && r.st == 0.0
    ensures r.mode == BOOT_ID && r.pmode == TITLE_ID
    ensures r.world == s.world
  {
    Sim(0.0, 0.0, 0.0, BOOT_ID, TITLE_ID, s.world)
  }

  /** The state after the table's init functions 0 .. k-1 have run in
      order, each on the state the previous one left. */
  function InitPrefix<W, I>(table: ModeTable<W, I>, s: Sim<W>, k: nat): Sim<W>
    requires k <= MODE_COUNT
    decreases k
  {
    if k == 0 then s else table.init(k - 1, InitPrefix(table, s, k - 1)).0
  }

  /** Every one of init functions 0 .. k-1 reported success. */
  ghost predicate InitsSucceeded<W, I>(table: ModeTable<W, I>, s: Sim<W>, k: nat)
    requires k <= MODE_COUNT
  {
    forall j: ModeIndex :: j < k ==> table.init(j, InitPrefix(table, s, j)).1
  }

  /** `init`: boot the clocks and mode ids, then run every mode's init once,
      in table order, and report whether all of them succeeded. */
  method Init<W, I>(table: ModeTable<W, I>, s: Sim<W>) returns (r: Sim<W>, ok: bool)
    ensures r == InitPrefix(table, Boot(s), MODE_COUNT)
    ensures ok <==> InitsSucceeded(table, Boot(s), MODE_COUNT)
  {
    var s0 := Boot(s);
    r := s0;
    ok := true;
    var modeIdx := 0;
    while modeIdx < MODE_COUNT
      invariant 0 <= modeIdx <= MODE_COUNT
      invariant r == InitPrefix(table, s0, modeIdx)
      invariant ok <==> InitsSucceeded(table, s0, modeIdx)
    {
      var res := table.init(modeIdx, r);
      ok := ok && res.1;
      r := res.0;
      modeIdx := modeIdx + 1;
    }
  }

  /** A mode transition is pending. */
  predicate Entering<W>(s: Sim<W>) {
    s.mode != s.pmode
  }

  /** The tick would stop at the exit (or any negative) sentinel. */
  predicate Stops<W>(s: Sim<W>) {
    Entering(s) && s.pmode < 0
  }

  /** Every table lookup this tick makes is in range: the pending id when a
      transition runs its init, and the id then dispatched to update. */
  predicate CanDispatch<W, I>(table: ModeTable<W, I>, s: Sim<W>) {
    if Entering(s) then
      s.pmode < 0 || (s.pmode < MODE_COUNT && 0 <= table.init(s.pmode, s).0.pmode < MODE_COUNT)
    else
      0 <= s.mode < MODE_COUNT
  }

  /** The state the mode's update is called with: after any transition
      (target's init run, mode switched, `st` reset) the clocks advance by
      dt. */
  function Prepare<W, I>(table: ModeTable<W, I>, s: Sim<W>, dt: real): (r: Sim<W>)
    requires CanDispatch(table, s) && !Stops(s)
    ensures 0 <= r.mode < MODE_COUNT
    ensures r.dt == dt
    ensures Entering(s) ==>
      var e := table.init(s.pmode, s).0;
      && r.mode == e.pmode && r.pmode == e.pmode
      && r.st == dt && r.tt == e.tt + dt && r.world == e.world
    ensures !Entering(s) ==>
      && r.mode == s.mode && r.pmode == s.pmode
      && r.st == s.st + dt && r.tt == s.tt + dt && r.world == s.world
  {
    var s1 := if Entering(s) then
      var e := table.init(s.pmode, s).0; e.(mode := e.pmode, st := 0.0)
    else s;
    s1.(dt := dt, tt := s1.tt + dt, st := s1.st + dt)
  }

  /** `update`: refuse at a negative pending id, leaving the state alone;
      otherwise return what the current mode's update returns, called on the
      prepared state. A pending id the update writes is not looked at again
      this tick. */
  function Tick<W, I>(table: ModeTable<W, I>, s: Sim<W>, input: I, dt: real): (r: (Sim<W>, bool))
    requires CanDispatch(table, s)
    ensures Stops(s) ==> r == (s, false)
    ensures !Stops(s) ==>
      var p := Prepare(table, s, dt);
      r == table.update(p.mode, p, input, dt)
  {
    if Stops(s) then (s, false)
    else
      var p := Prepare(table, s, dt);
      table.update(p.mode, p, input, dt)
  }

  /** This tick's init (when a transition runs) and update keep the
      pending id, and the update keeps the current id. */
  predicate TickKeepsPending<W, I>(table: ModeTable<W, I>, s: Sim<W>, input: I, dt: real)
    requires CanDispatch(table, s)
  {
    !Stops(s) ==>
      && (Entering(s) ==> table.init(s.pmode, s).0.pmode == s.pmode)
      && var p := Prepare(table, s, dt);
         var u := table.update(p.mode, p, input, dt).0;
         u.pmode == p.pmode && u.mode == p.mode
  }

  /** After a continuing tick that keeps the pending id, the current mode
      is the pending one, so the next tick makes no transition; a pending id
      takes effect on the tick after the one that wrote it. */
  lemma TickSettles<W, I>(table: ModeTable<W, I>, s: Sim<W>, input: I, dt: real)
    requires CanDispatch(table, s) && !Stops(s) && TickKeepsPending(table, s, input, dt)
    ensures !Entering(Tick(table, s, input, dt).0)
    ensures CanDispatch(table, Tick(table, s, input, dt).0)
  {
    var p := Prepare(table, s, dt);
    assert Tick(table, s, input, dt) == table.update(p.mode, p, input, dt);
  }

  /** Every tick of the run, up to the first that reports failure, can
      look up its table slots. */
  predicate Dispatchable<W, I>(table: ModeTable<W, I>, s: Sim<W>, inputs: seq<I>, dts: seq<real>)
    requires |inputs| == |dts|
    decreases |dts|
  {
    |dts| == 0 ||
      (CanDispatch(table, s) &&
       var t := Tick(table, s, inputs[0], dts[0]);
       t.1 ==> Dispatchable(table, t.0, inputs[1..], dts[1..]))
  }

  /** Every tick of the run keeps the pending id: the pending mode is
      unchanged over the run. */
  predicate RunKeepsPending<W, I>(table: ModeTable<W, I>, s: Sim<W>, inputs: seq<I>, dts: seq<real>)
    requires |inputs| == |dts| && Dispatchable(table, s, inputs, dts)
    decreases |dts|
  {
    |dts| == 0 ||
      (TickKeepsPending(table, s, inputs[0], dts[0]) &&
       var t := Tick(table, s, inputs[0], dts[0]);
       t.1 ==> RunKeepsPending(table, t.0, inputs[1..], dts[1..]))
  }

  /** The host loop over a sequence of ticks, stopping at the first tick
      that reports failure. Returns the final state, whether every tick
      continued, and how many ticks ran a mode's init. */
  function Run<W, I>(table: ModeTable<W, I>, s: Sim<W>, inputs: seq<I>, dts: seq<real>): (Sim<W>, bool, nat)
    requires |inputs| == |dts| && Dispatchable(table, s, inputs, dts)
    decreases |dts|
  {
    if |dts| == 0 then (s, true, 0)
    else
      var inits := if Entering(s) && s.pmode >= 0 then 1 else 0;
      var t := Tick(table, s, inputs[0], dts[0]);
      if !t.1 then (t.0, false, inits)
      else
        var rest := Run(table, t.0, inputs[1..], dts[1..]);
        (rest.0, rest.1, inits + rest.2)
  }

  /** A run is a continuing first tick followed by the run from its result:
      its hypotheses, its outcome and its init count all split that way. */
  lemma RunCons<W, I>(table: ModeTable<W, I>, s: Sim<W>, inputs: seq<I>, dts: seq<real>)
    requires |inputs| == |dts| > 0 && CanDispatch(table, s)
    requires TickKeepsPending(table, s, inputs[0], dts[0])
    requires Tick(table, s, inputs[0], dts[0]).1
    requires Dispatchable(table, Tick(table, s, inputs[0], dts[0]).0, inputs[1..], dts[1..])
    requires RunKeepsPending(table, Tick(table, s, inputs[0], dts[0]).0, inputs[1..], dts[1..])
    ensures Dispatchable(table, s, inputs, dts) && RunKeepsPending(table, s, inputs, dts)
    ensures Run(table, s, inputs, dts).1 == Run(table, Tick(table, s, inputs[0], dts[0]).0, inputs[1..], dts[1..]).1
    ensures Run(table, s, inputs, dts).2
         == (if Entering(s) && s.pmode >= 0 then 1 else 0) + Run(table, Tick(table, s, inputs[0], dts[0]).0, inputs[1..], dts[1..]).2
  {
  }

  /** Over N ticks with the pending mode unchanged, a mode's init runs at
      most once, and it runs exactly when the first tick finds a transition
      to a non-negative id pending. */
  lemma {:induction false} SingleInit<W, I>(table: ModeTable<W, I>, s: Sim<W>, inputs: seq<I>, dts: seq<real>)
    requires |inputs| == |dts| && Dispatchable(table, s, inputs, dts)
    requires RunKeepsPending(table, s, inputs, dts)
    ensures Run(table, s, inputs, dts).2 <= 1
    ensures Run(table, s, inputs, dts).2 == 1 <==> |dts| > 0 && Entering(s) && s.pmode >= 0
    decreases |dts|
  {
    if |dts| > 0 {
      var t := Tick(table, s, inputs[0], dts[0]);
      if t.1 {
        assert !Stops(s);
        TickSettles(table, s, inputs[0], dts[0]);
        SettledRunHasNoInit(table, t.0, inputs[1..], dts[1..]);
      }
    }
  }

  /** When the current mode is the pending one, no tick of a run that keeps
      the pending id calls an init. */
  lemma {:induction false} SettledRunHasNoInit<W, I>(table: ModeTable<W, I>, s: Sim<W>, inputs: seq<I>, dts: seq<real>)
    requires |inputs| == |dts| && Dispatchable(table, s, inputs, dts)
    requires RunKeepsPending(table, s, inputs, dts) && !Entering(s)
    ensures Run(table, s, inputs, dts).2 == 0
    decreases |dts|
  {
    if |dts| > 0 {
      var t := Tick(table, s, inputs[0], dts[0]);
      if t.1 {
        TickSettles(table, s, inputs[0], dts[0]);
        SettledRunHasNoInit(table, t.0, inputs[1..], dts[1..]);
      }
    }
  }
}
