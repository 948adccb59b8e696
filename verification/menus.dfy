/** The title and reset menus of ssn_modes.cpp: a two-item cursor moved by
    either player's up/down keys, and a selection that requests the next
    mode. */
module Menus {
  import opened Keys
  import Dispatch

  /** `TITLE_ITEM_COUNT` ("START", "EXIT") and `RESET_ITEM_COUNT`
      ("REPLAY", "EXIT"). */
  const TITLE_ITEM_COUNT: nat := 2
  const RESET_ITEM_COUNT: nat := 2

  /** The part of the state a menu reads and writes: the cursor `menuIdx`
      and the pending mode id. */
  datatype Menu = Menu(menuIdx: nat, pmode: int)

  /** Either player pressed select (D or L) this tick. */
  predicate Selected(pressed: set<Key>) {
    KeyD in pressed || KeyL in pressed
  }

  /** `dy[0] + dy[1]`: the two players' up/down presses summed. */
  function CursorDelta(pressed: set<Key>): (d: int)
    ensures -2 <= d <= 2
  {
    Axis(pressed, KeyW, KeyS) + Axis(pressed, KeyI, KeyK)
  }

  /** `title::init` and `reset::init`: the cursor goes to the first item. */
  function MenuInit(m: Menu): (r: Menu)
    ensures r.menuIdx == 0 && r.pmode == m.pmode
  {
    m.(menuIdx := 0)
  }

  /** The shared body of both menu updates: on select, item 0 and item 1
      request their target modes and the cursor stays; otherwise the cursor
      moves by the summed presses, wrapping around the items. */
  function MenuUpdate(m: Menu, pressed: set<Key>, count: nat, first: int, second: int): (r: Menu)
    requires count > 0
    ensures Selected(pressed) ==> r.menuIdx == m.menuIdx
    ensures Selected(pressed) && m.menuIdx == 0 ==> r.pmode == first
    ensures Selected(pressed) && m.menuIdx == 1 ==> r.pmode == second
    ensures Selected(pressed) && m.menuIdx > 1 ==> r.pmode == m.pmode
    ensures !Selected(pressed) ==> r.pmode == m.pmode && r.menuIdx < count
  {
    if Selected(pressed) then
      if m.menuIdx == 0 then m.(pmode := first)
      else if m.menuIdx == 1 then m.(pmode := second)
      else m
    else
      m.(menuIdx := (m.menuIdx + CursorDelta(pressed)) % count)
  }

  /** `title::update`: START requests the game, EXIT the exit sentinel. */
  function TitleUpdate(m: Menu, pressed: set<Key>): (r: Menu)
    ensures Selected(pressed) && m.menuIdx == 0 ==> r == m.(pmode := Dispatch.GAME_ID)
    ensures Selected(pressed) && m.menuIdx == 1 ==> r == m.(pmode := Dispatch.EXIT_ID)
    ensures !Selected(pressed) ==> r.pmode == m.pmode && r.menuIdx < TITLE_ITEM_COUNT
    ensures !Selected(pressed) && CursorDelta(pressed) in {-1, 1} ==> r.menuIdx == 1 - m.menuIdx % 2
    ensures !Selected(pressed) && CursorDelta(pressed) in {-2, 0, 2} ==> r.menuIdx == m.menuIdx % 2
  {
    MenuUpdate(m, pressed, TITLE_ITEM_COUNT, Dispatch.GAME_ID, Dispatch.EXIT_ID)
  }

  /** `reset::update`: REPLAY requests the game, EXIT the title screen. */
  function ResetUpdate(m: Menu, pressed: set<Key>): (r: Menu)
    ensures Selected(pressed) && m.menuIdx == 0 ==> r == m.(pmode := Dispatch.GAME_ID)
    ensures Selected(pressed) && m.menuIdx == 1 ==> r == m.(pmode := Dispatch.TITLE_ID)
    ensures !Selected(pressed) ==> r.pmode == m.pmode && r.menuIdx < RESET_ITEM_COUNT
    ensures !Selected(pressed) && CursorDelta(pressed) in {-1, 1} ==> r.menuIdx == 1 - m.menuIdx % 2
    ensures !Selected(pressed) && CursorDelta(pressed) in {-2, 0, 2} ==> r.menuIdx == m.menuIdx % 2
  {
    MenuUpdate(m, pressed, RESET_ITEM_COUNT, Dispatch.GAME_ID, Dispatch.TITLE_ID)
  }

  /** 2^32, the modulus of an unsigned 32-bit cursor; the type of
      `menuIdx` is not part of this model. */
  const UINT32_MODULUS: int := 0x1_0000_0000

  /** The cursor step as it would run on an unsigned 32-bit `menuIdx`: the
      sum wraps modulo 2^32 before the `% count`. */
  function CursorStepUint32(idx: nat, delta: int, count: nat): nat
    requires count > 0
  {
    ((idx + delta) % UINT32_MODULUS) % count
  }

  /** With two items the 32-bit wrap-around is invisible: for any 32-bit
      cursor and any summed presses the unsigned step agrees with the
      mathematical remainder, also when the cursor moves up from item 0. */
  lemma CursorStepAgreesWithUint32(idx: nat, delta: int)
    requires idx < UINT32_MODULUS && -2 <= delta <= 2
    ensures CursorStepUint32(idx, delta, 2) == (idx + delta) % 2
  {
    var v := idx + delta;
    if v < 0 {
      assert v % UINT32_MODULUS == v + UINT32_MODULUS;
    } else if v >= UINT32_MODULUS {
      assert v % UINT32_MODULUS == v - UINT32_MODULUS;
    } else {
      assert v % UINT32_MODULUS == v;
    }
  }

  /** A run of title-menu ticks from the title's init. */
  function TitleRun(m: Menu, presses: seq<set<Key>>): Menu
    decreases |presses|
  {
    if |presses| == 0 then m else TitleRun(TitleUpdate(m, presses[0]), presses[1..])
  }

  /** From the title's init, the cursor always highlights one of the two
      items, so the pending mode is only ever the one it started with, the
      game, or the exit sentinel. */
  lemma {:induction false} TitleRunStaysOnItems(m: Menu, presses: seq<set<Key>>)
    requires m.menuIdx < TITLE_ITEM_COUNT
    ensures TitleRun(m, presses).menuIdx < TITLE_ITEM_COUNT
    ensures TitleRun(m, presses).pmode in {m.pmode, Dispatch.GAME_ID, Dispatch.EXIT_ID}
    decreases |presses|
  {
    if |presses| > 0 {
      var m1 := TitleUpdate(m, presses[0]);
      TitleRunStaysOnItems(m1, presses[1..]);
      if m1.pmode != m.pmode {
        assert m1.pmode in {Dispatch.GAME_ID, Dispatch.EXIT_ID};
      }
    }
  }
}
