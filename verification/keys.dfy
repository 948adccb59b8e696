/** The keyboard as the modes read it: which keys are held this tick
    (`isKeyDown`) and which went down this tick (`isKeyPressed`). Binding
    physical keys and polling devices are not part of this model. */
module Keys {

  /** The scancodes the modes look at. */
  datatype Key = KeyW | KeyS | KeyA | KeyD | KeyE | KeyT | KeyI | KeyK | KeyL

  datatype Input = Input(down: set<Key>, pressed: set<Key>)

  /** One axis read from a pair of opposing keys: +1 for `plus`, -1 for
      `minus`, and the two cancel. */
  function Axis(keys: set<Key>, plus: Key, minus: Key): (d: int)
    ensures -1 <= d <= 1
    ensures d == 1 <==> plus in keys && minus !in keys
    ensures d == -1 <==> minus in keys && plus !in keys
    ensures plus != minus ==> (d == 0 <==> (plus in keys <==> minus in keys))
  {
    (if plus in keys then 1 else 0) - (if minus in keys then 1 else 0)
  }
}
