/** Two-component real vectors standing in for the game's `vec2f32_t`
    (float32 rounding is not modelled) and the constants of `ssn_consts.h`. */
module Vectors {

  datatype Vec2 = Vec2(x: real, y: real)

  const Zero: Vec2 := Vec2(0.0, 0.0)

  function Add(u: Vec2, v: Vec2): Vec2 {
    Vec2(u.x + v.x, u.y + v.y)
  }

  function Sub(u: Vec2, v: Vec2): Vec2 {
    Vec2(u.x - v.x, u.y - v.y)
  }

  /** Scalar multiple `k * v`. */
  function Scale(k: real, v: Vec2): Vec2 {
    Vec2(k * v.x, k * v.y)
  }

  /** Squared Euclidean length; lengths themselves need a square root, which
      reals in this model do not have, so properties are stated squared. */
  function NormSq(v: Vec2): real {
    v.x * v.x + v.y * v.y
  }

  /** `len` is the Euclidean length of `v`. */
  ghost predicate IsLength(len: real, v: Vec2) {
    len >= 0.0 && len * len == NormSq(v)
  }
}

module Consts {

  /** `ssn::MAX_HIT_TIME`: how long (seconds) the game freezes after a hit. */
  const MAX_HIT_TIME: real := 0.3

  /** `ssn::team::team_e`. */
  datatype Team = Left | Right | Neutral

  /** The enum's integer value, used to index per-team vectors. */
  function TeamIndex(t: Team): (i: nat)
    ensures i < 3
    ensures t == Left <==> i == 0
    ensures t == Right <==> i == 1
  {
    match t
    case Left => 0
    case Right => 1
    case Neutral => 2
  }

  /** A team that may own a claimed area: the score vector has only a left
      and a right slot, so a neutral owner would index past its end. */
  type ClaimTeam = t: Team | t != Neutral witness Left
}

module Options {
  datatype Option<+T> = None | Some(value: T)
}
