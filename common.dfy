/** Value types shared by the game-state, moving-platform and reconciliation models. */
module Common {
  datatype Option<+T> = None | Some(value: T)

  /** The opaque, serialisable state a game object reports about itself. */
  type Payload = seq<int>

  function Max(a: real, b: real): (m: real)
    ensures m >= a && m >= b && (m == a || m == b)
  {
    if a >= b then a else b
  }

  function Abs(x: real): (r: real)
    ensures r >= 0.0 && (r == x || r == -x)
  {
    if x >= 0.0 then x else -x
  }
}
