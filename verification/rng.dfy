/**
 * The procedural content of a cell that has never been touched (src/rng.ts).
 * The source hashes the id into `seed = x*73856093 ^ y*19349663` and scales
 * `Math.sin(seed)`; that floating-point part is the parameter `noise`. What
 * follows it, taking the fractional part and classifying by thresholds, is
 * modelled exactly.
 */
module Rng {
  import opened Wrappers
  import opened State

  /** `Math.sin(seed(id)) * 43758.5453123`, for each cell id. */
  type Noise = CellId -> real

  /** `x - Math.floor(x)`. */
  function Frac(x: real): (r: real)
    ensures 0.0 <= r < 1.0
    ensures (x - r).Floor as real == x - r
  {
    x - x.Floor as real
  }

  function Luck(noise: Noise, id: CellId): (r: real)
    ensures 0.0 <= r < 1.0
  {
    Frac(noise(id))
  }

  /** The threshold classification of a roll. */
  function TokenForRoll(r: real): (t: Option<Token>)
    ensures t.None? <==> r < 0.5
    ensures t.Some? ==> t.value.value in {1, 2, 4}
  {
    if r < 0.5 then None
    else if r < 0.8 then Some(Token(1))
    else if r < 0.95 then Some(Token(2))
    else Some(Token(4))
  }

  /** A token's value, with an absent token counted as 0. */
  function TokenValue(t: Option<Token>): int {
    match t
    case Some(tok) => tok.value
    case None => 0
  }

  /** Which value each band of rolls yields. */
  lemma TokenForRollBands(r: real)
    ensures 0.5 <= r < 0.8 ==> TokenForRoll(r) == Some(Token(1))
    ensures 0.8 <= r < 0.95 ==> TokenForRoll(r) == Some(Token(2))
    ensures 0.95 <= r ==> TokenForRoll(r) == Some(Token(4))
  {
  }

  /** A larger roll never yields a smaller value. */
  lemma TokenForRollMonotone(r1: real, r2: real)
    requires r1 <= r2
    ensures TokenValue(TokenForRoll(r1)) <= TokenValue(TokenForRoll(r2))
  {
  }

  function BaseTokenForCell(noise: Noise, id: CellId): (t: Option<Token>)
    ensures t.Some? ==> t.value.value > 0
  {
    TokenForRoll(Luck(noise, id))
  }

  /** The untouched content of cell `id`. */
  function BaseCell(noise: Noise, id: CellId): (c: Cell)
    ensures c.id == id
    ensures c.token.Some? ==> c.token.value.value in {1, 2, 4}
  {
    Cell(id, BaseTokenForCell(noise, id))
  }

  /** The content depends on the hash at `id` alone, so it is the same on every call. */
  lemma BaseCellDependsOnlyOnOwnNoise(n1: Noise, n2: Noise, id: CellId)
    requires n1(id) == n2(id)
    ensures BaseCell(n1, id) == BaseCell(n2, id)
  {
  }
}
