/** What every part of the model shares. */
module Basics {

  datatype Option<+T> = None | Some(value: T)

  /** One past the largest 64-bit word. */
  const WORD: nat := 0x1_0000_0000_0000_0000

  /** One past the largest signed 64-bit number. */
  const HALF_WORD: int := 0x8000_0000_0000_0000

  /** A number that a signed 64-bit word holds. */
  predicate IsLong(x: int) {
    -HALF_WORD <= x < HALF_WORD
  }

  /** What a signed 64-bit word holds after x is stored in it. */
  function ToLong(x: int): (r: int)
    ensures IsLong(r) && (IsLong(x) ==> r == x) && (r - x) % WORD == 0
  {
    (x + HALF_WORD) % WORD - HALF_WORD
  }
}
