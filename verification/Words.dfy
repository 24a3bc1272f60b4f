/**
 Fixed-width unsigned integers of the C source, as subset types of `int`.
 Wrap-around is always written out with `%` where the source relies on it.
 */
module Words {
  const TWO_64: int := 0x1_0000_0000_0000_0000
  const TWO_256: int :=
    0x1_0000_0000_0000_0000_0000_0000_0000_0000_0000_0000_0000_0000_0000_0000_0000_0000

  type u8 = x: int | 0 <= x < 0x100
  type u32 = x: int | 0 <= x < 0x1_0000_0000
  type u64 = x: int | 0 <= x < 0x1_0000_0000_0000_0000
  type u256 = x: int | 0 <= x <
    0x1_0000_0000_0000_0000_0000_0000_0000_0000_0000_0000_0000_0000_0000_0000_0000_0000

  datatype Option<+T> = None | Some(value: T)

  function Max(a: int, b: int): int { if a < b then b else a }
  function Min(a: int, b: int): int { if a < b then a else b }

  lemma WrapAdd(x: nat, y: nat)
    ensures (x % TWO_256 + y) % TWO_256 == (x + y) % TWO_256
  {
    var q := x / TWO_256;
    assert x == q * TWO_256 + x % TWO_256;
    var z := x % TWO_256 + y;
    assert x + y == (q + z / TWO_256) * TWO_256 + z % TWO_256;
  }
}
