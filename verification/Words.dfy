/**
 Fixed-width machine words as bounded naturals, and the signed reading that a C
 cast to int16_t or int32_t gives a difference of two words.
 */
module Words {

  const WRAP16: int := 0x1_0000
  const WRAP32: int := 0x1_0000_0000
  const WRAP64: int := 0x1_0000_0000_0000_0000

  type Byte = b: int | 0 <= b < 0x100
  type Word16 = w: int | 0 <= w < 0x1_0000
  type Word32 = w: int | 0 <= w < 0x1_0000_0000
  type Word64 = w: int | 0 <= w < 0x1_0000_0000_0000_0000

  datatype Option<+T> = None | Some(value: T)

  /** The value of the C expression (int16_t) x. */
  function Signed16(x: int): (d: int)
    ensures -32768 <= d <= 32767 && (d - x) % WRAP16 == 0
  {
    var m := x % WRAP16;
    if m < 32768 then m else m - WRAP16
  }

  /** The value of the C expression (int32_t) x. */
  function Signed32(x: int): (d: int)
    ensures -0x8000_0000 <= d <= 0x7FFF_FFFF && (d - x) % WRAP32 == 0
  {
    var m := x % WRAP32;
    if m < 0x8000_0000 then m else m - WRAP32
  }

  function Max(a: int, b: int): int {
    if a < b then b else a
  }

  function Min(a: int, b: int): int {
    if a < b then a else b
  }

  /** Quotient and remainder are the only ones that fit. */
  lemma DivModIs(y: int, m: int, k: int, r: int)
    requires 0 <= r < m && y == k * m + r
    ensures y / m == k && y % m == r
  {
    var d := y / m - k;
    assert d * m == r - y % m;
    assert d >= 1 ==> d * m >= m;
    assert d <= -1 ==> d * m <= -m;
  }
}
