/** Fixed-width machine integers of the CHIP-8 state, as the C++ source declares
    them (uint8_t, uint16_t), and the bit operations its handlers use. Values are
    unbounded integers constrained to their width; every wrap-around is written
    out with Wrap8 / Wrap16 where the source relies on it. */
module Bits {

  /** uint8_t */
  type u8 = x: int | 0 <= x < 0x100
  /** uint16_t */
  type u16 = x: int | 0 <= x < 0x1_0000
  /** A 4-bit field of an instruction word (register number, sprite height). */
  type Nibble = x: int | 0 <= x < 0x10
  /** The 12-bit address field `nnn` of an instruction word. */
  type Addr = x: int | 0 <= x < 0x1000

  /** Assignment of an int to a uint8_t: reduction modulo 256. */
  function Wrap8(n: int): (r: u8)
    ensures 0 <= n < 0x100 ==> r == n
    ensures (r - n) % 0x100 == 0
  {
    n % 0x100
  }

  /** Assignment of an int to a uint16_t: reduction modulo 65536. */
  function Wrap16(n: int): (r: u16)
    ensures 0 <= n < 0x1_0000 ==> r == n
    ensures (r - n) % 0x1_0000 == 0
  {
    n % 0x1_0000
  }

  function Or8(a: u8, b: u8): u8
  {
    ((a as bv8) | (b as bv8)) as u8
  }

  /** Bitwise AND of two naturals, one bit at a time from the least
      significant: a result bit is set only where both operand bits are. */
  function And(a: nat, b: nat): (r: nat)
    ensures r <= a && r <= b
    decreases a
  {
    if a == 0 || b == 0 then 0
    else 2 * And(a / 2, b / 2) + (if a % 2 == 1 && b % 2 == 1 then 1 else 0)
  }

  function And8(a: u8, b: u8): u8
  {
    And(a, b)
  }

  /** Masking twice with the same mask is masking once. */
  lemma {:induction false} AndIdempotent(a: nat, b: nat)
    ensures And(And(a, b), b) == And(a, b)
    decreases a
  {
    var c := And(a, b);
    if a != 0 && b != 0 && c != 0 {
      AndIdempotent(a / 2, b / 2);
      assert c / 2 == And(a / 2, b / 2);
      assert c % 2 == (if a % 2 == 1 && b % 2 == 1 then 1 else 0);
    }
  }

  /** Bit-vector facts behind `AndBv8Step`, each small enough to check on
      its own. */
  lemma SplitLowBit(A: bv8, B: bv8)
    ensures A & B == ((A >> 1) & (B >> 1)) * 2 + (A & B & 1)
  {
  }

  lemma HalfIsShift(a: u8)
    ensures (a / 2) as bv8 == (a as bv8) >> 1
  {
  }

  lemma DoublePlusBit(H: bv8, L: bv8)
    requires H < 128 && L < 2
    ensures (H * 2 + L) as nat == 2 * H as nat + L as nat
  {
  }

  lemma LowBitAnd(a: u8, b: u8)
    ensures ((a as bv8) & (b as bv8) & 1) as nat == (if a % 2 == 1 && b % 2 == 1 then 1 else 0)
  {
  }

  /** One step of `And`: the bv8 AND of two bytes is twice the AND of their
      upper seven bits plus the AND of their low bits. */
  lemma AndBv8Step(a: u8, b: u8)
    ensures ((a as bv8) & (b as bv8)) as nat ==
            2 * (((a / 2) as bv8) & ((b / 2) as bv8)) as nat + (if a % 2 == 1 && b % 2 == 1 then 1 else 0)
  {
    var A, B := a as bv8, b as bv8;
    SplitLowBit(A, B);
    HalfIsShift(a);
    HalfIsShift(b);
    DoublePlusBit((A >> 1) & (B >> 1), A & B & 1);
    LowBitAnd(a, b);
  }

  /** The arithmetic `And8` of 8xy2 and Cxkk is the byte operator `&`, the
      same bv8 operator `Or8` and `Xor8` use. */
  lemma {:induction false} And8IsBitwise(a: u8, b: u8)
    ensures And8(a, b) == ((a as bv8) & (b as bv8)) as u8
    decreases a
  {
    if a == 0 || b == 0 {
      assert (a as bv8) & (b as bv8) == 0;
    } else {
      And8IsBitwise(a / 2, b / 2);
      AndBv8Step(a, b);
    }
  }

  function Xor8(a: u8, b: u8): u8
  {
    ((a as bv8) ^ (b as bv8)) as u8
  }

  /** `b & (0x80 >> col)` is non-zero: the pixel in column `col` of a sprite row,
      most significant bit first. */
  predicate BitAt(b: u8, col: nat)
    requires col < 8
  {
    (b as bv8) & ((0x80 as bv8) >> col) != 0
  }
}
