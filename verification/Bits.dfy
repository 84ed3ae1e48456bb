/** The bit-field macros of bmi2_defs.h and the little-endian words of a feature page. */
module Bits {

  /** BMI2_SET_BITS on sixteen bits; BMI2_SET_BIT_POS0 is the case of position 0. */
  function SetBits(reg: bv16, mask: bv16, pos: bv4, data: bv16): bv16 {
    (reg & !mask) | ((data << pos) & mask)
  }

  /** BMI2_GET_BITS on sixteen bits. */
  function GetBits(reg: bv16, mask: bv16, pos: bv4): bv16 {
    Down(reg & mask, pos)
  }

  function Down(x: bv16, pos: bv4): bv16 {
    x >> pos
  }

  /** A field reads back as the written value cut to the width of the field, at every position a field
      of a feature page has. */
  lemma GetAfterSet(reg: bv16, mask: bv16, pos: bv4, data: bv16)
    requires pos == 0 || pos == 4 || pos == 10 || pos == 13 || pos == 14 || pos == 15
    ensures GetBits(SetBits(reg, mask, pos, data), mask, pos) == data & (mask >> pos)
  {
    if pos == 0 {
    } else if pos == 4 {
    } else if pos == 10 {
    } else if pos == 13 {
    } else if pos == 14 {
    }
  }

  function Word(lo: bv8, hi: bv8): bv16 {
    (lo as bv16) | ((hi as bv16) << 8)
  }

  function Low(w: bv16): bv8 {
    (w & 0xFF) as bv8
  }

  function High(w: bv16): bv8 {
    (w >> 8) as bv8
  }

  /** The same macros on a single byte. */
  function SetByteBits(reg: bv8, mask: bv8, pos: bv3, data: bv8): bv8 {
    (reg & !mask) | ((data << pos) & mask)
  }

  function GetByteBits(reg: bv8, mask: bv8, pos: bv3): bv8 {
    (reg & mask) >> pos
  }

  /** A byte's value survives the conversion. */
  lemma ByteKept(x: nat)
    requires x < 256
    ensures (x as bv8) as nat == x
  {
    ByteModulo(x);
    var b := x as bv8;
    Below256(b as nat, x);
  }

  lemma Below256(a: nat, b: nat)
    requires a < 256 && b < 256 && a % 256 == b % 256
    ensures a == b
  {
  }

  lemma ByteModulo(x: nat)
    requires x < 256
    ensures (x as bv8) as nat % 256 == x % 256
  {
  }
}
