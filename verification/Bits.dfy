/** Bytes as numbers and as words of eight bits. */
module Bits {

  lemma AsNumber(v: bv8)
    ensures (v as int) as bv8 == v
  {
  }

  lemma Halves(v: bv8)
    ensures v as int == 2 * ((v >> 1) as int) + (v & 1) as int
    ensures v & 1 == 0 || v & 1 == 1
  {
  }

  lemma Doubled(w: bv8, bit: bv8)
    requires w < 128 && bit <= 1
    ensures ((w << 1) | bit) as int == 2 * (w as int) + bit as int
  {
    var v := (w << 1) | bit;
    assert v >> 1 == w && v & 1 == bit;
    Halves(v);
  }

  function PowerOfTwo(n: nat): nat {
    if n == 0 then 1 else 2 * PowerOfTwo(n - 1)
  }

  lemma Small(u: bv8)
    requires u as int < 128
    ensures u < 128
  {
  }

  /** The word with value x, bit by bit. */
  lemma {:induction false} WordOf(x: int, n: nat) returns (w: bv8)
    requires 0 <= x < 256 && n <= 8 && x < PowerOfTwo(n)
    ensures w as int == x
    decreases n
  {
    if n == 0 {
      w := 0;
    } else {
      var u := WordOf(x / 2, n - 1);
      Small(u);
      var bit: bv8 := if x % 2 == 0 then 0 else 1;
      Doubled(u, bit);
      w := (u << 1) | bit;
    }
  }

  lemma EightBits()
    ensures PowerOfTwo(8) == 256
  {
    assert PowerOfTwo(4) == 16;
  }

  lemma AsWord(x: int)
    requires 0 <= x < 256
    ensures (x as bv8) as int == x
  {
    EightBits();
    var w := WordOf(x, 8);
    AsNumber(w);
  }

  lemma XorParts(v: bv8, w: bv8)
    ensures (v ^ w) & 1 == (v & 1) ^ (w & 1) && (v ^ w) >> 1 == (v >> 1) ^ (w >> 1)
  {
  }

  lemma OneBit(v: bv8, w: bv8)
    requires (v == 0 || v == 1) && (w == 0 || w == 1)
    ensures (v ^ w) as int == (v as int + w as int) % 2
  {
  }

  lemma LowBit(v: bv8)
    ensures v as int % 2 == (v & 1) as int
  {
    Halves(v);
  }

  lemma HighBits(v: bv8)
    ensures v as int / 2 == (v >> 1) as int
  {
    Halves(v);
  }

  lemma XorLowBit(v: bv8, w: bv8)
    ensures (v ^ w) as int % 2 == (v as int % 2 + w as int % 2) % 2
  {
    XorParts(v, w);
    LowBit(v);
    LowBit(w);
    LowBit(v ^ w);
    Halves(v);
    Halves(w);
    OneBit(v & 1, w & 1);
  }

  lemma XorHighBits(v: bv8, w: bv8)
    ensures (v ^ w) as int / 2 == ((v >> 1) ^ (w >> 1)) as int
  {
    XorParts(v, w);
    HighBits(v ^ w);
  }

  /** Halving a byte shifts its word. */
  lemma Shifted(x: int)
    requires 0 <= x < 256
    ensures (x / 2) as bv8 == (x as bv8) >> 1
  {
    AsWord(x);
    HighBits(x as bv8);
    AsNumber((x as bv8) >> 1);
  }
}
