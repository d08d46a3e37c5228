/** 32-bit unsigned arithmetic. */
module Words {

  function U32(x: int): (r: nat)
    ensures r < 0x1_0000_0000
  {
    x % 0x1_0000_0000
  }

  lemma U32Small(x: nat)
    requires x < 0x1_0000_0000
    ensures U32(x) == x
  {
  }

  lemma U32Negative(x: int)
    requires -0x1_0000_0000 <= x < 0
    ensures U32(x) == 0x1_0000_0000 + x
  {
  }

  lemma U32Period(x: int)
    ensures U32(0x1_0000_0000 + x) == U32(x)
  {
  }
}
