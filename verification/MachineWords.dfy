/** 32-bit machine words. */
module MachineWords {
  import opened Bits

  const WORD32: nat := 0x1_0000_0000
  const WORD64: nat := 0x1_0000_0000_0000_0000

  type word = x: int | 0 <= x < 0x1_0000_0000

  lemma {:induction false} Word32()
    ensures Pow2(32) == WORD32
  {
    Pow2Add(16, 16);
    Pow2Values();
  }

  function Add(a: word, b: word): word { (a + b) % WORD32 }

  function XorWord(a: word, b: word): word {
    Word32();
    XorBound(a, b, 32);
    Xor(a, b)
  }

  lemma {:induction false} ShrAtMost(x: nat, n: nat)
    ensures Shr(x, n) <= x
  {
    if n > 0 { ShrAtMost(x / 2, n - 1); }
  }

  function ShiftRight(x: word, n: nat): word {
    ShrAtMost(x, n);
    Shr(x, n)
  }

  /** x << n in 32 bits. */
  function ShiftLeft(x: word, n: nat): word {
    Word32();
    LowBound(Shl(x, n), 32);
    Low(Shl(x, n), 32)
  }

  function OrWord(a: word, b: word): word {
    Word32();
    OrBound(a, b, 32);
    Or(a, b)
  }

  function RotateLeft(x: word, n: nat): word
    requires 0 < n < 32
  {
    OrWord(ShiftLeft(x, n), ShiftRight(x, 32 - n))
  }

  function RotateRight(x: word, n: nat): word
    requires 0 < n < 32
  {
    OrWord(ShiftRight(x, n), ShiftLeft(x, 32 - n))
  }
}
