/** The bit writer and the bit reader of lodepng.c, over a growing byte vector and over an
    input buffer with a 32-bit look-ahead word. */
module BitStream {
  import opened Bits

  // ---------------------------------------------------------------- writer

  lemma {:induction false} LsbAppend(v: nat, k: nat, b: bit, n: nat)
    requires v < Pow2(k) && k < n
    ensures v + Shl(b, k) < Pow2(k + 1)
    ensures LsbBits(v + Shl(b, k), n)[..k + 1] == LsbBits(v, n)[..k] + [b]
  {
    if k == 0 {
      assert LsbBits(v + Shl(b, k), n)[0] == b;
    } else {
      LsbAppend(v / 2, k - 1, b, n - 1);
      var w := v + Shl(b, k);
      assert w % 2 == v % 2 && w / 2 == v / 2 + Shl(b, k - 1);
      assert LsbBits(w, n)[..k + 1] == [w % 2] + LsbBits(w / 2, n - 1)[..k];
      assert LsbBits(v, n)[..k] == [v % 2] + LsbBits(v / 2, n - 1)[..k - 1];
    }
  }

  /** Setting bit k of the last byte appends one bit to the stream. */
  lemma {:induction false} AppendBit(front: seq<byte>, last: byte, k: nat, b: bit)
    requires k < 8 && last < Pow2(k)
    ensures last + Shl(b, k) < 256 && last + Shl(b, k) < Pow2(k + 1)
    ensures StreamBits(front + [last + Shl(b, k)])[..8 * |front| + k + 1]
         == StreamBits(front + [last])[..8 * |front| + k] + [b]
  {
    LsbAppend(last, k, b, 8);
    Pow2Mono(k + 1, 8);
    Pow2Values();
    StreamBitsTake(front, last, k);
    StreamBitsTake(front, last + Shl(b, k), k + 1);
  }

  lemma {:induction false} StreamBitsTake(front: seq<byte>, last: byte, k: nat)
    requires k <= 8
    ensures StreamBits(front + [last])[..8 * |front| + k] == StreamBits(front) + LsbBits(last, 8)[..k]
  {
    StreamBitsConcat(front, [last]);
    assert StreamBits([last]) == LsbBits(last, 8);
  }

  lemma {:induction false} LastByte(bp: nat, len: nat)
    requires bp <= 8 * len < bp + 8
    ensures if bp % 8 == 0 then bp == 8 * len else bp == 8 * (len - 1) + bp % 8
    ensures (bp + 1) % 8 == if bp % 8 == 7 then 0 else bp % 8 + 1
  {
  }

  lemma {:induction false} NextBit(n: nat, k: nat)
    requires k < 8
    ensures (8 * n + k + 1) % 8 == if k == 7 then 0 else k + 1
  {
  }

  class BitWriter {
    var data: seq<byte>
    var bp: nat

    /** The bytes hold exactly bp bits and the unused bits of the last byte are zero. */
    ghost predicate Valid()
      reads this
    {
      bp <= 8 * |data| < bp + 8 && (bp % 8 != 0 ==> data[|data| - 1] < Pow2(bp % 8))
    }

    ghost function Written(): (s: seq<bit>)
      requires Valid()
      reads this
    {
      StreamBits(data)[..bp]
    }

    constructor ()
      ensures Valid() && Written() == []
    {
      data, bp := [], 0;
    }

    /** A new last byte. */
    method AddByte()
      requires bp == 8 * |data|
      modifies this`data
      ensures data == old(data) + [0] && StreamBits(data)[..bp] == StreamBits(old(data))
    {
      StreamBitsConcat(data, [0]);
      data := data + [0];
    }

    method WriteBit(b: bit)
      requires Valid()
      modifies this
      ensures Valid() && Written() == old(Written()) + [b]
    {
      LastByte(bp, |data|);
      if bp % 8 == 0 { AddByte(); }
      SetLastBit(b);
    }

    /** Puts a bit into the last byte, where there is room. */
    method SetLastBit(b: bit)
      requires data != [] && bp == 8 * (|data| - 1) + bp % 8 && data[|data| - 1] < Pow2(bp % 8)
      modifies this
      ensures Valid() && Written() == old(StreamBits(data)[..bp]) + [b]
    {
      var k, front, last := bp % 8, data[..|data| - 1], data[|data| - 1];
      OrDisjoint(last, b, k);
      AppendBit(front, last, k, b);
      assert data == front + [last];
      data := front + [Or(last, Shl(b, k))];
      bp := bp + 1;
      NextBit(|front|, k);
    }

    /** Least-significant bit first. */
    method WriteBits(value: nat, nbits: nat)
      requires Valid()
      requires nbits == 1 ==> value < 2
      modifies this
      ensures Valid() && Written() == old(Written()) + LsbBits(value, nbits)
    {
      if nbits == 1 {
        WriteBit(value);
        assert LsbBits(value, 1) == [value];
      } else {
        ghost var before := Written();
        var i, v := 0, value;
        while i != nbits
          invariant i <= nbits && Valid()
          invariant Written() + LsbBits(v, nbits - i) == before + LsbBits(value, nbits)
        {
          WriteBit(v % 2);
          i, v := i + 1, v / 2;
        }
      }
    }

    /** Most-significant bit first, for Huffman codes. */
    method WriteBitsReversed(value: nat, nbits: nat)
      requires Valid()
      modifies this
      ensures Valid() && Written() == old(Written()) + MsbBits(value, nbits)
    {
      ghost var before := Written();
      var i := 0;
      while i != nbits
        invariant i <= nbits && Valid()
        invariant Written() == before + MsbBits(value, nbits)[..i]
      {
        MsbBitsAt(value, nbits, i);
        WriteBit(Shr(value, nbits - 1 - i) % 2);
        i := i + 1;
      }
    }
  }

  // ---------------------------------------------------------------- reader

  /** Byte i of the input, or zero after its end. */
  function ByteAt(data: seq<byte>, i: nat): byte {
    if i < |data| then data[i] else 0
  }

  /** n bytes as a little-endian number. */
  function Little(data: seq<byte>, start: nat, n: nat): nat
    decreases n, data
  {
    if n == 0 then 0 else ByteAt(data, start) + 256 * Little(data, start + 1, n - 1)
  }

  lemma {:induction false} ByteWindow(data: seq<byte>, i: nat)
    ensures Window(StreamBits(data), 8 * i, 8) == ByteAt(data, i)
  {
    if i < |data| {
      StreamBitsDrop(data, i);
      assert LsbBits(data[i], 8) <= StreamBits(data)[8 * i..];
      WindowIs(StreamBits(data), 8 * i, LsbBits(data[i], 8));
      ValLsbBits(data[i], 8);
      Pow2Values();
      LowSmall(data[i], 8);
    }
  }

  lemma {:induction false} LittleIsWindow(data: seq<byte>, start: nat, n: nat)
    ensures Little(data, start, n) == Window(StreamBits(data), 8 * start, 8 * n)
    decreases n
  {
    var s := StreamBits(data);
    if n == 0 {
      WindowBound(s, 8 * start, 0);
    } else {
      LittleIsWindow(data, start + 1, n - 1);
      ByteWindow(data, start);
      WindowPrefix(s, 8 * start, 8, 8 * n);
      WindowDrop(s, 8 * start, 8, 8 * n);
      ShrLowSplit(Window(s, 8 * start, 8 * n), 8);
      ShlIsMul(Little(data, start + 1, n - 1), 8);
      Pow2Values();
    }
  }

  /** n bytes or-ed together after shifting byte i up by 8 * i. Bytes after the end of the
      input contribute nothing, as in the tail branches of the ensureBits functions. */
  function Word(data: seq<byte>, start: nat, n: nat): nat {
    if n == 0 then 0 else Or(Word(data, start, n - 1), Shl(ByteAt(data, start + n - 1), 8 * (n - 1)))
  }

  lemma {:induction false} WordIsLittle(data: seq<byte>, start: nat, n: nat)
    ensures Word(data, start, n) == Little(data, start, n)
  {
    if n > 0 {
      WordIsLittle(data, start, n - 1);
      LittleSnoc(data, start, n - 1);
      OrDisjoint(Little(data, start, n - 1), ByteAt(data, start + n - 1), 8 * (n - 1));
    }
  }

  lemma {:induction false} LittleSnoc(data: seq<byte>, start: nat, n: nat)
    ensures Little(data, start, n) < Pow2(8 * n)
    ensures Little(data, start, n + 1) == Little(data, start, n) + Shl(ByteAt(data, start + n), 8 * n)
    decreases n
  {
    if n > 0 {
      LittleSnoc(data, start + 1, n - 1);
      Pow2Byte(8 * (n - 1));
      ShlByte(ByteAt(data, start + n), 8 * (n - 1));
    } else {
      assert Little(data, start + 1, 0) == 0;
    }
  }

  lemma {:induction false} Pow2Byte(n: nat)
    ensures Pow2(n + 8) == 256 * Pow2(n)
  {
    Pow2Add(8, n);
    Pow2Values();
  }

  lemma {:induction false} ShlByte(v: nat, n: nat)
    ensures Shl(v, n + 8) == 256 * Shl(v, n)
  {
    ShlIsMul(v, n);
    ShlIsMul(v, n + 8);
    Pow2Byte(n);
    Times256(v, Pow2(n));
  }

  lemma {:induction false} Times256(v: nat, p: nat)
    ensures v * (256 * p) == 256 * (v * p)
  {
  }

  class BitReader {
    const data: seq<byte>
    ghost const stream: seq<bit>
    var bp: nat
    var buffer: nat

    constructor (data: seq<byte>)
      ensures Valid() && this.data == data && bp == 0 && buffer == 0
    {
      this.data := data;
      stream := StreamBits(data);
      bp, buffer := 0, 0;
    }

    ghost predicate Valid() { stream == StreamBits(data) }

    /** Peeking at m bits gives the next m bits of the stream. */
    ghost predicate PeekRight(m: nat)
      reads this
    {
      Low(buffer, m) == Window(stream, bp, m)
    }

    /** The look-ahead word is right in its n low bits. */
    ghost predicate Agrees(n: nat)
      reads this
    {
      forall m: nat :: m <= n ==> PeekRight(m)
    }

    lemma {:induction false} AgreesFrom(n: nat)
      requires PeekRight(n)
      ensures Agrees(n)
    {
      forall m: nat | m <= n ensures PeekRight(m) {
        LowLow(buffer, m, n);
        WindowPrefix(stream, bp, m, n);
      }
    }

    /** The n bytes at bp, shifted down to bp, agree with the stream. */
    lemma {:induction false} Loaded(n: nat, k: nat)
      requires Valid() && n > 0 && k <= 8 * n - bp % 8
      requires buffer == Shr(Word(data, bp / 8, n), bp % 8)
      ensures Agrees(k)
    {
      WordIsLittle(data, bp / 8, n);
      LittleIsWindow(data, bp / 8, n);
      WindowDrop(stream, 8 * (bp / 8), bp % 8, 8 * n);
      WindowPrefix(stream, bp, k, 8 * n - bp % 8);
      WindowBound(stream, bp, 8 * n - bp % 8);
      LowSmall(buffer, 8 * n - bp % 8);
      assert PeekRight(k);
      AgreesFrom(k);
    }

    method EnsureBits9(nbits: nat) returns (ok: bool)
      requires Valid()
      modifies this`buffer
      ensures ok <==> bp / 8 + 1 < |data| || bp + nbits < 8 * |data|
      ensures Agrees(9)
    {
      buffer := Shr(Word(data, bp / 8, 2), bp % 8);
      Loaded(2, 9);
      ok := if bp / 8 + 1 < |data| then true else bp + nbits < 8 * |data|;
    }

    method EnsureBits17(nbits: nat) returns (ok: bool)
      requires Valid()
      modifies this`buffer
      ensures ok <==> bp / 8 + 2 < |data| || bp + nbits < 8 * |data|
      ensures Agrees(17)
    {
      buffer := Shr(Word(data, bp / 8, 3), bp % 8);
      Loaded(3, 17);
      ok := if bp / 8 + 2 < |data| then true else bp + nbits < 8 * |data|;
    }

    method EnsureBits25(nbits: nat) returns (ok: bool)
      requires Valid()
      modifies this`buffer
      ensures ok <==> bp / 8 + 3 < |data| || bp + nbits < 8 * |data|
      ensures Agrees(25)
    {
      buffer := Shr(Word(data, bp / 8, 4), bp % 8);
      Loaded(4, 25);
      ok := if bp / 8 + 3 < |data| then true else bp + nbits < 8 * |data|;
    }

    /** The fifth byte is spliced in one position too low, so bit 31 - bp % 8 and the bits
        above it are not reliable; see EnsureBits32Exact. */
    method EnsureBits32(nbits: nat) returns (ok: bool)
      requires Valid()
      modifies this`buffer
      ensures ok <==> bp / 8 + 4 < |data| || bp + nbits < 8 * |data|
      ensures buffer == LookAhead32(data, bp)
      ensures Agrees(31 - bp % 8)
    {
      buffer := Shr(Word(data, bp / 8, 4), bp % 8);
      if bp / 8 + 4 < |data| {
        buffer := Or(buffer, Fifth(data[bp / 8 + 4], bp % 8));
        SpliceKeepsLow(data, bp, 31 - bp % 8);
        AgreesFrom(31 - bp % 8);
        ok := true;
      } else {
        Loaded(4, 31 - bp % 8);
        ok := bp + nbits < 8 * |data|;
      }
    }

    function Peek(nbits: nat): (r: nat)
      requires nbits < 32
      reads this
      ensures r == Low(buffer, nbits)
    {
      AndMask(buffer, nbits);
      And(buffer, Pow2(nbits) - 1)
    }

    /** Peek where the window is known. */
    method PeekAs(nbits: nat, ghost x: nat, ghost k: nat) returns (r: nat)
      requires nbits < 32 && nbits <= k && Agrees(k) && x == Window(stream, bp, nbits)
      ensures r == x
    {
      assert PeekRight(nbits);
      r := Peek(nbits);
    }

    /** k is a number of bits for which the look-ahead is right. */
    method Advance(nbits: nat, ghost k: nat)
      requires Agrees(k)
      modifies this
      ensures bp == old(bp) + nbits && buffer == Shr(old(buffer), nbits)
      ensures nbits <= k ==> Agrees(k - nbits)
    {
      if nbits <= k {
        ShrLow(buffer, nbits, k);
        WindowDrop(stream, bp, nbits, k);
        assert PeekRight(k);
      }
      buffer := Shr(buffer, nbits);
      bp := bp + nbits;
      if nbits <= k { AgreesFrom(k - nbits); }
    }

    method ReadBits(nbits: nat, ghost k: nat) returns (r: nat)
      requires nbits < 32 && Agrees(k)
      modifies this
      ensures bp == old(bp) + nbits && r == Low(old(buffer), nbits) < Pow2(nbits)
      ensures nbits <= k ==> Agrees(k - nbits) && r == Window(stream, old(bp), nbits)
    {
      r := Peek(nbits);
      LowBound(buffer, nbits);
      if nbits <= k { assert PeekRight(nbits); }
      Advance(nbits, k);
    }
  }

  // ---------------------------------------------------------------- the 32-bit look-ahead

  /** The fifth byte moved to the top of the 32-bit word, as a 32-bit shift. */
  function Fifth(d: byte, k: nat): nat
    requires k < 8
  {
    Low(Shl(Shl(d, 24), 7 - k), 32)
  }

  /** What ensureBits32 leaves in the word at bit position p. */
  function Splice32(data: seq<byte>, p: nat): nat {
    Or(Shr(Word(data, p / 8, 4), p % 8), Fifth(ByteAt(data, p / 8 + 4), p % 8))
  }

  /** The same with the branch for the end of the input. */
  function LookAhead32(data: seq<byte>, p: nat): nat {
    if p / 8 + 4 < |data| then Splice32(data, p) else Shr(Word(data, p / 8, 4), p % 8)
  }

  /** What is read as a number of n bits behind a code of l bits at p, both through one
      32-bit look-ahead. */
  function Seen(data: seq<byte>, p: nat, l: nat, n: nat): nat {
    Low(Shr(LookAhead32(data, p), l), n)
  }

  /** It is right as far as the look-ahead is. */
  lemma {:induction false} SeenRight(data: seq<byte>, p: nat, l: nat, n: nat)
    requires l + n <= 31 - p % 8
    ensures Seen(data, p, l, n) == Window(StreamBits(data), p + l, n)
  {
    LookAheadLow(data, p, l + n);
    ShrLow(LookAhead32(data, p), l, l + n);
    WindowDrop(StreamBits(data), p, l, l + n);
  }

  lemma {:induction false} LookAheadLow(data: seq<byte>, p: nat, n: nat)
    requires n <= 31 - p % 8
    ensures Low(LookAhead32(data, p), n) == Window(StreamBits(data), p, n)
  {
    if p / 8 + 4 < |data| {
      SpliceKeepsLow(data, p, n);
    } else {
      WordIsLittle(data, p / 8, 4);
      LittleIsWindow(data, p / 8, 4);
      WindowDrop(StreamBits(data), 8 * (p / 8), p % 8, 32);
      WindowPrefix(StreamBits(data), p, n, 32 - p % 8);
    }
  }

  lemma {:induction false} FifthIs(d: byte, k: nat)
    requires k < 8
    ensures Fifth(d, k) == Low(Shl(d, 31 - k), 32)
  {
    ShlShl(d, 24, 7 - k);
  }

  lemma {:induction false} SpliceLow(low: nat, d: byte, k: nat, n: nat)
    requires k < 8 && n <= 31 - k
    ensures Low(Or(low, Fifth(d, k)), n) == Low(low, n)
  {
    FifthIs(d, k);
    LowShl(d, 31 - k);
    LowLow(Shl(d, 31 - k), 31 - k, 32);
    OrLow(low, Fifth(d, k), 31 - k);
    LowLow(Or(low, Fifth(d, k)), n, 31 - k);
    LowLow(low, n, 31 - k);
  }

  lemma {:induction false} SpliceKeepsLow(data: seq<byte>, p: nat, n: nat)
    requires n <= 31 - p % 8
    ensures Low(Splice32(data, p), n) == Window(StreamBits(data), p, n)
  {
    var k := p % 8;
    var low := Shr(Word(data, p / 8, 4), k);
    WordIsLittle(data, p / 8, 4);
    LittleIsWindow(data, p / 8, 4);
    WindowDrop(StreamBits(data), 8 * (p / 8), k, 32);
    SpliceLow(low, ByteAt(data, p / 8 + 4), k, n);
    WindowPrefix(StreamBits(data), p, n, 32 - k);
  }

  /** Reading n bits through the 32-bit look-ahead, away from the end of the input, is
      right for every input exactly when n <= 31 - k, where k is the bit offset of the
      read position in its byte. */
  lemma {:induction false} EnsureBits32Exact(k: nat, n: nat)
    requires k < 8 && n <= 32
    ensures (forall data: seq<byte>, p: nat :: p % 8 == k && p / 8 + 4 < |data| ==>
               Low(Splice32(data, p), n) == Window(StreamBits(data), p, n))
       <==> n <= 31 - k
  {
    if n <= 31 - k {
      forall data: seq<byte>, p: nat | p % 8 == k && p / 8 + 4 < |data|
        ensures Low(Splice32(data, p), n) == Window(StreamBits(data), p, n)
      {
        SpliceKeepsLow(data, p, n);
      }
    } else {
      var d: seq<byte> := [0, 0, 0, 0, 1];
      SpliceGoesWrong(d, k, n);
      assert k / 8 + 4 < |d| && k % 8 == k;
    }
  }

  /** After four zero bytes the fifth byte's lowest bit appears one place too low. */
  lemma {:induction false} SpliceGoesWrong(d: seq<byte>, k: nat, n: nat)
    requires k < 8 && 31 - k < n <= 32
    requires |d| == 5 && d[4] == 1 && forall i :: 0 <= i < 4 ==> d[i] == 0
    ensures Low(Splice32(d, k), n) == Pow2(31 - k)
    ensures Window(StreamBits(d), k, n) != Pow2(31 - k)
  {
    LittleZeros(d, 0, 4);
    LowZero(k);
    WordIsLittle(d, 0, 4);
    assert k / 8 == 0 && k % 8 == k;
    assert Splice32(d, k) == Or(0, Fifth(1, k));
    FifthIs(1, k);
    LowOne(31 - k, 32);
    LowOne(31 - k, n);
    ZeroWindow(d, k, n);
  }

  lemma {:induction false} ZeroWindow(d: seq<byte>, k: nat, n: nat)
    requires k < 8 && 31 - k < n <= 32 && Little(d, 0, 4) == 0
    ensures Window(StreamBits(d), k, n) != Pow2(31 - k)
  {
    var s := StreamBits(d);
    LittleIsWindow(d, 0, 4);
    LowZero(k);
    WindowDrop(s, 0, k, 32);
    WindowPrefix(s, k, 32 - k, n);
    LowOne(31 - k, 32 - k);
  }

  lemma {:induction false} LowOne(m: nat, n: nat)
    requires m < n
    ensures Low(Shl(1, m), n) == Low(Pow2(m), n) == Pow2(m)
  {
    ShlIsMul(1, m);
    Pow2Mono(m, n);
    LowSmall(Pow2(m), n);
  }

  lemma {:induction false} LittleZeros(data: seq<byte>, start: nat, n: nat)
    requires forall i :: start <= i < start + n ==> ByteAt(data, i) == 0
    ensures Little(data, start, n) == 0
    decreases n
  {
    if n > 0 { LittleZeros(data, start + 1, n - 1); }
  }
}
