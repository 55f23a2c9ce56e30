/** SHA-256 of a message: folding and padding (sections 5.1.1 and 6.2.2 of FIPS 180-4), and the object
    that takes the message in any number of pieces. */
module Sha256Stream {
  import opened Bits
  import opened MachineWords
  import opened Sha256

  // ---------------------------------------------------------------- definition

  type Compressor = (Hash, seq<word>) -> Hash

  /** The compression function with the given round constants. */
  ghost function Compressing(k: seq<word>): Compressor
    requires |k| == 64
  {
    (s, block) => if |block| == 16 then Compress(k, s, block) else s
  }

  predicate Input(s: Hash, block: seq<word>) { |block| == 16 }

  ghost predicate Computes(f: Compressor, k: seq<word>) {
    |k| == 64 && forall s: Hash, block: seq<word> {:trigger Input(s, block)} ::
      Input(s, block) ==> f(s, block) == Compress(k, s, block)
  }

  lemma {:induction false} CompressingComputes(k: seq<word>)
    requires |k| == 64
    ensures Computes(Compressing(k), k)
  {
  }

  /** Round constants and the compression function they give. */
  datatype Constants = Constants(k: seq<word>, f: Compressor)

  type Engine = e: Constants | Computes(e.f, e.k) ghost witness EngineWith(seq(64, _ => 0))

  ghost function EngineWith(k: seq<word>): (e: Constants)
    requires |k| == 64
    ensures Computes(e.f, e.k) && e.k == k && e.f == Compressing(k)
  {
    CompressingComputes(k);
    Constants(k, Compressing(k))
  }

  /** The hash after n blocks of data. */
  ghost function Fold(f: Compressor, start: Hash, data: seq<byte>, n: nat): Hash
    requires 64 * n <= |data|
    decreases n, data
  {
    if n == 0 then start else f(Fold(f, start, data, n - 1), BlockWords(data, 64 * (n - 1)))
  }

  /** n bytes of a number, most-significant first. */
  function BigBytes(v: nat, n: nat): (b: seq<byte>)
    ensures |b| == n
  {
    if n == 0 then [] else BigBytes(v / 256, n - 1) + [v % 256]
  }

  function ZeroBytes(n: nat): (z: seq<byte>)
    ensures |z| == n
  {
    seq(n, _ => 0)
  }

  lemma {:induction false} RoundedUp(l: nat)
    ensures (l + 9 + (119 - l % 64) % 64) % 64 == 0
  {
    var b := l % 64;
    assert b < 56 ==> (119 - b) % 64 == 55 - b;
    assert b >= 56 ==> (119 - b) % 64 == 119 - b;
  }

  /** The padded message of section 5.1.1: a one bit, the fewest zeros that leave room for 64 bits
      in the last block, and the length in bits. */
  function Padded(msg: seq<byte>): (p: seq<byte>)
    ensures |p| % 64 == 0 && |msg| + 9 <= |p| < |msg| + 9 + 64
  {
    RoundedUp(|msg|);
    msg + [0x80] + ZeroBytes((119 - |msg| % 64) % 64) + BigBytes(8 * |msg|, 8)
  }

  /** The hash of a message. */
  ghost function Digest(f: Compressor, msg: seq<byte>): Hash {
    Fold(f, Initial(), Padded(msg), |Padded(msg)| / 64)
  }

  // ---------------------------------------------------------------- folding

  lemma {:induction false} FoldPrefix(f: Compressor, start: Hash, a: seq<byte>, b: seq<byte>, n: nat)
    requires 64 * n <= |a| && a <= b
    ensures Fold(f, start, a, n) == Fold(f, start, b, n)
    decreases n
  {
    if n > 0 {
      FoldPrefix(f, start, a, b, n - 1);
      SameWords(a, 64 * (n - 1), b, 64 * (n - 1));
    }
  }

  lemma {:induction false} NothingFolded(f: Compressor, start: Hash, data: seq<byte>)
    requires |data| == 0
    ensures |data| / 64 == 0 && Fold(f, start, data, |data| / 64) == start
  {
  }

  lemma {:induction false} SameWords(a: seq<byte>, i: nat, b: seq<byte>, j: nat)
    requires i + 64 <= |a| && j + 64 <= |b| && a[i..i + 64] == b[j..j + 64]
    ensures BlockWords(a, i) == BlockWords(b, j)
  {
    forall t: nat | t < 16 ensures BigWord(a, i + 4 * t) == BigWord(b, j + 4 * t) {
      SameByte(a, i, b, j, 4 * t);
      SameByte(a, i, b, j, 4 * t + 1);
      SameByte(a, i, b, j, 4 * t + 2);
      SameByte(a, i, b, j, 4 * t + 3);
    }
  }

  lemma {:induction false} SameByte(a: seq<byte>, i: nat, b: seq<byte>, j: nat, t: nat)
    requires i + 64 <= |a| && j + 64 <= |b| && a[i..i + 64] == b[j..j + 64] && t < 64
    ensures a[i + t] == b[j + t]
  {
    assert a[i + t] == a[i..i + 64][t] && b[j + t] == b[j..j + 64][t];
  }

  /** One more block of data. */
  lemma {:induction false} FoldBlock(f: Compressor, start: Hash, data: seq<byte>, n: nat, block: seq<byte>)
    requires 64 * n + 64 <= |data| && |block| == 64 && block == data[64 * n..64 * n + 64]
    ensures Fold(f, start, data, n + 1) == f(Fold(f, start, data, n), BlockWords(block, 0))
  {
    assert block[0..0 + 64] == block;
    SameWords(block, 0, data, 64 * n);
  }

  method NextBlock(k: seq<word>, state: Hash, data: array<byte>, ghost e: Engine, ghost start: Hash,
                   ghost whole: seq<byte>, ghost n: nat) returns (next: Hash)
    requires e.k == k && data.Length == 64 && 64 * n + 64 <= |whole| && data[..] == whole[64 * n..64 * n + 64]
    requires state == Fold(e.f, start, whole, n)
    ensures next == Fold(e.f, start, whole, n + 1)
  {
    FoldBlock(e.f, start, whole, n, data[..]);
    next := Transform(k, state, data);
    assert Input(state, BlockWords(data[..], 0));
  }

  /** What the standard puts behind the message. */
  lemma {:induction false} ZeroCount(l: nat, n: nat, b: nat)
    requires l == 64 * n + b && b < 64
    ensures (119 - l % 64) % 64 == if b < 56 then 55 - b else 119 - b
  {
    assert l % 64 == b;
    assert b < 56 ==> (119 - b) % 64 == 55 - b;
    assert b >= 56 ==> (119 - b) % 64 == 119 - b;
  }

  lemma {:induction false} AfterHead(head: seq<byte>, tail: seq<byte>, one: seq<byte>, zeros: seq<byte>, length: seq<byte>)
    ensures (head + tail + one + zeros + length)[|head|..] == tail + one + zeros + length
  {
  }

  /** The part of the padded message after the whole blocks of the message. */
  lemma {:induction false} PaddedTail(msg: seq<byte>, n: nat, b: nat, z: nat)
    requires |msg| == 64 * n + b && b < 64 && z == if b < 56 then 55 - b else 119 - b
    ensures |Padded(msg)| == 64 * n + b + 9 + z
    ensures Padded(msg)[64 * n..] == msg[64 * n..] + [0x80] + ZeroBytes(z) + BigBytes(8 * |msg|, 8)
  {
    ZeroCount(|msg|, n, b);
    AfterHead(msg[..64 * n], msg[64 * n..], [0x80], ZeroBytes(z), BigBytes(8 * |msg|, 8));
    assert msg[..64 * n] + msg[64 * n..] == msg;
  }

  lemma {:induction false} SliceOfRest(p: seq<byte>, i: nat, rest: seq<byte>, j: nat, k: nat)
    requires i <= |p| && p[i..] == rest && j <= k <= |rest|
    ensures p[i + j..i + k] == rest[j..k]
  {
    assert p[i + j..i + k] == p[i..][j..k];
  }

  /** The message ends in a block with room for the length. */
  lemma {:induction false} PaddedShort(msg: seq<byte>, n: nat, b: nat)
    requires |msg| == 64 * n + b && b < 56
    ensures |Padded(msg)| == 64 * n + 64
    ensures Padded(msg)[64 * n..64 * n + 64] == msg[64 * n..] + [0x80] + ZeroBytes(55 - b) + BigBytes(8 * |msg|, 8)
  {
    PaddedTail(msg, n, b, 55 - b);
    assert Padded(msg)[64 * n..64 * n + 64] == Padded(msg)[64 * n..];
  }

  lemma {:induction false} TwoBlocks(tail: seq<byte>, b: nat, length: seq<byte>)
    requires |tail| == b && 56 <= b < 64 && |length| == 8
    ensures var rest := tail + [0x80] + ZeroBytes(119 - b) + length;
            |rest| == 128 && rest[..64] == tail + [0x80] + ZeroBytes(63 - b) && rest[64..] == ZeroBytes(56) + length
  {
  }

  /** The length needs a block of its own. */
  lemma {:induction false} PaddedLong(msg: seq<byte>, n: nat, b: nat)
    requires |msg| == 64 * n + b && 56 <= b < 64
    ensures |Padded(msg)| == 64 * n + 128
    ensures Padded(msg)[64 * n..64 * n + 64] == msg[64 * n..] + [0x80] + ZeroBytes(63 - b)
    ensures Padded(msg)[64 * n + 64..64 * n + 128] == ZeroBytes(56) + BigBytes(8 * |msg|, 8)
  {
    var rest := Padded(msg)[64 * n..];
    PaddedTail(msg, n, b, 119 - b);
    TwoBlocks(msg[64 * n..], b, BigBytes(8 * |msg|, 8));
    SliceOfRest(Padded(msg), 64 * n, rest, 0, 64);
    SliceOfRest(Padded(msg), 64 * n, rest, 64, 128);
  }

  // ---------------------------------------------------------------- the length


  function AddWrapped(a: nat, b: nat): nat { (a + b) % WORD64 }

  lemma {:induction false} LowIsMod(v: nat)
    ensures Low(v, 64) == v % WORD64
  {
    ShrLowSplit(v, 64);
    Word32();
    Pow2Add(32, 32);
    ShlIsMul(Shr(v, 64), 64);
    assert Pow2(64) == WORD64;
    Remainder(v, Low(v, 64), Shr(v, 64));
  }

  lemma {:induction false} Remainder(v: nat, low: nat, q: nat)
    requires v == low + q * WORD64 && low < WORD64
    ensures v % WORD64 == low
  {
  }

  lemma {:induction false} BigBytesLow(v: nat, n: nat)
    ensures BigBytes(Low(v, 8 * n), n) == BigBytes(v, n)
    decreases n
  {
    if n > 0 {
      LowStep(v, 8 * (n - 1));
      LowQuotient(v % 256, Low(v / 256, 8 * (n - 1)));
      BigBytesLow(v / 256, n - 1);
    }
  }

  lemma {:induction false} LowQuotient(a: byte, b: nat)
    ensures (a + 256 * b) % 256 == a && (a + 256 * b) / 256 == b
  {
  }

  /** A length counted with 64 bits has the right eight bytes. */
  lemma {:induction false} WrappedLength(v: nat)
    ensures BigBytes(v % WORD64, 8) == BigBytes(v, 8)
  {
    LowIsMod(v);
    BigBytesLow(v, 8);
  }

  lemma {:induction false} BigBytesAt(v: nat, n: nat, k: nat)
    requires k < n
    ensures BigBytes(v, n)[n - 1 - k] == Shr(v, 8 * k) % 256
    decreases n
  {
    if k > 0 {
      BigBytesAt(v / 256, n - 1, k - 1);
      Byte8(v);
      ShrShr(v, 8, 8 * (k - 1));
    }
  }

  /** Working variable j. */
  function HashWord(s: Hash, j: nat): word {
    match j
    case 0 => s.a
    case 1 => s.b
    case 2 => s.c
    case 3 => s.d
    case 4 => s.e
    case 5 => s.f
    case 6 => s.g
    case _ => s.h
  }

  /** Byte p of the result. */
  function HashByte(s: Hash, p: nat): byte { Shr(HashWord(s, p / 4), 24 - 8 * (p % 4)) % 256 }

  lemma {:induction false} WordFromBytes(w: word)
    ensures Glue(Glue(Glue(Shr(w, 24) % 256, Shr(w, 16) % 256), Shr(w, 8) % 256), Shr(w, 0) % 256) == w
  {
    NextByte(w, 0);
    NextByte(w, 8);
    NextByte(w, 16);
    TopByte(w);
    GlueFour(w, Shr(w, 8), Shr(w, 16), Shr(w, 24));
  }

  lemma {:induction false} TopByte(w: word)
    ensures Shr(w, 24) < 256
  {
    Word32();
    Pow2Values();
    ShrBound(w, 24, 32);
  }

  lemma {:induction false} GlueFour(a: nat, b: nat, c: nat, d: nat)
    requires a == 256 * b + a % 256 && b == 256 * c + b % 256 && c == 256 * d + c % 256 && d < 256
    ensures Glue(Glue(Glue(d % 256, c % 256), b % 256), a % 256) == a
  {
  }

  /** A number and its last byte. */
  lemma {:induction false} NextByte(w: nat, n: nat)
    ensures Shr(w, n) == 256 * Shr(w, n + 8) + Shr(w, n) % 256
  {
    ShrShr(w, n, 8);
    Byte8(Shr(w, n));
  }

  /** The result read back as words is the state. */
  lemma {:induction false} ResultWords(hash: seq<byte>, s: Hash, j: nat)
    requires |hash| == 32 && j < 8 && forall p: nat :: p < 32 ==> hash[p] == HashByte(s, p)
    ensures BigWord(hash, 4 * j) == HashWord(s, j)
  {
    WordFromBytes(HashWord(s, j));
    assert hash[4 * j] == HashByte(s, 4 * j) && hash[4 * j + 1] == HashByte(s, 4 * j + 1);
    assert hash[4 * j + 2] == HashByte(s, 4 * j + 2) && hash[4 * j + 3] == HashByte(s, 4 * j + 3);
    Quarters(j);
  }

  lemma {:induction false} Quarters(j: nat)
    ensures 4 * j / 4 == (4 * j + 1) / 4 == (4 * j + 2) / 4 == (4 * j + 3) / 4 == j
    ensures 4 * j % 4 == 0 && (4 * j + 1) % 4 == 1 && (4 * j + 2) % 4 == 2 && (4 * j + 3) % 4 == 3
  {
  }

  // ---------------------------------------------------------------- the object

  class Stream {
    const data: array<byte>
    const k: seq<word>
    ghost const e: Engine
    var blocklen: nat
    var bitlen: nat
    var state: Hash
    ghost var msg: seq<byte>

    /** The state after the first n blocks of whole. */
    ghost predicate Folded(whole: seq<byte>, n: nat)
      reads this
    {
      64 * n <= |whole| && state == Fold(e.f, Initial(), whole, n)
    }

    /** The bytes of whole have been taken in: the blocks of it are folded, and the buffer holds the
        bytes after the last of them. */
    ghost predicate TakenIn(whole: seq<byte>)
      reads this, data
    {
      data.Length == 64 && blocklen == |whole| % 64 && data[..blocklen] == whole[|whole| - blocklen..] &&
      bitlen == (8 * (|whole| - blocklen)) % WORD64 && Folded(whole, |whole| / 64)
    }

    ghost predicate Valid()
      reads this, data
    {
      e.k == k && TakenIn(msg)
    }

    /** The constructor of the code, for any round constants and the compression they give. */
    constructor (k: seq<word>, ghost e: Engine)
      requires e.k == k
      ensures Valid() && msg == [] && fresh(data) && this.k == k && this.e == e
    {
      data := new byte[64];
      this.k, this.e := k, e;
      blocklen, bitlen, state := 0, 0, Initial();
      msg := [];
      new;
      NothingFolded(e.f, Initial(), msg);
      assert Folded(msg, |msg| / 64);
      assert data[..0] == msg[0..];
    }

    /** m_data[m_blocklen++] = data[i]. */
    method Append(x: byte)
      requires data.Length == 64 && blocklen < 64
      modifies this`blocklen, data
      ensures blocklen == old(blocklen) + 1 && data[..] == old(data[..])[old(blocklen) := x]
    {
      data[blocklen] := x;
      blocklen := blocklen + 1;
    }

    /** The buffer is full: the next block of whole. */
    method EndBlock(ghost whole: seq<byte>, ghost n: nat)
      requires e.k == k && data.Length == 64 && 64 * n + 64 <= |whole| && data[..] == whole[64 * n..64 * n + 64]
      requires Folded(whole, n)
      modifies this`state
      ensures Folded(whole, n + 1)
    {
      state := NextBlock(k, state, data, e, Initial(), whole, n);
    }

    /** One iteration of update. */
    method UpdateByte(x: byte)
      requires Valid()
      modifies this`blocklen, this`bitlen, this`state, this`msg, data
      ensures Valid() && msg == old(msg) + [x]
    {
      ghost var whole := msg + [x];
      ghost var n := |msg| / 64;
      FoldPrefix(e.f, Initial(), msg, whole, n);
      ghost var before, was := data[..], msg;
      Append(x);
      Appended(before, data[..], was, whole, x, blocklen - 1);
      msg := whole;
      EndByte(whole, |was|, n);
    }

    /** When the buffer is full, its block is folded. */
    method EndByte(ghost whole: seq<byte>, ghost l: nat, ghost n: nat)
      requires e.k == k && data.Length == 64 && |whole| == l + 1 && n == l / 64 && Folded(whole, n)
      requires blocklen == l % 64 + 1 && data[..blocklen] == whole[|whole| - blocklen..]
      requires bitlen == (8 * (l - l % 64)) % WORD64
      modifies this`blocklen, this`bitlen, this`state
      ensures TakenIn(whole)
    {
      NextLength(l, n);
      if blocklen == 64 {
        BlockFull(data[..], whole, n);
        EndBlock(whole, n);
        bitlen := AddWrapped(bitlen, 512);
        blocklen := 0;
      }
    }

    /** update. Any split of the message gives the same state. */
    method Update(m: seq<byte>)
      requires Valid()
      modifies this`blocklen, this`bitlen, this`state, this`msg, data
      ensures Valid() && msg == old(msg) + m
    {
      var i := 0;
      while i < |m|
        invariant i <= |m| && Valid() && msg == old(msg) + m[..i]
      {
        UpdateByte(m[i]);
        assert m[..i + 1] == m[..i] + [m[i]];
        i := i + 1;
      }
      assert m[..|m|] == m;
    }

    /** Zeros from blocklen + 1 up to the given end. */
    method FillZeros(end: nat)
      requires data.Length == 64 && blocklen < end <= 64
      modifies data
      ensures data[..blocklen] == old(data[..blocklen]) && data[end..] == old(data[end..])
      ensures data[blocklen..end] == [0x80] + ZeroBytes(end - blocklen - 1)
    {
      var i := blocklen;
      data[i] := 0x80;
      i := i + 1;
      while i < end
        invariant blocklen < i <= end
        invariant data[..blocklen] == old(data[..blocklen]) && data[end..] == old(data[end..])
        invariant data[blocklen..i] == [0x80] + ZeroBytes(i - blocklen - 1)
      {
        data[i] := 0;
        i := i + 1;
        assert data[blocklen..i] == data[blocklen..i - 1] + [0];
      }
    }

    /** memset(m_data, 0, 56). */
    method ClearBuffer()
      requires data.Length == 64
      modifies data
      ensures data[..56] == ZeroBytes(56)
    {
      var i := 0;
      while i < 56
        invariant i <= 56 && data[..i] == ZeroBytes(i)
      {
        data[i] := 0;
        i := i + 1;
        assert data[..i] == data[..i - 1] + [0];
      }
    }

    /** The eight bytes of the length, the last one first. */
    method StoreLength()
      requires data.Length == 64
      modifies data
      ensures data[..56] == old(data[..56]) && data[56..] == BigBytes(bitlen, 8)
    {
      var i := 0;
      while i < 8
        invariant i <= 8 && data[..56] == old(data[..56])
        invariant forall t: nat :: t < i ==> data[63 - t] == Shr(bitlen, 8 * t) % 256
      {
        data[63 - i] := Shr(bitlen, 8 * i) % 256;
        i := i + 1;
      }
      LengthBytes(data[..], bitlen);
    }

    /** The first part of pad: the rest of the buffer when the length fits, and otherwise one more
        block. Afterwards the first 56 bytes are those of the last block. */
    method PadBuffer(ghost n: nat) returns (ghost last: nat)
      requires Valid() && n == |msg| / 64
      modifies this`state, data
      ensures 64 * last + 64 == |Padded(msg)| && Folded(Padded(msg), last)
      ensures data[..56] + BigBytes(8 * |msg|, 8) == Padded(msg)[64 * last..64 * last + 64]
    {
      ghost var b := blocklen;
      ghost var p := Padded(msg);
      ghost var tail := data[..blocklen];
      FoldPrefix(e.f, Initial(), msg, p, n);
      assert tail == msg[64 * n..];
      var end := if blocklen < 56 then 56 else 64;
      FillZeros(end);
      last := n;
      if blocklen < 56 {
        PaddedShort(msg, n, b);
        assert data[..56] == data[..b] + data[b..56];
        ShortBlock(data[..56], tail, b, BigBytes(8 * |msg|, 8), p[64 * n..64 * n + 64]);
      } else {
        PaddedLong(msg, n, b);
        assert data[..] == data[..b] + data[b..64];
        LongBlock(data[..], tail, b, p[64 * n..64 * n + 64]);
        EndBlock(p, n);
        ClearBuffer();
        last := n + 1;
      }
    }

    /** pad. */
    method Pad()
      requires Valid()
      modifies this`state, this`bitlen, data
      ensures state == Digest(e.f, msg)
    {
      ghost var n := |msg| / 64;
      ghost var last := PadBuffer(n);
      AppendLength();
      EndBlock(Padded(msg), last);
    }

    /** The length in bits, in the last eight bytes of the buffer. */
    method AppendLength()
      requires data.Length == 64 && blocklen <= |msg| && bitlen == (8 * (|msg| - blocklen)) % WORD64
      modifies this`bitlen, data
      ensures data[..] == old(data[..56]) + BigBytes(8 * |msg|, 8)
    {
      LengthIs(bitlen, |msg|, blocklen);
      bitlen := AddWrapped(bitlen, blocklen * 8);
      StoreLength();
      assert data[..] == data[..56] + data[56..];
    }

    /** revert. */
    method Revert() returns (hash: seq<byte>)
      ensures |hash| == 32 && forall j: nat :: j < 8 ==> BigWord(hash, 4 * j) == HashWord(state, j)
    {
      var bytes := new byte[32];
      var i := 0;
      while i < 4
        invariant i <= 4 && forall p: nat :: p < 32 && p % 4 < i ==> bytes[p] == HashByte(state, p)
      {
        RevertColumn(bytes, i);
        i := i + 1;
      }
      hash := bytes[..];
      forall j: nat | j < 8 ensures BigWord(hash, 4 * j) == HashWord(state, j) { ResultWords(hash, state, j); }
    }

    method RevertColumn(bytes: array<byte>, i: nat)
      requires bytes.Length == 32 && i < 4
      requires forall p: nat :: p < 32 && p % 4 < i ==> bytes[p] == HashByte(state, p)
      modifies bytes
      ensures forall p: nat :: p < 32 && p % 4 < i + 1 ==> bytes[p] == HashByte(state, p)
    {
      var j := 0;
      while j < 8
        invariant j <= 8
        invariant forall p: nat :: p < 32 && (p % 4 < i || (p % 4 == i && p / 4 < j)) ==> bytes[p] == HashByte(state, p)
      {
        Place(i, j);
        bytes[i + j * 4] := Shr(HashWord(state, j), 24 - i * 8) % 256;
        j := j + 1;
      }
    }

    /** digest: the hash of everything that was added. The object is not usable afterwards. */
    method Finish() returns (hash: seq<byte>)
      requires Valid()
      modifies this`state, this`bitlen, data
      ensures |hash| == 32 && forall j: nat :: j < 8 ==> BigWord(hash, 4 * j) == HashWord(Digest(e.f, old(msg)), j)
    {
      Pad();
      hash := Revert();
    }
  }

  /** The hash of a message, as an object of the code computes it. */
  method HashOf(msg: seq<byte>) returns (hash: seq<byte>)
    ensures |hash| == 32
    ensures forall j: nat :: j < 8 ==> BigWord(hash, 4 * j) == HashWord(Digest(Compressing(RoundConstants()), msg), j)
  {
    var k := RoundConstants();
    ghost var e: Engine := EngineWith(k);
    hash := HashWith(k, e, msg);
  }

  method HashWith(k: seq<word>, ghost e: Engine, msg: seq<byte>) returns (hash: seq<byte>)
    requires e.k == k
    ensures |hash| == 32 && forall j: nat :: j < 8 ==> BigWord(hash, 4 * j) == HashWord(Digest(e.f, msg), j)
  {
    var stream := new Stream(k, e);
    stream.Update(msg);
    assert stream.msg == msg;
    hash := stream.Finish();
  }

  lemma {:induction false} Place(i: nat, j: nat)
    requires i < 4
    ensures (i + j * 4) % 4 == i && (i + j * 4) / 4 == j
    ensures forall p: nat :: p % 4 == i && p / 4 == j ==> p == i + j * 4
  {
  }

  lemma {:induction false} ShortBlock(front: seq<byte>, tail: seq<byte>, b: nat, length: seq<byte>, block: seq<byte>)
    requires b < 56 && |tail| == b && front == tail + ([0x80] + ZeroBytes(55 - b))
    requires block == tail + [0x80] + ZeroBytes(55 - b) + length
    ensures front + length == block
  {
  }

  lemma {:induction false} LongBlock(whole: seq<byte>, tail: seq<byte>, b: nat, block: seq<byte>)
    requires 56 <= b < 64 && |tail| == b && whole == tail + ([0x80] + ZeroBytes(63 - b))
    requires block == tail + [0x80] + ZeroBytes(63 - b)
    ensures whole == block
  {
  }

  lemma {:induction false} LengthBytes(data: seq<byte>, v: nat)
    requires |data| == 64 && forall t: nat :: t < 8 ==> data[63 - t] == Shr(v, 8 * t) % 256
    ensures data[56..] == BigBytes(v, 8)
  {
    forall i: nat | i < 8 ensures data[56..][i] == BigBytes(v, 8)[i] {
      BigBytesAt(v, 8, 7 - i);
      assert data[56 + i] == data[63 - (7 - i)];
    }
  }

  lemma {:induction false} LengthIs(bitlen: nat, l: nat, b: nat)
    requires b <= l && bitlen == (8 * (l - b)) % WORD64
    ensures BigBytes(AddWrapped(bitlen, b * 8), 8) == BigBytes(8 * l, 8)
  {
    TotalLength(bitlen, l, b);
    WrappedLength(8 * l);
  }

  lemma {:induction false} TotalLength(bitlen: nat, l: nat, b: nat)
    requires b <= l && bitlen == (8 * (l - b)) % WORD64
    ensures (bitlen + b * 8) % WORD64 == (8 * l) % WORD64
  {
  }

  lemma {:induction false} Appended(before: seq<byte>, after: seq<byte>, msg: seq<byte>, whole: seq<byte>, x: byte, b: nat)
    requires |before| == |after| == 64 && b < 64 && b == |msg| % 64 && before[..b] == msg[|msg| - b..]
    requires whole == msg + [x] && after == before[b := x]
    ensures after[..b + 1] == whole[|whole| - (b + 1)..]
  {
    assert after[..b + 1] == before[..b] + [x];
    assert whole[|whole| - (b + 1)..] == msg[|msg| - b..] + [x];
  }

  lemma {:induction false} BlockFull(data: seq<byte>, whole: seq<byte>, n: nat)
    requires |data| == 64 && |whole| > 0 && n == (|whole| - 1) / 64 && (|whole| - 1) % 64 == 63
    requires data[..64] == whole[|whole| - 64..]
    ensures |whole| == 64 * n + 64 && data == whole[64 * n..64 * n + 64]
  {
    assert data[..64] == data;
  }

  lemma {:induction false} NextLength(l: nat, n: nat)
    requires n == l / 64
    ensures l % 64 == 63 ==> (l + 1) % 64 == 0 && (l + 1) / 64 == n + 1
    ensures l % 64 == 63 ==> ((8 * (l - 63)) % WORD64 + 512) % WORD64 == (8 * (l + 1)) % WORD64
    ensures l % 64 != 63 ==> (l + 1) % 64 == l % 64 + 1 && (l + 1) / 64 == n
  {
  }
}
