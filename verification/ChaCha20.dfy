/** The ChaCha20 stream cipher (sections 2.1 to 2.4 of RFC 8439): the block function, and the
    XOR of a byte stream that works on 32-bit words with a byte-wise tail. */
module ChaCha20 {
  import opened Bits
  import opened BitStream
  import opened Poly1305
  import opened MachineWords

  // ---------------------------------------------------------------- the block function

  type State = s: seq<word> | |s| == 16 witness seq(16, _ => 0)

  /** Qround on four words of the state. */
  function QuarterRound(s: State, i: nat, j: nat, l: nat, m: nat): State
    requires i < 16 && j < 16 && l < 16 && m < 16
  {
    var a := Add(s[i], s[j]);
    var d := RotateLeft(XorWord(s[m], a), 16);
    var c := Add(s[l], d);
    var b := RotateLeft(XorWord(s[j], c), 12);
    var a' := Add(a, b);
    var d' := RotateLeft(XorWord(d, a'), 8);
    var c' := Add(c, d');
    var b' := RotateLeft(XorWord(b, c'), 7);
    s[i := a'][j := b'][l := c'][m := d']
  }

  type Round = (State, nat, nat, nat, nat) --> State

  ghost predicate Total(f: Round) {
    forall s: State, i: nat, j: nat, l: nat, m: nat :: i < 16 && j < 16 && l < 16 && m < 16 ==> f.requires(s, i, j, l, m)
  }

  /** The state seen as a four by four matrix: the first n of the four columns, then of the
      four diagonals, each taken by one quarter round. */
  ghost function Turns(f: Round, s: State, n: nat): State
    requires Total(f)
    decreases n, s
  {
    if n == 0 then s else
      var k, t := (n - 1) % 4, Turns(f, s, n - 1);
      if n <= 4 then f(t, k, 4 + k, 8 + k, 12 + k) else f(t, k, 4 + (k + 1) % 4, 8 + (k + 2) % 4, 12 + (k + 3) % 4)
  }

  /** n double rounds. */
  ghost function Rounds(f: Round, s: State, n: nat): State
    requires Total(f)
    decreases n, s
  {
    if n == 0 then s else Turns(f, Rounds(f, s, n - 1), 8)
  }

  /** The keystream words of one block: ten double rounds, and the start added again. */
  ghost function Block(start: State): State {
    var t := Rounds(QuarterRound, start, 10);
    seq(16, i requires 0 <= i < 16 => Add(start[i], t[i]))
  }

  method DoubleRound(f: Round, before: State) returns (s: State)
    requires Total(f)
    ensures s == Turns(f, before, 8)
  {
    s := f(before, 0, 4, 8, 12);
    assert s == Turns(f, before, 1);
    s := f(s, 1, 5, 9, 13);
    assert s == Turns(f, before, 2);
    s := f(s, 2, 6, 10, 14);
    assert s == Turns(f, before, 3);
    s := f(s, 3, 7, 11, 15);
    assert s == Turns(f, before, 4);
    s := f(s, 0, 5, 10, 15);
    assert s == Turns(f, before, 5);
    s := f(s, 1, 6, 11, 12);
    assert s == Turns(f, before, 6);
    s := f(s, 2, 7, 8, 13);
    assert s == Turns(f, before, 7);
    s := f(s, 3, 4, 9, 14);
  }

  /** core_block. */
  method CoreBlock(start: State) returns (output: State)
    ensures output == Block(start)
  {
    var s := start;
    var i := 0;
    while i < 10
      invariant i <= 10 && s == Rounds(QuarterRound, start, i)
    {
      s := DoubleRound(QuarterRound, s);
      i := i + 1;
    }
    output := seq(16, j requires 0 <= j < 16 => Add(start[j], s[j]));
  }

  // ---------------------------------------------------------------- words as bytes

  /** Byte k of a word, least-significant first. */
  function PadByte(w: nat, k: nat): byte { Shr(w, 8 * k) % 256 }

  function XorByte(a: byte, b: byte): byte {
    Pow2Values();
    XorBound(a, b, 8);
    Xor(a, b)
  }

  lemma {:induction false} XorShr(a: nat, b: nat, n: nat)
    ensures Shr(Xor(a, b), n) == Xor(Shr(a, n), Shr(b, n))
    decreases n
  {
    if n > 0 {
      XorStep(a, b);
      XorShr(a / 2, b / 2, n - 1);
    }
  }

  lemma {:induction false} XorStep(a: nat, b: nat)
    ensures Xor(a, b) % 2 == (a + b) % 2 && Xor(a, b) / 2 == Xor(a / 2, b / 2)
  {
  }

  lemma {:induction false} Halves(x: nat, i: bit, u: nat)
    requires x == i + 2 * u
    ensures x / 2 == u && x % 2 == i
  {
  }

  lemma {:induction false} XorHalves(x: nat, y: nat, u: nat, v: nat)
    requires x / 2 == u && y / 2 == v
    ensures Xor(x, y) == (x + y) % 2 + 2 * Xor(u, v)
  {
    XorStep(x, y);
  }

  lemma {:induction false} XorLow(a: nat, b: nat, n: nat)
    ensures Low(Xor(a, b), n) == Xor(Low(a, n), Low(b, n))
    decreases n
  {
    if n > 0 {
      XorLow(a / 2, b / 2, n - 1);
      XorStep(a, b);
      LowJoin(Xor(a, b), a, b, Low(a / 2, n - 1), Low(b / 2, n - 1), n);
    }
  }

  lemma {:induction false} LowJoin(c: nat, a: nat, b: nat, u: nat, v: nat, n: nat)
    requires n > 0 && c % 2 == (a + b) % 2 && Low(c / 2, n - 1) == Xor(u, v)
    ensures Low(c, n) == Xor(a % 2 + 2 * u, b % 2 + 2 * v)
  {
    var x, y := a % 2 + 2 * u, b % 2 + 2 * v;
    Halves(x, a % 2, u);
    Halves(y, b % 2, v);
    XorHalves(x, y, u, v);
    Parity(a, b, x, y);
  }

  lemma {:induction false} Parity(a: nat, b: nat, x: nat, y: nat)
    requires a % 2 == x % 2 && b % 2 == y % 2
    ensures (a + b) % 2 == (x + y) % 2
  {
  }

  /** The exclusive or of two words is that of their bytes. */
  lemma {:induction false} XorBytes(x: nat, w: nat, k: nat)
    ensures PadByte(Xor(x, w), k) == XorByte(PadByte(x, k), PadByte(w, k))
  {
    XorShr(x, w, 8 * k);
    XorLow(Shr(x, 8 * k), Shr(w, 8 * k), 8);
    Byte8(Shr(x, 8 * k));
    Byte8(Shr(w, 8 * k));
    Byte8(Xor(Shr(x, 8 * k), Shr(w, 8 * k)));
  }

  lemma {:induction false} PadByteStep(v: nat, k: nat)
    ensures PadByte(v, k + 1) == PadByte(v / 256, k) && PadByte(v, 0) == v % 256
  {
    Byte8(v);
    ShrShr(v, 8, 8 * k);
  }

  lemma {:induction false} LittleBytesAt(v: nat, n: nat, k: nat)
    requires k < n
    ensures LittleBytes(v, n)[k] == PadByte(v, k)
    decreases n
  {
    if k == 0 {
      PadByteStep(v, 0);
    } else {
      PadByteStep(v, k - 1);
      LittleBytesAt(v / 256, n - 1, k - 1);
    }
  }

  lemma {:induction false} LittleParts(data: seq<byte>, p: nat, n: nat, v: nat)
    requires n > 0 && v == Little(data, p, n)
    ensures v % 256 == ByteAt(data, p) && v / 256 == Little(data, p + 1, n - 1)
  {
    Quotient256(ByteAt(data, p), Little(data, p + 1, n - 1));
  }

  lemma {:induction false} Quotient256(a: byte, b: nat)
    ensures (a + 256 * b) % 256 == a && (a + 256 * b) / 256 == b
  {
  }

  lemma {:induction false} LittleAt(data: seq<byte>, p: nat, n: nat, k: nat)
    requires k < n
    ensures PadByte(Little(data, p, n), k) == ByteAt(data, p + k)
    decreases n
  {
    var v := Little(data, p, n);
    LittleParts(data, p, n, v);
    if k == 0 {
      PadByteStep(v, 0);
    } else {
      PadByteStep(v, k - 1);
      LittleAt(data, p + 1, n - 1, k - 1);
    }
  }

  /** A word of source, xored with the pad and stored again, is four bytes each xored with its
      own pad byte. */
  lemma {:induction false} WordwiseIsBytewise(source: seq<byte>, p: nat, pad: nat, k: nat)
    requires p + 4 <= |source| && k < 4
    ensures LittleBytes(Xor(Little(source, p, 4), pad), 4)[k] == XorByte(source[p + k], PadByte(pad, k))
  {
    LittleBytesAt(Xor(Little(source, p, 4), pad), 4, k);
    XorBytes(Little(source, p, 4), pad, k);
    LittleAt(source, p, 4, k);
  }

  // ---------------------------------------------------------------- the stream

  /** The state for a key, a nonce and a block counter. */
  function Initial(key: seq<byte>, nonce: seq<byte>, counter: word): State
    requires |key| == 32 && |nonce| == 12
  {
    [0x61707865, 0x3320646e, 0x79622d32, 0x6b206574] +
    Words(key, 8) + [counter] + Words(nonce, 3)
  }

  /** The first n words of a byte sequence, read little-endian. */
  function Words(data: seq<byte>, n: nat): (w: seq<word>)
    ensures |w| == n
  {
    seq(n, i requires 0 <= i < n => FourBytes(data, 4 * i))
  }

  function FourBytes(data: seq<byte>, p: nat): word {
    LittleSnoc(data, p, 4);
    Word32();
    Little(data, p, 4)
  }

  /** The states of a key and nonce, the counter wrapping at 32 bits. */
  ghost function Starts(key: seq<byte>, nonce: seq<byte>, counter: word): nat -> State
    requires |key| == 32 && |nonce| == 12
  {
    b => Initial(key, nonce, (counter + b) % WORD32)
  }

  ghost function BlocksFrom(starts: nat -> State): nat -> State { b => Block(starts(b)) }

  /** The keystream blocks of a key and nonce. */
  ghost function Keystream(key: seq<byte>, nonce: seq<byte>, counter: word): nat -> State
    requires |key| == 32 && |nonce| == 12
  {
    BlocksFrom(Starts(key, nonce, counter))
  }

  /** Byte i of a keystream of 64-byte blocks. */
  function StreamByte(pads: nat -> State, i: nat): byte {
    PadByte(pads(i / 64)[i % 64 / 4], i % 4)
  }

  /** The first n bytes of d are those of source, each xored with its own keystream byte. */
  ghost predicate Crypted(d: seq<byte>, source: seq<byte>, pads: nat -> State, n: nat) {
    n <= |d| && n <= |source| && forall i :: 0 <= i < n ==> d[i] == XorByte(source[i], StreamByte(pads, i))
  }

  /** xor32_le. */
  method XorWordInto(dest: array<byte>, source: seq<byte>, p: nat, pad: word)
    requires p + 4 <= |source| && p + 4 <= dest.Length
    modifies dest
    ensures forall k :: 0 <= k < 4 ==> dest[p + k] == XorByte(source[p + k], PadByte(pad, k))
    ensures forall i :: 0 <= i < dest.Length && !(p <= i < p + 4) ==> dest[i] == old(dest[i])
  {
    var value := LittleBytes(Xor(Little(source, p, 4), pad), 4);
    forall k: nat | k < 4 ensures value[k] == XorByte(source[p + k], PadByte(pad, k)) {
      WordwiseIsBytewise(source, p, pad, k);
    }
    dest[p], dest[p + 1], dest[p + 2], dest[p + 3] := value[0], value[1], value[2], value[3];
  }

  lemma {:induction false} StreamWord(pads: nat -> State, b: nat, j: nat, k: nat)
    requires j < 16 && k < 4
    ensures StreamByte(pads, 64 * b + 4 * j + k) == PadByte(pads(b)[j], k)
  {
    Remainder64(b, 4 * j + k);
    Remainder4(j, k);
    Remainder4(16 * b + j, k);
    assert 64 * b + 4 * j + k == 4 * (16 * b + j) + k;
  }

  lemma {:induction false} Remainder64(b: nat, r: nat)
    requires r < 64
    ensures (64 * b + r) / 64 == b && (64 * b + r) % 64 == r
  {
  }

  lemma {:induction false} Remainder4(b: nat, r: nat)
    requires r < 4
    ensures (4 * b + r) / 4 == b && (4 * b + r) % 4 == r
  {
  }

  /** xor32_blocks: the first count words of block b. */
  method XorWords(dest: array<byte>, source: seq<byte>, start: nat, pad: State, count: nat,
                  ghost pads: nat -> State, ghost b: nat)
    requires start == 64 * b && pad == pads(b) && count <= 16
    requires start + 4 * count <= |source| && start + 4 * count <= dest.Length
    requires Crypted(dest[..], source, pads, start)
    modifies dest
    ensures Crypted(dest[..], source, pads, start + 4 * count)
    ensures dest[start + 4 * count..] == old(dest[start + 4 * count..])
  {
    var j := 0;
    while j < count
      invariant j <= count && Crypted(dest[..], source, pads, start + 4 * j)
      invariant dest[start + 4 * count..] == old(dest[start + 4 * count..])
    {
      XorNextWord(dest, source, start, pad, j, pads, b);
      j := j + 1;
    }
  }

  method XorNextWord(dest: array<byte>, source: seq<byte>, start: nat, pad: State, j: nat,
                     ghost pads: nat -> State, ghost b: nat)
    requires start == 64 * b && pad == pads(b) && j < 16
    requires start + 4 * j + 4 <= |source| && start + 4 * j + 4 <= dest.Length
    requires Crypted(dest[..], source, pads, start + 4 * j)
    modifies dest
    ensures Crypted(dest[..], source, pads, start + 4 * j + 4)
    ensures dest[start + 4 * j + 4..] == old(dest[start + 4 * j + 4..])
  {
    var p := start + 4 * j;
    XorWordInto(dest, source, p, pad[j]);
    forall i: nat | i < p + 4 ensures dest[i] == XorByte(source[i], StreamByte(pads, i)) {
      if i < p {
        assert old(dest[..])[i] == XorByte(source[i], StreamByte(pads, i));
      } else {
        StreamWord(pads, b, j, i - p);
        assert dest[p + (i - p)] == XorByte(source[p + (i - p)], PadByte(pad[j], i - p));
      }
    }
  }

  /** The byte-wise tail of xor_block: up to three bytes of one word. */
  method XorTail(dest: array<byte>, source: seq<byte>, p: nat, w: word, rest: nat)
    requires rest < 4 && p + rest <= |source| && p + rest <= dest.Length
    modifies dest
    ensures forall k :: 0 <= k < rest ==> dest[p + k] == XorByte(source[p + k], PadByte(w, k))
    ensures forall i :: 0 <= i < dest.Length && !(p <= i < p + rest) ==> dest[i] == old(dest[i])
  {
    if rest == 1 {
      dest[p] := XorByte(source[p], PadByte(w, 0));
    } else if rest == 2 {
      dest[p] := XorByte(source[p], PadByte(w, 0));
      dest[p + 1] := XorByte(source[p + 1], PadByte(w, 1));
    } else if rest == 3 {
      dest[p] := XorByte(source[p], PadByte(w, 0));
      dest[p + 1] := XorByte(source[p + 1], PadByte(w, 1));
      dest[p + 2] := XorByte(source[p + 2], PadByte(w, 2));
    }
  }

  /** xor_block: whole words first, then the tail. */
  method XorBlock(dest: array<byte>, source: seq<byte>, start: nat, pad: State, size: nat,
                  ghost pads: nat -> State, ghost b: nat)
    requires start == 64 * b && pad == pads(b) && size < 64
    requires start + size <= |source| && start + size <= dest.Length
    requires Crypted(dest[..], source, pads, start)
    modifies dest
    ensures Crypted(dest[..], source, pads, start + size)
    ensures dest[start + size..] == old(dest[start + size..])
  {
    var words := size / 4;
    XorWords(dest, source, start, pad, words, pads, b);
    ghost var before := dest[..];
    assert dest[start + size..] == dest[start + 4 * words..][size - 4 * words..];
    XorTail(dest, source, start + 4 * words, pad[words], size % 4);
    TailCrypted(before, dest[..], source, start, pad, words, size % 4, pads, b);
  }

  lemma {:induction false} TailCrypted(before: seq<byte>, after: seq<byte>, source: seq<byte>, start: nat, pad: State,
                                       j: nat, rest: nat, pads: nat -> State, b: nat)
    requires start == 64 * b && pad == pads(b) && j < 16 && rest < 4
    requires |before| == |after| && Crypted(before, source, pads, start + 4 * j)
    requires start + 4 * j + rest <= |source| && start + 4 * j + rest <= |after|
    requires forall k :: 0 <= k < rest ==>
      after[start + 4 * j + k] == XorByte(source[start + 4 * j + k], PadByte(pad[j], k))
    requires forall i :: 0 <= i < start + 4 * j ==> after[i] == before[i]
    ensures Crypted(after, source, pads, start + 4 * j + rest)
  {
    var p := start + 4 * j;
    forall i: nat | i < p + rest ensures after[i] == XorByte(source[i], StreamByte(pads, i)) {
      if i < p {
        assert before[i] == XorByte(source[i], StreamByte(pads, i));
      } else {
        StreamWord(pads, b, j, i - p);
        assert after[p + (i - p)] == XorByte(source[p + (i - p)], PadByte(pad[j], i - p));
      }
    }
  }

  /** Block b of the keystream comes from state b, and the next state counts one further. */
  ghost predicate Chained(starts: nat -> State, pads: nat -> State) {
    forall b: nat :: pads(b) == Block(starts(b)) && starts(b + 1) == Counted(starts(b))
  }

  /** increment_counter. */
  function Counted(s: State): State { s[12 := Add(s[12], 1)] }

  lemma {:induction false} Advance(key: seq<byte>, nonce: seq<byte>, counter: word, b: nat)
    requires |key| == 32 && |nonce| == 12
    ensures Counted(Initial(key, nonce, (counter + b) % WORD32)) == Initial(key, nonce, (counter + (b + 1)) % WORD32)
  {
    NextCount(counter + b);
  }

  lemma {:induction false} NextCount(x: nat)
    ensures (x % WORD32 + 1) % WORD32 == (x + 1) % WORD32
  {
  }

  lemma {:induction false} KeystreamChained(key: seq<byte>, nonce: seq<byte>, counter: word)
    requires |key| == 32 && |nonce| == 12
    ensures Chained(Starts(key, nonce, counter), Keystream(key, nonce, counter))
  {
    var starts := Starts(key, nonce, counter);
    forall b: nat ensures starts(b + 1) == Counted(starts(b)) { Advance(key, nonce, counter, b); }
    BlocksChained(starts);
  }

  lemma {:induction false} BlocksChained(starts: nat -> State)
    requires forall b: nat :: starts(b + 1) == Counted(starts(b))
    ensures Chained(starts, BlocksFrom(starts))
  {
  }

  lemma {:induction false} FirstStart(key: seq<byte>, nonce: seq<byte>, counter: word)
    requires |key| == 32 && |nonce| == 12
    ensures Starts(key, nonce, counter)(0) == Initial(key, nonce, counter)
  {
  }

  /** chacha20_xor_stream: byte i of the source is xored with byte i of the keystream, whatever
      the length. What lies behind the source's length in dest is not touched. */
  method XorStream(dest: array<byte>, source: seq<byte>, key: seq<byte>, nonce: seq<byte>, counter: word)
    requires |source| <= dest.Length && |key| == 32 && |nonce| == 12
    modifies dest
    ensures Crypted(dest[..], source, Keystream(key, nonce, counter), |source|)
    ensures dest[|source|..] == old(dest[|source|..])
  {
    var state := Initial(key, nonce, counter);
    KeystreamChained(key, nonce, counter);
    FirstStart(key, nonce, counter);
    XorFrom(dest, source, state, Starts(key, nonce, counter), Keystream(key, nonce, counter));
  }

  method XorFrom(dest: array<byte>, source: seq<byte>, start: State, ghost starts: nat -> State, ghost pads: nat -> State)
    requires |source| <= dest.Length && Chained(starts, pads) && start == starts(0)
    modifies dest
    ensures Crypted(dest[..], source, pads, |source|) && dest[|source|..] == old(dest[|source|..])
  {
    var state := start;
    var b := 0;
    while b < |source| / 64
      invariant b <= |source| / 64 && state == starts(b)
      invariant Crypted(dest[..], source, pads, 64 * b) && dest[|source|..] == old(dest[|source|..])
    {
      var pad := CoreBlock(state);
      state := Counted(state);
      XorFullBlock(dest, source, 64 * b, pad, pads, b);
      b := b + 1;
    }
    var last := |source| % 64;
    if last > 0 {
      var pad := CoreBlock(state);
      XorBlock(dest, source, 64 * b, pad, last, pads, b);
    }
  }

  method XorFullBlock(dest: array<byte>, source: seq<byte>, start: nat, pad: State, ghost pads: nat -> State, ghost b: nat)
    requires start == 64 * b && pad == pads(b) && start + 64 <= |source| <= dest.Length
    requires Crypted(dest[..], source, pads, start)
    modifies dest
    ensures Crypted(dest[..], source, pads, 64 * (b + 1)) && dest[|source|..] == old(dest[|source|..])
  {
    ghost var before := dest[..];
    XorWords(dest, source, start, pad, 16, pads, b);
    assert dest[|source|..] == dest[start + 64..][|source| - start - 64..];
    assert before[|source|..] == before[start + 64..][|source| - start - 64..];
  }
}
