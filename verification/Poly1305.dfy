/** The Poly1305 message authentication code (section 2.5 of RFC 8439), and the streaming
    context that computes it in 64-bit limbs. */
module Poly1305 {
  import opened Bits
  import opened BitStream
  import opened MachineWords
  import opened PolyArithmetic
  import opened PolyFinish

  // ---------------------------------------------------------------- definition

  const CLAMP: nat := 0x0fff_fffc_0fff_fffc_0fff_fffc_0fff_ffff

  function R(key: seq<byte>): nat { And(Little(key, 0, 16), CLAMP) }

  function S(key: seq<byte>): nat { Little(key, 16, 16) }

  /** The accumulator after the first n whole blocks of the message. */
  function Accumulate(msg: seq<byte>, n: nat, r: nat): nat
    decreases n, msg
  {
    if n == 0 then 0 else ((Accumulate(msg, n - 1, r) + Little(msg, 16 * (n - 1), 16) + WORD128) * r) % P
  }

  /** The accumulator at the end: what is left over is a block with its own top bit. */
  function Final(msg: seq<byte>, r: nat): nat {
    var n := |msg| / 16;
    if |msg| % 16 == 0 then Accumulate(msg, n, r) else ((Accumulate(msg, n, r) + Little(msg + [1], 16 * n, 16)) * r) % P
  }

  /** The tag as a number. */
  function Tag(key: seq<byte>, msg: seq<byte>): nat { (Final(msg, R(key)) + S(key)) % WORD128 }

  /** n bytes, least-significant first. */
  function LittleBytes(v: nat, n: nat): (b: seq<byte>)
    ensures |b| == n
  {
    if n == 0 then [] else [v % 256] + LittleBytes(v / 256, n - 1)
  }

  // ---------------------------------------------------------------- little-endian numbers

  /** The n bytes of a from i on are those of b from j on. */
  ghost predicate SameBytes(a: seq<byte>, i: nat, b: seq<byte>, j: nat, n: nat) {
    forall k: nat :: i <= k < i + n ==> ByteAt(a, k) == ByteAt(b, k - i + j)
  }

  lemma {:induction false} LittleSame(a: seq<byte>, i: nat, b: seq<byte>, j: nat, n: nat)
    requires SameBytes(a, i, b, j, n)
    ensures Little(a, i, n) == Little(b, j, n)
    decreases n
  {
    if n > 0 {
      assert ByteAt(a, i) == ByteAt(b, j);
      LittleSame(a, i + 1, b, j + 1, n - 1);
    }
  }

  lemma {:induction false} LittleSplit(data: seq<byte>, i: nat, n: nat, k: nat)
    ensures Little(data, i, n + k) == Little(data, i, n) + Shl(Little(data, i + n, k), 8 * n)
    decreases k
  {
    if k > 0 {
      LittleSplit(data, i, n, k - 1);
      LittleSnoc(data, i, n + k - 1);
      LittleSnoc(data, i + n, k - 1);
      ShlAdd(Little(data, i + n, k - 1), Shl(ByteAt(data, i + n + k - 1), 8 * (k - 1)), 8 * n);
      ShlShl(ByteAt(data, i + n + k - 1), 8 * (k - 1), 8 * n);
    } else {
      ShlIsMul(0, 8 * n);
    }
  }

  /** A block in two words. */
  lemma {:induction false} TwoWords(data: seq<byte>, i: nat)
    ensures Little(data, i, 8) < WORD64 && Little(data, i + 8, 8) < WORD64
    ensures Little(data, i, 16) == Little(data, i, 8) + WORD64 * Little(data, i + 8, 8)
  {
    LittleSplit(data, i, 8, 8);
    LittleSnoc(data, i, 8);
    LittleSnoc(data, i + 8, 8);
    Powers();
    ShlIsMul(Little(data, i + 8, 8), 64);
  }

  lemma {:induction false} LittleOfBytes(v: nat, n: nat)
    ensures Little(LittleBytes(v, n), 0, n) == Low(v, 8 * n)
  {
    if n > 0 {
      var b := LittleBytes(v, n);
      LittleOfBytes(v / 256, n - 1);
      assert b[1..] == LittleBytes(v / 256, n - 1);
      assert SameBytes(b, 1, b[1..], 0, n - 1);
      LittleSame(b, 1, b[1..], 0, n - 1);
      LowStep(v, 8 * (n - 1));
    }
  }

  // ---------------------------------------------------------------- clamping

  /** And works on the low and the high part separately. */
  lemma {:induction false} AndSplit(a: nat, b: nat, c: nat, d: nat, n: nat)
    requires a < Pow2(n) && c < Pow2(n)
    ensures And(a + Shl(b, n), c + Shl(d, n)) == And(a, c) + Shl(And(b, d), n)
    ensures And(a, c) < Pow2(n)
    decreases n
  {
    if n == 0 {
      assert And(0, 0) == 0;
    } else {
      AndSplit(a / 2, b, c / 2, d, n - 1);
      AndStep(a + Shl(b, n), c + Shl(d, n));
      AndStep(a, c);
      assert (a + Shl(b, n)) / 2 == a / 2 + Shl(b, n - 1) && (c + Shl(d, n)) / 2 == c / 2 + Shl(d, n - 1);
    }
  }

  lemma {:induction false} AndLow(x: nat, m: nat)
    requires m < X44
    ensures And(x, m) == And(x % X44, m) <= m
  {
    Powers();
    ShlIsMul(x / X44, 44);
    ShlIsMul(0, 44);
    AndSplit(x % X44, x / X44, m, 0, 44);
    AndZero(x / X44);
    AndAtMost(x, m);
  }

  lemma {:induction false} AndHalves(x: nat, y: nat, a: nat, b: nat, c: nat, d: nat, n: nat)
    requires Pow2(n) == X44 && x == a + X44 * b && y == c + X44 * d && a < X44 && c < X44
    ensures And(x, y) == And(a, c) + X44 * And(b, d)
  {
    ShlIsMul(b, n);
    ShlIsMul(d, n);
    ShlIsMul(And(b, d), n);
    AndSplit(a, b, c, d, n);
  }

  lemma {:induction false} AndTwo(x: nat, y: nat, a: nat, b: nat, c: nat, d: nat)
    requires x == a + X44 * b && y == c + X44 * d && a < X44 && c < X44
    ensures And(x, y) == And(a, c) + X44 * And(b, d)
  {
    Powers();
    AndHalves(x, y, a, b, c, d, 44);
  }

  lemma {:induction false} AndLimbs(x: Limbs, m: Limbs)
    requires x.x0 < X44 && x.x1 < X44 && m.x0 < X44 && m.x1 < X44
    ensures And(x.Value(), m.Value()) == Limbs(And(x.x0, m.x0), And(x.x1, m.x1), And(x.x2, m.x2)).Value()
  {
    var u, v := x.x1 + X44 * x.x2, m.x1 + X44 * m.x2;
    AndTwo(u, v, x.x1, x.x2, m.x1, m.x2);
    AndTwo(x.Value(), m.Value(), x.x0, u, m.x0, v);
  }

  function Masks(): Limbs { Limbs(0xffc_0fff_ffff, 0xfff_ffc0_ffff, 0xf_ffff_fc0f) }

  /** The three masks of poly1305_init are the clamp, limb by limb. */
  lemma {:induction false} ClampLimbs(t0: nat, t1: nat)
    requires t0 < WORD64 && t1 < WORD64
    ensures var r := ClampedLimbs(t0, t1); r.Clamped() && r.Value() == And(t0 + WORD64 * t1, CLAMP)
  {
    SplitIs(t0, t1, 0);
    var x, m := Split(t0, t1, 0), Masks();
    AndLimbs(x, m);
    assert m.Value() == CLAMP;
    AndLow(t0, m.x0);
    AndLow(Straddle(t0, t1), m.x1);
    AndAtMost(t1 / 0x100_0000, m.x2);
    assert x.x2 == t1 / 0x100_0000;
  }

  /** r of poly1305_init. */
  function ClampedLimbs(t0: nat, t1: nat): Limbs {
    Limbs(And(t0, 0xffc_0fff_ffff), And(Straddle(t0, t1), 0xfff_ffc0_ffff), And(t1 / 0x100_0000, 0xf_ffff_fc0f))
  }

  // ---------------------------------------------------------------- messages

  lemma {:induction false} AccumulatePrefix(a: seq<byte>, b: seq<byte>, n: nat, r: nat)
    requires 16 * n <= |a| && a <= b
    ensures Accumulate(a, n, r) == Accumulate(b, n, r)
    decreases n
  {
    if n > 0 {
      AccumulatePrefix(a, b, n - 1, r);
      assert SameBytes(a, 16 * (n - 1), b, 16 * (n - 1), 16);
      LittleSame(a, 16 * (n - 1), b, 16 * (n - 1), 16);
    }
  }

  lemma {:induction false} AccumulateStep(msg: seq<byte>, n: nat, r: nat, h: nat, t0: nat, t1: nat, x: nat)
    requires h % P == Accumulate(msg, n, r) % P
    requires t0 + WORD64 * t1 == Little(msg, 16 * n, 16)
    requires x % P == ((h + t0 + WORD64 * t1 + WORD128) * r) % P
    ensures x % P == Accumulate(msg, n + 1, r) % P
  {
    var b := Little(msg, 16 * n, 16) + WORD128;
    var acc := Accumulate(msg, n, r);
    StepResidue(h, acc, b, r);
    ModTwice((acc + b) * r);
    NextAccumulated(msg, n, r, b, acc);
    assert h + t0 + WORD64 * t1 + WORD128 == h + b;
  }

  lemma {:induction false} StepResidue(h: nat, acc: nat, b: nat, r: nat)
    requires h % P == acc % P
    ensures ((h + b) * r) % P == ((acc + b) * r) % P
  {
    SameSum(h, acc, b);
    MulResidue(h + b, acc + b, r);
  }

  lemma {:induction false} NextAccumulated(msg: seq<byte>, n: nat, r: nat, b: nat, acc: nat)
    requires b == Little(msg, 16 * n, 16) + WORD128 && acc == Accumulate(msg, n, r)
    ensures Accumulate(msg, n + 1, r) == ((acc + b) * r) % P
  {
  }

  lemma {:induction false} SameSum(a: nat, b: nat, c: nat)
    requires a % P == b % P
    ensures (a + c) % P == (b + c) % P
  {
    var k := a / P - b / P;
    assert a == b + P * k;
    SameResidue(a + c, b + c, k);
  }

  lemma {:induction false} ModTwice(x: nat)
    ensures x % P % P == x % P
  {
  }

  /** h is the accumulator after n blocks of the message. */
  ghost predicate Accumulated(h: Limbs, msg: seq<byte>, n: nat, r: nat) {
    h.Reduced() && h.Value() % P == Accumulate(msg, n, r) % P
  }

  /** poly1305_blocks for count whole blocks of m from start on, which are the blocks of the
      message from n on. */
  method Blocks(before: Limbs, r: Limbs, m: seq<byte>, start: nat, count: nat, ghost msg: seq<byte>, ghost n: nat)
      returns (h: Limbs)
    requires r.Clamped() && start + 16 * count <= |m| && SameBytes(m, start, msg, 16 * n, 16 * count)
    requires Accumulated(before, msg, n, r.Value())
    ensures Accumulated(h, msg, n + count, r.Value())
  {
    h := before;
    var i := 0;
    while i != count
      invariant i <= count && Accumulated(h, msg, n + i, r.Value())
    {
      var p := start + 16 * i;
      h := OneBlock(h, r, m, p, msg, n + i);
      i := i + 1;
    }
  }

  method OneBlock(before: Limbs, r: Limbs, m: seq<byte>, p: nat, ghost msg: seq<byte>, ghost n: nat) returns (h: Limbs)
    requires r.Clamped() && p + 16 <= |m| && SameBytes(m, p, msg, 16 * n, 16)
    requires Accumulated(before, msg, n, r.Value())
    ensures Accumulated(h, msg, n + 1, r.Value())
  {
    TwoWords(m, p);
    WordIsLittle(m, p, 8);
    WordIsLittle(m, p + 8, 8);
    var t0, t1 := Word(m, p, 8), Word(m, p + 8, 8);
    h := MultiplyBlock(before, r, t0, t1, 0x100_0000_0000);
    LittleSame(m, p, msg, 16 * n, 16);
    assert X88 * 0x100_0000_0000 == WORD128;
    AccumulateStep(msg, n, r.Value(), before.Value(), t0, t1, h.Value());
  }

  class Context {
    var r: Limbs
    var h: Limbs
    var pad0: nat
    var pad1: nat
    var leftover: nat
    const buffer: array<byte>
    ghost var key: seq<byte>
    ghost var msg: seq<byte>

    /** The bytes that wait in the buffer are the end of the message so far. */
    ghost predicate Waiting()
      reads this, buffer
    {
      buffer.Length == 16 && leftover < 16 && leftover == |msg| % 16 &&
      buffer[..leftover] == msg[|msg| - leftover..]
    }

    ghost predicate Keyed()
      reads this
    {
      |key| == 32 && r.Clamped() && r.Value() == R(key) && pad0 < WORD64 && pad1 < WORD64 &&
      pad0 + WORD64 * pad1 == S(key)
    }

    ghost predicate Valid()
      reads this, buffer
    {
      Waiting() && Keyed() && Accumulated(h, msg, |msg| / 16, r.Value())
    }

    /** poly1305_init. */
    constructor (key: seq<byte>)
      requires |key| == 32
      ensures Valid() && this.key == key && msg == [] && fresh(buffer)
    {
      WordIsLittle(key, 0, 8);
      WordIsLittle(key, 8, 8);
      WordIsLittle(key, 16, 8);
      WordIsLittle(key, 24, 8);
      TwoWords(key, 0);
      TwoWords(key, 16);
      ClampLimbs(Word(key, 0, 8), Word(key, 8, 8));
      r := ClampedLimbs(Word(key, 0, 8), Word(key, 8, 8));
      h := Limbs(0, 0, 0);
      pad0, pad1 := Word(key, 16, 8), Word(key, 24, 8);
      leftover := 0;
      buffer := new byte[16];
      this.key, msg := key, [];
    }

    /** Copies count bytes of m behind those in the buffer. */
    method Keep(m: seq<byte>, start: nat, count: nat)
      requires buffer.Length == 16 && leftover + count <= 16 && start + count <= |m|
      modifies this`leftover, buffer
      ensures leftover == old(leftover) + count
      ensures buffer[..leftover] == old(buffer[..leftover]) + m[start..start + count]
    {
      var i := 0;
      while i < count
        invariant i <= count && leftover == old(leftover)
        invariant buffer[..leftover + i] == old(buffer[..leftover]) + m[start..start + i]
      {
        buffer[leftover + i] := m[start + i];
        assert buffer[..leftover + i + 1] == buffer[..leftover + i] + [m[start + i]];
        i := i + 1;
      }
      leftover := leftover + count;
    }

    /** The buffer after the bytes of whole up to done have been taken in. */
    ghost predicate Kept(whole: seq<byte>, done: nat)
      reads this, buffer
    {
      done <= |whole| && buffer.Length == 16 && leftover < 16 && leftover == done % 16 &&
      buffer[..leftover] == whole[done - leftover..done]
    }

    /** The state after the bytes of whole up to done have been taken in, apart from msg. */
    ghost predicate Taken(whole: seq<byte>, done: nat)
      reads this, buffer
    {
      Kept(whole, done) && Keyed() && Accumulated(h, whole, done / 16, r.Value())
    }

    lemma {:induction false} StartTaking(whole: seq<byte>)
      requires Valid() && msg <= whole
      ensures Taken(whole, |msg|)
    {
      AccumulatePrefix(msg, whole, |msg| / 16, r.Value());
      assert whole[|msg| - leftover..|msg|] == msg[|msg| - leftover..];
    }

    /** poly1305_update. Any split of a message gives the same state. */
    method Update(m: seq<byte>)
      requires Valid()
      modifies this`h, this`leftover, this`msg, buffer
      ensures Valid() && msg == old(msg) + m
    {
      ghost var whole := msg + m;
      StartTaking(whole);
      TakeAll(m, whole);
      Commit(whole);
    }

    /** Fills the buffer, then takes in whole blocks, and keeps the rest. */
    method TakeAll(m: seq<byte>, ghost whole: seq<byte>)
      requires whole == msg + m && Taken(whole, |msg|)
      modifies this`h, this`leftover, buffer
      ensures Taken(whole, |whole|)
    {
      var i := 0;
      if leftover > 0 { i := TopUp(m, whole); }
      if leftover == 0 {
        i := TakeBlocks(m, i, whole);
        TakeRest(m, i, whole);
      }
    }

    ghost method Commit(whole: seq<byte>)
      requires Taken(whole, |whole|)
      modifies this`msg
      ensures Valid() && msg == whole
    {
      msg := whole;
    }

    /** Fills the buffer, and processes it when it is full. */
    method TopUp(m: seq<byte>, ghost whole: seq<byte>) returns (i: nat)
      requires whole == msg + m && Taken(whole, |msg|) && leftover > 0
      modifies this`h, this`leftover, buffer
      ensures i <= |m| && Taken(whole, |msg| + i) && (leftover > 0 ==> i == |m|)
    {
      ghost var n := |msg| / 16;
      i := FillBuffer(m, whole);
      if leftover == 16 {
        FullBuffer(buffer[..], whole, n);
        h := Blocks(h, r, buffer[..], 0, 1, whole, n);
        leftover := 0;
      }
    }

    /** Copies as many bytes as fit. */
    method FillBuffer(m: seq<byte>, ghost whole: seq<byte>) returns (want: nat)
      requires whole == msg + m && Kept(whole, |msg|) && leftover > 0
      modifies this`leftover, buffer
      ensures want <= |m| && leftover <= 16
      ensures leftover < 16 ==> want == |m| && Kept(whole, |msg| + want) && (|msg| + want) / 16 == |msg| / 16
      ensures leftover == 16 ==> |msg| + want == 16 * (|msg| / 16) + 16 && buffer[..] == whole[16 * (|msg| / 16)..|msg| + want]
    {
      ghost var tail := leftover;
      want := 16 - leftover;
      if want > |m| { want := |m|; }
      Keep(m, 0, want);
      assert whole[|msg| - tail..|msg| + want] == whole[|msg| - tail..|msg|] + m[0..want];
      assert leftover == 16 ==> buffer[..leftover] == buffer[..];
    }

    /** Processes the whole blocks of m from start on. */
    method TakeBlocks(m: seq<byte>, start: nat, ghost whole: seq<byte>) returns (i: nat)
      requires whole == msg + m && start <= |m| && Taken(whole, |msg| + start) && leftover == 0
      modifies this`h
      ensures start <= i <= |m| < i + 16 && Taken(whole, |msg| + i)
    {
      var count := (|m| - start) / 16;
      i := start;
      if |m| - start >= 16 {
        ghost var n := (|msg| + start) / 16;
        BlocksEnd(|msg| + start, n, count);
        SameSuffix(m, start, msg, whole, n, 16 * count);
        h := Blocks(h, r, m, start, count, whole, n);
        i := start + 16 * count;
      }
    }

    /** Keeps what is left of m. */
    method TakeRest(m: seq<byte>, start: nat, ghost whole: seq<byte>)
      requires whole == msg + m && start <= |m| < start + 16 && Taken(whole, |msg| + start) && leftover == 0
      modifies this`leftover, buffer
      ensures Taken(whole, |whole|)
    {
      if |m| > start {
        Keep(m, start, |m| - start);
        assert whole[|whole| - leftover..|whole|] == m[start..start + (|m| - start)];
      }
    }

    /** A one after the last byte, and zeros after it. */
    method PadBuffer()
      requires buffer.Length == 16 && 0 < leftover < 16
      modifies buffer
      ensures buffer[..leftover] == old(buffer[..leftover]) && buffer[leftover] == 1
      ensures forall k :: leftover < k < 16 ==> buffer[k] == 0
    {
      buffer[leftover] := 1;
      var i := leftover + 1;
      while i < 16
        invariant leftover + 1 <= i <= 16 && buffer[..leftover] == old(buffer[..leftover]) && buffer[leftover] == 1
        invariant forall k :: leftover < k < i ==> buffer[k] == 0
      {
        buffer[i] := 0;
        i := i + 1;
      }
    }

    /** The last block. */
    method LastBlock()
      requires Valid() && leftover > 0
      modifies this`h, buffer
      ensures h.Reduced() && h.Value() % P == Final(msg, R(key)) % P
    {
      PadBuffer();
      h := FinalBlock(h, r, buffer[..], msg, leftover);
    }

    /** poly1305_finish. */
    method Finish() returns (mac: seq<byte>)
      requires Valid()
      modifies this, buffer
      ensures |mac| == 16 && Little(mac, 0, 16) == Tag(old(key), old(msg))
    {
      ghost var f := Final(msg, R(key));
      FinalBound(msg, R(key));
      if leftover > 0 { LastBlock(); }
      mac := Seal(h, pad0, pad1, f);
      h, r, pad0, pad1 := Limbs(0, 0, 0), Limbs(0, 0, 0), 0, 0;
    }
  }

  lemma {:induction false} FinalBound(msg: seq<byte>, r: nat)
    ensures Final(msg, r) < P && Final(msg, r) % P == Final(msg, r)
  {
  }

  method FinalBlock(before: Limbs, r: Limbs, b: seq<byte>, ghost msg: seq<byte>, leftover: nat) returns (h: Limbs)
    requires r.Clamped() && Accumulated(before, msg, |msg| / 16, r.Value())
    requires |b| == 16 && 0 < leftover < 16 && leftover == |msg| % 16 && b[..leftover] == msg[|msg| - leftover..]
    requires b[leftover] == 1 && forall k :: leftover < k < 16 ==> b[k] == 0
    ensures h.Reduced() && h.Value() % P == Final(msg, r.Value()) % P
  {
    TwoWords(b, 0);
    WordIsLittle(b, 0, 8);
    WordIsLittle(b, 8, 8);
    ghost var x := Little(b, 0, 16);
    h := MultiplyBlock(before, r, Word(b, 0, 8), Word(b, 8, 8), 0);
    FinalIs(before.Value(), b, msg, |msg| / 16, leftover, x, r.Value(), h.Value());
  }

  lemma {:induction false} FinalIs(before: nat, b: seq<byte>, msg: seq<byte>, n: nat, leftover: nat, x: nat, r: nat, h: nat)
    requires |b| == 16 && 0 < leftover < 16 && leftover == |msg| % 16 && b[..leftover] == msg[|msg| - leftover..]
    requires b[leftover] == 1 && forall k :: leftover < k < 16 ==> b[k] == 0
    requires n == |msg| / 16 && x == Little(b, 0, 16)
    requires before % P == Accumulate(msg, n, r) % P && h % P == ((before + x) * r) % P
    ensures h % P == Final(msg, r) % P
  {
    LastBytes(b, msg, leftover);
    LittleSame(b, 0, msg + [1], 16 * n, 16);
    FinalStep(before, Accumulate(msg, n, r), x, r, h);
  }

  lemma {:induction false} FinalStep(before: nat, acc: nat, x: nat, r: nat, h: nat)
    requires before % P == acc % P && h % P == ((before + x) * r) % P
    ensures h % P == ((acc + x) * r) % P % P
  {
    SameSum(before, acc, x);
    MulResidue(before + x, acc + x, r);
    ModTwice((acc + x) * r);
  }

  lemma {:induction false} LastBytes(b: seq<byte>, msg: seq<byte>, leftover: nat)
    requires |b| == 16 && 0 < leftover < 16 && leftover == |msg| % 16 && b[..leftover] == msg[|msg| - leftover..]
    requires b[leftover] == 1 && forall k :: leftover < k < 16 ==> b[k] == 0
    ensures SameBytes(b, 0, msg + [1], 16 * (|msg| / 16), 16)
  {
    var n := 16 * (|msg| / 16);
    forall k: nat | k < 16 ensures ByteAt(b, k) == ByteAt(msg + [1], k - 0 + n) {
      if k < leftover { assert b[..leftover][k] == msg[|msg| - leftover..][k]; }
    }
  }

  /** Carry, canonical residue, pad, and the bytes of the result. */
  method Seal(h: Limbs, pad0: nat, pad1: nat, ghost f: nat) returns (mac: seq<byte>)
    requires h.Reduced() && pad0 < WORD64 && pad1 < WORD64 && h.Value() % P == f % P && f < P
    ensures |mac| == 16 && Little(mac, 0, 16) == (f + pad0 + WORD64 * pad1) % WORD128
  {
    var n := FullCarry(h);
    n := Select(n);
    Residue(f);
    var lo, hi := AddPad(n, pad0, pad1);
    mac := Join(lo, hi);
  }

  lemma {:induction false} Residue(f: nat)
    requires f < P
    ensures f % P == f
  {
  }

  method Join(lo: nat, hi: nat) returns (mac: seq<byte>)
    requires lo < WORD64 && hi < WORD64
    ensures |mac| == 16 && Little(mac, 0, 16) == lo + WORD64 * hi
  {
    mac := LittleBytes(lo, 8) + LittleBytes(hi, 8);
    BothWords(mac, lo, hi);
  }

  lemma {:induction false} WordBytes(v: nat, mac: seq<byte>, i: nat)
    requires v < WORD64 && i + 8 <= |mac| && mac[i..i + 8] == LittleBytes(v, 8)
    ensures Little(mac, i, 8) == v
  {
    LittleOfBytes(v, 8);
    assert SameBytes(mac, i, mac[i..i + 8], 0, 8);
    LittleSame(mac, i, mac[i..i + 8], 0, 8);
    Powers();
    LowSmall(v, 64);
  }

  lemma {:induction false} BothWords(mac: seq<byte>, lo: nat, hi: nat)
    requires mac == LittleBytes(lo, 8) + LittleBytes(hi, 8) && lo < WORD64 && hi < WORD64
    ensures Little(mac, 0, 16) == lo + WORD64 * hi
  {
    TwoWords(mac, 0);
    WordBytes(lo, mac, 0);
    WordBytes(hi, mac, 8);
  }

  /** poly1305_auth. */
  method Authenticate(key: seq<byte>, msg: seq<byte>) returns (mac: seq<byte>)
    requires |key| == 32
    ensures |mac| == 16 && Little(mac, 0, 16) == Tag(key, msg)
  {
    var ctx := new Context(key);
    ctx.Update(msg);
    assert [] + msg == msg;
    mac := ctx.Finish();
  }

  lemma {:induction false} BlocksEnd(p: nat, n: nat, count: nat)
    requires n == p / 16 && p % 16 == 0
    ensures p == 16 * n && (p + 16 * count) / 16 == n + count && (p + 16 * count) % 16 == 0
  {
    assert p + 16 * count == 16 * (n + count);
  }

  lemma {:induction false} FullBuffer(b: seq<byte>, whole: seq<byte>, n: nat)
    requires |b| == 16 && 16 * n + 16 <= |whole| && b == whole[16 * n..16 * n + 16]
    ensures SameBytes(b, 0, whole, 16 * n, 16)
  {
    forall k: nat | k < 16 ensures ByteAt(b, k) == ByteAt(whole, k - 0 + 16 * n) {
      assert whole[16 * n..16 * n + 16][k] == whole[16 * n + k];
    }
  }

  lemma {:induction false} SameSuffix(m: seq<byte>, start: nat, msg: seq<byte>, whole: seq<byte>, n: nat, len: nat)
    requires whole == msg + m && start + len <= |m| && |msg| + start == 16 * n
    ensures SameBytes(m, start, whole, 16 * n, len)
  {
  }
}
