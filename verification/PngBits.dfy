/** Pixels of less than a byte: bits of a buffer counted from the most-significant bit of each
    byte, copied one by one, possibly within one buffer. */
module PngBits {
  import opened Bits

  // ---------------------------------------------------------------- the bits of a buffer

  function BitAt(data: seq<byte>, p: nat): bit {
    if p / 8 < |data| then Shr(data[p / 8], 7 - p % 8) % 2 else 0
  }

  ghost function BitsOf(data: seq<byte>): (b: seq<bit>)
    ensures |b| == 8 * |data|
  {
    seq(8 * |data|, p requires 0 <= p < 8 * |data| => BitAt(data, p))
  }

  ghost function Splice(b: seq<bit>, p: nat, piece: seq<bit>): (r: seq<bit>)
    requires p + |piece| <= |b|
    ensures |r| == |b|
  {
    b[..p] + piece + b[p + |piece|..]
  }

  lemma {:induction false} OrBit(v: nat, n: nat, k: nat)
    ensures Shr(Or(v, Pow2(n)), k) % 2 == if k == n then 1 else Shr(v, k) % 2
    decreases n + k
  {
    var x := Or(v, Pow2(n));
    OrStep(v, Pow2(n));
    if n == 0 {
      if k > 0 {
        assert x / 2 == Or(v / 2, 0);
        assert Or(v / 2, 0) == v / 2;
      }
    } else if k > 0 {
      OrBit(v / 2, n - 1, k - 1);
    }
  }

  /** Bit k of ~(1 << n) in w bits. */
  lemma {:induction false} MaskBit(w: nat, n: nat, k: nat)
    requires n < w && k < w
    ensures Pow2(n) < Pow2(w) && Shr(Pow2(w) - 1 - Pow2(n), k) % 2 == if k == n then 0 else 1
    decreases w
  {
    Pow2Mono(n, w);
    var m := Pow2(w) - 1 - Pow2(n);
    if n == 0 {
      assert m % 2 == 0 && m / 2 == Pow2(w - 1) - 1;
      if k > 0 { OnesBit(w - 1, k - 1); }
    } else {
      assert m % 2 == 1 && m / 2 == Pow2(w - 1) - 1 - Pow2(n - 1);
      if k > 0 { MaskBit(w - 1, n - 1, k - 1); }
    }
  }

  lemma {:induction false} OnesBit(w: nat, k: nat)
    requires k < w
    ensures Shr(Pow2(w) - 1, k) % 2 == 1
  {
    assert (Pow2(w) - 1) % 2 == 1 && (Pow2(w) - 1) / 2 == Pow2(w - 1) - 1;
    if k > 0 { OnesBit(w - 1, k - 1); }
  }

  lemma {:induction false} AndBit(a: nat, b: nat, k: nat)
    ensures Shr(And(a, b), k) % 2 == if Shr(a, k) % 2 == 1 && Shr(b, k) % 2 == 1 then 1 else 0
    decreases k
  {
    AndStep(a, b);
    if k > 0 { AndBit(a / 2, b / 2, k - 1); }
  }

  /** The byte with one bit set to the given value. */
  function WithBit(v: byte, n: nat, b: bit): byte
    requires n < 8
  {
    Pow2Values();
    MaskBit(8, n, n);
    OrBound(v, Pow2(n), 8);
    AndAtMost(v, 255 - Pow2(n));
    if b == 0 then And(v, 255 - Pow2(n)) else Or(v, Pow2(n))
  }

  lemma {:induction false} WithBitIs(v: byte, n: nat, b: bit, k: nat)
    requires n < 8 && k < 8
    ensures Shr(WithBit(v, n, b), k) % 2 == if k == n then b else Shr(v, k) % 2
  {
    Pow2Values();
    OrBit(v, n, k);
    MaskBit(8, n, k);
    AndBit(v, 255 - Pow2(n), k);
  }

  lemma {:induction false} SetOneBit(before: seq<byte>, after: seq<byte>, p: nat, b: bit)
    requires |before| == |after| && p < 8 * |before|
    requires after == before[p / 8 := WithBit(before[p / 8], 7 - p % 8, b)]
    ensures BitsOf(after) == BitsOf(before)[p := b]
  {
    forall q: nat | q < 8 * |before| ensures BitAt(after, q) == if q == p then b else BitAt(before, q) {
      if q / 8 == p / 8 {
        WithBitIs(before[p / 8], 7 - p % 8, b, 7 - q % 8);
        SameQuotient(p, q);
      }
    }
  }

  lemma {:induction false} SameQuotient(p: nat, q: nat)
    requires p / 8 == q / 8
    ensures p == q <==> 7 - p % 8 == 7 - q % 8
  {
  }

  /** The bits of a byte determine it. */
  lemma {:induction false} ByteFromBits(a: nat, b: nat, n: nat)
    requires a < Pow2(n) && b < Pow2(n) && forall k: nat :: k < n ==> Shr(a, k) % 2 == Shr(b, k) % 2
    ensures a == b
    decreases n
  {
    if n > 0 {
      assert Shr(a, 0) % 2 == Shr(b, 0) % 2;
      forall k: nat | k < n - 1 ensures Shr(a / 2, k) % 2 == Shr(b / 2, k) % 2 {
        assert Shr(a, k + 1) % 2 == Shr(b, k + 1) % 2;
      }
      ByteFromBits(a / 2, b / 2, n - 1);
    }
  }

  lemma {:induction false} BytesFromBits(a: seq<byte>, b: seq<byte>)
    requires BitsOf(a) == BitsOf(b)
    ensures a == b
  {
    assert |BitsOf(a)| == 8 * |a| && |BitsOf(b)| == 8 * |b|;
    forall i | 0 <= i < |a| ensures a[i] == b[i] {
      Pow2Values();
      forall k: nat | k < 8 ensures Shr(a[i], k) % 2 == Shr(b[i], k) % 2 {
        ByteBit(a, i, k);
        ByteBit(b, i, k);
        assert BitsOf(a)[8 * i + 7 - k] == BitsOf(b)[8 * i + 7 - k];
      }
      ByteFromBits(a[i], b[i], 8);
    }
  }

  lemma {:induction false} ByteBit(data: seq<byte>, i: nat, k: nat)
    requires i < |data| && k < 8
    ensures BitAt(data, 8 * i + 7 - k) == Shr(data[i], k) % 2
  {
    var p := 8 * i + 7 - k;
    assert p / 8 == i && p % 8 == 7 - k;
  }

  lemma {:induction false} BitsOfSlice(data: seq<byte>, i: nat, j: nat)
    requires i <= j <= |data|
    ensures BitsOf(data[i..j]) == BitsOf(data)[8 * i..8 * j]
  {
    forall p: nat | p < 8 * (j - i) ensures BitAt(data[i..j], p) == BitAt(data, 8 * i + p) {
      assert (8 * i + p) / 8 == i + p / 8 && (8 * i + p) % 8 == p % 8;
    }
  }

  // ---------------------------------------------------------------- reading and setting

  /** setBitOfReversedStream. */
  method SetBit(out: array<byte>, p: nat, b: bit)
    requires p < 8 * out.Length
    modifies out
    ensures BitsOf(out[..]) == old(BitsOf(out[..]))[p := b]
  {
    ghost var before := out[..];
    out[p / 8] := WithBit(out[p / 8], 7 - p % 8, b);
    SetOneBit(before, out[..], p, b);
  }

  /** readBitFromReversedStream. */
  method ReadBit(input: array<byte>, p: nat) returns (b: bit)
    requires p < 8 * input.Length
    ensures b == BitsOf(input[..])[p]
  {
    b := Shr(input[p / 8], 7 - p % 8) % 2;
  }

  /** x bits from position i of the stream from are copied to position o, and the rest of it is
      still there. */
  ghost predicate CopiedSoFar(b: seq<bit>, before: seq<bit>, o: nat, c: seq<bit>, from: seq<bit>, i: nat, x: nat) {
    i + x <= |from| == |c| && o + x <= |before| && b == Splice(before, o, from[i..i + x]) && c[i + x..] == from[i + x..]
  }

  lemma {:induction false} NothingCopied(b: seq<bit>, o: nat, c: seq<bit>, i: nat)
    requires i <= |c| && o <= |b|
    ensures CopiedSoFar(b, b, o, c, c, i, 0)
  {
    assert c[i..i] == [];
  }

  /** n bits copied one by one. Within one buffer the source must not start before the target. */
  method CopyBits(out: array<byte>, o: nat, input: array<byte>, i: nat, n: nat)
    requires (out != input || o <= i) && o + n <= 8 * out.Length && i + n <= 8 * input.Length
    modifies out
    ensures BitsOf(out[..]) == Splice(old(BitsOf(out[..])), o, old(BitsOf(input[..]))[i..i + n])
  {
    ghost var from := BitsOf(input[..]);
    ghost var before := BitsOf(out[..]);
    NothingCopied(before, o, from, i);
    var x := 0;
    while x < n
      invariant x <= n && CopiedSoFar(BitsOf(out[..]), before, o, BitsOf(input[..]), from, i, x)
    {
      CopyBit(out, o, input, i, x, before, from);
      x := x + 1;
    }
  }

  method CopyBit(out: array<byte>, o: nat, input: array<byte>, i: nat, x: nat, ghost before: seq<bit>,
                 ghost from: seq<bit>)
    requires (out != input || o <= i) && o + x < 8 * out.Length == |before| && i + x < 8 * input.Length == |from|
    requires CopiedSoFar(BitsOf(out[..]), before, o, BitsOf(input[..]), from, i, x)
    modifies out
    ensures CopiedSoFar(BitsOf(out[..]), before, o, BitsOf(input[..]), from, i, x + 1)
  {
    ghost var bits, mid := BitsOf(input[..]), BitsOf(out[..]);
    var b := ReadBit(input, i + x);
    SetBit(out, o + x, b);
    CopiedNext(mid, before, o, bits, from, i, x, b, BitsOf(input[..]));
  }

  lemma {:induction false} CopiedNext(b: seq<bit>, before: seq<bit>, o: nat, c: seq<bit>, from: seq<bit>, i: nat, x: nat, v: bit, d: seq<bit>)
    requires CopiedSoFar(b, before, o, c, from, i, x) && i + x < |from| && o + x < |before| && v == c[i + x]
    requires d == c || (|c| == |b| && o <= i && d == b[o + x := v] && c == b)
    ensures CopiedSoFar(b[o + x := v], before, o, d, from, i, x + 1)
  {
    assert v == c[i + x..][0] == from[i + x..][0] == from[i + x];
    SpliceNext(before, o, from[i..i + x], v);
    assert from[i..i + (x + 1)] == from[i..i + x] + [v];
    assert c[i + (x + 1)..] == c[i + x..][1..] && from[i + (x + 1)..] == from[i + x..][1..];
    assert d[i + (x + 1)..] == c[i + (x + 1)..];
  }

  lemma {:induction false} SpliceNext(before: seq<bit>, o: nat, piece: seq<bit>, b: bit)
    requires o + |piece| < |before|
    ensures Splice(before, o, piece)[o + |piece| := b] == Splice(before, o, piece + [b])
  {
  }
}
