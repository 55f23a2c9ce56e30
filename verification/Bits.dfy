/** Bytes, bits and unsigned machine words as natural numbers.
    A bit string is a sequence of bits in stream order. DEFLATE packs data elements
    least-significant bit first and Huffman codes most-significant bit first
    (section 3.1.1 of RFC 1951), so a bit string has two readings: `Val` and `MsbVal`. */
module Bits {
  type byte = x: int | 0 <= x < 256
  type bit = x: int | 0 <= x < 2

  datatype Option<T> = None | Some(value: T)

  function Min(a: int, b: int): int { if a <= b then a else b }

  function Pow2(n: nat): (r: nat)
    ensures r >= 1
  {
    if n == 0 then 1 else 2 * Pow2(n - 1)
  }

  lemma {:induction false} Pow2Add(a: nat, b: nat)
    ensures Pow2(a + b) == Pow2(a) * Pow2(b)
    decreases a
  {
    if a > 0 {
      Pow2Add(a - 1, b);
      assert Pow2(a + b) == 2 * Pow2(a - 1 + b);
    }
  }

  lemma {:induction false} Pow2Mono(a: nat, b: nat)
    requires a <= b
    ensures Pow2(a) <= Pow2(b)
    ensures a < b ==> Pow2(a) < Pow2(b)
    decreases b - a
  {
    if a < b { Pow2Mono(a + 1, b); }
  }

  /** The powers of two that occur as constants. */
  lemma {:induction false} Pow2Values()
    ensures Pow2(0) == 1 && Pow2(1) == 2 && Pow2(2) == 4 && Pow2(3) == 8
    ensures Pow2(4) == 16 && Pow2(5) == 32 && Pow2(6) == 64 && Pow2(7) == 128
    ensures Pow2(8) == 256 && Pow2(9) == 512 && Pow2(10) == 1024 && Pow2(11) == 2048
    ensures Pow2(12) == 4096 && Pow2(13) == 8192 && Pow2(14) == 16384 && Pow2(15) == 32768
    ensures Pow2(16) == 65536
  {
    assert Pow2(4) == 16;
    assert Pow2(8) == 256;
    assert Pow2(12) == 4096;
  }

  // ---------------------------------------------------------------- shifts and masks

  /** v << n */
  function Shl(v: nat, n: nat): nat {
    if n == 0 then v else 2 * Shl(v, n - 1)
  }

  /** v >> n */
  function Shr(v: nat, n: nat): nat {
    if n == 0 then v else Shr(v / 2, n - 1)
  }

  /** The n low bits of v. */
  function Low(v: nat, n: nat): nat {
    if n == 0 then 0 else v % 2 + 2 * Low(v / 2, n - 1)
  }

  lemma {:induction false} ShlIsMul(v: nat, n: nat)
    ensures Shl(v, n) == v * Pow2(n)
  {
    if n > 0 { ShlIsMul(v, n - 1); }
  }

  lemma {:induction false} ShrLowSplit(v: nat, n: nat)
    ensures v == Low(v, n) + Shl(Shr(v, n), n)
    ensures Low(v, n) < Pow2(n)
  {
    if n > 0 { ShrLowSplit(v / 2, n - 1); }
  }

  lemma {:induction false} LowBound(v: nat, n: nat)
    ensures Low(v, n) < Pow2(n)
  {
    ShrLowSplit(v, n);
  }

  lemma {:induction false} LowSmall(v: nat, n: nat)
    requires v < Pow2(n)
    ensures Low(v, n) == v && Shr(v, n) == 0
  {
    if n > 0 { LowSmall(v / 2, n - 1); }
  }

  lemma {:induction false} LowZero(n: nat)
    ensures Low(0, n) == 0 && Shr(0, n) == 0
  {
    LowSmall(0, n);
  }

  lemma {:induction false} ShrBound(v: nat, n: nat, k: nat)
    requires n <= k && v < Pow2(k)
    ensures Shr(v, n) < Pow2(k - n)
  {
    if n > 0 { ShrBound(v / 2, n - 1, k - 1); }
  }

  lemma {:induction false} LowLow(v: nat, n: nat, k: nat)
    requires n <= k
    ensures Low(Low(v, k), n) == Low(v, n)
  {
    if n > 0 { LowLow(v / 2, n - 1, k - 1); }
  }

  lemma {:induction false} ShrLow(v: nat, n: nat, k: nat)
    requires n <= k
    ensures Shr(Low(v, k), n) == Low(Shr(v, n), k - n)
  {
    if n > 0 { ShrLow(v / 2, n - 1, k - 1); }
  }

  lemma {:induction false} ShrShr(v: nat, a: nat, b: nat)
    ensures Shr(Shr(v, a), b) == Shr(v, a + b)
  {
    if a > 0 { ShrShr(v / 2, a - 1, b); }
  }

  lemma {:induction false} ShlShl(v: nat, a: nat, b: nat)
    ensures Shl(Shl(v, a), b) == Shl(v, a + b)
    decreases b
  {
    if b > 0 { ShlShl(v, a, b - 1); }
  }

  lemma {:induction false} LowShl(v: nat, n: nat)
    ensures Low(Shl(v, n), n) == 0 && Shr(Shl(v, n), n) == v
  {
    if n > 0 { LowShl(v, n - 1); }
  }

  lemma {:induction false} ShlAdd(a: nat, b: nat, n: nat)
    ensures Shl(a + b, n) == Shl(a, n) + Shl(b, n)
  {
    if n > 0 { ShlAdd(a, b, n - 1); }
  }

  lemma {:induction false} ShlPow2(a: nat, n: nat)
    ensures Shl(Pow2(a), n) == Pow2(a + n)
    ensures Shl(1, n) == Pow2(n)
  {
    if n > 0 { ShlPow2(a, n - 1); }
  }

  /** Consecutive multiples of 2^n are 2^n apart. */
  lemma {:induction false} ShlMono(a: nat, b: nat, n: nat)
    requires a < b
    ensures Shl(a, n) + Pow2(n) <= Shl(b, n)
  {
    ShlAdd(a, 1, n);
    ShlAdd(a + 1, b - a - 1, n);
    ShlPow2(0, n);
  }

  /** Adding a multiple of 2^n changes neither the n low bits nor anything below them. */
  lemma {:induction false} LowAddShl(v: nat, z: nat, n: nat)
    ensures Low(v + Shl(z, n), n) == Low(v, n)
  {
    if n > 0 {
      LowAddShl(v / 2, z, n - 1);
      AddEven(v, Shl(z, n - 1));
    }
  }

  lemma {:induction false} AddEven(v: nat, y: nat)
    ensures (v + 2 * y) % 2 == v % 2 && (v + 2 * y) / 2 == v / 2 + y
  {
  }

  lemma {:induction false} Byte8(v: nat)
    ensures Low(v, 8) == v % 256 && Shr(v, 8) == v / 256
  {
    Pow2Values();
    SplitByte(v, 8);
  }

  lemma {:induction false} SplitByte(v: nat, n: nat)
    requires Pow2(n) == 256
    ensures Low(v, n) == v % 256 && Shr(v, n) == v / 256
  {
    ShrLowSplit(v, n);
    ShlIsMul(Shr(v, n), n);
    LowBound(v, n);
    ByteAndRest(v, Shr(v, n), Low(v, n));
  }

  lemma {:induction false} ByteAndRest(v: nat, q: nat, r: nat)
    requires v == q * 256 + r && r < 256
    ensures v / 256 == q && v % 256 == r
  {
  }

  /** The lowest byte and the rest. */
  lemma {:induction false} LowStep(v: nat, n: nat)
    ensures Low(v, n + 8) == v % 256 + 256 * Low(v / 256, n)
  {
    var x := Low(v, n + 8);
    Byte8(x);
    Byte8(v);
    LowLow(v, 8, n + 8);
    ShrLow(v, 8, n + 8);
  }

  // ---------------------------------------------------------------- bit strings

  /** The number whose least-significant bit comes first. */
  function Val(bs: seq<bit>): (r: nat)
    ensures r < Pow2(|bs|)
  {
    if bs == [] then 0 else bs[0] + 2 * Val(bs[1..])
  }

  /** The n low bits of v, least-significant first. */
  function LsbBits(v: nat, n: nat): (bs: seq<bit>)
    ensures |bs| == n
  {
    if n == 0 then [] else [v % 2] + LsbBits(v / 2, n - 1)
  }

  /** The number whose most-significant bit comes first. */
  function MsbVal(bs: seq<bit>): (r: nat)
    ensures r < Pow2(|bs|)
  {
    if bs == [] then 0 else 2 * MsbVal(bs[..|bs| - 1]) + bs[|bs| - 1]
  }

  /** The n low bits of v, most-significant first. */
  function MsbBits(v: nat, n: nat): (bs: seq<bit>)
    ensures |bs| == n
  {
    if n == 0 then [] else MsbBits(v / 2, n - 1) + [v % 2]
  }

  lemma {:induction false} ValLsbBits(v: nat, n: nat)
    ensures Val(LsbBits(v, n)) == Low(v, n)
  {
    if n > 0 {
      ValLsbBits(v / 2, n - 1);
      assert LsbBits(v, n)[1..] == LsbBits(v / 2, n - 1);
    }
  }

  lemma {:induction false} LsbBitsVal(bs: seq<bit>)
    ensures LsbBits(Val(bs), |bs|) == bs
  {
    if bs != [] {
      LsbBitsVal(bs[1..]);
      assert bs == [bs[0]] + bs[1..];
    }
  }

  lemma {:induction false} ValInjective(a: seq<bit>, b: seq<bit>)
    requires |a| == |b| && Val(a) == Val(b)
    ensures a == b
  {
    LsbBitsVal(a);
    LsbBitsVal(b);
  }

  lemma {:induction false} MsbBitsVal(bs: seq<bit>)
    ensures MsbBits(MsbVal(bs), |bs|) == bs
  {
    if bs != [] {
      MsbBitsVal(bs[..|bs| - 1]);
    }
  }

  lemma {:induction false} MsbValBits(v: nat, n: nat)
    requires v < Pow2(n)
    ensures MsbVal(MsbBits(v, n)) == v
  {
    if n > 0 {
      MsbValBits(v / 2, n - 1);
      assert MsbBits(v, n)[..n - 1] == MsbBits(v / 2, n - 1);
    }
  }

  lemma {:induction false} MsbBitsAt(v: nat, n: nat, i: nat)
    requires i < n
    ensures MsbBits(v, n)[i] == Shr(v, n - 1 - i) % 2
  {
    if i < n - 1 { MsbBitsAt(v / 2, n - 1, i); }
  }

  lemma {:induction false} MsbValConcat(a: seq<bit>, b: seq<bit>)
    ensures MsbVal(a + b) == Shl(MsbVal(a), |b|) + MsbVal(b)
    decreases |b|
  {
    if b == [] {
      assert a + b == a;
    } else {
      assert (a + b)[..|a + b| - 1] == a + b[..|b| - 1];
      MsbValConcat(a, b[..|b| - 1]);
    }
  }

  lemma {:induction false} MsbBitsTake(v: nat, n: nat, k: nat)
    requires k <= n
    ensures MsbBits(v, n)[..k] == MsbBits(Shr(v, n - k), k)
    decreases n
  {
    if k < n { MsbBitsTake(v / 2, n - 1, k); }
  }

  lemma {:induction false} ValSnoc(a: seq<bit>, b: bit)
    ensures Val(a + [b]) == Val(a) + Shl(b, |a|)
  {
    if a != [] {
      assert (a + [b])[1..] == a[1..] + [b];
      ValSnoc(a[1..], b);
    } else {
      assert (a + [b])[1..] == [];
    }
  }

  lemma {:induction false} MsbZero(n: nat)
    ensures Val(MsbBits(0, n)) == 0
  {
    if n > 0 {
      MsbZero(n - 1);
      ValSnoc(MsbBits(0, n - 1), 0);
      ShlIsMul(0, n - 1);
    }
  }

  /** A prefix is given by the low bits of the value, a suffix by the rest. */
  lemma {:induction false} ValSplit(bs: seq<bit>, n: nat)
    requires n <= |bs|
    ensures Val(bs[..n]) == Low(Val(bs), n)
    ensures Val(bs[n..]) == Shr(Val(bs), n)
  {
    if n == 0 {
      assert bs[0..] == bs;
    } else {
      ValSplit(bs[1..], n - 1);
      assert bs[..n][1..] == bs[1..][..n - 1];
      assert bs[n..] == bs[1..][n - 1..];
    }
  }

  lemma {:induction false} LsbBitsTake(v: nat, n: nat, k: nat)
    requires k <= n
    ensures LsbBits(v, n)[..k] == LsbBits(v, k)
    ensures LsbBits(v, n)[k..] == LsbBits(Shr(v, k), n - k)
  {
    if k > 0 {
      LsbBitsTake(v / 2, n - 1, k - 1);
      assert LsbBits(v, n)[..k] == [v % 2] + LsbBits(v / 2, n - 1)[..k - 1];
      assert LsbBits(v, n)[k..] == LsbBits(v / 2, n - 1)[k - 1..];
    }
  }

  /** v has the bit string c as its low bits. */
  lemma {:induction false} LsbPrefix(v: nat, n: nat, c: seq<bit>)
    requires |c| <= n
    ensures c <= LsbBits(v, n) <==> Low(v, |c|) == Val(c)
  {
    LsbBitsTake(v, n, |c|);
    ValLsbBits(v, |c|);
    assert c <= LsbBits(v, n) <==> c == LsbBits(v, n)[..|c|];
    if Low(v, |c|) == Val(c) { ValInjective(LsbBits(v, |c|), c); }
  }

  // ---------------------------------------------------------------- byte streams

  /** The bits of a byte sequence in stream order (section 3.1.1 of RFC 1951). */
  function StreamBits(data: seq<byte>): (bs: seq<bit>)
    ensures |bs| == 8 * |data|
  {
    if data == [] then [] else LsbBits(data[0], 8) + StreamBits(data[1..])
  }

  lemma {:induction false} StreamBitsConcat(a: seq<byte>, b: seq<byte>)
    ensures StreamBits(a + b) == StreamBits(a) + StreamBits(b)
  {
    if a == [] {
      assert a + b == b;
    } else {
      assert (a + b)[1..] == a[1..] + b;
      StreamBitsConcat(a[1..], b);
    }
  }

  lemma {:induction false} StreamBitsDrop(data: seq<byte>, i: nat)
    requires i <= |data|
    ensures StreamBits(data)[8 * i..] == StreamBits(data[i..])
    ensures StreamBits(data)[..8 * i] == StreamBits(data[..i])
  {
    assert data == data[..i] + data[i..];
    StreamBitsConcat(data[..i], data[i..]);
  }

  /** The n bits at position p as a number, with zeros after the end of the stream. */
  function Window(s: seq<bit>, p: nat, n: nat): nat
    decreases n, s
  {
    if n == 0 || p >= |s| then 0 else s[p] + 2 * Window(s, p + 1, n - 1)
  }

  lemma {:induction false} WindowBound(s: seq<bit>, p: nat, n: nat)
    ensures Window(s, p, n) < Pow2(n)
    decreases n
  {
    if n > 0 { WindowBound(s, p + 1, n - 1); }
  }

  lemma {:induction false} WindowPrefix(s: seq<bit>, p: nat, n: nat, k: nat)
    requires n <= k
    ensures Window(s, p, n) == Low(Window(s, p, k), n)
    decreases n
  {
    if p >= |s| {
      LowZero(n);
    } else if n > 0 {
      WindowPrefix(s, p + 1, n - 1, k - 1);
    }
  }

  lemma {:induction false} WindowDrop(s: seq<bit>, p: nat, n: nat, k: nat)
    requires n <= k
    ensures Window(s, p + n, k - n) == Shr(Window(s, p, k), n)
    decreases n
  {
    if p >= |s| {
      LowZero(n);
    } else if n > 0 {
      WindowDrop(s, p + 1, n - 1, k - 1);
    }
  }

  /** Where the stream continues with the bits c, the window of |c| bits is their value. */
  lemma {:induction false} WindowIs(s: seq<bit>, p: nat, c: seq<bit>)
    requires p <= |s| && c <= s[p..]
    ensures Window(s, p, |c|) == Val(c)
    decreases |c|
  {
    if c != [] {
      assert s[p] == c[0] && s[p + 1..] == s[p..][1..];
      WindowIs(s, p + 1, c[1..]);
    }
  }

  // ---------------------------------------------------------------- bitwise operators

  function And(a: nat, b: nat): nat
    decreases a
  {
    if a == 0 then 0 else (if a % 2 == 1 && b % 2 == 1 then 1 else 0) + 2 * And(a / 2, b / 2)
  }

  function Or(a: nat, b: nat): nat
    decreases a + b
  {
    if a == 0 then b else if b == 0 then a else
    (if a % 2 == 1 || b % 2 == 1 then 1 else 0) + 2 * Or(a / 2, b / 2)
  }

  function Xor(a: nat, b: nat): nat
    decreases a + b
  {
    if a == 0 then b else if b == 0 then a else (a + b) % 2 + 2 * Xor(a / 2, b / 2)
  }

  lemma {:induction false} AndStep(a: nat, b: nat)
    ensures And(a, b) % 2 == (if a % 2 == 1 && b % 2 == 1 then 1 else 0) && And(a, b) / 2 == And(a / 2, b / 2)
  {
  }

  lemma {:induction false} OrStep(a: nat, b: nat)
    ensures Or(a, b) % 2 == (if a % 2 == 1 || b % 2 == 1 then 1 else 0) && Or(a, b) / 2 == Or(a / 2, b / 2)
  {
  }

  lemma {:induction false} AndAtMost(a: nat, b: nat)
    ensures And(a, b) <= a && And(a, b) <= b
    decreases a
  {
    if a > 0 { AndAtMost(a / 2, b / 2); }
  }

  lemma {:induction false} AndMask(a: nat, n: nat)
    ensures And(a, Pow2(n) - 1) == Low(a, n)
  {
    if a == 0 {
      LowZero(n);
    } else if n == 0 {
      AndZero(a);
    } else {
      AndMask(a / 2, n - 1);
      assert (Pow2(n) - 1) % 2 == 1 && (Pow2(n) - 1) / 2 == Pow2(n - 1) - 1;
    }
  }

  lemma {:induction false} AndZero(a: nat)
    ensures And(a, 0) == 0
  {
    if a > 0 { AndZero(a / 2); }
  }

  lemma {:induction false} AndSelf(a: nat)
    ensures And(a, a) == a
  {
    if a > 0 { AndSelf(a / 2); }
  }

  /** w & (w - 1) clears the lowest set bit, so it is zero exactly for powers of two. */
  lemma {:induction false} PowerOfTwoTest(w: nat) returns (k: nat)
    requires w > 0 && And(w, w - 1) == 0
    ensures w == Pow2(k)
  {
    k := 0;
    if w > 1 {
      if w % 2 == 0 {
        assert (w - 1) / 2 == w / 2 - 1;
        k := PowerOfTwoTest(w / 2);
        k := k + 1;
      } else {
        assert w / 2 == (w - 1) / 2;
        AndSelf(w / 2);
      }
    }
  }

  lemma {:induction false} PowerOfTwoPasses(k: nat)
    ensures And(Pow2(k), Pow2(k) - 1) == 0
  {
    if k > 0 {
      PowerOfTwoPasses(k - 1);
      assert (Pow2(k) - 1) / 2 == Pow2(k - 1) - 1;
    } else {
      assert And(1, 0) == 2 * And(0, 0);
    }
  }

  /** Or of a number below 2^n with a number shifted by n is their sum, and both can be
      read back. */
  lemma {:induction false} OrDisjoint(a: nat, b: nat, n: nat)
    requires a < Pow2(n)
    ensures Or(a, Shl(b, n)) == a + Shl(b, n)
    ensures Low(a + Shl(b, n), n) == a && Shr(a + Shl(b, n), n) == b
  {
    if n > 0 { OrDisjoint(a / 2, b, n - 1); }
  }

  /** Or with a number whose n low bits are zero leaves the n low bits alone. */
  lemma {:induction false} OrLow(a: nat, b: nat, n: nat)
    requires Low(b, n) == 0
    ensures Low(Or(a, b), n) == Low(a, n)
  {
    if n > 0 {
      if a == 0 {
        LowZero(n);
      } else if b != 0 {
        OrLow(a / 2, b / 2, n - 1);
      }
    }
  }

  lemma {:induction false} OrBound(a: nat, b: nat, n: nat)
    requires a < Pow2(n) && b < Pow2(n)
    ensures Or(a, b) < Pow2(n)
  {
    if a != 0 && b != 0 { OrBound(a / 2, b / 2, n - 1); }
  }

  lemma {:induction false} XorBound(a: nat, b: nat, n: nat)
    requires a < Pow2(n) && b < Pow2(n)
    ensures Xor(a, b) < Pow2(n)
  {
    if a != 0 && b != 0 { XorBound(a / 2, b / 2, n - 1); }
  }

  /** Applying the same mask twice gives the value back. */
  lemma {:induction false} XorTwice(a: nat, b: nat)
    ensures Xor(Xor(a, b), b) == a
    decreases a + b
  {
    if b == 0 {
    } else if a == 0 {
      XorSelf(b);
    } else {
      XorTwice(a / 2, b / 2);
      var x := Xor(a, b);
      assert x % 2 == (a + b) % 2 && x / 2 == Xor(a / 2, b / 2);
      assert x == 0 ==> a / 2 == b / 2;
      assert (x + b) % 2 == a % 2;
    }
  }

  lemma {:induction false} XorSelf(a: nat)
    ensures Xor(a, a) == 0
  {
    if a > 0 { XorSelf(a / 2); }
  }
}
