/** The SHA-256 hash (FIPS 180-4): the standard's definition, and the streaming object that computes
    it one byte at a time. */
module Sha256 {
  import opened Bits
  import opened MachineWords

  // ---------------------------------------------------------------- definition

  function AndWord(a: word, b: word): word {
    AndAtMost(a, b);
    And(a, b)
  }

  function NotWord(a: word): word { WORD32 - 1 - a }

  /** The functions of section 4.1.2. */
  function Ch(x: word, y: word, z: word): word { XorWord(AndWord(x, y), AndWord(NotWord(x), z)) }

  function Maj(x: word, y: word, z: word): word { XorWord(XorWord(AndWord(x, y), AndWord(x, z)), AndWord(y, z)) }

  function BigSigma0(x: word): word { XorWord(XorWord(RotateRight(x, 2), RotateRight(x, 13)), RotateRight(x, 22)) }

  function BigSigma1(x: word): word { XorWord(XorWord(RotateRight(x, 6), RotateRight(x, 11)), RotateRight(x, 25)) }

  function Sigma0(x: word): word { XorWord(XorWord(RotateRight(x, 7), RotateRight(x, 18)), ShiftRight(x, 3)) }

  function Sigma1(x: word): word { XorWord(XorWord(RotateRight(x, 17), RotateRight(x, 19)), ShiftRight(x, 10)) }

  /** Eight working variables. */
  datatype Hash = Hash(a: word, b: word, c: word, d: word, e: word, f: word, g: word, h: word)

  /** One round, with T1 and T2 as in section 6.2.2, step 3. */
  function Round(s: Hash, k: word, w: word): Hash {
    var t1 := (s.h + BigSigma1(s.e) + Ch(s.e, s.f, s.g) + k + w) % WORD32;
    var t2 := (BigSigma0(s.a) + Maj(s.a, s.b, s.c)) % WORD32;
    Hash((t1 + t2) % WORD32, s.a, s.b, s.c, (s.d + t1) % WORD32, s.e, s.f, s.g)
  }

  type RoundFunction = (Hash, word, word) -> Hash

  /** The state after n rounds. */
  ghost function Rounds(f: RoundFunction, k: seq<word>, w: seq<word>, s: Hash, n: nat): Hash
    requires n <= |k| && n <= |w|
    decreases n, s
  {
    if n == 0 then s else f(Rounds(f, k, w, s, n - 1), k[n - 1], w[n - 1])
  }

  /** Word t of the message schedule (section 6.2.2, step 1). */
  function NextWord(w: seq<word>): word
    requires |w| >= 16
  {
    var t := |w|;
    (Sigma1(w[t - 2]) + w[t - 7] + Sigma0(w[t - 15]) + w[t - 16]) % WORD32
  }

  /** The first n words of the message schedule. */
  ghost function Schedule(block: seq<word>, n: nat): (w: seq<word>)
    requires |block| == 16 <= n
    ensures |w| == n
    decreases n, block
  {
    if n == 16 then block else
      var w := Schedule(block, n - 1);
      w + [NextWord(w)]
  }

  function Sum(s: Hash, t: Hash): Hash {
    Hash(Add(s.a, t.a), Add(s.b, t.b), Add(s.c, t.c), Add(s.d, t.d), Add(s.e, t.e), Add(s.f, t.f), Add(s.g, t.g),
         Add(s.h, t.h))
  }

  /** The hash after one more block. */
  ghost function Compress(k: seq<word>, s: Hash, block: seq<word>): Hash
    requires |k| == 64 && |block| == 16
  {
    Sum(s, Rounds(Round, k, Schedule(block, 64), s, 64))
  }

  /** Four bytes as a word, most-significant first. */
  function BigWord(data: seq<byte>, p: nat): word
    requires p + 4 <= |data|
  {
    Glue(Glue(Glue(data[p], data[p + 1]), data[p + 2]), data[p + 3])
  }

  function Glue(high: nat, low: byte): nat { 256 * high + low }

  function BlockWords(data: seq<byte>, p: nat): (w: seq<word>)
    requires p + 64 <= |data|
    ensures |w| == 16
  {
    seq(16, i requires 0 <= i < 16 => BigWord(data, p + 4 * i))
  }

  /** The initial value of section 5.3.3. */
  function Initial(): Hash {
    Hash(0x6a09e667, 0xbb67ae85, 0x3c6ef372, 0xa54ff53a, 0x510e527f, 0x9b05688c, 0x1f83d9ab, 0x5be0cd19)
  }

  // ---------------------------------------------------------------- the code's own forms

  /** majority of the code. */
  function Majority(a: word, b: word, c: word): word { OrWord(AndWord(a, OrWord(b, c)), AndWord(b, c)) }

  lemma {:induction false} AndHalf(a: nat, b: nat)
    ensures And(a, b) % 2 == (if a % 2 == 1 && b % 2 == 1 then 1 else 0) && And(a, b) / 2 == And(a / 2, b / 2)
  {
  }

  lemma {:induction false} OrHalf(a: nat, b: nat)
    ensures Or(a, b) % 2 == (if a % 2 == 1 || b % 2 == 1 then 1 else 0) && Or(a, b) / 2 == Or(a / 2, b / 2)
  {
  }

  lemma {:induction false} XorHalf(a: nat, b: nat)
    ensures Xor(a, b) % 2 == (if a % 2 == b % 2 then 0 else 1) && Xor(a, b) / 2 == Xor(a / 2, b / 2)
  {
  }

  /** The two expressions for the majority agree on every bit. */
  lemma {:induction false} MajorityIsMaj(a: nat, b: nat, c: nat)
    ensures Or(And(a, Or(b, c)), And(b, c)) == Xor(Xor(And(a, b), And(a, c)), And(b, c))
    decreases a + b + c
  {
    if a == 0 && b == 0 && c == 0 {
    } else {
      MajorityIsMaj(a / 2, b / 2, c / 2);
      OrForm(a, b, c);
      XorForm(a, b, c);
    }
  }

  function MajBit(a: nat, b: nat, c: nat): bit {
    if a % 2 + b % 2 + c % 2 >= 2 then 1 else 0
  }

  lemma {:induction false} OrForm(a: nat, b: nat, c: nat)
    ensures var x := Or(And(a, Or(b, c)), And(b, c));
            x % 2 == MajBit(a, b, c) && x / 2 == Or(And(a / 2, Or(b / 2, c / 2)), And(b / 2, c / 2))
  {
    OrHalf(b, c);
    AndHalf(a, Or(b, c));
    AndHalf(b, c);
    OrHalf(And(a, Or(b, c)), And(b, c));
  }

  lemma {:induction false} XorForm(a: nat, b: nat, c: nat)
    ensures var x := Xor(Xor(And(a, b), And(a, c)), And(b, c));
            x % 2 == MajBit(a, b, c) && x / 2 == Xor(Xor(And(a / 2, b / 2), And(a / 2, c / 2)), And(b / 2, c / 2))
  {
    AndHalf(a, b);
    AndHalf(a, c);
    AndHalf(b, c);
    XorHalf(And(a, b), And(a, c));
    XorHalf(Xor(And(a, b), And(a, c)), And(b, c));
  }

  lemma {:induction false} MajorityAgrees(a: word, b: word, c: word)
    ensures Majority(a, b, c) == Maj(a, b, c)
  {
    MajorityIsMaj(a, b, c);
  }

  lemma {:induction false} ModAdd(a: nat, b: nat)
    ensures (a % WORD32 + b) % WORD32 == (a + b) % WORD32
  {
  }

  /** Adding with a wrap after each step is adding with one wrap at the end. */
  lemma {:induction false} FiveTerms(a: word, b: word, c: word, d: word, e: word)
    ensures Add(Add(Add(Add(a, b), c), d), e) == (c + e + d + b + a) % WORD32
  {
    ModAdd(a + b, c);
    ModAdd(a + b + c, d);
    ModAdd(a + b + c + d, e);
  }

  lemma {:induction false} FourTerms(a: word, b: word, c: word, d: word)
    ensures Add(Add(Add(a, b), c), d) == (a + b + c + d) % WORD32
  {
    ModAdd(a + b, c);
    ModAdd(a + b + c, d);
  }

  /** One iteration of the round loop. */
  method RoundStep(s: Hash, k: word, w: word) returns (t: Hash)
    ensures t == Round(s, k, w)
  {
    var a, b, c, d, e, f, g, h := s.a, s.b, s.c, s.d, s.e, s.f, s.g, s.h;
    var maj := Majority(a, b, c);
    var xorA := XorWord(XorWord(RotateRight(a, 2), RotateRight(a, 13)), RotateRight(a, 22));
    var ch := Ch(e, f, g);
    var xorE := XorWord(XorWord(RotateRight(e, 6), RotateRight(e, 11)), RotateRight(e, 25));
    var sum := Add(Add(Add(Add(w, k), h), ch), xorE);
    var newA, newE := Add(Add(xorA, maj), sum), Add(d, sum);
    MajorityAgrees(a, b, c);
    FiveTerms(w, k, h, ch, xorE);
    h := g;
    g := f;
    f := e;
    e := newE;
    d := c;
    c := b;
    b := a;
    a := newA;
    t := Hash(a, b, c, d, e, f, g, h);
  }

  lemma {:induction false} OrCommutes(a: nat, b: nat)
    ensures Or(a, b) == Or(b, a)
    decreases a + b
  {
    if a > 0 && b > 0 { OrCommutes(a / 2, b / 2); }
  }

  lemma {:induction false} OrOnto(high: nat, low: byte, n: nat, p: nat)
    requires Pow2(n) == p && Pow2(n + 8) == 256 * p
    ensures Or(Shl(high, n + 8), Shl(low, n)) == Shl(Glue(high, low), n)
  {
    ShlIsMul(high, n + 8);
    ShlIsMul(low, n);
    ShlIsMul(Glue(high, low), n);
    assert low * p < 256 * p;
    OrCommutes(Shl(high, n + 8), Shl(low, n));
    OrDisjoint(Shl(low, n), high, n + 8);
    Terms(high, low, p);
  }

  lemma {:induction false} Terms(high: nat, low: nat, p: nat)
    ensures (256 * high + low) * p == high * (256 * p) + low * p
  {
  }

  /** The shifts and ors of the code. */
  function ShiftedWord(b0: byte, b1: byte, b2: byte, b3: byte): nat {
    Or(Or(Or(Shl(b0, 24), Shl(b1, 16)), Shl(b2, 8)), b3)
  }

  lemma {:induction false} Powers()
    ensures Pow2(0) == 1 && Pow2(8) == 256 && Pow2(16) == 65536 && Pow2(24) == 256 * 65536
  {
    Pow2Values();
    Pow2Add(8, 16);
  }

  lemma {:induction false} ShiftedIsBig(b0: byte, b1: byte, b2: byte, b3: byte)
    ensures ShiftedWord(b0, b1, b2, b3) == Glue(Glue(Glue(b0, b1), b2), b3)
  {
    Powers();
    OrOnto(b0, b1, 16, 65536);
    OrOnto(Glue(b0, b1), b2, 8, 256);
    OrOnto(Glue(Glue(b0, b1), b2), b3, 0, 1);
  }

  method LoadWord(data: array<byte>, j: nat) returns (x: word)
    requires j + 4 <= data.Length
    ensures x == BigWord(data[..], j)
  {
    ShiftedIsBig(data[j], data[j + 1], data[j + 2], data[j + 3]);
    x := ShiftedWord(data[j], data[j + 1], data[j + 2], data[j + 3]);
  }

  /** The first sixteen words, read from the buffer. */
  method LoadBlock(data: array<byte>) returns (m: seq<word>)
    requires data.Length == 64
    ensures m == BlockWords(data[..], 0)
  {
    m := [];
    var i, j := 0, 0;
    while i < 16
      invariant i <= 16 && j == 4 * i && m == BlockWords(data[..], 0)[..i]
    {
      var x := LoadWord(data, j);
      m := m + [x];
      i, j := i + 1, j + 4;
    }
  }

  method WordAt(m: seq<word>, k: nat) returns (x: word)
    requires 16 <= k == |m|
    ensures x == NextWord(m)
  {
    FourTerms(Sigma1(m[k - 2]), m[k - 7], Sigma0(m[k - 15]), m[k - 16]);
    x := Add(Add(Add(Sigma1(m[k - 2]), m[k - 7]), Sigma0(m[k - 15])), m[k - 16]);
  }

  /** The other 48 words. */
  method ExtendBlock(block: seq<word>) returns (m: seq<word>)
    requires |block| == 16
    ensures m == Schedule(block, 64)
  {
    m := block;
    var k := 16;
    while k < 64
      invariant 16 <= k <= 64 && m == Schedule(block, k)
    {
      var x := WordAt(m, k);
      m := m + [x];
      k := k + 1;
    }
  }

  /** transform. */
  method Transform(k: seq<word>, state: Hash, data: array<byte>) returns (next: Hash)
    requires |k| == 64 && data.Length == 64
    ensures next == Compress(k, state, BlockWords(data[..], 0))
  {
    var block := LoadBlock(data);
    var m := ExtendBlock(block);
    var s := state;
    var i := 0;
    while i < 64
      invariant i <= 64 && s == Rounds(Round, k, m, state, i)
    {
      s := RoundStep(s, k[i], m[i]);
      i := i + 1;
    }
    next := Sum(state, s);
  }

  // ---------------------------------------------------------------- constants

  function RoundConstants0(): (k: seq<word>)
    ensures |k| == 16
  {
    [0x428a2f98, 0x71374491, 0xb5c0fbcf, 0xe9b5dba5, 0x3956c25b, 0x59f111f1, 0x923f82a4, 0xab1c5ed5,
     0xd807aa98, 0x12835b01, 0x243185be, 0x550c7dc3, 0x72be5d74, 0x80deb1fe, 0x9bdc06a7, 0xc19bf174]
  }

  function RoundConstants1(): (k: seq<word>)
    ensures |k| == 16
  {
    [0xe49b69c1, 0xefbe4786, 0x0fc19dc6, 0x240ca1cc, 0x2de92c6f, 0x4a7484aa, 0x5cb0a9dc, 0x76f988da,
     0x983e5152, 0xa831c66d, 0xb00327c8, 0xbf597fc7, 0xc6e00bf3, 0xd5a79147, 0x06ca6351, 0x14292967]
  }

  function RoundConstants2(): (k: seq<word>)
    ensures |k| == 16
  {
    [0x27b70a85, 0x2e1b2138, 0x4d2c6dfc, 0x53380d13, 0x650a7354, 0x766a0abb, 0x81c2c92e, 0x92722c85,
     0xa2bfe8a1, 0xa81a664b, 0xc24b8b70, 0xc76c51a3, 0xd192e819, 0xd6990624, 0xf40e3585, 0x106aa070]
  }

  function RoundConstants3(): (k: seq<word>)
    ensures |k| == 16
  {
    [0x19a4c116, 0x1e376c08, 0x2748774c, 0x34b0bcb5, 0x391c0cb3, 0x4ed8aa4a, 0x5b9cca4f, 0x682e6ff3,
     0x748f82ee, 0x78a5636f, 0x84c87814, 0x8cc70208, 0x90befffa, 0xa4506ceb, 0xbef9a3f7, 0xc67178f2]
  }

  /** K of section 4.2.2. */
  function RoundConstants(): (k: seq<word>)
    ensures |k| == 64
  {
    seq(64, t requires 0 <= t < 64 => Constant(t))
  }

  function Constant(t: nat): word {
    match t / 16
    case 0 => RoundConstants0()[t % 16]
    case 1 => RoundConstants1()[t % 16]
    case 2 => RoundConstants2()[t % 16]
    case _ => RoundConstants3()[t % 16]
  }
}
