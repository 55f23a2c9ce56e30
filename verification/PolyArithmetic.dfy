/** One block of Poly1305 in limbs of 44, 44 and 42 bits, with 64-bit and 128-bit words. */
module PolyArithmetic {
  import opened Bits
  import opened MachineWords

  /** 2^130 - 5 */
  const P: int := 0x3_ffff_ffff_ffff_ffff_ffff_ffff_ffff_fffb
  const X44: int := 0x1000_0000_0000
  const X42: int := 0x400_0000_0000
  const X88: int := 0x100_0000_0000_0000_0000_0000
  const WORD128: int := 0x1_0000_0000_0000_0000_0000_0000_0000_0000

  datatype Limbs = Limbs(x0: nat, x1: nat, x2: nat) {
    function Value(): nat { x0 + X44 * x1 + X88 * x2 }

    /** What every block leaves: only the middle limb may exceed its width. */
    predicate Reduced() { x0 < X44 && x1 < X44 + 256 && x2 < X42 }

    /** The limbs of a clamped key. */
    predicate Clamped() { x0 < X44 && x1 < X44 && x2 < 0x10_0000_0000 }
  }

  lemma {:induction false} MulBound(a: nat, b: nat, c: nat, d: nat)
    requires a <= c && b <= d
    ensures a * b <= c * d
  {
    assert a * b <= c * b;
    assert c * b <= c * d;
  }

  lemma {:induction false} SameResidue(a: nat, b: nat, k: int)
    requires a == b + P * k
    ensures a % P == b % P
  {
  }

  lemma {:induction false} MulResidue(a: nat, b: nat, r: nat)
    requires a % P == b % P
    ensures (a * r) % P == (b * r) % P
  {
    var k := a / P - b / P;
    assert a == b + P * k;
    assert a * r == b * r + P * (k * r);
    SameResidue(a * r, b * r, k * r);
  }

  /** The three columns of the product, with 2^132 folded to 20. */
  lemma {:induction false} Columns(h: Limbs, r: Limbs)
    ensures var d0 := h.x0 * r.x0 + h.x1 * (20 * r.x2) + h.x2 * (20 * r.x1);
      var d1 := h.x0 * r.x1 + h.x1 * r.x0 + h.x2 * (20 * r.x2);
      var d2 := h.x0 * r.x2 + h.x1 * r.x1 + h.x2 * r.x0;
      h.Value() * r.Value() ==
        d0 + X44 * d1 + X88 * d2 + P * (4 * (h.x1 * r.x2 + h.x2 * r.x1) + 4 * X44 * (h.x2 * r.x2))
  {
    var p00, p01, p02 := h.x0 * r.x0, h.x0 * r.x1, h.x0 * r.x2;
    var p10, p11, p12 := h.x1 * r.x0, h.x1 * r.x1, h.x1 * r.x2;
    var p20, p21, p22 := h.x2 * r.x0, h.x2 * r.x1, h.x2 * r.x2;
    Distribute(h.x0, r);
    Distribute(h.x1, r);
    Distribute(h.x2, r);
    Spread(h, r.Value());
    assert h.x1 * (20 * r.x2) == 20 * p12 && h.x2 * (20 * r.x1) == 20 * p21 && h.x2 * (20 * r.x2) == 20 * p22;
    Fold(p00, p01, p02, p10, p11, p12, p20, p21, p22);
  }

  lemma {:induction false} Distribute(a: nat, r: Limbs)
    ensures a * r.Value() == a * r.x0 + X44 * (a * r.x1) + X88 * (a * r.x2)
  {
  }

  lemma {:induction false} Spread(h: Limbs, v: nat)
    ensures h.Value() * v == h.x0 * v + X44 * (h.x1 * v) + X88 * (h.x2 * v)
  {
  }

  lemma {:induction false} Fold(p00: nat, p01: nat, p02: nat, p10: nat, p11: nat, p12: nat, p20: nat, p21: nat, p22: nat)
    ensures (p00 + X44 * p01 + X88 * p02) + X44 * (p10 + X44 * p11 + X88 * p12) + X88 * (p20 + X44 * p21 + X88 * p22)
         == (p00 + 20 * p12 + 20 * p21) + X44 * (p01 + p10 + 20 * p22) + X88 * (p02 + p11 + p20) +
            P * (4 * (p12 + p21) + 4 * X44 * p22)
  {
  }

  /** The partial reduction of the columns. */
  function Carry(d0: nat, d1: nat, d2: nat): Limbs {
    var e1 := d1 + d0 / X44;
    var e2 := d2 + e1 / X44;
    var e0 := d0 % X44 + 5 * (e2 / X42);
    Limbs(e0 % X44, e1 % X44 + e0 / X44, e2 % X42)
  }

  lemma {:induction false} CarryIs(d0: nat, d1: nat, d2: nat)
    ensures d0 + X44 * d1 + X88 * d2 == Carry(d0, d1, d2).Value() + P * ((d2 + (d1 + d0 / X44) / X44) / X42)
  {
    var c0 := d0 / X44;
    var e1 := d1 + c0;
    var c1 := e1 / X44;
    var e2 := d2 + c1;
    var c2 := e2 / X42;
    var e0 := d0 % X44 + 5 * c2;
    assert d0 == X44 * c0 + d0 % X44 && e1 == X44 * c1 + e1 % X44 && e2 == X42 * c2 + e2 % X42;
    assert e0 == X44 * (e0 / X44) + e0 % X44;
  }

  // ---------------------------------------------------------------- words

  /** 64-bit and 128-bit operations. */
  function Add64(a: nat, b: nat): nat { (a + b) % WORD64 }

  function Mul64(a: nat, b: nat): nat { (a * b) % WORD64 }

  function Mul128(a: nat, b: nat): nat { (a * b) % WORD128 }

  function Add128(a: nat, b: nat): nat { (a + b) % WORD128 }

  lemma {:induction false} Powers()
    ensures Pow2(20) == 0x10_0000 && Pow2(24) == 0x100_0000 && Pow2(40) == 0x100_0000_0000
    ensures Pow2(44) == X44 && Pow2(64) == WORD64
  {
    Pow2Values();
    Pow2Add(10, 10);
    Pow2Add(12, 12);
    Pow2Add(20, 20);
    Pow2Add(20, 24);
    Pow2Add(40, 24);
  }

  /** The second limb of two words: the top 20 bits of the first, or-ed with the second
      shifted up. */
  function Straddle(t0: nat, t1: nat): nat {
    Or(t0 / X44, (t1 * 0x10_0000) % WORD64)
  }

  lemma {:induction false} Div44(x: nat, q: nat, r: nat)
    requires x == X44 * q + r && r < X44
    ensures x / X44 == q && x % X44 == r
  {
  }

  lemma {:induction false} ModWord(x: nat, q: nat, r: nat)
    requires x == WORD64 * q + r && r < WORD64
    ensures x % WORD64 == r
  {
  }

  lemma {:induction false} StraddleIs(t0: nat, t1: nat)
    requires t0 < WORD64 && t1 < WORD64
    ensures Straddle(t0, t1) == t0 / X44 + 0x10_0000 * (t1 % X44)
  {
    var q, r := t1 / X44, t1 % X44;
    assert t1 == X44 * q + r;
    ModWord(t1 * 0x10_0000, q, 0x10_0000 * r);
    Powers();
    ShlIsMul(r, 20);
    OrDisjoint(t0 / X44, r, 20);
  }

  /** The limbs of a 128-bit number in two words, and of the bit above it. */
  function Split(t0: nat, t1: nat, hibit: nat): Limbs {
    Limbs(t0 % X44, Straddle(t0, t1) % X44, Or(t1 / 0x100_0000 % X42, hibit))
  }

  lemma {:induction false} SplitIs(t0: nat, t1: nat, hibit: nat)
    requires t0 < WORD64 && t1 < WORD64 && (hibit == 0 || hibit == 0x100_0000_0000)
    ensures Split(t0, t1, hibit).Value() == t0 + WORD64 * t1 + X88 * hibit
    ensures Split(t0, t1, hibit).x0 < X44 && Split(t0, t1, hibit).x1 < X44 && Split(t0, t1, hibit).x2 < X42
  {
    var lo, hi := t1 % 0x100_0000, t1 / 0x100_0000;
    assert t1 == 0x100_0000 * hi + lo && hi < 0x100_0000_0000;
    MiddleLimb(t0, t1, hi, lo);
    TopLimb(hi, hibit);
    assert t0 == X44 * (t0 / X44) + t0 % X44;
  }

  lemma {:induction false} MiddleLimb(t0: nat, t1: nat, hi: nat, lo: nat)
    requires t0 < WORD64 && t1 < WORD64 && t1 == 0x100_0000 * hi + lo && lo < 0x100_0000
    ensures Straddle(t0, t1) % X44 == t0 / X44 + 0x10_0000 * lo
  {
    StraddleIs(t0, t1);
    var u, v := hi / 0x10_0000, hi % 0x10_0000;
    assert hi == 0x10_0000 * u + v;
    Div44(t1, u, 0x100_0000 * v + lo);
    var a := t0 / X44;
    assert t0 == X44 * a + t0 % X44;
    Div44(a + 0x10_0000 * (0x100_0000 * v + lo), v, a + 0x10_0000 * lo);
  }

  lemma {:induction false} TopLimb(hi: nat, hibit: nat)
    requires hi < 0x100_0000_0000 && (hibit == 0 || hibit == 0x100_0000_0000)
    ensures Or(hi % X42, hibit) == hi + hibit
  {
    Powers();
    OrTop(hi, hibit, 40, 0x100_0000_0000);
    assert hi % X42 == hi;
  }

  lemma {:induction false} OrTop(a: nat, b: nat, n: nat, top: nat)
    requires a < top == Pow2(n) && (b == 0 || b == top)
    ensures Or(a, b) == a + b
  {
    ShlPow2(0, n);
    ShlIsMul(0, n);
    OrDisjoint(a, if b == 0 then 0 else 1, n);
  }

  // ---------------------------------------------------------------- a block

  /** The sums of products of one block fit 128 bits, and the carries fit 64 bits. */
  lemma {:induction false} ProductBounds(h: Limbs, r: Limbs)
    requires h.x0 < 2 * X44 && h.x1 < 2 * X44 + 256 && h.x2 < 2 * X42 && r.Clamped()
    ensures 20 * r.x1 < WORD64 && 20 * r.x2 < WORD64
    ensures h.x0 * r.x0 + h.x1 * (20 * r.x2) + h.x2 * (20 * r.x1) < 0x2000_0000_0000_0000_0000_0000
    ensures h.x0 * r.x1 + h.x1 * r.x0 + h.x2 * (20 * r.x2) < 0x800_0000_0000_0000_0000_0000
    ensures h.x0 * r.x2 + h.x1 * r.x1 + h.x2 * r.x0 < 0x800_0000_0000_0000_0000_0000
  {
    MulBound(h.x0, r.x0, 2 * X44, X44);
    MulBound(h.x1, 20 * r.x2, 2 * X44 + 256, 20 * 0x10_0000_0000);
    MulBound(h.x2, 20 * r.x1, 2 * X42, 20 * X44);
    MulBound(h.x0, r.x1, 2 * X44, X44);
    MulBound(h.x1, r.x0, 2 * X44 + 256, X44);
    MulBound(h.x2, 20 * r.x2, 2 * X42, 20 * 0x10_0000_0000);
    MulBound(h.x0, r.x2, 2 * X44, 0x10_0000_0000);
    MulBound(h.x1, r.x1, 2 * X44 + 256, X44);
    MulBound(h.x2, r.x0, 2 * X42, X44);
  }

  lemma {:induction false} Fits64(a: nat)
    requires a < WORD64
    ensures a % WORD64 == a
  {
  }

  lemma {:induction false} Fits128(a: nat)
    requires a < WORD128
    ensures a % WORD128 == a
  {
  }

  /** Sum of three products, each step in 128 bits. */
  method Column(a: nat, b: nat, c: nat, d: nat, e: nat, f: nat) returns (x: nat)
    requires a * b + c * d + e * f < WORD128
    ensures x == a * b + c * d + e * f
  {
    assert 0 <= a * b && 0 <= c * d && 0 <= e * f;
    Fits128(a * b);
    Fits128(c * d);
    Fits128(e * f);
    Fits128(a * b + c * d);
    Fits128(a * b + c * d + e * f);
    x := Mul128(a, b);
    x := Add128(x, Mul128(c, d));
    x := Add128(x, Mul128(e, f));
  }

  /** One carry of a 128-bit column: the limb and what goes to the next column. */
  method CarryOut(d: nat, c: nat) returns (limb: nat, out: nat)
    requires d < 0x2000_0000_0000_0000_0000_0000 && c < WORD64
    ensures limb == (d + c) % X44 && out == (d + c) / X44 && out < 0x4_0000_0000_0000
  {
    Fits128(d + c);
    var e := Add128(d, c);
    LowLimb(e);
    Fits64(e / X44);
    limb, out := e % WORD64 % X44, (e / X44) % WORD64;
  }

  method CarryOut42(d: nat, c: nat) returns (limb: nat, out: nat)
    requires d < 0x800_0000_0000_0000_0000_0000 && c < 0x4_0000_0000_0000
    ensures limb == (d + c) % X42 && out == (d + c) / X42 && out < 0x3_0000_0000_0000
  {
    Fits128(d + c);
    var e := Add128(d, c);
    LowLimb42(e);
    Fits64(e / X42);
    limb, out := e % WORD64 % X42, (e / X42) % WORD64;
  }

  /** The carries of poly1305_blocks. */
  method CarryColumns(d0: nat, d1: nat, d2: nat) returns (n: Limbs)
    requires d0 < 0x2000_0000_0000_0000_0000_0000 && d1 < 0x800_0000_0000_0000_0000_0000
    requires d2 < 0x800_0000_0000_0000_0000_0000
    ensures n == Carry(d0, d1, d2) && n.Reduced()
  {
    var h0, c0 := CarryOut(d0, 0);
    var h1, c1 := CarryOut(d1, c0);
    var h2, c2 := CarryOut42(d2, c1);
    n := FoldTop(h0, h1, h2, c2);
  }

  /** What is above 2^130 counts five times at the bottom. */
  method FoldTop(h0: nat, h1: nat, h2: nat, top: nat) returns (n: Limbs)
    requires h0 < X44 && h1 < X44 && h2 < X42 && top < 0x3_0000_0000_0000
    ensures n == Limbs((h0 + 5 * top) % X44, h1 + (h0 + 5 * top) / X44, h2) && n.Reduced()
  {
    Fits64(top * 5);
    Fits64(h0 + top * 5);
    var e := Add64(h0, Mul64(top, 5));
    var c := e / X44;
    Fits64(h1 + c);
    n := Limbs(e % X44, Add64(h1, c), h2);
  }

  lemma {:induction false} LowLimb(d: nat)
    ensures d % WORD64 % X44 == d % X44
  {
    var q, r := d / WORD64, d % WORD64;
    assert d == WORD64 * q + r;
    Div44(d, 0x10_0000 * q + r / X44, r % X44);
  }

  lemma {:induction false} LowLimb42(d: nat)
    ensures d % WORD64 % X42 == d % X42
  {
    var q, r := d / WORD64, d % WORD64;
    assert d == WORD64 * q + r;
    assert d == X42 * (0x40_0000 * q + r / X42) + r % X42;
  }

  /** One round of poly1305_blocks: add the block, multiply by r, reduce. No operation
      overflows, and the limbs stay in bounds. */
  method MultiplyBlock(h: Limbs, r: Limbs, t0: nat, t1: nat, hibit: nat) returns (n: Limbs)
    requires h.Reduced() && r.Clamped() && t0 < WORD64 && t1 < WORD64 && (hibit == 0 || hibit == 0x100_0000_0000)
    ensures n.Reduced()
    ensures n.Value() % P == ((h.Value() + t0 + WORD64 * t1 + X88 * hibit) * r.Value()) % P
  {
    var a := AddMessage(h, t0, t1, hibit);
    ProductBounds(a, r);
    Fits64(20 * r.x1);
    Fits64(20 * r.x2);
    var s1, s2 := Mul64(r.x1, 20), Mul64(r.x2, 20);
    var d0 := Column(a.x0, r.x0, a.x1, s2, a.x2, s1);
    var d1 := Column(a.x0, r.x1, a.x1, r.x0, a.x2, s2);
    var d2 := Column(a.x0, r.x2, a.x1, r.x1, a.x2, r.x0);
    n := CarryColumns(d0, d1, d2);
    Reduction(a, r, n, d0, d1, d2);
  }

  method AddMessage(h: Limbs, t0: nat, t1: nat, hibit: nat) returns (a: Limbs)
    requires h.Reduced() && t0 < WORD64 && t1 < WORD64 && (hibit == 0 || hibit == 0x100_0000_0000)
    ensures a.x0 < 2 * X44 && a.x1 < 2 * X44 + 256 && a.x2 < 2 * X42
    ensures a.Value() == h.Value() + t0 + WORD64 * t1 + X88 * hibit
  {
    SplitIs(t0, t1, hibit);
    var m := Split(t0, t1, hibit);
    Fits64(h.x0 + m.x0);
    Fits64(h.x1 + m.x1);
    Fits64(h.x2 + m.x2);
    a := Limbs(Add64(h.x0, m.x0), Add64(h.x1, m.x1), Add64(h.x2, m.x2));
  }

  lemma {:induction false} Reduction(a: Limbs, r: Limbs, n: Limbs, d0: nat, d1: nat, d2: nat)
    requires d0 == a.x0 * r.x0 + a.x1 * (20 * r.x2) + a.x2 * (20 * r.x1)
    requires d1 == a.x0 * r.x1 + a.x1 * r.x0 + a.x2 * (20 * r.x2)
    requires d2 == a.x0 * r.x2 + a.x1 * r.x1 + a.x2 * r.x0
    requires n == Carry(d0, d1, d2)
    ensures n.Value() % P == (a.Value() * r.Value()) % P
  {
    Columns(a, r);
    CarryIs(d0, d1, d2);
    var q := 4 * (a.x1 * r.x2 + a.x2 * r.x1) + 4 * X44 * (a.x2 * r.x2);
    SameResidue(a.Value() * r.Value(), n.Value(), q + (d2 + (d1 + d0 / X44) / X44) / X42);
  }
}
