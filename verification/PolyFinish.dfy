/** The end of Poly1305: full carry, selection of the canonical residue without a branch, and
    the addition of the pad. */
module PolyFinish {
  import opened Bits
  import opened MachineWords
  import opened PolyArithmetic

  /** Limbs in which every number below 2^130 has one form. */
  predicate Canonical(h: Limbs) { h.x0 < X44 && h.x1 < X44 && h.x2 < X42 }

  /** One round of carries from the middle limb around to the middle limb. */
  method CarryAround(h0: nat, h1: nat, h2: nat) returns (n: Limbs, c: nat)
    requires h0 < X44 && h1 < X44 + 256 && h2 < X42
    ensures Canonical(n) && n.Value() + P * c == Limbs(h0, h1, h2).Value()
  {
    var e1 := h1 % X44;
    var e2 := h2 + h1 / X44;
    c := e2 / X42;
    var e0 := h0 + c * 5;
    n := Limbs(e0 % X44, e1 + e0 / X44, e2 % X42);
    assert h1 == X44 * (h1 / X44) + e1 && e2 == X42 * c + e2 % X42 && e0 == X44 * (e0 / X44) + e0 % X44;
  }

  /** The two rounds of carries in poly1305_finish. */
  method FullCarry(h: Limbs) returns (n: Limbs)
    requires h.Reduced()
    ensures Canonical(n) && n.Value() % P == h.Value() % P
  {
    var a, c := CarryAround(h.x0, h.x1, h.x2);
    var d;
    n, d := CarryAround(a.x0, a.x1, a.x2);
    SameResidue(h.Value(), n.Value(), c + d);
  }

  lemma {:induction false} AllOnes(x: nat)
    requires x < WORD64
    ensures And(x, WORD64 - 1) == x && And(x, 0) == 0
    ensures Or(0, x) == x && Or(x, 0) == x
  {
    Powers();
    AndMask(x, 64);
    LowSmall(x, 64);
    AndZero(x);
  }

  /** x with the mask c, or y with its complement. */
  function Choose(x: nat, y: nat, c: nat): nat
    requires c < WORD64
  {
    Or(And(x, WORD64 - 1 - c), And(y, c))
  }

  lemma {:induction false} ChooseIs(x: nat, y: nat)
    requires x < WORD64 && y < WORD64
    ensures Choose(x, y, 0) == x && Choose(x, y, WORD64 - 1) == y
  {
    AllOnes(x);
    AllOnes(y);
  }

  /** The sign bit of a 64-bit difference minus one: all ones if the difference is not
      negative, else zero. */
  lemma {:induction false} SignMask(x: nat)
    requires x < X42 + 1
    ensures var g := (x + WORD64 - X42) % WORD64;
      ((g / 0x8000_0000_0000_0000) + WORD64 - 1) % WORD64 == if x < X42 then 0 else WORD64 - 1
    ensures (x + WORD64 - X42) % WORD64 == if x < X42 then x + WORD64 - X42 else x - X42
  {
  }

  /** h if h < p, else h - p: the canonical residue. */
  method Select(h: Limbs) returns (n: Limbs)
    requires Canonical(h)
    ensures Canonical(n) && n.Value() == h.Value() % P
  {
    var g0 := h.x0 + 5;
    var c := g0 / X44;
    g0 := g0 % X44;
    var g1 := h.x1 + c;
    c := g1 / X44;
    g1 := g1 % X44;
    var top := h.x2 + c;
    var g2 := (top + WORD64 - X42) % WORD64;
    var mask := ((g2 / 0x8000_0000_0000_0000) + WORD64 - 1) % WORD64;
    SignMask(top);
    SelectIs(h, g0, g1, top);
    ChooseLimbs(h, Limbs(g0, g1, g2), mask);
    n := Chosen(h, Limbs(g0, g1, g2), mask);
  }

  function Chosen(h: Limbs, g: Limbs, c: nat): Limbs
    requires c < WORD64
  {
    Limbs(Choose(h.x0, g.x0, c), Choose(h.x1, g.x1, c), Choose(h.x2, g.x2, c))
  }

  lemma {:induction false} ChooseLimbs(h: Limbs, g: Limbs, c: nat)
    requires c == 0 || c == WORD64 - 1
    requires h.x0 < WORD64 && h.x1 < WORD64 && h.x2 < WORD64 && g.x0 < WORD64 && g.x1 < WORD64 && g.x2 < WORD64
    ensures Chosen(h, g, c) == if c == 0 then h else g
  {
    ChooseIs(h.x0, g.x0);
    ChooseIs(h.x1, g.x1);
    ChooseIs(h.x2, g.x2);
  }

  lemma {:induction false} SelectIs(h: Limbs, g0: nat, g1: nat, top: nat)
    requires Canonical(h) && g0 == (h.x0 + 5) % X44 && g1 == (h.x1 + (h.x0 + 5) / X44) % X44
    requires top == h.x2 + (h.x1 + (h.x0 + 5) / X44) / X44
    ensures top <= X42
    ensures h.Value() % P == if top < X42 then h.Value() else Limbs(g0, g1, top - X42).Value()
  {
    var c0 := (h.x0 + 5) / X44;
    var c1 := (h.x1 + c0) / X44;
    assert h.x0 + 5 == X44 * c0 + g0 && h.x1 + c0 == X44 * c1 + g1;
    assert h.Value() + 5 == Limbs(g0, g1, top).Value();
  }

  lemma {:induction false} LowWord(h0: nat, h1: nat)
    requires h0 < X44 && h1 < X44
    ensures Or(h0, (h1 * X44) % WORD64) == h0 + X44 * (h1 % 0x10_0000) < WORD64
  {
    Powers();
    var q, r := h1 / 0x10_0000, h1 % 0x10_0000;
    assert h1 == 0x10_0000 * q + r;
    ModWord(h1 * X44, q, X44 * r);
    ShlIsMul(r, 44);
    OrDisjoint(h0, r, 44);
  }

  lemma {:induction false} HighWord(h1: nat, h2: nat)
    requires h1 < X44 && h2 < X42
    ensures Or(h1 / 0x10_0000, (h2 * 0x100_0000) % WORD64) == h1 / 0x10_0000 + 0x100_0000 * (h2 % 0x100_0000_0000) < WORD64
  {
    Powers();
    var q, r := h2 / 0x100_0000_0000, h2 % 0x100_0000_0000;
    assert h2 == 0x100_0000_0000 * q + r;
    ModWord(h2 * 0x100_0000, q, 0x100_0000 * r);
    ShlIsMul(r, 24);
    OrDisjoint(h1 / 0x10_0000, r, 24);
  }

  /** The sum of the limbs modulo 2^130. */
  method AddLimbs(h: Limbs, p: Limbs) returns (n: Limbs)
    requires Canonical(h) && Canonical(p)
    ensures Canonical(n)
    ensures exists q: nat :: h.Value() + p.Value() == n.Value() + X88 * X42 * q
  {
    var e0 := h.x0 + p.x0;
    var e1 := h.x1 + p.x1 + e0 / X44;
    var e2 := h.x2 + p.x2 + e1 / X44;
    n := Limbs(e0 % X44, e1 % X44, e2 % X42);
    assert e0 == X44 * (e0 / X44) + e0 % X44 && e1 == X44 * (e1 / X44) + e1 % X44 && e2 == X42 * (e2 / X42) + e2 % X42;
    assert h.Value() + p.Value() == n.Value() + X88 * X42 * (e2 / X42);
  }

  /** The two words of the sum with the pad, modulo 2^128. */
  method AddPad(h: Limbs, t0: nat, t1: nat) returns (lo: nat, hi: nat)
    requires Canonical(h) && t0 < WORD64 && t1 < WORD64
    ensures lo < WORD64 && hi < WORD64 && lo + WORD64 * hi == (h.Value() + t0 + WORD64 * t1) % WORD128
  {
    SplitIs(t0, t1, 0);
    var n := AddLimbs(h, Split(t0, t1, 0));
    ghost var q: nat :| h.Value() + t0 + WORD64 * t1 == n.Value() + X88 * X42 * q;
    LowWord(n.x0, n.x1);
    HighWord(n.x1, n.x2);
    lo := Or(n.x0, (n.x1 * X44) % WORD64);
    hi := Or(n.x1 / 0x10_0000, (n.x2 * 0x100_0000) % WORD64);
    Words(n, lo, hi, h.Value() + t0 + WORD64 * t1, q);
  }

  lemma {:induction false} Words(n: Limbs, lo: nat, hi: nat, sum: nat, q: nat)
    requires Canonical(n) && sum == n.Value() + X88 * X42 * q
    requires lo == n.x0 + X44 * (n.x1 % 0x10_0000) < WORD64
    requires hi == n.x1 / 0x10_0000 + 0x100_0000 * (n.x2 % 0x100_0000_0000) < WORD64
    ensures lo + WORD64 * hi == sum % WORD128
  {
    var k, r := n.x2 / 0x100_0000_0000, n.x2 % 0x100_0000_0000;
    assert n.x2 == 0x100_0000_0000 * k + r;
    assert n.x1 == 0x10_0000 * (n.x1 / 0x10_0000) + n.x1 % 0x10_0000;
    assert sum == lo + WORD64 * hi + WORD128 * (k + 4 * q);
    ModWide(sum, k + 4 * q, lo + WORD64 * hi);
  }

  lemma {:induction false} ModWide(x: nat, q: nat, r: nat)
    requires x == WORD128 * q + r && r < WORD128
    ensures x % WORD128 == r
  {
  }
}
