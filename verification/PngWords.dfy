/** Sizes and pixel addresses as the source computes them, in 32 bits, and exactly when they are
    what they are meant to be. */
module PngWords {
  import opened MachineWords
  import opened Adam7

  function U32(v: nat): (r: nat)
    ensures r < WORD32 && r <= v
  {
    v % WORD32
  }

  lemma {:induction false} Unique(v: nat, q: nat, r: nat)
    requires v == q * WORD32 + r && r < WORD32
    ensures U32(v) == r
  {
  }

  lemma {:induction false} AddMod(a: nat, c: nat)
    ensures U32(U32(a) + c) == U32(a + c)
  {
    var q, s := a / WORD32, U32(a) + c;
    Unique(a + c, q + s / WORD32, U32(s));
  }

  lemma {:induction false} MulMod(a: nat, b: nat)
    ensures U32(U32(a) * b) == U32(a * b)
  {
    var q, s := a / WORD32, U32(a) * b;
    assert a * b == (q * b) * WORD32 + s by { Distribute(q, U32(a), a, b); }
    Unique(a * b, q * b + s / WORD32, U32(s));
  }

  lemma {:induction false} Distribute(q: nat, r: nat, a: nat, b: nat)
    requires a == q * WORD32 + r
    ensures a * b == (q * b) * WORD32 + r * b
  {
  }

  lemma {:induction false} Larger(a: nat, b: nat, k: nat)
    requires a < b && k > 0
    ensures k * a < k * b
  {
  }

  // ---------------------------------------------------------------- lines

  /** The bytes of a line: (w * bpp + 7u) / 8u. */
  function Line32(w: nat, bpp: nat): nat { U32(U32(w * bpp) + 7) / 8 }

  predicate LineFits(w: nat, bpp: nat) { w * bpp + 7 < WORD32 }

  lemma {:induction false} LineExact(w: nat, bpp: nat)
    ensures Line32(w, bpp) == (w * bpp + 7) / 8 <==> LineFits(w, bpp)
    ensures Line32(w, bpp) <= (w * bpp + 7) / 8
    ensures LineFits(w, bpp) ==> U32(w * bpp) == w * bpp && U32(8 * Line32(w, bpp)) == 8 * Line32(w, bpp)
  {
    AddMod(w * bpp, 7);
  }

  /** The size of all lines with their filter types: h + (h * line). */
  function Lines32(h: nat, line: nat): nat { U32(h + U32(h * line)) }

  predicate LinesFit(h: nat, line: nat) { h * (line + 1) < WORD32 }

  lemma {:induction false} LinesExact(h: nat, line: nat)
    ensures Lines32(h, line) == h * (line + 1) <==> LinesFit(h, line)
  {
    AddMod(h * line, h);
    assert h + h * line == h * (line + 1);
  }

  /** A line of 2^28 pixels of 16 bits has 2^29 bytes, which in 32 bits becomes none. */
  lemma {:induction false} WideLine(w: nat, bpp: nat)
    requires w == 0x1000_0000 && bpp == 16
    ensures !LineFits(w, bpp) && Line32(w, bpp) == 0 && (w * bpp + 7) / 8 == 0x2000_0000
  {
  }

  // ---------------------------------------------------------------- passes

  /** Width and height of a pass. */
  function Dimension32(p: pass, w: nat, h: nat): (nat, nat) {
    var pw, ph := U32(w + StepX(p) - StartX(p) - 1) / StepX(p), U32(h + StepY(p) - StartY(p) - 1) / StepY(p);
    if pw == 0 || ph == 0 then (0, 0) else (pw, ph)
  }

  predicate DimensionFits(p: pass, w: nat, h: nat) {
    var x, y := w + StepX(p) - StartX(p) - 1, h + StepY(p) - StartY(p) - 1;
    (y < StepY(p) || x < WORD32) && (x < StepX(p) || y < WORD32)
  }

  lemma {:induction false} Quotient(v: nat, d: nat)
    requires d in {1, 2, 4, 8}
    ensures v / d == 0 <==> v < d
    ensures v >= WORD32 ==> U32(v) / d < v / d
  {
    if v >= WORD32 { assert U32(v) + WORD32 <= v; }
  }

  lemma {:induction false} DimensionExact(p: pass, w: nat, h: nat)
    ensures Dimension32(p, w, h) == (PassWidth(p, w, h), PassHeight(p, w, h)) <==> DimensionFits(p, w, h)
  {
    Quotient(w + StepX(p) - StartX(p) - 1, StepX(p));
    Quotient(h + StepY(p) - StartY(p) - 1, StepY(p));
  }

  /** The sizes of a pass in bytes: filtered, padded, and pixels only. */
  function Filtered32(pw: nat, ph: nat, bpp: nat): nat {
    if pw != 0 && ph != 0 then U32(ph * (1 + Line32(pw, bpp))) else 0
  }

  function Padded32(pw: nat, ph: nat, bpp: nat): nat { U32(ph * Line32(pw, bpp)) }

  function Pixels32(pw: nat, ph: nat, bpp: nat): nat { U32(U32(U32(ph * pw) * bpp) + 7) / 8 }

  predicate SizesFit(pw: nat, ph: nat, bpp: nat) {
    ph == 0 || (LineFits(pw, bpp) && LinesFit(ph, (pw * bpp + 7) / 8) && ph * pw * bpp + 7 < WORD32)
  }

  function Sizes32(pw: nat, ph: nat, bpp: nat): (nat, nat, nat) {
    (Filtered32(pw, ph, bpp), Padded32(pw, ph, bpp), Pixels32(pw, ph, bpp))
  }

  function Sizes(pw: nat, ph: nat, bpp: nat): (nat, nat, nat) {
    (ph * ((pw * bpp + 7) / 8 + 1), ph * ((pw * bpp + 7) / 8), (ph * pw * bpp + 7) / 8)
  }

  lemma {:induction false} SizesExact(pw: nat, ph: nat, bpp: nat)
    requires pw == 0 <==> ph == 0
    ensures Sizes32(pw, ph, bpp) == Sizes(pw, ph, bpp) <==> SizesFit(pw, ph, bpp)
  {
    if ph != 0 {
      var line := (pw * bpp + 7) / 8;
      LineExact(pw, bpp);
      if LineFits(pw, bpp) {
        RowsExact(ph, line);
        MulMod(ph * pw, bpp);
        ScaledExact(ph * pw * bpp);
      } else {
        Larger(Line32(pw, bpp), line, ph);
      }
    }
  }

  lemma {:induction false} RowsExact(ph: nat, line: nat)
    ensures U32(ph * (1 + line)) == ph * (line + 1) <==> LinesFit(ph, line)
    ensures LinesFit(ph, line) ==> U32(ph * line) == ph * line
  {
    NoMore(ph, line);
  }

  lemma {:induction false} ScaledExact(m: nat)
    ensures U32(U32(m) + 7) / 8 == (m + 7) / 8 <==> m + 7 < WORD32
  {
    AddMod(m, 7);
  }

  lemma {:induction false} NoMore(ph: nat, line: nat)
    ensures ph * line <= ph * (line + 1) == ph * (1 + line)
  {
  }

  /** All values of a pass. */
  predicate PassFits(p: pass, w: nat, h: nat, bpp: nat) {
    DimensionFits(p, w, h) && SizesFit(PassWidth(p, w, h), PassHeight(p, w, h), bpp)
  }

  predicate PassesFit(w: nat, h: nat, bpp: nat) { forall p: pass :: PassFits(p, w, h, bpp) }

  // ---------------------------------------------------------------- pixels

  /** The number of a pixel in its image if pixels have whole bytes, else the bit at which it
      starts; the latter with the line's bits computed first. */
  function Address32(x: nat, y: nat, w: nat, bpp: nat): nat {
    if bpp >= 8 then U32(U32(y * w) + x) else U32(U32(y * U32(bpp * w)) + U32(x * bpp))
  }

  function Address(x: nat, y: nat, w: nat, bpp: nat): nat {
    if bpp >= 8 then y * w + x else y * (bpp * w) + x * bpp
  }

  predicate PixelsFit(w: nat, h: nat, bpp: nat) {
    w == 0 || h == 0 || if bpp >= 8 then w * h <= WORD32 else w * h * bpp < WORD32 + bpp
  }

  lemma {:induction false} AddressIs(x: nat, y: nat, w: nat, bpp: nat)
    ensures Address32(x, y, w, bpp) == U32(Address(x, y, w, bpp))
  {
    if bpp >= 8 {
      AddMod(y * w, x);
    } else {
      MulMod(bpp * w, y);
      assert U32(y * U32(bpp * w)) == U32(y * (bpp * w));
      AddMod(y * (bpp * w), U32(x * bpp));
      AddMod(x * bpp, y * (bpp * w));
    }
  }

  /** Pixel (x, y) comes no later than the last pixel of an image at least as large. */
  lemma {:induction false} LastPixel(x: nat, y: nat, pw: nat, w: nat, h: nat, bpp: nat)
    requires x < pw <= w && y < h
    ensures y * pw + x + 1 <= w * h && y * (bpp * pw) + x * bpp + bpp <= w * h * bpp
  {
    Smaller(y, pw, w, x, h);
    var n := y * pw + x;
    assert y * (bpp * pw) + x * bpp + bpp == (n + 1) * bpp by { Collect(y, pw, x, bpp); }
    NotLess(n + 1, w * h, bpp);
  }

  lemma {:induction false} Smaller(y: nat, pw: nat, w: nat, x: nat, h: nat)
    requires x < pw <= w && y < h
    ensures y * pw + x + 1 <= w * h
  {
    assert y * pw + x + 1 <= (y + 1) * pw;
    NotLess(y + 1, h, pw);
    NotLess(pw, w, h);
    assert w * h == h * w && pw * h == h * pw;
  }

  lemma {:induction false} NotLess(a: nat, b: nat, k: nat)
    requires a <= b
    ensures a * k <= b * k
  {
  }

  lemma {:induction false} Collect(y: nat, w: nat, x: nat, bpp: nat)
    ensures y * (bpp * w) + x * bpp + bpp == (y * w + x + 1) * bpp
  {
    assert y * (bpp * w) == (y * w) * bpp;
  }

  /** The address of a pixel is right if those of all pixels fit; pw is the width of the image
      or of a pass. */
  lemma {:induction false} AddressRight(x: nat, y: nat, pw: nat, w: nat, h: nat, bpp: nat)
    requires PixelsFit(w, h, bpp) && x < pw <= w && y < h
    ensures Address32(x, y, pw, bpp) == Address(x, y, pw, bpp)
  {
    AddressIs(x, y, pw, bpp);
    LastPixel(x, y, pw, w, h, bpp);
  }

  /** And all addresses are right only then. */
  lemma {:induction false} PixelsExact(w: nat, h: nat, bpp: nat)
    ensures (forall x: nat, y: nat :: x < w && y < h ==> Address32(x, y, w, bpp) == Address(x, y, w, bpp))
      <==> PixelsFit(w, h, bpp)
  {
    if PixelsFit(w, h, bpp) {
      forall x: nat, y: nat | x < w && y < h ensures Address32(x, y, w, bpp) == Address(x, y, w, bpp) {
        AddressRight(x, y, w, w, h, bpp);
      }
    } else {
      AddressIs(w - 1, h - 1, w, bpp);
      Collect(h - 1, w, w - 1, bpp);
      assert (h - 1) * w + (w - 1) + 1 == w * h;
    }
  }

  predicate InterlacedFits(w: nat, h: nat, bpp: nat) { PassesFit(w, h, bpp) && PixelsFit(w, h, bpp) }
}
