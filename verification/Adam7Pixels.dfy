/** Reordering the pixels of an image for Adam7 and back. The reduced images are stored one after
    the other, each starting at a whole byte. */
module Adam7Pixels {
  import opened Bits
  import opened PngBits
  import opened PngRows
  import opened Adam7
  import opened PngWords

  // ---------------------------------------------------------------- the layout

  /** Where pixel (x, y) of a grid starts, in bits. */
  function Grid(x: nat, y: nat, w: nat, bpp: nat): nat { Offset(y, Offset(w, bpp)) + Offset(x, bpp) }

  function RowBits(p: pass, w: nat, h: nat, bpp: nat): nat { Offset(PassWidth(p, w, h), bpp) }

  function PassBits(p: pass, w: nat, h: nat, bpp: nat): nat { Offset(PassHeight(p, w, h), RowBits(p, w, h, bpp)) }

  function LineBytes(p: pass, w: nat, h: nat, bpp: nat): nat { (RowBits(p, w, h, bpp) + 7) / 8 }

  /** The byte at which a pass starts: as pixels only, with padded lines, and with filter types. */
  function PassStart(p: nat, w: nat, h: nat, bpp: nat): nat
    requires p <= 7
    decreases p, w
  {
    if p == 0 then 0 else PassStart(p - 1, w, h, bpp) + (PassBits(p - 1, w, h, bpp) + 7) / 8
  }

  function PaddedStart(p: nat, w: nat, h: nat, bpp: nat): nat
    requires p <= 7
    decreases p, w
  {
    if p == 0 then 0 else PaddedStart(p - 1, w, h, bpp) + Offset(PassHeight(p - 1, w, h), LineBytes(p - 1, w, h, bpp))
  }

  function FilterStart(p: nat, w: nat, h: nat, bpp: nat): nat
    requires p <= 7
    decreases p, w
  {
    if p == 0 then 0 else FilterStart(p - 1, w, h, bpp) + Offset(PassHeight(p - 1, w, h), LineBytes(p - 1, w, h, bpp) + 1)
  }

  /** What Adam7_getpassvalues is to compute. */
  ghost predicate PassValues(passw: seq<nat>, passh: seq<nat>, filterStart: seq<nat>, paddedStart: seq<nat>,
                             passStart: seq<nat>, w: nat, h: nat, bpp: nat) {
    |passw| == |passh| == 7 && |filterStart| == |paddedStart| == |passStart| == 8 &&
    Dimensions(passw, passh, w, h) && Starts(filterStart, paddedStart, passStart, w, h, bpp)
  }

  /** Adam7_getpassvalues. The values are right exactly if no value of a pass wraps around. */
  method GetPassValues(w: nat, h: nat, bpp: nat)
      returns (passw: seq<nat>, passh: seq<nat>, filterStart: seq<nat>, paddedStart: seq<nat>, passStart: seq<nat>)
    ensures |passw| == |passh| == 7 && |filterStart| == |paddedStart| == |passStart| == 8
    ensures PassValues(passw, passh, filterStart, paddedStart, passStart, w, h, bpp) <==> PassesFit(w, h, bpp)
  {
    passw, passh := PassDimensions(w, h);
    filterStart, paddedStart, passStart := [0], [0], [0];
    ghost var right := Dimensions(passw, passh, w, h);
    var i := 0;
    while i != 7
      invariant i <= 7 && |filterStart| == |paddedStart| == |passStart| == i + 1
      invariant right ==> (Starts(filterStart, paddedStart, passStart, w, h, bpp) <==> FirstFit(i, w, h, bpp))
    {
      var pw, ph := passw[i], passh[i];
      var f := filterStart[i] + Filtered32(pw, ph, bpp);
      var d := paddedStart[i] + Padded32(pw, ph, bpp);
      var s := passStart[i] + Pixels32(pw, ph, bpp);
      if right { NextValues(i, pw, ph, filterStart, paddedStart, passStart, f, d, s, w, h, bpp); }
      filterStart, paddedStart, passStart := filterStart + [f], paddedStart + [d], passStart + [s];
      i := i + 1;
    }
    AllFit(passw, passh, w, h, bpp);
  }

  ghost predicate Dimensions(passw: seq<nat>, passh: seq<nat>, w: nat, h: nat) {
    |passw| == |passh| == 7 && forall p: pass :: passw[p] == PassWidth(p, w, h) && passh[p] == PassHeight(p, w, h)
  }

  /** The sizes of the first n passes fit. */
  ghost predicate FirstFit(n: nat, w: nat, h: nat, bpp: nat) {
    forall p: pass :: p < n ==> SizesFit(PassWidth(p, w, h), PassHeight(p, w, h), bpp)
  }

  lemma {:induction false} NextValues(i: pass, pw: nat, ph: nat, f: seq<nat>, d: seq<nat>, s: seq<nat>, nf: nat, nd: nat,
                                      ns: nat, w: nat, h: nat, bpp: nat)
    requires |f| == |d| == |s| == i + 1 && (Starts(f, d, s, w, h, bpp) <==> FirstFit(i, w, h, bpp))
    requires pw == PassWidth(i, w, h) && ph == PassHeight(i, w, h)
    requires nf == f[i] + Filtered32(pw, ph, bpp) && nd == d[i] + Padded32(pw, ph, bpp) && ns == s[i] + Pixels32(pw, ph, bpp)
    ensures Starts(f + [nf], d + [nd], s + [ns], w, h, bpp) <==> FirstFit(i + 1, w, h, bpp)
  {
    StartsPrefix(i, f, d, s, nf, nd, ns, w, h, bpp);
    FirstFitNext(i, w, h, bpp);
    SizesExact(pw, ph, bpp);
    var n := NextTargets(i, pw, ph, w, h, bpp);
    if Starts(f, d, s, w, h, bpp) {
      assert StartAt(i, f[i], d[i], s[i], w, h, bpp);
      SumsRight(i, f[i], d[i], s[i], Sizes32(pw, ph, bpp), n, w, h, bpp);
    }
  }

  lemma {:induction false} FirstFitNext(i: pass, w: nat, h: nat, bpp: nat)
    ensures FirstFit(i + 1, w, h, bpp) <==> FirstFit(i, w, h, bpp) && SizesFit(PassWidth(i, w, h), PassHeight(i, w, h), bpp)
  {
  }

  lemma {:induction false} SumsRight(i: pass, f: nat, d: nat, s: nat, x: (nat, nat, nat), n: (nat, nat, nat), w: nat,
                                     h: nat, bpp: nat)
    requires FilterStart(i + 1, w, h, bpp) == f + n.0 && PaddedStart(i + 1, w, h, bpp) == d + n.1
    requires PassStart(i + 1, w, h, bpp) == s + n.2
    ensures StartAt(i + 1, f + x.0, d + x.1, s + x.2, w, h, bpp) <==> x == n
  {
  }

  lemma {:induction false} NextTargets(i: pass, pw: nat, ph: nat, w: nat, h: nat, bpp: nat) returns (n: (nat, nat, nat))
    requires pw == PassWidth(i, w, h) && ph == PassHeight(i, w, h)
    ensures n == Sizes(pw, ph, bpp)
    ensures FilterStart(i + 1, w, h, bpp) == FilterStart(i, w, h, bpp) + n.0
    ensures PaddedStart(i + 1, w, h, bpp) == PaddedStart(i, w, h, bpp) + n.1
    ensures PassStart(i + 1, w, h, bpp) == PassStart(i, w, h, bpp) + n.2
  {
    n := Sizes(pw, ph, bpp);
    PassSums(pw, ph, bpp);
    NextStarts(i, w, h, bpp);
  }

  lemma {:induction false} AllFit(passw: seq<nat>, passh: seq<nat>, w: nat, h: nat, bpp: nat)
    requires |passw| == |passh| == 7
    requires forall p: pass ::
      (passw[p] == PassWidth(p, w, h) && passh[p] == PassHeight(p, w, h)) <==> DimensionFits(p, w, h)
    ensures PassesFit(w, h, bpp) <==> Dimensions(passw, passh, w, h) && FirstFit(7, w, h, bpp)
  {
    if PassesFit(w, h, bpp) {
      forall p: pass ensures DimensionFits(p, w, h) && SizesFit(PassWidth(p, w, h), PassHeight(p, w, h), bpp) {
        assert PassFits(p, w, h, bpp);
      }
    } else {
      var p: pass :| !PassFits(p, w, h, bpp);
      assert !DimensionFits(p, w, h) || !SizesFit(PassWidth(p, w, h), PassHeight(p, w, h), bpp);
    }
  }

  lemma {:induction false} PassSums(pw: nat, ph: nat, bpp: nat)
    ensures var row := Offset(pw, bpp);
            Offset(ph, (row + 7) / 8 + 1) == ph * ((pw * bpp + 7) / 8 + 1) &&
            Offset(ph, (row + 7) / 8) == ph * ((pw * bpp + 7) / 8) && Offset(ph, row) == ph * pw * bpp
  {
    OffsetIs(pw, bpp);
    OffsetIs(ph, (pw * bpp + 7) / 8 + 1);
    OffsetIs(ph, (pw * bpp + 7) / 8);
    OffsetIs(ph, pw * bpp);
    Associates(ph, pw, bpp);
  }

  lemma {:induction false} Associates(a: nat, b: nat, c: nat)
    ensures a * b * c == a * (b * c)
  {
  }

  lemma {:induction false} StartsPrefix(i: pass, f: seq<nat>, d: seq<nat>, s: seq<nat>, nf: nat, nd: nat, ns: nat, w: nat,
                                        h: nat, bpp: nat)
    requires |f| == |d| == |s| == i + 1
    ensures Starts(f + [nf], d + [nd], s + [ns], w, h, bpp) <==>
            Starts(f, d, s, w, h, bpp) && StartAt(i + 1, nf, nd, ns, w, h, bpp)
  {
    var n: nat := i + 1;
    var f', d', s' := f + [nf], d + [nd], s + [ns];
    if Starts(f', d', s', w, h, bpp) {
      assert StartAt(n, f'[n], d'[n], s'[n], w, h, bpp);
      forall p: nat | p < n ensures StartAt(p, f[p], d[p], s[p], w, h, bpp) {
        assert StartAt(p, f'[p], d'[p], s'[p], w, h, bpp);
      }
    }
  }

  ghost predicate StartAt(p: nat, f: nat, d: nat, s: nat, w: nat, h: nat, bpp: nat) {
    p <= 7 && f == FilterStart(p, w, h, bpp) && d == PaddedStart(p, w, h, bpp) && s == PassStart(p, w, h, bpp)
  }

  ghost predicate Starts(f: seq<nat>, d: seq<nat>, s: seq<nat>, w: nat, h: nat, bpp: nat) {
    |f| == |d| == |s| && forall p: nat :: p < |f| ==> StartAt(p, f[p], d[p], s[p], w, h, bpp)
  }

  lemma {:induction false} NextStarts(i: pass, w: nat, h: nat, bpp: nat)
    ensures FilterStart(i + 1, w, h, bpp) ==
            FilterStart(i, w, h, bpp) + Offset(PassHeight(i, w, h), LineBytes(i, w, h, bpp) + 1)
    ensures PaddedStart(i + 1, w, h, bpp) ==
            PaddedStart(i, w, h, bpp) + Offset(PassHeight(i, w, h), LineBytes(i, w, h, bpp))
    ensures PassStart(i + 1, w, h, bpp) == PassStart(i, w, h, bpp) + (PassBits(i, w, h, bpp) + 7) / 8
  {
  }

  method PassDimensions(w: nat, h: nat) returns (passw: seq<nat>, passh: seq<nat>)
    ensures |passw| == |passh| == 7
    ensures forall p: pass ::
      (passw[p] == PassWidth(p, w, h) && passh[p] == PassHeight(p, w, h)) <==> DimensionFits(p, w, h)
  {
    passw, passh := [], [];
    var i := 0;
    while i != 7
      invariant i <= 7 && |passw| == |passh| == i
      invariant forall p: pass :: p < i ==>
        ((passw[p] == PassWidth(p, w, h) && passh[p] == PassHeight(p, w, h)) <==> DimensionFits(p, w, h))
    {
      var pw, ph := OneDimension(i, w, h);
      passw, passh := passw + [pw], passh + [ph];
      i := i + 1;
    }
  }

  method OneDimension(i: pass, w: nat, h: nat) returns (pw: nat, ph: nat)
    ensures (pw == PassWidth(i, w, h) && ph == PassHeight(i, w, h)) <==> DimensionFits(i, w, h)
  {
    pw := U32(w + StepX(i) - StartX(i) - 1) / StepX(i);
    ph := U32(h + StepY(i) - StartY(i) - 1) / StepY(i);
    if pw == 0 { ph := 0; }
    if ph == 0 { pw := 0; }
    DimensionExact(i, w, h);
  }

  // ---------------------------------------------------------------- pixels do not overlap

  lemma {:induction false} GridFits(x: nat, y: nat, w: nat, h: nat, bpp: nat)
    requires x < w && y < h
    ensures Grid(x, y, w, bpp) + bpp <= Offset(y + 1, Offset(w, bpp)) <= Offset(h, Offset(w, bpp))
  {
    RowFits(x, w, bpp);
    RowFits(y, h, Offset(w, bpp));
  }

  lemma {:induction false} GridOrder(x: nat, y: nat, a: nat, b: nat, w: nat, h: nat, bpp: nat)
    requires x < w && y < h && a < w && b < h && (y < b || (y == b && x < a))
    ensures Grid(x, y, w, bpp) + bpp <= Grid(a, b, w, bpp)
  {
    if y < b {
      GridFits(x, y, w, h, bpp);
      OffsetMono(y + 1, b, Offset(w, bpp));
    } else {
      OffsetMono(x + 1, a, bpp);
    }
  }

  lemma {:induction false} PassStartMono(p: nat, q: nat, w: nat, h: nat, bpp: nat)
    requires p <= q <= 7
    ensures PassStart(p, w, h, bpp) <= PassStart(q, w, h, bpp)
    decreases q
  {
    if p < q { PassStartMono(p, q - 1, w, h, bpp); }
  }

  /** Where a pixel of the image starts in the plain image, or in the interlaced one. */
  function Pos(interlaced: bool, x: nat, y: nat, w: nat, h: nat, bpp: nat): nat {
    if !interlaced then Grid(x, y, w, bpp) else
    var p := PassOf(x, y);
    8 * PassStart(p, w, h, bpp) + Grid(Column(x, y), PassLine(x, y), PassWidth(p, w, h), bpp)
  }

  function Size(interlaced: bool, w: nat, h: nat, bpp: nat): nat {
    if !interlaced then Offset(h, Offset(w, bpp)) else 8 * PassStart(7, w, h, bpp)
  }

  lemma {:induction false} InPass(x: nat, y: nat, w: nat, h: nat, bpp: nat)
    requires x < w && y < h
    ensures var p := PassOf(x, y);
            Column(x, y) < PassWidth(p, w, h) && PassLine(x, y) < PassHeight(p, w, h) &&
            Pos(true, x, y, w, h, bpp) + bpp <= 8 * PassStart(p, w, h, bpp) + PassBits(p, w, h, bpp)
                                              <= 8 * PassStart(p + 1, w, h, bpp)
  {
    var p := PassOf(x, y);
    Partition(p, Column(x, y), PassLine(x, y), x, y, w, h);
    GridFits(Column(x, y), PassLine(x, y), PassWidth(p, w, h), PassHeight(p, w, h), bpp);
  }

  lemma {:induction false} PosFits(interlaced: bool, x: nat, y: nat, w: nat, h: nat, bpp: nat)
    requires x < w && y < h
    ensures Pos(interlaced, x, y, w, h, bpp) + bpp <= Size(interlaced, w, h, bpp)
  {
    if interlaced {
      InPass(x, y, w, h, bpp);
      PassStartMono(PassOf(x, y) + 1, 7, w, h, bpp);
    } else {
      GridFits(x, y, w, h, bpp);
    }
  }

  /** Before pixel (i, j) of pass p, in the order of the passes. */
  predicate Before(x: nat, y: nat, p: nat, i: nat, j: nat) {
    PassOf(x, y) < p || (PassOf(x, y) == p && (PassLine(x, y) < j || (PassLine(x, y) == j && Column(x, y) < i)))
  }

  lemma {:induction false} EarlierApart(x: nat, y: nat, a: nat, b: nat, w: nat, h: nat, bpp: nat)
    requires x < w && y < h && a < w && b < h && Before(x, y, PassOf(a, b), Column(a, b), PassLine(a, b))
    ensures Pos(true, x, y, w, h, bpp) + bpp <= Pos(true, a, b, w, h, bpp)
  {
    var p, q := PassOf(x, y), PassOf(a, b);
    InPass(x, y, w, h, bpp);
    InPass(a, b, w, h, bpp);
    if p < q {
      PassStartMono(p + 1, q, w, h, bpp);
    } else {
      GridOrder(Column(x, y), PassLine(x, y), Column(a, b), PassLine(a, b), PassWidth(p, w, h), PassHeight(p, w, h), bpp);
    }
  }

  /** Different pixels are stored apart, in either order. */
  lemma {:induction false} PixelsApart(interlaced: bool, x: nat, y: nat, a: nat, b: nat, w: nat, h: nat, bpp: nat)
    requires x < w && y < h && a < w && b < h && (x != a || y != b)
    ensures var s, t := Pos(interlaced, x, y, w, h, bpp), Pos(interlaced, a, b, w, h, bpp); s + bpp <= t || t + bpp <= s
  {
    if !interlaced {
      if y < b || (y == b && x < a) {
        GridOrder(x, y, a, b, w, h, bpp);
      } else {
        GridOrder(a, b, x, y, w, h, bpp);
      }
    } else {
      OnGrid(x, y);
      OnGrid(a, b);
      if Before(x, y, PassOf(a, b), Column(a, b), PassLine(a, b)) {
        EarlierApart(x, y, a, b, w, h, bpp);
      } else {
        assert Before(a, b, PassOf(x, y), Column(x, y), PassLine(x, y));
        EarlierApart(a, b, x, y, w, h, bpp);
      }
    }
  }

  // ---------------------------------------------------------------- reordering

  ghost function Pixel(b: seq<bit>, p: nat, bpp: nat): seq<bit> {
    if p + bpp <= |b| then b[p..p + bpp] else []
  }

  /** Pixel (x, y) is the same in out, which is interlaced or not, as in input, which is the other. */
  ghost predicate Same(out: seq<bit>, input: seq<bit>, interlaced: bool, x: nat, y: nat, w: nat, h: nat, bpp: nat) {
    Pixel(out, Pos(interlaced, x, y, w, h, bpp), bpp) == Pixel(input, Pos(!interlaced, x, y, w, h, bpp), bpp)
  }

  /** All pixels before pixel (i, j) of pass p are done. */
  ghost predicate Done(out: seq<bit>, input: seq<bit>, interlaced: bool, p: nat, i: nat, j: nat, w: nat, h: nat, bpp: nat) {
    forall x: nat, y: nat :: x < w && y < h && Before(x, y, p, i, j) ==> Same(out, input, interlaced, x, y, w, h, bpp)
  }

  lemma {:induction false} SpliceApart(b: seq<bit>, p: nat, piece: seq<bit>, q: nat, n: nat)
    requires p + |piece| <= |b| && (q + n <= p || p + |piece| <= q)
    ensures Pixel(Splice(b, p, piece), q, n) == Pixel(b, q, n)
  {
    if q + n <= |b| {
      assert Splice(b, p, piece)[q..q + n] == b[q..q + n];
    }
  }

  lemma {:induction false} SpliceHere(b: seq<bit>, p: nat, piece: seq<bit>)
    requires p + |piece| <= |b|
    ensures Pixel(Splice(b, p, piece), p, |piece|) == piece
  {
  }

  /** Copying one pixel disturbs no other. */
  lemma {:induction false} PixelCopied(before: seq<bit>, after: seq<bit>, input: seq<bit>, interlaced: bool, a: nat, b: nat,
                                       p: nat, i: nat, j: nat, w: nat, h: nat, bpp: nat)
    requires a < w && b < h && p == PassOf(a, b) && i == Column(a, b) && j == PassLine(a, b)
    requires Size(interlaced, w, h, bpp) <= |before| && Size(!interlaced, w, h, bpp) <= |input|
    requires Pos(interlaced, a, b, w, h, bpp) + bpp <= |before| && Pos(!interlaced, a, b, w, h, bpp) + bpp <= |input|
    requires after == Splice(before, Pos(interlaced, a, b, w, h, bpp), Pixel(input, Pos(!interlaced, a, b, w, h, bpp), bpp))
    requires Done(before, input, interlaced, p, i, j, w, h, bpp)
    ensures Done(after, input, interlaced, p, i + 1, j, w, h, bpp)
  {
    var piece := Pixel(input, Pos(!interlaced, a, b, w, h, bpp), bpp);
    var o := Pos(interlaced, a, b, w, h, bpp);
    forall x: nat, y: nat | x < w && y < h && Before(x, y, p, i + 1, j)
      ensures Same(after, input, interlaced, x, y, w, h, bpp)
    {
      if x == a && y == b {
        SpliceHere(before, o, piece);
      } else {
        OnGrid(x, y);
        OnGrid(a, b);
        assert Before(x, y, p, i, j);
        assert Same(before, input, interlaced, x, y, w, h, bpp);
        PixelsApart(interlaced, a, b, x, y, w, h, bpp);
        SpliceApart(before, o, piece, Pos(interlaced, x, y, w, h, bpp), bpp);
      }
    }
  }

  lemma {:induction false} RowDone(out: seq<bit>, input: seq<bit>, interlaced: bool, p: pass, j: nat, w: nat, h: nat,
                                   bpp: nat)
    requires Done(out, input, interlaced, p, PassWidth(p, w, h), j, w, h, bpp)
    ensures Done(out, input, interlaced, p, 0, j + 1, w, h, bpp)
  {
    forall x: nat, y: nat | x < w && y < h && Before(x, y, p, 0, j + 1)
      ensures Same(out, input, interlaced, x, y, w, h, bpp)
    {
      InPass(x, y, w, h, bpp);
      assert Before(x, y, p, PassWidth(p, w, h), j);
    }
  }

  lemma {:induction false} PassDone(out: seq<bit>, input: seq<bit>, interlaced: bool, p: pass, w: nat, h: nat, bpp: nat)
    requires Done(out, input, interlaced, p, 0, PassHeight(p, w, h), w, h, bpp)
    ensures Done(out, input, interlaced, p + 1, 0, 0, w, h, bpp)
  {
    forall x: nat, y: nat | x < w && y < h && Before(x, y, p + 1, 0, 0)
      ensures Same(out, input, interlaced, x, y, w, h, bpp)
    {
      InPass(x, y, w, h, bpp);
      assert Before(x, y, p, 0, PassHeight(p, w, h));
    }
  }

  // ---------------------------------------------------------------- addresses

  lemma {:induction false} GridIs(x: nat, y: nat, w: nat, bpp: nat)
    ensures Grid(x, y, w, bpp) == y * (bpp * w) + x * bpp == (y * w + x) * bpp
  {
    OffsetIs(w, bpp);
    OffsetIs(y, w * bpp);
    OffsetIs(x, bpp);
    Distribute(y, w, bpp, x);
  }

  lemma {:induction false} Distribute(y: nat, w: nat, bpp: nat, x: nat)
    ensures y * (bpp * w) + x * bpp == (y * w + x) * bpp == y * (w * bpp) + x * bpp
  {
    assert y * (bpp * w) == (y * w) * bpp;
  }

  lemma {:induction false} GridBytes(x: nat, y: nat, w: nat, bpp: nat, width: nat)
    requires bpp == 8 * width
    ensures Grid(x, y, w, bpp) == 8 * ((y * w + x) * width)
  {
    GridIs(x, y, w, bpp);
    var n := y * w + x;
    assert n * (8 * width) == 8 * (n * width);
  }

  // ---------------------------------------------------------------- copying

  lemma {:induction false} BitsOfConcat(a: seq<byte>, b: seq<byte>)
    ensures BitsOf(a + b) == BitsOf(a) + BitsOf(b)
  {
    BitsOfSlice(a + b, 0, |a|);
    BitsOfSlice(a + b, |a|, |a| + |b|);
    assert (a + b)[0..|a|] == a && (a + b)[|a|..|a| + |b|] == b;
    var c := BitsOf(a + b);
    assert c == c[8 * 0..8 * |a|] + c[8 * |a|..8 * (|a| + |b|)];
  }

  method CopyBytes(out: array<byte>, o: nat, input: array<byte>, i: nat, n: nat)
    requires out != input && o + n <= out.Length && i + n <= input.Length
    modifies out
    ensures BitsOf(out[..]) == Splice(old(BitsOf(out[..])), 8 * o, BitsOf(input[..])[8 * i..8 * i + 8 * n])
  {
    ghost var before := out[..];
    var b := 0;
    while b < n
      invariant b <= n && out[..] == before[..o] + input[i..i + b] + before[o + b..]
    {
      out[o + b] := input[i + b];
      b := b + 1;
    }
    BytesSpliced(before, out[..], input[..], o, i, n);
  }

  lemma {:induction false} BytesSpliced(before: seq<byte>, after: seq<byte>, input: seq<byte>, o: nat, i: nat, n: nat)
    requires o + n <= |before| && i + n <= |input| && after == before[..o] + input[i..i + n] + before[o + n..]
    ensures BitsOf(after) == Splice(BitsOf(before), 8 * o, BitsOf(input)[8 * i..8 * i + 8 * n])
  {
    BitsOfSlice(input, i, i + n);
    PieceSpliced(before, input[i..i + n], o);
  }

  lemma {:induction false} PieceSpliced(before: seq<byte>, piece: seq<byte>, o: nat)
    requires o + |piece| <= |before|
    ensures BitsOf(before[..o] + piece + before[o + |piece|..]) == Splice(BitsOf(before), 8 * o, BitsOf(piece))
  {
    var head, tail := before[..o], before[o + |piece|..];
    BitsOfConcat(head + piece, tail);
    BitsOfConcat(head, piece);
    BitsOfPrefix(before, o);
    BitsOfRest(before, o + |piece|);
    SpliceParts(BitsOf(before), 8 * o, BitsOf(head), BitsOf(piece), BitsOf(tail));
  }

  lemma {:induction false} BitsOfPrefix(b: seq<byte>, n: nat)
    requires n <= |b|
    ensures BitsOf(b[..n]) == BitsOf(b)[..8 * n]
  {
    BitsOfSlice(b, 0, n);
    assert b[0..n] == b[..n];
  }

  lemma {:induction false} BitsOfRest(b: seq<byte>, n: nat)
    requires n <= |b|
    ensures BitsOf(b[n..]) == BitsOf(b)[8 * n..]
  {
    BitsOfSlice(b, n, |b|);
    assert b[n..|b|] == b[n..];
  }

  lemma {:induction false} SpliceParts(b: seq<bit>, p: nat, head: seq<bit>, piece: seq<bit>, tail: seq<bit>)
    requires p + |piece| <= |b| && head == b[..p] && tail == b[p + |piece|..]
    ensures Splice(b, p, piece) == head + piece + tail
  {
  }

  method ByteAddresses(x: nat, y: nat, passw: nat, start: nat, a: nat, b: nat, w: nat, width: nat, ghost bpp: nat)
      returns (reduced: nat, plain: nat)
    requires bpp == 8 * width >= 8 && AddressesFit(x, y, passw, a, b, w, bpp)
    ensures 8 * reduced == 8 * start + Grid(x, y, passw, bpp) && 8 * plain == Grid(a, b, w, bpp)
  {
    reduced, plain := start + U32(U32(y * passw) + x) * width, U32(U32(b * w) + a) * width;
    GridBytes(x, y, passw, bpp, width);
    GridBytes(a, b, w, bpp, width);
  }

  method BitAddresses(x: nat, y: nat, passw: nat, start: nat, a: nat, b: nat, w: nat, bpp: nat)
      returns (reduced: nat, plain: nat)
    requires bpp < 8 && AddressesFit(x, y, passw, a, b, w, bpp)
    ensures reduced == 8 * start + Grid(x, y, passw, bpp) && plain == Grid(a, b, w, bpp)
  {
    reduced := 8 * start + U32(U32(y * U32(bpp * passw)) + U32(x * bpp));
    plain := U32(U32(b * U32(bpp * w)) + U32(a * bpp));
    GridIs(x, y, passw, bpp);
    GridIs(a, b, w, bpp);
  }

  /** The two addresses of a pixel do not wrap around. */
  ghost predicate AddressesFit(x: nat, y: nat, passw: nat, a: nat, b: nat, w: nat, bpp: nat) {
    Address32(x, y, passw, bpp) == Address(x, y, passw, bpp) && Address32(a, b, w, bpp) == Address(a, b, w, bpp)
  }

  method CopyWholeBytes(out: array<byte>, input: array<byte>, interlace: bool, reduced: nat, plain: nat, width: nat,
                        ghost o: nat, ghost i: nat, ghost bpp: nat)
    requires out != input && bpp == 8 * width && o + bpp <= 8 * out.Length && i + bpp <= 8 * input.Length
    requires (if interlace then o else i) == 8 * reduced && (if interlace then i else o) == 8 * plain
    modifies out
    ensures BitsOf(out[..]) == Splice(old(BitsOf(out[..])), o, Pixel(BitsOf(input[..]), i, bpp))
  {
    if interlace {
      CopyBytes(out, reduced, input, plain, width);
    } else {
      CopyBytes(out, plain, input, reduced, width);
    }
  }

  /** From one address to the other, by bytes where a pixel has whole bytes. */
  method CopyBetween(out: array<byte>, input: array<byte>, interlace: bool, x: nat, y: nat, passw: nat, start: nat, a: nat,
                     b: nat, w: nat, bpp: nat, ghost o: nat, ghost i: nat)
    requires out != input && (bpp < 8 || bpp % 8 == 0) && o + bpp <= 8 * out.Length && i + bpp <= 8 * input.Length
    requires AddressesFit(x, y, passw, a, b, w, bpp)
    requires (if interlace then o else i) == 8 * start + Grid(x, y, passw, bpp)
    requires (if interlace then i else o) == Grid(a, b, w, bpp)
    modifies out
    ensures BitsOf(out[..]) == Splice(old(BitsOf(out[..])), o, Pixel(BitsOf(input[..]), i, bpp))
  {
    if bpp >= 8 {
      var reduced, plain := ByteAddresses(x, y, passw, start, a, b, w, bpp / 8, bpp);
      CopyWholeBytes(out, input, interlace, reduced, plain, bpp / 8, o, i, bpp);
    } else {
      var reduced, plain := BitAddresses(x, y, passw, start, a, b, w, bpp);
      CopySingleBits(out, input, interlace, reduced, plain, o, i, bpp);
    }
  }

  method CopySingleBits(out: array<byte>, input: array<byte>, interlace: bool, reduced: nat, plain: nat,
                        ghost o: nat, ghost i: nat, bpp: nat)
    requires out != input && o + bpp <= 8 * out.Length && i + bpp <= 8 * input.Length
    requires o == (if interlace then reduced else plain) && i == if interlace then plain else reduced
    modifies out
    ensures BitsOf(out[..]) == Splice(old(BitsOf(out[..])), o, Pixel(BitsOf(input[..]), i, bpp))
  {
    if interlace {
      CopyBits(out, reduced, input, plain, bpp);
    } else {
      CopyBits(out, plain, input, reduced, bpp);
    }
  }

  lemma {:induction false} PosIs(p: pass, i: nat, j: nat, x: nat, y: nat, w: nat, h: nat, bpp: nat)
    requires p == PassOf(x, y) && i == Column(x, y) && j == PassLine(x, y)
    ensures Pos(true, x, y, w, h, bpp) == 8 * PassStart(p, w, h, bpp) + Grid(i, j, PassWidth(p, w, h), bpp)
    ensures Pos(false, x, y, w, h, bpp) == Grid(x, y, w, bpp)
  {
  }

  function TargetX(p: pass, i: nat): nat { StartX(p) + i * StepX(p) }

  function TargetY(p: pass, j: nat): nat { StartY(p) + j * StepY(p) }

  /** The pixel of the image that is pixel (i, j) of pass p. */
  lemma {:induction false} Target(p: pass, i: nat, j: nat, x: nat, y: nat, w: nat, h: nat, bpp: nat)
    requires i < PassWidth(p, w, h) && j < PassHeight(p, w, h)
    requires x == TargetX(p, i) && y == TargetY(p, j)
    ensures x < w && y < h && p == PassOf(x, y) && i == Column(x, y) && j == PassLine(x, y)
    ensures Pos(true, x, y, w, h, bpp) == 8 * PassStart(p, w, h, bpp) + Grid(i, j, PassWidth(p, w, h), bpp)
    ensures Pos(false, x, y, w, h, bpp) == Grid(x, y, w, bpp)
    ensures Pos(true, x, y, w, h, bpp) + bpp <= Size(true, w, h, bpp)
    ensures Pos(false, x, y, w, h, bpp) + bpp <= Size(false, w, h, bpp)
  {
    Partition(p, i, j, x, y, w, h);
    PosIs(p, i, j, x, y, w, h, bpp);
    PosFits(true, x, y, w, h, bpp);
    PosFits(false, x, y, w, h, bpp);
  }

  lemma {:induction false} BothFit(p: pass, x: nat, y: nat, passw: nat, a: nat, b: nat, w: nat, h: nat, bpp: nat)
    requires PixelsFit(w, h, bpp) && x < passw == PassWidth(p, w, h) && y < PassHeight(p, w, h) && a < w && b < h
    ensures AddressesFit(x, y, passw, a, b, w, bpp)
  {
    PassSmaller(p, w, h);
    AddressRight(x, y, passw, w, h, bpp);
    AddressRight(a, b, w, w, h, bpp);
  }

  lemma {:induction false} PassSmaller(p: pass, w: nat, h: nat)
    ensures PassWidth(p, w, h) <= w && PassHeight(p, w, h) <= h
  {
    AtMostAll(w, StepX(p), StartX(p));
    AtMostAll(h, StepY(p), StartY(p));
  }

  lemma {:induction false} AtMostAll(v: nat, step: nat, start: nat)
    requires step in {1, 2, 4, 8} && start < step
    ensures (v + step - start - 1) / step <= v
  {
  }

  /** One pixel. */
  method CopyPixel(out: array<byte>, input: array<byte>, interlace: bool, p: pass, x: nat, y: nat, passw: nat, start: nat,
                   w: nat, ghost h: nat, bpp: nat)
    requires out != input && (bpp < 8 || bpp % 8 == 0) && PixelsFit(w, h, bpp)
    requires x < passw == PassWidth(p, w, h) && y < PassHeight(p, w, h) && start == PassStart(p, w, h, bpp)
    requires Size(interlace, w, h, bpp) <= 8 * out.Length && Size(!interlace, w, h, bpp) <= 8 * input.Length
    requires Done(BitsOf(out[..]), BitsOf(input[..]), interlace, p, x, y, w, h, bpp)
    modifies out
    ensures Done(BitsOf(out[..]), BitsOf(input[..]), interlace, p, x + 1, y, w, h, bpp)
  {
    var a, b := TargetX(p, x), TargetY(p, y);
    ghost var before := BitsOf(out[..]);
    Target(p, x, y, a, b, w, h, bpp);
    BothFit(p, x, y, passw, a, b, w, h, bpp);
    ghost var o, i := Pos(interlace, a, b, w, h, bpp), Pos(!interlace, a, b, w, h, bpp);
    CopyBetween(out, input, interlace, x, y, passw, start, a, b, w, bpp, o, i);
    PixelCopied(before, BitsOf(out[..]), BitsOf(input[..]), interlace, a, b, p, x, y, w, h, bpp);
  }

  method CopyPass(out: array<byte>, input: array<byte>, interlace: bool, p: pass, passw: nat, passh: nat, start: nat,
                  w: nat, h: nat, bpp: nat)
    requires out != input && (bpp < 8 || bpp % 8 == 0) && PixelsFit(w, h, bpp)
    requires passw == PassWidth(p, w, h) && passh == PassHeight(p, w, h) && start == PassStart(p, w, h, bpp)
    requires Size(interlace, w, h, bpp) <= 8 * out.Length && Size(!interlace, w, h, bpp) <= 8 * input.Length
    requires Done(BitsOf(out[..]), BitsOf(input[..]), interlace, p, 0, 0, w, h, bpp)
    modifies out
    ensures Done(BitsOf(out[..]), BitsOf(input[..]), interlace, p + 1, 0, 0, w, h, bpp)
  {
    var y := 0;
    while y < passh
      invariant y <= passh && Done(BitsOf(out[..]), BitsOf(input[..]), interlace, p, 0, y, w, h, bpp)
    {
      var x := 0;
      while x < passw
        invariant x <= passw && Done(BitsOf(out[..]), BitsOf(input[..]), interlace, p, x, y, w, h, bpp)
      {
        CopyPixel(out, input, interlace, p, x, y, passw, start, w, h, bpp);
        x := x + 1;
      }
      RowDone(BitsOf(out[..]), BitsOf(input[..]), interlace, p, y, w, h, bpp);
      y := y + 1;
    }
    PassDone(BitsOf(out[..]), BitsOf(input[..]), interlace, p, w, h, bpp);
  }

  /** Adam7_interlace and Adam7_deinterlace, which differ only in the direction of the copy. Where
      a size or an address wraps around in 32 bits the model stops. */
  method Reorder(out: array<byte>, input: array<byte>, interlace: bool, w: nat, h: nat, bpp: nat) returns (wrapped: bool)
    requires out != input && (bpp < 8 || bpp % 8 == 0)
    requires Size(interlace, w, h, bpp) <= 8 * out.Length && Size(!interlace, w, h, bpp) <= 8 * input.Length
    modifies out
    ensures wrapped <==> !InterlacedFits(w, h, bpp)
    ensures !wrapped ==> AllSame(BitsOf(out[..]), BitsOf(input[..]), interlace, w, h, bpp)
  {
    wrapped := !InterlacedFits(w, h, bpp);
    if wrapped { return; }
    var passw, passh, filterStart, paddedStart, passStart := GetPassValues(w, h, bpp);
    var i := 0;
    while i != 7
      invariant i <= 7 && Done(BitsOf(out[..]), BitsOf(input[..]), interlace, i, 0, 0, w, h, bpp)
    {
      CopyPass(out, input, interlace, i, passw[i], passh[i], passStart[i], w, h, bpp);
      i := i + 1;
    }
    Everywhere(BitsOf(out[..]), BitsOf(input[..]), interlace, w, h, bpp);
  }

  ghost predicate AllSame(out: seq<bit>, input: seq<bit>, interlaced: bool, w: nat, h: nat, bpp: nat) {
    forall x: nat, y: nat :: x < w && y < h ==> Same(out, input, interlaced, x, y, w, h, bpp)
  }

  lemma {:induction false} Everywhere(out: seq<bit>, input: seq<bit>, interlaced: bool, w: nat, h: nat, bpp: nat)
    requires Done(out, input, interlaced, 7, 0, 0, w, h, bpp)
    ensures AllSame(out, input, interlaced, w, h, bpp)
  {
    forall x: nat, y: nat | x < w && y < h ensures Same(out, input, interlaced, x, y, w, h, bpp) {
      assert Before(x, y, 7, 0, 0);
    }
  }

  // ---------------------------------------------------------------- round trip

  /** Images with the same pixels have the same bits. */
  lemma {:induction false} SamePixels(a: seq<bit>, b: seq<bit>, w: nat, h: nat, bpp: nat, y: nat, x: nat)
    requires y <= h && x <= w && (y == h ==> x == 0)
    requires Offset(h, Offset(w, bpp)) <= |a| && Offset(h, Offset(w, bpp)) <= |b|
    requires forall i: nat, j: nat :: i < w && j < h ==>
      Pixel(a, Grid(i, j, w, bpp), bpp) == Pixel(b, Grid(i, j, w, bpp), bpp)
    ensures Grid(x, y, w, bpp) <= |a| && Grid(x, y, w, bpp) <= |b|
    ensures a[..Grid(x, y, w, bpp)] == b[..Grid(x, y, w, bpp)]
    decreases y, x
  {
    if x > 0 {
      SamePixels(a, b, w, h, bpp, y, x - 1);
      var p := Grid(x - 1, y, w, bpp);
      GridFits(x - 1, y, w, h, bpp);
      assert Pixel(a, p, bpp) == Pixel(b, p, bpp);
      assert a[..p + bpp] == a[..p] + a[p..p + bpp] && b[..p + bpp] == b[..p] + b[p..p + bpp];
    } else if y > 0 {
      SamePixels(a, b, w, h, bpp, y - 1, w);
      assert Grid(w, y - 1, w, bpp) == Grid(0, y, w, bpp);
    }
  }

  /** Deinterlacing what was interlaced gives the image back, bit by bit. */
  lemma {:induction false} InterlaceRoundTrip(image: seq<bit>, reduced: seq<bit>, again: seq<bit>, w: nat, h: nat, bpp: nat)
    requires Size(false, w, h, bpp) <= |image| && Size(false, w, h, bpp) <= |again| && Size(true, w, h, bpp) <= |reduced|
    requires AllSame(reduced, image, true, w, h, bpp) && AllSame(again, reduced, false, w, h, bpp)
    ensures again[..Size(false, w, h, bpp)] == image[..Size(false, w, h, bpp)]
  {
    forall i: nat, j: nat | i < w && j < h
      ensures Pixel(again, Grid(i, j, w, bpp), bpp) == Pixel(image, Grid(i, j, w, bpp), bpp)
    {
      assert Same(reduced, image, true, i, j, w, h, bpp) && Same(again, reduced, false, i, j, w, h, bpp);
    }
    SamePixels(again, image, w, h, bpp, h, 0);
  }
}
