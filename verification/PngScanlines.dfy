/** From the pixels of an image to the data that are compressed, and back: padding, filtering and
    interlacing put together. */
module PngScanlines {
  import opened Bits
  import opened PngFilter
  import opened PngRows
  import opened PngBits
  import opened PngPadding
  import opened Adam7
  import opened Adam7Pixels
  import opened PngWords

  // ---------------------------------------------------------------- definition

  function Bytes(bits: nat): nat { (bits + 7) / 8 }

  /** image holds the rows of n bits, each padded to whole bytes. */
  ghost predicate PaddedImage(image: seq<byte>, bits: seq<bit>, h: nat, n: nat) {
    Offset(h, n) <= |bits| && |image| == Offset(h, Bytes(n)) && BitsOf(image) == Padded(bits, h, n, 8 * Bytes(n))
  }

  ghost predicate EncodedAs(data: seq<byte>, image: seq<byte>, bits: seq<bit>, h: nat, n: nat, width: nat) {
    PaddedImage(image, bits, h, n) && ImageFiltered(data, image, h, Bytes(n), width)
  }

  /** data are the rows padded and filtered, with any filter type in each row. */
  ghost predicate EncodedRows(data: seq<byte>, bits: seq<bit>, h: nat, n: nat, width: nat) {
    exists image :: EncodedAs(data, image, bits, h, n, width)
  }

  ghost function PassData(data: seq<byte>, p: pass, w: nat, h: nat, bpp: nat): seq<byte> {
    var i, j := FilterStart(p, w, h, bpp), FilterStart(p + 1, w, h, bpp);
    if i <= j <= |data| then data[i..j] else []
  }

  ghost function PassPixels(reduced: seq<bit>, p: pass, w: nat, h: nat, bpp: nat): seq<bit> {
    Pixel(reduced, 8 * PassStart(p, w, h, bpp), PassBits(p, w, h, bpp))
  }

  ghost predicate EncodedPass(data: seq<byte>, reduced: seq<bit>, p: pass, w: nat, h: nat, bpp: nat) {
    EncodedRows(PassData(data, p, w, h, bpp), PassPixels(reduced, p, w, h, bpp), PassHeight(p, w, h), RowBits(p, w, h, bpp),
                Bytes(bpp))
  }

  ghost predicate Interlaced(data: seq<byte>, reduced: seq<bit>, bits: seq<bit>, w: nat, h: nat, bpp: nat) {
    |reduced| == Size(true, w, h, bpp) && AllSame(reduced, bits, true, w, h, bpp) &&
    forall p: pass :: EncodedPass(data, reduced, p, w, h, bpp)
  }

  /** data are what the encoder may produce for an image with these bits. */
  ghost predicate Encoded(data: seq<byte>, bits: seq<bit>, interlaced: bool, w: nat, h: nat, bpp: nat) {
    if interlaced then exists reduced :: Interlaced(data, reduced, bits, w, h, bpp)
    else EncodedRows(data, bits, h, Offset(w, bpp), Bytes(bpp))
  }

  // ---------------------------------------------------------------- rows without padding

  lemma {:induction false} Scale(h: nat, n: nat)
    ensures Offset(h, 8 * n) == 8 * Offset(h, n)
    decreases h
  {
    if h > 0 { Scale(h - 1, n); }
  }

  lemma {:induction false} PaddedNone(s: seq<bit>, h: nat, n: nat)
    requires Offset(h, n) <= |s|
    ensures Padded(s, h, n, n) == s[..Offset(h, n)]
    decreases h
  {
    if h > 0 {
      PaddedNone(s, h - 1, n);
      assert s[..Offset(h, n)] == s[..Offset(h - 1, n)] + s[Offset(h - 1, n)..Offset(h, n)];
    }
  }

  lemma {:induction false} PaddedPrefix(a: seq<bit>, b: seq<bit>, h: nat, n: nat, m: nat)
    requires Offset(h, n) <= |a| && Offset(h, n) <= |b| && a[..Offset(h, n)] == b[..Offset(h, n)] && n <= m
    ensures Padded(a, h, n, m) == Padded(b, h, n, m)
    decreases h
  {
    if h > 0 {
      var p, q := Offset(h - 1, n), Offset(h, n);
      assert a[..p] == a[..q][..p] && b[..p] == b[..q][..p];
      PaddedPrefix(a, b, h - 1, n, m);
      assert a[p..q] == a[..q][p..] && b[p..q] == b[..q][p..];
    }
  }

  /** Equal padded rows are equal rows. */
  lemma {:induction false} PaddedInjective(a: seq<bit>, b: seq<bit>, h: nat, n: nat, m: nat)
    requires Offset(h, n) <= |a| && Offset(h, n) <= |b| && n <= m && Padded(a, h, n, m) == Padded(b, h, n, m)
    ensures a[..Offset(h, n)] == b[..Offset(h, n)]
  {
    UnpadPadded(a, h, n, m);
    UnpadPadded(b, h, n, m);
  }

  // ---------------------------------------------------------------- the data determine the image

  lemma {:induction false} RowsDetermined(data: seq<byte>, a: seq<bit>, b: seq<bit>, h: nat, n: nat, width: nat)
    requires width > 0 && EncodedRows(data, a, h, n, width) && EncodedRows(data, b, h, n, width)
    ensures Offset(h, n) <= |a| && Offset(h, n) <= |b| && a[..Offset(h, n)] == b[..Offset(h, n)]
  {
    var p :| EncodedAs(data, p, a, h, n, width);
    var q :| EncodedAs(data, q, b, h, n, width);
    DataDetermineImage(data, p, q, h, Bytes(n), width);
    PaddedInjective(a, b, h, n, 8 * Bytes(n));
  }

  /** A pixel lies inside the part of its pass. */
  lemma {:induction false} PassCovers(x: nat, y: nat, w: nat, h: nat, bpp: nat, p: pass, start: nat, n: nat)
    requires x < w && y < h && p == PassOf(x, y)
    requires start == 8 * PassStart(p, w, h, bpp) && n == PassBits(p, w, h, bpp)
    ensures start <= Pos(true, x, y, w, h, bpp) && Pos(true, x, y, w, h, bpp) + bpp <= start + n <= Size(true, w, h, bpp)
  {
    InPass(x, y, w, h, bpp);
    PosIs(p, Column(x, y), PassLine(x, y), x, y, w, h, bpp);
    var next: nat := p + 1;
    PassStartMono(next, 7, w, h, bpp);
  }

  /** Reduced images with the same passes have the same pixels. */
  lemma {:induction false} PassesDetermine(s: seq<bit>, t: seq<bit>, w: nat, h: nat, bpp: nat, x: nat, y: nat, p: pass)
    requires x < w && y < h && p == PassOf(x, y)
    requires Size(true, w, h, bpp) <= |s| && Size(true, w, h, bpp) <= |t|
    requires PassPixels(s, p, w, h, bpp) == PassPixels(t, p, w, h, bpp)
    ensures Pixel(s, Pos(true, x, y, w, h, bpp), bpp) == Pixel(t, Pos(true, x, y, w, h, bpp), bpp)
  {
    var start, n := 8 * PassStart(p, w, h, bpp), PassBits(p, w, h, bpp);
    PassCovers(x, y, w, h, bpp, p, start, n);
    WithinPiece(s, t, start, n, Pos(true, x, y, w, h, bpp), bpp);
  }

  lemma {:induction false} WithinPiece(s: seq<bit>, t: seq<bit>, p: nat, n: nat, q: nat, k: nat)
    requires p <= q && q + k <= p + n && p + n <= |s| && p + n <= |t| && Pixel(s, p, n) == Pixel(t, p, n)
    ensures Pixel(s, q, k) == Pixel(t, q, k)
  {
    forall i | q <= i < q + k ensures s[i] == t[i] {
      assert s[i] == Pixel(s, p, n)[i - p] && t[i] == Pixel(t, p, n)[i - p];
    }
  }

  /** No two images encode to the same data, whatever filter types the rows have. */
  lemma {:induction false} EncodingDeterminesImage(data: seq<byte>, a: seq<bit>, b: seq<bit>, interlaced: bool, w: nat,
                                                   h: nat, bpp: nat)
    requires bpp > 0 && Size(false, w, h, bpp) <= |a| && Size(false, w, h, bpp) <= |b|
    requires Encoded(data, a, interlaced, w, h, bpp) && Encoded(data, b, interlaced, w, h, bpp)
    ensures a[..Size(false, w, h, bpp)] == b[..Size(false, w, h, bpp)]
  {
    if !interlaced {
      RowsDetermined(data, a, b, h, Offset(w, bpp), Bytes(bpp));
    } else {
      var s :| Interlaced(data, s, a, w, h, bpp);
      var t :| Interlaced(data, t, b, w, h, bpp);
      forall p: pass ensures PassPixels(s, p, w, h, bpp) == PassPixels(t, p, w, h, bpp) {
        assert EncodedPass(data, s, p, w, h, bpp) && EncodedPass(data, t, p, w, h, bpp);
        RowsDetermined(PassData(data, p, w, h, bpp), PassPixels(s, p, w, h, bpp), PassPixels(t, p, w, h, bpp),
                       PassHeight(p, w, h), RowBits(p, w, h, bpp), Bytes(bpp));
        WholePass(s, p, w, h, bpp);
        WholePass(t, p, w, h, bpp);
      }
      SameReduced(s, t, a, b, w, h, bpp);
    }
  }

  lemma {:induction false} WholePass(s: seq<bit>, p: pass, w: nat, h: nat, bpp: nat)
    requires |s| == Size(true, w, h, bpp)
    ensures |PassPixels(s, p, w, h, bpp)| == PassBits(p, w, h, bpp)
  {
    var next: nat := p + 1;
    PassStartMono(next, 7, w, h, bpp);
  }

  lemma {:induction false} SameReduced(s: seq<bit>, t: seq<bit>, a: seq<bit>, b: seq<bit>, w: nat, h: nat, bpp: nat)
    requires |s| == |t| == Size(true, w, h, bpp) && Size(false, w, h, bpp) <= |a| && Size(false, w, h, bpp) <= |b|
    requires AllSame(s, a, true, w, h, bpp) && AllSame(t, b, true, w, h, bpp)
    requires forall p: pass :: PassPixels(s, p, w, h, bpp) == PassPixels(t, p, w, h, bpp)
    ensures a[..Size(false, w, h, bpp)] == b[..Size(false, w, h, bpp)]
  {
    forall i: nat, j: nat | i < w && j < h
      ensures Pixel(a, Grid(i, j, w, bpp), bpp) == Pixel(b, Grid(i, j, w, bpp), bpp)
    {
      assert Same(s, a, true, i, j, w, h, bpp) && Same(t, b, true, i, j, w, h, bpp);
      PassesDetermine(s, t, w, h, bpp, i, j, PassOf(i, j));
    }
    SamePixels(a, b, w, h, bpp, h, 0);
  }

  // ---------------------------------------------------------------- preProcessScanlines

  ghost predicate Known(kinds: seq<byte>) {
    forall y: nat :: y < |kinds| ==> kinds[y] <= 4
  }

  lemma {:induction false} LinesEncode(data: seq<byte>, image: seq<byte>, kinds: seq<byte>, bits: seq<bit>, h: nat, n: nat,
                                       width: nat)
    requires |kinds| == h && Known(kinds) && Lines(data, image, kinds, h, Bytes(n), width) && PaddedImage(image, bits, h, n)
    ensures EncodedRows(data, bits, h, n, width)
  {
    forall y: nat | y < h ensures RowFiltered(data, image, y, Bytes(n), width) {
      assert Line(data, image, kinds[y], y, Bytes(n), width);
    }
    assert EncodedAs(data, image, bits, h, n, width);
  }

  /** The bits of the rows that start at byte i. */
  ghost predicate RowsAt(image: seq<bit>, i: nat, bits: seq<bit>, h: nat, n: nat) {
    Offset(h, n) <= |bits| && 8 * i + Offset(h, n) <= |image| && bits[..Offset(h, n)] == image[8 * i..][..Offset(h, n)]
  }

  /** Rows that need no padding are filtered where they are. */
  method FilterRows(out: array<byte>, o: nat, image: array<byte>, i: nat, n: nat, width: nat, h: nat, kinds: seq<byte>,
                    ghost bits: seq<bit>)
    requires out != image && |kinds| == h && n == 8 * Bytes(n) && (h > 0 ==> 0 < width <= Bytes(n))
    requires o + Offset(h, Bytes(n) + 1) <= out.Length && RowsAt(BitsOf(image[..]), i, bits, h, n)
    modifies out
    ensures out[..o] == old(out[..o]) && out[o + Offset(h, Bytes(n) + 1)..] == old(out[o + Offset(h, Bytes(n) + 1)..])
    ensures Known(kinds) ==> EncodedRows(out[o..o + Offset(h, Bytes(n) + 1)], bits, h, n, width)
  {
    var lb := n / 8;
    Scale(h, lb);
    OffsetIs(h, lb);
    var rows := image[i..i + h * lb];
    Filter(out, o, rows, lb, width, h, kinds);
    WholeRows(image[..], i, rows, bits, h, n, lb);
    if Known(kinds) { LinesEncode(out[o..o + Offset(h, lb + 1)], rows, kinds, bits, h, n, width); }
  }

  lemma {:induction false} WholeRows(image: seq<byte>, i: nat, rows: seq<byte>, bits: seq<bit>, h: nat, n: nat, lb: nat)
    requires n == 8 * lb && RowsAt(BitsOf(image), i, bits, h, n)
    requires i + Offset(h, lb) <= |image| && rows == image[i..i + Offset(h, lb)]
    ensures PaddedImage(rows, bits, h, n)
  {
    Scale(h, lb);
    BitsOfSlice(image, i, i + Offset(h, lb));
    PaddedNone(bits, h, n);
    assert BitsOf(image)[8 * i..8 * (i + Offset(h, lb))] == BitsOf(image)[8 * i..][..Offset(h, n)];
  }

  /** Rows are padded in a new buffer and filtered from there. */
  method PadAndFilter(out: array<byte>, o: nat, image: array<byte>, i: nat, n: nat, width: nat, h: nat, kinds: seq<byte>,
                      ghost bits: seq<bit>)
    requires out != image && |kinds| == h && (h > 0 ==> 0 < width <= Bytes(n))
    requires o + Offset(h, Bytes(n) + 1) <= out.Length && RowsAt(BitsOf(image[..]), i, bits, h, n)
    modifies out
    ensures out[..o] == old(out[..o]) && out[o + Offset(h, Bytes(n) + 1)..] == old(out[o + Offset(h, Bytes(n) + 1)..])
    ensures Known(kinds) ==> EncodedRows(out[o..o + Offset(h, Bytes(n) + 1)], bits, h, n, width)
  {
    var lb := Bytes(n);
    OffsetIs(h, lb);
    Scale(h, lb);
    var padded := new byte[h * lb];
    AddPaddingBits(padded, image, i, n, 8 * lb, h);
    PaddedRows(BitsOf(image[..]), i, bits, h, n, 8 * lb);
    ghost var rows := padded[..];
    assert PaddedImage(rows, bits, h, n);
    Filter(out, o, padded[..], lb, width, h, kinds);
    if Known(kinds) { LinesEncode(out[o..o + Offset(h, lb + 1)], rows, kinds, bits, h, n, width); }
  }

  lemma {:induction false} PaddedRows(image: seq<bit>, i: nat, bits: seq<bit>, h: nat, n: nat, m: nat)
    requires RowsAt(image, i, bits, h, n) && n <= m
    ensures Padded(image[8 * i..], h, n, m) == Padded(bits, h, n, m)
  {
    PaddedPrefix(image[8 * i..], bits, h, n, m);
  }

  predicate Depth(bpp: nat) { bpp < 8 || bpp % 8 == 0 }

  /** A row of at least one pixel has at least the bytes of one pixel, and rows of pixels of whole
      bytes need no padding. */
  lemma {:induction false} RowBytes(w: nat, bpp: nat)
    requires bpp > 0
    ensures w > 0 ==> 0 < Bytes(bpp) <= Bytes(Offset(w, bpp))
    ensures bpp % 8 == 0 ==> Offset(w, bpp) == 8 * Bytes(Offset(w, bpp))
  {
    if w > 0 { OffsetMono(1, w, bpp); }
    if bpp % 8 == 0 {
      assert bpp == 8 * (bpp / 8);
      Scale(w, bpp / 8);
    }
  }

  method EncodeRows(out: array<byte>, o: nat, image: array<byte>, i: nat, w: nat, bpp: nat, h: nat, kinds: seq<byte>,
                    pad: bool, ghost bits: seq<bit>)
    requires out != image && |kinds| == h && bpp > 0 && (h > 0 ==> w > 0) && LineFits(w, bpp)
    requires !pad ==> Offset(w, bpp) == 8 * Bytes(Offset(w, bpp))
    requires o + Offset(h, Bytes(Offset(w, bpp)) + 1) <= out.Length
    requires RowsAt(BitsOf(image[..]), i, bits, h, Offset(w, bpp))
    modifies out
    ensures out[..o] == old(out[..o])
    ensures Known(kinds) ==>
      EncodedRows(out[o..o + Offset(h, Bytes(Offset(w, bpp)) + 1)], bits, h, Offset(w, bpp), Bytes(bpp))
  {
    OffsetIs(w, bpp);
    LineExact(w, bpp);
    RowBytes(w, bpp);
    if pad {
      PadAndFilter(out, o, image, i, U32(w * bpp), (bpp + 7) / 8, h, kinds, bits);
    } else {
      FilterRows(out, o, image, i, U32(w * bpp), (bpp + 7) / 8, h, kinds, bits);
    }
  }

  /** The first passes are encoded. */
  ghost predicate Passes(data: seq<byte>, reduced: seq<bit>, n: nat, w: nat, h: nat, bpp: nat) {
    forall p: pass :: p < n ==> EncodedPass(data, reduced, p, w, h, bpp)
  }

  lemma {:induction false} FilterStartMono(p: nat, q: nat, w: nat, h: nat, bpp: nat)
    requires p <= q <= 7
    ensures FilterStart(p, w, h, bpp) <= FilterStart(q, w, h, bpp)
    decreases q
  {
    if p < q { FilterStartMono(p, q - 1, w, h, bpp); }
  }

  lemma {:induction false} PassesNext(before: seq<byte>, after: seq<byte>, reduced: seq<bit>, n: pass, w: nat, h: nat,
                                      bpp: nat, o: nat, end: nat)
    requires Passes(before, reduced, n, w, h, bpp) && |before| == |after|
    requires o == FilterStart(n, w, h, bpp) <= end == FilterStart(n + 1, w, h, bpp) <= |after| && after[..o] == before[..o]
    requires EncodedRows(after[o..end], PassPixels(reduced, n, w, h, bpp), PassHeight(n, w, h), RowBits(n, w, h, bpp),
                         Bytes(bpp))
    ensures Passes(after, reduced, n + 1, w, h, bpp)
  {
    forall p: pass | p < n + 1 ensures EncodedPass(after, reduced, p, w, h, bpp) {
      if p < n {
        assert EncodedPass(before, reduced, p, w, h, bpp);
        SamePass(before, after, p, n, w, h, bpp, o);
      } else {
        assert PassData(after, n, w, h, bpp) == after[o..end];
      }
    }
  }

  lemma {:induction false} SamePass(before: seq<byte>, after: seq<byte>, p: pass, n: pass, w: nat, h: nat, bpp: nat, o: nat)
    requires p < n && o == FilterStart(n, w, h, bpp) <= |before| == |after| && after[..o] == before[..o]
    ensures PassData(after, p, w, h, bpp) == PassData(before, p, w, h, bpp)
  {
    var next: nat := p + 1;
    FilterStartMono(next, n, w, h, bpp);
    FilterStartMono(p, next, w, h, bpp);
    var i, j := FilterStart(p, w, h, bpp), FilterStart(next, w, h, bpp);
    SamePrefix(before, after, o, i, j);
  }

  lemma {:induction false} SamePrefix(before: seq<byte>, after: seq<byte>, o: nat, i: nat, j: nat)
    requires i <= j <= o <= |before| && o <= |after| && after[..o] == before[..o]
    ensures after[i..j] == before[i..j]
  {
    assert after[i..j] == after[..o][i..j] && before[i..j] == before[..o][i..j];
  }

  lemma {:induction false} PassRowsAt(reduced: seq<bit>, p: pass, w: nat, h: nat, bpp: nat)
    requires Size(true, w, h, bpp) <= |reduced|
    ensures RowsAt(reduced, PassStart(p, w, h, bpp), PassPixels(reduced, p, w, h, bpp), PassHeight(p, w, h),
                   RowBits(p, w, h, bpp))
  {
    var next: nat := p + 1;
    PassStartMono(next, 7, w, h, bpp);
    var i, n := PassStart(p, w, h, bpp), PassBits(p, w, h, bpp);
    assert Pixel(reduced, 8 * i, n) == reduced[8 * i..][..n];
  }

  function Kinds(kinds: (nat, nat) -> byte, p: nat, h: nat): (k: seq<byte>)
    ensures |k| == h
  {
    seq(h, y requires 0 <= y < h => kinds(p, y))
  }

  ghost predicate AllKnown(kinds: (nat, nat) -> byte) {
    forall p: nat, y: nat :: kinds(p, y) <= 4
  }

  /** One reduced image. */
  method EncodePass(out: array<byte>, reduced: array<byte>, p: pass, o: nat, start: nat, passw: nat, passh: nat, w: nat,
                    h: nat, bpp: nat, kinds: (nat, nat) -> byte)
    requires out != reduced && bpp > 0 && Depth(bpp) && AllKnown(kinds) && LineFits(passw, bpp)
    requires passw == PassWidth(p, w, h) && passh == PassHeight(p, w, h) && (passh > 0 ==> passw > 0)
    requires o == FilterStart(p, w, h, bpp) && start == PassStart(p, w, h, bpp)
    requires FilterStart(7, w, h, bpp) <= out.Length && Size(true, w, h, bpp) <= 8 * reduced.Length
    requires Passes(out[..], BitsOf(reduced[..]), p, w, h, bpp)
    modifies out
    ensures Passes(out[..], BitsOf(reduced[..]), p + 1, w, h, bpp)
  {
    ghost var before := out[..];
    ghost var bits := BitsOf(reduced[..]);
    ghost var end := PassPlan(p, w, h, bpp, passw, passh, bits);
    EncodeRows(out, o, reduced, start, passw, bpp, passh, Kinds(kinds, p, passh), bpp < 8, PassPixels(bits, p, w, h, bpp));
    PassesNext(before, out[..], bits, p, w, h, bpp, o, end);
  }

  lemma {:induction false} PassEnd(p: pass, w: nat, h: nat, bpp: nat, passw: nat, passh: nat) returns (end: nat)
    requires passw == PassWidth(p, w, h) && passh == PassHeight(p, w, h)
    ensures end == FilterStart(p + 1, w, h, bpp) <= FilterStart(7, w, h, bpp)
    ensures end == FilterStart(p, w, h, bpp) + Offset(passh, Bytes(Offset(passw, bpp)) + 1)
  {
    var next: nat := p + 1;
    end := FilterStart(next, w, h, bpp);
    FilterStartMono(next, 7, w, h, bpp);
    NextStarts(p, w, h, bpp);
    SameLines(p, w, h, bpp, passw, LineBytes(p, w, h, bpp));
  }

  lemma {:induction false} SameLines(p: pass, w: nat, h: nat, bpp: nat, passw: nat, lb: nat)
    requires passw == PassWidth(p, w, h) && lb == LineBytes(p, w, h, bpp)
    ensures lb == Bytes(Offset(passw, bpp))
  {
  }

  lemma {:induction false} PassPlan(p: pass, w: nat, h: nat, bpp: nat, passw: nat, passh: nat, reduced: seq<bit>)
      returns (end: nat)
    requires bpp > 0 && Depth(bpp) && passw == PassWidth(p, w, h) && passh == PassHeight(p, w, h)
    requires Size(true, w, h, bpp) <= |reduced|
    ensures end == FilterStart(p + 1, w, h, bpp) <= FilterStart(7, w, h, bpp)
    ensures end == FilterStart(p, w, h, bpp) + Offset(passh, Bytes(Offset(passw, bpp)) + 1)
    ensures RowsAt(reduced, PassStart(p, w, h, bpp), PassPixels(reduced, p, w, h, bpp), passh, Offset(passw, bpp))
    ensures bpp >= 8 ==> Offset(passw, bpp) == 8 * Bytes(Offset(passw, bpp))
  {
    end := PassEnd(p, w, h, bpp, passw, passh);
    PassRowsAt(reduced, p, w, h, bpp);
    RowBytes(passw, bpp);
  }

  // ---------------------------------------------------------------- 32 bits

  /** When no size or address wraps around in 32 bits, for the encoder and for the decoder, which
      does not need the size of all lines. */
  predicate EncodeFits(interlaced: bool, w: nat, h: nat, bpp: nat) {
    if interlaced then InterlacedFits(w, h, bpp) else LineFits(w, bpp) && LinesFit(h, (w * bpp + 7) / 8)
  }

  predicate DecodeFits(interlaced: bool, w: nat, h: nat, bpp: nat) {
    if interlaced then InterlacedFits(w, h, bpp) else LineFits(w, bpp)
  }

  /** For plain images these are exactly the images whose sizes are computed right. */
  lemma {:induction false} PlainExact(w: nat, h: nat, bpp: nat)
    ensures Line32(w, bpp) == Bytes(Offset(w, bpp)) <==> DecodeFits(false, w, h, bpp)
    ensures Line32(w, bpp) == Bytes(Offset(w, bpp)) && Lines32(h, Line32(w, bpp)) == Offset(h, Bytes(Offset(w, bpp)) + 1)
      <==> EncodeFits(false, w, h, bpp)
  {
    OffsetIs(w, bpp);
    LineExact(w, bpp);
    LinesExact(h, (w * bpp + 7) / 8);
    OffsetIs(h, Bytes(Offset(w, bpp)) + 1);
  }

  /** Where the length of a line wraps around, the lines that the decoder would write do not
      make up the image. */
  lemma {:induction false} WrappedLosesBytes(w: nat, h: nat, bpp: nat)
    requires h > 0 && !DecodeFits(false, w, h, bpp)
    ensures Offset(h, Line32(w, bpp)) < Offset(h, Bytes(Offset(w, bpp)))
  {
    OffsetIs(w, bpp);
    LineExact(w, bpp);
    OffsetIs(h, Line32(w, bpp));
    OffsetIs(h, Bytes(Offset(w, bpp)));
    Larger(Line32(w, bpp), Bytes(Offset(w, bpp)), h);
  }

  /** One line of 2^28 pixels of 16 bits. The decoder's check for too large images allows it,
      but the line's length becomes zero. */
  lemma {:induction false} WideImageWraps(w: nat, bpp: nat)
    requires w == 0x1000_0000 && bpp == 16
    ensures !DecodeFits(false, w, 1, bpp) && Line32(w, bpp) == 0 && Bytes(Offset(w, bpp)) == 0x2000_0000
  {
    OffsetIs(w, bpp);
    WideLine(w, bpp);
  }

  /** preProcessScanlines: error 31 exactly when the colour type is invalid, otherwise data that
      encode the image, unless a size or an address wraps around; there the model stops. The
      filter types of the rows of each pass are given. */
  method PreProcess(image: array<byte>, w: nat, h: nat, bpp: nat, interlaced: bool, kinds: (nat, nat) -> byte)
      returns (error: nat, out: array<byte>, wrapped: bool)
    requires Depth(bpp) && (h > 0 ==> w > 0) && AllKnown(kinds) && Size(false, w, h, bpp) <= 8 * image.Length
    ensures fresh(out) && error == if bpp == 0 then 31 else 0
    ensures wrapped <==> bpp > 0 && !EncodeFits(interlaced, w, h, bpp)
    ensures error == 0 && !wrapped ==> Encoded(out[..], BitsOf(image[..]), interlaced, w, h, bpp)
  {
    error, wrapped := 0, false;
    if bpp == 0 {
      error, out := 31, new byte[0];
    } else if !EncodeFits(interlaced, w, h, bpp) {
      out := new byte[0];
      wrapped := true;
    } else if interlaced {
      out := PreProcessInterlaced(image, w, h, bpp, kinds);
    } else {
      out := PreProcessPlain(image, w, h, bpp, kinds);
    }
  }

  /** Whether lines end in padding bits. */
  method NeedsPadding(w: nat, bpp: nat) returns (pad: bool)
    requires bpp > 0 && Depth(bpp) && LineFits(w, bpp)
    ensures pad == (Offset(w, bpp) != 8 * Bytes(Offset(w, bpp)))
  {
    OffsetIs(w, bpp);
    LineExact(w, bpp);
    RowBytes(w, bpp);
    pad := bpp < 8 && U32(w * bpp) != U32(8 * Line32(w, bpp));
  }

  method PreProcessPlain(image: array<byte>, w: nat, h: nat, bpp: nat, kinds: (nat, nat) -> byte)
      returns (out: array<byte>)
    requires bpp > 0 && Depth(bpp) && (h > 0 ==> w > 0) && AllKnown(kinds) && Size(false, w, h, bpp) <= 8 * image.Length
    requires EncodeFits(false, w, h, bpp)
    ensures fresh(out) && EncodedRows(out[..], BitsOf(image[..]), h, Offset(w, bpp), Bytes(bpp))
  {
    var size := Lines32(h, Line32(w, bpp));
    PlainExact(w, h, bpp);
    out := new byte[size];
    var pad := NeedsPadding(w, bpp);
    EncodeRows(out, 0, image, 0, w, bpp, h, Kinds(kinds, 0, h), pad, BitsOf(image[..]));
    assert out[..] == out[0..0 + size];
  }

  lemma {:induction false} PassLineFits(p: pass, w: nat, h: nat, bpp: nat)
    requires PassesFit(w, h, bpp)
    ensures LineFits(PassWidth(p, w, h), bpp)
  {
    assert PassFits(p, w, h, bpp);
  }

  method EncodePasses(out: array<byte>, adam7: array<byte>, passw: seq<nat>, passh: seq<nat>, filterStart: seq<nat>,
                      ghost paddedStart: seq<nat>, passStart: seq<nat>, w: nat, h: nat, bpp: nat,
                      kinds: (nat, nat) -> byte)
    requires out != adam7 && bpp > 0 && Depth(bpp) && AllKnown(kinds) && PassesFit(w, h, bpp)
    requires PassValues(passw, passh, filterStart, paddedStart, passStart, w, h, bpp)
    requires out.Length == FilterStart(7, w, h, bpp) && Size(true, w, h, bpp) == 8 * adam7.Length
    modifies out
    ensures Passes(out[..], BitsOf(adam7[..]), 7, w, h, bpp)
  {
    var i := 0;
    while i != 7
      invariant i <= 7 && Passes(out[..], BitsOf(adam7[..]), i, w, h, bpp)
    {
      PassLineFits(i, w, h, bpp);
      EncodePass(out, adam7, i, filterStart[i], passStart[i], passw[i], passh[i], w, h, bpp, kinds);
      i := i + 1;
    }
  }

  method PreProcessInterlaced(image: array<byte>, w: nat, h: nat, bpp: nat, kinds: (nat, nat) -> byte)
      returns (out: array<byte>)
    requires bpp > 0 && Depth(bpp) && AllKnown(kinds) && Size(false, w, h, bpp) <= 8 * image.Length
    requires InterlacedFits(w, h, bpp)
    ensures fresh(out) && Encoded(out[..], BitsOf(image[..]), true, w, h, bpp)
  {
    var passw, passh, filterStart, paddedStart, passStart := GetPassValues(w, h, bpp);
    out := new byte[filterStart[7]];
    var adam7 := new byte[passStart[7]];
    var _ := Reorder(adam7, image, true, w, h, bpp);
    EncodePasses(out, adam7, passw, passh, filterStart, paddedStart, passStart, w, h, bpp, kinds);
    AllPasses(out[..], BitsOf(adam7[..]), BitsOf(image[..]), w, h, bpp);
  }

  lemma {:induction false} AllPasses(data: seq<byte>, reduced: seq<bit>, bits: seq<bit>, w: nat, h: nat, bpp: nat)
    requires |reduced| == Size(true, w, h, bpp) && AllSame(reduced, bits, true, w, h, bpp)
    requires Passes(data, reduced, 7, w, h, bpp)
    ensures Encoded(data, bits, true, w, h, bpp)
  {
    assert Interlaced(data, reduced, bits, w, h, bpp);
  }
}
