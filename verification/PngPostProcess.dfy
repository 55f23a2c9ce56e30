/** From decompressed data back to the pixels of the image, working in the buffer of the data. */
module PngPostProcess {
  import opened Bits
  import opened PngRows
  import opened PngBits
  import opened PngPadding
  import opened Adam7
  import opened Adam7Pixels
  import opened PngScanlines
  import opened PngWords

  // ---------------------------------------------------------------- what unfiltering gives

  lemma {:induction false} UnfilteredIs(data: seq<byte>, image: seq<byte>, bits: seq<bit>, h: nat, n: nat, width: nat)
    requires width > 0 && EncodedRows(data, bits, h, n, width) && ImageFiltered(data, image, h, Bytes(n), width)
    ensures PaddedImage(image, bits, h, n)
  {
    var p :| EncodedAs(data, p, bits, h, n, width);
    DataDetermineImage(data, p, image, h, Bytes(n), width);
  }

  lemma {:induction false} EncodedKinds(data: seq<byte>, bits: seq<bit>, h: nat, n: nat, width: nat)
    requires EncodedRows(data, bits, h, n, width)
    ensures KindsKnown(data, h, Bytes(n)) && |data| == Offset(h, Bytes(n) + 1)
  {
    var p :| EncodedAs(data, p, bits, h, n, width);
    forall y: nat | y < h ensures KindAt(data, y, Bytes(n)) <= 4 {
      assert RowFiltered(data, p, y, Bytes(n), width);
    }
  }

  /** Removing the padding of the unfiltered rows leaves the bits of the image. */
  lemma {:induction false} UnpaddedIs(rows: seq<bit>, image: seq<byte>, bits: seq<bit>, h: nat, n: nat)
    requires PaddedImage(image, bits, h, n) && BitsOf(image) <= rows
    ensures Offset(h, 8 * Bytes(n)) <= |rows|
    ensures Unpadded(rows, h, n, 8 * Bytes(n)) == bits[..Offset(h, n)]
  {
    UnpaddedPrefix(BitsOf(image), rows, h, n, 8 * Bytes(n));
    UnpadPadded(bits, h, n, 8 * Bytes(n));
  }

  lemma {:induction false} WithoutPadding(image: seq<byte>, bits: seq<bit>, h: nat, n: nat)
    requires PaddedImage(image, bits, h, n) && n == 8 * Bytes(n)
    ensures BitsOf(image) == bits[..Offset(h, n)]
  {
    PaddedNone(bits, h, n);
  }

  // ---------------------------------------------------------------- no interlacing

  /** Undoes filtering and padding of a plain image. */
  method PostProcessPlain(out: array<byte>, input: array<byte>, w: nat, h: nat, bpp: nat, ghost bits: seq<bit>)
      returns (error: nat)
    requires out != input && bpp > 0 && Depth(bpp) && (h > 0 ==> w > 0) && LineFits(w, bpp)
    requires Offset(h, Bytes(Offset(w, bpp)) + 1) <= input.Length && Offset(h, Offset(w, bpp)) <= 8 * out.Length
    modifies out, input
    ensures var data := old(input[..Offset(h, Bytes(Offset(w, bpp)) + 1)]);
            error == (if KindsKnown(data, h, Bytes(Offset(w, bpp))) then 0 else 36) &&
            (EncodedRows(data, bits, h, Offset(w, bpp), Bytes(bpp)) ==>
               error == 0 && BitsOf(out[..])[..Offset(h, Offset(w, bpp))] == bits[..Offset(h, Offset(w, bpp))])
  {
    var pad := NeedsPadding(w, bpp);
    OffsetIs(w, bpp);
    LineExact(w, bpp);
    RowBytes(w, bpp);
    ghost var size := Offset(h, Bytes(Offset(w, bpp)) + 1);
    ghost var data := input[..size];
    assert data == input[0..0 + size];
    ghost var good := EncodedRows(data, bits, h, Offset(w, bpp), Bytes(bpp));
    if good { EncodedKinds(data, bits, h, Offset(w, bpp), Bytes(bpp)); }
    if pad {
      error := UnpadPlain(out, input, U32(w * bpp), Line32(w, bpp), (bpp + 7) / 8, h, data, bits, good);
    } else {
      error := UnfilterPlain(out, input, U32(w * bpp), Line32(w, bpp), (bpp + 7) / 8, h, data, bits, good);
    }
  }

  method UnpadPlain(out: array<byte>, input: array<byte>, n: nat, lb: nat, width: nat, h: nat, ghost data: seq<byte>,
                    ghost bits: seq<bit>, ghost good: bool) returns (error: nat)
    requires out != input && lb == Bytes(n) && (h > 0 ==> 0 < width <= lb) && width > 0
    requires Offset(h, lb + 1) <= input.Length && Offset(h, n) <= 8 * out.Length && data == input[0..0 + Offset(h, lb + 1)]
    requires good ==> EncodedRows(data, bits, h, n, width)
    modifies out, input
    ensures error == if KindsKnown(data, h, lb) then 0 else 36
    ensures good && error == 0 ==> Offset(h, n) <= |bits| && BitsOf(out[..])[..Offset(h, n)] == bits[..Offset(h, n)]
  {
    Scale(h, lb);
    NarrowRows(h, lb);
    error := Unfilter(input, 0, input, 0, lb, width, h);
    if error != 0 { return; }
    ghost var image := input[0..0 + Offset(h, lb)];
    ghost var rows := BitsOf(input[..]);
    BitsOfSlice(input[..], 0, Offset(h, lb));
    assert input[..][0..0 + Offset(h, lb)] == image && rows[8 * 0..] == rows;
    RemovePaddingBits(out, 0, input, 0, n, 8 * lb, h);
    if good {
      UnfilteredIs(data, image, bits, h, n, width);
      UnpaddedIs(rows, image, bits, h, n);
    }
  }

  method UnfilterPlain(out: array<byte>, input: array<byte>, n: nat, lb: nat, width: nat, h: nat, ghost data: seq<byte>,
                       ghost bits: seq<bit>, ghost good: bool) returns (error: nat)
    requires out != input && lb == Bytes(n) && n == 8 * lb && (h > 0 ==> 0 < width <= lb) && width > 0
    requires Offset(h, lb + 1) <= input.Length && Offset(h, n) <= 8 * out.Length && data == input[0..0 + Offset(h, lb + 1)]
    requires good ==> EncodedRows(data, bits, h, n, width)
    modifies out
    ensures error == if KindsKnown(data, h, lb) then 0 else 36
    ensures good && error == 0 ==> Offset(h, n) <= |bits| && BitsOf(out[..])[..Offset(h, n)] == bits[..Offset(h, n)]
  {
    Scale(h, lb);
    error := Unfilter(out, 0, input, 0, lb, width, h);
    if error != 0 { return; }
    ghost var image := out[0..0 + Offset(h, lb)];
    BitsOfSlice(out[..], 0, Offset(h, lb));
    assert out[..][0..0 + Offset(h, lb)] == image;
    if good {
      UnfilteredIs(data, image, bits, h, n, width);
      WithoutPadding(image, bits, h, n);
    }
  }

  // ---------------------------------------------------------------- where the passes move

  lemma {:induction false} PackedRows(h: nat, n: nat)
    ensures Offset(h, n) <= 8 * Offset(h, Bytes(n)) && (Offset(h, n) + 7) / 8 <= Offset(h, Bytes(n))
    ensures n == 8 * Bytes(n) ==> (Offset(h, n) + 7) / 8 == Offset(h, Bytes(n))
    decreases h
  {
    if h > 0 { PackedRows(h - 1, n); }
  }

  /** Every step moves a pass towards the beginning of the buffer. */
  lemma {:induction false} StartsOrdered(p: nat, w: nat, h: nat, bpp: nat)
    requires p <= 7 && bpp > 0
    ensures PassStart(p, w, h, bpp) <= PaddedStart(p, w, h, bpp) <= FilterStart(p, w, h, bpp)
    ensures bpp % 8 == 0 ==> PassStart(p, w, h, bpp) == PaddedStart(p, w, h, bpp)
    decreases p
  {
    if p > 0 {
      var q: pass := p - 1;
      StartsOrdered(q, w, h, bpp);
      SizesOrdered(PassHeight(q, w, h), RowBits(q, w, h, bpp), LineBytes(q, w, h, bpp));
      RowBytes(PassWidth(q, w, h), bpp);
      NextStarts(q, w, h, bpp);
    }
  }

  lemma {:induction false} SizesOrdered(h: nat, n: nat, lb: nat)
    requires lb == Bytes(n)
    ensures Bytes(Offset(h, n)) <= Offset(h, lb) <= Offset(h, lb + 1) && (n == 8 * lb ==> Bytes(Offset(h, n)) == Offset(h, lb))
  {
    PackedRows(h, n);
    NarrowRows(h, lb);
  }

  /** The numbers of one pass: rows, bits per row, where it starts and where the next one starts,
      as pixels, padded, and filtered. */
  datatype Plan = Plan(h: nat, n: nat, s: nat, d: nat, f: nat, s1: nat, d1: nat, f1: nat)

  ghost function PlanOf(p: pass, w: nat, h: nat, bpp: nat): Plan {
    Plan(PassHeight(p, w, h), RowBits(p, w, h, bpp), PassStart(p, w, h, bpp), PaddedStart(p, w, h, bpp),
         FilterStart(p, w, h, bpp), PassStart(p + 1, w, h, bpp), PaddedStart(p + 1, w, h, bpp), FilterStart(p + 1, w, h, bpp))
  }

  ghost predicate Ordered(a: Plan) {
    a.s <= a.d <= a.f && a.d1 == a.d + Offset(a.h, Bytes(a.n)) && a.f1 == a.f + Offset(a.h, Bytes(a.n) + 1) &&
    8 * a.s + Offset(a.h, a.n) <= 8 * a.s1 && a.s1 <= a.d1 <= a.f1
  }

  lemma {:induction false} OrderedFrom(a: Plan)
    requires a.s <= a.d <= a.f && a.s1 <= a.d1 <= a.f1 && a.s1 == a.s + Bytes(Offset(a.h, a.n))
    requires a.d1 == a.d + Offset(a.h, Bytes(a.n)) && a.f1 == a.f + Offset(a.h, Bytes(a.n) + 1)
    ensures Ordered(a)
  {
  }

  lemma {:induction false} PlanSums(p: pass, w: nat, h: nat, bpp: nat, a: Plan)
    requires a == PlanOf(p, w, h, bpp)
    ensures a.s1 == a.s + Bytes(Offset(a.h, a.n)) && a.d1 == a.d + Offset(a.h, Bytes(a.n))
    ensures a.f1 == a.f + Offset(a.h, Bytes(a.n) + 1)
  {
    NextStarts(p, w, h, bpp);
  }

  lemma {:induction false} PlanStarts(p: pass, w: nat, h: nat, bpp: nat, a: Plan)
    requires bpp > 0 && a == PlanOf(p, w, h, bpp)
    ensures a.s <= a.d <= a.f && a.s1 <= a.d1 <= a.f1 && (bpp % 8 == 0 ==> a.s == a.d)
  {
    var next: nat := p + 1;
    StartsOrdered(p, w, h, bpp);
    StartsOrdered(next, w, h, bpp);
  }

  lemma {:induction false} PlanOrdered(p: pass, w: nat, h: nat, bpp: nat, a: Plan)
    requires bpp > 0 && a == PlanOf(p, w, h, bpp)
    ensures Ordered(a) && (bpp % 8 == 0 ==> a.s == a.d)
  {
    PlanSums(p, w, h, bpp, a);
    PlanStarts(p, w, h, bpp, a);
    OrderedFrom(a);
  }

  lemma {:induction false} PlanInside(p: pass, w: nat, h: nat, bpp: nat)
    ensures PlanOf(p, w, h, bpp).f1 <= FilterStart(7, w, h, bpp)
    ensures 8 * PlanOf(p, w, h, bpp).s1 <= Size(true, w, h, bpp)
  {
    var next: nat := p + 1;
    FilterStartMono(next, 7, w, h, bpp);
    PassStartMono(next, 7, w, h, bpp);
  }

  // ---------------------------------------------------------------- one pass

  /** Unfilters and moves one pass. What lies before the pass and what has not been read stays. */
  method MovePass(input: array<byte>, ghost a: Plan, d: nat, f: nat, s: nat, n: nat, width: nat, h: nat, bpp: nat,
                  ghost bits: seq<bit>, ghost good: bool) returns (error: nat)
    requires Ordered(a) && a.h == h && a.n == n && a.s == s && a.d == d && a.f == f && a.f1 <= input.Length
    requires Depth(bpp) && width > 0 && (h > 0 ==> width <= Bytes(n)) && (bpp >= 8 ==> s == d && n == 8 * Bytes(n))
    requires good ==> EncodedRows(input[f..a.f1], bits, h, n, width)
    modifies input
    ensures error == if KindsKnown(old(input[f..a.f1]), h, Bytes(n)) then 0 else 36
    ensures good ==> error == 0 && Offset(h, n) <= |bits| && Pixel(BitsOf(input[..]), 8 * s, Offset(h, n)) == bits[..Offset(h, n)]
    ensures BitsOf(input[..])[..8 * s] == old(BitsOf(input[..]))[..8 * s]
    ensures BitsOf(input[..])[8 * a.f1..] == old(BitsOf(input[..]))[8 * a.f1..]
  {
    if good { EncodedKinds(input[f..a.f1], bits, h, n, width); }
    error := UnfilterPass(input, a, d, f, n, width, h, bits, good);
    if error != 0 { return; }
    ghost var image := input[d..a.d1];
    if bpp < 8 {
      UnpadPass(input, a, d, s, n, h, bits, good);
    } else if good {
      BitsOfSlice(input[..], d, a.d1);
      WithoutPadding(image, bits, h, n);
      Scale(h, Bytes(n));
      assert input[..][d..a.d1] == image;
    }
  }

  method UnfilterPass(input: array<byte>, ghost a: Plan, d: nat, f: nat, n: nat, width: nat, h: nat, ghost bits: seq<bit>,
                      ghost good: bool) returns (error: nat)
    requires Ordered(a) && a.h == h && a.n == n && a.d == d && a.f == f && a.f1 <= input.Length
    requires width > 0 && (h > 0 ==> width <= Bytes(n))
    requires good ==> EncodedRows(input[f..a.f1], bits, h, n, width)
    modifies input
    ensures error == if KindsKnown(old(input[f..a.f1]), h, Bytes(n)) then 0 else 36
    ensures good && error == 0 ==> PaddedImage(input[d..a.d1], bits, h, n)
    ensures BitsOf(input[..])[..8 * a.s] == old(BitsOf(input[..]))[..8 * a.s]
    ensures BitsOf(input[..])[8 * a.f1..] == old(BitsOf(input[..]))[8 * a.f1..]
  {
    ghost var data := input[f..a.f1];
    ghost var before := input[..];
    error := Unfilter(input, d, input, f, Bytes(n), width, h);
    if good && error == 0 { UnfilteredIs(data, input[d..a.d1], bits, h, n, width); }
    Untouched(before, input[..], d, a.d1, a.s, a.f1);
  }

  /** Bytes that are the same are bits that are the same. */
  lemma {:induction false} Untouched(before: seq<byte>, after: seq<byte>, d: nat, d1: nat, s: nat, f1: nat)
    requires s <= d <= d1 <= f1 <= |before| == |after| && after[..d] == before[..d] && after[d1..] == before[d1..]
    ensures BitsOf(after)[..8 * s] == BitsOf(before)[..8 * s] && BitsOf(after)[8 * f1..] == BitsOf(before)[8 * f1..]
  {
    assert after[0..s] == after[..d][..s] && before[0..s] == before[..d][..s];
    assert after[f1..|after|] == after[d1..][f1 - d1..] && before[f1..|before|] == before[d1..][f1 - d1..];
    BitsOfSlice(before, 0, s);
    BitsOfSlice(after, 0, s);
    BitsOfSlice(before, f1, |before|);
    BitsOfSlice(after, f1, |after|);
  }

  method UnpadPass(input: array<byte>, ghost a: Plan, d: nat, s: nat, n: nat, h: nat, ghost bits: seq<bit>,
                   ghost good: bool)
    requires Ordered(a) && a.h == h && a.n == n && a.s == s && a.d == d && a.f1 <= input.Length
    requires good ==> PaddedImage(input[d..a.d1], bits, h, n)
    modifies input
    ensures good ==> Offset(h, n) <= |bits| && Pixel(BitsOf(input[..]), 8 * s, Offset(h, n)) == bits[..Offset(h, n)]
    ensures BitsOf(input[..])[..8 * s] == old(BitsOf(input[..]))[..8 * s]
    ensures BitsOf(input[..])[8 * a.f1..] == old(BitsOf(input[..]))[8 * a.f1..]
  {
    ghost var before := BitsOf(input[..]);
    ghost var image := input[d..a.d1];
    Scale(h, Bytes(n));
    RemovePaddingBits(input, s, input, d, n, 8 * Bytes(n), h);
    ghost var rows := Unpadded(before[8 * d..], h, n, 8 * Bytes(n));
    SpliceHere(before, 8 * s, rows);
    OutsideSplice(before, 8 * s, rows, 8 * a.f1);
    if good {
      BitsOfSlice(old(input[..]), d, a.d1);
      assert old(input[..])[d..a.d1] == image;
      assert BitsOf(image) <= before[8 * d..];
      UnpaddedIs(before[8 * d..], image, bits, h, n);
    }
  }

  lemma {:induction false} OutsideSplice(b: seq<bit>, p: nat, piece: seq<bit>, q: nat)
    requires p + |piece| <= q <= |b|
    ensures Splice(b, p, piece)[..p] == b[..p] && Splice(b, p, piece)[q..] == b[q..]
  {
  }

  // ---------------------------------------------------------------- Adam7

  /** The first passes are in their final place. */
  ghost predicate Ready(buffer: seq<bit>, reduced: seq<bit>, n: nat, w: nat, h: nat, bpp: nat) {
    forall p: pass :: p < n ==> PassPixels(buffer, p, w, h, bpp) == PassPixels(reduced, p, w, h, bpp)
  }

  /** The buffer from byte f on still holds the data. */
  ghost predicate Unread(buffer: seq<bit>, data: seq<byte>, f: nat) {
    |buffer| == 8 * |data| && f <= |data| && buffer[8 * f..] == BitsOf(data)[8 * f..]
  }

  lemma {:induction false} UnreadBytes(buffer: seq<byte>, data: seq<byte>, f: nat, g: nat)
    requires Unread(BitsOf(buffer), data, f) && f <= g <= |data|
    ensures buffer[f..g] == data[f..g]
  {
    var n := |data|;
    assert 8 * |buffer| == 8 * |data|;
    BitsOfSlice(buffer, f, n);
    BitsOfSlice(data, f, n);
    BytesFromBits(buffer[f..n], data[f..n]);
    assert buffer[f..g] == buffer[f..n][..g - f] && data[f..g] == data[f..n][..g - f];
  }

  lemma {:induction false} ReadyNext(before: seq<bit>, after: seq<bit>, reduced: seq<bit>, p: pass, w: nat, h: nat, bpp: nat,
                                     s: nat)
    requires |before| == |after| && s == 8 * PassStart(p, w, h, bpp) <= |before| && after[..s] == before[..s]
    requires Ready(before, reduced, p, w, h, bpp)
    requires PassPixels(after, p, w, h, bpp) == PassPixels(reduced, p, w, h, bpp)
    ensures Ready(after, reduced, p + 1, w, h, bpp)
  {
    forall q: pass | q < p + 1 ensures PassPixels(after, q, w, h, bpp) == PassPixels(reduced, q, w, h, bpp) {
      if q < p {
        KeptPass(before, after, q, p, w, h, bpp, s);
        assert PassPixels(before, q, w, h, bpp) == PassPixels(reduced, q, w, h, bpp);
      }
    }
  }

  lemma {:induction false} KeptPass(before: seq<bit>, after: seq<bit>, q: pass, p: pass, w: nat, h: nat, bpp: nat, s: nat)
    requires q < p && |before| == |after| && s == 8 * PassStart(p, w, h, bpp) <= |before| && after[..s] == before[..s]
    ensures PassPixels(after, q, w, h, bpp) == PassPixels(before, q, w, h, bpp)
  {
    var next: nat := q + 1;
    PassStartMono(next, p, w, h, bpp);
    var i, n := 8 * PassStart(q, w, h, bpp), PassBits(q, w, h, bpp);
    assert i + n <= s;
    KeptPiece(before, after, s, i, n);
  }

  lemma {:induction false} KeptPiece(before: seq<bit>, after: seq<bit>, s: nat, i: nat, n: nat)
    requires i + n <= s <= |before| == |after| && after[..s] == before[..s]
    ensures Pixel(after, i, n) == Pixel(before, i, n)
  {
    assert after[i..i + n] == after[..s][i..i + n] && before[i..i + n] == before[..s][i..i + n];
  }

  lemma {:induction false} UnreadKept(before: seq<bit>, after: seq<bit>, data: seq<byte>, f: nat, g: nat)
    requires Unread(before, data, f) && f <= g <= |data| && |after| == |before| && after[8 * g..] == before[8 * g..]
    ensures Unread(after, data, g)
  {
    assert before[8 * g..] == before[8 * f..][8 * (g - f)..];
    assert BitsOf(data)[8 * g..] == BitsOf(data)[8 * f..][8 * (g - f)..];
  }

  /** The lines of pass p have known filter types. */
  ghost predicate PassKindsKnown(data: seq<byte>, p: pass, w: nat, h: nat, bpp: nat) {
    var a := PlanOf(p, w, h, bpp);
    a.f <= a.f1 <= |data| && KindsKnown(data[a.f..a.f1], a.h, Bytes(a.n))
  }

  ghost predicate PassesKnown(data: seq<byte>, n: nat, w: nat, h: nat, bpp: nat) {
    forall p: pass :: p < n ==> PassKindsKnown(data, p, w, h, bpp)
  }

  lemma {:induction false} KnownNext(data: seq<byte>, p: pass, w: nat, h: nat, bpp: nat)
    requires PassesKnown(data, p, w, h, bpp)
    ensures PassKindsKnown(data, p, w, h, bpp) ==> PassesKnown(data, p + 1, w, h, bpp)
    ensures !PassKindsKnown(data, p, w, h, bpp) ==> !PassesKnown(data, 7, w, h, bpp)
  {
  }

  /** All lines have known filter types. */
  ghost predicate AllKindsKnown(data: seq<byte>, interlaced: bool, w: nat, h: nat, bpp: nat) {
    if interlaced then PassesKnown(data, 7, w, h, bpp) else KindsKnown(data, h, Bytes(Offset(w, bpp)))
  }

  /** What is known about pass p when the data encode the image. */
  ghost predicate Expected(buffer: seq<byte>, data: seq<byte>, reduced: seq<bit>, p: nat, w: nat, h: nat, bpp: nat) {
    p <= 7 && |reduced| == Size(true, w, h, bpp) && Ready(BitsOf(buffer), reduced, p, w, h, bpp) &&
    Unread(BitsOf(buffer), data, FilterStart(p, w, h, bpp)) && Passes(data, reduced, 7, w, h, bpp)
  }

  lemma {:induction false} ExpectedRows(buffer: seq<byte>, data: seq<byte>, reduced: seq<bit>, p: pass, w: nat, h: nat,
                                        bpp: nat, a: Plan)
    requires Expected(buffer, data, reduced, p, w, h, bpp) && a == PlanOf(p, w, h, bpp) && Ordered(a) && a.f1 <= |buffer|
    ensures EncodedRows(buffer[a.f..a.f1], PassPixels(reduced, p, w, h, bpp), a.h, a.n, Bytes(bpp))
  {
    UnreadBytes(buffer, data, a.f, a.f1);
    assert EncodedPass(data, reduced, p, w, h, bpp);
  }

  lemma {:induction false} ExpectedNext(before: seq<byte>, after: seq<byte>, data: seq<byte>, reduced: seq<bit>, p: pass,
                                        w: nat, h: nat, bpp: nat, a: Plan)
    requires Expected(before, data, reduced, p, w, h, bpp) && a == PlanOf(p, w, h, bpp) && Ordered(a) && a.f1 <= |data|
    requires |after| == |before| && 8 * a.s1 <= Size(true, w, h, bpp)
    requires var bits := PassPixels(reduced, p, w, h, bpp);
             Offset(a.h, a.n) <= |bits| && Pixel(BitsOf(after), 8 * a.s, Offset(a.h, a.n)) == bits[..Offset(a.h, a.n)]
    requires BitsOf(after)[..8 * a.s] == BitsOf(before)[..8 * a.s] && BitsOf(after)[8 * a.f1..] == BitsOf(before)[8 * a.f1..]
    ensures Expected(after, data, reduced, p + 1, w, h, bpp)
  {
    WholePass(reduced, p, w, h, bpp);
    assert PassPixels(BitsOf(after), p, w, h, bpp) == PassPixels(reduced, p, w, h, bpp);
    ReadyNext(BitsOf(before), BitsOf(after), reduced, p, w, h, bpp, 8 * a.s);
    assert BitsOf(before)[8 * a.f1..] == BitsOf(before)[8 * a.f..][8 * (a.f1 - a.f)..];
    assert BitsOf(data)[8 * a.f1..] == BitsOf(data)[8 * a.f..][8 * (a.f1 - a.f)..];
  }

  method DecodePass(input: array<byte>, p: pass, passw: nat, passh: nat, f: nat, d: nat, s: nat, ghost w: nat, ghost h: nat,
                    bpp: nat, ghost data: seq<byte>, ghost reduced: seq<bit>, ghost good: bool) returns (error: nat)
    requires bpp > 0 && Depth(bpp) && passw == PassWidth(p, w, h) && passh == PassHeight(p, w, h) && (passh > 0 ==> passw > 0)
    requires LineFits(passw, bpp)
    requires f == FilterStart(p, w, h, bpp) && d == PaddedStart(p, w, h, bpp) && s == PassStart(p, w, h, bpp)
    requires input.Length == FilterStart(7, w, h, bpp) == |data| && Unread(BitsOf(input[..]), data, f)
    requires good ==> Expected(input[..], data, reduced, p, w, h, bpp)
    modifies input
    ensures error == if PassKindsKnown(data, p, w, h, bpp) then 0 else 36
    ensures Unread(BitsOf(input[..]), data, FilterStart(p + 1, w, h, bpp))
    ensures good ==> error == 0 && Expected(input[..], data, reduced, p + 1, w, h, bpp)
  {
    ghost var a := PlanOf(p, w, h, bpp);
    ghost var before := input[..];
    PlanOrdered(p, w, h, bpp, a);
    PlanInside(p, w, h, bpp);
    OffsetIs(passw, bpp);
    LineExact(passw, bpp);
    RowBytes(passw, bpp);
    UnreadBytes(before, data, a.f, a.f1);
    assert input[a.f..a.f1] == before[a.f..a.f1];
    if good { ExpectedRows(before, data, reduced, p, w, h, bpp, a); }
    error := MovePass(input, a, d, f, s, U32(passw * bpp), (bpp + 7) / 8, passh, bpp, PassPixels(reduced, p, w, h, bpp), good);
    UnreadKept(BitsOf(before), BitsOf(input[..]), data, a.f, a.f1);
    if good { ExpectedNext(before, input[..], data, reduced, p, w, h, bpp, a); }
  }

  lemma {:induction false} ValuesAt(passw: seq<nat>, passh: seq<nat>, filterStart: seq<nat>, paddedStart: seq<nat>,
                                    passStart: seq<nat>, p: pass, w: nat, h: nat, bpp: nat)
    requires PassValues(passw, passh, filterStart, paddedStart, passStart, w, h, bpp)
    ensures passw[p] == PassWidth(p, w, h) && passh[p] == PassHeight(p, w, h) && (passh[p] > 0 ==> passw[p] > 0)
    ensures filterStart[p] == FilterStart(p, w, h, bpp) && paddedStart[p] == PaddedStart(p, w, h, bpp)
    ensures passStart[p] == PassStart(p, w, h, bpp)
  {
  }

  /** All passes, in order. */
  method DecodePasses(input: array<byte>, passw: seq<nat>, passh: seq<nat>, filterStart: seq<nat>, paddedStart: seq<nat>,
                      passStart: seq<nat>, ghost w: nat, ghost h: nat, bpp: nat, ghost data: seq<byte>,
                      ghost reduced: seq<bit>, ghost good: bool) returns (error: nat)
    requires bpp > 0 && Depth(bpp) && PassValues(passw, passh, filterStart, paddedStart, passStart, w, h, bpp)
    requires PassesFit(w, h, bpp)
    requires input.Length == FilterStart(7, w, h, bpp) && data == input[..]
    requires good ==> Expected(input[..], data, reduced, 0, w, h, bpp)
    modifies input
    ensures error == if AllKindsKnown(data, true, w, h, bpp) then 0 else 36
    ensures good ==> error == 0 && Expected(input[..], data, reduced, 7, w, h, bpp)
  {
    error := 0;
    var i := 0;
    while i != 7
      invariant i <= 7 && error == 0 && (good ==> Expected(input[..], data, reduced, i, w, h, bpp))
      invariant Unread(BitsOf(input[..]), data, FilterStart(i, w, h, bpp))
      invariant PassesKnown(data, i, w, h, bpp)
    {
      PassLineFits(i, w, h, bpp);
      ValuesAt(passw, passh, filterStart, paddedStart, passStart, i, w, h, bpp);
      error := DecodePass(input, i, passw[i], passh[i], filterStart[i], paddedStart[i], passStart[i], w, h, bpp, data,
                          reduced, good);
      KnownNext(data, i, w, h, bpp);
      if error != 0 { return; }
      i := i + 1;
    }
  }

  lemma {:induction false} PixelsBack(out: seq<bit>, buffer: seq<bit>, reduced: seq<bit>, bits: seq<bit>, w: nat, h: nat,
                                      bpp: nat)
    requires AllSame(out, buffer, false, w, h, bpp) && AllSame(reduced, bits, true, w, h, bpp)
    requires Size(true, w, h, bpp) <= |buffer| && |reduced| == Size(true, w, h, bpp)
    requires Size(false, w, h, bpp) <= |out| && Size(false, w, h, bpp) <= |bits|
    requires Ready(buffer, reduced, 7, w, h, bpp)
    ensures out[..Size(false, w, h, bpp)] == bits[..Size(false, w, h, bpp)]
  {
    forall i: nat, j: nat | i < w && j < h
      ensures Pixel(out, Grid(i, j, w, bpp), bpp) == Pixel(bits, Grid(i, j, w, bpp), bpp)
    {
      assert Same(out, buffer, false, i, j, w, h, bpp) && Same(reduced, bits, true, i, j, w, h, bpp);
      PassesDetermine(buffer, reduced, w, h, bpp, i, j, PassOf(i, j));
    }
    SamePixels(out, bits, w, h, bpp, h, 0);
  }

  method PostProcessInterlaced(out: array<byte>, input: array<byte>, w: nat, h: nat, bpp: nat, ghost bits: seq<bit>)
      returns (error: nat)
    requires out != input && bpp > 0 && Depth(bpp) && Size(false, w, h, bpp) <= |bits| && InterlacedFits(w, h, bpp)
    requires input.Length == FilterStart(7, w, h, bpp) && Size(false, w, h, bpp) <= 8 * out.Length
    modifies out, input
    ensures error == if AllKindsKnown(old(input[..]), true, w, h, bpp) then 0 else 36
    ensures Encoded(old(input[..]), bits, true, w, h, bpp) ==>
      error == 0 && BitsOf(out[..])[..Size(false, w, h, bpp)] == bits[..Size(false, w, h, bpp)]
  {
    var passw, passh, filterStart, paddedStart, passStart := GetPassValues(w, h, bpp);
    StartsOrdered(7, w, h, bpp);
    ghost var data := input[..];
    ghost var good := Encoded(data, bits, true, w, h, bpp);
    ghost var reduced := [];
    if good { reduced :| Interlaced(data, reduced, bits, w, h, bpp); }
    error := DecodePasses(input, passw, passh, filterStart, paddedStart, passStart, w, h, bpp, data, reduced, good);
    if error != 0 { return; }
    var _ := Reorder(out, input, false, w, h, bpp);
    if good { PixelsBack(BitsOf(out[..]), BitsOf(input[..]), reduced, bits, w, h, bpp); }
  }

  /** postProcessScanlines: error 31 exactly when the colour type is invalid, error 36 exactly
      when a line has an unknown filter type. Data that encode an
      image give back every bit of its pixels, unless a size or an address wraps around; there
      the model stops. */
  method PostProcess(out: array<byte>, input: array<byte>, w: nat, h: nat, bpp: nat, interlaced: bool,
                     ghost bits: seq<bit>) returns (error: nat, wrapped: bool)
    requires out != input && Depth(bpp) && (h > 0 ==> w > 0)
    requires input.Length == if interlaced then FilterStart(7, w, h, bpp) else Offset(h, Bytes(Offset(w, bpp)) + 1)
    requires Size(false, w, h, bpp) <= 8 * out.Length && Size(false, w, h, bpp) <= |bits|
    modifies out, input
    ensures error in {0, 31, 36} && (error == 31 <==> bpp == 0)
    ensures wrapped <==> bpp > 0 && !DecodeFits(interlaced, w, h, bpp)
    ensures bpp > 0 && !wrapped ==> error == if AllKindsKnown(old(input[..]), interlaced, w, h, bpp) then 0 else 36
    ensures bpp > 0 && !wrapped && Encoded(old(input[..]), bits, interlaced, w, h, bpp) ==>
      error == 0 && BitsOf(out[..])[..Size(false, w, h, bpp)] == bits[..Size(false, w, h, bpp)]
  {
    if bpp == 0 { return 31, false; }
    wrapped := !DecodeFits(interlaced, w, h, bpp);
    if wrapped {
      error := 0;
    } else if interlaced {
      error := PostProcessInterlaced(out, input, w, h, bpp, bits);
    } else {
      assert input[..] == input[..input.Length];
      error := PostProcessPlain(out, input, w, h, bpp, bits);
    }
  }
}
