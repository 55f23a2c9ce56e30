/** Filtering and unfiltering all lines of an image. Every filtered line is preceded by a byte
    with its filter type. */
module PngRows {
  import opened Bits
  import opened PngFilter
  import U = PngUnfilter

  // ---------------------------------------------------------------- definition

  /** y * n, where row y of a table with n bytes per row starts. */
  function Offset(y: nat, n: nat): nat
    decreases y, n
  {
    if y == 0 then 0 else Offset(y - 1, n) + n
  }

  lemma {:induction false} OffsetIs(y: nat, n: nat)
    ensures Offset(y, n) == y * n
    decreases y
  {
    if y > 0 { OffsetIs(y - 1, n); }
  }

  lemma {:induction false} OffsetMono(y: nat, z: nat, n: nat)
    requires y <= z
    ensures Offset(y, n) <= Offset(z, n)
    decreases z
  {
    if y < z { OffsetMono(y, z - 1, n); }
  }

  /** Rows before the last end before the end. */
  lemma {:induction false} RowFits(y: nat, h: nat, n: nat)
    requires y < h
    ensures Offset(y + 1, n) == Offset(y, n) + n <= Offset(h, n)
  {
    OffsetMono(y + 1, h, n);
  }

  lemma {:induction false} NarrowRows(y: nat, n: nat)
    ensures Offset(y, n) <= Offset(y, n + 1)
    decreases y
  {
    if y > 0 { NarrowRows(y - 1, n); }
  }

  /** Row y of an image, and the row above it. */
  ghost function Row(image: seq<byte>, y: nat, n: nat): seq<byte> {
    var m := Offset(y, n);
    if m + n <= |image| then image[m..m + n] else []
  }

  ghost function Above(image: seq<byte>, y: nat, n: nat): seq<byte> {
    if y == 0 then [] else Row(image, y - 1, n)
  }

  /** Line y of the filtered data is a filter type and row y filtered with that type. */
  ghost predicate RowFiltered(data: seq<byte>, image: seq<byte>, y: nat, n: nat, width: nat) {
    var d := Offset(y, n + 1);
    d + n + 1 <= |data| && Offset(y, n) + n <= |image| &&
    Filtered(data[d + 1..d + n + 1], Row(image, y, n), Above(image, y, n), width, data[d])
  }

  ghost predicate ImageFiltered(data: seq<byte>, image: seq<byte>, h: nat, n: nat, width: nat) {
    |data| == Offset(h, n + 1) && |image| == Offset(h, n) && forall y: nat :: y < h ==> RowFiltered(data, image, y, n, width)
  }

  /** The filtered data determine the image. */
  lemma {:induction false} DataDetermineImage(data: seq<byte>, a: seq<byte>, b: seq<byte>, h: nat, n: nat, width: nat)
    requires width > 0 && ImageFiltered(data, a, h, n, width) && ImageFiltered(data, b, h, n, width)
    ensures a == b
  {
    var y := 0;
    var m := 0;
    while y < h
      invariant y <= h && m == Offset(y, n) <= Offset(h, n) && a[..m] == b[..m]
    {
      RowFits(y, h, n);
      assert RowFiltered(data, a, y, n, width) && RowFiltered(data, b, y, n, width);
      RowDetermined(data, a, b, y, n, width, m);
      m := m + n;
      y := y + 1;
    }
  }

  lemma {:induction false} RowDetermined(data: seq<byte>, a: seq<byte>, b: seq<byte>, y: nat, n: nat, width: nat, m: nat)
    requires width > 0 && m == Offset(y, n) && m + n <= |a| == |b| && a[..m] == b[..m]
    requires RowFiltered(data, a, y, n, width) && RowFiltered(data, b, y, n, width)
    ensures a[..m + n] == b[..m + n]
  {
    SameAbove(a, b, y, n);
    var d := Offset(y, n + 1);
    FilterInjective(data[d + 1..d + n + 1], Row(a, y, n), Row(b, y, n), Above(a, y, n), width, data[d]);
    assert a[..m + n] == a[..m] + Row(a, y, n) && b[..m + n] == b[..m] + Row(b, y, n);
  }

  lemma {:induction false} SameAbove(a: seq<byte>, b: seq<byte>, y: nat, n: nat)
    requires Offset(y, n) <= |a| && Offset(y, n) <= |b| && a[..Offset(y, n)] == b[..Offset(y, n)]
    ensures Above(a, y, n) == Above(b, y, n)
  {
    if y > 0 {
      var m := Offset(y - 1, n);
      assert Above(a, y, n) == a[..Offset(y, n)][m..];
      assert Above(b, y, n) == b[..Offset(y, n)][m..];
    }
  }

  // ---------------------------------------------------------------- filter

  /** Row y only looks at the data of its own line. */
  lemma {:induction false} RowKept(data: seq<byte>, after: seq<byte>, image: seq<byte>, y: nat, n: nat, width: nat)
    requires RowFiltered(data, image, y, n, width) && |after| >= Offset(y, n + 1) + n + 1
    requires after[..Offset(y, n + 1) + n + 1] == data[..Offset(y, n + 1) + n + 1]
    ensures RowFiltered(after, image, y, n, width)
  {
    var d := Offset(y, n + 1);
    assert after[d] == after[..d + n + 1][d] == data[..d + n + 1][d];
    assert after[d + 1..d + n + 1] == after[..d + n + 1][d + 1..];
    assert data[d + 1..d + n + 1] == data[..d + n + 1][d + 1..];
  }

  /** The lines so far: each carries its type, and those of a known type are filtered. */
  ghost predicate Lines(data: seq<byte>, image: seq<byte>, kinds: seq<byte>, y: nat, n: nat, width: nat) {
    |data| == Offset(y, n + 1) && y <= |kinds| &&
    forall k: nat :: k < y ==> Line(data, image, kinds[k], k, n, width)
  }

  ghost predicate Line(data: seq<byte>, image: seq<byte>, kind: byte, k: nat, n: nat, width: nat) {
    Offset(k, n + 1) < |data| && data[Offset(k, n + 1)] == kind && (kind <= 4 ==> RowFiltered(data, image, k, n, width))
  }

  lemma {:induction false} LinesNext(data: seq<byte>, image: seq<byte>, kinds: seq<byte>, y: nat, n: nat, width: nat,
                                     line: seq<byte>)
    requires Lines(data, image, kinds, y, n, width) && y < |kinds| && |line| == n && Offset(y, n) + n <= |image|
    requires kinds[y] <= 4 ==> Filtered(line, Row(image, y, n), Above(image, y, n), width, kinds[y])
    ensures Lines(data + [kinds[y]] + line, image, kinds, y + 1, n, width)
  {
    var after := data + [kinds[y]] + line;
    var d := Offset(y, n + 1);
    assert after[d + 1..d + n + 1] == line;
    forall k: nat | k < y + 1 ensures Line(after, image, kinds[k], k, n, width) {
      if k < y {
        assert Line(data, image, kinds[k], k, n, width);
        RowFits(k, y, n + 1);
        var e := Offset(k, n + 1) + n + 1;
        assert after[..e] == data[..e];
        if kinds[k] <= 4 { RowKept(data, after, image, k, n, width); }
      }
    }
  }

  /** filter, with the type of each row given: fixed, predefined, or found by a heuristic. */
  method Filter(out: array<byte>, o: nat, image: seq<byte>, n: nat, width: nat, h: nat, kinds: seq<byte>)
    requires |kinds| == h && |image| == Offset(h, n) && (h > 0 ==> 0 < width <= n)
    requires o + Offset(h, n + 1) <= out.Length
    modifies out
    ensures out[..o] == old(out[..o]) && out[o + Offset(h, n + 1)..] == old(out[o + Offset(h, n + 1)..])
    ensures Lines(out[o..o + Offset(h, n + 1)], image, kinds, h, n, width)
  {
    FilterRows(out, o, image, n, width, h, kinds, o + Offset(h, n + 1));
  }

  /** Where row y and its line start. */
  ghost predicate Spot(y: nat, n: nat, o: nat, index: int, d: int) {
    index == Offset(y, n) && d == o + Offset(y, n + 1) && d == o + index + y
  }

  lemma {:induction false} NextSpot(y: nat, n: nat, o: nat, index: int, d: int)
    requires Spot(y, n, o, index, d)
    ensures Spot(y + 1, n, o, index + n, d + n + 1)
  {
  }

  lemma {:induction false} SpotInside(y: nat, h: nat, n: nat, o: nat, index: int, d: int)
    requires y < h && Spot(y, n, o, index, d)
    ensures index + n <= Offset(h, n) && d + n + 1 <= o + Offset(h, n + 1)
  {
    RowFits(y, h, n);
    RowFits(y, h, n + 1);
  }

  method FilterRows(out: array<byte>, o: nat, image: seq<byte>, n: nat, width: nat, h: nat, kinds: seq<byte>,
                    ghost end: nat)
    requires |kinds| == h && |image| == Offset(h, n) && (h > 0 ==> 0 < width <= n)
    requires end == o + Offset(h, n + 1) <= out.Length
    modifies out
    ensures out[..o] == old(out[..o]) && out[end..] == old(out[end..])
    ensures Lines(out[o..end], image, kinds, h, n, width)
  {
    var y, index: nat, d: nat := 0, 0, o;
    ghost var lines: seq<byte> := [];
    while y != h
      invariant y <= h && Spot(y, n, o, index, d) && d <= end
      invariant out[..o] == old(out[..o]) && out[end..] == old(out[end..])
      invariant lines == out[o..d] && Lines(lines, image, kinds, y, n, width)
    {
      SpotInside(y, h, n, o, index, d);
      lines := FilterNext(out, o, d, image, n, width, y, index, kinds, end, lines);
      index := index + n;
      d := d + n + 1;
      y := y + 1;
    }
  }

  method FilterNext(out: array<byte>, o: nat, d: nat, image: seq<byte>, n: nat, width: nat, y: nat, index: nat,
                    kinds: seq<byte>, ghost end: nat, ghost lines: seq<byte>) returns (ghost next: seq<byte>)
    requires y < |kinds| && Spot(y, n, o, index, d) && 0 < width <= n
    requires index + n <= |image| && d + n + 1 <= end <= out.Length
    requires lines == out[o..d] && Lines(lines, image, kinds, y, n, width)
    modifies out
    ensures out[..o] == old(out[..o]) && out[end..] == old(out[end..])
    ensures next == out[o..d + n + 1] && Lines(next, image, kinds, y + 1, n, width)
    ensures Spot(y + 1, n, o, index + n, d + n + 1)
  {
    NextSpot(y, n, o, index, d);
    ghost var before := out[..];
    FilterRow(out, o, d, image, n, width, y, index, kinds);
    Later(before, out[..], d + n + 1, end);
    next := out[o..d + n + 1];
  }

  method FilterRow(out: array<byte>, o: nat, d: nat, image: seq<byte>, n: nat, width: nat, y: nat, index: nat,
                   kinds: seq<byte>)
    requires y < |kinds| && index == Offset(y, n) && d == o + Offset(y, n + 1) == o + index + y && 0 < width <= n
    requires index + n <= |image| && d + n + 1 <= out.Length
    requires Lines(out[o..d], image, kinds, y, n, width)
    modifies out
    ensures out[..o] == old(out[..o]) && out[d + n + 1..] == old(out[d + n + 1..])
    ensures Lines(out[o..d + n + 1], image, kinds, y + 1, n, width)
  {
    var prev := if y == 0 then [] else image[index - n..index];
    var line := image[index..index + n];
    ghost var before := out[..];
    assert before[o..d] == out[o..d];
    WriteLine(out, d, line, prev, width, kinds[y]);
    assert out[d + n + 1..] == out[d + |line| + 1..];
    LineWritten(before, out[..], image, kinds, o, d, y, index, n, width, line, prev);
    assert out[..][o..d + n + 1] == out[o..d + n + 1];
  }

  lemma {:induction false} LineWritten(before: seq<byte>, after: seq<byte>, image: seq<byte>, kinds: seq<byte>, o: nat,
                                       d: nat, y: nat, index: nat, n: nat, width: nat, line: seq<byte>, prev: seq<byte>)
    requires y < |kinds| && index == Offset(y, n) && d == o + index + y == o + Offset(y, n + 1) && index + n <= |image|
    requires d + n + 1 <= |before| == |after| && after[..d] == before[..d] && after[d] == kinds[y]
    requires prev == (if y == 0 then [] else image[index - n..index]) && line == image[index..index + n]
    requires kinds[y] <= 4 ==> Filtered(after[d + 1..d + n + 1], line, prev, width, kinds[y])
    requires Lines(before[o..d], image, kinds, y, n, width)
    ensures Lines(after[o..d + n + 1], image, kinds, y + 1, n, width) && after[..o] == before[..o]
  {
    Extended(before, after, o, d, n);
    assert Row(image, y, n) == image[index..index + n] && Above(image, y, n) == prev;
    LinesNext(before[o..d], image, kinds, y, n, width, after[d + 1..d + n + 1]);
  }

  lemma {:induction false} Extended(before: seq<byte>, after: seq<byte>, o: nat, d: nat, n: nat)
    requires o <= d && d + n + 1 <= |before| == |after| && after[..d] == before[..d]
    ensures after[o..d + n + 1] == before[o..d] + [after[d]] + after[d + 1..d + n + 1]
    ensures after[..o] == before[..o]
  {
    assert after[o..d] == after[..d][o..] && before[o..d] == before[..d][o..];
    assert after[..o] == after[..d][..o] && before[..o] == before[..d][..o];
  }

  /** The filter type and the filtered line. */
  method WriteLine(out: array<byte>, d: nat, line: seq<byte>, prev: seq<byte>, width: nat, kind: byte)
    requires 0 < width <= |line| && (prev == [] || |prev| == |line|) && d + 1 + |line| <= out.Length
    modifies out
    ensures out[..d] == old(out[..d]) && out[d + |line| + 1..] == old(out[d + |line| + 1..]) && out[d] == kind
    ensures kind <= 4 ==> Filtered(out[d + 1..d + |line| + 1], line, prev, width, kind)
  {
    out[d] := kind;
    ghost var first := out[..d + 1];
    FilterScanline(out, d + 1, line, prev, width, kind);
    assert out[d] == out[..d + 1][d] == first[d];
    assert out[..d] == out[..d + 1][..d] == first[..d];
  }

  // ---------------------------------------------------------------- unfilter

  /** The first y rows are reconstructed. */
  ghost predicate Rows(data: seq<byte>, image: seq<byte>, y: nat, n: nat, width: nat) {
    |image| == Offset(y, n) && forall k: nat :: k < y ==> RowFiltered(data, image, k, n, width)
  }

  lemma {:induction false} RowExtends(data: seq<byte>, image: seq<byte>, after: seq<byte>, k: nat, n: nat, width: nat)
    requires RowFiltered(data, image, k, n, width) && image <= after
    ensures RowFiltered(data, after, k, n, width)
  {
    assert Row(after, k, n) == Row(image, k, n);
    if k > 0 { assert Above(after, k, n) == Above(image, k, n); }
  }

  lemma {:induction false} RowsNext(data: seq<byte>, image: seq<byte>, y: nat, n: nat, width: nat, line: seq<byte>)
    requires Rows(data, image, y, n, width) && |line| == n && Offset(y, n + 1) + n + 1 <= |data|
    requires var d := Offset(y, n + 1); Filtered(data[d + 1..d + n + 1], line, Above(image, y, n), width, data[d])
    ensures Rows(data, image + line, y + 1, n, width)
  {
    var after := image + line;
    forall k: nat | k < y + 1 ensures RowFiltered(data, after, k, n, width) {
      if k < y {
        RowExtends(data, image, after, k, n, width);
      } else {
        assert Row(after, y, n) == line;
        SameAbove(after, image, y, n);
      }
    }
  }

  lemma {:induction false} RowSolved(before: seq<byte>, after: seq<byte>, data: seq<byte>, o: nat, r: nat, y: nat, n: nat,
                                     width: nat, scan: seq<byte>, prev: seq<byte>, kind: byte)
    requires r == o + Offset(y, n) && r + n <= |before| == |after| && after[..r] == before[..r]
    requires Rows(data, before[o..r], y, n, width) && prev == (if y == 0 then [] else before[r - n..r])
    requires Offset(y, n + 1) + n + 1 <= |data| && kind == data[Offset(y, n + 1)]
    requires scan == data[Offset(y, n + 1) + 1..Offset(y, n + 1) + n + 1]
    requires Filtered(scan, after[r..r + n], prev, width, kind)
    ensures Rows(data, after[o..r + n], y + 1, n, width) && after[..o] == before[..o]
  {
    assert after[o..r] == after[..r][o..] && before[o..r] == before[..r][o..];
    assert after[..o] == after[..r][..o] && before[..o] == before[..r][..o];
    assert after[o..r + n] == before[o..r] + after[r..r + n];
    if y > 0 { assert Above(before[o..r], y, n) == before[r - n..r]; }
    RowsNext(data, before[o..r], y, n, width, after[r..r + n]);
  }

  /** One iteration of unfilter: the line at s gives row y at r. */
  method UnfilterRow(out: array<byte>, o: nat, input: array<byte>, s: nat, n: nat, width: nat, y: nat, r: nat,
                     ghost data: seq<byte>) returns (error: nat)
    requires out != input || r <= s
    requires 0 < width <= n && r == o + Offset(y, n) && r + n <= out.Length && s + n + 1 <= input.Length
    requires Offset(y, n + 1) + n + 1 <= |data|
    requires input[s..s + n + 1] == data[Offset(y, n + 1)..Offset(y, n + 1) + n + 1]
    requires Rows(data, out[o..r], y, n, width)
    modifies out
    ensures error == if data[Offset(y, n + 1)] <= 4 then 0 else 36
    ensures out[..o] == old(out[..o]) && out[r + n..] == old(out[r + n..])
    ensures error == 0 ==> Rows(data, out[o..r + n], y + 1, n, width)
  {
    var kind := input[s];
    ghost var d := Offset(y, n + 1);
    assert kind == input[s..s + n + 1][0] == data[d..d + n + 1][0] == data[d];
    ghost var scan := input[s + 1..s + 1 + n];
    assert scan == input[s..s + n + 1][1..] == data[d..d + n + 1][1..] == data[d + 1..d + n + 1];
    ghost var before := out[..];
    assert before[o..r] == out[o..r];
    error := UnfilterAt(out, input, r, s + 1, y > 0, width, n, kind);
    if error == 0 {
      RowSolved(before, out[..], data, o, r, y, n, width, scan, if y > 0 then before[r - n..r] else [], kind);
      assert out[..][o..r + n] == out[o..r + n];
    }
    assert out[..o] == out[..r][..o] && before[..o] == before[..r][..o];
  }

  method UnfilterAt(out: array<byte>, input: array<byte>, r: nat, s: nat, above: bool, width: nat, n: nat, kind: byte)
      returns (error: nat)
    requires out != input || r <= s
    requires 0 < width <= n && r + n <= out.Length && s + n <= input.Length && (above ==> n <= r)
    modifies out
    ensures error == if kind <= 4 then 0 else 36
    ensures out[..r] == old(out[..r]) && out[r + n..] == old(out[r + n..])
    ensures kind <= 4 ==> Filtered(old(input[s..s + n]), out[..][r..r + n], if above then old(out[..])[r - n..r] else [],
                                   width, kind)
  {
    var l := U.Line(r, s, if above then Some(r - n) else None, width, n);
    error := U.UnfilterScanline(out, input, l, kind);
    assert out[r..r + n] == out[..][r..r + n];
  }

  /** What is still to be read. */
  ghost predicate Unread(c: seq<byte>, s: nat, end: nat, data: seq<byte>, from: nat) {
    s <= end <= |c| && from <= |data| && c[s..end] == data[from..]
  }

  lemma {:induction false} UnreadNext(c: seq<byte>, after: seq<byte>, s: nat, end: nat, data: seq<byte>, from: nat, n: nat)
    requires Unread(c, s, end, data, from) && s + n <= end && |after| == |c| && after[s + n..] == c[s + n..]
    ensures Unread(after, s + n, end, data, from + n) && c[s..s + n] == data[from..from + n]
  {
    assert c[s + n..end] == c[s..end][n..] && data[from + n..] == data[from..][n..];
    assert after[s + n..end] == after[s + n..][..end - s - n] && c[s + n..end] == c[s + n..][..end - s - n];
    assert c[s..s + n] == c[s..end][..n] && data[from..from + n] == data[from..][..n];
  }

  function KindAt(data: seq<byte>, y: nat, n: nat): byte { Sample(data, Offset(y, n + 1)) }

  ghost predicate KindsKnown(data: seq<byte>, h: nat, n: nat) {
    forall y: nat :: y < h ==> KindAt(data, y, n) <= 4
  }

  /** unfilter: the image whose filtered form was there, even where the result overlaps it; error
      36 exactly when a line has an unknown filter type. */
  method Unfilter(out: array<byte>, o: nat, input: array<byte>, i: nat, n: nat, width: nat, h: nat) returns (error: nat)
    requires (out != input || o <= i) && (h > 0 ==> 0 < width <= n)
    requires o + Offset(h, n) <= out.Length && i + Offset(h, n + 1) <= input.Length
    modifies out
    ensures out[..o] == old(out[..o]) && out[o + Offset(h, n)..] == old(out[o + Offset(h, n)..])
    ensures error == if KindsKnown(old(input[i..i + Offset(h, n + 1)]), h, n) then 0 else 36
    ensures error == 0 ==>
      ImageFiltered(old(input[i..i + Offset(h, n + 1)]), out[o..o + Offset(h, n)], h, n, width)
  {
    ghost var end := i + Offset(h, n + 1);
    ghost var last := o + Offset(h, n);
    ghost var data := input[i..end];
    error := UnfilterRows(out, o, input, i, n, width, h, data, end, last);
  }

  method UnfilterRows(out: array<byte>, o: nat, input: array<byte>, i: nat, n: nat, width: nat, h: nat,
                      ghost data: seq<byte>, ghost end: nat, ghost last: nat) returns (error: nat)
    requires (out != input || o <= i) && (h > 0 ==> 0 < width <= n)
    requires last == o + Offset(h, n) <= out.Length && end == i + Offset(h, n + 1) <= input.Length
    requires |data| == Offset(h, n + 1) && Unread(input[..], i, end, data, 0)
    modifies out
    ensures out[..o] == old(out[..o]) && out[last..] == old(out[last..])
    ensures error == if KindsKnown(data, h, n) then 0 else 36
    ensures error == 0 ==> ImageFiltered(data, out[o..last], h, n, width)
  {
    error := 0;
    var y, r, s := 0, o, i;
    ghost var from := 0;
    while y < h
      invariant y <= h && r == o + Offset(y, n) <= last && from == Offset(y, n + 1) == y + (r - o) && s == i + from
      invariant out[..o] == old(out[..o]) && out[last..] == old(out[last..])
      invariant Unread(input[..], s, end, data, from)
      invariant Rows(data, out[o..r], y, n, width) && KindsKnown(data, y, n)
    {
      RowFits(y, h, n);
      RowFits(y, h, n + 1);
      error := NextRow(out, o, input, s, n, width, y, r, data, from, end, last, h);
      if error != 0 { return; }
      s := s + n + 1;
      from := from + n + 1;
      r := r + n;
      y := y + 1;
    }
    assert r == last;
  }

  method NextRow(out: array<byte>, o: nat, input: array<byte>, s: nat, n: nat, width: nat, y: nat, r: nat,
                 ghost data: seq<byte>, ghost from: nat, ghost end: nat, ghost last: nat, ghost h: nat)
      returns (error: nat)
    requires (out != input || r <= s) && y < h && from == Offset(y, n + 1)
    requires 0 < width <= n && r == o + Offset(y, n) && r + n <= last <= out.Length && s + n + 1 <= end
    requires Unread(input[..], s, end, data, from) && Rows(data, out[o..r], y, n, width) && KindsKnown(data, y, n)
    modifies out
    ensures error == 0 || (error == 36 && !KindsKnown(data, h, n))
    ensures out[..o] == old(out[..o]) && out[last..] == old(out[last..])
    ensures Unread(input[..], s + n + 1, end, data, from + n + 1)
    ensures error == 0 ==> KindsKnown(data, y + 1, n) && Rows(data, out[o..r + n], y + 1, n, width)
  {
    ghost var c := input[..];
    ghost var before := out[..];
    UnreadNext(c, c, s, end, data, from, n + 1);
    assert input[s..s + n + 1] == c[s..s + n + 1];
    error := UnfilterRow(out, o, input, s, n, width, y, r, data);
    assert KindAt(data, y, n) == data[from];
    Later(before, out[..], r + n, last);
    if out == input { Later(before, out[..], r + n, s + n + 1); }
    UnreadNext(c, input[..], s, end, data, from, n + 1);
  }

  lemma {:induction false} Later(before: seq<byte>, after: seq<byte>, p: nat, q: nat)
    requires p <= q <= |before| == |after| && after[p..] == before[p..]
    ensures after[q..] == before[q..]
  {
    assert after[q..] == after[p..][q - p..] && before[q..] == before[p..][q - p..];
  }
}
