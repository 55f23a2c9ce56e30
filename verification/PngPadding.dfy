/** The padding bits at the end of each line whose pixels do not fill a whole number of bytes:
    added before filtering, removed after unfiltering. */
module PngPadding {
  import opened Bits
  import opened PngBits
  import opened PngRows

  // ---------------------------------------------------------------- definition

  function ZeroBits(n: nat): (z: seq<bit>)
    ensures |z| == n
  {
    seq(n, _ => 0)
  }

  /** h rows of n bits, each followed by zeros up to m bits. */
  ghost function Padded(s: seq<bit>, h: nat, n: nat, m: nat): (r: seq<bit>)
    requires Offset(h, n) <= |s| && n <= m
    ensures |r| == Offset(h, m)
    decreases h
  {
    if h == 0 then [] else Padded(s, h - 1, n, m) + s[Offset(h - 1, n)..Offset(h, n)] + ZeroBits(m - n)
  }

  /** The first n bits of each of h rows of m bits. */
  ghost function Unpadded(s: seq<bit>, h: nat, n: nat, m: nat): (r: seq<bit>)
    requires Offset(h, m) <= |s| && n <= m
    ensures |r| == Offset(h, n)
    decreases h
  {
    if h == 0 then [] else Unpadded(s, h - 1, n, m) + s[Offset(h - 1, m)..Offset(h - 1, m) + n]
  }

  /** Only the bits of the rows matter. */
  lemma {:induction false} UnpaddedPrefix(a: seq<bit>, b: seq<bit>, h: nat, n: nat, m: nat)
    requires Offset(h, m) <= |a| && a <= b && n <= m
    ensures Unpadded(a, h, n, m) == Unpadded(b, h, n, m)
    decreases h
  {
    if h > 0 {
      UnpaddedPrefix(a, b, h - 1, n, m);
      var p := Offset(h - 1, m);
      assert a[p..p + n] == b[p..p + n];
    }
  }

  /** Removing the padding gives the rows back. */
  lemma {:induction false} UnpadPadded(s: seq<bit>, h: nat, n: nat, m: nat)
    requires Offset(h, n) <= |s| && n <= m
    ensures Unpadded(Padded(s, h, n, m), h, n, m) == s[..Offset(h, n)]
    decreases h
  {
    if h > 0 {
      UnpadPadded(s, h - 1, n, m);
      var r := Padded(s, h, n, m);
      var p := Offset(h - 1, m);
      assert Padded(s, h - 1, n, m) <= r;
      UnpaddedPrefix(Padded(s, h - 1, n, m), r, h - 1, n, m);
      assert r[p..p + n] == s[Offset(h - 1, n)..Offset(h, n)];
    }
  }

  // ---------------------------------------------------------------- splices

  lemma {:induction false} SpliceAppend(b: seq<bit>, p: nat, x: seq<bit>, y: seq<bit>)
    requires p + |x| + |y| <= |b|
    ensures Splice(Splice(b, p, x), p + |x|, y) == Splice(b, p, x + y)
  {
  }

  // ---------------------------------------------------------------- removePaddingBits

  /** The rows that are done, and the source bits that are still there. */
  ghost predicate Moved(before: seq<bit>, now: seq<bit>, o: nat, rows: seq<bit>) {
    o + |rows| <= |before| && now == Splice(before, o, rows)
  }

  ghost predicate Ahead(from: seq<bit>, now: seq<bit>, p: nat) {
    p <= |from| == |now| && now[p..] == from[p..]
  }

  /** removePaddingBits, from byte i to byte o, which may lie in the same buffer. */
  method RemovePaddingBits(out: array<byte>, o: nat, input: array<byte>, i: nat, n: nat, m: nat, h: nat)
    requires (out != input || o <= i) && n <= m
    requires 8 * o + Offset(h, n) <= 8 * out.Length && 8 * i + Offset(h, m) <= 8 * input.Length
    modifies out
    ensures BitsOf(out[..]) == Splice(old(BitsOf(out[..])), 8 * o, Unpadded(old(BitsOf(input[..]))[8 * i..], h, n, m))
  {
    ghost var before := BitsOf(out[..]);
    ghost var from := BitsOf(input[..]);
    ghost var source := from[8 * i..];
    var y, ibp: nat, obp: nat := 0, 8 * i, 8 * o;
    ghost var rows := [];
    while y < h
      invariant y <= h && InRow(source, y, n, m, 8 * o, 8 * i, rows, obp, ibp)
      invariant Moved(before, BitsOf(out[..]), 8 * o, rows) && Ahead(from, BitsOf(input[..]), ibp)
    {
      Fit(source, y, h, n, m, 8 * o, 8 * i, rows, obp, ibp);
      rows := MoveRow(out, obp, input, ibp, n, m, before, from, 8 * o, rows, 8 * i, y);
      ibp, obp := ibp + m, obp + n;
      y := y + 1;
    }
  }

  lemma {:induction false} Fit(source: seq<bit>, y: nat, h: nat, n: nat, m: nat, o: nat, i: nat, rows: seq<bit>, obp: nat,
                               ibp: nat)
    requires y < h && InRow(source, y, n, m, o, i, rows, obp, ibp)
    ensures obp + n <= o + Offset(h, n) && ibp + m <= i + Offset(h, m)
  {
    RowFits(y, h, m);
    RowFits(y, h, n);
  }

  /** The rows before row y, and the bit pointers at its beginning. */
  ghost predicate InRow(source: seq<bit>, y: nat, n: nat, m: nat, o: nat, i: nat, rows: seq<bit>, obp: nat, ibp: nat) {
    n <= m && obp == o + |rows| && ibp == i + Offset(y, m) && |rows| <= Offset(y, m) <= |source| &&
    rows == Unpadded(source, y, n, m)
  }

  lemma {:induction false} RowOf(from: seq<bit>, i: nat, y: nat, n: nat, m: nat)
    requires n <= m && i + Offset(y, m) + m <= |from|
    ensures Offset(y + 1, m) <= |from[i..]| && Offset(y, m) <= |from[i..]|
    ensures Unpadded(from[i..], y + 1, n, m) ==
            Unpadded(from[i..], y, n, m) + from[i + Offset(y, m)..i + Offset(y, m) + n]
  {
    assert from[i..][Offset(y, m)..Offset(y, m) + n] == from[i + Offset(y, m)..i + Offset(y, m) + n];
  }

  method MoveRow(out: array<byte>, obp: nat, input: array<byte>, ibp: nat, n: nat, m: nat, ghost before: seq<bit>,
                 ghost from: seq<bit>, ghost o: nat, ghost rows: seq<bit>, ghost i: nat, ghost y: nat)
      returns (ghost next: seq<bit>)
    requires (out != input || obp <= ibp) && i <= |from| && InRow(from[i..], y, n, m, o, i, rows, obp, ibp)
    requires obp + n <= 8 * out.Length && ibp + m <= 8 * input.Length
    requires Moved(before, BitsOf(out[..]), o, rows) && Ahead(from, BitsOf(input[..]), ibp)
    modifies out
    ensures Moved(before, BitsOf(out[..]), o, next) && Ahead(from, BitsOf(input[..]), ibp + m)
    ensures InRow(from[i..], y + 1, n, m, o, i, next, obp + n, ibp + m)
  {
    ghost var now := BitsOf(out[..]);
    ghost var source := BitsOf(input[..]);
    CopyBits(out, obp, input, ibp, n);
    RowMoved(before, now, from, source, o, obp, ibp, n, m, rows, BitsOf(out[..]), BitsOf(input[..]));
    RowOf(from, i, y, n, m);
    next := rows + from[ibp..ibp + n];
  }

  lemma {:induction false} RowMoved(before: seq<bit>, now: seq<bit>, from: seq<bit>, source: seq<bit>, o: nat, obp: nat,
                                    ibp: nat, n: nat, m: nat, rows: seq<bit>, after: seq<bit>, left: seq<bit>)
    requires n <= m && obp == o + |rows| && obp + n <= |before| && ibp + m <= |from|
    requires Moved(before, now, o, rows) && Ahead(from, source, ibp)
    requires after == Splice(now, obp, source[ibp..ibp + n])
    requires left == source || (left == after && source == now && obp <= ibp)
    ensures Moved(before, after, o, rows + from[ibp..ibp + n]) && Ahead(from, left, ibp + m)
  {
    assert source[ibp..ibp + n] == source[ibp..][..n] == from[ibp..][..n] == from[ibp..ibp + n];
    SpliceAppend(before, o, rows, from[ibp..ibp + n]);
    assert source[ibp + m..] == source[ibp..][m..] == from[ibp..][m..] == from[ibp + m..];
    if left != source { assert after[ibp + m..] == now[ibp + m..]; }
  }

  // ---------------------------------------------------------------- addPaddingBits

  /** addPaddingBits, from byte i of another buffer. */
  method AddPaddingBits(out: array<byte>, input: array<byte>, i: nat, n: nat, m: nat, h: nat)
    requires out != input && n <= m && Offset(h, m) <= 8 * out.Length && 8 * i + Offset(h, n) <= 8 * input.Length
    modifies out
    ensures BitsOf(out[..]) == Splice(old(BitsOf(out[..])), 0, Padded(BitsOf(input[..])[8 * i..], h, n, m))
  {
    ghost var before := BitsOf(out[..]);
    ghost var from := BitsOf(input[..])[8 * i..];
    var y, ibp, obp := 0, 8 * i, 0;
    ghost var rows := [];
    while y != h
      invariant y <= h && obp == Offset(y, m) && ibp == 8 * i + Offset(y, n)
      invariant Offset(y, n) <= Offset(h, n) && rows == Padded(from, y, n, m)
      invariant Moved(before, BitsOf(out[..]), 0, rows)
    {
      RowFits(y, h, m);
      RowFits(y, h, n);
      PadRow(out, obp, input, i, ibp, n, m, y, before, from, rows);
      rows := rows + from[Offset(y, n)..Offset(y + 1, n)] + ZeroBits(m - n);
      ibp, obp := ibp + n, obp + m;
      y := y + 1;
    }
  }

  method PadRow(out: array<byte>, obp: nat, input: array<byte>, i: nat, ibp: nat, n: nat, m: nat, ghost y: nat,
                ghost before: seq<bit>, ghost from: seq<bit>, ghost rows: seq<bit>)
    requires out != input && n <= m && obp == |rows| && ibp == 8 * i + Offset(y, n)
    requires obp + m <= 8 * out.Length && ibp + n <= 8 * input.Length && from == BitsOf(input[..])[8 * i..]
    requires Moved(before, BitsOf(out[..]), 0, rows)
    modifies out
    ensures Moved(before, BitsOf(out[..]), 0, rows + from[Offset(y, n)..Offset(y + 1, n)] + ZeroBits(m - n))
  {
    ghost var row := from[Offset(y, n)..Offset(y + 1, n)];
    assert row == BitsOf(input[..])[ibp..ibp + n];
    CopyBits(out, obp, input, ibp, n);
    SpliceAppend(before, 0, rows, row);
    var x := 0;
    while x != m - n
      invariant x <= m - n && Moved(before, BitsOf(out[..]), 0, rows + row + ZeroBits(x))
    {
      SetZero(out, obp + n + x, before, rows + row, x);
      x := x + 1;
    }
  }

  method SetZero(out: array<byte>, p: nat, ghost before: seq<bit>, ghost rows: seq<bit>, ghost x: nat)
    requires p < 8 * out.Length && p == |rows| + x && |before| == 8 * out.Length
    requires Moved(before, BitsOf(out[..]), 0, rows + ZeroBits(x))
    modifies out
    ensures Moved(before, BitsOf(out[..]), 0, rows + ZeroBits(x + 1))
  {
    SetBit(out, p, 0);
    SpliceNext(before, 0, rows + ZeroBits(x), 0);
    assert rows + ZeroBits(x) + [0] == rows + ZeroBits(x + 1);
  }
}
