/** The scanline filters of PNG (section 6 of RFC 2083), applied by the encoder and undone by the
    decoder, possibly in the buffer that holds the filtered lines. */
module PngFilter {
  import opened Bits

  // ---------------------------------------------------------------- definition

  /** Byte arithmetic wraps at 256. */
  function Minus(a: byte, b: byte): byte { (a - b) % 256 }

  function Mean(a: byte, b: byte): byte { (a + b) / 2 }

  function Abs(x: int): nat { if x < 0 then -x else x }

  /** paethPredictor: of left, above and upper left, the one nearest to left + above - upper left,
      with ties broken in this order. */
  function Paeth(a: byte, b: byte, c: byte): (r: byte)
    ensures var p := a + b - c;
            if Abs(p - a) <= Abs(p - b) && Abs(p - a) <= Abs(p - c) then r == a
            else if Abs(p - b) <= Abs(p - c) then r == b else r == c
  {
    var pa, pb, pc := Abs(b - c), Abs(a - c), Abs(a + b - c - c);
    var (x, px) := if pb < pa then (b, pb) else (a, pa);
    if pc < px then c else x
  }

  /** The prediction of the filter types of section 6.1; there is no type above four. */
  function Predict(kind: byte, left: byte, up: byte, upLeft: byte): byte {
    if kind == 1 then left
    else if kind == 2 then up
    else if kind == 3 then Mean(left, up)
    else if kind == 4 then Paeth(left, up, upLeft)
    else 0
  }

  /** Byte i of a line; bytes left of the line, and those of a missing line, are zero. */
  function Sample(line: seq<byte>, i: int): byte {
    if 0 <= i < |line| then line[i] else 0
  }

  /** What the filter stores for byte i of a line. */
  function Residual(line: seq<byte>, prev: seq<byte>, width: nat, kind: byte, i: nat): byte {
    Minus(Sample(line, i), Predict(kind, Sample(line, i - width), Sample(prev, i), Sample(prev, i - width)))
  }

  /** scan is the line filtered with the given type against the line above it. */
  ghost predicate Filtered(scan: seq<byte>, line: seq<byte>, prev: seq<byte>, width: nat, kind: byte) {
    |scan| == |line| && kind <= 4 && forall i: nat :: i < |scan| ==> scan[i] == Residual(line, prev, width, kind, i)
  }

  /** A filtered line determines the line. */
  lemma {:induction false} FilterInjective(scan: seq<byte>, a: seq<byte>, b: seq<byte>, prev: seq<byte>, width: nat,
                                           kind: byte)
    requires width > 0 && Filtered(scan, a, prev, width, kind) && Filtered(scan, b, prev, width, kind)
    ensures a == b
  {
    var i := 0;
    while i < |a|
      invariant i <= |a| && a[..i] == b[..i]
    {
      assert Sample(a, i - width) == Sample(b, i - width) by {
        if i >= width { assert a[..i][i - width] == b[..i][i - width]; }
      }
      assert Residual(a, prev, width, kind, i) == scan[i] == Residual(b, prev, width, kind, i);
      SameMinuend(a[i], b[i], Predict(kind, Sample(a, i - width), Sample(prev, i), Sample(prev, i - width)));
      assert a[..i + 1] == a[..i] + [a[i]] && b[..i + 1] == b[..i] + [b[i]];
      i := i + 1;
    }
  }

  lemma {:induction false} SameMinuend(x: byte, y: byte, p: byte)
    requires (x - p) % 256 == (y - p) % 256
    ensures x == y
  {
  }

  // ---------------------------------------------------------------- filtering a line

  /** The first i bytes at position o of d are those of the filtered line; the rest of d is as before. */
  ghost predicate Half(before: seq<byte>, d: seq<byte>, o: nat, line: seq<byte>, prev: seq<byte>, width: nat, kind: byte,
                       i: nat) {
    |d| == |before| && i <= |line| && o + |line| <= |d| && d[..o] == before[..o] && d[o + i..] == before[o + i..] &&
    forall k: nat :: k < i ==> d[o..][k] == Residual(line, prev, width, kind, k)
  }

  method Put(out: array<byte>, o: nat, i: nat, x: byte, ghost before: seq<byte>, ghost line: seq<byte>,
             ghost prev: seq<byte>, ghost width: nat, ghost kind: byte)
    requires Half(before, out[..], o, line, prev, width, kind, i) && i < |line|
    requires x == Residual(line, prev, width, kind, i)
    modifies out
    ensures Half(before, out[..], o, line, prev, width, kind, i + 1)
  {
    ghost var d := out[..];
    out[o + i] := x;
    assert out[o + i + 1..] == d[o + i..][1..];
    forall k: nat | k < i + 1 ensures out[..][o..][k] == Residual(line, prev, width, kind, k) {
      if k < i { assert d[o..][k] == out[..][o..][k]; }
    }
  }

  /** filterScanline. An unknown type leaves the output as it was. */
  method FilterScanline(out: array<byte>, o: nat, line: seq<byte>, prev: seq<byte>, width: nat, kind: byte)
    requires 0 < width <= |line| && (prev == [] || |prev| == |line|) && o + |line| <= out.Length
    modifies out
    ensures out[..o] == old(out[..o]) && out[o + |line|..] == old(out[o + |line|..])
    ensures if kind <= 4 then Filtered(out[o..o + |line|], line, prev, width, kind) else out[..] == old(out[..])
  {
    ghost var before := out[..];
    if kind == 0 {
      FilterNone(out, o, line, prev, width);
    } else if kind == 1 {
      FilterSub(out, o, line, prev, width);
    } else if kind == 2 {
      FilterUp(out, o, line, prev, width);
    } else if kind == 3 {
      FilterAverage(out, o, line, prev, width);
    } else if kind == 4 {
      FilterPaeth(out, o, line, prev, width);
    }
    if kind <= 4 { Whole(before, out[..], o, line, prev, width, kind); }
  }

  lemma {:induction false} Whole(before: seq<byte>, d: seq<byte>, o: nat, line: seq<byte>, prev: seq<byte>, width: nat,
                                 kind: byte)
    requires Half(before, d, o, line, prev, width, kind, |line|) && kind <= 4
    ensures Filtered(d[o..o + |line|], line, prev, width, kind)
  {
    forall i: nat | i < |line| ensures d[o..o + |line|][i] == Residual(line, prev, width, kind, i) {
      assert d[o..][i] == d[o..o + |line|][i];
    }
  }

  method FilterNone(out: array<byte>, o: nat, line: seq<byte>, ghost prev: seq<byte>, ghost width: nat)
    requires o + |line| <= out.Length
    modifies out
    ensures Half(old(out[..]), out[..], o, line, prev, width, 0, |line|)
  {
    var i := 0;
    while i != |line|
      invariant i <= |line| && Half(old(out[..]), out[..], o, line, prev, width, 0, i)
    {
      Put(out, o, i, line[i], old(out[..]), line, prev, width, 0);
      i := i + 1;
    }
  }

  method FilterSub(out: array<byte>, o: nat, line: seq<byte>, ghost prev: seq<byte>, width: nat)
    requires 0 < width <= |line| && o + |line| <= out.Length
    modifies out
    ensures Half(old(out[..]), out[..], o, line, prev, width, 1, |line|)
  {
    var i := 0;
    while i != width
      invariant i <= width && Half(old(out[..]), out[..], o, line, prev, width, 1, i)
    {
      Put(out, o, i, line[i], old(out[..]), line, prev, width, 1);
      i := i + 1;
    }
    while i < |line|
      invariant width <= i <= |line| && Half(old(out[..]), out[..], o, line, prev, width, 1, i)
    {
      Put(out, o, i, Minus(line[i], line[i - width]), old(out[..]), line, prev, width, 1);
      i := i + 1;
    }
  }

  method FilterUp(out: array<byte>, o: nat, line: seq<byte>, prev: seq<byte>, ghost width: nat)
    requires (prev == [] || |prev| == |line|) && o + |line| <= out.Length
    modifies out
    ensures Half(old(out[..]), out[..], o, line, prev, width, 2, |line|)
  {
    var i := 0;
    if |prev| > 0 {
      while i != |line|
        invariant i <= |line| && Half(old(out[..]), out[..], o, line, prev, width, 2, i)
      {
        Put(out, o, i, Minus(line[i], prev[i]), old(out[..]), line, prev, width, 2);
        i := i + 1;
      }
    } else {
      while i != |line|
        invariant i <= |line| && Half(old(out[..]), out[..], o, line, prev, width, 2, i)
      {
        Put(out, o, i, line[i], old(out[..]), line, prev, width, 2);
        i := i + 1;
      }
    }
  }

  method FilterAverage(out: array<byte>, o: nat, line: seq<byte>, prev: seq<byte>, width: nat)
    requires 0 < width <= |line| && (prev == [] || |prev| == |line|) && o + |line| <= out.Length
    modifies out
    ensures Half(old(out[..]), out[..], o, line, prev, width, 3, |line|)
  {
    var i := 0;
    if |prev| > 0 {
      while i != width
        invariant i <= width && Half(old(out[..]), out[..], o, line, prev, width, 3, i)
      {
        Put(out, o, i, Minus(line[i], prev[i] / 2), old(out[..]), line, prev, width, 3);
        i := i + 1;
      }
      while i < |line|
        invariant width <= i <= |line| && Half(old(out[..]), out[..], o, line, prev, width, 3, i)
      {
        Put(out, o, i, Minus(line[i], Mean(line[i - width], prev[i])), old(out[..]), line, prev, width, 3);
        i := i + 1;
      }
    } else {
      while i != width
        invariant i <= width && Half(old(out[..]), out[..], o, line, prev, width, 3, i)
      {
        Put(out, o, i, line[i], old(out[..]), line, prev, width, 3);
        i := i + 1;
      }
      while i < |line|
        invariant width <= i <= |line| && Half(old(out[..]), out[..], o, line, prev, width, 3, i)
      {
        Put(out, o, i, Minus(line[i], line[i - width] / 2), old(out[..]), line, prev, width, 3);
        i := i + 1;
      }
    }
  }

  method FilterPaeth(out: array<byte>, o: nat, line: seq<byte>, prev: seq<byte>, width: nat)
    requires 0 < width <= |line| && (prev == [] || |prev| == |line|) && o + |line| <= out.Length
    modifies out
    ensures Half(old(out[..]), out[..], o, line, prev, width, 4, |line|)
  {
    var i := 0;
    if |prev| > 0 {
      while i != width
        invariant i <= width && Half(old(out[..]), out[..], o, line, prev, width, 4, i)
      {
        Put(out, o, i, Minus(line[i], prev[i]), old(out[..]), line, prev, width, 4);
        i := i + 1;
      }
      while i < |line|
        invariant width <= i <= |line| && Half(old(out[..]), out[..], o, line, prev, width, 4, i)
      {
        Put(out, o, i, Minus(line[i], Paeth(line[i - width], prev[i], prev[i - width])), old(out[..]), line, prev, width,
            4);
        i := i + 1;
      }
    } else {
      while i != width
        invariant i <= width && Half(old(out[..]), out[..], o, line, prev, width, 4, i)
      {
        Put(out, o, i, line[i], old(out[..]), line, prev, width, 4);
        i := i + 1;
      }
      while i < |line|
        invariant width <= i <= |line| && Half(old(out[..]), out[..], o, line, prev, width, 4, i)
      {
        Put(out, o, i, Minus(line[i], line[i - width]), old(out[..]), line, prev, width, 4);
        i := i + 1;
      }
    }
  }
}
