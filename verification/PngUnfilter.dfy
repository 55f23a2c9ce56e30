/** Undoing the scanline filters in place: the reconstructed line may start at or before the
    filtered line in the same buffer, and the line above lies before both. */
module PngUnfilter {
  import opened Bits
  import opened PngFilter

  /** The pointers of one call: where the reconstructed line, the filtered line and the line above
      start, the bytes per pixel, and the bytes per line. */
  datatype Line = Line(r: nat, s: nat, above: Option<nat>, width: nat, length: nat)

  /** One call: its pointers, the buffer of the result and the filtered line before anything was
      written, and the size of the buffer of the filtered line. */
  datatype Call = Call(line: Line, before: seq<byte>, scan: seq<byte>, room: nat)

  predicate Fits(g: Call) {
    0 < g.line.width <= g.line.length == |g.scan| && g.line.r + g.line.length <= |g.before| &&
    g.line.s + g.line.length <= g.room && (g.line.above.Some? ==> g.line.above.value + g.line.length <= g.line.r)
  }

  type Start = g: Call | Fits(g) witness Call(Line(0, 0, None, 1, 1), [0], [0], 1)

  ghost function Prev(g: Start): seq<byte> {
    match g.line.above case None => [] case Some(p) => g.before[p..p + g.line.length]
  }

  function Plus(a: byte, b: byte): byte { (a + b) % 256 }

  /** The prediction for byte i of a line of which the bytes before it are known. */
  ghost function Guess(line: seq<byte>, g: Start, kind: byte, i: nat): byte {
    Predict(kind, Sample(line, i - g.line.width), Sample(Prev(g), i), Sample(Prev(g), i - g.line.width))
  }

  ghost function Cut(d: seq<byte>, a: nat, b: nat): seq<byte> {
    if a <= b <= |d| then d[a..b] else []
  }

  /** What is reconstructed so far. */
  ghost function Known(g: Start, d: seq<byte>, i: nat): seq<byte> { Cut(d, g.line.r, g.line.r + i) }

  /** i bytes are reconstructed, and the rest of the filtered line is still there. */
  ghost predicate Midway(g: Start, kind: byte, d: seq<byte>, c: seq<byte>, i: nat) {
    Frame(g, d, i) && Cut(c, g.line.s + i, g.line.s + g.line.length) == Cut(g.scan, i, g.line.length) &&
    Solved(g, Known(g, d, i), kind)
  }

  /** Midway, for use in longer conditions. */
  ghost predicate MidwayAt(g: Start, kind: byte, d: seq<byte>, c: seq<byte>, i: nat) {
    forall k: nat {:trigger Midway(g, kind, d, c, k)} :: k == i ==> Midway(g, kind, d, c, k)
  }

  ghost predicate Frame(g: Start, d: seq<byte>, i: nat) {
    |d| == |g.before| && Cut(d, 0, g.line.r) == Cut(g.before, 0, g.line.r) &&
    Cut(d, g.line.r + i, |d|) == Cut(g.before, g.line.r + i, |d|)
  }

  /** line is the beginning of a line of which the scanline is the filtered form. */
  ghost predicate Solved(g: Start, line: seq<byte>, kind: byte) {
    forall k: nat :: k < |line| && k < g.line.length ==> g.scan[k] == Residual(line, Prev(g), g.line.width, kind, k)
  }

  lemma {:induction false} SolvedNext(g: Start, line: seq<byte>, x: byte, kind: byte)
    requires Solved(g, line, kind) && |line| < g.line.length
    requires x == Plus(g.scan[|line|], Guess(line, g, kind, |line|))
    ensures Solved(g, line + [x], kind)
  {
    var next := line + [x];
    forall k: nat | k < |next| ensures g.scan[k] == Residual(next, Prev(g), g.line.width, kind, k) {
      SolvedAt(g, line, x, kind, k);
    }
  }

  lemma {:induction false} SolvedAt(g: Start, line: seq<byte>, x: byte, kind: byte, k: nat)
    requires Solved(g, line, kind) && k <= |line| < g.line.length
    requires x == Plus(g.scan[|line|], Guess(line, g, kind, |line|))
    ensures g.scan[k] == Residual(line + [x], Prev(g), g.line.width, kind, k)
  {
    var next := line + [x];
    assert Sample(next, k - g.line.width) == Sample(line, k - g.line.width);
    if k < |line| {
      assert g.scan[k] == Residual(line, Prev(g), g.line.width, kind, k);
    }
  }

  /** recon[i] = scanline[i] + the prediction. */
  method Put(recon: array<byte>, scan: array<byte>, l: Line, i: nat, x: byte, ghost g: Start, ghost kind: byte)
    requires (recon != scan || l.r <= l.s) && l == g.line && g.room == scan.Length
    requires i < l.length && Midway(g, kind, recon[..], scan[..], i)
    requires x == Plus(g.scan[i], Guess(Known(g, recon[..], i), g, kind, i))
    modifies recon
    ensures Midway(g, kind, recon[..], scan[..], i + 1)
    ensures Known(g, recon[..], i + 1) == old(Known(g, recon[..], i)) + [x]
  {
    ghost var d := recon[..];
    ghost var c := scan[..];
    SolvedNext(g, Known(g, d, i), x, kind);
    recon[l.r + i] := x;
    assert Known(g, recon[..], i + 1) == Known(g, d, i) + [x];
    FrameNext(g, d, recon[..], i);
    StillPending(g, c, scan[..], i);
  }

  lemma {:induction false} FrameNext(g: Start, d: seq<byte>, e: seq<byte>, i: nat)
    requires Frame(g, d, i) && i < g.line.length && |e| == |d| && e == d[g.line.r + i := e[g.line.r + i]]
    ensures Frame(g, e, i + 1)
  {
    var j := g.line.r + i;
    assert Cut(e, j + 1, |d|) == Cut(d, j, |d|)[1..];
    assert Cut(g.before, j + 1, |d|) == Cut(g.before, j, |d|)[1..];
  }

  lemma {:induction false} StillPending(g: Start, c: seq<byte>, after: seq<byte>, i: nat)
    requires i < g.line.length && |after| == |c| == g.room
    requires Cut(c, g.line.s + i, g.line.s + g.line.length) == Cut(g.scan, i, g.line.length)
    requires forall k: nat :: g.line.s + i < k < |c| ==> after[k] == c[k]
    ensures Cut(after, g.line.s + i + 1, g.line.s + g.line.length) == Cut(g.scan, i + 1, g.line.length)
  {
    var s, n := g.line.s, g.line.length;
    assert Cut(after, s + i + 1, s + n) == Cut(c, s + i, s + n)[1..];
    assert Cut(g.scan, i + 1, n) == Cut(g.scan, i, n)[1..];
  }

  // ---------------------------------------------------------------- what the loops read

  lemma {:induction false} ScanAt(g: Start, kind: byte, d: seq<byte>, c: seq<byte>, i: nat, k: nat)
    requires Midway(g, kind, d, c, i) && |c| == g.room && i <= k < g.line.length
    ensures c[g.line.s + k] == g.scan[k]
  {
    var s, n := g.line.s, g.line.length;
    assert c[s + k] == Cut(c, s + i, s + n)[k - i];
    assert g.scan[k] == Cut(g.scan, i, n)[k - i];
  }

  lemma {:induction false} AboveAt(g: Start, d: seq<byte>, i: nat, p: nat, k: nat)
    requires Frame(g, d, i) && g.line.above == Some(p) && k < g.line.length
    ensures Sample(Prev(g), k) == d[p + k]
  {
    assert d[p + k] == Cut(d, 0, g.line.r)[p + k];
    assert g.before[p + k] == Cut(g.before, 0, g.line.r)[p + k];
    assert Prev(g)[k] == g.before[p + k];
  }

  /** The prediction for byte k in terms of the buffer, when the byte one pixel before it is there. */
  lemma {:induction false} GuessIs(g: Start, kind: byte, d: seq<byte>, c: seq<byte>, i: nat, k: nat)
    requires Midway(g, kind, d, c, i) && i <= k < g.line.length && k - g.line.width < i
    ensures var j := k - g.line.width;
            Guess(Known(g, d, i), g, kind, k) ==
            Predict(kind, if j < 0 then 0 else d[g.line.r + j],
                    if g.line.above.None? then 0 else d[g.line.above.value + k],
                    if g.line.above.None? || j < 0 then 0 else d[g.line.above.value + j])
  {
    var j := k - g.line.width;
    if j >= 0 { assert Known(g, d, i)[j] == d[g.line.r + j]; }
    if g.line.above.Some? {
      AboveAt(g, d, i, g.line.above.value, k);
      if j >= 0 { AboveAt(g, d, i, g.line.above.value, j); }
    }
  }

  // ---------------------------------------------------------------- one byte

  lemma {:induction false} CopyGuess(g: Start, kind: byte, d: seq<byte>, c: seq<byte>, i: nat)
    requires Midway(g, kind, d, c, i) && |c| == g.room && i < g.line.length
    requires kind == 0 || ((i < g.line.width || kind == 2) && (kind == 1 || g.line.above.None?))
    ensures c[g.line.s + i] == Plus(g.scan[i], Guess(Known(g, d, i), g, kind, i))
  {
    ScanAt(g, kind, d, c, i, i);
    GuessIs(g, kind, d, c, i, i);
  }

  lemma {:induction false} LeftGuess(g: Start, kind: byte, d: seq<byte>, c: seq<byte>, i: nat)
    requires Midway(g, kind, d, c, i) && |c| == g.room && i < g.line.length
    requires g.line.width <= i && (kind == 1 || (kind == 4 && g.line.above.None?))
    ensures Plus(c[g.line.s + i], d[g.line.r + i - g.line.width]) == Plus(g.scan[i], Guess(Known(g, d, i), g, kind, i))
  {
    ScanAt(g, kind, d, c, i, i);
    GuessIs(g, kind, d, c, i, i);
  }

  lemma {:induction false} UpGuess(g: Start, kind: byte, d: seq<byte>, c: seq<byte>, i: nat, p: nat)
    requires Midway(g, kind, d, c, i) && |c| == g.room && i < g.line.length
    requires g.line.above == Some(p) && (kind == 2 || (kind == 4 && i < g.line.width))
    ensures Plus(c[g.line.s + i], d[p + i]) == Plus(g.scan[i], Guess(Known(g, d, i), g, kind, i))
  {
    ScanAt(g, kind, d, c, i, i);
    GuessIs(g, kind, d, c, i, i);
  }

  lemma {:induction false} HalfUpGuess(g: Start, d: seq<byte>, c: seq<byte>, i: nat, p: nat)
    requires Midway(g, 3, d, c, i) && |c| == g.room && i < g.line.length
    requires g.line.above == Some(p) && i < g.line.width
    ensures Plus(c[g.line.s + i], d[p + i] / 2) == Plus(g.scan[i], Guess(Known(g, d, i), g, 3, i))
  {
    ScanAt(g, 3, d, c, i, i);
    GuessIs(g, 3, d, c, i, i);
  }

  lemma {:induction false} HalfLeftGuess(g: Start, d: seq<byte>, c: seq<byte>, i: nat)
    requires Midway(g, 3, d, c, i) && |c| == g.room && i < g.line.length
    requires g.line.above.None? && g.line.width <= i
    ensures Plus(c[g.line.s + i], d[g.line.r + i - g.line.width] / 2) == Plus(g.scan[i], Guess(Known(g, d, i), g, 3, i))
  {
    ScanAt(g, 3, d, c, i, i);
    GuessIs(g, 3, d, c, i, i);
  }

  lemma {:induction false} MeanGuess(g: Start, d: seq<byte>, c: seq<byte>, i: nat, p: nat)
    requires Midway(g, 3, d, c, i) && |c| == g.room && i < g.line.length
    requires g.line.above == Some(p) && g.line.width <= i
    ensures Plus(c[g.line.s + i], Mean(d[g.line.r + i - g.line.width], d[p + i])) == Plus(g.scan[i], Guess(Known(g, d, i), g, 3, i))
  {
    ScanAt(g, 3, d, c, i, i);
    GuessIs(g, 3, d, c, i, i);
  }

  /** No prediction: type 0, or nothing to the left and no line above. */
  method CopyByte(recon: array<byte>, scan: array<byte>, l: Line, i: nat, ghost g: Start, ghost kind: byte)
    requires (recon != scan || l.r <= l.s) && l == g.line && g.room == scan.Length
    requires i < l.length && Midway(g, kind, recon[..], scan[..], i)
    requires kind == 0 || ((i < l.width || kind == 2) && (kind == 1 || l.above.None?))
    modifies recon
    ensures Midway(g, kind, recon[..], scan[..], i + 1)
  {
    CopyGuess(g, kind, recon[..], scan[..], i);
    Put(recon, scan, l, i, scan[l.s + i], g, kind);
  }

  /** The byte to the left. */
  method LeftByte(recon: array<byte>, scan: array<byte>, l: Line, i: nat, ghost g: Start, ghost kind: byte)
    requires (recon != scan || l.r <= l.s) && l == g.line && g.room == scan.Length
    requires i < l.length && Midway(g, kind, recon[..], scan[..], i)
    requires l.width <= i && (kind == 1 || (kind == 4 && l.above.None?))
    modifies recon
    ensures Midway(g, kind, recon[..], scan[..], i + 1)
  {
    LeftGuess(g, kind, recon[..], scan[..], i);
    Put(recon, scan, l, i, Plus(scan[l.s + i], recon[l.r + i - l.width]), g, kind);
  }

  /** The byte above, for type 2, and for the Paeth type in the first pixel. */
  method UpByte(recon: array<byte>, scan: array<byte>, l: Line, p: nat, i: nat, ghost g: Start, ghost kind: byte)
    requires (recon != scan || l.r <= l.s) && l == g.line && g.room == scan.Length
    requires i < l.length && Midway(g, kind, recon[..], scan[..], i)
    requires l.above == Some(p) && (kind == 2 || (kind == 4 && i < l.width))
    modifies recon
    ensures Midway(g, kind, recon[..], scan[..], i + 1)
  {
    UpGuess(g, kind, recon[..], scan[..], i, p);
    Put(recon, scan, l, i, Plus(scan[l.s + i], recon[p + i]), g, kind);
  }

  /** Half the byte above. */
  method HalfUpByte(recon: array<byte>, scan: array<byte>, l: Line, p: nat, i: nat, ghost g: Start)
    requires (recon != scan || l.r <= l.s) && l == g.line && g.room == scan.Length
    requires i < l.length && Midway(g, 3, recon[..], scan[..], i)
    requires l.above == Some(p) && i < l.width
    modifies recon
    ensures Midway(g, 3, recon[..], scan[..], i + 1)
  {
    HalfUpGuess(g, recon[..], scan[..], i, p);
    Put(recon, scan, l, i, Plus(scan[l.s + i], recon[p + i] / 2), g, 3);
  }

  /** Half the byte to the left. */
  method HalfLeftByte(recon: array<byte>, scan: array<byte>, l: Line, i: nat, ghost g: Start)
    requires (recon != scan || l.r <= l.s) && l == g.line && g.room == scan.Length
    requires i < l.length && Midway(g, 3, recon[..], scan[..], i)
    requires l.above.None? && l.width <= i
    modifies recon
    ensures Midway(g, 3, recon[..], scan[..], i + 1)
  {
    HalfLeftGuess(g, recon[..], scan[..], i);
    Put(recon, scan, l, i, Plus(scan[l.s + i], recon[l.r + i - l.width] / 2), g, 3);
  }

  /** The mean of the bytes to the left and above. */
  method MeanByte(recon: array<byte>, scan: array<byte>, l: Line, p: nat, i: nat, ghost g: Start)
    requires (recon != scan || l.r <= l.s) && l == g.line && g.room == scan.Length
    requires i < l.length && Midway(g, 3, recon[..], scan[..], i)
    requires l.above == Some(p) && l.width <= i
    modifies recon
    ensures Midway(g, 3, recon[..], scan[..], i + 1)
  {
    MeanGuess(g, recon[..], scan[..], i, p);
    Put(recon, scan, l, i, Plus(scan[l.s + i], Mean(recon[l.r + i - l.width], recon[p + i])), g, 3);
  }

  // ---------------------------------------------------------------- the five types

  method UnfilterNone(recon: array<byte>, scan: array<byte>, l: Line, ghost g: Start)
    requires (recon != scan || l.r <= l.s) && l == g.line && g.room == scan.Length
    requires MidwayAt(g, 0, recon[..], scan[..], 0)
    modifies recon
    ensures MidwayAt(g, 0, recon[..], scan[..], l.length)
  {
    var i := 0;
    while i != l.length
      invariant i <= l.length && MidwayAt(g, 0, recon[..], scan[..], i)
    {
      CopyByte(recon, scan, l, i, g, 0);
      i := i + 1;
    }
  }

  /** The first pixel where the prediction is zero there. */
  method CopyPixel(recon: array<byte>, scan: array<byte>, l: Line, ghost g: Start, ghost kind: byte) returns (i: nat)
    requires (recon != scan || l.r <= l.s) && l == g.line && g.room == scan.Length
    requires (kind == 1 || l.above.None?) && MidwayAt(g, kind, recon[..], scan[..], 0)
    modifies recon
    ensures i == l.width && MidwayAt(g, kind, recon[..], scan[..], i)
  {
    i := 0;
    while i != l.width
      invariant i <= l.width && MidwayAt(g, kind, recon[..], scan[..], i)
    {
      CopyByte(recon, scan, l, i, g, kind);
      i := i + 1;
    }
  }

  /** The rest of the line where the prediction is the byte to the left. */
  method AddLeft(recon: array<byte>, scan: array<byte>, l: Line, ghost g: Start, ghost kind: byte)
    requires (recon != scan || l.r <= l.s) && l == g.line && g.room == scan.Length
    requires (kind == 1 || (kind == 4 && l.above.None?)) && MidwayAt(g, kind, recon[..], scan[..], l.width)
    modifies recon
    ensures MidwayAt(g, kind, recon[..], scan[..], l.length)
  {
    var i := l.width;
    while i < l.length
      invariant l.width <= i <= l.length && MidwayAt(g, kind, recon[..], scan[..], i)
    {
      LeftByte(recon, scan, l, i, g, kind);
      i := i + 1;
    }
  }

  method UnfilterUp(recon: array<byte>, scan: array<byte>, l: Line, ghost g: Start)
    requires (recon != scan || l.r <= l.s) && l == g.line && g.room == scan.Length
    requires MidwayAt(g, 2, recon[..], scan[..], 0)
    modifies recon
    ensures MidwayAt(g, 2, recon[..], scan[..], l.length)
  {
    var i := 0;
    if l.above.Some? {
      while i != l.length
        invariant i <= l.length && MidwayAt(g, 2, recon[..], scan[..], i)
      {
        UpByte(recon, scan, l, l.above.value, i, g, 2);
        i := i + 1;
      }
    } else {
      while i != l.length
        invariant i <= l.length && MidwayAt(g, 2, recon[..], scan[..], i)
      {
        CopyByte(recon, scan, l, i, g, 2);
        i := i + 1;
      }
    }
  }

  /** The first pixel with a line above. */
  method AveragePixel(recon: array<byte>, scan: array<byte>, l: Line, p: nat, ghost g: Start) returns (i: nat)
    requires (recon != scan || l.r <= l.s) && l == g.line && g.room == scan.Length
    requires l.above == Some(p) && MidwayAt(g, 3, recon[..], scan[..], 0)
    modifies recon
    ensures i == l.width && MidwayAt(g, 3, recon[..], scan[..], i)
  {
    i := 0;
    while i != l.width
      invariant i <= l.width && MidwayAt(g, 3, recon[..], scan[..], i)
    {
      HalfUpByte(recon, scan, l, p, i, g);
      i := i + 1;
    }
  }

  /** Averages with a line above. */
  method AverageBelow(recon: array<byte>, scan: array<byte>, l: Line, p: nat, ghost g: Start)
    requires (recon != scan || l.r <= l.s) && l == g.line && g.room == scan.Length
    requires l.above == Some(p) && Midway(g, 3, recon[..], scan[..], 0)
    modifies recon
    ensures Midway(g, 3, recon[..], scan[..], l.length)
  {
    var i := AveragePixel(recon, scan, l, p, g);
    MeanRest(recon, scan, l, p, i, g);
  }

  method MeanRest(recon: array<byte>, scan: array<byte>, l: Line, p: nat, start: nat, ghost g: Start)
    requires (recon != scan || l.r <= l.s) && l == g.line && g.room == scan.Length
    requires l.above == Some(p) && start == l.width && MidwayAt(g, 3, recon[..], scan[..], start)
    modifies recon
    ensures MidwayAt(g, 3, recon[..], scan[..], l.length)
  {
    var i := start;
    while i < l.length
      invariant l.width <= i <= l.length && MidwayAt(g, 3, recon[..], scan[..], i)
    {
      MeanByte(recon, scan, l, p, i, g);
      i := i + 1;
    }
  }

  /** Averages without a line above. */
  method AverageFirst(recon: array<byte>, scan: array<byte>, l: Line, ghost g: Start)
    requires (recon != scan || l.r <= l.s) && l == g.line && g.room == scan.Length
    requires l.above.None? && MidwayAt(g, 3, recon[..], scan[..], 0)
    modifies recon
    ensures MidwayAt(g, 3, recon[..], scan[..], l.length)
  {
    var i := CopyPixel(recon, scan, l, g, 3);
    while i < l.length
      invariant l.width <= i <= l.length && MidwayAt(g, 3, recon[..], scan[..], i)
    {
      HalfLeftByte(recon, scan, l, i, g);
      i := i + 1;
    }
  }

  // ---------------------------------------------------------------- Paeth

  lemma {:induction false} PaethGuess(g: Start, d: seq<byte>, c: seq<byte>, i: nat, k: nat, p: nat)
    requires Midway(g, 4, d, c, i) && |c| == g.room && g.line.above == Some(p)
    requires g.line.width <= k < g.line.length && i <= k < i + g.line.width
    ensures c[g.line.s + k] == g.scan[k]
    ensures Paeth(d[g.line.r + k - g.line.width], d[p + k], d[p + k - g.line.width]) == Guess(Known(g, d, i), g, 4, k)
  {
    ScanAt(g, 4, d, c, i, k);
    GuessIs(g, 4, d, c, i, k);
  }

  /** One of the independent paths of the unrolled loops: byte k, while only i bytes are there. */
  method PaethAt(recon: array<byte>, scan: array<byte>, l: Line, p: nat, ghost i: nat, k: nat, ghost g: Start,
                 ghost line: seq<byte>) returns (x: byte)
    requires l == g.line && g.room == scan.Length && l.above == Some(p) && Midway(g, 4, recon[..], scan[..], i)
    requires l.width <= k < l.length && i <= k < i + l.width && line == Known(g, recon[..], i)
    ensures x == Plus(g.scan[k], Guess(line, g, 4, k))
  {
    PaethGuess(g, recon[..], scan[..], i, k, p);
    var j := k - l.width;
    x := Plus(scan[l.s + k], Paeth(recon[l.r + j], recon[p + k], recon[p + j]));
  }

  method PaethByte(recon: array<byte>, scan: array<byte>, l: Line, p: nat, i: nat, ghost g: Start)
    requires (recon != scan || l.r <= l.s) && l == g.line && g.room == scan.Length
    requires l.above == Some(p) && l.width <= i < l.length && Midway(g, 4, recon[..], scan[..], i)
    modifies recon
    ensures Midway(g, 4, recon[..], scan[..], i + 1)
  {
    var x := PaethAt(recon, scan, l, p, i, i, g, Known(g, recon[..], i));
    Put(recon, scan, l, i, x, g, 4);
  }

  /** The n bytes from i on. */
  method PaethStep(recon: array<byte>, scan: array<byte>, l: Line, p: nat, i: nat, n: nat, ghost g: Start) returns (end: nat)
    requires (recon != scan || l.r <= l.s) && l == g.line && g.room == scan.Length && l.above == Some(p)
    requires n <= l.width <= i && i + n <= l.length && MidwayAt(g, 4, recon[..], scan[..], i)
    modifies recon
    ensures end == i + n && MidwayAt(g, 4, recon[..], scan[..], end)
  {
    end := i + n;
    PaethRound(recon, scan, l, p, i, end, g);
  }

  /** The loop that takes four bytes at a time. */
  method PaethByFours(recon: array<byte>, scan: array<byte>, l: Line, p: nat, start: nat, ghost g: Start) returns (i: nat)
    requires (recon != scan || l.r <= l.s) && l == g.line && g.room == scan.Length
    requires l.above == Some(p) && 4 <= l.width <= start <= l.length && MidwayAt(g, 4, recon[..], scan[..], start)
    modifies recon
    ensures l.width <= i <= l.length && MidwayAt(g, 4, recon[..], scan[..], i)
  {
    i := start;
    while i + 3 < l.length
      invariant l.width <= i <= l.length && MidwayAt(g, 4, recon[..], scan[..], i)
    {
      i := PaethStep(recon, scan, l, p, i, 4, g);
    }
  }

  /** xs are the bytes from i on, as predicted from the bytes of early alone. */
  ghost predicate Foreseen(g: Start, early: seq<byte>, i: nat, xs: seq<byte>) {
    forall k: nat :: k < |xs| && i + k < g.line.length ==> xs[k] == Plus(g.scan[i + k], Guess(early, g, 4, i + k))
  }

  /** One round of an unrolled loop: the n bytes from i on do not depend on each other, so all
      values are read before the first one is stored. */
  method PaethRound(recon: array<byte>, scan: array<byte>, l: Line, p: nat, i: nat, end: nat, ghost g: Start)
    requires (recon != scan || l.r <= l.s) && l == g.line && g.room == scan.Length
    requires l.above == Some(p) && l.width <= i <= end <= i + l.width && end <= l.length
    requires Midway(g, 4, recon[..], scan[..], i)
    modifies recon
    ensures Midway(g, 4, recon[..], scan[..], end)
  {
    ghost var line := Known(g, recon[..], i);
    KnownLength(g, recon[..], i);
    var xs := ReadRound(recon, scan, l, p, i, end, g, line);
    StoreRound(recon, scan, l, i, end, xs, g, line);
  }

  lemma {:induction false} KnownLength(g: Start, d: seq<byte>, i: nat)
    requires |d| == |g.before| && i <= g.line.length
    ensures |Known(g, d, i)| == i
  {
  }

  method ReadRound(recon: array<byte>, scan: array<byte>, l: Line, p: nat, i: nat, end: nat, ghost g: Start,
                   ghost line: seq<byte>) returns (xs: seq<byte>)
    requires l == g.line && g.room == scan.Length && l.above == Some(p)
    requires l.width <= i <= end <= i + l.width && end <= l.length
    requires MidwayAt(g, 4, recon[..], scan[..], i) && line == Known(g, recon[..], i)
    ensures |xs| == end - i && Foreseen(g, line, i, xs)
  {
    xs := [];
    var k := i;
    while k < end
      invariant i <= k <= end && |xs| == k - i && Foreseen(g, line, i, xs)
    {
      var x := PaethAt(recon, scan, l, p, i, k, g, line);
      ForeseenSnoc(g, line, i, xs, x);
      xs := xs + [x];
      k := k + 1;
    }
  }

  lemma {:induction false} ForeseenSnoc(g: Start, line: seq<byte>, i: nat, xs: seq<byte>, x: byte)
    requires Foreseen(g, line, i, xs) && i + |xs| < g.line.length
    requires x == Plus(g.scan[i + |xs|], Guess(line, g, 4, i + |xs|))
    ensures Foreseen(g, line, i, xs + [x])
  {
  }

  /** A guess that looks only at what was known earlier. */
  lemma {:induction false} ForeseenNext(g: Start, line: seq<byte>, x: byte, i: nat, xs: seq<byte>)
    requires Foreseen(g, line, i, xs) && xs != [] && g.line.width <= i && i + |xs| <= |line| + g.line.width
    ensures Foreseen(g, line + [x], i + 1, xs[1..])
  {
    var next := line + [x];
    forall k: nat | k < |xs[1..]| && i + 1 + k < g.line.length
      ensures xs[1..][k] == Plus(g.scan[i + 1 + k], Guess(next, g, 4, i + 1 + k))
    {
      var j := i + (k + 1);
      assert xs[k + 1] == Plus(g.scan[j], Guess(line, g, 4, j));
      assert Sample(next, j - g.line.width) == Sample(line, j - g.line.width);
    }
  }

  method StoreFirst(recon: array<byte>, scan: array<byte>, l: Line, i: nat, xs: seq<byte>, ghost g: Start,
                    ghost line: seq<byte>) returns (ghost next: seq<byte>)
    requires (recon != scan || l.r <= l.s) && l == g.line && g.room == scan.Length
    requires xs != [] && l.width <= i < l.length && i + |xs| <= |line| + l.width && line == Known(g, recon[..], i)
    requires Midway(g, 4, recon[..], scan[..], i) && Foreseen(g, line, i, xs)
    modifies recon
    ensures Midway(g, 4, recon[..], scan[..], i + 1) && next == Known(g, recon[..], i + 1)
    ensures Foreseen(g, next, i + 1, xs[1..]) && |next| == |line| + 1
  {
    ForeseenNext(g, line, xs[0], i, xs);
    assert xs[0] == Plus(g.scan[i + 0], Guess(line, g, 4, i + 0));
    next := line + [xs[0]];
    Put(recon, scan, l, i, xs[0], g, 4);
  }

  method StoreRound(recon: array<byte>, scan: array<byte>, l: Line, i: nat, end: nat, xs: seq<byte>, ghost g: Start,
                    ghost line: seq<byte>)
    requires (recon != scan || l.r <= l.s) && l == g.line && g.room == scan.Length
    requires end == i + |xs| && end <= |line| + l.width && l.width <= i && end <= l.length
    requires Midway(g, 4, recon[..], scan[..], i) && line == Known(g, recon[..], i) && Foreseen(g, line, i, xs)
    modifies recon
    ensures Midway(g, 4, recon[..], scan[..], end)
    decreases |xs|
  {
    if xs != [] {
      ghost var next := StoreFirst(recon, scan, l, i, xs, g, line);
      StoreRound(recon, scan, l, i + 1, end, xs[1..], g, next);
    }
  }

  method PaethByThrees(recon: array<byte>, scan: array<byte>, l: Line, p: nat, start: nat, ghost g: Start) returns (i: nat)
    requires (recon != scan || l.r <= l.s) && l == g.line && g.room == scan.Length
    requires l.above == Some(p) && 3 <= l.width <= start <= l.length && MidwayAt(g, 4, recon[..], scan[..], start)
    modifies recon
    ensures l.width <= i <= l.length && MidwayAt(g, 4, recon[..], scan[..], i)
  {
    i := start;
    while i + 2 < l.length
      invariant l.width <= i <= l.length && MidwayAt(g, 4, recon[..], scan[..], i)
    {
      i := PaethStep(recon, scan, l, p, i, 3, g);
    }
  }

  method PaethByTwos(recon: array<byte>, scan: array<byte>, l: Line, p: nat, start: nat, ghost g: Start) returns (i: nat)
    requires (recon != scan || l.r <= l.s) && l == g.line && g.room == scan.Length
    requires l.above == Some(p) && 2 <= l.width <= start <= l.length && MidwayAt(g, 4, recon[..], scan[..], start)
    modifies recon
    ensures l.width <= i <= l.length && MidwayAt(g, 4, recon[..], scan[..], i)
  {
    i := start;
    while i + 1 < l.length
      invariant l.width <= i <= l.length && MidwayAt(g, 4, recon[..], scan[..], i)
    {
      i := PaethStep(recon, scan, l, p, i, 2, g);
    }
  }

  /** Left and upper left are zero in the first pixel, where the predictor is the byte above. */
  method PaethPixel(recon: array<byte>, scan: array<byte>, l: Line, p: nat, ghost g: Start) returns (i: nat)
    requires (recon != scan || l.r <= l.s) && l == g.line && g.room == scan.Length
    requires l.above == Some(p) && MidwayAt(g, 4, recon[..], scan[..], 0)
    modifies recon
    ensures i == l.width && MidwayAt(g, 4, recon[..], scan[..], i)
  {
    i := 0;
    while i != l.width
      invariant i <= l.width && MidwayAt(g, 4, recon[..], scan[..], i)
    {
      UpByte(recon, scan, l, p, i, g, 4);
      i := i + 1;
    }
  }

  /** The unrolled loops, by bytes per pixel. */
  method PaethUnrolled(recon: array<byte>, scan: array<byte>, l: Line, p: nat, start: nat, ghost g: Start) returns (i: nat)
    requires (recon != scan || l.r <= l.s) && l == g.line && g.room == scan.Length
    requires l.above == Some(p) && start == l.width && Midway(g, 4, recon[..], scan[..], start)
    modifies recon
    ensures l.width <= i <= l.length && Midway(g, 4, recon[..], scan[..], i)
  {
    i := start;
    if l.width >= 4 {
      i := PaethByFours(recon, scan, l, p, i, g);
    } else if l.width >= 3 {
      i := PaethByThrees(recon, scan, l, p, i, g);
    } else if l.width >= 2 {
      i := PaethByTwos(recon, scan, l, p, i, g);
    }
  }

  method PaethBelow(recon: array<byte>, scan: array<byte>, l: Line, p: nat, ghost g: Start)
    requires (recon != scan || l.r <= l.s) && l == g.line && g.room == scan.Length
    requires l.above == Some(p) && Midway(g, 4, recon[..], scan[..], 0)
    modifies recon
    ensures Midway(g, 4, recon[..], scan[..], l.length)
  {
    var i := PaethPixel(recon, scan, l, p, g);
    i := PaethUnrolled(recon, scan, l, p, i, g);
    PaethRest(recon, scan, l, p, i, g);
  }

  /** What the unrolled loops leave over. */
  method PaethRest(recon: array<byte>, scan: array<byte>, l: Line, p: nat, start: nat, ghost g: Start)
    requires (recon != scan || l.r <= l.s) && l == g.line && g.room == scan.Length
    requires l.above == Some(p) && l.width <= start <= l.length && MidwayAt(g, 4, recon[..], scan[..], start)
    modifies recon
    ensures MidwayAt(g, 4, recon[..], scan[..], l.length)
  {
    var i := start;
    while i != l.length
      invariant l.width <= i <= l.length && MidwayAt(g, 4, recon[..], scan[..], i)
    {
      PaethByte(recon, scan, l, p, i, g);
      i := i + 1;
    }
  }

  // ---------------------------------------------------------------- unfilterScanline

  method UnfilterKind(recon: array<byte>, scan: array<byte>, l: Line, kind: byte, ghost g: Start)
    requires (recon != scan || l.r <= l.s) && l == g.line && g.room == scan.Length
    requires kind <= 4 && Midway(g, kind, recon[..], scan[..], 0)
    modifies recon
    ensures Midway(g, kind, recon[..], scan[..], l.length)
  {
    if kind == 0 {
      UnfilterNone(recon, scan, l, g);
    } else if kind == 1 {
      var _ := CopyPixel(recon, scan, l, g, 1);
      AddLeft(recon, scan, l, g, 1);
    } else if kind == 2 {
      UnfilterUp(recon, scan, l, g);
    } else if kind == 3 {
      match l.above {
        case Some(p) => AverageBelow(recon, scan, l, p, g);
        case None => AverageFirst(recon, scan, l, g);
      }
    } else {
      match l.above {
        case Some(p) => PaethBelow(recon, scan, l, p, g);
        case None => PaethFirst(recon, scan, l, g);
      }
    }
  }

  method PaethFirst(recon: array<byte>, scan: array<byte>, l: Line, ghost g: Start)
    requires (recon != scan || l.r <= l.s) && l == g.line && g.room == scan.Length
    requires l.above.None? && Midway(g, 4, recon[..], scan[..], 0)
    modifies recon
    ensures Midway(g, 4, recon[..], scan[..], l.length)
  {
    var _ := CopyPixel(recon, scan, l, g, 4);
    AddLeft(recon, scan, l, g, 4);
  }

  /** unfilterScanline: the reconstructed line is the one whose filtered form was there; error 36
      exactly for an unknown type. */
  method UnfilterScanline(recon: array<byte>, scan: array<byte>, l: Line, kind: byte) returns (error: nat)
    requires recon != scan || l.r <= l.s
    requires Fits(Call(l, recon[..], Cut(scan[..], l.s, l.s + l.length), scan.Length))
    modifies recon
    ensures error == if kind <= 4 then 0 else 36
    ensures recon[..l.r] == old(recon[..l.r]) && recon[l.r + l.length..] == old(recon[l.r + l.length..])
    ensures kind <= 4 ==>
      Filtered(old(scan[l.s..l.s + l.length]), recon[l.r..l.r + l.length],
               match l.above case None => [] case Some(p) => old(recon[..])[p..p + l.length], l.width, kind)
  {
    if kind > 4 { return 36; }
    ghost var g: Start := Call(l, recon[..], scan[l.s..l.s + l.length], scan.Length);
    assert g.before[..l.r] == recon[..l.r] && g.before[l.r + l.length..] == recon[l.r + l.length..];
    UnfilterKind(recon, scan, l, kind, g);
    Finished(g, kind, recon[..], scan[..]);
    assert recon[..][l.r..l.r + l.length] == recon[l.r..l.r + l.length];
    error := 0;
  }

  lemma {:induction false} Finished(g: Start, kind: byte, d: seq<byte>, c: seq<byte>)
    requires Midway(g, kind, d, c, g.line.length) && kind <= 4
    ensures Filtered(g.scan, d[g.line.r..g.line.r + g.line.length], Prev(g), g.line.width, kind)
    ensures d[..g.line.r] == g.before[..g.line.r]
    ensures d[g.line.r + g.line.length..] == g.before[g.line.r + g.line.length..]
  {
    var r, n := g.line.r, g.line.length;
    assert Cut(d, 0, r) == d[..r] && Cut(g.before, 0, r) == g.before[..r];
    assert Cut(d, r + n, |d|) == d[r + n..] && Cut(g.before, r + n, |d|) == g.before[r + n..];
  }
}
