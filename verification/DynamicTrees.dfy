/** getTreeInflateDynamic: reads the two codes of a dynamic block. */
module DynamicTrees {
  import opened Bits
  import opened BitStream
  import opened CanonicalCode
  import opened HuffmanTable
  import opened HuffmanTree
  import opened CodeLengthRle
  import opened DeflateFormat
  import opened ReadSymbols
  import opened ZeroPadding

  // ---------------------------------------------------------------- the code length code

  /** Where the length of a code length symbol comes in the order of the format. */
  function Rank(x: nat): (r: nat)
    requires x < NUM_CL
    ensures r < NUM_CL
  {
    [3, 17, 15, 13, 11, 9, 7, 5, 4, 6, 8, 10, 12, 14, 16, 18, 0, 1, 2][x]
  }

  lemma {:induction false} OrderRank(i: nat)
    requires i < NUM_CL
    ensures Order(Rank(i)) == i && Rank(Order(i)) == i
  {
  }

  /** Three bits for each of the first hclen lengths, and zeros. */
  ghost function Given(s: seq<bit>, p: nat, hclen: nat, i: nat): (v: nat)
    ensures v < 8
  {
    Pow2Values();
    WindowBound(s, p + 3 * i, 3);
    if i < hclen then Window(s, p + 3 * i, 3) else 0
  }

  /** The first n lengths in the order of the format are set. */
  ghost predicate Placed(a: seq<nat>, n: nat, s: seq<bit>, p: nat, hclen: nat) {
    |a| == NUM_CL && n <= NUM_CL && forall i: nat :: i < n ==> a[Order(i)] == Given(s, p, hclen, i)
  }

  lemma {:induction false} PlaceOne(a: seq<nat>, n: nat, s: seq<bit>, p: nat, hclen: nat, v: nat)
    requires n < NUM_CL && Placed(a, n, s, p, hclen) && v == Given(s, p, hclen, n)
    ensures Placed(a[Order(n) := v], n + 1, s, p, hclen)
  {
    var b := a[Order(n) := v];
    forall i: nat | i < n + 1 ensures b[Order(i)] == Given(s, p, hclen, i) {
      OrderRank(i);
      OrderRank(n);
    }
  }

  lemma {:induction false} PlacedBounded(a: seq<nat>, s: seq<bit>, p: nat, hclen: nat)
    requires Placed(a, NUM_CL, s, p, hclen)
    ensures Bounded(a, 7)
  {
    forall x | 0 <= x < NUM_CL ensures a[x] <= 7 {
      OrderRank(x);
      assert a[Order(Rank(x))] == Given(s, p, hclen, Rank(x));
    }
  }

  /** If the lengths cl are what the stream describes, they are what is placed. */
  lemma {:induction false} PlacedIs(a: seq<nat>, s: seq<bit>, p: nat, hclen: nat, cl: seq<nat>)
    requires Placed(a, NUM_CL, s, p, hclen) && hclen <= NUM_CL == |cl| && Bounded(cl, 7)
    requires At(s, p, OrderedBits(cl, 0, hclen)) && forall i: nat :: hclen <= i < NUM_CL ==> cl[Order(i)] == 0
    ensures a == cl
  {
    forall x | 0 <= x < NUM_CL ensures a[x] == cl[x] {
      OrderRank(x);
      var i := Rank(x);
      assert a[Order(i)] == Given(s, p, hclen, i);
      if i < hclen { OrderedAt(s, p, cl, 0, hclen, i); }
    }
  }

  lemma {:induction false} OrderedAt(s: seq<bit>, p: nat, cl: seq<nat>, k: nat, n: nat, i: nat)
    requires k <= i < n <= NUM_CL == |cl| && Bounded(cl, 7) && At(s, p, OrderedBits(cl, k, n))
    ensures Window(s, p + 3 * (i - k), 3) == cl[Order(i)]
    decreases i - k
  {
    AtSplit(s, p, LsbBits(cl[Order(k)], 3), OrderedBits(cl, k + 1, n));
    if i == k {
      Pow2Values();
      NumberAt(s, p, cl[Order(i)], 3);
    } else {
      OrderedAt(s, p + 3, cl, k + 1, n, i);
    }
  }

  /** What is placed is what the stream describes. */
  lemma {:induction false} PlacedShown(a: seq<nat>, s: seq<bit>, p: nat, hclen: nat, k: nat)
    requires Placed(a, NUM_CL, s, p, hclen) && k <= hclen <= NUM_CL
    ensures Shows(s, p + 3 * k, OrderedBits(a, k, hclen))
    decreases hclen - k
  {
    if k < hclen {
      PlacedShown(a, s, p, hclen, k + 1);
      assert a[Order(k)] == Given(s, p, hclen, k);
      ShowsNumber(s, p + 3 * k, 3);
      ShowsConcat(s, p + 3 * k, LsbBits(a[Order(k)], 3), OrderedBits(a, k + 1, hclen));
    }
  }

  method ReadCodeLengthLengths(reader: BitReader, hclen: nat) returns (a: array<nat>)
    requires reader.Valid() && hclen <= NUM_CL
    modifies reader
    ensures Placed(a[..], NUM_CL, reader.stream, old(reader.bp), hclen)
    ensures reader.bp == old(reader.bp) + 3 * hclen
  {
    a := new nat[NUM_CL];
    ghost var s, p := reader.stream, reader.bp;
    var i := 0;
    while i != hclen
      invariant i <= hclen && Placed(a[..], i, s, p, hclen) && reader.bp == p + 3 * i
    {
      var v := ReadThreeBits(reader);
      Place(a, i, v, s, p, hclen);
      i := i + 1;
    }
    while i != NUM_CL
      invariant hclen <= i <= NUM_CL && Placed(a[..], i, s, p, hclen) && reader.bp == p + 3 * hclen
    {
      Place(a, i, 0, s, p, hclen);
      i := i + 1;
    }
  }

  method Place(a: array<nat>, i: nat, v: nat, ghost s: seq<bit>, ghost p: nat, ghost hclen: nat)
    requires i < NUM_CL && Placed(a[..], i, s, p, hclen) && v == Given(s, p, hclen, i)
    modifies a
    ensures Placed(a[..], i + 1, s, p, hclen)
  {
    ghost var before := a[..];
    PlaceOne(before, i, s, p, hclen, v);
    a[Order(i)] := v;
    assert a[..] == before[Order(i) := v];
  }

  method ReadThreeBits(reader: BitReader) returns (v: nat)
    requires reader.Valid()
    modifies reader
    ensures v == Window(reader.stream, old(reader.bp), 3) && reader.bp == old(reader.bp) + 3
  {
    var _ := reader.EnsureBits9(3);
    v := reader.ReadBits(3, 9);
  }

  // ---------------------------------------------------------------- the code lengths

  /** The two arrays hold the lengths read so far, first all of ll up to hlit, then d; the
      rest is zero. */
  ghost predicate Filled(ll: seq<nat>, d: seq<nat>, hlit: nat, lens: seq<nat>) {
    hlit <= |ll| && |lens| <= hlit + |d| &&
    (forall k :: 0 <= k < |ll| ==> ll[k] == if k < hlit && k < |lens| then lens[k] else 0) &&
    forall k :: 0 <= k < |d| ==> d[k] == if hlit + k < |lens| then lens[hlit + k] else 0
  }

  /** Padded with zeros to n lengths. */
  function Padded(ls: seq<nat>, n: nat): (r: seq<nat>)
    requires |ls| <= n
    ensures |r| == n
  {
    ls + Repeat(0, n - |ls|)
  }

  lemma {:induction false} FilledIs(ll: seq<nat>, d: seq<nat>, hlit: nat, lens: seq<nat>)
    requires Filled(ll, d, hlit, lens) && |lens| >= hlit
    ensures ll == Padded(lens[..hlit], |ll|) && d == Padded(lens[hlit..], |d|)
  {
  }

  /** Stores value for the next count symbols; overflow if there are fewer. */
  method Fill(ll: array<nat>, d: array<nat>, hlit: nat, total: nat, start: nat, count: nat, value: nat, ghost before: seq<nat>)
      returns (i: nat, overflow: bool, ghost lens: seq<nat>)
    requires ll != d && hlit <= ll.Length && total <= hlit + d.Length && start == |before| <= total
    requires Filled(ll[..], d[..], hlit, before)
    modifies ll, d
    ensures overflow == (start + count > total) && i == Min(start + count, total)
    ensures lens == before + Repeat(value, i - start) && Filled(ll[..], d[..], hlit, lens)
  {
    i, overflow, lens := start, false, before;
    var n := 0;
    while n < count
      invariant n <= count && i == start + n <= total && |lens| == i
      invariant lens == before + Repeat(value, n) && Filled(ll[..], d[..], hlit, lens)
    {
      if i >= total { overflow := true; return; }
      if i < hlit { ll[i] := value; } else { d[i - hlit] := value; }
      lens := lens + [value];
      i, n := i + 1, n + 1;
    }
  }

  /** The length of the previous symbol. */
  method Previous(ll: array<nat>, d: array<nat>, hlit: nat, i: nat, ghost lens: seq<nat>) returns (value: nat)
    requires 0 < i == |lens| && Filled(ll[..], d[..], hlit, lens)
    ensures value == lens[i - 1]
  {
    if i < hlit + 1 {
      value := ll[i - 1];
    } else {
      assert d[..][i - hlit - 1] == lens[i - 1];
      value := d[i - hlit - 1];
    }
  }

  /** The symbols still to be read take the lengths to goal and the reader to stop. */
  ghost predicate Remaining(s: seq<bit>, p: nat, cl: seq<nat>, lens: seq<nat>, rest: seq<LengthSymbol>, goal: seq<nat>, stop: nat) {
    AllCoded(cl, rest) && Expandable(lens, rest) && Expand(lens, rest) == goal &&
    At(s, p, SymbolsBits(cl, rest)) && p + |SymbolsBits(cl, rest)| == stop
  }

  lemma {:induction false} RemainingNext(s: seq<bit>, p: nat, cl: seq<nat>, lens: seq<nat>, rest: seq<LengthSymbol>, goal: seq<nat>, stop: nat)
    requires Remaining(s, p, cl, lens, rest, goal, stop)
    ensures |lens| < |goal| <==> rest != []
    ensures rest == [] ==> lens == goal && p == stop
    ensures rest != [] ==>
      var x, q := rest[0], p + |SymbolBits(cl, rest[0])|;
      x.Fits(lens) && Codes(cl, x.Code()) && At(s, p, Codeword(cl, x.Code())) && |x.Apply(lens)| <= |goal| &&
      At(s, p + cl[x.Code()], LsbBits(x.Extra(), x.ExtraBits())) && q == p + cl[x.Code()] + x.ExtraBits() <= |s| &&
      Remaining(s, q, cl, x.Apply(lens), rest[1..], goal, stop)
  {
    if rest != [] {
      AtSplit(s, p, SymbolBits(cl, rest[0]), SymbolsBits(cl, rest[1..]));
      AtSplit(s, p, Codeword(cl, rest[0].Code()), LsbBits(rest[0].Extra(), rest[0].ExtraBits()));
    }
  }

  /** The symbol that comes next, or any symbol. */
  ghost function Next(rest: seq<LengthSymbol>): (x: LengthSymbol)
    ensures x.Ok() && (rest != [] && rest[0].Ok() ==> x == rest[0])
  {
    if rest != [] && rest[0].Ok() then rest[0] else Length(0)
  }

  ghost predicate Short(lens: seq<nat>) {
    forall i :: 0 <= i < |lens| ==> lens[i] <= 15
  }

  /** The symbol with its repeat count was read from p to q. */
  ghost predicate RepeatRead(cl: seq<nat>, s: seq<bit>, p: nat, q: nat, symbol: LengthSymbol) {
    symbol.Ok() && Codes(cl, symbol.Code()) && Shows(s, p, SymbolBits(cl, symbol)) && q == p + |SymbolBits(cl, symbol)|
  }

  lemma {:induction false} RepeatIs(cl: seq<nat>, s: seq<bit>, p: nat, q: nat, symbol: LengthSymbol)
    requires symbol.Ok() && SymbolRead(cl, s, p, q, symbol.Code()) && symbol.Extra() == Window(s, q, symbol.ExtraBits())
    ensures RepeatRead(cl, s, p, q + symbol.ExtraBits(), symbol)
  {
    ShowsNumber(s, q, symbol.ExtraBits());
    ShowsConcat(s, p, Codeword(cl, symbol.Code()), LsbBits(symbol.Extra(), symbol.ExtraBits()));
  }

  /** Reads one symbol and its repeat count. Errors 54 and 16 leave the loop at once. */
  method ReadRepeat(reader: BitReader, tree: Tree, first: bool, ghost cl: seq<nat>, ghost x: LengthSymbol, ghost good: bool)
      returns (error: nat, symbol: LengthSymbol)
    requires reader.Valid() && tree.For(cl) && x.Ok()
    requires good ==> Codes(cl, x.Code()) && (first ==> !x.CopyPrevious?)
    requires good ==> At(reader.stream, reader.bp, Codeword(cl, x.Code()))
    requires good ==> At(reader.stream, reader.bp + cl[x.Code()], LsbBits(x.Extra(), x.ExtraBits()))
    modifies reader
    ensures error in {0, 16, 54} && reader.bp > old(reader.bp)
    ensures error == 0 ==> symbol.Ok() && (first ==> !symbol.CopyPrevious?)
    ensures error == 0 ==> RepeatRead(cl, reader.stream, old(reader.bp), reader.bp, symbol)
    ensures good ==> error == 0 && symbol == x && reader.bp == old(reader.bp) + cl[x.Code()] + x.ExtraBits()
  {
    var _ := reader.EnsureBits25(22);
    ghost var p := reader.bp;
    var code := ReadSymbol(reader, tree, cl, x.Code(), 25, good);
    ghost var q := reader.bp;
    error, symbol := ReadCount(reader, code, first, x, 25 - (q - p), good);
    if error == 0 { RepeatIs(cl, reader.stream, p, q, symbol); }
  }

  /** The repeat count of a symbol. */
  method ReadCount(reader: BitReader, code: nat, first: bool, ghost x: LengthSymbol, ghost k: nat, ghost good: bool)
      returns (error: nat, symbol: LengthSymbol)
    requires reader.Valid() && reader.Agrees(k) && 7 <= k && x.Ok()
    requires good ==> code == x.Code() && (first ==> !x.CopyPrevious?)
    requires good ==> At(reader.stream, reader.bp, LsbBits(x.Extra(), x.ExtraBits()))
    modifies reader
    ensures error in {0, 16, 54} && reader.bp >= old(reader.bp) && (error == 0 ==> code <= 18)
    ensures error == 0 ==>
      symbol.Ok() && (first ==> !symbol.CopyPrevious?) && symbol.Code() == code &&
      symbol.Extra() == Window(reader.stream, old(reader.bp), symbol.ExtraBits()) &&
      reader.bp == old(reader.bp) + symbol.ExtraBits()
    ensures good ==> error == 0 && symbol == x
  {
    error := 0;
    Pow2Values();
    symbol := Length(code);
    assert Window(reader.stream, reader.bp, 0) == 0;
    if code == 16 {
      if first { return 54, symbol; }
      var replength := ReadExtra(reader, 3, 2, x.Extra(), k, good);
      symbol := CopyPrevious(replength);
    } else if code == 17 {
      var replength := ReadExtra(reader, 3, 3, x.Extra(), k, good);
      symbol := Zeros(replength);
    } else if code == 18 {
      var replength := ReadExtra(reader, 11, 7, x.Extra(), k, good);
      symbol := ManyZeros(replength);
    } else if code > 18 {
      error := 16;
    }
  }

  /** Stores the lengths that a symbol stands for. */
  method StoreRepeat(symbol: LengthSymbol, ll: array<nat>, d: array<nat>, hlit: nat, total: nat, start: nat, ghost before: seq<nat>)
      returns (error: nat, i: nat, ghost lens: seq<nat>)
    requires ll != d && hlit <= ll.Length && total <= hlit + d.Length
    requires start == |before| < total && Filled(ll[..], d[..], hlit, before) && Short(before)
    requires symbol.Fits(before)
    modifies ll, d
    ensures error in {0, 13, 14, 15}
    ensures error == 0 <==> |symbol.Apply(before)| <= total
    ensures error == 0 ==> i == |lens| && lens == symbol.Apply(before) && Filled(ll[..], d[..], hlit, lens) && Short(lens)
  {
    var overflow;
    match symbol
    case Length(length) =>
      i, overflow, lens := Fill(ll, d, hlit, total, start, 1, length, before);
      assert Repeat(length, 1) == [length];
      error := 0;
    case CopyPrevious(count) =>
      var value := Previous(ll, d, hlit, start, before);
      i, overflow, lens := Fill(ll, d, hlit, total, start, count, value, before);
      error := if overflow then 13 else 0;
    case Zeros(count) =>
      i, overflow, lens := Fill(ll, d, hlit, total, start, count, 0, before);
      error := if overflow then 14 else 0;
    case ManyZeros(count) =>
      i, overflow, lens := Fill(ll, d, hlit, total, start, count, 0, before);
      error := if overflow then 15 else 0;
  }

  /** The symbols were read from start to p, and stand for these lengths. */
  ghost predicate SymbolsRead(cl: seq<nat>, s: seq<bit>, start: nat, p: nat, symbols: seq<LengthSymbol>, lens: seq<nat>) {
    AllCoded(cl, symbols) && Expandable([], symbols) && Expand([], symbols) == lens &&
    Shows(s, start, SymbolsBits(cl, symbols)) && p == start + |SymbolsBits(cl, symbols)|
  }

  lemma {:induction false} NoSymbols(cl: seq<nat>, s: seq<bit>, start: nat)
    ensures SymbolsRead(cl, s, start, start, [], [])
  {
  }

  lemma {:induction false} CodedSnoc(cl: seq<nat>, symbols: seq<LengthSymbol>, x: LengthSymbol)
    requires AllCoded(cl, symbols) && x.Ok() && Codes(cl, x.Code())
    ensures AllCoded(cl, symbols + [x]) && SymbolsBits(cl, symbols + [x]) == SymbolsBits(cl, symbols) + SymbolBits(cl, x)
    decreases |symbols|
  {
    if symbols == [] {
      assert symbols + [x] == [x];
      CodedOne(cl, x, [x][1..]);
    } else {
      TailConcat(symbols, [x]);
      CodedSnoc(cl, symbols[1..], x);
      CodedStep(cl, symbols, symbols[1..]);
      CodedStep(cl, symbols + [x], symbols[1..] + [x]);
      Assoc(SymbolBits(cl, symbols[0]), SymbolsBits(cl, symbols[1..]), SymbolBits(cl, x));
    }
  }

  lemma {:induction false} CodedOne(cl: seq<nat>, x: LengthSymbol, rest: seq<LengthSymbol>)
    requires x.Ok() && Codes(cl, x.Code()) && rest == [] && [x][1..] == rest
    ensures AllCoded(cl, [x]) && SymbolsBits(cl, [x]) == SymbolBits(cl, x)
  {
    assert SymbolsBits(cl, rest) == [];
  }

  lemma {:induction false} CodedStep(cl: seq<nat>, all: seq<LengthSymbol>, rest: seq<LengthSymbol>)
    requires all != [] && rest == all[1..] && all[0].Ok() && Codes(cl, all[0].Code()) && AllCoded(cl, rest)
    ensures AllCoded(cl, all) && SymbolsBits(cl, all) == SymbolBits(cl, all[0]) + SymbolsBits(cl, rest)
  {
  }

  lemma {:induction false} ExpandSnoc(symbols: seq<LengthSymbol>, x: LengthSymbol)
    requires Expandable([], symbols) && x.Fits(Expand([], symbols))
    ensures Expandable([], symbols + [x]) && Expand([], symbols + [x]) == x.Apply(Expand([], symbols))
  {
    var lens := Expand([], symbols);
    assert [x][1..] == [];
    assert Expandable(x.Apply(lens), []);
    ExpandConcat([], symbols, [x]);
  }

  lemma {:induction false} OneMoreSymbol(cl: seq<nat>, s: seq<bit>, start: nat, p: nat, q: nat, symbols: seq<LengthSymbol>,
                                         x: LengthSymbol, lens: seq<nat>)
    requires SymbolsRead(cl, s, start, p, symbols, lens) && RepeatRead(cl, s, p, q, x) && x.Fits(lens)
    ensures SymbolsRead(cl, s, start, q, symbols + [x], x.Apply(lens))
  {
    OneMoreCoded(cl, s, start, p, q, symbols, x);
    ExpandSnoc(symbols, x);
  }

  lemma {:induction false} OneMoreCoded(cl: seq<nat>, s: seq<bit>, start: nat, p: nat, q: nat, symbols: seq<LengthSymbol>, x: LengthSymbol)
    requires AllCoded(cl, symbols) && Shows(s, start, SymbolsBits(cl, symbols)) && p == start + |SymbolsBits(cl, symbols)|
    requires RepeatRead(cl, s, p, q, x)
    ensures AllCoded(cl, symbols + [x]) && Shows(s, start, SymbolsBits(cl, symbols + [x]))
    ensures q == start + |SymbolsBits(cl, symbols + [x])|
  {
    CodedSnoc(cl, symbols, x);
    ShowsConcat(s, start, SymbolsBits(cl, symbols), SymbolBits(cl, x));
  }

  /** The loop over the code lengths of both alphabets. */
  method ReadLengths(reader: BitReader, tree: Tree, ll: array<nat>, d: array<nat>, hlit: nat, hdist: nat,
                     ghost cl: seq<nat>, ghost symbols: seq<LengthSymbol>, ghost good: bool)
      returns (error: nat, ghost lens: seq<nat>, ghost found: seq<LengthSymbol>)
    requires reader.Valid() && tree.For(cl) && ll != d && hlit <= ll.Length && hdist <= d.Length && hlit + hdist > 0
    requires forall k :: 0 <= k < ll.Length ==> ll[k] == 0
    requires forall k :: 0 <= k < d.Length ==> d[k] == 0
    requires good ==> AllCoded(cl, symbols) && At(reader.stream, reader.bp, SymbolsBits(cl, symbols))
    requires good ==> Expandable([], symbols) && |Expand([], symbols)| == hlit + hdist
    modifies reader, ll, d
    ensures error == 0 ==> |lens| == hlit + hdist && Filled(ll[..], d[..], hlit, lens) && Short(lens)
    ensures error == 0 ==>
      SymbolsRead(cl, reader.stream, old(reader.bp), reader.bp, found, lens) && reader.bp <= 8 * |reader.data|
    ensures good ==> error == 0 && lens == Expand([], symbols)
    ensures good ==> reader.bp == old(reader.bp) + |SymbolsBits(cl, symbols)|
    ensures reader.bp >= old(reader.bp)
  {
    var total := hlit + hdist;
    var i := 0;
    ghost var start, rest, stream := reader.bp, symbols, reader.stream;
    ghost var goal: seq<nat>, stop: nat := [], 0;
    if good { goal, stop := Expand([], symbols), reader.bp + |SymbolsBits(cl, symbols)|; }
    error, lens, found := 0, [], [];
    NoSymbols(cl, stream, start);
    while i < total
      invariant i == |lens| <= total && Filled(ll[..], d[..], hlit, lens) && Short(lens)
      invariant good ==> Remaining(stream, reader.bp, cl, lens, rest, goal, stop)
      invariant SymbolsRead(cl, stream, start, reader.bp, found, lens) && (i > 0 ==> reader.bp <= 8 * |reader.data|)
      decreases total - i
    {
      error, i, lens, rest, found := NextLengths(reader, tree, ll, d, hlit, total, i, cl, lens, rest, goal, stop, start, found, good);
      if error != 0 { return; }
    }
    if good { RemainingNext(stream, reader.bp, cl, lens, rest, goal, stop); }
  }

  /** One round of the loop. */
  method NextLengths(reader: BitReader, tree: Tree, ll: array<nat>, d: array<nat>, hlit: nat, total: nat, start: nat,
                     ghost cl: seq<nat>, ghost before: seq<nat>, ghost rest: seq<LengthSymbol>, ghost goal: seq<nat>,
                     ghost stop: nat, ghost p0: nat, ghost found: seq<LengthSymbol>, ghost good: bool)
      returns (error: nat, i: nat, ghost lens: seq<nat>, ghost rest': seq<LengthSymbol>, ghost found': seq<LengthSymbol>)
    requires reader.Valid() && tree.For(cl) && ll != d && hlit <= ll.Length && total <= hlit + d.Length
    requires start == |before| < total && Filled(ll[..], d[..], hlit, before) && Short(before)
    requires SymbolsRead(cl, reader.stream, p0, reader.bp, found, before)
    requires good ==> |goal| == total && Remaining(reader.stream, reader.bp, cl, before, rest, goal, stop)
    modifies reader, ll, d
    ensures reader.bp >= old(reader.bp) && (good ==> error == 0)
    ensures error == 0 ==> start < i == |lens| <= total && Filled(ll[..], d[..], hlit, lens) && Short(lens)
    ensures error == 0 ==> SymbolsRead(cl, reader.stream, p0, reader.bp, found', lens) && reader.bp <= 8 * |reader.data|
    ensures good ==> Remaining(reader.stream, reader.bp, cl, lens, rest', goal, stop)
  {
    ghost var p := reader.bp;
    i, lens, rest', found' := start, before, rest, found;
    if good { RemainingNext(reader.stream, p, cl, before, rest, goal, stop); }
    var symbol;
    error, symbol := ReadRepeat(reader, tree, start == 0, cl, Next(rest), good);
    if error != 0 { return; }
    error, i, lens, found' := StoreNext(reader, symbol, ll, d, hlit, total, start, cl, before, p0, p, found);
    if good { rest' := rest[1..]; }
  }

  /** The second half of a round, with its check of the bit pointer. */
  method StoreNext(reader: BitReader, symbol: LengthSymbol, ll: array<nat>, d: array<nat>, hlit: nat, total: nat, start: nat,
                   ghost cl: seq<nat>, ghost before: seq<nat>, ghost p0: nat, ghost p: nat, ghost found: seq<LengthSymbol>)
      returns (error: nat, i: nat, ghost lens: seq<nat>, ghost found': seq<LengthSymbol>)
    requires ll != d && hlit <= ll.Length && total <= hlit + d.Length
    requires start == |before| < total && Filled(ll[..], d[..], hlit, before) && Short(before)
    requires SymbolsRead(cl, reader.stream, p0, p, found, before)
    requires symbol.Fits(before) && RepeatRead(cl, reader.stream, p, reader.bp, symbol)
    modifies ll, d
    ensures error == 0 <==> |symbol.Apply(before)| <= total && reader.bp <= 8 * |reader.data|
    ensures error == 0 ==> i == |lens| && lens == symbol.Apply(before) && Filled(ll[..], d[..], hlit, lens) && Short(lens)
    ensures error == 0 ==> SymbolsRead(cl, reader.stream, p0, reader.bp, found', lens)
  {
    error, i, lens := StoreRepeat(symbol, ll, d, hlit, total, start, before);
    found' := found + [symbol];
    if reader.bp > 8 * |reader.data| { return 50, i, lens, found'; }
    if error != 0 { return; }
    OneMoreSymbol(cl, reader.stream, p0, p, reader.bp, found, symbol, before);
  }

  // ---------------------------------------------------------------- the trees

  /** The parts of a header stand at p. */
  ghost predicate PartsAt(s: seq<bit>, p: nat, hlit: nat, hdist: nat, n: nat, cl: seq<nat>, symbols: seq<LengthSymbol>)
    requires 4 <= n <= NUM_CL == |cl| && AllCoded(cl, symbols)
  {
    At(s, p, LsbBits(hlit, 5)) && At(s, p + 5, LsbBits(hdist, 5)) && At(s, p + 10, LsbBits(n - 4, 4)) &&
    At(s, p + 14, OrderedBits(cl, 0, n)) && At(s, p + 14 + 3 * n, SymbolsBits(cl, symbols))
  }

  lemma {:induction false} HeaderSplit(s: seq<bit>, p: nat, h: Header)
    requires h.Ok() && At(s, p, HeaderBits(h))
    ensures PartsAt(s, p, h.hlit - 257, h.hdist - 1, h.hclen, h.cl, h.symbols)
    ensures |HeaderBits(h)| == 14 + 3 * h.hclen + |SymbolsBits(h.cl, h.symbols)|
  {
    HeaderForm(h);
    PartsSplit(s, p, h.hlit - 257, h.hdist - 1, h.hclen, h.cl, h.symbols, HeaderBits(h));
  }

  lemma {:induction false} HeaderForm(h: Header)
    requires h.Ok()
    ensures 4 <= h.hclen <= NUM_CL == |h.cl| && AllCoded(h.cl, h.symbols)
    ensures HeaderBits(h) == DescriptionBits(h.hlit - 257, h.hdist - 1, h.hclen, h.cl, h.symbols)
  {
  }

  lemma {:induction false} PartsSplit(s: seq<bit>, p: nat, hlit: nat, hdist: nat, n: nat, cl: seq<nat>,
                                      symbols: seq<LengthSymbol>, all: seq<bit>)
    requires 4 <= n <= NUM_CL == |cl| && AllCoded(cl, symbols) && At(s, p, all)
    requires all == DescriptionBits(hlit, hdist, n, cl, symbols)
    ensures PartsAt(s, p, hlit, hdist, n, cl, symbols) && |all| == 14 + 3 * n + |SymbolsBits(cl, symbols)|
  {
    AtSplit(s, p, CountBits(hlit, hdist, n - 4), LengthsBits(cl, n, symbols));
    CountsSplit(s, p, hlit, hdist, n - 4);
    AtSplit(s, p + 14, OrderedBits(cl, 0, n), SymbolsBits(cl, symbols));
  }

  lemma {:induction false} CountsSplit(s: seq<bit>, p: nat, hlit: nat, hdist: nat, hclen: nat)
    requires At(s, p, CountBits(hlit, hdist, hclen))
    ensures At(s, p, LsbBits(hlit, 5)) && At(s, p + 5, LsbBits(hdist, 5)) && At(s, p + 10, LsbBits(hclen, 4))
  {
    AtSplit(s, p, LsbBits(hlit, 5), LsbBits(hdist, 5) + LsbBits(hclen, 4));
    AtSplit(s, p + 5, LsbBits(hdist, 5), LsbBits(hclen, 4));
  }

  /** HLIT, HDIST and HCLEN, with their offsets added. */
  method ReadCounts(reader: BitReader, ghost h: Header, ghost good: bool)
      returns (error: nat, hlit: nat, hdist: nat, hclen: nat)
    requires reader.Valid()
    requires good ==> h.Ok() && PartsAt(reader.stream, reader.bp, h.hlit - 257, h.hdist - 1, h.hclen, h.cl, h.symbols)
    modifies reader
    ensures error == 0 || error == 49
    ensures error == 0 ==> 257 <= hlit <= 288 && 1 <= hdist <= 32 && 4 <= hclen <= 19
    ensures error == 0 ==> reader.bp == old(reader.bp) + 14 && old(reader.bp) + 14 < 8 * |reader.data|
    ensures error == 0 ==> Shows(reader.stream, old(reader.bp), CountBits(hlit - 257, hdist - 1, hclen - 4))
    ensures good ==> error == 0 && hlit == h.hlit && hdist == h.hdist && hclen == h.hclen
    ensures reader.bp >= old(reader.bp)
  {
    error, hlit, hdist, hclen := 0, 0, 0, 0;
    ghost var s, p := reader.stream, reader.bp;
    Pow2Values();
    if good { CountsGiven(s, p, h); }
    CountsShown(s, p);
    var ok := reader.EnsureBits17(14);
    if !ok { return 49, 0, 0, 0; }
    hlit := reader.ReadBits(5, 17);
    hlit := hlit + 257;
    hdist := reader.ReadBits(5, 12);
    hdist := hdist + 1;
    hclen := reader.ReadBits(4, 7);
    hclen := hclen + 4;
  }

  lemma {:induction false} CountsGiven(s: seq<bit>, p: nat, h: Header)
    requires h.Ok() && PartsAt(s, p, h.hlit - 257, h.hdist - 1, h.hclen, h.cl, h.symbols)
    ensures Window(s, p, 5) == h.hlit - 257 && Window(s, p + 5, 5) == h.hdist - 1 && Window(s, p + 10, 4) == h.hclen - 4
  {
    Pow2Values();
    NumberAt(s, p, h.hlit - 257, 5);
    NumberAt(s, p + 5, h.hdist - 1, 5);
    NumberAt(s, p + 10, h.hclen - 4, 4);
  }

  lemma {:induction false} CountsShown(s: seq<bit>, p: nat)
    ensures Shows(s, p, CountBits(Window(s, p, 5), Window(s, p + 5, 5), Window(s, p + 10, 4)))
  {
    ShowsNumber(s, p, 5);
    ShowsNumber(s, p + 5, 5);
    ShowsNumber(s, p + 10, 4);
    ShowsConcat(s, p + 5, LsbBits(Window(s, p + 5, 5), 5), LsbBits(Window(s, p + 10, 4), 4));
    ShowsConcat(s, p, LsbBits(Window(s, p, 5), 5), LsbBits(Window(s, p + 5, 5), 5) + LsbBits(Window(s, p + 10, 4), 4));
  }

  /** Padding makes no difference to the code. */
  lemma {:induction false} PaddedDecodable(ls: seq<nat>, n: nat)
    requires Bounded(ls, 15) && |ls| <= n
    ensures Decodable(Padded(ls, n), 15) <==> Decodable(ls, 15)
  {
    PadCode(ls, Repeat(0, n - |ls|), 15);
  }

  /** It succeeds exactly for codes that can be read, with an end code. */
  method TreesFromLengths(ll: seq<nat>, d: seq<nat>) returns (error: nat, treeLL: Tree, treeD: Tree)
    requires Bounded(ll, 15) && Bounded(d, 15) && |ll| == NUM_LL && |d| == NUM_D
    ensures error == 0 <==> ll[END_CODE] > 0 && Decodable(ll, 15) && Decodable(d, 15)
    ensures error == 0 ==> TreeFor(treeLL, ll) && TreeFor(treeD, d)
  {
    treeLL, treeD := Tree(Alphabet([], []), Table([], [])), Tree(Alphabet([], []), Table([], []));
    if ll[END_CODE] == 0 { return 64, treeLL, treeD; }
    error, treeLL := MakeFromLengths(ll, 15);
    if error != 0 { return; }
    error, treeD := MakeFromLengths(d, 15);
  }

  method ReadCodeLengthTree(reader: BitReader, hclen: nat, ghost h: Header, ghost good: bool)
      returns (error: nat, tree: Tree, ghost cl: seq<nat>)
    requires reader.Valid() && hclen <= NUM_CL
    requires good ==> h.Ok() && hclen == h.hclen && At(reader.stream, reader.bp, OrderedBits(h.cl, 0, hclen))
    modifies reader
    ensures Placed(cl, NUM_CL, reader.stream, old(reader.bp), hclen)
    ensures error == 0 <==> Decodable(cl, 7)
    ensures error == 0 ==> tree.For(cl)
    ensures good ==> error == 0 && cl == h.cl
    ensures reader.bp == old(reader.bp) + 3 * hclen
  {
    ghost var p := reader.bp;
    var a := ReadCodeLengthLengths(reader, hclen);
    cl := a[..];
    PlacedBounded(cl, reader.stream, p, hclen);
    if good { HeaderPlaced(h, cl, reader.stream, p); }
    error, tree := MakeFromLengths(a[..], 7);
  }

  lemma {:induction false} HeaderPlaced(h: Header, a: seq<nat>, s: seq<bit>, p: nat)
    requires h.Ok() && Placed(a, NUM_CL, s, p, h.hclen) && At(s, p, OrderedBits(h.cl, 0, h.hclen))
    ensures a == h.cl && Decodable(h.cl, 7)
  {
    assert Decodable(h.cl, 7);
    DecodableKraft(h.cl, 7);
    PlacedIs(a, s, p, h.hclen, h.cl);
  }

  /** What the parts of getTreeInflateDynamic need to know of a header. */
  lemma {:induction false} HeaderFacts(h: Header, cl: seq<nat>)
    requires h.Ok() && cl == h.cl
    ensures AllCoded(cl, h.symbols) && SymbolsBits(cl, h.symbols) == SymbolsBits(h.cl, h.symbols)
    ensures Expandable([], h.symbols) && |Expand([], h.symbols)| == h.hlit + h.hdist
  {
  }

  /** The symbols from p to q describe the lengths of the two alphabets. */
  ghost predicate LengthsRead(cl: seq<nat>, s: seq<bit>, p: nat, q: nat, hlit: nat, hdist: nat, symbols: seq<LengthSymbol>,
                              lens: seq<nat>, ll: seq<nat>, d: seq<nat>) {
    |ll| == NUM_LL && |d| == NUM_D && |lens| == hlit + hdist && Filled(ll, d, hlit, lens) && Short(lens) &&
    SymbolsRead(cl, s, p, q, symbols, lens)
  }

  lemma {:induction false} LengthsReadIs(cl: seq<nat>, s: seq<bit>, p: nat, q: nat, hlit: nat, hdist: nat,
                                         symbols: seq<LengthSymbol>, lens: seq<nat>, ll: seq<nat>, d: seq<nat>)
    requires |ll| == NUM_LL && |d| == NUM_D && |lens| == hlit + hdist && Filled(ll, d, hlit, lens) && Short(lens)
    requires SymbolsRead(cl, s, p, q, symbols, lens)
    ensures LengthsRead(cl, s, p, q, hlit, hdist, symbols, lens, ll, d)
  {
  }

  /** Reads the code lengths of both alphabets. */
  method ReadBothLengths(reader: BitReader, tree: Tree, hlit: nat, hdist: nat, ghost cl: seq<nat>,
                         ghost symbols: seq<LengthSymbol>, ghost good: bool)
      returns (error: nat, ll: seq<nat>, d: seq<nat>, ghost lens: seq<nat>, ghost found: seq<LengthSymbol>)
    requires reader.Valid() && tree.For(cl) && 0 < hlit <= NUM_LL && hdist <= NUM_D
    requires good ==> AllCoded(cl, symbols) && At(reader.stream, reader.bp, SymbolsBits(cl, symbols))
    requires good ==> Expandable([], symbols) && |Expand([], symbols)| == hlit + hdist
    modifies reader
    ensures error == 0 ==> LengthsRead(cl, reader.stream, old(reader.bp), reader.bp, hlit, hdist, found, lens, ll, d)
    ensures error == 0 ==> reader.bp <= 8 * |reader.data|
    ensures good ==> error == 0 && lens == Expand([], symbols) && reader.bp == old(reader.bp) + |SymbolsBits(cl, symbols)|
    ensures reader.bp >= old(reader.bp)
  {
    ghost var p := reader.bp;
    var a := new nat[NUM_LL](_ => 0);
    var b := new nat[NUM_D](_ => 0);
    error, lens, found := ReadLengths(reader, tree, a, b, hlit, hdist, cl, symbols, good);
    ll, d := a[..], b[..];
    if error == 0 { LengthsReadIs(cl, reader.stream, p, reader.bp, hlit, hdist, found, lens, ll, d); }
  }

  /** The header stands from p to q. */
  ghost predicate HeaderShown(s: seq<bit>, p: nat, q: nat, h: Header) {
    h.Ok() && Shows(s, p, HeaderBits(h)) && q == p + |HeaderBits(h)|
  }

  /** These are the code lengths of the header, for whole alphabets. */
  ghost predicate CodesOf(h: Header, ll: seq<nat>, d: seq<nat>) {
    h.Ok() && ll == Padded(h.LL(), NUM_LL) && d == Padded(h.D(), NUM_D)
  }

  /** The header was read from p to q, and the trees are for its codes. */
  ghost predicate HeaderRead(s: seq<bit>, p: nat, q: nat, h: Header, ll: seq<nat>, d: seq<nat>, treeLL: Tree, treeD: Tree) {
    HeaderShown(s, p, q, h) && CodesOf(h, ll, d) && TreeFor(treeLL, ll) && TreeFor(treeD, d)
  }

  /** What was read makes a header. */
  lemma {:induction false} HeaderIs(s: seq<bit>, p: nat, m: nat, start: nat, q: nat, hlit: nat, hdist: nat, hclen: nat, cl: seq<nat>,
                                    symbols: seq<LengthSymbol>, lens: seq<nat>, ll: seq<nat>, d: seq<nat>)
      returns (h: Header)
    requires 257 <= hlit <= NUM_LL && 1 <= hdist <= NUM_D && 4 <= hclen <= NUM_CL
    requires Shows(s, p, CountBits(hlit - 257, hdist - 1, hclen - 4)) && m == p + 14 && start == m + 3 * hclen
    requires Placed(cl, NUM_CL, s, m, hclen) && Decodable(cl, 7)
    requires LengthsRead(cl, s, start, q, hlit, hdist, symbols, lens, ll, d) && ll[END_CODE] > 0
    requires Decodable(ll, 15) && Decodable(d, 15)
    ensures HeaderShown(s, p, q, h) && CodesOf(h, ll, d)
  {
    h := PartsRead(hlit, hdist, hclen, cl, s, m, start, q, symbols, lens, ll, d);
    StandsFrom(s, p, m, start, q, h, hlit, hdist, hclen, cl, symbols, lens);
  }

  lemma {:induction false} StandsFrom(s: seq<bit>, p: nat, m: nat, start: nat, q: nat, h: Header, hlit: nat, hdist: nat,
                                      hclen: nat, cl: seq<nat>, symbols: seq<LengthSymbol>, lens: seq<nat>)
    requires h == Header(hlit, hdist, hclen, cl, symbols) && hclen >= 4 && hlit >= 257 && hdist >= 1
    requires h.Ok() && Placed(cl, NUM_CL, s, m, hclen) && m == p + 14 && start == m + 3 * hclen
    requires Shows(s, p, CountBits(hlit - 257, hdist - 1, hclen - 4)) && SymbolsRead(cl, s, start, q, symbols, lens)
    ensures HeaderShown(s, p, q, h)
  {
    HeaderForm(h);
    DescriptionShown(s, p, hlit - 257, hdist - 1, hclen, cl, symbols, HeaderBits(h));
  }

  lemma {:induction false} DescriptionShown(s: seq<bit>, p: nat, a: nat, b: nat, n: nat, cl: seq<nat>,
                                            symbols: seq<LengthSymbol>, all: seq<bit>)
    requires 4 <= n <= NUM_CL && Placed(cl, NUM_CL, s, p + 14, n)
    requires Shows(s, p, CountBits(a, b, n - 4)) && AllCoded(cl, symbols) && Shows(s, p + 14 + 3 * n, SymbolsBits(cl, symbols))
    requires all == DescriptionBits(a, b, n, cl, symbols)
    ensures Shows(s, p, all) && |all| == 14 + 3 * n + |SymbolsBits(cl, symbols)|
  {
    PlacedShown(cl, s, p + 14, n, 0);
    ShowsConcat(s, p + 14, OrderedBits(cl, 0, n), SymbolsBits(cl, symbols));
    ShowsConcat(s, p, CountBits(a, b, n - 4), LengthsBits(cl, n, symbols));
  }

  lemma {:induction false} PartsRead(hlit: nat, hdist: nat, hclen: nat, cl: seq<nat>, s: seq<bit>, p: nat, start: nat, q: nat,
                                     symbols: seq<LengthSymbol>, lens: seq<nat>, ll: seq<nat>, d: seq<nat>)
      returns (h: Header)
    requires 257 <= hlit <= NUM_LL && 1 <= hdist <= NUM_D && 4 <= hclen <= NUM_CL
    requires Placed(cl, NUM_CL, s, p, hclen) && Decodable(cl, 7)
    requires LengthsRead(cl, s, start, q, hlit, hdist, symbols, lens, ll, d) && ll[END_CODE] > 0
    requires Decodable(ll, 15) && Decodable(d, 15)
    ensures h.Ok() && h == Header(hlit, hdist, hclen, cl, symbols) && CodesOf(h, ll, d)
  {
    HeaderCodes(cl, s, start, q, hlit, hdist, symbols, lens, ll, d);
    PlacedZeros(cl, s, p, hclen);
    h := MakeHeader(hlit, hdist, hclen, cl, symbols, lens);
    CodesAre(h, lens, ll, d);
  }

  lemma {:induction false} MakeHeader(hlit: nat, hdist: nat, hclen: nat, cl: seq<nat>, symbols: seq<LengthSymbol>, lens: seq<nat>)
      returns (h: Header)
    requires 257 <= hlit <= NUM_LL && 1 <= hdist <= NUM_D && 4 <= hclen <= NUM_CL == |cl| && CanDecode(cl, 7)
    requires forall i: nat :: hclen <= i < NUM_CL ==> cl[Order(i)] == 0
    requires AllCoded(cl, symbols) && Expandable([], symbols) && Expand([], symbols) == lens && |lens| == hlit + hdist
    requires CanDecode(lens[..hlit], 15) && CanDecode(lens[hlit..], 15) && lens[..hlit][END_CODE] > 0
    ensures h.Ok() && h == Header(hlit, hdist, hclen, cl, symbols)
  {
    h := Header(hlit, hdist, hclen, cl, symbols);
  }

  lemma {:induction false} CodesAre(h: Header, lens: seq<nat>, ll: seq<nat>, d: seq<nat>)
    requires h.Ok() && Expand([], h.symbols) == lens
    requires ll == Padded(lens[..h.hlit], NUM_LL) && d == Padded(lens[h.hlit..], NUM_D)
    ensures CodesOf(h, ll, d)
  {
  }

  lemma {:induction false} PlacedZeros(cl: seq<nat>, s: seq<bit>, p: nat, hclen: nat)
    requires Placed(cl, NUM_CL, s, p, hclen)
    ensures forall i: nat :: hclen <= i < NUM_CL ==> cl[Order(i)] == 0
  {
    forall i: nat | hclen <= i < NUM_CL ensures cl[Order(i)] == 0 { assert cl[Order(i)] == Given(s, p, hclen, i); }
  }

  lemma {:induction false} HeaderCodes(cl: seq<nat>, s: seq<bit>, p: nat, q: nat, hlit: nat, hdist: nat,
                                       symbols: seq<LengthSymbol>, lens: seq<nat>, ll: seq<nat>, d: seq<nat>)
    requires 257 <= hlit <= NUM_LL && hdist <= NUM_D && LengthsRead(cl, s, p, q, hlit, hdist, symbols, lens, ll, d)
    ensures Bounded(ll, 15) && Bounded(d, 15)
    ensures ll == Padded(lens[..hlit], NUM_LL) && d == Padded(lens[hlit..], NUM_D)
    ensures Decodable(ll, 15) <==> Decodable(lens[..hlit], 15)
    ensures Decodable(d, 15) <==> Decodable(lens[hlit..], 15)
    ensures ll[END_CODE] == lens[..hlit][END_CODE]
  {
    FilledIs(ll, d, hlit, lens);
    PaddedDecodable(lens[..hlit], NUM_LL);
    PaddedDecodable(lens[hlit..], NUM_D);
  }

  /** The two codes by means of the code length code. */
  method ReadBothCodes(reader: BitReader, ghost p: nat, ghost q: nat, hlit: nat, hdist: nat, ghost hclen: nat, treeCL: Tree,
                       ghost cl: seq<nat>, ghost h: Header, ghost good: bool)
      returns (error: nat, treeLL: Tree, treeD: Tree, ghost found: Header, ghost ll: seq<nat>, ghost d: seq<nat>)
    requires reader.Valid() && 257 <= hlit <= NUM_LL && 1 <= hdist <= NUM_D && 4 <= hclen <= NUM_CL && reader.bp == q
    requires q == p + 14 + 3 * hclen && Shows(reader.stream, p, CountBits(hlit - 257, hdist - 1, hclen - 4))
    requires Placed(cl, NUM_CL, reader.stream, p + 14, hclen) && Decodable(cl, 7) && treeCL.For(cl)
    requires good ==> h.Ok() && hlit == h.hlit && hdist == h.hdist && cl == h.cl
    requires good ==> At(reader.stream, q, SymbolsBits(h.cl, h.symbols))
    modifies reader
    ensures error == 0 ==> HeaderRead(reader.stream, p, reader.bp, found, ll, d, treeLL, treeD) && reader.bp <= 8 * |reader.data|
    ensures good ==> error == 0 && ll == Padded(h.LL(), NUM_LL) && d == Padded(h.D(), NUM_D)
    ensures good ==> reader.bp == q + |SymbolsBits(h.cl, h.symbols)|
    ensures reader.bp >= old(reader.bp)
  {
    treeLL, treeD := Tree(Alphabet([], []), Table([], [])), Tree(Alphabet([], []), Table([], []));
    found, ll, d := h, [], [];
    var lengthsLL, lengthsD;
    ghost var lens, symbols;
    if good { HeaderFacts(h, cl); }
    error, lengthsLL, lengthsD, lens, symbols := ReadBothLengths(reader, treeCL, hlit, hdist, cl, h.symbols, good);
    ll, d := lengthsLL, lengthsD;
    if error != 0 { return; }
    HeaderCodes(cl, reader.stream, q, reader.bp, hlit, hdist, symbols, lens, ll, d);
    if good { GoodLengths(h, lens, ll, d); }
    error, treeLL, treeD := TreesFromLengths(lengthsLL, lengthsD);
    if error == 0 {
      found := HeaderIs(reader.stream, p, p + 14, q, reader.bp, hlit, hdist, hclen, cl, symbols, lens, ll, d);
    }
  }

  lemma {:induction false} GoodLengths(h: Header, lens: seq<nat>, ll: seq<nat>, d: seq<nat>)
    requires h.Ok() && lens == Expand([], h.symbols)
    requires ll == Padded(lens[..h.hlit], NUM_LL) && d == Padded(lens[h.hlit..], NUM_D)
    ensures ll == Padded(h.LL(), NUM_LL) && d == Padded(h.D(), NUM_D)
    ensures Decodable(ll, 15) && Decodable(d, 15) && ll[END_CODE] > 0
  {
    assert Decodable(h.LL(), 15) && Decodable(h.D(), 15);
    DecodableKraft(h.LL(), 15);
    DecodableKraft(h.D(), 15);
    PaddedDecodable(h.LL(), NUM_LL);
    PaddedDecodable(h.D(), NUM_D);
    assert ll[END_CODE] == h.LL()[END_CODE];
  }

  /** The code length code and the two codes. */
  method ReadCodes(reader: BitReader, ghost p: nat, hlit: nat, hdist: nat, hclen: nat, ghost h: Header, ghost good: bool)
      returns (error: nat, treeLL: Tree, treeD: Tree, ghost found: Header, ghost ll: seq<nat>, ghost d: seq<nat>)
    requires reader.Valid() && 257 <= hlit <= NUM_LL && 1 <= hdist <= NUM_D && 4 <= hclen <= NUM_CL && reader.bp == p + 14
    requires Shows(reader.stream, p, CountBits(hlit - 257, hdist - 1, hclen - 4))
    requires good ==> h.Ok() && hlit == h.hlit && hdist == h.hdist && hclen == h.hclen
    requires good ==> At(reader.stream, p + 14, OrderedBits(h.cl, 0, hclen))
    requires good ==> At(reader.stream, p + 14 + 3 * hclen, SymbolsBits(h.cl, h.symbols))
    modifies reader
    ensures error == 0 ==> HeaderRead(reader.stream, p, reader.bp, found, ll, d, treeLL, treeD) && reader.bp <= 8 * |reader.data|
    ensures good ==> error == 0 && ll == Padded(h.LL(), NUM_LL) && d == Padded(h.D(), NUM_D)
    ensures good ==> reader.bp == p + 14 + 3 * hclen + |SymbolsBits(h.cl, h.symbols)|
    ensures reader.bp >= old(reader.bp)
  {
    treeLL, treeD := Tree(Alphabet([], []), Table([], [])), Tree(Alphabet([], []), Table([], []));
    found, ll, d := h, [], [];
    var treeCL;
    ghost var cl;
    error, treeCL, cl := ReadCodeLengthTree(reader, hclen, h, good);
    if error != 0 { return; }
    error, treeLL, treeD, found, ll, d := ReadBothCodes(reader, p, p + 14 + 3 * hclen, hlit, hdist, hclen, treeCL, cl, h, good);
  }

  /** getTreeInflateDynamic. On the bits of a header it makes the trees of its codes; and
      whatever it accepts are the bits of a header. */
  method ReadTrees(reader: BitReader, ghost h: Header, ghost good: bool)
      returns (error: nat, treeLL: Tree, treeD: Tree, ghost found: Header, ghost ll: seq<nat>, ghost d: seq<nat>)
    requires reader.Valid()
    requires good ==> h.Ok() && At(reader.stream, reader.bp, HeaderBits(h))
    modifies reader
    ensures error == 0 ==> HeaderRead(reader.stream, old(reader.bp), reader.bp, found, ll, d, treeLL, treeD) && reader.bp <= 8 * |reader.data|
    ensures good ==> error == 0 && ll == Padded(h.LL(), NUM_LL) && d == Padded(h.D(), NUM_D)
    ensures good ==> reader.bp == old(reader.bp) + |HeaderBits(h)|
    ensures reader.bp >= old(reader.bp)
  {
    treeLL, treeD := Tree(Alphabet([], []), Table([], [])), Tree(Alphabet([], []), Table([], []));
    found, ll, d := h, [], [];
    ghost var p := reader.bp;
    if good {
      HeaderSplit(reader.stream, p, h);
    }
    var hlit, hdist, hclen;
    error, hlit, hdist, hclen := ReadCounts(reader, h, good);
    if error != 0 { return; }
    if reader.bp + hclen * 3 > 8 * |reader.data| { return 50, treeLL, treeD, found, ll, d; }
    error, treeLL, treeD, found, ll, d := ReadCodes(reader, p, hlit, hdist, hclen, h, good);
  }
}
