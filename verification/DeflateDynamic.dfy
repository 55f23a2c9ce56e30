/** deflateDynamic: a block with its own two codes, and the description of these codes. */
module DeflateDynamic {
  import opened Bits
  import opened BitStream
  import opened CanonicalCode
  import opened HuffmanTable
  import opened HuffmanTree
  import opened Tokens
  import opened Lz77
  import Rle = CodeLengthRle
  import opened DeflateFormat
  import opened DeflateWriter

  // ---------------------------------------------------------------- frequencies

  /** The codes of the token have been counted. */
  ghost predicate Counted(ll: seq<nat>, d: seq<nat>, t: Token) {
    match t
    case Literal(value) => Codes(ll, value)
    case Match(_, _, m) => Codes(ll, FIRST_LENGTH_CODE_INDEX + m.lengthCode) && Codes(d, m.distanceCode)
  }

  ghost predicate AllCounted(ll: seq<nat>, d: seq<nat>, tokens: seq<Token>, n: nat) {
    n <= |tokens| && forall i :: 0 <= i < n ==> Counted(ll, d, tokens[i])
  }

  ghost predicate NoLess(a: seq<nat>, b: seq<nat>) {
    |a| == |b| && forall i :: 0 <= i < |a| ==> a[i] <= b[i]
  }

  lemma {:induction false} CountedMore(ll: seq<nat>, d: seq<nat>, ll2: seq<nat>, d2: seq<nat>, tokens: seq<Token>, n: nat)
    requires AllCounted(ll, d, tokens, n) && NoLess(ll, ll2) && NoLess(d, d2)
    requires n < |tokens| && Counted(ll2, d2, tokens[n])
    ensures AllCounted(ll2, d2, tokens, n + 1)
  {
    forall i | 0 <= i < n + 1 ensures Counted(ll2, d2, tokens[i]) {
      if i < n { assert Counted(ll, d, tokens[i]); }
    }
  }

  lemma {:induction false} CodesInRange(t: Token)
    requires InTables(t) && t.Match?
    ensures t.code.lengthCode < 29 && t.code.distanceCode < 30
  {
  }

  /** Counts the codes of one token. */
  method CountToken(ll: array<nat>, d: array<nat>, values: seq<nat>, start: nat, ghost t: Token) returns (i: nat)
    requires ll != d && ll.Length == 286 && d.Length == 30 && EntriesAt(values, start, t) && InTables(t)
    modifies ll, d
    ensures NoLess(old(ll[..]), ll[..]) && NoLess(old(d[..]), d[..]) && Counted(ll[..], d[..], t)
    ensures i == start + |Flat(t)|
  {
    i := start;
    if t.Match? { CodesInRange(t); }
    var symbol := values[i];
    ll[symbol] := ll[symbol] + 1;
    if symbol > 256 {
      var dist := values[i + 2];
      d[dist] := d[dist] + 1;
      i := i + 3;
    }
    i := i + 1;
  }

  method CountFrequencies(values: seq<nat>, ghost tokens: seq<Token>) returns (ll: array<nat>, d: array<nat>)
    requires values == Flatten(tokens) && AllInTables(tokens)
    ensures fresh(ll) && fresh(d) && ll.Length == 286 && d.Length == 30
    ensures AllCounted(ll[..], d[..], tokens, |tokens|) && ll[END_CODE] > 0
  {
    ll := new nat[286](_ => 0);
    d := new nat[30](_ => 0);
    var i := 0;
    ghost var n := 0;
    assert values[0..] == values && tokens[0..] == tokens;
    while i != |values|
      invariant i <= |values| && n <= |tokens| && FlatAt(values, i, tokens[n..])
      invariant AllCounted(ll[..], d[..], tokens, n)
      decreases |values| - i
    {
      FlatNext(values, i, tokens[n..]);
      assert tokens[n..][0] == tokens[n] && tokens[n..][1..] == tokens[n + 1..];
      assert InTables(tokens[n]);
      ghost var l0, d0 := ll[..], d[..];
      i := CountToken(ll, d, values, i, tokens[n]);
      CountedMore(l0, d0, ll[..], d[..], tokens, n);
      n := n + 1;
    }
    FlatNext(values, i, tokens[n..]);
    CountEnd(ll, d, tokens);
  }

  method CountEnd(ll: array<nat>, d: array<nat>, ghost tokens: seq<Token>)
    requires ll.Length == 286 && ll != d && AllCounted(ll[..], d[..], tokens, |tokens|)
    modifies ll
    ensures AllCounted(ll[..], d[..], tokens, |tokens|) && ll[END_CODE] > 0
  {
    ghost var before := ll[..];
    ll[END_CODE] := 1;
    forall i | 0 <= i < |tokens| ensures Counted(ll[..], d[..], tokens[i]) {
      assert Counted(before, d[..], tokens[i]);
    }
  }

  /** Codes made from the frequencies can send the tokens. */
  lemma {:induction false} ServedSendable(c: Coding, ll: seq<nat>, d: seq<nat>, tokens: seq<Token>, n: nat)
    requires AllCounted(ll, d, tokens, |tokens|) && AllInTables(tokens) && n <= |tokens|
    requires Serves(c.ll, ll, 15) && Serves(c.d, d, 15)
    ensures AllSendable(c, tokens[n..])
    decreases |tokens| - n
  {
    if n < |tokens| {
      assert Counted(ll, d, tokens[n]) && InTables(tokens[n]);
      if tokens[n].Match? { CodesInRange(tokens[n]); }
      assert tokens[n..][1..] == tokens[n + 1..];
      ServedSendable(c, ll, d, tokens, n + 1);
    }
  }

  lemma {:induction false} NearTable(i: nat)
    requires i <= 21
    ensures DISTANCEEXTRA[i] <= 9
  {
  }

  /** Distances up to 2048 have at most 9 extra bits. */
  lemma {:induction false} NearExtra(t: Token)
    requires t.Match? && InTables(t) && t.distance <= 2048
    ensures t.code.distanceCode < 30 && DistanceExtra(t.code.distanceCode) <= 9
  {
    TablesIncrease();
    var i := t.code.distanceCode;
    assert DISTANCEBASE[22] == 2049;
    if i <= 21 { NearTable(i); }
  }

  /** So the decoder can read them whatever the code lengths. */
  lemma {:induction false} NearReadable(c: Coding, tokens: seq<Token>, pos: nat, maxdistance: nat, p: nat)
    requires AllSendable(c, tokens) && AllInTables(tokens) && TokensOk(tokens, pos, maxdistance) && maxdistance <= 2048
    requires Bounded(c.d, 15)
    ensures AllReadable(c, tokens, p)
    decreases |tokens|
  {
    if tokens != [] {
      AllButFirst(tokens);
      if tokens[0].Match? { NearExtra(tokens[0]); }
      NearReadable(c, tokens[1..], pos + tokens[0].Size(), maxdistance, p + TokenSize(c, tokens[0]));
    }
  }

  lemma {:induction false} NearBlock(h: Header, tokens: seq<Token>, pos: nat, maxdistance: nat, p: nat)
    requires h.Ok() && AllSendable(Coding(h.LL(), h.D()), tokens) && AllInTables(tokens)
    requires TokensOk(tokens, pos, maxdistance) && TokensOk(tokens, pos, MAX_DISTANCE) && maxdistance <= 2048
    ensures BlockReadable(DynamicBlock(h, tokens), pos, p)
  {
    assert Decodable(h.D(), 15);
    DecodableKraft(h.D(), 15);
    NearFrom(Coding(h.LL(), h.D()), tokens, pos, maxdistance, p + |HeaderBits(h)|);
  }

  lemma {:induction false} NearFrom(c: Coding, tokens: seq<Token>, pos: nat, maxdistance: nat, p: nat)
    requires AllSendable(c, tokens) && AllInTables(tokens) && TokensOk(tokens, pos, maxdistance) && maxdistance <= 2048
    requires Bounded(c.d, 15)
    ensures ReadableFrom(c, tokens, p)
  {
    NearReadable(c, tokens, pos, maxdistance, p);
  }

  // ---------------------------------------------------------------- the code length code

  /** The entries of the run-length vector from i on are those of the symbols. */
  ghost predicate RunsAt(values: seq<nat>, i: nat, symbols: seq<Rle.LengthSymbol>) {
    i <= |values| && Rle.AllOk(symbols) && values[i..] == Rle.Flatten(symbols)
  }

  lemma {:induction false} RunsNext(values: seq<nat>, i: nat, symbols: seq<Rle.LengthSymbol>)
    requires RunsAt(values, i, symbols)
    ensures i < |values| <==> symbols != []
    ensures symbols != [] ==>
      symbols[0].Ok() && values[i] == symbols[0].Code() && (values[i] < 16 <==> symbols[0].Length?) &&
      (values[i] >= 16 ==> i + 1 < |values| && values[i + 1] == symbols[0].Extra()) &&
      RunsAt(values, if values[i] >= 16 then i + 2 else i + 1, symbols[1..])
  {
    if symbols != [] {
      var f := Rle.Flat(symbols[0]);
      assert values[i..] == f + Rle.Flatten(symbols[1..]);
      assert values[i + |f|..] == values[i..][|f|..];
      assert values[i] == values[i..][0];
      if !symbols[0].Length? { assert values[i + 1] == values[i..][1]; }
    }
  }

  ghost predicate CountedSymbols(f: seq<nat>, symbols: seq<Rle.LengthSymbol>, n: nat) {
    n <= |symbols| && forall i :: 0 <= i < n ==> Codes(f, symbols[i].Code())
  }

  method CountSymbols(values: seq<nat>, ghost symbols: seq<Rle.LengthSymbol>) returns (f: seq<nat>)
    requires Rle.AllOk(symbols) && values == Rle.Flatten(symbols)
    ensures |f| == NUM_CL && CountedSymbols(f, symbols, |symbols|)
  {
    var a := new nat[NUM_CL](_ => 0);
    var i := 0;
    ghost var n := 0;
    assert values[0..] == values && symbols[0..] == symbols;
    while i != |values|
      invariant i <= |values| && n <= |symbols| && RunsAt(values, i, symbols[n..]) && CountedSymbols(a[..], symbols, n)
      decreases |values| - i
    {
      RunsNext(values, i, symbols[n..]);
      assert symbols[n..][0] == symbols[n] && symbols[n..][1..] == symbols[n + 1..];
      a[values[i]] := a[values[i]] + 1;
      i := if values[i] >= 16 then i + 2 else i + 1;
      n := n + 1;
    }
    RunsNext(values, i, symbols[n..]);
    f := a[..];
  }

  lemma {:induction false} SymbolsCoded(cl: seq<nat>, f: seq<nat>, symbols: seq<Rle.LengthSymbol>, n: nat)
    requires CountedSymbols(f, symbols, |symbols|) && Serves(cl, f, 7) && Rle.AllOk(symbols) && n <= |symbols|
    ensures AllCoded(cl, symbols[n..])
    decreases |symbols| - n
  {
    if n < |symbols| {
      assert Codes(f, symbols[n].Code()) && symbols[n].Ok();
      assert symbols[n..][1..] == symbols[n + 1..];
      SymbolsCoded(cl, f, symbols, n + 1);
    }
  }

  /** The lengths of the code length code in the order of the format, without zeros at the
      end, but at least four. */
  method OrderLengths(cl: seq<nat>) returns (r: seq<nat>)
    requires |cl| == NUM_CL
    ensures 4 <= |r| <= NUM_CL
    ensures forall i :: 0 <= i < |r| ==> r[i] == cl[Order(i)]
    ensures forall i: nat :: |r| <= i < NUM_CL ==> cl[Order(i)] == 0
  {
    r := [];
    while |r| != NUM_CL
      invariant |r| <= NUM_CL && forall i :: 0 <= i < |r| ==> r[i] == cl[Order(i)]
    {
      r := r + [cl[Order(|r|)]];
    }
    while r[|r| - 1] == 0 && |r| > 4
      invariant 4 <= |r| <= NUM_CL && forall i :: 0 <= i < |r| ==> r[i] == cl[Order(i)]
      invariant forall i: nat :: |r| <= i < NUM_CL ==> cl[Order(i)] == 0
    {
      r := r[..|r| - 1];
    }
  }

  /** The code length code as a tree and in order, and the run-length vector, for a header. */
  ghost predicate Describes(h: Header, treeCL: Tree, ordered: seq<nat>, values: seq<nat>) {
    4 <= |ordered| == h.hclen <= NUM_CL == |h.cl| && treeCL.For(h.cl) && AllCoded(h.cl, h.symbols) &&
    Rle.AllOk(h.symbols) && values == Rle.Flatten(h.symbols) &&
    forall i :: 0 <= i < |ordered| ==> ordered[i] == h.cl[Order(i)]
  }

  /** The description of the codes with lengths ll and d: the code length code, its lengths
      in order, and the run-length vector. */
  method DescribeCodes(ll: seq<nat>, d: seq<nat>) returns (treeCL: Tree, ordered: seq<nat>, values: seq<nat>, ghost h: Header)
    requires 257 <= |ll| <= NUM_LL && 1 <= |d| <= NUM_D && Complete(ll, 15) && Complete(d, 15) && Codes(ll, END_CODE)
    ensures h.Ok() && h.hlit == |ll| && h.hdist == |d| && h.hclen == |ordered| && h.LL() == ll && h.D() == d
    ensures Describes(h, treeCL, ordered, values)
  {
    ghost var symbols;
    values, symbols := Rle.Encode(ll + d);
    var f := CountSymbols(values, symbols);
    var error;
    Pow2Values();
    error, treeCL := MakeFromFrequencies(f, NUM_CL, 7);
    ghost var cl := treeCL.alphabet.lengths;
    ordered := OrderLengths(treeCL.alphabet.lengths);
    SymbolsCoded(cl, f, symbols, 0);
    assert symbols[0..] == symbols;
    h := Header(|ll|, |d|, |ordered|, cl, symbols);
    assert (ll + d)[..|ll|] == ll && (ll + d)[|ll|..] == d;
  }

  // ---------------------------------------------------------------- writing the header

  method WriteOrdered(writer: BitWriter, ordered: seq<nat>, ghost cl: seq<nat>)
    requires writer.Valid() && |ordered| <= NUM_CL == |cl|
    requires forall i :: 0 <= i < |ordered| ==> ordered[i] == cl[Order(i)]
    modifies writer
    ensures writer.Valid() && writer.Written() == old(writer.Written()) + OrderedBits(cl, 0, |ordered|)
  {
    ghost var goal := writer.Written() + OrderedBits(cl, 0, |ordered|);
    var i := 0;
    while i != |ordered|
      invariant i <= |ordered| && writer.Valid()
      invariant writer.Written() + OrderedBits(cl, i, |ordered|) == goal
    {
      ghost var w := writer.Written();
      writer.WriteBits(ordered[i], 3);
      Assoc(w, LsbBits(cl[Order(i)], 3), OrderedBits(cl, i + 1, |ordered|), []);
      i := i + 1;
    }
  }

  method WriteRun(writer: BitWriter, tree: Tree, code: nat, extra: nat, ghost cl: seq<nat>, ghost s: Rle.LengthSymbol)
    requires writer.Valid() && tree.For(cl) && s.Ok() && Codes(cl, s.Code()) && code == s.Code()
    requires !s.Length? ==> extra == s.Extra()
    modifies writer
    ensures writer.Valid() && writer.Written() == old(writer.Written()) + SymbolBits(cl, s)
  {
    ghost var w := writer.Written();
    WriteSymbol(writer, tree, code, cl);
    if code == 16 {
      writer.WriteBits(extra, 2);
    } else if code == 17 {
      writer.WriteBits(extra, 3);
    } else if code == 18 {
      writer.WriteBits(extra, 7);
    } else {
      assert LsbBits(s.Extra(), s.ExtraBits()) == [];
    }
    Assoc(w, Codeword(cl, s.Code()), LsbBits(s.Extra(), s.ExtraBits()), []);
  }

  method WriteRuns(writer: BitWriter, tree: Tree, values: seq<nat>, ghost cl: seq<nat>, ghost symbols: seq<Rle.LengthSymbol>)
    requires writer.Valid() && tree.For(cl) && AllCoded(cl, symbols) && Rle.AllOk(symbols) && values == Rle.Flatten(symbols)
    modifies writer
    ensures writer.Valid() && writer.Written() == old(writer.Written()) + SymbolsBits(cl, symbols)
  {
    ghost var rest, goal := symbols, writer.Written() + SymbolsBits(cl, symbols);
    var i := 0;
    assert values[0..] == values;
    while i != |values|
      invariant i <= |values| && writer.Valid() && RunsAt(values, i, rest) && AllCoded(cl, rest)
      invariant writer.Written() + SymbolsBits(cl, rest) == goal
      decreases |values| - i
    {
      RunsNext(values, i, rest);
      Assoc(writer.Written(), SymbolBits(cl, rest[0]), SymbolsBits(cl, rest[1..]), []);
      WriteRun(writer, tree, values[i], if values[i] >= 16 then values[i + 1] else 0, cl, rest[0]);
      i := if values[i] >= 16 then i + 2 else i + 1;
      rest := rest[1..];
    }
    RunsNext(values, i, rest);
  }

  method WriteCounts(writer: BitWriter, hlit: nat, hdist: nat, hclen: nat)
    requires writer.Valid()
    modifies writer
    ensures writer.Valid()
    ensures writer.Written() == old(writer.Written()) + CountBits(hlit, hdist, hclen)
  {
    ghost var w := writer.Written();
    writer.WriteBits(hlit, 5);
    writer.WriteBits(hdist, 5);
    writer.WriteBits(hclen, 4);
    Assoc(w, LsbBits(hlit, 5), LsbBits(hdist, 5), LsbBits(hclen, 4));
  }

  /** The code length code and the run-length form of the code lengths. */
  method WriteLengths(writer: BitWriter, ordered: seq<nat>, values: seq<nat>, treeCL: Tree,
                      ghost cl: seq<nat>, ghost symbols: seq<Rle.LengthSymbol>)
    requires writer.Valid() && |ordered| <= NUM_CL == |cl|
    requires treeCL.For(cl) && AllCoded(cl, symbols) && Rle.AllOk(symbols) && values == Rle.Flatten(symbols)
    requires forall i :: 0 <= i < |ordered| ==> ordered[i] == cl[Order(i)]
    modifies writer
    ensures writer.Valid()
    ensures writer.Written() == old(writer.Written()) + LengthsBits(cl, |ordered|, symbols)
  {
    ghost var w := writer.Written();
    WriteOrdered(writer, ordered, cl);
    WriteRuns(writer, treeCL, values, cl, symbols);
    Assoc(w, OrderedBits(cl, 0, |ordered|), SymbolsBits(cl, symbols), []);
  }

  lemma {:induction false} HeaderIs(h: Header, hlit: nat, hdist: nat, hclen: nat)
    requires h.Ok() && hlit == h.hlit - 257 && hdist == h.hdist - 1 && hclen == h.hclen - 4
    ensures HeaderBits(h) == CountBits(hlit, hdist, hclen) + LengthsBits(h.cl, h.hclen, h.symbols)
  {
  }

  method WriteFields(writer: BitWriter, hlit: nat, hdist: nat, hclen: nat, ordered: seq<nat>, values: seq<nat>, treeCL: Tree,
                     ghost h: Header)
    requires writer.Valid() && Describes(h, treeCL, ordered, values)
    modifies writer
    ensures writer.Valid()
    ensures writer.Written() == old(writer.Written()) + (CountBits(hlit, hdist, hclen) + LengthsBits(h.cl, h.hclen, h.symbols))
  {
    ghost var w := writer.Written();
    WriteCounts(writer, hlit, hdist, hclen);
    WriteLengths(writer, ordered, values, treeCL, h.cl, h.symbols);
    Assoc(w, CountBits(hlit, hdist, hclen), LengthsBits(h.cl, h.hclen, h.symbols), []);
  }

  method WriteHeader(writer: BitWriter, hlit: nat, hdist: nat, ordered: seq<nat>, values: seq<nat>, treeCL: Tree, ghost h: Header)
    requires writer.Valid() && h.Ok() && hlit == h.hlit - 257 && hdist == h.hdist - 1 && Describes(h, treeCL, ordered, values)
    modifies writer
    ensures writer.Valid() && writer.Written() == old(writer.Written()) + HeaderBits(h)
  {
    var hclen := |ordered| - 4;
    HeaderIs(h, hlit, hdist, hclen);
    WriteFields(writer, hlit, hdist, hclen, ordered, values, treeCL, h);
  }

  /** Describes the codes with lengths ll and d in a new block. */
  method WriteCodes(writer: BitWriter, final: bool, ll: seq<nat>, d: seq<nat>) returns (ghost h: Header)
    requires writer.Valid()
    requires 257 <= |ll| <= NUM_LL && 1 <= |d| <= NUM_D && Complete(ll, 15) && Complete(d, 15) && Codes(ll, END_CODE)
    modifies writer
    ensures writer.Valid() && h.Ok() && h.LL() == ll && h.D() == d
    ensures writer.Written() == old(writer.Written()) + HeadBits(2, final) + HeaderBits(h)
  {
    var treeCL, ordered, runs;
    treeCL, ordered, runs, h := DescribeCodes(ll, d);
    WriteHead(writer, final, false);
    WriteHeader(writer, |ll| - 257, |d| - 1, ordered, runs, treeCL, h);
  }

  // ---------------------------------------------------------------- the block

  lemma {:induction false} DynamicAppended(s: seq<bit>, t: seq<bit>, h: Header, tokens: seq<Token>,
                                           data: seq<byte>, datapos: nat, dataend: nat, ws: nat, final: bool)
    requires Encodes(data, datapos, dataend, tokens, ws) && h.Ok()
    requires AllSendable(Coding(h.LL(), h.D()), tokens)
    requires t == s + HeadBits(2, final) + HeaderBits(h) + DataBits(Coding(h.LL(), h.D()), tokens)
    ensures Appended(s, t, DynamicBlock(h, tokens), data, datapos, dataend, final)
  {
    Assoc(s, HeadBits(2, final), HeaderBits(h), DataBits(Coding(h.LL(), h.D()), tokens));
  }

  /** The two trees for the tokens, whose codes fit the header fields. */
  method MakeTrees(values: seq<nat>, ghost tokens: seq<Token>) returns (treeLL: Tree, treeD: Tree, ghost c: Coding)
    requires values == Flatten(tokens) && AllInTables(tokens)
    ensures c == Coding(treeLL.alphabet.lengths, treeD.alphabet.lengths) && treeLL.For(c.ll) && treeD.For(c.d)
    ensures 257 <= |c.ll| <= 286 && 2 <= |c.d| <= 30 && Codes(c.ll, END_CODE) && AllSendable(c, tokens)
    ensures Complete(c.ll, 15) && Complete(c.d, 15)
  {
    var ll, d := CountFrequencies(values, tokens);
    Pow2Values();
    var error;
    error, treeLL := MakeFromFrequencies(ll[..], 257, 15);
    error, treeD := MakeFromFrequencies(d[..], 2, 15);
    c := Coding(treeLL.alphabet.lengths, treeD.alphabet.lengths);
    ServedSendable(c, ll[..], d[..], tokens, 0);
    assert tokens[0..] == tokens;
  }

  /** deflateDynamic. With a window of at most 2048 bytes every distance can be read back. */
  method DeflateBlockDynamic(writer: BitWriter, hash: Hash, data: seq<byte>, datapos: nat, dataend: nat,
                             settings: Settings, final: bool) returns (error: nat, ghost b: Block)
    requires writer.Valid() && hash.windowsize == settings.windowsize && datapos <= dataend <= |data|
    requires hash.Tracks(data, if settings.useLz77 then datapos else 0)
    modifies writer, hash.head, hash.val, hash.chain, hash.headz, hash.chainz, hash.zeros
    ensures error in {0, 60, 90} && (error == 0 <==> settings.WindowOk())
    ensures error == 0 ==> hash.Tracks(data, if settings.useLz77 then dataend else 0)
    ensures error == 0 ==> b.DynamicBlock? && writer.Valid()
    ensures error == 0 ==> Appended(old(writer.Written()), writer.Written(), b, data, datapos, dataend, final)
    ensures error == 0 && (settings.useLz77 ==> settings.windowsize <= 2048) ==>
      BlockReadable(b, datapos, |old(writer.Written())| + 3)
  {
    ghost var w := writer.Written();
    var values;
    ghost var tokens;
    error, values, tokens := Tokenize(hash, data, datapos, dataend, settings);
    b := Stored([]);
    if error == 0 {
      ghost var h;
      h := WriteDynamicBlock(writer, values, final, tokens);
      b := DynamicBlock(h, tokens);
      ghost var ws := if settings.useLz77 then settings.windowsize else 0;
      DynamicAppended(w, writer.Written(), h, tokens, data, datapos, dataend, ws, final);
      if ws <= 2048 { NearBlock(h, tokens, datapos, ws, |w| + 3); }
    }
  }

  /** Makes the codes for the tokens and writes block header, codes, data and end code. */
  method WriteDynamicBlock(writer: BitWriter, values: seq<nat>, final: bool, ghost tokens: seq<Token>) returns (ghost h: Header)
    requires writer.Valid() && values == Flatten(tokens) && AllInTables(tokens)
    modifies writer
    ensures writer.Valid() && h.Ok() && AllSendable(Coding(h.LL(), h.D()), tokens)
    ensures writer.Written() ==
      old(writer.Written()) + HeadBits(2, final) + HeaderBits(h) + DataBits(Coding(h.LL(), h.D()), tokens)
  {
    var treeLL, treeD;
    ghost var c;
    treeLL, treeD, c := MakeTrees(values, tokens);
    h := WriteCodes(writer, final, treeLL.alphabet.lengths, treeD.alphabet.lengths);
    WriteLZ77Data(writer, values, treeLL, treeD, c, tokens);
    WriteSymbol(writer, treeLL, END_CODE, c.ll);
  }
}
