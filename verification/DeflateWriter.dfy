/** The encoder: stored, fixed and dynamic blocks. What it writes stands for its input
    (DeflateFormat), whatever the settings. */
module DeflateWriter {
  import opened Bits
  import opened BitStream
  import opened CanonicalCode
  import opened HuffmanTable
  import opened HuffmanTree
  import opened Tokens
  import opened Lz77
  import CodeLengthRle
  import opened DeflateFormat

  datatype Settings = Settings(btype: nat, useLz77: bool, windowsize: nat, minmatch: nat, nicematch: nat, lazymatching: bool) {
    /** The result of encodeLZ77 for the window size, if it is called. */
    predicate WindowOk() {
      useLz77 ==> WindowError(windowsize) == 0
    }
  }

  // ---------------------------------------------------------------- literals only

  function Literals(b: seq<byte>): (r: seq<Token>)
    ensures |r| == |b| && forall i :: 0 <= i < |b| ==> r[i] == Literal(b[i])
  {
    seq(|b|, i requires 0 <= i < |b| => Literal(b[i]))
  }

  lemma {:induction false} LiteralsReplay(out: seq<byte>, b: seq<byte>, maxdistance: nat)
    ensures TokensOk(Literals(b), |out|, maxdistance) && TokensOk(Literals(b), |out|, MAX_DISTANCE)
    ensures Replay(out, Literals(b)) == out + b && End(|out|, Literals(b)) == |out| + |b|
    decreases |b|
  {
    if b == [] {
      assert out + b == out;
    } else {
      assert Literals(b)[1..] == Literals(b[1..]);
      LiteralsReplay(out + [b[0]], b[1..], maxdistance);
      assert out + [b[0]] + b[1..] == out + b;
    }
  }

  lemma {:induction false} LiteralsEncode(data: seq<byte>, inpos: nat, insize: nat, ws: nat)
    requires inpos <= insize <= |data| && ws <= MAX_DISTANCE
    ensures Encodes(data, inpos, insize, Literals(data[inpos..insize]), ws)
  {
    LiteralsReplay(data[..inpos], data[inpos..insize], ws);
    assert data[..inpos] + data[inpos..insize] == data[..insize];
  }

  lemma {:induction false} LiteralsFlat(b: seq<byte>)
    ensures Flatten(Literals(b)) == b
  {
    if b != [] {
      assert Literals(b)[1..] == Literals(b[1..]);
      LiteralsFlat(b[1..]);
    }
  }

  /** The tokens of a block as a value vector: LZ77 or the plain bytes. */
  method Tokenize(hash: Hash, data: seq<byte>, datapos: nat, dataend: nat, settings: Settings)
      returns (error: nat, values: seq<nat>, ghost tokens: seq<Token>)
    requires hash.windowsize == settings.windowsize && datapos <= dataend <= |data|
    requires hash.Tracks(data, if settings.useLz77 then datapos else 0)
    modifies hash.head, hash.val, hash.chain, hash.headz, hash.chainz, hash.zeros
    ensures settings.WindowOk() ==> error == 0
    ensures !settings.WindowOk() ==> error == 60 || error == 90
    ensures error == 0 ==>
      values == Flatten(tokens) && hash.Tracks(data, if settings.useLz77 then dataend else 0) &&
      Encodes(data, datapos, dataend, tokens, if settings.useLz77 then settings.windowsize else 0)
  {
    if settings.useLz77 {
      error, values, tokens := EncodeLZ77(hash, data, datapos, dataend, settings.windowsize,
        settings.minmatch, settings.nicematch, settings.lazymatching);
    } else {
      error := 0;
      values := data[datapos..dataend];
      tokens := Literals(data[datapos..dataend]);
      LiteralsFlat(data[datapos..dataend]);
      LiteralsEncode(data, datapos, dataend, 0);
    }
  }

  // ---------------------------------------------------------------- writing tokens

  method WriteSymbol(writer: BitWriter, tree: Tree, symbol: nat, ghost ls: seq<nat>)
    requires writer.Valid() && tree.For(ls) && Codes(ls, symbol)
    modifies writer
    ensures writer.Valid() && writer.Written() == old(writer.Written()) + Codeword(ls, symbol)
  {
    writer.WriteBitsReversed(tree.alphabet.codes[symbol], tree.alphabet.lengths[symbol]);
    assert tree.alphabet.Codeword(symbol) == Codeword(ls, symbol);
  }

  method WriteLengthExtra(writer: BitWriter, index: nat, extra: nat, ghost t: Token)
    requires writer.Valid() && t.Match? && InTables(t) && index == t.code.lengthCode < 29 && extra == t.code.lengthExtra
    modifies writer
    ensures writer.Valid() && writer.Written() == old(writer.Written()) + LsbBits(extra, LengthExtra(index))
  {
    assert Pow2(1) == 2;
    writer.WriteBits(extra, LENGTHEXTRA[index]);
  }

  method WriteDistanceExtra(writer: BitWriter, index: nat, extra: nat, ghost t: Token)
    requires writer.Valid() && t.Match? && InTables(t) && index == t.code.distanceCode < 30 && extra == t.code.distanceExtra
    modifies writer
    ensures writer.Valid() && writer.Written() == old(writer.Written()) + LsbBits(extra, DistanceExtra(index))
  {
    assert Pow2(1) == 2;
    writer.WriteBits(extra, DISTANCEEXTRA[index]);
  }

  lemma {:induction false} Assoc<T>(w: seq<T>, a: seq<T>, b: seq<T>, c: seq<T>)
    ensures w + a + b + c == w + (a + (b + c)) && w + a + b == w + (a + b)
  {
  }

  /** The numbers and the distance code that follow a length code. */
  method WritePair(writer: BitWriter, lengthIndex: nat, lengthExtra: nat, distanceIndex: nat, distanceExtra: nat,
                   tree: Tree, ghost c: Coding, ghost t: Token)
    requires writer.Valid() && t.Match? && t.code == PairCode(lengthIndex, lengthExtra, distanceIndex, distanceExtra)
    requires InTables(t) && Sendable(c, t) && TreeFor(tree, c.d)
    modifies writer
    ensures writer.Valid() && writer.Written() == old(writer.Written()) + RestBits(c, t)
  {
    ghost var w := writer.Written();
    WriteLengthExtra(writer, lengthIndex, lengthExtra, t);
    WriteSymbol(writer, tree, distanceIndex, c.d);
    WriteDistanceExtra(writer, distanceIndex, distanceExtra, t);
    Assoc(w, LsbBits(lengthExtra, LengthExtra(lengthIndex)), Codeword(c.d, distanceIndex),
          LsbBits(distanceExtra, DistanceExtra(distanceIndex)));
  }

  /** Where the value vector continues with the tokens. */
  ghost predicate FlatAt(values: seq<nat>, i: nat, tokens: seq<Token>) {
    i <= |values| && values[i..] == Flatten(tokens)
  }

  lemma {:induction false} FlatNext(values: seq<nat>, i: nat, tokens: seq<Token>)
    requires FlatAt(values, i, tokens)
    ensures i < |values| <==> tokens != []
    ensures tokens != [] ==>
      EntriesAt(values, i, tokens[0]) && FlatAt(values, i + |Flat(tokens[0])|, tokens[1..])
  {
    if tokens != [] {
      var f := Flat(tokens[0]);
      assert values[i..] == f + Flatten(tokens[1..]);
      assert values[i + |f|..] == values[i..][|f|..];
      assert values[i] == values[i..][0];
      if tokens[0].Match? {
        assert values[i + 1] == values[i..][1] && values[i + 2] == values[i..][2] && values[i + 3] == values[i..][3];
      }
    }
  }

  /** The entries of the vector from i on are those of the token. */
  ghost predicate EntriesAt(values: seq<nat>, i: nat, t: Token) {
    i < |values| &&
    if t.Literal? then values[i] == t.value else
    i + 3 < |values| && values[i] == FIRST_LENGTH_CODE_INDEX + t.code.lengthCode &&
    PairCode(t.code.lengthCode, values[i + 1], values[i + 2], values[i + 3]) == t.code
  }

  method WriteToken(writer: BitWriter, values: seq<nat>, start: nat, treeLL: Tree, treeD: Tree, ghost c: Coding, ghost t: Token)
      returns (i: nat)
    requires writer.Valid() && TreeFor(treeLL, c.ll) && TreeFor(treeD, c.d) && EntriesAt(values, start, t)
    requires InTables(t) && Sendable(c, t)
    modifies writer
    ensures writer.Valid() && writer.Written() == old(writer.Written()) + TokenBits(c, t)
    ensures i == start + |Flat(t)|
  {
    i := start;
    var val := values[i];
    ghost var w := writer.Written();
    WriteSymbol(writer, treeLL, val, c.ll);
    if val > 256 {
      WritePair(writer, val - FIRST_LENGTH_CODE_INDEX, values[i + 1], values[i + 2], values[i + 3], treeD, c, t);
      Assoc(w, Codeword(c.ll, val), RestBits(c, t), []);
      i := i + 3;
    }
    i := i + 1;
  }

  /** The tokens still to be written complete the written bits to goal. */
  ghost predicate Pending(written: seq<bit>, c: Coding, rest: seq<Token>, goal: seq<bit>) {
    Codes(c.ll, END_CODE) && AllInTables(rest) && AllSendable(c, rest) && written + DataBits(c, rest) == goal
  }

  lemma {:induction false} PendingNext(written: seq<bit>, c: Coding, rest: seq<Token>, goal: seq<bit>)
    requires Pending(written, c, rest, goal)
    ensures rest == [] ==> written + Codeword(c.ll, END_CODE) == goal
    ensures rest != [] ==>
      InTables(rest[0]) && Sendable(c, rest[0]) && Pending(written + TokenBits(c, rest[0]), c, rest[1..], goal)
  {
    if rest != [] {
      Assoc(written, TokenBits(c, rest[0]), DataBits(c, rest[1..]), []);
      forall i | 0 <= i < |rest[1..]| ensures InTables(rest[1..][i]) {
        assert InTables(rest[i + 1]);
      }
    }
  }

  /** writeLZ77data. The end code is still to come. */
  method WriteLZ77Data(writer: BitWriter, values: seq<nat>, treeLL: Tree, treeD: Tree, ghost c: Coding, ghost tokens: seq<Token>)
    requires writer.Valid() && treeLL.For(c.ll) && treeD.For(c.d) && Codes(c.ll, END_CODE)
    requires values == Flatten(tokens) && AllInTables(tokens) && AllSendable(c, tokens)
    modifies writer
    ensures writer.Valid()
    ensures writer.Written() + Codeword(c.ll, END_CODE) == old(writer.Written()) + DataBits(c, tokens)
  {
    ghost var rest, goal := tokens, writer.Written() + DataBits(c, tokens);
    var i := 0;
    assert values[0..] == values;
    while i != |values|
      invariant i <= |values| && writer.Valid() && FlatAt(values, i, rest)
      invariant Pending(writer.Written(), c, rest, goal)
      decreases |values| - i
    {
      i := WriteNext(writer, values, i, treeLL, treeD, c, rest, goal);
      rest := rest[1..];
    }
    FlatNext(values, i, rest);
    PendingNext(writer.Written(), c, rest, goal);
  }

  /** The next token of the vector. */
  method WriteNext(writer: BitWriter, values: seq<nat>, i: nat, treeLL: Tree, treeD: Tree, ghost c: Coding,
                   ghost rest: seq<Token>, ghost goal: seq<bit>) returns (next: nat)
    requires writer.Valid() && treeLL.For(c.ll) && treeD.For(c.d) && i < |values| && FlatAt(values, i, rest)
    requires Pending(writer.Written(), c, rest, goal)
    modifies writer
    ensures writer.Valid() && i < next && rest != [] && FlatAt(values, next, rest[1..])
    ensures Pending(writer.Written(), c, rest[1..], goal)
  {
    FlatNext(values, i, rest);
    PendingNext(writer.Written(), c, rest, goal);
    next := WriteToken(writer, values, i, treeLL, treeD, c, rest[0]);
  }

  // ---------------------------------------------------------------- fixed blocks

  lemma {:induction false} FixedSendable(tokens: seq<Token>)
    requires AllInTables(tokens)
    ensures AllSendable(Fixed(), tokens)
    decreases |tokens|
  {
    if tokens != [] {
      assert InTables(tokens[0]);
      AllButFirst(tokens);
      FixedSendable(tokens[1..]);
    }
  }

  /** The written bits s grew by block b, which takes the output from data[..datapos] to
      data[..dataend]. */
  ghost predicate Appended(s: seq<bit>, t: seq<bit>, b: Block, data: seq<byte>, datapos: nat, dataend: nat, final: bool) {
    datapos <= dataend <= |data| && BlockOk(b, datapos) && !b.Stored? &&
    t == s + (HeadBits(TypeOf(b), final) + BodyBits(b, datapos)) && UnpackBlock(data[..datapos], b) == data[..dataend]
  }

  method WriteHead(writer: BitWriter, final: bool, fixed: bool)
    requires writer.Valid()
    modifies writer
    ensures writer.Valid() && writer.Written() == old(writer.Written()) + HeadBits(if fixed then 1 else 2, final)
  {
    ghost var w := writer.Written();
    writer.WriteBits(if final then 1 else 0, 1);
    writer.WriteBits(if fixed then 1 else 0, 1);
    writer.WriteBits(if fixed then 0 else 1, 1);
    var f: bit, g: bit := if final then 1 else 0, if fixed then 1 else 0;
    OneBit(f);
    OneBit(g);
    OneBit(1 - g);
    assert LsbBits(if fixed then 1 else 2, 2) == [g, 1 - g] by { TwoBits(if fixed then 1 else 2); }
  }

  lemma {:induction false} OneBit(v: bit)
    ensures LsbBits(v, 1) == [v]
  {
    assert LsbBits(v / 2, 0) == [];
  }

  lemma {:induction false} TwoBits(v: nat)
    requires v < 4
    ensures LsbBits(v, 2) == [v % 2, v / 2]
  {
    OneBit(v / 2);
  }

  lemma {:induction false} LiteralsStep(data: seq<byte>, i: nat, dataend: nat)
    requires i < dataend <= |data|
    ensures Literals(data[i..dataend]) != [] && Literals(data[i..dataend])[0] == Literal(data[i])
    ensures Literals(data[i..dataend])[1..] == Literals(data[i + 1..dataend])
  {
  }

  /** The literals of a fixed block without LZ77. */
  method WriteLiterals(writer: BitWriter, data: seq<byte>, datapos: nat, dataend: nat, tree: Tree, ghost c: Coding)
    requires writer.Valid() && datapos <= dataend <= |data| && tree.For(c.ll) && Codes(c.ll, END_CODE)
    requires forall b: nat :: b < 256 ==> Codes(c.ll, b)
    requires AllSendable(c, Literals(data[datapos..dataend]))
    modifies writer
    ensures writer.Valid()
    ensures writer.Written() + Codeword(c.ll, END_CODE) ==
      old(writer.Written()) + DataBits(c, Literals(data[datapos..dataend]))
  {
    ghost var goal := LiteralsPending(writer.Written(), c, data, datapos, dataend);
    WriteRest(writer, data, datapos, dataend, tree, c, goal);
    LiteralsWritten(writer.Written(), c, data, dataend, dataend, goal);
  }

  /** The tree has a code for every byte. */
  ghost predicate ForBytes(tree: Tree, c: Coding) {
    tree.For(c.ll) && forall b: nat :: b < 256 ==> Codes(c.ll, b)
  }

  method WriteRest(writer: BitWriter, data: seq<byte>, datapos: nat, dataend: nat, tree: Tree, ghost c: Coding,
                   ghost goal: seq<bit>)
    requires writer.Valid() && ForBytes(tree, c) && PendingLiterals(writer.Written(), c, data, datapos, dataend, goal)
    modifies writer
    ensures writer.Valid() && PendingLiterals(writer.Written(), c, data, dataend, dataend, goal)
  {
    var i := datapos;
    while i < dataend
      invariant datapos <= i <= dataend && writer.Valid()
      invariant PendingLiterals(writer.Written(), c, data, i, dataend, goal)
    {
      i := WriteLiteral(writer, data, i, dataend, tree, c, goal);
    }
  }

  /** The literals from i on are still to be written. */
  ghost predicate PendingLiterals(written: seq<bit>, c: Coding, data: seq<byte>, i: nat, dataend: nat, goal: seq<bit>) {
    i <= dataend <= |data| && Pending(written, c, Literals(data[i..dataend]), goal)
  }

  lemma {:induction false} LiteralsPending(written: seq<bit>, c: Coding, data: seq<byte>, datapos: nat, dataend: nat)
      returns (goal: seq<bit>)
    requires datapos <= dataend <= |data| && Codes(c.ll, END_CODE) && AllSendable(c, Literals(data[datapos..dataend]))
    ensures goal == written + DataBits(c, Literals(data[datapos..dataend]))
    ensures PendingLiterals(written, c, data, datapos, dataend, goal)
  {
    goal := written + DataBits(c, Literals(data[datapos..dataend]));
  }

  lemma {:induction false} LiteralsWritten(written: seq<bit>, c: Coding, data: seq<byte>, i: nat, dataend: nat, goal: seq<bit>)
    requires i == dataend && PendingLiterals(written, c, data, i, dataend, goal)
    ensures written + Codeword(c.ll, END_CODE) == goal
  {
    PendingNext(written, c, Literals(data[i..dataend]), goal);
  }

  method WriteLiteral(writer: BitWriter, data: seq<byte>, i: nat, dataend: nat, tree: Tree, ghost c: Coding,
                      ghost goal: seq<bit>) returns (next: nat)
    requires writer.Valid() && i < dataend <= |data| && ForBytes(tree, c)
    requires PendingLiterals(writer.Written(), c, data, i, dataend, goal)
    modifies writer
    ensures writer.Valid() && next == i + 1 && PendingLiterals(writer.Written(), c, data, next, dataend, goal)
  {
    PendingNext(writer.Written(), c, Literals(data[i..dataend]), goal);
    LiteralsStep(data, i, dataend);
    WriteSymbol(writer, tree, data[i], c.ll);
    next := i + 1;
  }

  lemma {:induction false} FixedAppended(s: seq<bit>, t: seq<bit>, tokens: seq<Token>, data: seq<byte>, datapos: nat, dataend: nat, ws: nat, final: bool)
    requires Encodes(data, datapos, dataend, tokens, ws) && AllSendable(Fixed(), tokens)
    requires t == s + HeadBits(1, final) + DataBits(Fixed(), tokens)
    ensures Appended(s, t, FixedBlock(tokens), data, datapos, dataend, final)
  {
    Assoc(s, HeadBits(1, final), DataBits(Fixed(), tokens), []);
  }

  /** Every block can be sent. */
  ghost predicate SendsAll(c: Coding) {
    Codes(c.ll, END_CODE) && (forall b: nat :: b < 256 ==> Codes(c.ll, b)) &&
    forall tokens {:trigger AllSendable(c, tokens)} :: AllInTables(tokens) ==> AllSendable(c, tokens)
  }

  lemma {:induction false} FixedSendsAll()
    ensures SendsAll(Fixed())
  {
    forall tokens | AllInTables(tokens) ensures AllSendable(Fixed(), tokens) { FixedSendable(tokens); }
  }

  /** The data of a fixed block up to the end code. */
  method WriteFixedData(writer: BitWriter, hash: Hash, data: seq<byte>, datapos: nat, dataend: nat,
                        settings: Settings, treeLL: Tree, treeD: Tree, ghost c: Coding)
      returns (error: nat, ghost tokens: seq<Token>, ghost ws: nat)
    requires writer.Valid() && hash.windowsize == settings.windowsize && datapos <= dataend <= |data|
    requires settings.useLz77 ==> hash.Tracks(data, datapos)
    requires treeLL.For(c.ll) && treeD.For(c.d) && SendsAll(c)
    modifies writer, hash.head, hash.val, hash.chain, hash.headz, hash.chainz, hash.zeros
    ensures error in {0, 60, 90} && (error == 0 <==> settings.WindowOk())
    ensures error == 0 ==> writer.Valid() && Encodes(data, datapos, dataend, tokens, ws) && AllSendable(c, tokens)
    ensures error == 0 ==> writer.Written() + Codeword(c.ll, END_CODE) == old(writer.Written()) + DataBits(c, tokens)
  {
    if settings.useLz77 {
      error, tokens := WriteCompressed(writer, hash, data, datapos, dataend, settings, treeLL, treeD, c);
      ws := settings.windowsize;
    } else {
      error, ws := 0, 0;
      tokens := WritePlain(writer, data, datapos, dataend, treeLL, c);
    }
  }

  /** With LZ77. */
  method WriteCompressed(writer: BitWriter, hash: Hash, data: seq<byte>, datapos: nat, dataend: nat,
                         settings: Settings, treeLL: Tree, treeD: Tree, ghost c: Coding)
      returns (error: nat, ghost tokens: seq<Token>)
    requires writer.Valid() && hash.windowsize == settings.windowsize && datapos <= dataend <= |data|
    requires hash.Tracks(data, datapos) && settings.useLz77
    requires treeLL.For(c.ll) && treeD.For(c.d) && SendsAll(c)
    modifies writer, hash.head, hash.val, hash.chain, hash.headz, hash.chainz, hash.zeros
    ensures error in {0, 60, 90} && (error == 0 <==> settings.WindowOk())
    ensures error == 0 ==>
      writer.Valid() && Encodes(data, datapos, dataend, tokens, settings.windowsize) && AllSendable(c, tokens)
    ensures error == 0 ==> writer.Written() + Codeword(c.ll, END_CODE) == old(writer.Written()) + DataBits(c, tokens)
  {
    var values;
    error, values, tokens := EncodeLZ77(hash, data, datapos, dataend, settings.windowsize,
      settings.minmatch, settings.nicematch, settings.lazymatching);
    if error == 0 { WriteLZ77Data(writer, values, treeLL, treeD, c, tokens); }
  }

  /** Without LZ77. */
  method WritePlain(writer: BitWriter, data: seq<byte>, datapos: nat, dataend: nat, treeLL: Tree, ghost c: Coding)
      returns (ghost tokens: seq<Token>)
    requires writer.Valid() && datapos <= dataend <= |data| && treeLL.For(c.ll) && SendsAll(c)
    modifies writer
    ensures writer.Valid() && Encodes(data, datapos, dataend, tokens, 0) && AllSendable(c, tokens)
    ensures writer.Written() + Codeword(c.ll, END_CODE) == old(writer.Written()) + DataBits(c, tokens)
  {
    tokens := Literals(data[datapos..dataend]);
    LiteralsEncode(data, datapos, dataend, 0);
    WriteLiterals(writer, data, datapos, dataend, treeLL, c);
  }

  /** A fixed block: header, data and end code. */
  method WriteFixedBlock(writer: BitWriter, hash: Hash, data: seq<byte>, datapos: nat, dataend: nat,
                         settings: Settings, final: bool, treeLL: Tree, treeD: Tree, ghost c: Coding)
      returns (error: nat, ghost tokens: seq<Token>, ghost ws: nat)
    requires writer.Valid() && hash.windowsize == settings.windowsize && datapos <= dataend <= |data|
    requires settings.useLz77 ==> hash.Tracks(data, datapos)
    requires treeLL.For(c.ll) && treeD.For(c.d) && SendsAll(c)
    modifies writer, hash.head, hash.val, hash.chain, hash.headz, hash.chainz, hash.zeros
    ensures error in {0, 60, 90} && (error == 0 <==> settings.WindowOk())
    ensures error == 0 ==> writer.Valid() && Encodes(data, datapos, dataend, tokens, ws) && AllSendable(c, tokens)
    ensures error == 0 ==>
      writer.Written() == old(writer.Written()) + HeadBits(1, final) + DataBits(c, tokens)
  {
    WriteHead(writer, final, true);
    error, tokens, ws := WriteFixedData(writer, hash, data, datapos, dataend, settings, treeLL, treeD, c);
    if error == 0 { WriteSymbol(writer, treeLL, END_CODE, c.ll); }
  }

  /** deflateFixed. */
  method DeflateFixed(writer: BitWriter, hash: Hash, data: seq<byte>, datapos: nat, dataend: nat,
                      settings: Settings, final: bool) returns (error: nat, ghost b: Block)
    requires writer.Valid() && hash.windowsize == settings.windowsize && datapos <= dataend <= |data|
    requires settings.useLz77 ==> hash.Tracks(data, datapos)
    modifies writer, hash.head, hash.val, hash.chain, hash.headz, hash.chainz, hash.zeros
    ensures error in {0, 60, 90} && (error == 0 <==> settings.WindowOk())
    ensures error == 0 ==> b.FixedBlock? && writer.Valid()
    ensures error == 0 ==> Appended(old(writer.Written()), writer.Written(), b, data, datapos, dataend, final)
  {
    ghost var c := FixedCoding();
    FixedSendsAll();
    var treeLL, treeD := FixedTrees(c);
    ghost var tokens, ws;
    error, tokens, ws := WriteFixedBlock(writer, hash, data, datapos, dataend, settings, final, treeLL, treeD, c);
    b := FixedBlock(tokens);
    if error == 0 {
      FixedAppended(old(writer.Written()), writer.Written(), tokens, data, datapos, dataend, ws, final);
    }
  }
}
