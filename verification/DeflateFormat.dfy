/** The DEFLATE format (sections 3.2.3 to 3.2.7 of RFC 1951): which bits stand for which
    blocks, and which bytes the blocks stand for. */
module DeflateFormat {
  import opened Bits
  import opened CanonicalCode
  import opened Tokens
  import opened CodeLengthRle

  /** The bits b follow in the stream s at position p. */
  ghost predicate At(s: seq<bit>, p: nat, b: seq<bit>) {
    p <= |s| && b <= s[p..]
  }

  lemma {:induction false} AtSplit(s: seq<bit>, p: nat, a: seq<bit>, b: seq<bit>)
    ensures At(s, p, a + b) <==> At(s, p, a) && At(s, p + |a|, b)
  {
    if At(s, p, a + b) {
      assert a == s[p..][..|a|];
      assert b == s[p + |a|..][..|b|];
    }
    if At(s, p, a) && At(s, p + |a|, b) {
      assert s[p..][..|a + b|] == a + b;
    }
  }

  lemma {:induction false} AtExtend(s: seq<bit>, t: seq<bit>, p: nat, b: seq<bit>)
    requires At(s, p, b) && s <= t
    ensures At(t, p, b)
  {
    assert t[p..][..|b|] == b;
  }

  // ---------------------------------------------------------------- compressed data

  const NUM_LL: nat := 288
  const NUM_D: nat := 32
  const END_CODE: nat := 256

  /** The code lengths of the two alphabets of a compressed block. */
  datatype Coding = Coding(ll: seq<nat>, d: seq<nat>)

  ghost predicate Codes(ls: seq<nat>, i: nat) { i < |ls| && ls[i] > 0 }

  /** The token has codes. */
  ghost predicate Sendable(c: Coding, t: Token) {
    match t
    case Literal(value) => Codes(c.ll, value)
    case Match(_, _, m) =>
      Codes(c.ll, FIRST_LENGTH_CODE_INDEX + m.lengthCode) && Codes(c.d, m.distanceCode) &&
      m.lengthCode < 29 && m.distanceCode < 30
  }

  /** The decoder reads distance code and extra bits through one 32-bit look-ahead, of which
      the bits below 31 minus the position in the byte are reliable. The token starts at p. */
  ghost predicate Readable(c: Coding, t: Token, p: nat)
    requires Sendable(c, t)
  {
    t.Match? ==> DistanceFits(c, t, p + c.ll[FIRST_LENGTH_CODE_INDEX + t.code.lengthCode])
  }

  /** The same for a match whose length code ends at q. */
  ghost predicate DistanceFits(c: Coding, t: Token, q: nat)
    requires t.Match? && Sendable(c, t)
  {
    c.d[t.code.distanceCode] + DistanceExtra(t.code.distanceCode) <= Reliable(q + LengthExtra(t.code.lengthCode))
  }

  /** How many bits from p on can be read. */
  function Reliable(p: nat): (r: nat)
    ensures 24 <= r <= 31
  {
    31 - p % 8
  }

  function LengthExtra(i: nat): nat
    requires i < 29
  {
    LENGTHEXTRA[i]
  }

  function DistanceExtra(i: nat): nat
    requires i < 30
  {
    DISTANCEEXTRA[i]
  }

  /** What follows the length code of a match. */
  ghost function RestBits(c: Coding, t: Token): (r: seq<bit>)
    requires t.Match? && Sendable(c, t)
  {
    LsbBits(t.code.lengthExtra, LengthExtra(t.code.lengthCode)) +
    (Codeword(c.d, t.code.distanceCode) + LsbBits(t.code.distanceExtra, DistanceExtra(t.code.distanceCode)))
  }

  ghost function TokenBits(c: Coding, t: Token): seq<bit>
    requires Sendable(c, t)
  {
    match t
    case Literal(value) => Codeword(c.ll, value)
    case Match(_, _, m) => Codeword(c.ll, FIRST_LENGTH_CODE_INDEX + m.lengthCode) + RestBits(c, t)
  }

  ghost function TokenSize(c: Coding, t: Token): nat
    requires Sendable(c, t)
  {
    match t
    case Literal(value) => c.ll[value]
    case Match(_, _, m) =>
      c.ll[FIRST_LENGTH_CODE_INDEX + m.lengthCode] + LengthExtra(m.lengthCode) + c.d[m.distanceCode] + DistanceExtra(m.distanceCode)
  }

  lemma {:induction false} TokenSizeIs(c: Coding, t: Token)
    requires Sendable(c, t)
    ensures |TokenBits(c, t)| == TokenSize(c, t)
  {
  }

  ghost predicate AllSendable(c: Coding, tokens: seq<Token>) {
    tokens == [] || (Sendable(c, tokens[0]) && AllSendable(c, tokens[1..]))
  }

  ghost predicate AllReadable(c: Coding, tokens: seq<Token>, p: nat)
    requires AllSendable(c, tokens)
    decreases tokens
  {
    tokens == [] || (Readable(c, tokens[0], p) && AllReadable(c, tokens[1..], p + TokenSize(c, tokens[0])))
  }

  /** The tokens and the end code. */
  ghost function DataBits(c: Coding, tokens: seq<Token>): seq<bit>
    requires AllSendable(c, tokens) && Codes(c.ll, END_CODE)
  {
    if tokens == [] then Codeword(c.ll, END_CODE) else TokenBits(c, tokens[0]) + DataBits(c, tokens[1..])
  }

  lemma {:induction false} ReadableCons(c: Coding, tokens: seq<Token>, p: nat, rest: seq<Token>, q: nat)
    requires tokens != [] && AllSendable(c, tokens) && rest == tokens[1..] && q == p + TokenSize(c, tokens[0])
    ensures AllReadable(c, tokens, p) <==> Readable(c, tokens[0], p) && AllReadable(c, rest, q)
  {
  }

  /** AllReadable, for use in longer conditions. */
  ghost predicate ReadableFrom(c: Coding, tokens: seq<Token>, p: nat) {
    AllSendable(c, tokens) && forall q: nat {:trigger AllReadable(c, tokens, q)} :: q == p ==> AllReadable(c, tokens, q)
  }

  // ---------------------------------------------------------------- fixed codes

  function FixedLength(i: nat): nat {
    if i < 144 then 8 else if i < 256 then 9 else if i < 280 then 7 else 8
  }

  function FixedLL(): (ls: seq<nat>)
    ensures |ls| == NUM_LL && forall i :: 0 <= i < NUM_LL ==> ls[i] == FixedLength(i)
  {
    seq(NUM_LL, i requires 0 <= i => FixedLength(i))
  }

  function FixedD(): (ls: seq<nat>)
    ensures |ls| == NUM_D && forall i :: 0 <= i < NUM_D ==> ls[i] == 5
  {
    seq(NUM_D, i => 5)
  }

  function Fixed(): Coding { Coding(FixedLL(), FixedD()) }

  /** The coding is the fixed one. */
  ghost predicate IsFixed(c: Coding) {
    |c.ll| == NUM_LL && (forall i :: 0 <= i < NUM_LL ==> c.ll[i] == FixedLength(i)) &&
    |c.d| == NUM_D && forall i :: 0 <= i < NUM_D ==> c.d[i] == 5
  }

  lemma {:induction false} FixedCoding() returns (c: Coding)
    ensures IsFixed(c) && c == Fixed()
  {
    c := Fixed();
  }

  lemma {:induction false} FixedIs(c: Coding)
    requires IsFixed(c)
    ensures c == Fixed()
  {
    assert c.ll == FixedLL();
    assert c.d == FixedD();
  }

  lemma {:induction false} KraftRange(ls: seq<nat>, maxbits: nat, a: nat, b: nat, l: nat)
    requires a <= b <= |ls| && Bounded(ls, maxbits) && 0 < l <= maxbits
    requires forall i :: a <= i < b ==> ls[i] == l
    ensures Kraft(ls, maxbits, b) == Kraft(ls, maxbits, a) + Shl(b - a, maxbits - l)
    decreases b
  {
    if a == b {
      ShlIsMul(0, maxbits - l);
    } else {
      KraftRange(ls, maxbits, a, b - 1, l);
      ShlAdd(b - 1 - a, 1, maxbits - l);
      ShlPow2(0, maxbits - l);
    }
  }

  lemma {:induction false} KraftRun(ls: seq<nat>, maxbits: nat, a: nat, b: nat, l: nat, w: nat)
    requires a <= b <= |ls| && Bounded(ls, maxbits) && 0 < l <= maxbits && w == Pow2(maxbits - l)
    requires forall i :: a <= i < b ==> ls[i] == l
    ensures Kraft(ls, maxbits, b) == Kraft(ls, maxbits, a) + (b - a) * w
  {
    KraftRange(ls, maxbits, a, b, l);
    ShlIsMul(b - a, maxbits - l);
  }

  lemma {:induction false} FixedKraft(ls: seq<nat>)
    requires |ls| == NUM_LL && forall i :: 0 <= i < NUM_LL ==> ls[i] == FixedLength(i)
    ensures Complete(ls, 15)
  {
    Pow2Values();
    KraftRun(ls, 15, 0, 144, 8, 128);
    KraftRun(ls, 15, 144, 256, 9, 64);
    KraftRun(ls, 15, 256, 280, 7, 256);
    KraftRun(ls, 15, 280, 288, 8, 128);
  }

  lemma {:induction false} FixedKraftD(ls: seq<nat>)
    requires |ls| == NUM_D && forall i :: 0 <= i < NUM_D ==> ls[i] == 5
    ensures Complete(ls, 15)
  {
    Pow2Values();
    KraftRun(ls, 15, 0, 32, 5, 1024);
  }

  lemma {:induction false} FixedComplete()
    ensures Complete(FixedLL(), 15) && Complete(FixedD(), 15)
  {
    FixedKraft(FixedLL());
    FixedKraftD(FixedD());
  }

  // ---------------------------------------------------------------- dynamic codes

  const NUM_CL: nat := 19
  const CLCL_ORDER: seq<nat> := [16, 17, 18, 0, 8, 7, 9, 6, 10, 5, 11, 4, 12, 3, 13, 2, 14, 1, 15]

  /** The code length symbol whose length comes i-th. */
  function Order(i: nat): (r: nat)
    requires i < NUM_CL
    ensures r < NUM_CL
  {
    CLCL_ORDER[i]
  }

  /** The description of the two codes of a dynamic block: how many lengths there are, the
      lengths of the code length code, and the code lengths in run-length form. */
  datatype Header = Header(hlit: nat, hdist: nat, hclen: nat, cl: seq<nat>, symbols: seq<LengthSymbol>) {
    ghost predicate Ok() {
      257 <= hlit <= NUM_LL && 1 <= hdist <= NUM_D && 4 <= hclen <= NUM_CL &&
      |cl| == NUM_CL && CanDecode(cl, 7) && (forall i: nat :: hclen <= i < NUM_CL ==> cl[Order(i)] == 0) &&
      Expandable([], symbols) && |Expand([], symbols)| == hlit + hdist && AllCoded(cl, symbols) &&
      CanDecode(LL(), 15) && CanDecode(D(), 15) && Codes(LL(), END_CODE)
    }

    ghost function LL(): seq<nat>
      requires Expandable([], symbols) && |Expand([], symbols)| == hlit + hdist
    {
      Expand([], symbols)[..hlit]
    }

    ghost function D(): seq<nat>
      requires Expandable([], symbols) && |Expand([], symbols)| == hlit + hdist
    {
      Expand([], symbols)[hlit..]
    }
  }

  ghost predicate AllCoded(cl: seq<nat>, symbols: seq<LengthSymbol>) {
    symbols == [] || (symbols[0].Ok() && Codes(cl, symbols[0].Code()) && AllCoded(cl, symbols[1..]))
  }

  ghost function SymbolBits(cl: seq<nat>, s: LengthSymbol): seq<bit>
    requires s.Ok() && Codes(cl, s.Code())
  {
    Codeword(cl, s.Code()) + LsbBits(s.Extra(), s.ExtraBits())
  }

  ghost function SymbolsBits(cl: seq<nat>, symbols: seq<LengthSymbol>): seq<bit>
    requires AllCoded(cl, symbols)
  {
    if symbols == [] then [] else SymbolBits(cl, symbols[0]) + SymbolsBits(cl, symbols[1..])
  }

  /** The lengths of the code length code from the i-th to the n-th. */
  ghost function OrderedBits(cl: seq<nat>, i: nat, n: nat): (r: seq<bit>)
    requires i <= n <= NUM_CL && |cl| == NUM_CL
    ensures |r| == 3 * (n - i)
    decreases n - i, cl
  {
    if i == n then [] else LsbBits(cl[Order(i)], 3) + OrderedBits(cl, i + 1, n)
  }

  /** HLIT, HDIST and HCLEN. */
  ghost function CountBits(hlit: nat, hdist: nat, hclen: nat): (r: seq<bit>)
    ensures |r| == 14
  {
    LsbBits(hlit, 5) + (LsbBits(hdist, 5) + LsbBits(hclen, 4))
  }

  /** The code length code and the run-length form of the code lengths. */
  ghost function LengthsBits(cl: seq<nat>, n: nat, symbols: seq<LengthSymbol>): seq<bit>
    requires n <= NUM_CL == |cl| && AllCoded(cl, symbols)
  {
    OrderedBits(cl, 0, n) + SymbolsBits(cl, symbols)
  }

  /** The three counts less their least values, and what they count. */
  ghost function DescriptionBits(hlit: nat, hdist: nat, n: nat, cl: seq<nat>, symbols: seq<LengthSymbol>): seq<bit>
    requires 4 <= n <= NUM_CL == |cl| && AllCoded(cl, symbols)
  {
    CountBits(hlit, hdist, n - 4) + LengthsBits(cl, n, symbols)
  }

  ghost function HeaderBits(h: Header): seq<bit>
    requires h.Ok()
  {
    DescriptionBits(h.hlit - 257, h.hdist - 1, h.hclen, h.cl, h.symbols)
  }

  // ---------------------------------------------------------------- blocks

  datatype Block =
    | Stored(data: seq<byte>)
    | FixedBlock(tokens: seq<Token>)
    | DynamicBlock(header: Header, tokens: seq<Token>)

  function RoundUp(p: nat): (r: nat)
    ensures p <= r < p + 8 && r % 8 == 0
  {
    8 * ((p + 7) / 8)
  }

  /** There are bits for the block. */
  ghost predicate BlockShape(b: Block) {
    match b
    case Stored(data) => |data| < 65536
    case FixedBlock(tokens) => AllInTables(tokens) && AllSendable(Fixed(), tokens)
    case DynamicBlock(h, tokens) => AllInTables(tokens) && h.Ok() && AllSendable(Coding(h.LL(), h.D()), tokens)
  }

  /** It does not reach back before the start of the output, of which pos bytes came before. */
  ghost predicate BlockOk(b: Block, pos: nat) {
    BlockShape(b) &&
    match b
    case Stored(data) => true
    case FixedBlock(tokens) => TokensOk(tokens, pos, MAX_DISTANCE)
    case DynamicBlock(h, tokens) => TokensOk(tokens, pos, MAX_DISTANCE)
  }

  /** The body of the block starts at p. */
  ghost predicate BlockReadable(b: Block, pos: nat, p: nat)
    requires BlockShape(b)
  {
    b.DynamicBlock? ==> ReadableFrom(Coding(b.header.LL(), b.header.D()), b.tokens, p + |HeaderBits(b.header)|)
  }

  /** Length, its complement, and the data of a stored block. */
  function StoredBytes(data: seq<byte>): seq<byte>
    requires |data| < 65536
  {
    var len, nlen := |data|, 65535 - |data|;
    [len % 256, len / 256, nlen % 256, nlen / 256] + data
  }

  /** BTYPE. */
  function TypeOf(b: Block): (t: nat)
    ensures t < 3
  {
    if b.Stored? then 0 else if b.FixedBlock? then 1 else 2
  }

  /** BFINAL and BTYPE. */
  function HeadBits(btype: nat, final: bool): (r: seq<bit>)
    ensures |r| == 3
  {
    [if final then 1 else 0] + LsbBits(btype, 2)
  }

  /** Where the body of a block starts if the block starts at p. */
  function BodyStart(p: nat, b: Block): nat {
    if b.Stored? then RoundUp(p + 3) else p + 3
  }

  ghost function BodyBits(b: Block, pos: nat): seq<bit>
    requires BlockShape(b)
  {
    match b
    case Stored(data) => StreamBits(StoredBytes(data))
    case FixedBlock(tokens) => DataBits(Fixed(), tokens)
    case DynamicBlock(h, tokens) => HeaderBits(h) + DataBits(Coding(h.LL(), h.D()), tokens)
  }

  /** The block stands in the stream s at position p, when pos bytes came before it. */
  ghost predicate BlockAt(s: seq<bit>, p: nat, b: Block, pos: nat, final: bool) {
    BlockOk(b, pos) && At(s, p, HeadBits(TypeOf(b), final)) && At(s, BodyStart(p, b), BodyBits(b, pos))
  }

  ghost function BlockEnd(p: nat, b: Block, pos: nat): nat
    requires BlockShape(b)
  {
    BodyStart(p, b) + |BodyBits(b, pos)|
  }

  /** The output length after a block. */
  ghost function BlockPos(b: Block, pos: nat): nat {
    match b
    case Stored(data) => pos + |data|
    case FixedBlock(tokens) => End(pos, tokens)
    case DynamicBlock(_, tokens) => End(pos, tokens)
  }

  /** What a decoder that has written out writes for the block. */
  ghost function UnpackBlock(out: seq<byte>, b: Block): (r: seq<byte>)
    requires BlockOk(b, |out|)
    ensures |r| == BlockPos(b, |out|)
  {
    match b
    case Stored(data) => out + data
    case FixedBlock(tokens) => ReplayEnd(out, tokens); Replay(out, tokens)
    case DynamicBlock(_, tokens) => ReplayEnd(out, tokens); Replay(out, tokens)
  }

  /** The blocks stand in the stream s from p to stop, the last one marked final if final, and
      take the output of a decoder from out to goal. If readable, the distances are such that
      the decoder can read them. */
  ghost predicate BlocksStand(s: seq<bit>, p: nat, blocks: seq<Block>, out: seq<byte>, goal: seq<byte>, stop: nat,
                              final: bool, readable: bool)
    decreases |blocks|
  {
    if blocks == [] then out == goal && p == stop else
    BlockAt(s, p, blocks[0], |out|, final && |blocks| == 1) && (readable ==> BlockReadable(blocks[0], |out|, BodyStart(p, blocks[0]))) &&
    BlocksStand(s, BlockEnd(p, blocks[0], |out|), blocks[1..], UnpackBlock(out, blocks[0]), goal, stop, final, readable)
  }

  lemma {:induction false} BlockExtend(s: seq<bit>, t: seq<bit>, p: nat, b: Block, pos: nat, final: bool)
    requires BlockAt(s, p, b, pos, final) && s <= t
    ensures BlockAt(t, p, b, pos, final)
  {
    AtExtend(s, t, p, HeadBits(TypeOf(b), final));
    AtExtend(s, t, BodyStart(p, b), BodyBits(b, pos));
  }

  lemma {:induction false} BlocksExtend(s: seq<bit>, t: seq<bit>, p: nat, blocks: seq<Block>, out: seq<byte>, goal: seq<byte>,
                                        stop: nat, final: bool, readable: bool)
    requires BlocksStand(s, p, blocks, out, goal, stop, final, readable) && s <= t
    ensures BlocksStand(t, p, blocks, out, goal, stop, final, readable)
    decreases |blocks|
  {
    if blocks != [] {
      BlockExtend(s, t, p, blocks[0], |out|, final && |blocks| == 1);
      BlocksExtend(s, t, BlockEnd(p, blocks[0], |out|), blocks[1..], UnpackBlock(out, blocks[0]), goal, stop, final, readable);
    }
  }

  lemma {:induction false} OneBlock(t: seq<bit>, p: nat, b: Block, out: seq<byte>, final: bool, readable: bool)
    requires BlockAt(t, p, b, |out|, final) && (readable ==> BlockReadable(b, |out|, BodyStart(p, b)))
    ensures BlocksStand(t, p, [b], out, UnpackBlock(out, b), BlockEnd(p, b, |out|), final, readable)
  {
    NoBlocks(t, BlockEnd(p, b, |out|), [b][1..], UnpackBlock(out, b), final, readable);
  }

  lemma {:induction false} NoBlocks(s: seq<bit>, p: nat, blocks: seq<Block>, out: seq<byte>, final: bool, readable: bool)
    requires |blocks| == 0
    ensures BlocksStand(s, p, blocks, out, out, p, final, readable)
  {
  }

  lemma {:induction false} MoreBlocks(s: seq<bit>, p: nat, all: seq<Block>, rest: seq<Block>, out: seq<byte>, goal: seq<byte>,
                                      stop: nat, final: bool, readable: bool)
    requires |all| > 1 && rest == all[1..]
    requires BlockAt(s, p, all[0], |out|, false) && (readable ==> BlockReadable(all[0], |out|, BodyStart(p, all[0])))
    requires BlocksStand(s, BlockEnd(p, all[0], |out|), rest, UnpackBlock(out, all[0]), goal, stop, final, readable)
    ensures BlocksStand(s, p, all, out, goal, stop, final, readable)
  {
  }

  lemma {:induction false} FirstBlock(s: seq<bit>, p: nat, blocks: seq<Block>, out: seq<byte>, goal: seq<byte>,
                                      stop: nat, readable: bool)
    requires BlocksStand(s, p, blocks, out, goal, stop, false, readable) && blocks != []
    ensures BlockAt(s, p, blocks[0], |out|, false) && (readable ==> BlockReadable(blocks[0], |out|, BodyStart(p, blocks[0])))
    ensures BlocksStand(s, BlockEnd(p, blocks[0], |out|), blocks[1..], UnpackBlock(out, blocks[0]), goal, stop, false, readable)
  {
  }

  lemma {:induction false} TailConcat<T>(a: seq<T>, b: seq<T>)
    requires a != []
    ensures (a + b)[1..] == a[1..] + b && (a + b)[0] == a[0]
  {
  }

  /** A block that is written after the others. */
  lemma {:induction false} OneMoreBlock(s: seq<bit>, t: seq<bit>, p: nat, blocks: seq<Block>, out: seq<byte>, goal: seq<byte>,
                                        stop: nat, b: Block, final: bool, readable: bool)
    requires BlocksStand(s, p, blocks, out, goal, stop, false, readable) && s <= t
    requires BlockAt(t, stop, b, |goal|, final) && (readable ==> BlockReadable(b, |goal|, BodyStart(stop, b)))
    ensures BlocksStand(t, p, blocks + [b], out, UnpackBlock(goal, b), BlockEnd(stop, b, |goal|), final, readable)
    decreases |blocks|
  {
    if blocks == [] {
      assert blocks + [b] == [b];
      OneBlock(t, p, b, out, final, readable);
    } else {
      FirstBlock(s, p, blocks, out, goal, stop, readable);
      BlockExtend(s, t, p, blocks[0], |out|, false);
      var q, next := BlockEnd(p, blocks[0], |out|), UnpackBlock(out, blocks[0]);
      OneMoreBlock(s, t, q, blocks[1..], next, goal, stop, b, final, readable);
      TailConcat(blocks, [b]);
      MoreBlocks(t, p, blocks + [b], blocks[1..] + [b], out, UnpackBlock(goal, b), BlockEnd(stop, b, |goal|), final, readable);
    }
  }
}
