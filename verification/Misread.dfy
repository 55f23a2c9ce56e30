/** A stream that the decoder misreads: a distance code of twelve bits with thirteen extra bits,
    which starts at the last bit of a byte. */
module Misread {
  import opened Bits
  import opened BitStream
  import opened CanonicalCode
  import opened Tokens
  import opened CodeLengthRle
  import opened DeflateFormat
  import opened LookAhead
  import opened ReadSymbols

  // ---------------------------------------------------------------- codes

  /** Four symbols with two bits each. */
  ghost predicate IsLL(ls: seq<nat>) {
    |ls| == 286 && forall i :: 0 <= i < 286 ==> ls[i] == if i == 0 || i == 256 || i == 257 || i == 285 then 2 else 0
  }

  /** Lengths 1 to 11 and twice 12. */
  ghost predicate IsD(ls: seq<nat>) {
    |ls| == 30 && forall i :: 0 <= i < 30 ==> ls[i] == if i <= 10 then i + 1 else if i >= 28 then 12 else 0
  }

  /** Sixteen code lengths with four bits each. */
  ghost predicate IsCL(ls: seq<nat>) {
    |ls| == NUM_CL && forall i :: 0 <= i < NUM_CL ==> ls[i] == if i < 16 then 4 else 0
  }

  lemma {:induction false} KraftZeros(ls: seq<nat>, maxbits: nat, a: nat, b: nat)
    requires a <= b <= |ls| && Bounded(ls, maxbits) && forall i :: a <= i < b ==> ls[i] == 0
    ensures Kraft(ls, maxbits, b) == Kraft(ls, maxbits, a)
    decreases b
  {
    if a < b { KraftZeros(ls, maxbits, a, b - 1); }
  }

  lemma {:induction false} CompleteLL(ls: seq<nat>)
    requires IsLL(ls)
    ensures Complete(ls, 15)
  {
    Pow2Values();
    KraftRun(ls, 15, 0, 1, 2, 8192);
    KraftZeros(ls, 15, 1, 256);
    KraftRun(ls, 15, 256, 258, 2, 8192);
    KraftZeros(ls, 15, 258, 285);
    KraftRun(ls, 15, 285, 286, 2, 8192);
  }

  lemma {:induction false} KraftChain(ls: seq<nat>, k: nat)
    requires IsD(ls) && k <= 11
    ensures Bounded(ls, 15) && Kraft(ls, 15, k) + Pow2(15 - k) == Pow2(15)
  {
    if k > 0 { KraftChain(ls, k - 1); }
  }

  lemma {:induction false} CompleteD(ls: seq<nat>)
    requires IsD(ls)
    ensures Complete(ls, 15)
  {
    Pow2Values();
    KraftChain(ls, 11);
    KraftZeros(ls, 15, 11, 28);
    KraftRun(ls, 15, 28, 30, 12, 8);
  }

  lemma {:induction false} CompleteCL(ls: seq<nat>)
    requires IsCL(ls)
    ensures Complete(ls, 7)
  {
    Pow2Values();
    KraftRun(ls, 7, 0, 16, 4, 8);
    KraftZeros(ls, 7, 16, 19);
  }

  lemma {:induction false} CountNone(ls: seq<nat>, l: nat, a: nat, b: nat)
    requires a <= b <= |ls| && forall i :: a <= i < b ==> ls[i] != l
    ensures CountLen(ls, l, b) == CountLen(ls, l, a)
    decreases b
  {
    if a < b { CountNone(ls, l, a, b - 1); }
  }

  /** The last of the four codewords begins with a one. */
  lemma {:induction false} LastCodeword(ls: seq<nat>)
    requires IsLL(ls)
    ensures Codeword(ls, 285)[0] == 1
  {
    CountNone(ls, 1, 0, 286);
    CountNone(ls, 2, 1, 256);
    CountNone(ls, 2, 258, 285);
    assert CountLen(ls, 2, 1) == 1;
    assert CountLen(ls, 2, 257) == 2;
    assert CountLen(ls, 2, 258) == 3;
    assert CountLen(ls, 1, 0) == 0;
    assert FirstCode(ls, 2) == 2 * (FirstCode(ls, 1) + CountLen(ls, 1, 286)) == 0;
    assert Code(ls, 285) == 3;
    MsbBitsAt(3, 2, 0);
    assert Shr(3, 1) == Shr(1, 0);
  }

  // ---------------------------------------------------------------- header

  /** The code lengths one by one. */
  function Plain(ls: seq<nat>): (r: seq<LengthSymbol>)
    ensures |r| == |ls|
  {
    if ls == [] then [] else [Length(ls[0])] + Plain(ls[1..])
  }

  lemma {:induction false} PlainExpands(prefix: seq<nat>, ls: seq<nat>)
    requires Bounded(ls, 15)
    ensures Expandable(prefix, Plain(ls)) && Expand(prefix, Plain(ls)) == prefix + ls
    decreases |ls|
  {
    if ls == [] {
      assert prefix + ls == prefix;
    } else {
      PlainExpands(prefix + [ls[0]], ls[1..]);
      TailConcat([Length(ls[0])], Plain(ls[1..]));
      assert prefix + [ls[0]] + ls[1..] == prefix + ls;
    }
  }

  lemma {:induction false} PlainCoded(cl: seq<nat>, ls: seq<nat>)
    requires IsCL(cl) && Bounded(ls, 15)
    ensures AllCoded(cl, Plain(ls)) && |SymbolsBits(cl, Plain(ls))| == 4 * |ls|
    decreases |ls|
  {
    if ls != [] {
      PlainCoded(cl, ls[1..]);
      TailConcat([Length(ls[0])], Plain(ls[1..]));
    }
  }

  lemma {:induction false} SomeHeader() returns (h: Header)
    ensures h.Ok() && IsLL(h.LL()) && IsD(h.D()) && |HeaderBits(h)| == 1335
  {
    var ll := seq(286, i => if i == 0 || i == 256 || i == 257 || i == 285 then 2 else 0);
    var d := seq(30, i requires i >= 0 => if i <= 10 then i + 1 else if i >= 28 then 12 else 0);
    var cl := seq(NUM_CL, i => if i < 16 then 4 else 0);
    h := HeaderOf(ll, d, cl);
  }

  lemma {:induction false} HeaderOf(ll: seq<nat>, d: seq<nat>, cl: seq<nat>) returns (h: Header)
    requires IsLL(ll) && IsD(d) && IsCL(cl)
    ensures h.Ok() && IsLL(h.LL()) && IsD(h.D()) && |HeaderBits(h)| == 1335
  {
    CompleteLL(ll);
    CompleteD(d);
    CompleteCL(cl);
    PlainExpands([], ll + d);
    PlainCoded(cl, ll + d);
    h := Header(286, 30, NUM_CL, cl, Plain(ll + d));
    assert [] + (ll + d) == ll + d;
    assert (ll + d)[..286] == ll && (ll + d)[286..] == d;
  }

  // ---------------------------------------------------------------- tokens

  /** The token n times, and the rest. */
  function Times(t: Token, n: nat, rest: seq<Token>): (r: seq<Token>)
    ensures |r| == n + |rest|
  {
    if n == 0 then rest else [t] + Times(t, n - 1, rest)
  }

  /** A token that the coding has codes for and that may stand at pos. */
  ghost predicate Usable(c: Coding, t: Token, pos: nat) {
    Sendable(c, t) && InTables(t) && TokenOk(t, pos, MAX_DISTANCE)
  }

  /** Tokens that the coding has codes for and that may start at pos. */
  ghost predicate AllUsable(c: Coding, tokens: seq<Token>, pos: nat) {
    AllSendable(c, tokens) && AllInTables(tokens) && TokensOk(tokens, pos, MAX_DISTANCE)
  }

  lemma {:induction false} UsableCons(c: Coding, t: Token, rest: seq<Token>, pos: nat, next: nat)
    requires Usable(c, t, pos) && AllUsable(c, rest, next) && next == pos + t.Size()
    ensures AllUsable(c, [t] + rest, pos)
  {
    TailConcat([t], rest);
    assert [t][1..] + rest == rest;
    forall i | 0 <= i < |[t] + rest| ensures InTables(([t] + rest)[i]) {
      if i > 0 { assert InTables(rest[i - 1]); }
    }
  }

  lemma {:induction false} TimesUsable(c: Coding, t: Token, n: nat, rest: seq<Token>, pos: nat, end: nat)
    requires Usable(c, t, pos) && AllUsable(c, rest, end) && end == pos + n * t.Size()
    ensures AllUsable(c, Times(t, n, rest), pos)
    decreases n
  {
    if n > 0 {
      var next := pos + t.Size();
      Distribute(n, t.Size());
      UsableLater(c, t, pos, next);
      TimesUsable(c, t, n - 1, rest, next, end);
      UsableCons(c, t, Times(t, n - 1, rest), pos, next);
    }
  }

  lemma {:induction false} UsableLater(c: Coding, t: Token, pos: nat, next: nat)
    requires Usable(c, t, pos) && pos <= next
    ensures Usable(c, t, next)
  {
  }

  lemma {:induction false} Distribute(n: nat, x: nat)
    requires n > 0
    ensures n * x == x + (n - 1) * x
  {
  }

  /** The tokens stand at p and all are read right. */
  ghost predicate ReadRight(data: seq<byte>, c: Coding, tokens: seq<Token>, p: nat, out: seq<byte>) {
    AllSendable(c, tokens) && TokensOk(tokens, |out|, MAX_DISTANCE) && Codes(c.ll, END_CODE) &&
    At(StreamBits(data), p, DataBits(c, tokens)) && RightFrom(data, c, tokens, p, out)
  }

  lemma {:induction false} ReadTail(data: seq<byte>, c: Coding, tokens: seq<Token>, p: nat, out: seq<byte>,
                                    rest: seq<Token>, q: nat, next: seq<byte>)
    requires ReadRight(data, c, tokens, p, out) && tokens != [] && rest == tokens[1..]
    requires q == p + TokenSize(c, tokens[0]) && next == Apply(out, tokens[0])
    ensures ReadRight(data, c, rest, q, next) && Right(data, c, tokens[0], p, out)
  {
    AtSplit(StreamBits(data), p, TokenBits(c, tokens[0]), DataBits(c, rest));
    TokenSizeIs(c, tokens[0]);
    RightFromCons(data, c, tokens, p, out, rest, q, next);
  }

  lemma {:induction false} TimesRead(data: seq<byte>, c: Coding, t: Token, n: nat, rest: seq<Token>, p: nat, out: seq<byte>)
      returns (q: nat, next: seq<byte>)
    requires Sendable(c, t) && ReadRight(data, c, Times(t, n, rest), p, out)
    ensures q == p + n * TokenSize(c, t) && |next| == |out| + n * t.Size() && ReadRight(data, c, rest, q, next)
    decreases n
  {
    q, next := p, out;
    if n > 0 {
      var tail := Times(t, n - 1, rest);
      TimesTail(t, n, rest, tail);
      var p1, out1 := p + TokenSize(c, t), Apply(out, t);
      ReadTail(data, c, Times(t, n, rest), p, out, tail, p1, out1);
      q, next := TimesRead(data, c, t, n - 1, rest, p1, out1);
      OneMore(p, p1, q, n, TokenSize(c, t));
      OneMore(|out|, |out1|, |next|, n, t.Size());
    }
  }

  lemma {:induction false} OneMore(a: nat, b: nat, c: nat, n: nat, x: nat)
    requires n > 0 && b == a + x && c == b + (n - 1) * x
    ensures c == a + n * x
  {
    Distribute(n, x);
  }

  lemma {:induction false} TimesTail(t: Token, n: nat, rest: seq<Token>, tail: seq<Token>)
    requires n > 0 && tail == Times(t, n - 1, rest)
    ensures Times(t, n, rest)[0] == t && Times(t, n, rest)[1..] == tail
  {
  }

  // ---------------------------------------------------------------- the match that is misread

  function Far(): Token { Match(3, 16385, PairCode(0, 0, 28, 0)) }

  function Again(): Token { Match(258, 1, PairCode(28, 0, 0, 0)) }

  /** Bit 12 of the distance is zero, and the bit after the distance, which is seen in its
      place, is one. So the distance that is read is at least 4096 too long. */
  lemma {:induction false} FarSeen(data: seq<byte>, p: nat, word: seq<bit>, end: seq<bit>, l: nat, n: nat)
    requires p % 8 == 7 && |word| == l == 12 && n == 13 && end != [] && end[0] == 1 && p / 8 + 4 < |data|
    requires At(StreamBits(data), p, word + LsbBits(0, n) + end)
    ensures Seen(data, p, l, n) >= 4096
  {
    var s := StreamBits(data);
    AtSplit(s, p, word + LsbBits(0, n), end);
    AtSplit(s, p, word, LsbBits(0, n));
    ZeroExtra(s, p + l, n);
    OneFollows(s, p + l + n, end);
    SeenExact(data, p, l, n, l + n - 1, 1);
    SeenRight(data, p, l, n - 1);
    LowLow(Shr(LookAhead32(data, p), l), n - 1, n);
    HighBitOnly(Seen(data, p, l, n), n - 1);
  }

  lemma {:induction false} HighBitOnly(x: nat, n: nat)
    requires x != 0 && Low(x, n) == 0 && n == 12
    ensures x >= 4096
  {
    Pow2Values();
    if x < Pow2(n) { LowSmall(x, n); }
  }

  lemma {:induction false} ZeroExtra(s: seq<bit>, p: nat, n: nat)
    requires n > 0 && At(s, p, LsbBits(0, n))
    ensures Window(s, p, n) == 0 && Window(s, p, n - 1) == 0 && Window(s, p + n - 1, 1) == 0
  {
    NumberAt(s, p, 0, n);
    WindowPrefix(s, p, n - 1, n);
    WindowDrop(s, p, n - 1, n);
    LowZero(n - 1);
  }

  lemma {:induction false} OneFollows(s: seq<bit>, p: nat, end: seq<bit>)
    requires p > 0 && At(s, p, end) && end != [] && end[0] == 1 && Window(s, p - 1, 1) == 0
    ensures Window(s, p, 1) == 1 && Window(s, p - 1, 2) == 2 && Pow2(2) == 4
  {
    assert s[p] == s[p..][0] == 1;
    assert Window(s, p + 1, 0) == 0;
    assert Window(s, p, 0) == 0;
    Pow2Values();
  }

  /** The coding of the header, and the two matches. */
  ghost predicate IsCoding(c: Coding) {
    IsLL(c.ll) && IsD(c.d)
  }

  lemma {:induction false} FarUsable(c: Coding, pos: nat)
    requires IsCoding(c) && pos >= 16385
    ensures Usable(c, Far(), pos) && TokenSize(c, Far()) == 27
  {
    Pow2Values();
  }

  lemma {:induction false} AgainUsable(c: Coding, pos: nat)
    requires IsCoding(c) && pos >= 1
    ensures Usable(c, Again(), pos) && TokenSize(c, Again()) == 3
  {
    Pow2Values();
  }

  lemma {:induction false} ZeroUsable(c: Coding, pos: nat)
    requires IsCoding(c)
    ensures Usable(c, Literal(0), pos) && TokenSize(c, Literal(0)) == 2
  {
  }

  lemma {:induction false} EndUsable(c: Coding, pos: nat)
    requires IsCoding(c)
    ensures Codes(c.ll, END_CODE) && AllUsable(c, [], pos)
  {
  }

  lemma {:induction false} FarWrong(data: seq<byte>, c: Coding, t: Token, p: nat, out: seq<byte>, end: seq<bit>)
    requires IsCoding(c) && t == Far() && Usable(c, t, |out|) && |out| < 20481
    requires p % 8 == 5 && p / 8 + 5 <= |data| && end != [] && end[0] == 1
    requires At(StreamBits(data), p, TokenBits(c, t) + end)
    ensures !Right(data, c, t, p, out)
  {
    var first, word := Codeword(c.ll, FIRST_LENGTH_CODE_INDEX), Codeword(c.d, 28);
    FarBits(c, t, first, word, end, 13);
    AtSplit(StreamBits(data), p, first, word + LsbBits(0, 13) + end);
    FarSeen(data, p + 2, word, end, 12, 13);
    FarDistance(data, c, t, p + 2, 12, 13);
    TooFar(data, c, t, p, p + 2, out);
  }

  lemma {:induction false} FarDistance(data: seq<byte>, c: Coding, t: Token, q: nat, l: nat, n: nat)
    requires IsCoding(c) && t == Far() && Sendable(c, t) && l == 12 && n == 13 && Seen(data, q, l, n) >= 4096
    ensures SeenDistance(data, c, t, q) >= 20481
  {
  }

  lemma {:induction false} TooFar(data: seq<byte>, c: Coding, t: Token, p: nat, q: nat, out: seq<byte>)
    requires t.Match? && Sendable(c, t) && TokenOk(t, |out|, MAX_DISTANCE)
    requires q == p + c.ll[FIRST_LENGTH_CODE_INDEX + t.code.lengthCode] && SeenDistance(data, c, t, q) > |out|
    ensures !Right(data, c, t, p, out)
  {
  }

  lemma {:induction false} FarBits(c: Coding, t: Token, first: seq<bit>, word: seq<bit>, end: seq<bit>, n: nat)
    requires IsCoding(c) && t == Far() && Sendable(c, t) && n == 13
    requires first == Codeword(c.ll, FIRST_LENGTH_CODE_INDEX) && word == Codeword(c.d, 28)
    ensures TokenBits(c, t) + end == first + (word + LsbBits(0, n) + end)
  {
    assert LsbBits(0, LengthExtra(0)) == [];
    assert RestBits(c, t) == word + LsbBits(0, n);
  }

  // ---------------------------------------------------------------- the stream

  /** Any bits are the start of some bytes. */
  lemma {:induction false} BytesOf(bits: seq<bit>) returns (data: seq<byte>)
    ensures bits <= StreamBits(data)
    decreases |bits|
  {
    if bits == [] {
      data := [];
    } else {
      var first := if |bits| < 8 then bits + seq(8 - |bits|, _ => 0) else bits[..8];
      var rest := BytesOf(if |bits| < 8 then [] else bits[8..]);
      LsbBitsVal(first);
      Pow2Values();
      data := [Val(first)] + rest;
      assert data[1..] == rest;
      assert StreamBits(data) == first + StreamBits(rest);
    }
  }

  /** Four literals, 65 long matches, the far one and a long one. */
  function SomeTokens(): seq<Token> { Times(Literal(0), 4, Times(Again(), 65, [Far(), Again()])) }

  lemma {:induction false} TailUsable(c: Coding, pos: nat)
    requires IsCoding(c) && pos == 16774
    ensures AllUsable(c, [Far(), Again()], pos)
  {
    EndUsable(c, pos + 261);
    AgainUsable(c, pos + 3);
    UsableCons(c, Again(), [], pos + 3, pos + 261);
    assert [Again()] + [] == [Again()];
    FarUsable(c, pos);
    UsableCons(c, Far(), [Again()], pos, pos + 3);
    assert [Far()] + [Again()] == [Far(), Again()];
  }

  lemma {:induction false} SomeUsable(c: Coding)
    requires IsCoding(c)
    ensures AllUsable(c, SomeTokens(), 0)
  {
    TailUsable(c, 16774);
    AgainUsable(c, 4);
    TimesUsable(c, Again(), 65, [Far(), Again()], 4, 16774);
    ZeroUsable(c, 0);
    TimesUsable(c, Literal(0), 4, Times(Again(), 65, [Far(), Again()]), 0, 4);
  }

  /** The tokens cannot all be read right when they start at bit 1338. */
  lemma {:induction false} SomeWrong(data: seq<byte>, c: Coding)
    requires IsCoding(c)
    ensures !ReadRight(data, c, SomeTokens(), 1338, [])
  {
    if ReadRight(data, c, SomeTokens(), 1338, []) {
      ZeroUsable(c, 0);
      AgainUsable(c, 4);
      var q, next := TimesRead(data, c, Literal(0), 4, Times(Again(), 65, [Far(), Again()]), 1338, []);
      q, next := TimesRead(data, c, Again(), 65, [Far(), Again()], q, next);
      TailWrong(data, c, q, next, [Far(), Again()]);
    }
  }

  lemma {:induction false} TailWrong(data: seq<byte>, c: Coding, q: nat, out: seq<byte>, tokens: seq<Token>)
    requires IsCoding(c) && q == 1541 && |out| == 16774 && tokens == [Far(), Again()]
    ensures !ReadRight(data, c, tokens, q, out)
  {
    if ReadRight(data, c, tokens, q, out) {
      var rest := tokens[1..];
      assert rest == [Again()];
      FarUsable(c, |out|);
      AgainUsable(c, |out|);
      LastCodeword(c.ll);
      TokenSizeIs(c, Far());
      DataStarts(c, rest);
      FarWrong(data, c, tokens[0], q, out, DataBits(c, rest));
      ReadTail(data, c, tokens, q, out, rest, q + TokenSize(c, tokens[0]), Apply(out, tokens[0]));
    }
  }

  /** After the far match 5 bits follow, the first of them a one. */
  lemma {:induction false} DataStarts(c: Coding, rest: seq<Token>)
    requires IsCoding(c) && rest == [Again()] && AllSendable(c, rest) && Codes(c.ll, END_CODE)
    ensures |DataBits(c, rest)| == 5 && DataBits(c, rest)[0] == 1
  {
    LastCodeword(c.ll);
    AgainUsable(c, 1);
    TokenSizeIs(c, Again());
    assert rest[1..] == [];
  }

  lemma {:induction false} BlockWrong(data: seq<byte>, b: Block, c: Coding)
    requires b.DynamicBlock? && BlockOk(b, 0) && b.tokens == SomeTokens() && c == Coding(b.header.LL(), b.header.D())
    requires IsCoding(c) && |HeaderBits(b.header)| == 1335 && At(StreamBits(data), 3, BodyBits(b, 0))
    ensures !BlockRight(data, 3, b, [])
  {
    AtSplit(StreamBits(data), 3, HeaderBits(b.header), DataBits(c, b.tokens));
    SomeWrong(data, c);
  }

  lemma {:induction false} SomeBlock() returns (b: Block, c: Coding)
    ensures b.DynamicBlock? && BlockOk(b, 0) && b.tokens == SomeTokens() && c == Coding(b.header.LL(), b.header.D())
    ensures IsCoding(c) && |HeaderBits(b.header)| == 1335
  {
    var h := SomeHeader();
    c := Coding(h.LL(), h.D());
    SomeUsable(c);
    b := DynamicBlock(h, SomeTokens());
  }

  lemma {:induction false} StreamOf(b: Block, t: nat) returns (data: seq<byte>)
    requires BlockOk(b, 0) && b.DynamicBlock? && t == 2
    ensures BlockAt(StreamBits(data), 0, b, 0, true) && At(StreamBits(data), 3, BodyBits(b, 0))
  {
    var head, body := HeadBits(t, true), BodyBits(b, 0);
    data := BytesOf(head + body);
    assert StreamBits(data)[0..] == StreamBits(data);
    AtSplit(StreamBits(data), 0, head, body);
  }

  /** A valid stream for which the decoder does not give what it stands for. */
  lemma {:induction false} MisreadStream() returns (data: seq<byte>, b: Block, goal: seq<byte>, stop: nat)
    ensures BlocksStand(StreamBits(data), 0, [b], [], goal, stop, true, false)
    ensures !BlocksRight(data, 0, [b], [])
  {
    var c;
    b, c := SomeBlock();
    data := StreamOf(b, 2);
    goal, stop := UnpackBlock([], b), BlockEnd(0, b, 0);
    OneBlock(StreamBits(data), 0, b, [], true, false);
    BlockWrong(data, b, c);
  }
}
