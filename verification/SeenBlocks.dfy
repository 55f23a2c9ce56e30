/** What the decoder finds in an input that it accepts: blocks whose bits stand in the input,
    and for every match of theirs the distance that the look-ahead shows. */
module SeenBlocks {
  import opened Bits
  import opened BitStream
  import opened CanonicalCode
  import opened Tokens
  import opened DeflateFormat
  import opened ReadSymbols
  import opened ZeroPadding
  import opened LookAhead

  // ---------------------------------------------------------------- tokens

  /** The token with the distance that is read for it when it starts at p. */
  ghost function AsSeen(data: seq<byte>, c: Coding, t: Token, p: nat): (r: Token)
    requires Sendable(c, t)
    ensures r.Size() == t.Size()
  {
    match t
    case Literal(_) => t
    case Match(length, _, m) => Match(length, SeenDistance(data, c, t, p + c.ll[FIRST_LENGTH_CODE_INDEX + m.lengthCode]), m)
  }

  ghost function AllSeen(data: seq<byte>, c: Coding, tokens: seq<Token>, p: nat): (r: seq<Token>)
    requires AllSendable(c, tokens)
    ensures |r| == |tokens|
    decreases |tokens|
  {
    if tokens == [] then []
    else [AsSeen(data, c, tokens[0], p)] + AllSeen(data, c, tokens[1..], p + TokenSize(c, tokens[0]))
  }

  lemma {:induction false} SeenCons(data: seq<byte>, c: Coding, all: seq<Token>, rest: seq<Token>, p: nat)
    requires all != [] && rest == all[1..] && Sendable(c, all[0]) && AllSendable(c, rest)
    ensures AllSendable(c, all)
    ensures AllSeen(data, c, all, p) == [AsSeen(data, c, all[0], p)] + AllSeen(data, c, rest, p + TokenSize(c, all[0]))
  {
  }

  lemma {:induction false} SeenNone(data: seq<byte>, c: Coding, tokens: seq<Token>, p: nat)
    requires |tokens| == 0
    ensures AllSendable(c, tokens) && AllSeen(data, c, tokens, p) == []
  {
  }

  /** The tokens without the end code. */
  ghost function OpenBits(c: Coding, tokens: seq<Token>): seq<bit>
    requires AllSendable(c, tokens)
  {
    if tokens == [] then [] else TokenBits(c, tokens[0]) + OpenBits(c, tokens[1..])
  }

  lemma {:induction false} OpenMore(c: Coding, tokens: seq<Token>, t: Token)
    requires AllSendable(c, tokens) && Sendable(c, t)
    ensures AllSendable(c, tokens + [t]) && OpenBits(c, tokens + [t]) == OpenBits(c, tokens) + TokenBits(c, t)
    decreases |tokens|
  {
    if tokens == [] {
      assert tokens + [t] == [t];
      OpenNone(c, [t][1..]);
    } else {
      TailConcat(tokens, [t]);
      OpenMore(c, tokens[1..], t);
      OpenStep(c, tokens, tokens[1..]);
      OpenStep(c, tokens + [t], tokens[1..] + [t]);
      Assoc(TokenBits(c, tokens[0]), OpenBits(c, tokens[1..]), TokenBits(c, t));
    }
  }

  lemma {:induction false} OpenStep(c: Coding, all: seq<Token>, rest: seq<Token>)
    requires all != [] && rest == all[1..] && Sendable(c, all[0]) && AllSendable(c, rest)
    ensures AllSendable(c, all) && OpenBits(c, all) == TokenBits(c, all[0]) + OpenBits(c, rest)
  {
  }

  lemma {:induction false} OpenNone(c: Coding, tokens: seq<Token>)
    requires |tokens| == 0
    ensures AllSendable(c, tokens) && OpenBits(c, tokens) == []
  {
  }

  lemma {:induction false} OpenAndEnd(c: Coding, tokens: seq<Token>)
    requires AllSendable(c, tokens) && Codes(c.ll, END_CODE)
    ensures DataBits(c, tokens) == OpenBits(c, tokens) + Codeword(c.ll, END_CODE)
    decreases |tokens|
  {
    if tokens != [] { OpenAndEnd(c, tokens[1..]); }
  }

  /** One more token is seen where the others end. */
  lemma {:induction false} SeenMore(data: seq<byte>, c: Coding, tokens: seq<Token>, t: Token, p: nat, q: nat)
    requires AllSendable(c, tokens) && Sendable(c, t) && q == p + |OpenBits(c, tokens)|
    ensures AllSendable(c, tokens + [t])
    ensures AllSeen(data, c, tokens + [t], p) == AllSeen(data, c, tokens, p) + [AsSeen(data, c, t, q)]
    decreases |tokens|
  {
    if tokens == [] {
      assert tokens + [t] == [t];
      SeenNone(data, c, [t][1..], p + TokenSize(c, t));
      SeenCons(data, c, [t], [t][1..], p);
    } else {
      var rest, next := tokens[1..], p + TokenSize(c, tokens[0]);
      OpenSize(c, tokens, rest);
      SeenMore(data, c, rest, t, next, q);
      TailConcat(tokens, [t]);
      SeenSnoc(data, c, tokens, rest, tokens + [t], rest + [t], p, next, AsSeen(data, c, t, q));
    }
  }

  lemma {:induction false} OpenSize(c: Coding, all: seq<Token>, rest: seq<Token>)
    requires all != [] && rest == all[1..] && AllSendable(c, all)
    ensures AllSendable(c, rest) && |OpenBits(c, all)| == TokenSize(c, all[0]) + |OpenBits(c, rest)|
  {
    TokenSizeIs(c, all[0]);
  }

  lemma {:induction false} SeenSnoc(data: seq<byte>, c: Coding, all: seq<Token>, rest: seq<Token>, more: seq<Token>, tail: seq<Token>,
                                    p: nat, next: nat, x: Token)
    requires all != [] && rest == all[1..] && AllSendable(c, all) && next == p + TokenSize(c, all[0])
    requires more != [] && more[0] == all[0] && tail == more[1..]
    requires AllSendable(c, tail) && AllSeen(data, c, tail, next) == AllSeen(data, c, rest, next) + [x]
    ensures AllSendable(c, more) && AllSeen(data, c, more, p) == AllSeen(data, c, all, p) + [x]
  {
    SeenCons(data, c, all, rest, p);
    SeenCons(data, c, more, tail, p);
    Assoc([AsSeen(data, c, all[0], p)], AllSeen(data, c, rest, next), [x]);
  }

  /** The token t was read from p to q, and took the output from before to out. */
  ghost predicate TokenSeen(data: seq<byte>, c: Coding, p: nat, q: nat, t: Token, before: seq<byte>, out: seq<byte>) {
    TokenSent(StreamBits(data), c, p, q, t) && Gives(AsSeen(data, c, t, p), before, out)
  }

  ghost predicate TokenSent(s: seq<bit>, c: Coding, p: nat, q: nat, t: Token) {
    Sendable(c, t) && InTables(t) && Shows(s, p, TokenBits(c, t)) && q == p + |TokenBits(c, t)|
  }

  ghost predicate Gives(t: Token, before: seq<byte>, out: seq<byte>) {
    TokenOk(t, |before|, MAX_DISTANCE) && out == Apply(before, t)
  }

  /** The same for what follows the length code. */
  ghost predicate PairSeen(data: seq<byte>, c: Coding, p: nat, q: nat, index: nat, t: Token, before: seq<byte>, out: seq<byte>) {
    PairSent(c, StreamBits(data), p, q, index, t) && Copied(before, t.length, SeenDistance(data, c, t, p), out)
  }

  ghost predicate PairSent(c: Coding, s: seq<bit>, p: nat, q: nat, index: nat, t: Token) {
    t.Match? && index < 29 && Codes(c.ll, FIRST_LENGTH_CODE_INDEX + index) && t.code.lengthCode == index && Sendable(c, t) &&
    InTables(t) && 3 <= t.length <= MAX_DEFLATE_LENGTH && Shows(s, p, RestBits(c, t)) && q == p + |RestBits(c, t)|
  }

  ghost predicate Copied(before: seq<byte>, length: nat, distance: nat, out: seq<byte>) {
    1 <= distance <= |before| && out == Copy(before, length, distance)
  }

  /** Length x beyond its base, the code of distance j at p + e, and y beyond its base. */
  lemma {:induction false} PairIs(c: Coding, s: seq<bit>, p: nat, i: nat, j: nat, e: nat, d: nat) returns (t: Token)
    requires i < 29 && j < 30 && e == LengthExtra(i) && d == DistanceExtra(j)
    requires Codes(c.ll, FIRST_LENGTH_CODE_INDEX + i) && Codes(c.d, j) && Shows(s, p + e, Codeword(c.d, j))
    ensures PairSent(c, s, p, p + e + c.d[j] + d, i, t)
    ensures t.Match? && t.length == LENGTHBASE[i] + Window(s, p, e) && t.code.distanceCode == j
  {
    var w := Codeword(c.d, j);
    var x, y := PairShows(s, p, e, d, w);
    t := PairToken(i, j, x, y);
    assert RestBits(c, t) == LsbBits(x, e) + (w + LsbBits(y, d));
  }

  lemma {:induction false} PairToken(i: nat, j: nat, x: nat, y: nat) returns (t: Token)
    requires i < 29 && j < 30 && x < Pow2(LENGTHEXTRA[i]) && y < Pow2(DISTANCEEXTRA[j])
    ensures t == Match(LENGTHBASE[i] + x, DISTANCEBASE[j] + y, PairCode(i, x, j, y))
    ensures InTables(t) && 3 <= t.length <= MAX_DEFLATE_LENGTH
  {
    t := Match(LENGTHBASE[i] + x, DISTANCEBASE[j] + y, PairCode(i, x, j, y));
    LengthInRange(i, x);
  }

  lemma {:induction false} LengthInRange(i: nat, x: nat)
    requires i < 29 && x < Pow2(LENGTHEXTRA[i])
    ensures 3 <= LENGTHBASE[i] + x <= MAX_DEFLATE_LENGTH
  {
    Pow2Values();
  }

  lemma {:induction false} PairShows(s: seq<bit>, p: nat, e: nat, d: nat, c: seq<bit>) returns (x: nat, y: nat)
    requires Shows(s, p + e, c)
    ensures x == Window(s, p, e) < Pow2(e) && y == Window(s, p + e + |c|, d) < Pow2(d)
    ensures Shows(s, p, LsbBits(x, e) + (c + LsbBits(y, d)))
  {
    x, y := Window(s, p, e), Window(s, p + e + |c|, d);
    ShowsNumber(s, p, e);
    ShowsNumber(s, p + e + |c|, d);
    ShowsConcat(s, p + e, c, LsbBits(y, d));
    ShowsConcat(s, p, LsbBits(x, e), c + LsbBits(y, d));
  }

  lemma {:induction false} LiteralIs(data: seq<byte>, c: Coding, p: nat, code: byte, before: seq<byte>, out: seq<byte>)
      returns (t: Token)
    requires Codes(c.ll, code) && Shows(StreamBits(data), p, Codeword(c.ll, code)) && out == before + [code]
    ensures TokenSeen(data, c, p, p + c.ll[code], t, before, out)
  {
    t := Literal(code);
  }

  lemma {:induction false} MatchIs(data: seq<byte>, c: Coding, p: nat, m: nat, q: nat, t: Token, index: nat,
                                   before: seq<byte>, out: seq<byte>)
    requires Codes(c.ll, FIRST_LENGTH_CODE_INDEX + index) && index < 29 && m == p + c.ll[FIRST_LENGTH_CODE_INDEX + index]
    requires Shows(StreamBits(data), p, Codeword(c.ll, FIRST_LENGTH_CODE_INDEX + index))
    requires PairSeen(data, c, m, q, index, t, before, out)
    ensures TokenSeen(data, c, p, q, t, before, out)
  {
    MatchSent(c, StreamBits(data), p, m, q, t, index);
    MatchGives(data, c, t, p, m, before, out, AsSeen(data, c, t, p));
  }

  lemma {:induction false} MatchGives(data: seq<byte>, c: Coding, t: Token, p: nat, m: nat, before: seq<byte>, out: seq<byte>, x: Token)
    requires t.Match? && Sendable(c, t) && m == p + c.ll[FIRST_LENGTH_CODE_INDEX + t.code.lengthCode]
    requires 3 <= t.length <= MAX_DEFLATE_LENGTH && Copied(before, t.length, SeenDistance(data, c, t, m), out)
    requires x == AsSeen(data, c, t, p)
    ensures Gives(x, before, out)
  {
    assert x == Match(t.length, SeenDistance(data, c, t, m), t.code);
  }

  lemma {:induction false} MatchSent(c: Coding, s: seq<bit>, p: nat, m: nat, q: nat, t: Token, index: nat)
    requires Codes(c.ll, FIRST_LENGTH_CODE_INDEX + index) && index < 29 && m == p + c.ll[FIRST_LENGTH_CODE_INDEX + index]
    requires Shows(s, p, Codeword(c.ll, FIRST_LENGTH_CODE_INDEX + index)) && PairSent(c, s, m, q, index, t)
    ensures TokenSent(s, c, p, q, t)
  {
    ShowsConcat(s, p, Codeword(c.ll, FIRST_LENGTH_CODE_INDEX + index), RestBits(c, t));
  }

  /** The tokens, of which every one is in range, take the output from before to out. */
  ghost predicate TokensGive(tokens: seq<Token>, before: seq<byte>, out: seq<byte>) {
    TokensOk(tokens, |before|, MAX_DISTANCE) && out == Replay(before, tokens)
  }

  /** The tokens were read from start to p. */
  ghost predicate TokensShown(c: Coding, s: seq<bit>, start: nat, p: nat, tokens: seq<Token>) {
    AllInTables(tokens) && AllSendable(c, tokens) && Shows(s, start, OpenBits(c, tokens)) && p == start + |OpenBits(c, tokens)|
  }

  /** The same, and they took the output from before to out. */
  ghost predicate TokensSeen(data: seq<byte>, c: Coding, start: nat, p: nat, tokens: seq<Token>, before: seq<byte>, out: seq<byte>) {
    TokensShown(c, StreamBits(data), start, p, tokens) && TokensGive(AllSeen(data, c, tokens, start), before, out)
  }

  lemma {:induction false} NothingRead(data: seq<byte>, c: Coding, start: nat, before: seq<byte>)
    ensures TokensSeen(data, c, start, start, [], before, before)
  {
  }

  lemma {:induction false} OneMoreRead(data: seq<byte>, c: Coding, start: nat, p: nat, q: nat, tokens: seq<Token>,
                                       before: seq<byte>, out: seq<byte>, t: Token, next: seq<byte>)
    requires TokensSeen(data, c, start, p, tokens, before, out) && TokenSeen(data, c, p, q, t, out, next)
    ensures TokensSeen(data, c, start, q, tokens + [t], before, next)
  {
    OneMoreShown(c, StreamBits(data), start, p, q, tokens, t);
    SeenMore(data, c, tokens, t, start, p);
    OneMoreApplied(AllSeen(data, c, tokens, start), before, out, AsSeen(data, c, t, p), next);
  }

  lemma {:induction false} OneMoreShown(c: Coding, s: seq<bit>, start: nat, p: nat, q: nat, tokens: seq<Token>, t: Token)
    requires TokensShown(c, s, start, p, tokens) && TokenSent(s, c, p, q, t)
    ensures TokensShown(c, s, start, q, tokens + [t])
  {
    OpenMore(c, tokens, t);
    ShowsConcat(s, start, OpenBits(c, tokens), TokenBits(c, t));
    InTablesMore(tokens, t);
  }

  lemma {:induction false} InTablesMore(tokens: seq<Token>, t: Token)
    requires AllInTables(tokens) && InTables(t)
    ensures AllInTables(tokens + [t])
  {
  }

  lemma {:induction false} OneMoreApplied(tokens: seq<Token>, before: seq<byte>, out: seq<byte>, t: Token, next: seq<byte>)
    requires TokensGive(tokens, before, out) && Gives(t, out, next)
    ensures TokensGive(tokens + [t], before, next)
  {
    ReplayEnd(before, tokens);
    OneToken(t, |out|, [t][1..], out);
    ReplayConcat(before, tokens, [t]);
  }

  lemma {:induction false} OneToken(t: Token, pos: nat, rest: seq<Token>, out: seq<byte>)
    requires TokenOk(t, pos, MAX_DISTANCE) && rest == [] && pos == |out|
    ensures TokensOk(rest, pos + t.Size(), MAX_DISTANCE) && TokensOk([t], pos, MAX_DISTANCE)
    ensures Replay(out, [t]) == Apply(out, t)
  {
    assert [t][1..] == rest;
  }

  /** The tokens and the end code stand from p to q, in the input followed by zeros; only the
      end code may extend beyond the input. With the distances that are seen, they take the
      output from before to out. */
  ghost predicate DataSeen(data: seq<byte>, c: Coding, p: nat, q: nat, tokens: seq<Token>, before: seq<byte>, out: seq<byte>) {
    DataShown(data, c, p, q, tokens) && TokensGive(AllSeen(data, c, tokens, p), before, out)
  }

  ghost predicate DataShown(data: seq<byte>, c: Coding, p: nat, q: nat, tokens: seq<Token>) {
    AllInTables(tokens) && AllSendable(c, tokens) && Codes(c.ll, END_CODE) && At(Extended(data), p, DataBits(c, tokens)) &&
    q == p + |DataBits(c, tokens)| <= 8 * |data| + c.ll[END_CODE]
  }

  ghost predicate EndAt(c: Coding, s: seq<bit>, p: nat) {
    Codes(c.ll, END_CODE) && Shows(s, p, Codeword(c.ll, END_CODE))
  }

  lemma {:induction false} EndRead(data: seq<byte>, c: Coding, start: nat, p: nat, q: nat, tokens: seq<Token>,
                                   before: seq<byte>, out: seq<byte>)
    requires TokensSeen(data, c, start, p, tokens, before, out) && p <= 8 * |data|
    requires EndAt(c, StreamBits(data), p) && c.ll[END_CODE] <= 15 && q == p + c.ll[END_CODE]
    ensures DataSeen(data, c, start, q, tokens, before, out)
  {
    var end := Codeword(c.ll, END_CODE);
    OpenAndEnd(c, tokens);
    ShowsConcat(StreamBits(data), start, OpenBits(c, tokens), end);
    ShowsAt(data, start, OpenBits(c, tokens) + end);
  }

  // ---------------------------------------------------------------- distances that are right

  /** What is within the reliable bits is seen as it is. */
  lemma {:induction false} ReadableSeen(data: seq<byte>, c: Coding, t: Token, p: nat)
    requires Sendable(c, t) && InTables(t) && Readable(c, t, p) && Shows(StreamBits(data), p, TokenBits(c, t))
    ensures AsSeen(data, c, t, p) == t
  {
    if t.Match? {
      var word := Codeword(c.ll, FIRST_LENGTH_CODE_INDEX + t.code.lengthCode);
      ShowsSplit(StreamBits(data), p, word, RestBits(c, t));
      DistanceShown(data, c, t, p + |word|);
      SeenIs(data, c, t, p, p + |word|);
    }
  }

  lemma {:induction false} SeenIs(data: seq<byte>, c: Coding, t: Token, p: nat, q: nat)
    requires t.Match? && Sendable(c, t) && q == p + c.ll[FIRST_LENGTH_CODE_INDEX + t.code.lengthCode]
    requires SeenDistance(data, c, t, q) == t.distance
    ensures AsSeen(data, c, t, p) == t
  {
  }

  lemma {:induction false} DistanceShown(data: seq<byte>, c: Coding, t: Token, q: nat)
    requires t.Match? && Sendable(c, t) && InTables(t) && DistanceFits(c, t, q) && Shows(StreamBits(data), q, RestBits(c, t))
    ensures SeenDistance(data, c, t, q) == t.distance
  {
    var i := t.code.distanceCode;
    var p, l, n := q + LengthExtra(t.code.lengthCode), c.d[i], DistanceExtra(i);
    RestShown(StreamBits(data), q, c, t, p, n);
    SeenRight(data, p, l, n);
    ExtraFits(t, n);
    ShownNumber(StreamBits(data), p + l, t.code.distanceExtra, n);
    SeenOffset(data, c, t, q, p, l, n);
  }

  /** The extra bits of the distance are shown behind its code. */
  lemma {:induction false} RestShown(s: seq<bit>, q: nat, c: Coding, t: Token, p: nat, n: nat)
    requires t.Match? && Sendable(c, t) && Shows(s, q, RestBits(c, t))
    requires p == q + LengthExtra(t.code.lengthCode) && n == DistanceExtra(t.code.distanceCode)
    ensures Shows(s, p + c.d[t.code.distanceCode], LsbBits(t.code.distanceExtra, n))
  {
    var length, word := LsbBits(t.code.lengthExtra, LengthExtra(t.code.lengthCode)), Codeword(c.d, t.code.distanceCode);
    ShowsSplit(s, q, length, word + LsbBits(t.code.distanceExtra, n));
    ShowsSplit(s, p, word, LsbBits(t.code.distanceExtra, n));
  }

  lemma {:induction false} ExtraFits(t: Token, n: nat)
    requires t.Match? && InTables(t) && t.code.distanceCode < 30 && n == DistanceExtra(t.code.distanceCode)
    ensures t.code.distanceExtra < Pow2(n)
  {
  }

  lemma {:induction false} ShownNumber(s: seq<bit>, p: nat, v: nat, n: nat)
    requires v < Pow2(n) && Shows(s, p, LsbBits(v, n))
    ensures Window(s, p, n) == v
  {
    ValLsbBits(v, n);
    LowSmall(v, n);
  }

  lemma {:induction false} ShowsSplit(s: seq<bit>, p: nat, a: seq<bit>, b: seq<bit>)
    requires Shows(s, p, a + b)
    ensures Shows(s, p, a) && Shows(s, p + |a|, b)
  {
    var n, k := |a|, |a| + |b|;
    ValSplit(a + b, n);
    assert (a + b)[..n] == a && (a + b)[n..] == b;
    WindowPrefix(s, p, n, k);
    WindowDrop(s, p, n, k);
  }

  /** So tokens that can be read are seen as they are. */
  lemma {:induction false} AllReadableSeen(data: seq<byte>, c: Coding, tokens: seq<Token>, p: nat)
    requires AllSendable(c, tokens) && AllInTables(tokens) && AllReadable(c, tokens, p)
    requires Shows(StreamBits(data), p, OpenBits(c, tokens))
    ensures AllSeen(data, c, tokens, p) == tokens
    decreases |tokens|
  {
    if tokens != [] {
      var rest, q := tokens[1..], p + TokenSize(c, tokens[0]);
      FirstReadable(data, c, tokens, rest, p, q);
      AllReadableSeen(data, c, rest, q);
      SeenSame(data, c, tokens, rest, p, q);
    }
  }

  lemma {:induction false} SeenSame(data: seq<byte>, c: Coding, tokens: seq<Token>, rest: seq<Token>, p: nat, q: nat)
    requires tokens != [] && rest == tokens[1..] && AllSendable(c, tokens) && q == p + TokenSize(c, tokens[0])
    requires AllSendable(c, rest) && AllSeen(data, c, rest, q) == rest && AsSeen(data, c, tokens[0], p) == tokens[0]
    ensures AllSeen(data, c, tokens, p) == tokens
  {
    SeenCons(data, c, tokens, rest, p);
    assert [tokens[0]] + rest == tokens;
  }

  lemma {:induction false} FirstReadable(data: seq<byte>, c: Coding, tokens: seq<Token>, rest: seq<Token>, p: nat, q: nat)
    requires tokens != [] && rest == tokens[1..] && AllSendable(c, tokens) && q == p + TokenSize(c, tokens[0])
    requires AllInTables(tokens) && AllReadable(c, tokens, p) && Shows(StreamBits(data), p, OpenBits(c, tokens))
    ensures AsSeen(data, c, tokens[0], p) == tokens[0]
    ensures AllInTables(rest) && AllReadable(c, rest, q) && Shows(StreamBits(data), q, OpenBits(c, rest))
  {
    TokenSizeIs(c, tokens[0]);
    ShowsSplit(StreamBits(data), p, TokenBits(c, tokens[0]), OpenBits(c, rest));
    AllButFirst(tokens);
    ReadableCons(c, tokens, p, rest, q);
    ReadableSeen(data, c, tokens[0], p);
  }

  lemma {:induction false} DataReadable(data: seq<byte>, c: Coding, p: nat, q: nat, tokens: seq<Token>)
    requires DataShown(data, c, p, q, tokens) && c.ll[END_CODE] <= 15 && AllReadable(c, tokens, p)
    ensures AllSeen(data, c, tokens, p) == tokens
  {
    OpenAndEnd(c, tokens);
    ShowsAt(data, p, DataBits(c, tokens));
    ShowsSplit(StreamBits(data), p, OpenBits(c, tokens), Codeword(c.ll, END_CODE));
    AllReadableSeen(data, c, tokens, p);
  }

  // ---------------------------------------------------------------- blocks

  /** The coding of a compressed block. */
  ghost function CodingOf(b: Block): (c: Coding)
    requires !b.Stored? && BlockShape(b)
    ensures AllSendable(c, b.tokens) && AllInTables(b.tokens) && Codes(c.ll, END_CODE)
  {
    if b.FixedBlock? then Fixed() else Coding(b.header.LL(), b.header.D())
  }

  /** Where its tokens start if its body starts at p. */
  ghost function TokensStart(p: nat, b: Block): nat
    requires !b.Stored? && BlockShape(b)
  {
    if b.FixedBlock? then p else p + |HeaderBits(b.header)|
  }

  /** What its end code takes. */
  ghost function EndSize(b: Block): nat
    requires BlockShape(b)
  {
    if b.Stored? then 0 else CodingOf(b).ll[END_CODE]
  }

  /** The tokens of a block whose body starts at p, as they are seen. */
  ghost function BlockSeen(data: seq<byte>, b: Block, p: nat): seq<Token>
    requires !b.Stored? && BlockShape(b)
  {
    AllSeen(data, CodingOf(b), b.tokens, TokensStart(p, b))
  }

  /** The block whose body starts at p takes the output from before to out. */
  ghost predicate BlockGives(data: seq<byte>, b: Block, p: nat, before: seq<byte>, out: seq<byte>)
    requires BlockShape(b)
  {
    if b.Stored? then out == before + b.data else TokensGive(BlockSeen(data, b, p), before, out)
  }

  /** The block stands from p to q, in the input followed by zeros, and takes the output from
      before to out. */
  ghost predicate BlockFound(data: seq<byte>, p: nat, q: nat, b: Block, final: bool, before: seq<byte>, out: seq<byte>) {
    BlockShape(b) && At(Extended(data), p, HeadBits(TypeOf(b), final)) && BodyFound(data, BodyStart(p, b), q, b, before, out)
  }

  ghost predicate BodyFound(data: seq<byte>, p: nat, q: nat, b: Block, before: seq<byte>, out: seq<byte>) {
    BlockShape(b) && At(Extended(data), p, BodyBits(b, 0)) && q == p + |BodyBits(b, 0)| <= 8 * |data| + EndSize(b) &&
    BlockGives(data, b, p, before, out)
  }

  /** The blocks stand from p to stop, the last one marked final if final, and take the output
      of a decoder from out to goal. Only the end code of the last one may extend beyond the
      input. */
  ghost predicate BlocksFound(data: seq<byte>, p: nat, blocks: seq<Block>, out: seq<byte>, goal: seq<byte>, stop: nat, final: bool)
    decreases |blocks|
  {
    if blocks == [] then out == goal && p == stop else
    exists q: nat, next: seq<byte> ::
      BlockFound(data, p, q, blocks[0], final && |blocks| == 1, out, next) && (|blocks| > 1 ==> q <= 8 * |data|) &&
      BlocksFound(data, q, blocks[1..], next, goal, stop, final)
  }

  lemma {:induction false} OneFound(data: seq<byte>, p: nat, q: nat, b: Block, rest: seq<Block>, final: bool, out: seq<byte>, next: seq<byte>)
    requires BlockFound(data, p, q, b, final, out, next) && rest == []
    ensures BlocksFound(data, p, [b] + rest, out, next, q, final)
  {
    assert ([b] + rest)[1..] == rest;
    assert BlocksFound(data, q, rest, next, next, q, final);
  }

  lemma {:induction false} MoreFound(data: seq<byte>, p: nat, q: nat, all: seq<Block>, rest: seq<Block>, out: seq<byte>, next: seq<byte>,
                                     goal: seq<byte>, stop: nat, final: bool)
    requires |all| > 1 && rest == all[1..] && BlockFound(data, p, q, all[0], false, out, next) && q <= 8 * |data|
    requires BlocksFound(data, q, rest, next, goal, stop, final)
    ensures BlocksFound(data, p, all, out, goal, stop, final)
  {
  }

  /** A block that is found after the others. */
  lemma {:induction false} NextFound(data: seq<byte>, p: nat, blocks: seq<Block>, out: seq<byte>, goal: seq<byte>, stop: nat,
                                     b: Block, q: nat, next: seq<byte>, final: bool)
    requires BlocksFound(data, p, blocks, out, goal, stop, false) && stop <= 8 * |data|
    requires BlockFound(data, stop, q, b, final, goal, next)
    ensures BlocksFound(data, p, blocks + [b], out, next, q, final)
    decreases |blocks|
  {
    if blocks == [] {
      OneFound(data, p, q, b, [], final, out, next);
      assert blocks + [b] == [b] + [];
    } else {
      var m: nat, mid: seq<byte> :| BlockFound(data, p, m, blocks[0], false, out, mid) && (|blocks| > 1 ==> m <= 8 * |data|) &&
        BlocksFound(data, m, blocks[1..], mid, goal, stop, false);
      NextFound(data, m, blocks[1..], mid, goal, stop, b, q, next, final);
      TailConcat(blocks, [b]);
      MoreFound(data, p, m, blocks + [b], blocks[1..] + [b], out, mid, next, q, final);
    }
  }

  // ---------------------------------------------------------------- blocks that can be read

  /** A fixed distance code and its extra bits take at most 18 bits. */
  lemma {:induction false} FixedReadable(tokens: seq<Token>, p: nat)
    requires AllSendable(Fixed(), tokens)
    ensures AllReadable(Fixed(), tokens, p)
    decreases |tokens|
  {
    if tokens != [] {
      if tokens[0].Match? { DistanceTable(tokens[0].code.distanceCode); }
      FixedReadable(tokens[1..], p + TokenSize(Fixed(), tokens[0]));
    }
  }

  /** All blocks from p on can be read. */
  ghost predicate BlocksReadable(p: nat, blocks: seq<Block>)
    decreases |blocks|
  {
    blocks == [] ||
    (BlockShape(blocks[0]) && BlockReadable(blocks[0], 0, BodyStart(p, blocks[0])) &&
     BlocksReadable(BlockEnd(p, blocks[0], 0), blocks[1..]))
  }

  ghost predicate Plain(blocks: seq<Block>) {
    forall i :: 0 <= i < |blocks| ==> !blocks[i].DynamicBlock?
  }

  /** Blocks that are stored or fixed can always be read. */
  lemma {:induction false} PlainReadable(data: seq<byte>, p: nat, blocks: seq<Block>, out: seq<byte>, goal: seq<byte>, stop: nat, final: bool)
    requires BlocksFound(data, p, blocks, out, goal, stop, final) && Plain(blocks)
    ensures BlocksReadable(p, blocks)
    decreases |blocks|
  {
    if blocks != [] {
      var q: nat, next: seq<byte> :| BlockFound(data, p, q, blocks[0], final && |blocks| == 1, out, next) &&
        BlocksFound(data, q, blocks[1..], next, goal, stop, final);
      assert !blocks[0].DynamicBlock?;
      forall i | 0 <= i < |blocks[1..]| ensures !blocks[1..][i].DynamicBlock? { assert !blocks[i + 1].DynamicBlock?; }
      PlainReadable(data, q, blocks[1..], next, goal, stop, final);
    }
  }

  lemma {:induction false} BodyDataShown(data: seq<byte>, p: nat, q: nat, b: Block, before: seq<byte>, out: seq<byte>)
    requires BodyFound(data, p, q, b, before, out) && !b.Stored?
    ensures DataShown(data, CodingOf(b), TokensStart(p, b), q, b.tokens)
  {
    if b.DynamicBlock? { AtSplit(Extended(data), p, HeaderBits(b.header), DataBits(CodingOf(b), b.tokens)); }
  }

  lemma {:induction false} ReadableBlockSeen(data: seq<byte>, p: nat, q: nat, b: Block, before: seq<byte>, out: seq<byte>)
    requires BodyFound(data, p, q, b, before, out) && !b.Stored? && BlockReadable(b, 0, p)
    ensures BlockSeen(data, b, p) == b.tokens
  {
    BodyDataShown(data, p, q, b, before, out);
    EndCodeShort(b);
    var c := CodingOf(b);
    if b.FixedBlock? { FixedReadable(b.tokens, p); } else { assert AllReadable(c, b.tokens, TokensStart(p, b)); }
    DataReadable(data, c, TokensStart(p, b), q, b.tokens);
  }

  lemma {:induction false} EndCodeShort(b: Block)
    requires !b.Stored? && BlockShape(b)
    ensures 0 < EndSize(b) <= 15 && (b.FixedBlock? ==> EndSize(b) == 7)
  {
    if b.DynamicBlock? {
      assert Decodable(b.header.LL(), 15);
      DecodableKraft(b.header.LL(), 15);
    }
  }

  /** What such a block gives is what it stands for. */
  lemma {:induction false} ReadableBlockStands(data: seq<byte>, p: nat, q: nat, b: Block, before: seq<byte>, out: seq<byte>)
    requires BodyFound(data, p, q, b, before, out) && BlockReadable(b, 0, p)
    ensures BlockOk(b, |before|) && out == UnpackBlock(before, b) && q == p + |BodyBits(b, |before|)|
    ensures At(Extended(data), p, BodyBits(b, |before|))
  {
    if !b.Stored? { ReadableBlockSeen(data, p, q, b, before, out); }
  }

  lemma {:induction false} FoundAt(data: seq<byte>, p: nat, q: nat, b: Block, final: bool, out: seq<byte>, next: seq<byte>)
    requires BlockFound(data, p, q, b, final, out, next) && BlockReadable(b, 0, BodyStart(p, b))
    ensures BlockAt(Extended(data), p, b, |out|, final) && q == BlockEnd(p, b, |out|) && next == UnpackBlock(out, b)
    ensures BlockReadable(b, |out|, BodyStart(p, b))
  {
    ReadableBlockStands(data, BodyStart(p, b), q, b, out, next);
  }

  lemma {:induction false} StandsCons(s: seq<bit>, p: nat, q: nat, all: seq<Block>, b: Block, rest: seq<Block>, out: seq<byte>,
                                      next: seq<byte>, goal: seq<byte>, stop: nat, final: bool)
    requires all != [] && b == all[0] && rest == all[1..] && BlockAt(s, p, b, |out|, final && |all| == 1)
    requires BlockReadable(b, |out|, BodyStart(p, b)) && q == BlockEnd(p, b, |out|) && next == UnpackBlock(out, b)
    requires BlocksStand(s, q, rest, next, goal, stop, final, true)
    ensures BlocksStand(s, p, all, out, goal, stop, final, true)
  {
  }

  /** So where all blocks that are found can be read, the output is what they stand for. */
  lemma {:induction false} FoundStand(data: seq<byte>, p: nat, blocks: seq<Block>, out: seq<byte>, goal: seq<byte>, stop: nat, final: bool)
    requires BlocksFound(data, p, blocks, out, goal, stop, final) && BlocksReadable(p, blocks)
    ensures BlocksStand(Extended(data), p, blocks, out, goal, stop, final, true)
    decreases |blocks|
  {
    if blocks != [] {
      var q: nat, next: seq<byte> :| BlockFound(data, p, q, blocks[0], final && |blocks| == 1, out, next) &&
        BlocksFound(data, q, blocks[1..], next, goal, stop, final);
      ReadableNext(p, q, blocks, blocks[1..], blocks[0]);
      FoundAt(data, p, q, blocks[0], final && |blocks| == 1, out, next);
      FoundStand(data, q, blocks[1..], next, goal, stop, final);
      StandsCons(Extended(data), p, q, blocks, blocks[0], blocks[1..], out, next, goal, stop, final);
    }
  }

  lemma {:induction false} ReadableNext(p: nat, q: nat, blocks: seq<Block>, rest: seq<Block>, b: Block)
    requires blocks != [] && b == blocks[0] && rest == blocks[1..] && BlocksReadable(p, blocks)
    ensures BlockShape(b) && BlockReadable(b, 0, BodyStart(p, b)) && (q == BlockEnd(p, b, 0) ==> BlocksReadable(q, rest))
  {
  }

  // ---------------------------------------------------------------- one byte

  /** The end code of the fixed code is seven zeros. */
  lemma {:induction false} FixedEnd()
    ensures Codeword(FixedLL(), END_CODE) == MsbBits(0, 7) && Val(MsbBits(0, 7)) == 0
  {
    FirstIsZero(FixedLL(), 7);
    NoneOfLength(FixedLL(), 7, END_CODE);
    MsbZero(7);
  }

  /** A block that does not go on after the first byte but for its end code is an empty fixed
      block. */
  lemma {:induction false} ShortBlock(b: Block)
    requires BlockShape(b) && BlockEnd(0, b, 0) <= 8 + EndSize(b)
    ensures b == FixedBlock([]) && BlockEnd(0, b, 0) == 10
  {
    if !b.Stored? {
      OpenAndEnd(CodingOf(b), b.tokens);
      EndCodeShort(b);
      if b.FixedBlock? && b.tokens != [] { TokenSizeIs(Fixed(), b.tokens[0]); }
    }
  }

  /** Of all inputs of one byte only the byte 3 holds blocks: an empty fixed one, whose end code
      is completed by the zeros after the input. */
  lemma {:induction false} OneByte(data: seq<byte>, blocks: seq<Block>, out: seq<byte>, end: nat)
    requires |data| == 1 && blocks != [] && BlocksFound(data, 0, blocks, [], out, end, true)
    ensures data[0] == 3
  {
    var q: nat, next: seq<byte> :| BlockFound(data, 0, q, blocks[0], true && |blocks| == 1, [], next) && (|blocks| > 1 ==> q <= 8 * |data|);
    ShortBlock(blocks[0]);
    TenBits(Extended(data));
    AtExtended(data, 0, StreamBits(data));
    FirstByteIs(data, Extended(data));
  }

  /** The first ten bits of an empty, final fixed block have the value 3. */
  lemma {:induction false} TenBits(s: seq<bit>)
    requires BlockAt(s, 0, FixedBlock([]), 0, true)
    ensures Window(s, 0, 10) == 3
  {
    var h, e := HeadBits(1, true), Codeword(FixedLL(), END_CODE);
    FixedEnd();
    WindowIs(s, 0, h);
    WindowIs(s, 3, e);
    ZerosBehind(s, 0, h, e);
    HeadValue(h);
  }

  lemma {:induction false} ZerosBehind(s: seq<bit>, p: nat, a: seq<bit>, b: seq<bit>)
    requires Shows(s, p, a) && Shows(s, p + |a|, b) && Val(b) == 0
    ensures Window(s, p, |a| + |b|) == Val(a)
  {
    ShowsConcat(s, p, a, b);
    ValSplit(a + b, |a|);
    assert (a + b)[..|a|] == a && (a + b)[|a|..] == b;
    ShrLowSplit(Val(a + b), |a|);
    ShlIsMul(0, |a|);
  }

  lemma {:induction false} HeadValue(h: seq<bit>)
    requires h == HeadBits(1, true)
    ensures Val(h) == 3
  {
    ValLsbBits(1, 2);
    Pow2Values();
    LowSmall(1, 2);
    assert h[0] == 1 && h[1..] == LsbBits(1, 2);
  }

  lemma {:induction false} FirstByteIs(data: seq<byte>, s: seq<bit>)
    requires |data| == 1 && At(s, 0, StreamBits(data)) && Window(s, 0, 10) == 3
    ensures data[0] == 3
  {
    var x := data[0];
    assert StreamBits(data) == LsbBits(x, 8) + StreamBits(data[1..]);
    WindowIs(s, 0, StreamBits(data));
    assert StreamBits(data) == LsbBits(x, 8);
    ValLsbBits(x, 8);
    WindowPrefix(s, 0, 8, 10);
    Pow2Values();
    LowSmall(x, 8);
    LowSmall(3, 8);
  }
}
