/** The decoder: inflateHuffmanBlock, inflateNoCompression and lodepng_inflatev on any input.
    Ghost parameters name what the input may encode; whenever it does, the decoder delivers
    what is encoded. */
module Inflate {
  import opened Bits
  import opened BitStream
  import opened CanonicalCode
  import opened HuffmanTable
  import opened HuffmanTree
  import opened Tokens
  import opened CodeLengthRle
  import opened DeflateFormat
  import opened ReadSymbols
  import opened DynamicTrees
  import opened ZeroPadding
  import opened LookAhead
  import opened SeenBlocks

  // ---------------------------------------------------------------- copying

  lemma {:induction false} CopyFar(out: seq<byte>, length: nat, distance: nat)
    requires 1 <= distance <= |out| && length <= distance
    ensures Copy(out, length, distance) == out + out[|out| - distance..|out| - distance + length]
    decreases length
  {
    if length > 0 {
      var x := out + [out[|out| - distance]];
      CopyFar(x, length - 1, distance);
      assert x[|x| - distance..|x| - distance + (length - 1)] == out[|out| - distance + 1..|out| - distance + length];
    }
  }

  lemma {:induction false} CopySplit(out: seq<byte>, a: nat, b: nat, distance: nat)
    requires 1 <= distance <= |out|
    ensures Copy(out, a + b, distance) == Copy(Copy(out, a, distance), b, distance)
    decreases a
  {
    if a > 0 { CopySplit(out + [out[|out| - distance]], a - 1, b, distance); }
  }

  /** The copy of part 5 of a length and distance pair: block copies where they do not
      overlap, else single bytes. */
  method CopyMatch(before: seq<byte>, length: nat, distance: nat) returns (out: seq<byte>)
    requires 1 <= distance <= |before|
    ensures out == Copy(before, length, distance)
  {
    out := before;
    var backward := |out| - distance;
    if distance < length {
      CopyFar(out, distance, distance);
      CopySplit(out, distance, length - distance, distance);
      out := out + out[backward..backward + distance];
      var forward := distance;
      assert Repeats(out, |before|, forward, distance) by {
        forall k | |before| <= k < |before| + forward ensures SameAt(out, k, distance) {
        }
      }
      while forward < length
        invariant distance <= forward <= length && |out| == |before| + forward && backward == |out| - 2 * distance
        invariant Repeats(out, |before|, forward, distance)
        invariant Copy(out, length - forward, distance) == Copy(before, length, distance)
      {
        assert SameAt(out, backward + distance, distance);
        ghost var shorter := out;
        out := out + [out[backward]];
        forall k | |before| <= k < |before| + forward + 1 ensures SameAt(out, k, distance) {
          assert k < |shorter| ==> SameAt(shorter, k, distance);
        }
        backward, forward := backward + 1, forward + 1;
      }
    } else {
      CopyFar(out, length, distance);
      out := out + out[backward..backward + length];
    }
  }

  // ---------------------------------------------------------------- symbols

  /** Parts 1 and 2 of a pair: the length. */
  method ReadLength(reader: BitReader, index: nat, ghost t: Token, ghost k: nat, ghost good: bool) returns (length: nat)
    requires index < 29 && 5 <= k && reader.Agrees(k) && t.Match?
    requires good ==> t.code.lengthCode == index && InTables(t)
    requires good ==> At(reader.stream, reader.bp, LsbBits(t.code.lengthExtra, LengthExtra(index)))
    modifies reader
    ensures reader.bp == old(reader.bp) + LengthExtra(index)
    ensures good ==> length == t.length
    ensures length == LENGTHBASE[index] + Window(reader.stream, old(reader.bp), LengthExtra(index))
  {
    LengthTable(index);
    length := ReadExtra(reader, LENGTHBASE[index], LENGTHEXTRA[index], t.code.lengthExtra, k, good);
  }

  /** Part 3: the distance code, at p. What follows it in the look-ahead is right as far as the
      bits are reliable. */
  method ReadDistanceCode(reader: BitReader, tree: Tree, ghost ls: seq<nat>, ghost i: nat, ghost p: nat, ghost good: bool)
      returns (code: nat)
    requires reader.Valid() && TreeFor(tree, ls) && reader.bp == p
    requires good ==> Codes(ls, i) && At(reader.stream, p, Codeword(ls, i))
    modifies reader
    ensures p < reader.bp <= p + 15 && reader.Agrees(Reliable(p) - (reader.bp - p))
    ensures reader.buffer == Shr(LookAhead32(reader.data, p), reader.bp - p)
    ensures good ==> code == i
    ensures code < 30 ==> Codes(ls, code) && Shows(reader.stream, p, Codeword(ls, code)) && reader.bp == p + ls[code]
  {
    var _ := reader.EnsureBits32(28);
    code := ReadSymbol(reader, tree, ls, i, Reliable(p), good);
  }

  /** Part 4: the distance. */
  method ReadDistance(reader: BitReader, index: nat, ghost k: nat) returns (distance: nat)
    requires index < 30 && reader.Agrees(k)
    modifies reader
    ensures reader.bp == old(reader.bp) + DistanceExtra(index) && distance >= 1
    ensures distance == DISTANCEBASE[index] + Low(old(reader.buffer), DistanceExtra(index))
  {
    DistanceTable(index);
    DistanceAtLeastOne(index);
    distance := ReadExtra(reader, DISTANCEBASE[index], DISTANCEEXTRA[index], 0, k, false);
  }

  /** A match of this length and distance was copied, or the distance is too long. */
  ghost predicate Taken(error: nat, out: seq<byte>, before: seq<byte>, length: nat, distance: nat) {
    distance >= 1 && if distance > |before| then error == 52 else error == 0 && out == Copy(before, length, distance)
  }

  /** Parts 4 and 5: the distance, and the copy. */
  method TakeDistance(before: seq<byte>, reader: BitReader, length: nat, code: nat, ghost k: nat)
      returns (error: nat, out: seq<byte>)
    requires code < 30 && reader.Agrees(k)
    modifies reader
    ensures error in {0, 52} && before <= out
    ensures Taken(error, out, before, length, DISTANCEBASE[code] + Low(old(reader.buffer), DistanceExtra(code)))
    ensures reader.bp == old(reader.bp) + DistanceExtra(code)
  {
    error, out := 0, before;
    var distance := ReadDistance(reader, code, k);
    if distance > |out| { return 52, before; }
    out := CopyMatch(before, length, distance);
    CopyKeeps(before, length, distance);
  }

  /** Parts 3 to 5, at p. The distance is the one that the look-ahead shows. */
  method FinishPair(before: seq<byte>, reader: BitReader, tree: Tree, length: nat, ghost ls: seq<nat>, ghost i: nat,
                    ghost p: nat, ghost good: bool) returns (error: nat, out: seq<byte>, ghost code: nat)
    requires reader.Valid() && TreeFor(tree, ls) && reader.bp == p
    requires good ==> i < 30 && Codes(ls, i) && At(reader.stream, p, Codeword(ls, i))
    modifies reader
    ensures error in {0, 16, 18, 52} && before <= out && reader.bp > p
    ensures good ==> code == i && error in {0, 52}
    ensures error in {0, 52} ==> PairTaken(reader.data, ls, code, p, reader.bp, length, before, error, out)
  {
    var symbol := ReadDistanceCode(reader, tree, ls, i, p, good);
    code := symbol;
    if symbol > 29 {
      return if symbol <= 31 then 18 else 16, before, code;
    }
    ghost var q := reader.bp;
    error, out := TakeDistance(before, reader, length, symbol, Reliable(p) - (q - p));
  }

  /** The distance code at p was read, and what follows it up to q, and a match was copied. */
  ghost predicate PairTaken(data: seq<byte>, ls: seq<nat>, code: nat, p: nat, q: nat, length: nat, before: seq<byte>, error: nat, out: seq<byte>) {
    code < 30 && Codes(ls, code) && Shows(StreamBits(data), p, Codeword(ls, code)) && q == p + ls[code] + DistanceExtra(code) &&
    Taken(error, out, before, length, DistanceSeen(data, ls, code, p))
  }

  /** The rest of a length and distance pair after its length code. */
  method ReadPair(before: seq<byte>, reader: BitReader, index: nat, tree: Tree, ghost c: Coding, ghost t: Token, ghost k: nat, ghost good: bool)
      returns (error: nat, out: seq<byte>, ghost found: Token)
    requires reader.Valid() && TreeFor(tree, c.d) && index < 29 && 5 <= k && reader.Agrees(k) && t.Match?
    requires Codes(c.ll, FIRST_LENGTH_CODE_INDEX + index)
    requires good ==> Sendable(c, t) && InTables(t) && t.code.lengthCode == index
    requires good ==> At(reader.stream, reader.bp, RestBits(c, t))
    modifies reader
    ensures error in {0, 16, 18, 52} && before <= out && reader.bp > old(reader.bp)
    ensures good ==> Taken(error, out, before, t.length, SeenDistance(reader.data, c, t, old(reader.bp)))
    ensures good ==> reader.bp == old(reader.bp) + |RestBits(c, t)|
    ensures error == 0 ==> PairSeen(reader.data, c, old(reader.bp), reader.bp, index, found, before, out)
  {
    ghost var s, start := reader.stream, reader.bp;
    ghost var p := start + LengthExtra(index);
    if good { RestParts(s, start, p, c, t, index); }
    var length := ReadLength(reader, index, t, k, good);
    ghost var code;
    error, out, code := FinishPair(before, reader, tree, length, c.d, t.code.distanceCode, p, good);
    found := t;
    if good { GoodPair(reader.data, c, t, start, p, reader.bp, length, before, error, out); }
    if error == 0 { found := PairFound(reader.data, c, start, p, reader.bp, index, code, length, before, out); }
  }

  lemma {:induction false} RestParts(s: seq<bit>, p: nat, q: nat, c: Coding, t: Token, index: nat)
    requires t.Match? && Sendable(c, t) && At(s, p, RestBits(c, t)) && index == t.code.lengthCode && q == p + LengthExtra(index)
    ensures At(s, p, LsbBits(t.code.lengthExtra, LengthExtra(index))) && At(s, q, Codeword(c.d, t.code.distanceCode))
  {
    var m := t.code;
    var extra, word := LsbBits(m.distanceExtra, DistanceExtra(m.distanceCode)), Codeword(c.d, m.distanceCode);
    AtSplit(s, p, LsbBits(m.lengthExtra, LengthExtra(m.lengthCode)), word + extra);
    AtSplit(s, q, word, extra);
  }

  lemma {:induction false} GoodPair(data: seq<byte>, c: Coding, t: Token, start: nat, p: nat, end: nat, length: nat,
                                    before: seq<byte>, error: nat, out: seq<byte>)
    requires t.Match? && Sendable(c, t) && p == start + LengthExtra(t.code.lengthCode) && length == t.length
    requires PairTaken(data, c.d, t.code.distanceCode, p, end, length, before, error, out)
    ensures Taken(error, out, before, t.length, SeenDistance(data, c, t, start)) && end == start + |RestBits(c, t)|
  {
  }

  lemma {:induction false} PairFound(data: seq<byte>, c: Coding, start: nat, p: nat, end: nat, index: nat, code: nat, length: nat,
                                     before: seq<byte>, out: seq<byte>) returns (t: Token)
    requires index < 29 && Codes(c.ll, FIRST_LENGTH_CODE_INDEX + index) && p == start + LengthExtra(index)
    requires length == LENGTHBASE[index] + Window(StreamBits(data), start, LengthExtra(index))
    requires PairTaken(data, c.d, code, p, end, length, before, 0, out)
    ensures PairSeen(data, c, start, end, index, t, before, out)
  {
    t := PairIs(c, StreamBits(data), start, index, code, LengthExtra(index), DistanceExtra(code));
    PairSeenIs(data, c, start, p, end, index, code, t, before, out);
  }

  lemma {:induction false} PairSeenIs(data: seq<byte>, c: Coding, start: nat, p: nat, end: nat, index: nat, code: nat, t: Token,
                                      before: seq<byte>, out: seq<byte>)
    requires PairSent(c, StreamBits(data), start, end, index, t) && p == start + LengthExtra(index) && t.code.distanceCode == code
    requires PairTaken(data, c.d, code, p, end, t.length, before, 0, out)
    ensures PairSeen(data, c, start, end, index, t, before, out)
  {
  }

  // ---------------------------------------------------------------- blocks

  /** The symbol that comes next: that of the first token, or the end code. */
  ghost function NextSymbol(tokens: seq<Token>): nat {
    if tokens == [] then END_CODE
    else if tokens[0].Literal? then tokens[0].value
    else FIRST_LENGTH_CODE_INDEX + tokens[0].code.lengthCode
  }

  ghost function AnyMatch(tokens: seq<Token>): (t: Token)
    ensures t.Match? && (tokens != [] && tokens[0].Match? ==> t == tokens[0])
  {
    if tokens != [] && tokens[0].Match? then tokens[0] else Match(0, 0, PairCode(0, 0, 0, 0))
  }

  /** The trees are for the coding, and the tokens and the end code follow at p. */
  ghost predicate Follows(s: seq<bit>, p: nat, c: Coding, tokens: seq<Token>, pos: nat) {
    Codes(c.ll, END_CODE) && AllSendable(c, tokens) && AllInTables(tokens) &&
    TokensOk(tokens, pos, MAX_DISTANCE) && At(s, p, DataBits(c, tokens))
  }

  lemma {:induction false} NextFollows(s: seq<bit>, p: nat, c: Coding, tokens: seq<Token>, pos: nat)
    requires Follows(s, p, c, tokens, pos)
    ensures Codes(c.ll, NextSymbol(tokens)) && At(s, p, Codeword(c.ll, NextSymbol(tokens)))
    ensures tokens != [] ==> Sendable(c, tokens[0]) && InTables(tokens[0]) && TokenOk(tokens[0], pos, MAX_DISTANCE)
    ensures tokens != [] && tokens[0].Match? ==>
      At(s, p + c.ll[NextSymbol(tokens)], RestBits(c, tokens[0])) &&
      |TokenBits(c, tokens[0])| == c.ll[NextSymbol(tokens)] + |RestBits(c, tokens[0])|
  {
    if tokens != [] {
      TailFollows(s, p, c, tokens, pos, tokens[1..], p + |TokenBits(c, tokens[0])|, pos + tokens[0].Size());
      if tokens[0].Match? {
        AtSplit(s, p, Codeword(c.ll, NextSymbol(tokens)), RestBits(c, tokens[0]));
      }
    }
  }

  lemma {:induction false} TailFollows(s: seq<bit>, p: nat, c: Coding, tokens: seq<Token>, pos: nat,
                                       rest: seq<Token>, q: nat, next: nat)
    requires Follows(s, p, c, tokens, pos) && tokens != [] && rest == tokens[1..]
    requires q == p + |TokenBits(c, tokens[0])| && next == pos + tokens[0].Size()
    ensures At(s, p, TokenBits(c, tokens[0])) && q <= |s| && InTables(tokens[0])
    ensures Follows(s, q, c, rest, next)
  {
    AtSplit(s, p, TokenBits(c, tokens[0]), DataBits(c, rest));
    AllButFirst(tokens);
    TailGood(c, tokens, pos, rest, next);
    FollowsIs(s, q, c, rest, next);
  }

  lemma {:induction false} TailGood(c: Coding, tokens: seq<Token>, pos: nat, rest: seq<Token>, next: nat)
    requires AllSendable(c, tokens) && TokensOk(tokens, pos, MAX_DISTANCE)
    requires tokens != [] && rest == tokens[1..] && next == pos + tokens[0].Size()
    ensures AllSendable(c, rest) && TokensOk(rest, next, MAX_DISTANCE)
  {
  }

  lemma {:induction false} FollowsIs(s: seq<bit>, p: nat, c: Coding, tokens: seq<Token>, pos: nat)
    requires Codes(c.ll, END_CODE) && AllSendable(c, tokens) && AllInTables(tokens)
    requires TokensOk(tokens, pos, MAX_DISTANCE) && At(s, p, DataBits(c, tokens))
    ensures Follows(s, p, c, tokens, pos)
  {
  }

  /** One round of the loop of inflateHuffmanBlock, up to its check of the bit pointer. */
  method ReadToken(before: seq<byte>, reader: BitReader, ll: Tree, d: Tree, ghost c: Coding, ghost tokens: seq<Token>, ghost good: bool)
      returns (error: nat, out: seq<byte>, end: bool, ghost found: Token)
    requires reader.Valid() && TreeFor(ll, c.ll) && TreeFor(d, c.d)
    requires good ==> Follows(reader.stream, reader.bp, c, tokens, |before|)
    modifies reader
    ensures error in {0, 16, 18, 52} && before <= out && reader.bp > old(reader.bp)
    ensures good && tokens == [] ==> error == 0 && end && out == before && reader.bp == old(reader.bp) + c.ll[END_CODE]
    ensures good && tokens != [] ==> Took(reader.data, c, tokens[0], old(reader.bp), reader.bp, before, error, end, out)
    ensures error == 0 ==> RoundSeen(reader.data, c, old(reader.bp), reader.bp, end, found, before, out)
    ensures EndAt(c, reader.stream, old(reader.bp)) ==> error == 0 && end
  {
    var _ := reader.EnsureBits25(20);
    ghost var p := reader.bp;
    if good { NextFollows(reader.stream, p, c, tokens, |before|); }
    var code := ReadSymbol(reader, ll, c.ll, NextSymbol(tokens), 25, good);
    error, out, end, found := TakeSymbol(before, reader, code, d, c, tokens, p, 25 - (reader.bp - p), good);
  }

  /** The token was read from p to q; it gave what it stands for exactly if its distance was
      read right. */
  ghost predicate Took(data: seq<byte>, c: Coding, t: Token, p: nat, q: nat, before: seq<byte>, error: nat, end: bool, out: seq<byte>) {
    Sendable(c, t) && TokenOk(t, |before|, MAX_DISTANCE) && q == p + |TokenBits(c, t)| && !end &&
    if Right(data, c, t, p, before) then error == 0 && out == Apply(before, t)
    else error != 0 || Strays(out, Apply(before, t))
  }

  lemma {:induction false} TookLiteral(data: seq<byte>, c: Coding, t: Token, p: nat, q: nat, before: seq<byte>, out: seq<byte>)
    requires Sendable(c, t) && t.Literal? && q == p + |TokenBits(c, t)| && out == Apply(before, t)
    ensures Took(data, c, t, p, q, before, 0, false, out)
  {
  }

  lemma {:induction false} TookMatch(data: seq<byte>, c: Coding, t: Token, p: nat, m: nat, q: nat, before: seq<byte>, error: nat, out: seq<byte>)
    requires t.Match? && Sendable(c, t) && TokenOk(t, |before|, MAX_DISTANCE)
    requires m == p + c.ll[FIRST_LENGTH_CODE_INDEX + t.code.lengthCode] && q == p + |TokenBits(c, t)|
    requires Taken(error, out, before, t.length, SeenDistance(data, c, t, m))
    ensures Took(data, c, t, p, q, before, error, false, out)
  {
    if error == 0 && out != Apply(before, t) { StraysNow(out, Apply(before, t)); }
  }

  /** Which token the symbol belongs to. */
  lemma {:induction false} SymbolMeans(s: seq<bit>, p: nat, c: Coding, tokens: seq<Token>, before: seq<byte>, code: nat)
    requires Follows(s, p, c, tokens, |before|) && code == NextSymbol(tokens)
    ensures code <= 255 ==>
      tokens != [] && TokenOk(tokens[0], |before|, MAX_DISTANCE) && Apply(before, tokens[0]) == before + [code] &&
      Sendable(c, tokens[0]) && |TokenBits(c, tokens[0])| == c.ll[code]
    ensures code == END_CODE <==> tokens == []
    ensures code > END_CODE ==> tokens != [] && code <= LAST_LENGTH_CODE_INDEX
  {
    if tokens != [] { FirstToken(c, tokens, before, code); }
  }

  lemma {:induction false} FirstToken(c: Coding, tokens: seq<Token>, before: seq<byte>, code: nat)
    requires tokens != [] && AllSendable(c, tokens) && TokensOk(tokens, |before|, MAX_DISTANCE) && code == NextSymbol(tokens)
    ensures TokenOk(tokens[0], |before|, MAX_DISTANCE) && Sendable(c, tokens[0])
    ensures if tokens[0].Literal?
      then code <= 255 && Apply(before, tokens[0]) == before + [code] && |TokenBits(c, tokens[0])| == c.ll[code]
      else END_CODE < code <= LAST_LENGTH_CODE_INDEX
  {
  }

  /** What the symbol stands for. */
  method TakeSymbol(before: seq<byte>, reader: BitReader, code: nat, d: Tree,
                    ghost c: Coding, ghost tokens: seq<Token>, ghost p: nat, ghost k: nat, ghost good: bool)
      returns (error: nat, out: seq<byte>, end: bool, ghost found: Token)
    requires reader.Valid() && TreeFor(d, c.d) && p < reader.bp && 5 <= k && reader.Agrees(k)
    requires good ==> Follows(reader.stream, p, c, tokens, |before|)
    requires good ==> code == NextSymbol(tokens) && reader.bp == p + c.ll[code]
    requires SymbolSeen(c.ll, reader.stream, p, reader.bp, code)
    modifies reader
    ensures error in {0, 16, 18, 52} && before <= out && reader.bp >= old(reader.bp)
    ensures good && tokens == [] ==> error == 0 && end && out == before && reader.bp == p + c.ll[END_CODE]
    ensures good && tokens != [] ==> Took(reader.data, c, tokens[0], p, reader.bp, before, error, end, out)
    ensures error == 0 ==> RoundSeen(reader.data, c, p, reader.bp, end, found, before, out)
    ensures EndAt(c, reader.stream, p) ==> error == 0 && end
  {
    error, out, end := 0, before, false;
    found := Literal(0);
    ghost var m := reader.bp;
    if good { SymbolMeans(reader.stream, p, c, tokens, before, code); }
    SymbolIsCode(c, reader.stream, p, m, code);
    if code <= 255 {
      out := out + [code];
      if good { TookLiteral(reader.data, c, tokens[0], p, m, before, out); }
      found := LiteralIs(reader.data, c, p, code, before, out);
    } else if FIRST_LENGTH_CODE_INDEX <= code <= LAST_LENGTH_CODE_INDEX {
      error, out, found := TakePair(before, reader, code - FIRST_LENGTH_CODE_INDEX, d, c, tokens, p, k, good);
    } else if code == END_CODE {
      end := true;
    } else {
      error := 16;
    }
  }

  /** A symbol in the alphabet was read; no other can be the end code. */
  lemma {:induction false} SymbolIsCode(c: Coding, s: seq<bit>, p: nat, q: nat, code: nat)
    requires SymbolSeen(c.ll, s, p, q, code)
    ensures code <= LAST_LENGTH_CODE_INDEX ==> Codes(c.ll, code) && Shows(s, p, Codeword(c.ll, code)) && q == p + c.ll[code]
    ensures EndAt(c, s, p) ==> code == END_CODE
  {
  }

  /** The symbol is a length code. */
  method TakePair(before: seq<byte>, reader: BitReader, index: nat, d: Tree,
                  ghost c: Coding, ghost tokens: seq<Token>, ghost p: nat, ghost k: nat, ghost good: bool)
      returns (error: nat, out: seq<byte>, ghost found: Token)
    requires reader.Valid() && TreeFor(d, c.d) && p < reader.bp && 5 <= k && reader.Agrees(k) && index < 29
    requires good ==> Follows(reader.stream, p, c, tokens, |before|) && NextSymbol(tokens) == FIRST_LENGTH_CODE_INDEX + index
    requires Codes(c.ll, FIRST_LENGTH_CODE_INDEX + index) && reader.bp == p + c.ll[FIRST_LENGTH_CODE_INDEX + index]
    requires Shows(reader.stream, p, Codeword(c.ll, FIRST_LENGTH_CODE_INDEX + index))
    modifies reader
    ensures error in {0, 16, 18, 52} && before <= out && reader.bp >= old(reader.bp)
    ensures good ==> tokens != [] && Took(reader.data, c, tokens[0], p, reader.bp, before, error, false, out)
    ensures error == 0 ==> RoundSeen(reader.data, c, p, reader.bp, false, found, before, out)
  {
    ghost var m := reader.bp;
    if good { NextFollows(reader.stream, p, c, tokens, |before|); }
    error, out, found := ReadPair(before, reader, index, d, c, AnyMatch(tokens), k, good);
    if good { TookMatch(reader.data, c, tokens[0], p, m, reader.bp, before, error, out); }
    if error == 0 { MatchIs(reader.data, c, p, m, reader.bp, found, index, before, out); }
  }

  /** A round read the end code or one token. */
  ghost predicate RoundSeen(data: seq<byte>, c: Coding, p: nat, q: nat, end: bool, t: Token, before: seq<byte>, out: seq<byte>) {
    if end then out == before && EndAt(c, StreamBits(data), p) && q == p + c.ll[END_CODE]
    else TokenSeen(data, c, p, q, t, before, out)
  }

  /** The tokens still to be read take the output to goal and the reader to stop. */
  ghost predicate Remaining(s: seq<bit>, p: nat, c: Coding, rest: seq<Token>, out: seq<byte>, goal: seq<byte>, stop: nat) {
    p <= stop && Follows(s, p, c, rest, |out|) && Replay(out, rest) == goal && p + |DataBits(c, rest)| == stop
  }

  lemma {:induction false} RemainingNext(s: seq<bit>, p: nat, q: nat, c: Coding, tokens: seq<Token>, rest: seq<Token>,
                                         before: seq<byte>, out: seq<byte>, goal: seq<byte>, stop: nat)
    requires Remaining(s, p, c, tokens, before, goal, stop) && tokens != [] && rest == tokens[1..]
    requires Sendable(c, tokens[0]) && q == p + |TokenBits(c, tokens[0])|
    requires TokenOk(tokens[0], |before|, MAX_DISTANCE) && out == Apply(before, tokens[0])
    ensures Remaining(s, q, c, rest, out, goal, stop) && q <= |s|
  {
    TailFollows(s, p, c, tokens, |before|, rest, q, |out|);
    RemainingIs(s, q, c, rest, out, goal, stop);
  }

  lemma {:induction false} RemainingEnd(s: seq<bit>, p: nat, c: Coding, out: seq<byte>, goal: seq<byte>, stop: nat)
    requires Remaining(s, p, c, [], out, goal, stop)
    ensures out == goal && p + c.ll[END_CODE] == stop
  {
  }

  lemma {:induction false} RemainingIs(s: seq<bit>, p: nat, c: Coding, rest: seq<Token>, out: seq<byte>, goal: seq<byte>, stop: nat)
    requires Follows(s, p, c, rest, |out|) && Replay(out, rest) == goal && p + |DataBits(c, rest)| == stop
    ensures Remaining(s, p, c, rest, out, goal, stop)
  {
  }

  /** Where the decoder stands: right says whether all tokens are read right. If lost, a
      wrong distance has been used; else what remains takes the output to goal. */
  ghost predicate Track(data: seq<byte>, p: nat, c: Coding, rest: seq<Token>, out: seq<byte>, goal: seq<byte>, stop: nat,
                        right: bool, lost: bool) {
    if lost then !right && Strays(out, goal)
    else Remaining(StreamBits(data), p, c, rest, out, goal, stop) && (right <==> RightFrom(data, c, rest, p, out))
  }

  /** What a round leads to. */
  ghost predicate Tracked(data: seq<byte>, q: nat, c: Coding, rest: seq<Token>, error: nat, end: bool, out: seq<byte>,
                          goal: seq<byte>, stop: nat, right: bool, lost: bool) {
    if error != 0 then !right
    else if end then if right then out == goal && q == stop else Strays(out, goal)
    else Track(data, q, c, rest, out, goal, stop, right, lost) && (right ==> q <= 8 * |data|)
  }

  lemma {:induction false} EndTracked(data: seq<byte>, p: nat, q: nat, c: Coding, tokens: seq<Token>, out: seq<byte>,
                                      goal: seq<byte>, stop: nat, right: bool)
    requires Track(data, p, c, tokens, out, goal, stop, right, false) && tokens == [] && q == p + c.ll[END_CODE]
    ensures Tracked(data, q, c, tokens, 0, true, out, goal, stop, right, false)
  {
    RemainingEnd(StreamBits(data), p, c, out, goal, stop);
  }

  lemma {:induction false} LostTracked(data: seq<byte>, q: nat, c: Coding, rest: seq<Token>, error: nat, end: bool,
                                       before: seq<byte>, out: seq<byte>, goal: seq<byte>, stop: nat, right: bool)
    requires !right && Strays(before, goal) && before <= out
    ensures Tracked(data, q, c, rest, error, end, out, goal, stop, right, true)
  {
    StraysOn(before, goal, out, goal);
  }

  lemma {:induction false} TokenTracked(data: seq<byte>, p: nat, q: nat, c: Coding, tokens: seq<Token>, rest: seq<Token>,
                                        error: nat, end: bool, before: seq<byte>, out: seq<byte>, goal: seq<byte>, stop: nat,
                                        right: bool) returns (lost: bool)
    requires Track(data, p, c, tokens, before, goal, stop, right, false) && tokens != [] && rest == tokens[1..]
    requires Took(data, c, tokens[0], p, q, before, error, end, out) && before <= out
    ensures Tracked(data, q, c, rest, error, end, out, goal, stop, right, lost)
  {
    var s, t := StreamBits(data), tokens[0];
    var next := Apply(before, t);
    RemainingNext(s, p, q, c, tokens, rest, before, next, goal, stop);
    RightNext(data, p, q, c, tokens, rest, before, next, goal, stop);
    lost := !Right(data, c, t, p, before);
    if lost && error == 0 {
      RemainingGoal(s, q, c, rest, next, goal, stop);
      StraysOn(out, next, out, goal);
    }
  }

  lemma {:induction false} RightNext(data: seq<byte>, p: nat, q: nat, c: Coding, tokens: seq<Token>, rest: seq<Token>,
                                     before: seq<byte>, next: seq<byte>, goal: seq<byte>, stop: nat)
    requires Remaining(StreamBits(data), p, c, tokens, before, goal, stop) && tokens != [] && rest == tokens[1..]
    requires Sendable(c, tokens[0]) && q == p + |TokenBits(c, tokens[0])|
    requires TokenOk(tokens[0], |before|, MAX_DISTANCE) && next == Apply(before, tokens[0])
    ensures RightFrom(data, c, tokens, p, before) <==>
      Right(data, c, tokens[0], p, before) && RightFrom(data, c, rest, q, next)
  {
    TokenSizeIs(c, tokens[0]);
    RightFromCons(data, c, tokens, p, before, rest, q, next);
  }

  lemma {:induction false} RemainingGoal(s: seq<bit>, p: nat, c: Coding, rest: seq<Token>, out: seq<byte>, goal: seq<byte>, stop: nat)
    requires Remaining(s, p, c, rest, out, goal, stop)
    ensures out <= goal
  {
    ReplayKeeps(out, rest);
  }

  /** One round in terms of what remains. */
  method Round(before: seq<byte>, reader: BitReader, ll: Tree, d: Tree, ghost c: Coding, ghost tokens: seq<Token>,
               ghost goal: seq<byte>, ghost stop: nat, ghost right: bool, ghost astray: bool, ghost good: bool)
      returns (error: nat, out: seq<byte>, end: bool, ghost rest: seq<Token>, ghost lost: bool, ghost found: Token)
    requires reader.Valid() && TreeFor(ll, c.ll) && TreeFor(d, c.d)
    requires good ==> Track(reader.data, reader.bp, c, tokens, before, goal, stop, right, astray)
    modifies reader
    ensures error in {0, 16, 18, 52} && before <= out && reader.bp > old(reader.bp)
    ensures good ==> Tracked(reader.data, reader.bp, c, rest, error, end, out, goal, stop, right, lost)
    ensures error == 0 ==> RoundSeen(reader.data, c, old(reader.bp), reader.bp, end, found, before, out)
    ensures EndAt(c, reader.stream, old(reader.bp)) ==> error == 0 && end
  {
    rest, lost := if tokens == [] then [] else tokens[1..], astray;
    ghost var p := reader.bp;
    error, out, end, found := ReadToken(before, reader, ll, d, c, tokens, good && !astray);
    if good { lost := RoundTracked(reader.data, p, reader.bp, c, tokens, rest, error, end, before, out, goal, stop, right, astray); }
  }

  lemma {:induction false} RoundTracked(data: seq<byte>, p: nat, q: nat, c: Coding, tokens: seq<Token>, rest: seq<Token>,
                                        error: nat, end: bool, before: seq<byte>, out: seq<byte>, goal: seq<byte>, stop: nat,
                                        right: bool, astray: bool) returns (lost: bool)
    requires Track(data, p, c, tokens, before, goal, stop, right, astray) && before <= out
    requires rest == if tokens == [] then [] else tokens[1..]
    requires !astray && tokens == [] ==> error == 0 && end && out == before && q == p + c.ll[END_CODE]
    requires !astray && tokens != [] ==> Took(data, c, tokens[0], p, q, before, error, end, out)
    ensures Tracked(data, q, c, rest, error, end, out, goal, stop, right, lost)
  {
    lost := astray;
    if astray {
      LostTracked(data, q, c, rest, error, end, before, out, goal, stop, right);
    } else if tokens == [] {
      EndTracked(data, p, q, c, tokens, out, goal, stop, right);
    } else {
      lost := TokenTracked(data, p, q, c, tokens, rest, error, end, before, out, goal, stop, right);
    }
  }

  /** The tokens at p were decoded up to q: to what they stand for exactly if they are read
      right. */
  ghost predicate Decoded(data: seq<byte>, p: nat, q: nat, c: Coding, tokens: seq<Token>, before: seq<byte>, error: nat, out: seq<byte>) {
    AllSendable(c, tokens) && Codes(c.ll, END_CODE) && TokensOk(tokens, |before|, MAX_DISTANCE) &&
    if RightFrom(data, c, tokens, p, before) then error == 0 && out == Replay(before, tokens) && q == p + |DataBits(c, tokens)|
    else error != 0 || Strays(out, Replay(before, tokens))
  }

  lemma {:induction false} StartTrack(data: seq<byte>, p: nat, c: Coding, tokens: seq<Token>, before: seq<byte>)
      returns (goal: seq<byte>, stop: nat, right: bool)
    requires Follows(StreamBits(data), p, c, tokens, |before|)
    ensures Track(data, p, c, tokens, before, goal, stop, right, false) && Reached(data, p, c, tokens, before, goal, stop, right)
  {
    goal, stop, right := Replay(before, tokens), p + |DataBits(c, tokens)|, RightFrom(data, c, tokens, p, before);
  }

  /** What the decoder is to reach. */
  ghost predicate Reached(data: seq<byte>, p: nat, c: Coding, tokens: seq<Token>, before: seq<byte>, goal: seq<byte>, stop: nat, right: bool) {
    AllSendable(c, tokens) && Codes(c.ll, END_CODE) && TokensOk(tokens, |before|, MAX_DISTANCE) &&
    goal == Replay(before, tokens) && stop == p + |DataBits(c, tokens)| && (right <==> RightFrom(data, c, tokens, p, before))
  }

  /** The loop of inflateHuffmanBlock. */
  method DecodeTokens(before: seq<byte>, reader: BitReader, ll: Tree, d: Tree, ghost c: Coding, ghost tokens: seq<Token>, ghost good: bool)
      returns (error: nat, out: seq<byte>, ghost found: seq<Token>)
    requires reader.Valid() && TreeFor(ll, c.ll) && TreeFor(d, c.d) && EndShort(c) && reader.bp <= 8 * |reader.data|
    requires good ==> Follows(reader.stream, reader.bp, c, tokens, |before|)
    modifies reader
    ensures error in {0, 16, 18, 51, 52} && before <= out && reader.bp > old(reader.bp)
    ensures good ==> Decoded(reader.data, old(reader.bp), reader.bp, c, tokens, before, error, out)
    ensures error == 0 ==> DataSeen(reader.data, c, old(reader.bp), reader.bp, found, before, out)
    ensures EndAt(c, reader.stream, old(reader.bp)) ==> error == 0 && out == before
  {
    ghost var start := reader.bp;
    ghost var rest, lost := tokens, false;
    ghost var goal, stop, right := [], 0, false;
    if good { goal, stop, right := StartTrack(reader.data, start, c, tokens, before); }
    error, out, found := 0, before, [];
    NothingRead(reader.data, c, start, before);
    while true
      invariant reader.bp >= start && before <= out && reader.bp <= 8 * |reader.data|
      invariant good ==> Track(reader.data, reader.bp, c, rest, out, goal, stop, right, lost)
      invariant TokensSeen(reader.data, c, start, reader.bp, found, before, out)
      invariant EndAt(c, reader.stream, start) ==> reader.bp == start && out == before
      decreases 8 * |reader.data| - reader.bp
    {
      var end;
      ghost var t, p, sofar := Literal(0), reader.bp, out;
      error, out, end, rest, lost, t := Round(out, reader, ll, d, c, rest, goal, stop, right, lost, good);
      if error != 0 { return; }
      if end {
        EndRead(reader.data, c, start, p, reader.bp, found, before, out);
        return;
      }
      OneMoreRead(reader.data, c, start, p, reader.bp, found, before, sofar, t, out);
      found := found + [t];
      if reader.bp > 8 * |reader.data| { return 51, out, found; }
    }
  }

  ghost predicate EndShort(c: Coding) { Codes(c.ll, END_CODE) && c.ll[END_CODE] <= 15 }

  // ---------------------------------------------------------------- codes for whole alphabets

  /** The two codes have the same codewords. */
  ghost predicate Alike(a: seq<nat>, b: seq<nat>) {
    forall i: nat {:trigger Codes(a, i)} {:trigger Codes(b, i)} ::
      (Codes(a, i) <==> Codes(b, i)) && (Codes(a, i) ==> Codeword(a, i) == Codeword(b, i) && a[i] == b[i])
  }

  ghost predicate CodedAlike(c: Coding, e: Coding) { Alike(c.ll, e.ll) && Alike(c.d, e.d) }

  lemma {:induction false} PaddedAlike(ls: seq<nat>, n: nat)
    requires CanDecode(ls, 15) && |ls| <= n
    ensures Alike(ls, Padded(ls, n)) && Alike(Padded(ls, n), ls)
  {
    assert Decodable(ls, 15);
    DecodableKraft(ls, 15);
    PadCode(ls, Repeat(0, n - |ls|), 15);
  }

  lemma {:induction false} TokenAlike(c: Coding, e: Coding, t: Token)
    requires CodedAlike(c, e)
    ensures Sendable(e, t) <==> Sendable(c, t)
    ensures Sendable(c, t) ==> TokenBits(e, t) == TokenBits(c, t) && TokenSize(e, t) == TokenSize(c, t)
  {
    if t.Match? && Sendable(c, t) { SameMatch(c, e, t); }
  }

  /** Codings with the same two codewords send a match alike. */
  lemma {:induction false} SameMatch(c: Coding, e: Coding, t: Token)
    requires t.Match? && Sendable(c, t) && Sendable(e, t)
    requires var l := FIRST_LENGTH_CODE_INDEX + t.code.lengthCode; Codeword(e.ll, l) == Codeword(c.ll, l) && e.ll[l] == c.ll[l]
    requires var d := t.code.distanceCode; Codeword(e.d, d) == Codeword(c.d, d) && e.d[d] == c.d[d]
    ensures TokenBits(e, t) == TokenBits(c, t) && TokenSize(e, t) == TokenSize(c, t)
  {
  }

  lemma {:induction false} DataAlike(c: Coding, e: Coding, tokens: seq<Token>)
    requires CodedAlike(c, e)
    ensures AllSendable(e, tokens) <==> AllSendable(c, tokens)
    ensures Codes(e.ll, END_CODE) <==> Codes(c.ll, END_CODE)
    ensures AllSendable(c, tokens) && Codes(c.ll, END_CODE) ==> DataBits(e, tokens) == DataBits(c, tokens)
    decreases |tokens|
  {
    if tokens != [] {
      TokenAlike(c, e, tokens[0]);
      DataAlike(c, e, tokens[1..]);
    }
  }

  /** They show the same distance for a match. */
  lemma {:induction false} SeenAlike(data: seq<byte>, c: Coding, e: Coding, t: Token, p: nat)
    requires CodedAlike(c, e) && Sendable(c, t) && Sendable(e, t)
    ensures AsSeen(data, e, t, p) == AsSeen(data, c, t, p)
  {
  }

  lemma {:induction false} AllSeenAlike(data: seq<byte>, c: Coding, e: Coding, tokens: seq<Token>, p: nat)
    requires CodedAlike(c, e) && AllSendable(c, tokens) && AllSendable(e, tokens)
    ensures AllSeen(data, e, tokens, p) == AllSeen(data, c, tokens, p)
    decreases |tokens|
  {
    if tokens != [] {
      TokenAlike(c, e, tokens[0]);
      SeenAlike(data, c, e, tokens[0], p);
      AllSeenAlike(data, c, e, tokens[1..], p + TokenSize(c, tokens[0]));
    }
  }

  lemma {:induction false} RightAlike(data: seq<byte>, c: Coding, e: Coding, t: Token, p: nat, out: seq<byte>)
    requires CodedAlike(c, e) && Sendable(c, t) && Sendable(e, t) && TokenOk(t, |out|, MAX_DISTANCE)
    ensures Right(data, e, t, p, out) <==> Right(data, c, t, p, out)
  {
    SeenAlike(data, c, e, t, p);
  }

  lemma {:induction false} AllRightAlike(data: seq<byte>, c: Coding, e: Coding, tokens: seq<Token>, p: nat, out: seq<byte>)
    requires CodedAlike(c, e) && AllSendable(c, tokens) && AllSendable(e, tokens) && TokensOk(tokens, |out|, MAX_DISTANCE)
    ensures AllRight(data, e, tokens, p, out) <==> AllRight(data, c, tokens, p, out)
    decreases |tokens|
  {
    if tokens != [] {
      var t := tokens[0];
      var rest, q := tokens[1..], p + TokenSize(c, t);
      TokenAlike(c, e, t);
      AllRightAlike(data, c, e, rest, q, Apply(out, t));
      RightCons(data, c, tokens, p, out, rest, q, Apply(out, t));
      RightCons(data, e, tokens, p, out, rest, q, Apply(out, t));
      RightAlike(data, c, e, t, p, out);
    }
  }

  // ---------------------------------------------------------------- compressed blocks

  lemma {:induction false} FixedFollows(s: seq<bit>, p: nat, c: Coding, tokens: seq<Token>, pos: nat)
    requires IsFixed(c) && BlockOk(FixedBlock(tokens), pos) && At(s, p, BodyBits(FixedBlock(tokens), pos))
    ensures Follows(s, p, c, tokens, pos) && DataBits(c, tokens) == BodyBits(FixedBlock(tokens), pos)
  {
    FixedIs(c);
  }

  lemma {:induction false} HeaderAlike(h: Header, plain: Coding, c: Coding)
    requires h.Ok() && plain == Coding(h.LL(), h.D()) && CodesOf(h, c.ll, c.d)
    ensures CodedAlike(plain, c) && CodedAlike(c, plain)
  {
    PaddedAlike(plain.ll, NUM_LL);
    PaddedAlike(plain.d, NUM_D);
  }

  lemma {:induction false} DynamicFollows(s: seq<bit>, p: nat, h: Header, tokens: seq<Token>, pos: nat, c: Coding)
    requires BlockOk(DynamicBlock(h, tokens), pos) && At(s, p, BodyBits(DynamicBlock(h, tokens), pos)) && CodesOf(h, c.ll, c.d)
    ensures Follows(s, p + |HeaderBits(h)|, c, tokens, pos)
  {
    var plain := Coding(h.LL(), h.D());
    AtSplit(s, p, HeaderBits(h), DataBits(plain, tokens));
    HeaderAlike(h, plain, c);
    DataAlike(plain, c, tokens);
    FollowsIs(s, p + |HeaderBits(h)|, c, tokens, pos);
  }

  lemma {:induction false} HeaderFollows(s: seq<bit>, p: nat, h: Header, tokens: seq<Token>, pos: nat)
    requires BlockOk(DynamicBlock(h, tokens), pos) && At(s, p, BodyBits(DynamicBlock(h, tokens), pos))
    ensures h.Ok() && At(s, p, HeaderBits(h))
  {
    AtSplit(s, p, HeaderBits(h), DataBits(Coding(h.LL(), h.D()), tokens));
  }

  /** The body of the block at p was decoded up to q: to what it stands for exactly if its
      distances are read right. */
  ghost predicate BlockDecoded(data: seq<byte>, p: nat, q: nat, b: Block, before: seq<byte>, error: nat, out: seq<byte>) {
    BlockOk(b, |before|) &&
    if BlockRight(data, p, b, before) then error == 0 && out == UnpackBlock(before, b) && q == p + |BodyBits(b, |before|)|
    else error != 0 || Strays(out, UnpackBlock(before, b))
  }

  lemma {:induction false} FixedDecoded(data: seq<byte>, p: nat, q: nat, c: Coding, tokens: seq<Token>, before: seq<byte>,
                                        error: nat, out: seq<byte>)
    requires IsFixed(c) && Follows(StreamBits(data), p, c, tokens, |before|) && BlockOk(FixedBlock(tokens), |before|)
    requires Decoded(data, p, q, c, tokens, before, error, out)
    ensures error == 0 && BlockDecoded(data, p, q, FixedBlock(tokens), before, error, out)
  {
    FixedIs(c);
    FixedReadable(tokens, p);
    AllReadableRight(data, c, tokens, p, before);
    RightFromIs(data, c, tokens, p, before);
  }

  lemma {:induction false} DynamicDecoded(data: seq<byte>, p: nat, q: nat, h: Header, tokens: seq<Token>, c: Coding,
                                          before: seq<byte>, error: nat, out: seq<byte>)
    requires BlockOk(DynamicBlock(h, tokens), |before|) && CodesOf(h, c.ll, c.d)
    requires Decoded(data, p + |HeaderBits(h)|, q, c, tokens, before, error, out)
    ensures BlockDecoded(data, p, q, DynamicBlock(h, tokens), before, error, out)
  {
    var n, right := DynamicParts(data, p, h, tokens, c, before);
    BlockDecodedIs(data, p, q, DynamicBlock(h, tokens), before, error, out, Replay(before, tokens), n, right);
  }

  lemma {:induction false} DynamicParts(data: seq<byte>, p: nat, h: Header, tokens: seq<Token>, c: Coding, before: seq<byte>)
      returns (n: nat, right: bool)
    requires BlockOk(DynamicBlock(h, tokens), |before|) && CodesOf(h, c.ll, c.d)
    ensures AllSendable(c, tokens) && Codes(c.ll, END_CODE)
    ensures n == |BodyBits(DynamicBlock(h, tokens), |before|)| == |HeaderBits(h)| + |DataBits(c, tokens)|
    ensures UnpackBlock(before, DynamicBlock(h, tokens)) == Replay(before, tokens)
    ensures right <==> BlockRight(data, p, DynamicBlock(h, tokens), before)
    ensures right <==> RightFrom(data, c, tokens, p + |HeaderBits(h)|, before)
  {
    var plain, q := Coding(h.LL(), h.D()), p + |HeaderBits(h)|;
    HeaderAlike(h, plain, c);
    DataAlike(plain, c, tokens);
    n, right := |HeaderBits(h)| + |DataBits(c, tokens)|, RightFrom(data, plain, tokens, q, before);
    AllRightAlike(data, plain, c, tokens, q, before);
    RightFromIs(data, plain, tokens, q, before);
    RightFromIs(data, c, tokens, q, before);
  }

  lemma {:induction false} BlockDecodedIs(data: seq<byte>, p: nat, q: nat, b: Block, before: seq<byte>, error: nat,
                                          out: seq<byte>, goal: seq<byte>, n: nat, right: bool)
    requires BlockOk(b, |before|) && goal == UnpackBlock(before, b) && n == |BodyBits(b, |before|)|
    requires right <==> BlockRight(data, p, b, before)
    requires if right then error == 0 && out == goal && q == p + n else error != 0 || Strays(out, goal)
    ensures BlockDecoded(data, p, q, b, before, error, out)
  {
  }

  /** The end code of the fixed code stands at p. */
  ghost predicate FixedEnds(s: seq<bit>, p: nat) {
    forall c: Coding {:trigger EndAt(c, s, p)} :: IsFixed(c) ==> EndAt(c, s, p)
  }

  lemma {:induction false} ZerosEnd(s: seq<bit>, p: nat)
    requires Window(s, p, 7) == 0
    ensures FixedEnds(s, p)
  {
    FixedEnd();
    forall c: Coding | IsFixed(c) ensures EndAt(c, s, p) { FixedIs(c); }
  }

  /** The loop with the fixed trees. */
  method DecodeFixed(before: seq<byte>, reader: BitReader, ghost c: Coding, ghost tokens: seq<Token>, ghost good: bool)
      returns (error: nat, out: seq<byte>, ghost found: seq<Token>)
    requires reader.Valid() && reader.bp <= 8 * |reader.data| && IsFixed(c)
    requires good ==> Follows(reader.stream, reader.bp, c, tokens, |before|)
    modifies reader
    ensures before <= out && reader.bp >= old(reader.bp)
    ensures good ==> Decoded(reader.data, old(reader.bp), reader.bp, c, tokens, before, error, out)
    ensures error == 0 ==> DataSeen(reader.data, c, old(reader.bp), reader.bp, found, before, out)
    ensures EndAt(c, reader.stream, old(reader.bp)) ==> error == 0 && out == before
  {
    var treeLL, treeD := FixedTrees(c);
    error, out, found := DecodeTokens(before, reader, treeLL, treeD, c, tokens, good);
  }

  lemma {:induction false} FixedFound(data: seq<byte>, p: nat, q: nat, c: Coding, tokens: seq<Token>, before: seq<byte>, out: seq<byte>)
    requires IsFixed(c) && DataSeen(data, c, p, q, tokens, before, out)
    ensures BodyFound(data, p, q, FixedBlock(tokens), before, out)
  {
    FixedIs(c);
  }

  method InflateFixed(before: seq<byte>, reader: BitReader, ghost tokens: seq<Token>, ghost good: bool)
      returns (error: nat, out: seq<byte>, ghost found: Block)
    requires reader.Valid() && reader.bp <= 8 * |reader.data|
    requires good ==> BlockOk(FixedBlock(tokens), |before|)
    requires good ==> At(reader.stream, reader.bp, BodyBits(FixedBlock(tokens), |before|))
    modifies reader
    ensures before <= out && reader.bp >= old(reader.bp)
    ensures good ==> error == 0 && BlockDecoded(reader.data, old(reader.bp), reader.bp, FixedBlock(tokens), before, error, out)
    ensures error == 0 ==> TypeOf(found) == 1 && BodyFound(reader.data, old(reader.bp), reader.bp, found, before, out)
    ensures FixedEnds(reader.stream, old(reader.bp)) ==> error == 0 && out == before
  {
    ghost var c := FixedCoding();
    ghost var p := reader.bp;
    if good { FixedFollows(reader.stream, p, c, tokens, |before|); }
    ghost var read;
    error, out, read := DecodeFixed(before, reader, c, tokens, good);
    found := FixedBlock(read);
    if good { FixedDecoded(reader.data, p, reader.bp, c, tokens, before, error, out); }
    if error == 0 { FixedFound(reader.data, p, reader.bp, c, read, before, out); }
  }

  lemma {:induction false} HeaderEndShort(h: Header, c: Coding)
    requires CodesOf(h, c.ll, c.d)
    ensures EndShort(c)
  {
    assert Decodable(h.LL(), 15);
    DecodableKraft(h.LL(), 15);
    assert c.ll[END_CODE] == h.LL()[END_CODE];
  }

  /** The header at p, and the data up to q, are a dynamic block. */
  lemma {:induction false} DynamicFound(data: seq<byte>, p: nat, m: nat, q: nat, h: Header, c: Coding, tokens: seq<Token>,
                                        before: seq<byte>, out: seq<byte>)
    requires HeaderShown(StreamBits(data), p, m, h) && CodesOf(h, c.ll, c.d) && m <= 8 * |data|
    requires DataSeen(data, c, m, q, tokens, before, out)
    ensures BodyFound(data, p, q, DynamicBlock(h, tokens), before, out)
  {
    var plain := Coding(h.LL(), h.D());
    HeaderAlike(h, plain, c);
    DataSeenAlike(data, c, plain, m, q, tokens, before, out);
    ShowsAt(data, p, HeaderBits(h));
    HeaderAndData(data, p, m, q, h, plain, tokens, before, out);
  }

  lemma {:induction false} DataSeenAlike(data: seq<byte>, c: Coding, e: Coding, p: nat, q: nat, tokens: seq<Token>,
                                         before: seq<byte>, out: seq<byte>)
    requires CodedAlike(c, e) && DataSeen(data, c, p, q, tokens, before, out)
    ensures DataSeen(data, e, p, q, tokens, before, out)
  {
    DataAlike(c, e, tokens);
    AllSeenAlike(data, c, e, tokens, p);
  }

  lemma {:induction false} HeaderAndData(data: seq<byte>, p: nat, m: nat, q: nat, h: Header, c: Coding, tokens: seq<Token>,
                                         before: seq<byte>, out: seq<byte>)
    requires h.Ok() && c == Coding(h.LL(), h.D()) && At(Extended(data), p, HeaderBits(h)) && m == p + |HeaderBits(h)|
    requires DataSeen(data, c, m, q, tokens, before, out)
    ensures BodyFound(data, p, q, DynamicBlock(h, tokens), before, out)
  {
    var b, body := DynamicBlock(h, tokens), HeaderBits(h) + DataBits(c, tokens);
    AtSplit(Extended(data), p, HeaderBits(h), DataBits(c, tokens));
    DynamicBody(h, c, tokens, b, p);
    FoundFrom(data, p, m, q, b, c, tokens, before, out, body);
  }

  lemma {:induction false} DynamicBody(h: Header, c: Coding, tokens: seq<Token>, b: Block, p: nat)
    requires h.Ok() && c == Coding(h.LL(), h.D()) && AllSendable(c, tokens) && AllInTables(tokens) && b == DynamicBlock(h, tokens)
    ensures BlockShape(b) && BodyBits(b, 0) == HeaderBits(h) + DataBits(c, tokens)
    ensures CodingOf(b) == c && TokensStart(p, b) == p + |HeaderBits(h)|
  {
  }

  lemma {:induction false} FoundFrom(data: seq<byte>, p: nat, m: nat, q: nat, b: Block, c: Coding, tokens: seq<Token>,
                                     before: seq<byte>, out: seq<byte>, body: seq<bit>)
    requires !b.Stored? && BlockShape(b) && b.tokens == tokens && CodingOf(b) == c && TokensStart(p, b) == m
    requires BodyBits(b, 0) == body && At(Extended(data), p, body) && q == p + |body| <= 8 * |data| + c.ll[END_CODE]
    requires TokensGive(AllSeen(data, c, tokens, m), before, out)
    ensures BodyFound(data, p, q, b, before, out)
  {
  }

  method InflateDynamic(before: seq<byte>, reader: BitReader, ghost h: Header, ghost tokens: seq<Token>, ghost good: bool)
      returns (error: nat, out: seq<byte>, ghost found: Block)
    requires reader.Valid()
    requires good ==> BlockOk(DynamicBlock(h, tokens), |before|)
    requires good ==> At(reader.stream, reader.bp, BodyBits(DynamicBlock(h, tokens), |before|))
    modifies reader
    ensures before <= out && reader.bp >= old(reader.bp)
    ensures good ==> BlockDecoded(reader.data, old(reader.bp), reader.bp, DynamicBlock(h, tokens), before, error, out)
    ensures error == 0 ==> TypeOf(found) == 2 && BodyFound(reader.data, old(reader.bp), reader.bp, found, before, out)
  {
    ghost var p := reader.bp;
    if good { HeaderFollows(reader.stream, p, h, tokens, |before|); }
    var treeLL, treeD;
    ghost var header, ll, d;
    error, treeLL, treeD, header, ll, d := ReadTrees(reader, h, good);
    found := Stored([]);
    if error != 0 { return error, before, found; }
    ghost var c, m := Coding(ll, d), reader.bp;
    HeaderEndShort(header, c);
    if good { DynamicFollows(reader.stream, p, h, tokens, |before|, c); }
    ghost var read;
    error, out, read := DecodeTokens(before, reader, treeLL, treeD, c, tokens, good);
    found := DynamicBlock(header, read);
    if good { DynamicDecoded(reader.data, p, reader.bp, h, tokens, c, before, error, out); }
    if error == 0 { DynamicFound(reader.data, p, m, reader.bp, header, c, read, before, out); }
  }

  /** inflateHuffmanBlock. */
  method InflateHuffmanBlock(before: seq<byte>, reader: BitReader, btype: nat, ghost b: Block, ghost good: bool)
      returns (error: nat, out: seq<byte>, ghost found: Block)
    requires reader.Valid() && 1 <= btype <= 2 && reader.bp <= 8 * |reader.data|
    requires good ==> BlockOk(b, |before|) && btype == TypeOf(b)
    requires good ==> At(reader.stream, reader.bp, BodyBits(b, |before|))
    modifies reader
    ensures before <= out && reader.bp >= old(reader.bp)
    ensures good ==> BlockDecoded(reader.data, old(reader.bp), reader.bp, b, before, error, out)
    ensures error == 0 ==> TypeOf(found) == btype && BodyFound(reader.data, old(reader.bp), reader.bp, found, before, out)
    ensures btype == 1 && FixedEnds(reader.stream, old(reader.bp)) ==> error == 0 && out == before
  {
    if btype == 1 {
      error, out, found := InflateFixed(before, reader, if good then b.tokens else [], good);
    } else {
      ghost var h, tokens := Header(0, 0, 0, [], []), [];
      if good { h, tokens := b.header, b.tokens; }
      error, out, found := InflateDynamic(before, reader, h, tokens, good);
    }
  }

  // ---------------------------------------------------------------- stored blocks

  lemma {:induction false} StreamBitsInjective(a: seq<byte>, b: seq<byte>)
    requires |a| == |b| && StreamBits(a) == StreamBits(b)
    ensures a == b
  {
    if a != [] {
      var x, y := StreamBits(a), StreamBits(b);
      assert x[..8] == LsbBits(a[0], 8) && x[8..] == StreamBits(a[1..]);
      assert y[..8] == LsbBits(b[0], 8) && y[8..] == StreamBits(b[1..]);
      ValLsbBits(a[0], 8);
      ValLsbBits(b[0], 8);
      Pow2Values();
      LowSmall(a[0], 8);
      LowSmall(b[0], 8);
      StreamBitsInjective(a[1..], b[1..]);
    }
  }

  /** At a byte boundary the stream continues with the bits of the bytes b exactly if the
      data continues with b. */
  lemma {:induction false} BytesAt(data: seq<byte>, k: nat, b: seq<byte>)
    ensures At(StreamBits(data), 8 * k, StreamBits(b)) <==> k + |b| <= |data| && data[k..k + |b|] == b
  {
    if k + |b| <= |data| {
      StreamBitsDrop(data, k);
      StreamBitsDrop(data[k..], |b|);
      assert data[k..][..|b|] == data[k..k + |b|];
      assert StreamBits(data)[8 * k..][..8 * |b|] == StreamBits(data[k..k + |b|]);
      if At(StreamBits(data), 8 * k, StreamBits(b)) { StreamBitsInjective(data[k..k + |b|], b); }
    }
  }

  lemma {:induction false} StoredParts(data: seq<byte>, k: nat, b: seq<byte>)
    requires |b| < 65536 && k + 4 + |b| <= |data| && data[k..k + 4 + |b|] == StoredBytes(b)
    ensures data[k] + Shl(data[k + 1], 8) == |b| && data[k + 2] + Shl(data[k + 3], 8) == 65535 - |b|
    ensures data[k + 4..k + 4 + |b|] == b
  {
    var x := data[k..k + 4 + |b|];
    assert data[k] == x[0] && data[k + 1] == x[1] && data[k + 2] == x[2] && data[k + 3] == x[3];
    ShlIsMul(data[k + 1], 8);
    ShlIsMul(data[k + 3], 8);
    Pow2Values();
    assert data[k + 4..k + 4 + |b|] == x[4..];
  }

  lemma {:induction false} StoredWhole(data: seq<byte>, k: nat, len: nat)
    requires k + 4 + len <= |data| && len == data[k] + Shl(data[k + 1], 8)
    requires data[k + 2] + Shl(data[k + 3], 8) == 65535 - len
    ensures len < 65536 && data[k..k + 4 + len] == StoredBytes(data[k + 4..k + 4 + len])
  {
    ShlIsMul(data[k + 1], 8);
    ShlIsMul(data[k + 3], 8);
    Pow2Values();
    var b := data[k + 4..k + 4 + len];
    assert data[k..k + 4 + len] == [data[k], data[k + 1], data[k + 2], data[k + 3]] + b;
    TwoBytes(data[k], data[k + 1], len);
    TwoBytes(data[k + 2], data[k + 3], 65535 - len);
  }

  lemma {:induction false} TwoBytes(a: byte, b: byte, n: int)
    requires n == a + b * 256
    ensures 0 <= n < 65536 && a == n % 256 && b == n / 256
  {
  }

  lemma {:induction false} StoredGiven(data: seq<byte>, k: nat, b: seq<byte>)
    requires |b| < 65536 && At(StreamBits(data), 8 * k, StreamBits(StoredBytes(b)))
    ensures k + 4 + |b| <= |data| && data[k + 4..k + 4 + |b|] == b
    ensures data[k] + Shl(data[k + 1], 8) == |b| && data[k + 2] + Shl(data[k + 3], 8) == 65535 - |b|
  {
    BytesAt(data, k, StoredBytes(b));
    StoredParts(data, k, b);
  }

  lemma {:induction false} StoredTakenAt(data: seq<byte>, k: nat, len: nat)
    requires k + 4 + len <= |data| && len == data[k] + Shl(data[k + 1], 8)
    requires data[k + 2] + Shl(data[k + 3], 8) == 65535 - len
    ensures len < 65536 && At(StreamBits(data), 8 * k, StreamBits(StoredBytes(data[k + 4..k + 4 + len])))
  {
    StoredWhole(data, k, len);
    BytesAt(data, k, StoredBytes(data[k + 4..k + 4 + len]));
  }

  /** inflateNoCompression. It refuses a block whose length field is the last thing in the
      input, which is a stored block of no bytes; otherwise it takes exactly the stored
      blocks. */
  method InflateNoCompression(before: seq<byte>, reader: BitReader, ignoreNlen: bool, ghost b: seq<byte>)
      returns (error: nat, out: seq<byte>)
    requires reader.Valid()
    modifies reader
    ensures error in {0, 21, 23, 52} && before <= out && reader.bp >= old(reader.bp)
    ensures |reader.data| <= 4 ==> error == 52
    ensures |b| < 65536 && At(reader.stream, RoundUp(old(reader.bp)), StreamBits(StoredBytes(b))) ==>
      if b == [] && RoundUp(old(reader.bp)) + 32 == |reader.stream| then error == 52
      else error == 0 && out == before + b && reader.bp == RoundUp(old(reader.bp)) + 32 + 8 * |b|
    ensures error == 0 && !ignoreNlen ==>
      var c := out[|before|..];
      |c| < 65536 && At(reader.stream, RoundUp(old(reader.bp)), StreamBits(StoredBytes(c))) &&
      reader.bp == RoundUp(old(reader.bp)) + 32 + 8 * |c|
  {
    var data := reader.data;
    var k := (reader.bp + 7) / 8;
    ghost var good := |b| < 65536 && At(reader.stream, RoundUp(reader.bp), StreamBits(StoredBytes(b)));
    if good { StoredGiven(data, k, b); }
    if k + 4 >= |data| { return 52, before; }
    var len, nlen := data[k] + Shl(data[k + 1], 8), data[k + 2] + Shl(data[k + 3], 8);
    if !ignoreNlen && len + nlen != 65535 { return 21, before; }
    if k + 4 + len > |data| { return 23, before; }
    out := before + data[k + 4..k + 4 + len];
    reader.bp := 8 * (k + 4 + len);
    error := 0;
    assert out[|before|..] == data[k + 4..k + 4 + len];
    if !ignoreNlen { StoredTakenAt(data, k, len); }
  }

  // ---------------------------------------------------------------- the whole stream

  /** The last block is a stored block of no bytes, and it ends the input. */
  ghost predicate EndsEmpty(s: seq<bit>, blocks: seq<Block>, stop: nat) {
    blocks != [] && blocks[|blocks| - 1] == Stored([]) && stop == |s|
  }

  lemma {:induction false} HeadAt(s: seq<bit>, p: nat, t: nat, final: bool)
    requires t < 4 && At(s, p, HeadBits(t, final))
    ensures p + 3 <= |s| && Window(s, p, 1) == (if final then 1 else 0) && Window(s, p + 1, 2) == t
  {
    var f: bit := if final then 1 else 0;
    AtSplit(s, p, [f], LsbBits(t, 2));
    Pow2Values();
    NumberAt(s, p + 1, t, 2);
    assert LsbBits(f, 1) == [f];
    NumberAt(s, p, f, 1);
  }

  /** Some bits follow the three bits of a block header. */
  lemma {:induction false} BodyNotEmpty(s: seq<bit>, p: nat, b: Block, pos: nat, final: bool)
    requires BlockAt(s, p, b, pos, final)
    ensures p + 3 < |s|
  {
    match b
    case Stored(data) =>
    case FixedBlock(tokens) => DataNotEmpty(Fixed(), tokens);
    case DynamicBlock(h, tokens) =>
  }

  lemma {:induction false} DataNotEmpty(c: Coding, tokens: seq<Token>)
    requires AllSendable(c, tokens) && Codes(c.ll, END_CODE)
    ensures |DataBits(c, tokens)| > 0
    decreases |tokens|
  {
    if tokens != [] { DataNotEmpty(c, tokens[1..]); }
  }

  /** After the first of the remaining blocks, and before the last, the stream goes on. */
  lemma {:induction false} BlocksNext(s: seq<bit>, p: nat, rest: seq<Block>, out: seq<byte>, goal: seq<byte>, stop: nat)
    requires rest != [] && BlocksStand(s, p, rest, out, goal, stop, true, false)
    ensures BlockAt(s, p, rest[0], |out|, |rest| == 1)
    ensures |rest| == 1 ==> UnpackBlock(out, rest[0]) == goal && BlockEnd(p, rest[0], |out|) == stop
    ensures |rest| > 1 ==> BlockEnd(p, rest[0], |out|) < |s|
  {
    if |rest| > 1 {
      var q, tail := BlockEnd(p, rest[0], |out|), rest[1..];
      assert BlocksStand(s, q, tail, UnpackBlock(out, rest[0]), goal, stop, true, false);
      HeadStands(s, q, tail, UnpackBlock(out, rest[0]), goal, stop);
    }
  }

  lemma {:induction false} HeadStands(s: seq<bit>, p: nat, rest: seq<Block>, out: seq<byte>, goal: seq<byte>, stop: nat)
    requires rest != [] && BlocksStand(s, p, rest, out, goal, stop, true, false)
    ensures p < |s|
  {
    assert At(s, p, HeadBits(TypeOf(rest[0]), |rest| == 1));
  }

  lemma {:induction false} StoredFound(data: seq<byte>, p: nat, q: nat, c: seq<byte>, before: seq<byte>, out: seq<byte>)
    requires |c| < 65536 && At(StreamBits(data), p, StreamBits(StoredBytes(c)))
    requires out == before + c && q == p + 32 + 8 * |c|
    ensures BodyFound(data, p, q, Stored(c), before, out)
  {
    AtExtended(data, p, StreamBits(StoredBytes(c)));
  }

  /** The block at p was decoded up to q, or it is a stored block of no bytes at the end of
      the input. */
  ghost predicate BlockTaken(data: seq<byte>, p: nat, q: nat, b: Block, before: seq<byte>, error: nat, out: seq<byte>) {
    BlockOk(b, |before|) &&
    if b == Stored([]) && BlockEnd(p, b, |before|) == |StreamBits(data)| then error == 52
    else BlockDecoded(data, BodyStart(p, b), q, b, before, error, out)
  }

  lemma {:induction false} StoredTaken(data: seq<byte>, p: nat, q: nat, chunk: seq<byte>, before: seq<byte>, error: nat, out: seq<byte>)
    requires |chunk| < 65536
    requires if chunk == [] && RoundUp(p + 3) + 32 == |StreamBits(data)| then error == 52
      else error == 0 && out == before + chunk && q == RoundUp(p + 3) + 32 + 8 * |chunk|
    ensures BlockTaken(data, p, q, Stored(chunk), before, error, out)
  {
  }

  /** One block after its header. */
  method InflateBlock(before: seq<byte>, reader: BitReader, btype: nat, ignoreNlen: bool,
                      ghost b: Block, ghost p: nat, ghost good: bool) returns (error: nat, out: seq<byte>, ghost found: Block)
    requires reader.Valid() && btype <= 2 && reader.bp == p + 3 <= 8 * |reader.data|
    requires good ==> BlockOk(b, |before|) && btype == TypeOf(b)
    requires good ==> At(reader.stream, BodyStart(p, b), BodyBits(b, |before|))
    modifies reader
    ensures before <= out && reader.bp >= old(reader.bp)
    ensures good ==> BlockTaken(reader.data, p, reader.bp, b, before, error, out)
    ensures btype == 0 && |reader.data| <= 4 ==> error == 52
    ensures error == 0 && (!ignoreNlen || |reader.data| <= 4) ==>
      TypeOf(found) == btype && BodyFound(reader.data, BodyStart(p, found), reader.bp, found, before, out)
    ensures btype == 1 && FixedEnds(reader.stream, p + 3) ==> error == 0 && out == before
  {
    if btype == 0 {
      error, out := InflateNoCompression(before, reader, ignoreNlen, if good then b.data else []);
      found := Stored(out[|before|..]);
      if good { StoredTaken(reader.data, p, reader.bp, b.data, before, error, out); }
      if error == 0 && (!ignoreNlen || |reader.data| <= 4) {
        StoredFound(reader.data, RoundUp(p + 3), reader.bp, out[|before|..], before, out);
      }
    } else {
      error, out, found := InflateHuffmanBlock(before, reader, btype, b, good);
    }
  }

  lemma {:induction false} HeadShows(s: seq<bit>, p: nat)
    ensures Window(s, p, 1) < 2 && Window(s, p + 1, 2) < 4
    ensures Shows(s, p, HeadBits(Window(s, p + 1, 2), Window(s, p, 1) == 1))
  {
    Pow2Values();
    ShowsNumber(s, p, 1);
    ShowsNumber(s, p + 1, 2);
    assert LsbBits(Window(s, p, 1), 1) == [if Window(s, p, 1) == 1 then 1 else 0];
    ShowsConcat(s, p, LsbBits(Window(s, p, 1), 1), LsbBits(Window(s, p + 1, 2), 2));
  }

  /** BFINAL and BTYPE. */
  method ReadBlockHead(reader: BitReader, ghost t: nat, ghost final: bool, ghost good: bool)
      returns (ok: bool, bfinal: nat, btype: nat)
    requires reader.Valid()
    requires good ==> t < 3 && At(reader.stream, reader.bp, HeadBits(t, final)) && reader.bp + 3 < |reader.stream|
    modifies reader
    ensures ok ==> reader.bp == old(reader.bp) + 3 <= 8 * |reader.data|
    ensures ok <==> old(reader.bp) / 8 + 1 < |reader.data| || old(reader.bp) + 3 < 8 * |reader.data|
    ensures ok ==> bfinal == Window(reader.stream, old(reader.bp), 1) && btype == Window(reader.stream, old(reader.bp) + 1, 2)
    ensures good ==> ok && bfinal == (if final then 1 else 0) && btype == t
    ensures btype < 4 && bfinal < 2
  {
    bfinal, btype := 0, 0;
    if good { HeadAt(reader.stream, reader.bp, t, final); }
    ok := reader.EnsureBits9(3);
    if ok {
      Pow2Values();
      bfinal := reader.ReadBits(1, 9);
      btype := reader.ReadBits(2, 8);
    }
  }

  /** The blocks that the decoder has read between two blocks, or in the end if final. */
  ghost predicate SoFar(data: seq<byte>, out: seq<byte>, found: seq<Block>, p: nat, final: bool) {
    BlocksFound(data, 0, found, [], out, p, final) && (final ==> found != [])
  }

  lemma {:induction false} AtStart(data: seq<byte>)
    ensures SoFar(data, [], [], 0, false)
  {
  }

  /** The next block was read. */
  lemma {:induction false} NextSoFar(data: seq<byte>, before: seq<byte>, out: seq<byte>, found: seq<Block>, p: nat, q: nat,
                                     final: bool, b: Block)
    requires SoFar(data, before, found, p, false) && p <= 8 * |data| && BlockFound(data, p, q, b, final, before, out)
    ensures SoFar(data, out, found + [b], q, final)
  {
    NextFound(data, 0, found, [], before, p, b, q, out, final);
  }

  /** The byte 3 is a final fixed block whose end code needs two more bits. */
  lemma {:induction false} ByteThree(data: seq<byte>)
    requires |data| == 1 && data[0] == 3
    ensures var s := StreamBits(data);
            Window(s, 0, 1) == 1 && Window(s, 1, 2) == 1 && FixedEnds(s, 3)
  {
    var s := StreamBits(data);
    ByteWindow(data, 0);
    Pow2Values();
    WindowPrefix(s, 0, 1, 8);
    WindowDrop(s, 0, 1, 8);
    WindowPrefix(s, 1, 2, 7);
    WindowDrop(s, 0, 3, 8);
    WindowBeyond(s, 3, 5, 7);
    ZerosEnd(s, 3);
  }

  lemma {:induction false} FoundIs(data: seq<byte>, p: nat, q: nat, btype: nat, final: bool, b: Block, before: seq<byte>, out: seq<byte>)
    requires TypeOf(b) == btype && BodyFound(data, BodyStart(p, b), q, b, before, out) && p + 3 <= 8 * |data|
    requires Shows(StreamBits(data), p, HeadBits(btype, final))
    ensures BlockFound(data, p, q, b, final, before, out)
  {
    ShowsAt(data, p, HeadBits(btype, final));
  }

  /** One round of the loop of lodepng_inflatev. */
  method ReadBlock(before: seq<byte>, reader: BitReader, ignoreNlen: bool, ghost b: Block, ghost last: bool, ghost good: bool)
      returns (error: nat, out: seq<byte>, bfinal: nat, ghost found: Block)
    requires reader.Valid()
    requires good ==> BlockAt(reader.stream, reader.bp, b, |before|, last)
    requires good ==> reader.bp + 3 < |reader.stream|
    modifies reader
    ensures reader.data == [] ==> error == 52
    ensures error == 0 ==> old(reader.bp) < reader.bp && old(reader.bp) < 8 * |reader.data|
    ensures error == 0 ==> before <= out
    ensures good ==> BlockTaken(reader.data, old(reader.bp), reader.bp, b, before, error, out) && bfinal == if last then 1 else 0
    ensures |reader.data| <= 4 && Window(reader.stream, old(reader.bp) + 1, 2) == 0 ==> error == 52
    ensures error == 0 && (!ignoreNlen || |reader.data| <= 4) ==>
      BlockFound(reader.data, old(reader.bp), reader.bp, found, bfinal == 1, before, out)
    ensures |reader.data| == 1 && reader.data[0] == 3 && old(reader.bp) == 0 ==> error == 0 && bfinal == 1
    ensures bfinal < 2
  {
    ghost var p := reader.bp;
    out, found := before, Stored([]);
    if |reader.data| == 1 && reader.data[0] == 3 { ByteThree(reader.data); }
    HeadShows(reader.stream, p);
    var ok, btype;
    ok, bfinal, btype := ReadBlockHead(reader, TypeOf(b), last, good);
    if !ok { return 52, out, bfinal, found; }
    if btype == 3 { return 20, out, bfinal, found; }
    error, out, found := InflateBlock(before, reader, btype, ignoreNlen, b, p, good);
    if error == 0 && (!ignoreNlen || |reader.data| <= 4) {
      FoundIs(reader.data, p, reader.bp, btype, bfinal == 1, found, before, out);
    }
  }

  /** The blocks that remain take the output to goal; they are the last of all blocks. */
  ghost predicate Ahead(s: seq<bit>, p: nat, rest: seq<Block>, out: seq<byte>, goal: seq<byte>, stop: nat, all: seq<Block>) {
    rest != [] && BlocksStand(s, p, rest, out, goal, stop, true, false) &&
    all != [] && rest[|rest| - 1] == all[|all| - 1]
  }

  lemma {:induction false} AheadNext(s: seq<bit>, p: nat, rest: seq<Block>, out: seq<byte>, goal: seq<byte>, stop: nat, all: seq<Block>)
    requires Ahead(s, p, rest, out, goal, stop, all)
    ensures BlockAt(s, p, rest[0], |out|, |rest| == 1) && p + 3 < |s|
    ensures |rest| == 1 ==>
      UnpackBlock(out, rest[0]) == goal && BlockEnd(p, rest[0], |out|) == stop && rest[0] == all[|all| - 1]
    ensures |rest| > 1 ==>
      Ahead(s, BlockEnd(p, rest[0], |out|), rest[1..], UnpackBlock(out, rest[0]), goal, stop, all) &&
      BlockEnd(p, rest[0], |out|) < |s|
  {
    BlocksNext(s, p, rest, out, goal, stop);
    BodyNotEmpty(s, p, rest[0], |out|, |rest| == 1);
  }

  /** Where the decoder stands between blocks: right says whether all blocks are read right.
      If lost, a wrong distance has been used; else the rest takes the output to goal. */
  ghost predicate OnCourse(data: seq<byte>, p: nat, rest: seq<Block>, out: seq<byte>, goal: seq<byte>, stop: nat,
                           all: seq<Block>, right: bool, lost: bool, final: bool) {
    if lost then !right && Strays(out, goal)
    else if final then right && out == goal && !EndsEmpty(StreamBits(data), all, stop)
    else Ahead(StreamBits(data), p, rest, out, goal, stop, all) && (right <==> BlocksRight(data, p, rest, out))
  }

  ghost predicate Arrived(data: seq<byte>, p: nat, rest: seq<Block>, error: nat, out: seq<byte>, goal: seq<byte>, stop: nat,
                          all: seq<Block>, right: bool, lost: bool, final: bool) {
    if error != 0 then right ==> EndsEmpty(StreamBits(data), all, stop) && error == 52
    else OnCourse(data, p, rest, out, goal, stop, all, right, lost, final)
  }

  lemma {:induction false} BlockArrived(data: seq<byte>, p: nat, q: nat, rest: seq<Block>, error: nat, before: seq<byte>,
                                        out: seq<byte>, goal: seq<byte>, stop: nat, all: seq<Block>, right: bool)
      returns (lost: bool)
    requires OnCourse(data, p, rest, before, goal, stop, all, right, false, false) && rest != []
    requires BlockTaken(data, p, q, rest[0], before, error, out)
    ensures Arrived(data, q, rest[1..], error, out, goal, stop, all, right, lost, |rest| == 1)
  {
    lost := !BlockRight(data, BodyStart(p, rest[0]), rest[0], before);
    if error != 0 {
      RefusedArrived(data, p, q, rest, error, before, out, goal, stop, all, right, lost);
    } else if lost {
      WrongArrived(data, p, q, rest, before, out, goal, stop, all, right);
    } else {
      RightArrived(data, p, q, rest, before, out, goal, stop, all, right);
    }
  }

  lemma {:induction false} WrongArrived(data: seq<byte>, p: nat, q: nat, rest: seq<Block>, before: seq<byte>, out: seq<byte>,
                                        goal: seq<byte>, stop: nat, all: seq<Block>, right: bool)
    requires OnCourse(data, p, rest, before, goal, stop, all, right, false, false) && rest != []
    requires BlockTaken(data, p, q, rest[0], before, 0, out) && !BlockRight(data, BodyStart(p, rest[0]), rest[0], before)
    ensures !right && Strays(out, goal)
  {
    GoalAfter(StreamBits(data), p, rest, before, goal, stop);
    StraysOn(out, UnpackBlock(before, rest[0]), out, goal);
  }

  lemma {:induction false} RightArrived(data: seq<byte>, p: nat, q: nat, rest: seq<Block>, before: seq<byte>, out: seq<byte>,
                                        goal: seq<byte>, stop: nat, all: seq<Block>, right: bool)
    requires OnCourse(data, p, rest, before, goal, stop, all, right, false, false) && rest != []
    requires BlockTaken(data, p, q, rest[0], before, 0, out) && BlockRight(data, BodyStart(p, rest[0]), rest[0], before)
    ensures OnCourse(data, q, rest[1..], out, goal, stop, all, right, false, |rest| == 1)
  {
    var s, b, more := StreamBits(data), rest[0], rest[1..];
    BlocksRightCons(data, p, rest, before, more, q, out);
    if |rest| == 1 {
      LastArrived(s, p, rest, before, goal, stop, all);
    } else {
      AheadMoved(s, p, q, rest, more, before, out, goal, stop, all);
      OnCourseIs(data, q, more, out, goal, stop, all, right);
    }
  }

  lemma {:induction false} LastArrived(s: seq<bit>, p: nat, rest: seq<Block>, out: seq<byte>, goal: seq<byte>, stop: nat, all: seq<Block>)
    requires Ahead(s, p, rest, out, goal, stop, all) && |rest| == 1
    ensures BlockOk(rest[0], |out|) && UnpackBlock(out, rest[0]) == goal
    ensures !(rest[0] == Stored([]) && BlockEnd(p, rest[0], |out|) == |s|) ==> !EndsEmpty(s, all, stop)
  {
    AheadNext(s, p, rest, out, goal, stop, all);
  }

  lemma {:induction false} RefusedArrived(data: seq<byte>, p: nat, q: nat, rest: seq<Block>, error: nat, before: seq<byte>,
                                          out: seq<byte>, goal: seq<byte>, stop: nat, all: seq<Block>, right: bool, lost: bool)
    requires OnCourse(data, p, rest, before, goal, stop, all, right, false, false) && rest != [] && error != 0
    requires BlockTaken(data, p, q, rest[0], before, error, out)
    ensures Arrived(data, q, rest[1..], error, out, goal, stop, all, right, lost, |rest| == 1)
  {
    AheadNext(StreamBits(data), p, rest, before, goal, stop, all);
  }

  lemma {:induction false} AheadMoved(s: seq<bit>, p: nat, q: nat, rest: seq<Block>, more: seq<Block>, out: seq<byte>,
                                      next: seq<byte>, goal: seq<byte>, stop: nat, all: seq<Block>)
    requires Ahead(s, p, rest, out, goal, stop, all) && |rest| > 1 && more == rest[1..]
    requires q == BlockEnd(p, rest[0], |out|) && next == UnpackBlock(out, rest[0])
    ensures Ahead(s, q, more, next, goal, stop, all)
  {
    AheadNext(s, p, rest, out, goal, stop, all);
  }

  lemma {:induction false} OnCourseIs(data: seq<byte>, p: nat, rest: seq<Block>, out: seq<byte>, goal: seq<byte>, stop: nat,
                                      all: seq<Block>, right: bool)
    requires Ahead(StreamBits(data), p, rest, out, goal, stop, all) && (right <==> BlocksRight(data, p, rest, out))
    ensures OnCourse(data, p, rest, out, goal, stop, all, right, false, false)
  {
  }

  lemma {:induction false} GoalAfter(s: seq<bit>, p: nat, rest: seq<Block>, out: seq<byte>, goal: seq<byte>, stop: nat)
    requires rest != [] && BlocksStand(s, p, rest, out, goal, stop, true, false)
    ensures UnpackBlock(out, rest[0]) <= goal
  {
    GoalKeeps(s, BlockEnd(p, rest[0], |out|), rest[1..], UnpackBlock(out, rest[0]), goal, stop, true, false);
  }

  lemma {:induction false} LostArrived(data: seq<byte>, p: nat, rest: seq<Block>, error: nat, before: seq<byte>,
                                       out: seq<byte>, goal: seq<byte>, stop: nat, all: seq<Block>, right: bool, final: bool)
    requires !right && Strays(before, goal) && (error == 0 ==> before <= out)
    ensures Arrived(data, p, rest, error, out, goal, stop, all, right, true, final)
  {
    if error == 0 { StraysOn(before, goal, out, goal); }
  }

  /** One round in terms of the blocks that remain. */
  method NextBlock(before: seq<byte>, reader: BitReader, ignoreNlen: bool, ghost rest: seq<Block>, ghost goal: seq<byte>,
                   ghost stop: nat, ghost all: seq<Block>, ghost right: bool, ghost astray: bool, ghost good: bool)
      returns (error: nat, out: seq<byte>, bfinal: nat, ghost found: Block, ghost more: seq<Block>, ghost lost: bool)
    requires reader.Valid()
    requires good ==> OnCourse(reader.data, reader.bp, rest, before, goal, stop, all, right, astray, false)
    modifies reader
    ensures good ==> Arrived(reader.data, reader.bp, more, error, out, goal, stop, all, right, lost, bfinal != 0)
    ensures reader.data == [] ==> error == 52
    ensures error == 0 ==> old(reader.bp) < reader.bp && old(reader.bp) < 8 * |reader.data|
    ensures error == 0 && (!ignoreNlen || |reader.data| <= 4) ==>
      BlockFound(reader.data, old(reader.bp), reader.bp, found, bfinal == 1, before, out)
    ensures |reader.data| == 1 && reader.data[0] == 3 && old(reader.bp) == 0 ==> error == 0 && bfinal == 1
    ensures |reader.data| <= 4 && Window(reader.stream, old(reader.bp) + 1, 2) == 0 ==> error == 52
    ensures bfinal < 2
  {
    ghost var p, on := reader.bp, good && !astray;
    ghost var b := if rest == [] then Stored([]) else rest[0];
    more, lost := if rest == [] then [] else rest[1..], astray;
    if on { AheadNext(reader.stream, p, rest, before, goal, stop, all); }
    error, out, bfinal, found := ReadBlock(before, reader, ignoreNlen, b, |rest| == 1, on);
    if on {
      lost := BlockArrived(reader.data, p, reader.bp, rest, error, before, out, goal, stop, all, right);
    } else if good {
      LostArrived(reader.data, reader.bp, more, error, before, out, goal, stop, all, right, bfinal != 0);
    }
  }

  /** lodepng_inflatev. On any input it stays in bounds and ends. If the input starts with
      the encoding of some blocks, it delivers what they stand for exactly if it reads their
      distances right, unless they end the input with a stored block of no bytes: those it
      refuses. Conversely, what it delivers is what some blocks that stand in the input give
      with the distances that are read; only the end code of the last one may be completed by
      zeros beyond the input. */
  method Inflate(data: seq<byte>, ignoreNlen: bool, ghost blocks: seq<Block>, ghost goal: seq<byte>, ghost stop: nat)
      returns (error: nat, out: seq<byte>, ghost found: seq<Block>, ghost end: nat)
    ensures data == [] ==> error == 52
    ensures blocks != [] && BlocksStand(StreamBits(data), 0, blocks, [], goal, stop, true, false) ==>
      (error == 0 && out == goal <==> BlocksRight(data, 0, blocks, []) && !EndsEmpty(StreamBits(data), blocks, stop)) &&
      (BlocksRight(data, 0, blocks, []) && EndsEmpty(StreamBits(data), blocks, stop) ==> error == 52)
    ensures error == 0 && (!ignoreNlen || |data| <= 4) ==> found != [] && BlocksFound(data, 0, found, [], out, end, true)
    ensures |data| == 1 ==> (error == 0 <==> data[0] == 3)
    ensures |data| <= 4 && Window(StreamBits(data), 1, 2) == 0 ==> error == 52
  {
    var reader := new BitReader(data);
    ghost var good := blocks != [] && BlocksStand(StreamBits(data), 0, blocks, [], goal, stop, true, false);
    ghost var right := good && BlocksRight(data, 0, blocks, []);
    ghost var exact := !ignoreNlen || |data| <= 4;
    ghost var rest, lost := blocks, false;
    var bfinal := 0;
    error, out, found, end := 0, [], [], 0;
    AtStart(data);
    while bfinal == 0
      invariant reader.Valid() && reader.data == data && error == 0 && (data == [] ==> bfinal == 0)
      invariant good ==> OnCourse(data, reader.bp, rest, out, goal, stop, blocks, right, lost, bfinal != 0)
      invariant exact ==> SoFar(data, out, found, reader.bp, bfinal != 0) && end == reader.bp
      invariant |data| == 1 && data[0] == 3 && bfinal == 0 ==> reader.bp == 0
      invariant |data| <= 4 && Window(StreamBits(data), 1, 2) == 0 ==> bfinal == 0 && reader.bp == 0
      decreases bfinal == 0, 8 * |data| - reader.bp
    {
      ghost var block, p, before := Stored([]), reader.bp, out;
      error, out, bfinal, block, rest, lost :=
        NextBlock(out, reader, ignoreNlen, rest, goal, stop, blocks, right, lost, good);
      if error != 0 { return; }
      if exact {
        NextSoFar(data, before, out, found, p, reader.bp, bfinal == 1, block);
        found, end := found + [block], reader.bp;
      }
    }
    if |data| == 1 { OneByte(data, found, out, end); }
  }
}
