/** The code of a distance and its extra bits are read through one 32-bit look-ahead, which is
    not reliable for all of them. Which distances the decoder reads, and which blocks it takes
    for what they stand for in spite of that. */
module LookAhead {
  import opened Bits
  import opened BitStream
  import opened CanonicalCode
  import opened Tokens
  import opened DeflateFormat
  import opened ReadSymbols

  lemma {:induction false} DistanceAtLeastOne(i: nat)
    requires i < 30
    ensures DISTANCEBASE[i] >= 1
  {
    TablesIncrease();
    assert DISTANCEBASE[0] == 1;
  }

  // ---------------------------------------------------------------- beyond the reliable bits

  lemma {:induction false} ShrOr(a: nat, b: nat, n: nat)
    ensures Shr(Or(a, b), n) == Or(Shr(a, n), Shr(b, n))
  {
    LowZero(n);
    if n > 0 { ShrOr(a / 2, b / 2, n - 1); }
  }

  lemma {:induction false} LowHalf(v: nat, n: nat)
    requires n > 0
    ensures Low(v, n) % 2 == v % 2 && Low(v, n) / 2 == Low(v / 2, n - 1)
  {
    HalvesOf(Low(v, n), v % 2, Low(v / 2, n - 1));
  }

  lemma {:induction false} HalvesOf(x: nat, b: nat, h: nat)
    requires b < 2 && x == b + 2 * h
    ensures x % 2 == b && x / 2 == h
  {
  }

  lemma {:induction false} LowOr(a: nat, b: nat, n: nat)
    ensures Low(Or(a, b), n) == Or(Low(a, n), Low(b, n))
  {
    if n > 0 {
      LowOr(a / 2, b / 2, n - 1);
      OrHalves(a, b, n, Or(a, b));
    }
  }

  lemma {:induction false} OrHalves(a: nat, b: nat, n: nat, v: nat)
    requires n > 0 && v == Or(a, b) && Low(Or(a / 2, b / 2), n - 1) == Or(Low(a / 2, n - 1), Low(b / 2, n - 1))
    ensures Low(v, n) == Or(Low(a, n), Low(b, n))
  {
    var x, y := Low(a, n), Low(b, n);
    OrStep(a, b);
    OrStep(x, y);
    LowHalf(a, n);
    LowHalf(b, n);
    LowHalf(v, n);
    SameHalves(Low(v, n), Or(x, y));
  }

  lemma {:induction false} SameHalves(x: nat, y: nat)
    requires x % 2 == y % 2 && x / 2 == y / 2
    ensures x == y
  {
  }

  /** From bit m on the look-ahead holds the fifth byte, or-ed with one bit of the fourth. */
  lemma {:induction false} SpliceHigh(data: seq<byte>, p: nat, m: nat, e: nat)
    requires m == 31 - p % 8 && 0 < e <= 32 - m && p / 8 + 4 < |data|
    ensures Low(Shr(Splice32(data, p), m), e) == Or(Window(StreamBits(data), p + m, 1), Low(data[p / 8 + 4], e))
  {
    var s, k, d := StreamBits(data), p % 8, data[p / 8 + 4];
    var w := Shr(Word(data, p / 8, 4), k);
    ShrOr(w, Fifth(d, k), m);
    LowOr(Shr(w, m), Shr(Fifth(d, k), m), e);
    WordIsLittle(data, p / 8, 4);
    LittleIsWindow(data, p / 8, 4);
    WindowDrop(s, 8 * (p / 8), k, 32);
    WindowDrop(s, p, m, 32 - k);
    WindowBound(s, p + m, 1);
    OneBitLow(Window(s, p + m, 1), e);
    FifthHigh(d, k, m, e);
  }

  lemma {:induction false} OneBitLow(b: nat, e: nat)
    requires e > 0 && b < Pow2(1)
    ensures Low(b, e) == b
  {
    Pow2Mono(1, e);
    LowSmall(b, e);
  }

  lemma {:induction false} FifthHigh(d: byte, k: nat, m: nat, e: nat)
    requires k < 8 && m == 31 - k && e <= 32 - m
    ensures Low(Shr(Fifth(d, k), m), e) == Low(d, e)
  {
    FifthIs(d, k);
    ShrLow(Shl(d, m), m, 32);
    LowShl(d, m);
    LowLow(d, e, 32 - m);
  }

  /** In the stream the fifth byte comes one place later. */
  lemma {:induction false} StreamHigh(data: seq<byte>, p: nat, m: nat, e: nat)
    requires m == 31 - p % 8 && 0 < e <= 8 && p / 8 + 4 < |data|
    ensures var s := StreamBits(data); var a := Window(s, p + m, 1);
      a < 2 && Window(s, p + m + 1, e) == Low(data[p / 8 + 4], e) &&
      Window(s, p + m, e) == a + 2 * Low(data[p / 8 + 4], e - 1) && Window(s, p + m, e + 1) == a + 2 * Low(data[p / 8 + 4], e)
  {
    var s, i := StreamBits(data), p / 8 + 4;
    assert 8 * i == p + m + 1;
    ByteWindow(data, i);
    WindowPrefix(s, 8 * i, e, 8);
    WindowPrefix(s, 8 * i, e - 1, 8);
    assert Window(s, p + m + 1, 0) == 0;
  }

  lemma {:induction false} AllAlike(x: nat, e: nat)
    requires e > 0
    ensures Low(x / 2, e - 1) == Low(x, e - 1) <==> Low(x, e) == 0 || Low(x, e) == Pow2(e) - 1
  {
    if e > 1 { AllAlike(x / 2, e - 1); }
  }

  lemma {:induction false} OrShifted(a: nat, x: nat, e: nat)
    requires a < 2 && e > 0
    ensures Or(a, Low(x, e)) == a + 2 * Low(x, e - 1) <==> Low(x, e) == 0 || a + 2 * Low(x, e) == Pow2(e + 1) - 1
  {
    var v := Low(x, e);
    AllAlike(x, e);
    LowHalf(x, e);
    OrOne(a, v);
    LowBound(x, e);
    assert Pow2(e + 1) == 2 * Pow2(e);
  }

  lemma {:induction false} OrOne(a: nat, v: nat)
    requires a < 2
    ensures Or(a, v) == if a == 0 then v else 2 * (v / 2) + 1
  {
  }

  /** Bit i of the stream is the first unreliable one, and e bits come after it: these are
      zeros, or with bit i all are ones. */
  ghost predicate TailAlike(s: seq<bit>, i: nat, e: nat) {
    Window(s, i + 1, e) == 0 || Window(s, i, e + 1) == Pow2(e + 1) - 1
  }

  /** Without a fifth byte nothing is misplaced, and zeros come after the fourth. */
  lemma {:induction false} NoFifthByte(data: seq<byte>, p: nat, l: nat, n: nat)
    requires p / 8 + 4 >= |data| && l <= 32 - p % 8
    ensures Seen(data, p, l, n) == Window(StreamBits(data), p + l, n)
  {
    var s, k := StreamBits(data), p % 8;
    WordIsLittle(data, p / 8, 4);
    LittleIsWindow(data, p / 8, 4);
    WindowDrop(s, 8 * (p / 8), k, 32);
    WindowDrop(s, p, l, 32 - k);
    LowOfWindow(s, p + l, n, 32 - k - l);
  }

  lemma {:induction false} LowOfWindow(s: seq<bit>, p: nat, n: nat, k: nat)
    requires p + k >= |s|
    ensures Low(Window(s, p, k), n) == Window(s, p, n)
  {
    if n <= k {
      WindowPrefix(s, p, n, k);
    } else {
      WindowBeyond(s, p, k, n);
      WindowBound(s, p, k);
      Pow2Mono(k, n);
      LowSmall(Window(s, p, k), n);
    }
  }

  lemma {:induction false} WindowBeyond(s: seq<bit>, p: nat, n: nat, k: nat)
    requires p + n >= |s| && n <= k
    ensures Window(s, p, k) == Window(s, p, n)
    decreases n
  {
    if n > 0 { WindowBeyond(s, p + 1, n - 1, k - 1); }
  }

  /** Exactly when n bits behind a code of l bits are read right although the last e of them
      are not reliable. */
  lemma {:induction false} SeenExact(data: seq<byte>, p: nat, l: nat, n: nat, m: nat, e: nat)
    requires m == 31 - p % 8 && l <= m < l + n == m + e <= 32
    ensures var s := StreamBits(data);
      Seen(data, p, l, n) == Window(s, p + l, n) <==> TailAlike(s, p + m, e)
  {
    if p / 8 + 4 < |data| {
      FifthByteExact(data, p, l, n, m, e);
    } else {
      NoFifthByte(data, p, l, n);
      WindowBeyond(StreamBits(data), p + m + 1, 0, e);
    }
  }

  lemma {:induction false} FifthByteExact(data: seq<byte>, p: nat, l: nat, n: nat, m: nat, e: nat)
    requires m == 31 - p % 8 && l <= m < l + n == m + e <= 32 && p / 8 + 4 < |data|
    ensures var s := StreamBits(data);
      Seen(data, p, l, n) == Window(s, p + l, n) <==> TailAlike(s, p + m, e)
  {
    var s, d := StreamBits(data), data[p / 8 + 4];
    SeenHigh(data, p, l, n, m, e);
    SpliceHigh(data, p, m, e);
    StreamHigh(data, p, m, e);
    OrShifted(Window(s, p + m, 1), d, e);
  }

  lemma {:induction false} SeenHigh(data: seq<byte>, p: nat, l: nat, n: nat, m: nat, e: nat)
    requires m == 31 - p % 8 && l <= m < l + n == m + e <= 32 && p / 8 + 4 < |data|
    ensures Seen(data, p, l, n) == Window(StreamBits(data), p + l, n) <==>
      Low(Shr(Splice32(data, p), m), e) == Window(StreamBits(data), p + m, e)
  {
    var s, v, low := StreamBits(data), LookAhead32(data, p), m - l;
    SeenRight(data, p, l, low);
    Parts(v, l, low, n);
    WindowPrefix(s, p + l, low, n);
    WindowDrop(s, p + l, low, n);
    SameParts(Seen(data, p, l, n), Window(s, p + l, n), low);
  }

  lemma {:induction false} Parts(v: nat, l: nat, low: nat, n: nat)
    requires low <= n
    ensures Low(Low(Shr(v, l), n), low) == Low(Shr(v, l), low)
    ensures Shr(Low(Shr(v, l), n), low) == Low(Shr(v, l + low), n - low)
  {
    LowLow(Shr(v, l), low, n);
    ShrLow(Shr(v, l), low, n);
    ShrShr(v, l, low);
  }

  lemma {:induction false} SameParts(x: nat, y: nat, n: nat)
    requires Low(x, n) == Low(y, n)
    ensures x == y <==> Shr(x, n) == Shr(y, n)
  {
    ShrLowSplit(x, n);
    ShrLowSplit(y, n);
  }

  // ---------------------------------------------------------------- distances

  /** The distance that is read where the code of symbol i stands at p. */
  ghost function DistanceSeen(data: seq<byte>, ls: seq<nat>, i: nat, p: nat): (d: nat)
    requires i < 30 && Codes(ls, i)
    ensures 1 <= d <= MAX_DISTANCE
  {
    LowBound(Shr(LookAhead32(data, p), ls[i]), DistanceExtra(i));
    DistanceInRange(i, Seen(data, p, ls[i], DistanceExtra(i)));
    DISTANCEBASE[i] + Seen(data, p, ls[i], DistanceExtra(i))
  }

  lemma {:induction false} DistanceInRange(i: nat, y: nat)
    requires i < 30 && y < Pow2(DISTANCEEXTRA[i])
    ensures 1 <= DISTANCEBASE[i] + y <= MAX_DISTANCE
  {
    Pow2Values();
  }

  /** The distance that is read for a match whose length code ends at q. */
  ghost function SeenDistance(data: seq<byte>, c: Coding, t: Token, q: nat): (d: nat)
    requires t.Match? && Sendable(c, t)
    ensures 1 <= d <= MAX_DISTANCE
  {
    DistanceSeen(data, c.d, t.code.distanceCode, q + LengthExtra(t.code.lengthCode))
  }

  /** The distance d gives the same bytes as that of the match. */
  ghost predicate CopiesAlike(out: seq<byte>, t: Token, d: nat)
    requires t.Match? && TokenOk(t, |out|, MAX_DISTANCE) && d >= 1
  {
    d <= |out| && Copy(out, t.length, d) == Copy(out, t.length, t.distance)
  }

  /** The token at p is taken for what it stands for. */
  ghost predicate Right(data: seq<byte>, c: Coding, t: Token, p: nat, out: seq<byte>)
    requires Sendable(c, t) && TokenOk(t, |out|, MAX_DISTANCE)
  {
    t.Match? ==> CopiesAlike(out, t, SeenDistance(data, c, t, p + c.ll[FIRST_LENGTH_CODE_INDEX + t.code.lengthCode]))
  }

  ghost predicate AllRight(data: seq<byte>, c: Coding, tokens: seq<Token>, p: nat, out: seq<byte>)
    requires AllSendable(c, tokens) && TokensOk(tokens, |out|, MAX_DISTANCE)
    decreases |tokens|
  {
    tokens == [] ||
    (Right(data, c, tokens[0], p, out) &&
     AllRight(data, c, tokens[1..], p + TokenSize(c, tokens[0]), Apply(out, tokens[0])))
  }

  lemma {:induction false} RightCons(data: seq<byte>, c: Coding, tokens: seq<Token>, p: nat, out: seq<byte>,
                                     rest: seq<Token>, q: nat, next: seq<byte>)
    requires tokens != [] && AllSendable(c, tokens) && TokensOk(tokens, |out|, MAX_DISTANCE)
    requires rest == tokens[1..] && q == p + TokenSize(c, tokens[0]) && next == Apply(out, tokens[0])
    ensures TokensOk(rest, |next|, MAX_DISTANCE)
    ensures AllRight(data, c, tokens, p, out) <==> Right(data, c, tokens[0], p, out) && AllRight(data, c, rest, q, next)
  {
  }

  /** AllRight, for use in longer conditions. */
  ghost predicate RightFrom(data: seq<byte>, c: Coding, tokens: seq<Token>, p: nat, out: seq<byte>) {
    AllSendable(c, tokens) && TokensOk(tokens, |out|, MAX_DISTANCE) &&
    forall q: nat {:trigger AllRight(data, c, tokens, q, out)} :: q == p ==> AllRight(data, c, tokens, q, out)
  }

  lemma {:induction false} RightFromCons(data: seq<byte>, c: Coding, tokens: seq<Token>, p: nat, out: seq<byte>,
                                         rest: seq<Token>, q: nat, next: seq<byte>)
    requires tokens != [] && AllSendable(c, tokens) && TokensOk(tokens, |out|, MAX_DISTANCE)
    requires rest == tokens[1..] && q == p + TokenSize(c, tokens[0]) && next == Apply(out, tokens[0])
    ensures RightFrom(data, c, tokens, p, out) <==> Right(data, c, tokens[0], p, out) && RightFrom(data, c, rest, q, next)
  {
    RightCons(data, c, tokens, p, out, rest, q, next);
    RightFromIs(data, c, tokens, p, out);
    RightFromIs(data, c, rest, q, next);
  }

  lemma {:induction false} RightFromIs(data: seq<byte>, c: Coding, tokens: seq<Token>, p: nat, out: seq<byte>)
    requires AllSendable(c, tokens) && TokensOk(tokens, |out|, MAX_DISTANCE)
    ensures RightFrom(data, c, tokens, p, out) <==> AllRight(data, c, tokens, p, out)
  {
  }

  // ---------------------------------------------------------------- output that differs

  /** The output differs from the goal in some place. */
  ghost predicate Strays(out: seq<byte>, goal: seq<byte>) {
    exists i :: 0 <= i < |out| && i < |goal| && out[i] != goal[i]
  }

  lemma {:induction false} StraysNow(out: seq<byte>, goal: seq<byte>)
    requires |out| == |goal| && out != goal
    ensures Strays(out, goal)
  {
  }

  /** It does so whatever follows. */
  lemma {:induction false} StraysOn(out: seq<byte>, goal: seq<byte>, out': seq<byte>, goal': seq<byte>)
    requires Strays(out, goal) && out <= out' && goal <= goal'
    ensures Strays(out', goal') && out' != goal'
  {
    var i :| 0 <= i < |out| && i < |goal| && out[i] != goal[i];
    assert out'[i] == out[i] && goal'[i] == goal[i];
  }

  lemma {:induction false} CopyKeeps(out: seq<byte>, length: nat, distance: nat)
    requires 1 <= distance <= |out|
    ensures out <= Copy(out, length, distance)
    decreases length
  {
    if length > 0 { CopyKeeps(out + [out[|out| - distance]], length - 1, distance); }
  }

  lemma {:induction false} ApplyKeeps(out: seq<byte>, t: Token)
    requires TokenOk(t, |out|, MAX_DISTANCE)
    ensures out <= Apply(out, t)
  {
    if t.Match? { CopyKeeps(out, t.length, t.distance); }
  }

  lemma {:induction false} ReplayKeeps(out: seq<byte>, tokens: seq<Token>)
    requires TokensOk(tokens, |out|, MAX_DISTANCE)
    ensures out <= Replay(out, tokens)
    decreases |tokens|
  {
    if tokens != [] {
      ApplyKeeps(out, tokens[0]);
      ReplayKeeps(Apply(out, tokens[0]), tokens[1..]);
    }
  }

  lemma {:induction false} UnpackKeeps(out: seq<byte>, b: Block)
    requires BlockOk(b, |out|)
    ensures out <= UnpackBlock(out, b)
  {
    match b
    case Stored(data) =>
    case FixedBlock(tokens) => ReplayKeeps(out, tokens);
    case DynamicBlock(_, tokens) => ReplayKeeps(out, tokens);
  }

  lemma {:induction false} GoalKeeps(s: seq<bit>, p: nat, blocks: seq<Block>, out: seq<byte>, goal: seq<byte>, stop: nat,
                                     final: bool, readable: bool)
    requires BlocksStand(s, p, blocks, out, goal, stop, final, readable)
    ensures out <= goal
    decreases |blocks|
  {
    if blocks != [] {
      UnpackKeeps(out, blocks[0]);
      GoalKeeps(s, BlockEnd(p, blocks[0], |out|), blocks[1..], UnpackBlock(out, blocks[0]), goal, stop, final, readable);
    }
  }

  // ---------------------------------------------------------------- reliable bits

  /** A distance within the reliable bits is read right. */
  lemma {:induction false} ReadableRight(data: seq<byte>, c: Coding, t: Token, p: nat, out: seq<byte>)
    requires Sendable(c, t) && TokenOk(t, |out|, MAX_DISTANCE) && InTables(t)
    requires Readable(c, t, p) && At(StreamBits(data), p, TokenBits(c, t))
    ensures Right(data, c, t, p, out)
  {
    if t.Match? {
      var word := Codeword(c.ll, FIRST_LENGTH_CODE_INDEX + t.code.lengthCode);
      AtSplit(StreamBits(data), p, word, RestBits(c, t));
      DistanceRight(data, c, t, p + |word|);
    }
  }

  lemma {:induction false} DistanceRight(data: seq<byte>, c: Coding, t: Token, q: nat)
    requires t.Match? && Sendable(c, t) && InTables(t) && DistanceFits(c, t, q) && At(StreamBits(data), q, RestBits(c, t))
    ensures SeenDistance(data, c, t, q) == t.distance
  {
    var s, m := StreamBits(data), t.code;
    var n := DistanceExtra(m.distanceCode);
    var length, word := LsbBits(m.lengthExtra, LengthExtra(m.lengthCode)), Codeword(c.d, m.distanceCode);
    AtSplit(s, q, length, word + LsbBits(m.distanceExtra, n));
    NumberSeen(data, q + |length|, word, m.distanceExtra, n);
  }

  /** A number behind a code is read right where both are reliable. */
  lemma {:induction false} NumberSeen(data: seq<byte>, p: nat, word: seq<bit>, v: nat, n: nat)
    requires At(StreamBits(data), p, word + LsbBits(v, n)) && v < Pow2(n) && |word| + n <= Reliable(p)
    ensures Seen(data, p, |word|, n) == v
  {
    AtSplit(StreamBits(data), p, word, LsbBits(v, n));
    SeenRight(data, p, |word|, n);
    NumberAt(StreamBits(data), p + |word|, v, n);
  }

  /** The bits from p on are reliable, or alike where they are not. */
  ghost predicate Faithful(data: seq<byte>, p: nat, size: nat) {
    size <= Reliable(p) || TailAlike(StreamBits(data), p + Reliable(p), size - Reliable(p))
  }

  /** A distance is read right if and only if it is within the reliable bits or the bits beyond
      are alike. */
  lemma {:induction false} DistanceExact(data: seq<byte>, c: Coding, t: Token, q: nat, p: nat, size: nat)
    requires t.Match? && Sendable(c, t) && InTables(t) && At(StreamBits(data), q, RestBits(c, t))
    requires p == q + LengthExtra(t.code.lengthCode)
    requires size == c.d[t.code.distanceCode] + DistanceExtra(t.code.distanceCode) && c.d[t.code.distanceCode] <= 15
    ensures SeenDistance(data, c, t, q) == t.distance <==> Faithful(data, p, size)
  {
    var s, m := StreamBits(data), t.code;
    var n := DistanceExtra(m.distanceCode);
    var length, word := LsbBits(m.lengthExtra, LengthExtra(m.lengthCode)), Codeword(c.d, m.distanceCode);
    AtSplit(s, q, length, word + LsbBits(m.distanceExtra, n));
    DistanceTable(m.distanceCode);
    NumberExact(data, p, word, m.distanceExtra, n, size, Reliable(p));
    SeenOffset(data, c, t, q, p, |word|, n);
  }

  lemma {:induction false} SeenOffset(data: seq<byte>, c: Coding, t: Token, q: nat, p: nat, l: nat, n: nat)
    requires t.Match? && Sendable(c, t) && InTables(t) && p == q + LengthExtra(t.code.lengthCode)
    requires l == c.d[t.code.distanceCode] && n == DistanceExtra(t.code.distanceCode)
    ensures SeenDistance(data, c, t, q) == t.distance <==> Seen(data, p, l, n) == t.code.distanceExtra
  {
  }

  lemma {:induction false} NumberExact(data: seq<byte>, p: nat, word: seq<bit>, v: nat, n: nat, size: nat, reliable: nat)
    requires At(StreamBits(data), p, word + LsbBits(v, n)) && v < Pow2(n)
    requires |word| <= 15 && size == |word| + n <= 32 && reliable == Reliable(p)
    ensures Seen(data, p, |word|, n) == v <==> Faithful(data, p, size)
  {
    AtSplit(StreamBits(data), p, word, LsbBits(v, n));
    NumberAt(StreamBits(data), p + |word|, v, n);
    SeenFaithful(data, p, |word|, n, size, reliable);
  }

  lemma {:induction false} SeenFaithful(data: seq<byte>, p: nat, l: nat, n: nat, size: nat, reliable: nat)
    requires l <= 15 && size == l + n <= 32 && reliable == Reliable(p)
    ensures Seen(data, p, l, n) == Window(StreamBits(data), p + l, n) <==> Faithful(data, p, size)
  {
    if size <= reliable {
      SeenRight(data, p, l, n);
    } else {
      FaithfulIs(data, p, size, reliable, size - reliable);
      SeenExact(data, p, l, n, reliable, size - reliable);
    }
  }

  lemma {:induction false} FaithfulIs(data: seq<byte>, p: nat, size: nat, m: nat, e: nat)
    requires m == Reliable(p) < size && e == size - m
    ensures Faithful(data, p, size) <==> TailAlike(StreamBits(data), p + m, e)
  {
  }

  lemma {:induction false} AllReadableRight(data: seq<byte>, c: Coding, tokens: seq<Token>, p: nat, out: seq<byte>)
    requires AllSendable(c, tokens) && TokensOk(tokens, |out|, MAX_DISTANCE) && Codes(c.ll, END_CODE)
    requires AllInTables(tokens) && AllReadable(c, tokens, p) && At(StreamBits(data), p, DataBits(c, tokens))
    ensures AllRight(data, c, tokens, p, out)
    decreases |tokens|
  {
    if tokens != [] {
      var t, rest, q := tokens[0], tokens[1..], p + TokenSize(c, tokens[0]);
      AtSplit(StreamBits(data), p, TokenBits(c, t), DataBits(c, rest));
      TokenSizeIs(c, t);
      ReadableCons(c, tokens, p, rest, q);
      AllButFirst(tokens);
      ReadableRight(data, c, t, p, out);
      AllReadableRight(data, c, rest, q, Apply(out, t));
      RightCons(data, c, tokens, p, out, rest, q, Apply(out, t));
    }
  }

  // ---------------------------------------------------------------- blocks

  /** The block whose body starts at p is taken for what it stands for. */
  ghost predicate BlockRight(data: seq<byte>, p: nat, b: Block, out: seq<byte>)
    requires BlockOk(b, |out|)
  {
    b.DynamicBlock? ==> RightFrom(data, Coding(b.header.LL(), b.header.D()), b.tokens, p + |HeaderBits(b.header)|, out)
  }

  ghost predicate BlocksRight(data: seq<byte>, p: nat, blocks: seq<Block>, out: seq<byte>)
    decreases |blocks|
  {
    blocks == [] ||
    (BlockOk(blocks[0], |out|) && BlockRight(data, BodyStart(p, blocks[0]), blocks[0], out) &&
     BlocksRight(data, BlockEnd(p, blocks[0], |out|), blocks[1..], UnpackBlock(out, blocks[0])))
  }

  lemma {:induction false} BlocksRightCons(data: seq<byte>, p: nat, blocks: seq<Block>, out: seq<byte>, rest: seq<Block>,
                                           q: nat, next: seq<byte>)
    requires blocks != [] && BlockOk(blocks[0], |out|) && rest == blocks[1..]
    requires q == BlockEnd(p, blocks[0], |out|) && next == UnpackBlock(out, blocks[0])
    ensures BlocksRight(data, p, blocks, out) <==>
      BlockRight(data, BodyStart(p, blocks[0]), blocks[0], out) && BlocksRight(data, q, rest, next)
  {
  }

  lemma {:induction false} ReadableBlockRight(data: seq<byte>, p: nat, b: Block, out: seq<byte>)
    requires BlockOk(b, |out|) && At(StreamBits(data), p, BodyBits(b, |out|)) && BlockReadable(b, |out|, p)
    ensures BlockRight(data, p, b, out)
  {
    if b.DynamicBlock? {
      var c, q := Coding(b.header.LL(), b.header.D()), p + |HeaderBits(b.header)|;
      AtSplit(StreamBits(data), p, HeaderBits(b.header), DataBits(c, b.tokens));
      ReadableFromRight(data, c, b.tokens, q, out);
    }
  }

  lemma {:induction false} ReadableFromRight(data: seq<byte>, c: Coding, tokens: seq<Token>, p: nat, out: seq<byte>)
    requires AllSendable(c, tokens) && TokensOk(tokens, |out|, MAX_DISTANCE) && Codes(c.ll, END_CODE)
    requires AllInTables(tokens) && ReadableFrom(c, tokens, p) && At(StreamBits(data), p, DataBits(c, tokens))
    ensures RightFrom(data, c, tokens, p, out)
  {
    assert AllReadable(c, tokens, p);
    AllReadableRight(data, c, tokens, p, out);
    RightFromIs(data, c, tokens, p, out);
  }

  /** Where all distances are within the reliable bits, all blocks are read right. */
  lemma {:induction false} ReadableBlocksRight(data: seq<byte>, p: nat, blocks: seq<Block>, out: seq<byte>, goal: seq<byte>,
                                               stop: nat, final: bool)
    requires BlocksStand(StreamBits(data), p, blocks, out, goal, stop, final, true)
    ensures BlocksStand(StreamBits(data), p, blocks, out, goal, stop, final, false) && BlocksRight(data, p, blocks, out)
    decreases |blocks|
  {
    if blocks != [] {
      var b := blocks[0];
      ReadableBlockRight(data, BodyStart(p, b), b, out);
      ReadableBlocksRight(data, BlockEnd(p, b, |out|), blocks[1..], UnpackBlock(out, b), goal, stop, final);
    }
  }
}
