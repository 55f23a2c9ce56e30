/** encodeLZ77: greedy or lazy matching through circular hash chains that may be stale. */
module Lz77 {
  import opened Bits
  import opened Tokens

  const HASH_NUM_VALUES: nat := 65536

  // ---------------------------------------------------------------- circular positions

  /** p modulo the window size. */
  function Wrap(p: nat, ws: nat): (w: nat)
    requires ws > 0
    ensures w < ws && w <= p
    decreases p
  {
    if p < ws then p else Wrap(p - ws, ws)
  }

  lemma {:induction false} MaskIsWrap(p: nat, k: nat)
    ensures And(p, Pow2(k) - 1) == Wrap(p, Pow2(k))
    decreases p
  {
    AndMask(p, k);
    if p < Pow2(k) {
      LowSmall(p, k);
    } else {
      MaskIsWrap(p - Pow2(k), k);
      AndMask(p - Pow2(k), k);
      ShlPow2(0, k);
      LowAddShl(p - Pow2(k), 1, k);
    }
  }

  /** Positions less than a window apart have different places. */
  lemma {:induction false} WrapDistinct(p: nat, q: nat, ws: nat)
    requires ws > 0 && p < q < p + ws
    ensures Wrap(p, ws) != Wrap(q, ws)
    decreases p
  {
    if p >= ws { WrapDistinct(p - ws, q - ws, ws); }
  }

  function Back(wpos: nat, h: nat, ws: nat): int {
    if h <= wpos then wpos - h else wpos - h + ws
  }

  /** Going back from pos reaches the latest position with place h. */
  lemma {:induction false} BackIs(pos: nat, h: nat, ws: nat)
    requires 0 < ws && h < ws && h <= pos
    ensures var off := Back(Wrap(pos, ws), h, ws); 0 <= off < ws && off <= pos && Wrap(pos - off, ws) == h
    decreases pos
  {
    if pos >= ws && h <= pos - ws { BackIs(pos - ws, h, ws); }
  }

  // ---------------------------------------------------------------- runs of zeros

  ghost predicate ZeroRun(data: seq<byte>, end: nat, p: int, n: nat) {
    n <= MAX_DEFLATE_LENGTH &&
    (n > 0 ==> 0 <= p && p + n <= end <= |data| && forall k :: p <= k < p + n ==> data[k] == 0)
  }

  method CountZeros(data: seq<byte>, size: nat, pos: nat) returns (n: nat)
    requires pos < size <= |data|
    ensures ZeroRun(data, size, pos, n)
    ensures n == MAX_DEFLATE_LENGTH || pos + n == size || data[pos + n] != 0
  {
    var end := pos + MAX_DEFLATE_LENGTH;
    if end > size { end := size; }
    n := 0;
    while pos + n != end && data[pos + n] == 0
      invariant pos + n <= end && forall k :: pos <= k < pos + n ==> data[k] == 0
    {
      n := n + 1;
    }
  }

  /** The shift and xor hash of up to three bytes. */
  function GetHash(data: seq<byte>, size: nat, pos: nat): (h: nat)
    requires pos < size <= |data|
    ensures h < HASH_NUM_VALUES
  {
    var result :=
      if pos + 2 < size then Xor(Xor(data[pos], Shl(data[pos + 1], 4)), Shl(data[pos + 2], 8))
      else if pos + 1 < size then Xor(data[pos], Shl(data[pos + 1], 8))
      else data[pos];
    AndMask(result, 16);
    LowBound(result, 16);
    Pow2Values();
    And(result, HASH_NUM_VALUES - 1)
  }

  /** The length of the run at pos from that at pos or just before it. */
  method UpdateZeros(data: seq<byte>, size: nat, pos: nat, hashval: nat, numzeros: nat) returns (n: nat)
    requires pos < size <= |data|
    requires ZeroRun(data, size, pos - 1, numzeros) || ZeroRun(data, size, pos, numzeros)
    ensures ZeroRun(data, size, pos, n)
  {
    n := numzeros;
    if hashval == 0 {
      if n == 0 {
        n := CountZeros(data, size, pos);
      } else if pos + n > size || data[pos + n - 1] != 0 {
        n := n - 1;
      }
    } else {
      n := 0;
    }
  }

  // ---------------------------------------------------------------- the hash chains

  /** w is the place of one of the first v positions. */
  ghost predicate Seen(w: int, v: nat, ws: nat) { 0 <= w < ws && w < v }

  ghost predicate Heads(s: seq<int>, v: nat, ws: nat) {
    forall i :: 0 <= i < |s| ==> s[i] == -1 || Seen(s[i], v, ws)
  }

  ghost predicate Links(s: seq<nat>, v: nat, ws: nat) {
    forall i :: 0 <= i < |s| ==> s[i] == i || Seen(s[i], v, ws)
  }

  /** The entry of each of the last window's positions is a run of zeros at that position. */
  ghost predicate Runs(data: seq<byte>, s: seq<nat>, v: nat, ws: nat)
    requires |s| == ws
  {
    ws > 0 ==> forall p: nat :: p < v <= p + ws ==> ZeroRun(data, |data|, p, s[Wrap(p, ws)])
  }

  lemma {:induction false} RunsGrow(data: seq<byte>, s: seq<nat>, v: nat, ws: nat, pos: nat, n: nat)
    requires |s| == ws > 0 && Runs(data, s, v, ws) && pos <= v <= pos + 1
    requires ZeroRun(data, |data|, pos, n)
    ensures Runs(data, s[Wrap(pos, ws) := n], pos + 1, ws)
  {
    var t := s[Wrap(pos, ws) := n];
    forall p: nat | p < pos + 1 <= p + ws ensures ZeroRun(data, |data|, p, t[Wrap(p, ws)]) {
      if p < pos {
        WrapDistinct(p, pos, ws);
        assert ZeroRun(data, |data|, p, s[Wrap(p, ws)]);
      }
    }
  }

  class Hash {
    const windowsize: nat
    const head: array<int>
    const val: array<int>
    const chain: array<nat>
    const headz: array<int>
    const chainz: array<nat>
    const zeros: array<nat>

    /** hash_init; val and zeros are not used before they are written. */
    constructor (windowsize: nat)
      ensures this.windowsize == windowsize
      ensures fresh(head) && fresh(val) && fresh(chain) && fresh(headz) && fresh(chainz) && fresh(zeros)
      ensures forall data: seq<byte> :: Tracks(data, 0)
    {
      this.windowsize := windowsize;
      head := new int[HASH_NUM_VALUES](_ => -1);
      val := new int[windowsize](_ => -1);
      chain := new nat[windowsize](i => i);
      headz := new int[MAX_DEFLATE_LENGTH + 1](_ => -1);
      chainz := new nat[windowsize](i => i);
      zeros := new nat[windowsize];
    }

    ghost predicate Shaped()
    {
      head != headz && head != val && headz != val && chain != chainz && chain != zeros && chainz != zeros &&
      head.Length == HASH_NUM_VALUES && headz.Length == MAX_DEFLATE_LENGTH + 1 &&
      val.Length == chain.Length == chainz.Length == zeros.Length == windowsize
    }

    /** The first v positions of the data have been entered. Chains may be stale, but they
        lead to places of entered positions only. */
    ghost predicate Tracks(data: seq<byte>, v: nat)
      reads head, chain, headz, chainz, zeros
    {
      Shaped() && v <= |data| &&
      Heads(head[..], v, windowsize) && Heads(headz[..], v, windowsize) &&
      Links(chain[..], v, windowsize) && Links(chainz[..], v, windowsize) &&
      Runs(data, zeros[..], v, windowsize)
    }

    /** updateHashChain. */
    method Update(wpos: nat, hashval: nat, numzeros: nat, ghost data: seq<byte>, ghost v: nat, ghost pos: nat)
      requires Tracks(data, v) && windowsize > 0 && wpos == Wrap(pos, windowsize) && pos <= v <= pos + 1 <= |data|
      requires hashval < HASH_NUM_VALUES && ZeroRun(data, |data|, pos, numzeros)
      modifies head, val, chain, headz, chainz, zeros
      ensures Tracks(data, pos + 1)
    {
      ghost var z := zeros[..];
      val[wpos] := hashval;
      if head[hashval] != -1 { chain[wpos] := head[hashval]; }
      head[hashval] := wpos;
      zeros[wpos] := numzeros;
      if headz[numzeros] != -1 { chainz[wpos] := headz[numzeros]; }
      headz[numzeros] := wpos;
      RunsGrow(data, z, v, windowsize, pos, numzeros);
      assert zeros[..] == z[wpos := numzeros];
    }

    /** Forgets where the hash value and the run of zeros were last seen. */
    method Forget(hashval: nat, numzeros: nat, ghost data: seq<byte>, ghost v: nat)
      requires Tracks(data, v) && hashval < HASH_NUM_VALUES && numzeros <= MAX_DEFLATE_LENGTH
      modifies head, headz
      ensures Tracks(data, v)
    {
      head[hashval] := -1;
      headz[numzeros] := -1;
    }

    /** Hashes position pos and enters it; k is the binary logarithm of the window size. */
    method Visit(data: seq<byte>, insize: nat, pos: nat, zerosBefore: nat, ghost v: nat, ghost k: nat)
        returns (wpos: nat, hashval: nat, numzeros: nat)
      requires Tracks(data, v) && windowsize == Pow2(k) && pos <= v <= pos + 1
      requires pos < insize <= |data|
      requires ZeroRun(data, insize, pos - 1, zerosBefore) || ZeroRun(data, insize, pos, zerosBefore)
      modifies head, val, chain, headz, chainz, zeros
      ensures Tracks(data, pos + 1)
      ensures wpos == Wrap(pos, windowsize) && hashval < HASH_NUM_VALUES
      ensures ZeroRun(data, insize, pos, numzeros)
    {
      MaskIsWrap(pos, k);
      wpos := And(pos, windowsize - 1);
      hashval := GetHash(data, insize, pos);
      numzeros := UpdateZeros(data, insize, pos, hashval, zerosBefore);
      Update(wpos, hashval, numzeros, data, v, pos);
    }
  }

  // ---------------------------------------------------------------- matching

  /** A usable match: inside the window, inside the block, and equal. */
  ghost predicate Found(data: seq<byte>, insize: nat, pos: int, length: nat, offset: nat, ws: nat) {
    0 <= pos && 1 <= offset < ws && offset <= pos && pos + length <= insize <= |data| &&
    length <= MAX_DEFLATE_LENGTH && Repeats(data, pos, length, offset)
  }

  /** Both sides start with zeros. */
  lemma {:induction false} ZerosRepeat(data: seq<byte>, insize: nat, pos: nat, offset: nat, m: nat, n: nat, skip: nat)
    requires ZeroRun(data, insize, pos, n) && offset <= pos && ZeroRun(data, |data|, pos - offset, m)
    requires skip <= m && skip <= n
    ensures Repeats(data, pos, skip, offset)
    ensures skip > 0 ==> pos + skip <= insize
  {
    forall k | pos <= k < pos + skip ensures SameAt(data, k, offset) {
      assert data[k] == 0 && data[k - offset] == 0;
    }
  }

  /** The length of the match at the place hashpos, skipping known zeros. */
  method MatchLength(hash: Hash, data: seq<byte>, insize: nat, pos: nat, last: nat, hashpos: nat, offset: nat, numzeros: nat)
      returns (length: nat)
    requires hash.Tracks(data, pos + 1) && hash.windowsize > 0 && hashpos < hash.windowsize
    requires 1 <= offset < hash.windowsize && offset <= pos && Wrap(pos - offset, hash.windowsize) == hashpos
    requires pos < insize <= |data| && last == Min(insize, pos + MAX_DEFLATE_LENGTH)
    requires ZeroRun(data, insize, pos, numzeros)
    ensures Found(data, insize, pos, length, offset, hash.windowsize)
    ensures pos + length == last || !SameAt(data, pos + length, offset)
  {
    length := 0;
    if numzeros >= 3 {
      var skip := hash.zeros[hashpos];
      assert ZeroRun(data, |data|, pos - offset, hash.zeros[..][Wrap(pos - offset, hash.windowsize)]);
      ZerosRepeat(data, insize, pos, offset, skip, numzeros, Min(skip, numzeros));
      if skip > numzeros { skip := numzeros; }
      length := skip;
    }
    while pos + length != last && data[pos - offset + length] == data[pos + length]
      invariant pos + length <= last && Repeats(data, pos, length, offset)
    {
      assert SameAt(data, pos + length, offset);
      length := length + 1;
    }
  }

  /** The search through the hash chains. */
  method FindMatch(hash: Hash, data: seq<byte>, insize: nat, pos: nat, wpos: nat, hashval: nat, numzeros: nat,
                   maxchainlength: nat, nicematch: nat) returns (length: nat, offset: nat)
    requires hash.Tracks(data, pos + 1) && hash.windowsize > 0 && wpos == Wrap(pos, hash.windowsize)
    requires pos < insize <= |data| && ZeroRun(data, insize, pos, numzeros)
    ensures length == 0 || Found(data, insize, pos, length, offset, hash.windowsize)
  {
    var ws := hash.windowsize;
    length, offset := 0, 0;
    assert Seen(hash.chain[..][wpos], pos + 1, ws);
    var hashpos := hash.chain[wpos];
    var last := Min(insize, pos + MAX_DEFLATE_LENGTH);
    var chainlength, prevOffset := 0, 0;
    while chainlength < maxchainlength
      invariant Seen(hashpos, pos + 1, ws)
      invariant length == 0 || Found(data, insize, pos, length, offset, ws)
    {
      chainlength := chainlength + 1;
      BackIs(pos, hashpos, ws);
      var currentOffset := Back(wpos, hashpos, ws);
      if currentOffset < prevOffset { break; }
      prevOffset := currentOffset;
      if currentOffset > 0 {
        var currentLength := MatchLength(hash, data, insize, pos, last, hashpos, currentOffset, numzeros);
        if currentLength > length {
          length, offset := currentLength, currentOffset;
          if currentLength >= nicematch { break; }
        }
      }
      assert Seen(hash.chain[..][hashpos], pos + 1, ws) && Seen(hash.chainz[..][hashpos], pos + 1, ws);
      if hashpos == hash.chain[hashpos] { break; }
      if numzeros >= 3 && length > numzeros {
        hashpos := hash.chainz[hashpos];
        if hash.zeros[hashpos] != numzeros { break; }
      } else {
        hashpos := hash.chain[hashpos];
        if hash.val[hashpos] != hashval { break; }
      }
    }
  }

  // ---------------------------------------------------------------- encoding

  /** The tokens written after the first inpos bytes stand for the bytes up to pos. */
  ghost predicate StandsFor(data: seq<byte>, inpos: nat, pos: nat, tokens: seq<Token>, ws: nat) {
    inpos <= pos <= |data| && ws <= MAX_DISTANCE &&
    TokensOk(tokens, inpos, ws) && End(inpos, tokens) == pos &&
    TokensOk(tokens, inpos, MAX_DISTANCE) && Replay(data[..inpos], tokens) == data[..pos]
  }

  ghost predicate Encodes(data: seq<byte>, inpos: nat, pos: nat, tokens: seq<Token>, ws: nat) {
    StandsFor(data, inpos, pos, tokens, ws) && AllInTables(tokens)
  }

  /** Encodes, for use in longer conditions. */
  ghost predicate EncodesTo(data: seq<byte>, inpos: nat, pos: int, tokens: seq<Token>, ws: nat) {
    pos >= 0 && forall q: nat {:trigger Encodes(data, inpos, q, tokens, ws)} :: q == pos ==> Encodes(data, inpos, q, tokens, ws)
  }

  lemma {:induction false} EncodesNothing(data: seq<byte>, inpos: nat, ws: nat)
    requires inpos <= |data| && ws <= MAX_DISTANCE
    ensures Encodes(data, inpos, inpos, [], ws) && Flatten([]) == []
  {
  }

  lemma {:induction false} StandsForOneMore(data: seq<byte>, inpos: nat, pos: nat, tokens: seq<Token>, ws: nat, t: Token)
    requires StandsFor(data, inpos, pos, tokens, ws) && TokenOk(t, pos, ws)
    requires pos + t.Size() <= |data| && Apply(data[..pos], t) == data[..pos + t.Size()]
    ensures StandsFor(data, inpos, pos + t.Size(), tokens + [t], ws)
  {
    assert TokensOk([t], pos, ws) && TokensOk([t], pos, MAX_DISTANCE);
    TokensConcat(tokens, [t], inpos, ws);
    ReplayConcat(data[..inpos], tokens, [t]);
    ReplayOne(data[..pos], t);
    EndConcat(inpos, tokens, t);
  }

  lemma {:induction false} ReplayOne(out: seq<byte>, t: Token)
    requires TokenOk(t, |out|, MAX_DISTANCE)
    ensures TokensOk([t], |out|, MAX_DISTANCE) && Replay(out, [t]) == Apply(out, t)
  {
    assert [t][1..] == [];
  }

  lemma {:induction false} EncodesOneMore(data: seq<byte>, inpos: nat, pos: nat, tokens: seq<Token>, ws: nat, t: Token)
    requires Encodes(data, inpos, pos, tokens, ws) && TokenOk(t, pos, ws) && InTables(t)
    requires pos + t.Size() <= |data| && Apply(data[..pos], t) == data[..pos + t.Size()]
    ensures Encodes(data, inpos, pos + t.Size(), tokens + [t], ws)
    ensures Flatten(tokens + [t]) == Flatten(tokens) + Flat(t)
  {
    FlattenConcat(tokens, [t]);
    assert Flatten([t]) == Flat(t) + Flatten([]);
    StandsForOneMore(data, inpos, pos, tokens, ws, t);
  }

  lemma {:induction false} EndConcat(pos: nat, tokens: seq<Token>, t: Token)
    ensures End(pos, tokens + [t]) == End(pos, tokens) + t.Size()
    decreases |tokens|
  {
    if tokens == [] {
      assert End(pos + t.Size(), []) == pos + t.Size();
    } else {
      assert (tokens + [t])[1..] == tokens[1..] + [t];
      EndConcat(pos + tokens[0].Size(), tokens[1..], t);
    }
  }

  lemma {:induction false} LiteralApplies(data: seq<byte>, pos: nat)
    requires pos < |data|
    ensures Apply(data[..pos], Literal(data[pos])) == data[..pos + 1] && Flat(Literal(data[pos])) == [data[pos]]
  {
  }

  method EmitLiteral(values: seq<nat>, data: seq<byte>, pos: nat, ghost inpos: nat, ghost ws: nat, ghost tokens: seq<Token>)
      returns (r: seq<nat>, ghost ts: seq<Token>)
    requires Encodes(data, inpos, pos, tokens, ws) && pos < |data| && values == Flatten(tokens)
    ensures Encodes(data, inpos, pos + 1, ts, ws) && r == Flatten(ts)
  {
    ts := tokens + [Literal(data[pos])];
    LiteralApplies(data, pos);
    EncodesOneMore(data, inpos, pos, tokens, ws, Literal(data[pos]));
    r := values + [data[pos]];
  }

  method EmitMatch(values: seq<nat>, data: seq<byte>, insize: nat, pos: nat, length: nat, offset: nat,
                   ghost inpos: nat, ghost ws: nat, ghost tokens: seq<Token>) returns (r: seq<nat>, ghost ts: seq<Token>)
    requires Encodes(data, inpos, pos, tokens, ws) && values == Flatten(tokens)
    requires length >= 3 && Found(data, insize, pos, length, offset, ws)
    ensures Encodes(data, inpos, pos + length, ts, ws) && r == Flatten(ts)
  {
    ghost var t;
    r, t := AddLengthDistance(values, length, offset);
    CopyContinues(data, pos, length, offset);
    EncodesOneMore(data, inpos, pos, tokens, ws, t);
    ts := tokens + [t];
  }

  /** Enters the other positions of a match. */
  method VisitMatch(hash: Hash, data: seq<byte>, insize: nat, start: nat, length: nat, zerosBefore: nat,
                    ghost v: nat, ghost k: nat) returns (pos: nat, numzeros: nat)
    requires hash.Tracks(data, v) && hash.windowsize == Pow2(k) && start + 1 <= v <= start + 2
    requires length >= 3 && start + length <= insize <= |data|
    requires ZeroRun(data, insize, start, zerosBefore) || ZeroRun(data, insize, start + 1, zerosBefore)
    modifies hash.head, hash.val, hash.chain, hash.headz, hash.chainz, hash.zeros
    ensures pos == start + length - 1 && hash.Tracks(data, pos + 1)
    ensures ZeroRun(data, insize, pos, numzeros)
  {
    pos, numzeros := start, zerosBefore;
    var i := 1;
    ghost var seen: nat := v;
    while i < length
      invariant 1 <= i <= length && pos == start + i - 1
      invariant hash.Tracks(data, seen) && pos + 1 <= seen <= pos + 2 && (i > 1 ==> seen == pos + 1)
      invariant ZeroRun(data, insize, pos, numzeros) || ZeroRun(data, insize, pos + 1, numzeros)
      invariant i > 1 ==> ZeroRun(data, insize, pos, numzeros)
    {
      pos := pos + 1;
      var _, _, n := hash.Visit(data, insize, pos, numzeros, seen, k);
      numzeros, seen := n, pos + 1;
      i := i + 1;
    }
  }

  /** Encodes what was decided for position pos, as a match or a literal; the new position is
      the last one encoded. */
  method Emit(hash: Hash, data: seq<byte>, insize: nat, start: nat, length: nat, offset: nat, minmatch: nat,
              zerosBefore: nat, written: seq<nat>, ghost inpos: nat, ghost before: seq<Token>, ghost seen: nat, ghost k: nat)
      returns (pos: nat, numzeros: nat, values: seq<nat>, ghost tokens: seq<Token>, ghost v: nat)
    requires hash.Tracks(data, seen) && hash.windowsize == Pow2(k) && start + 1 <= seen <= start + 2 && seen <= insize
    requires start < insize <= |data|
    requires ZeroRun(data, insize, start, zerosBefore) || ZeroRun(data, insize, start + 1, zerosBefore)
    requires length >= 3 ==> Found(data, insize, start, length, offset, hash.windowsize)
    requires written == Flatten(before) && Encodes(data, inpos, start, before, hash.windowsize)
    modifies hash.head, hash.val, hash.chain, hash.headz, hash.chainz, hash.zeros
    ensures start <= pos < insize && hash.Tracks(data, v) && pos + 1 <= v <= pos + 2 && v <= insize
    ensures ZeroRun(data, insize, pos, numzeros) || ZeroRun(data, insize, pos + 1, numzeros)
    ensures values == Flatten(tokens) && Encodes(data, inpos, pos + 1, tokens, hash.windowsize)
  {
    if length < 3 || length < minmatch || (length == 3 && offset > 4096) {
      values, tokens := EmitLiteral(written, data, start, inpos, hash.windowsize, before);
      pos, numzeros, v := start, zerosBefore, seen;
    } else {
      values, tokens := EmitMatch(written, data, insize, start, length, offset, inpos, hash.windowsize, before);
      pos, numzeros := VisitMatch(hash, data, insize, start, length, zerosBefore, seen, k);
      v := pos + 1;
    }
  }

  /** Chooses between the match at pos and a pending match just before it. A pending match is
      kept, and the search goes back to it, unless the new one is longer by two. */
  method Resolve(hash: Hash, data: seq<byte>, insize: nat, here: nat, hashval: nat, newlength: nat, newoffset: nat,
                 lazy: bool, lazylength: nat, lazyoffset: nat, minmatch: nat, zerosHere: nat,
                 written: seq<nat>, ghost inpos: nat, ghost before: seq<Token>, ghost k: nat)
      returns (pos: nat, numzeros: nat, values: seq<nat>, ghost tokens: seq<Token>, ghost v: nat)
    requires hash.Tracks(data, here + 1) && hash.windowsize == Pow2(k) && hashval < HASH_NUM_VALUES
    requires here < insize <= |data| && ZeroRun(data, insize, here, zerosHere)
    requires newlength > 0 ==> Found(data, insize, here, newlength, newoffset, hash.windowsize)
    requires lazy ==> here > 0 && lazylength >= 3 && Found(data, insize, here - 1, lazylength, lazyoffset, hash.windowsize)
    requires written == Flatten(before)
    requires EncodesTo(data, inpos, if lazy then here - 1 else here, before, hash.windowsize)
    modifies hash.head, hash.val, hash.chain, hash.headz, hash.chainz, hash.zeros
    ensures (if lazy then here - 1 else here) <= pos < insize
    ensures hash.Tracks(data, v) && pos + 1 <= v <= pos + 2 && v <= insize
    ensures ZeroRun(data, insize, pos, numzeros) || ZeroRun(data, insize, pos + 1, numzeros)
    ensures values == Flatten(tokens) && EncodesTo(data, inpos, pos + 1, tokens, hash.windowsize)
  {
    ghost var ws := hash.windowsize;
    var length, offset := newlength, newoffset;
    values, tokens, pos := written, before, here;
    if lazy {
      if length > lazylength + 1 {
        values, tokens := EmitLiteral(values, data, pos - 1, inpos, ws, tokens);
      } else {
        length, offset := lazylength, lazyoffset;
        hash.Forget(hashval, zerosHere, data, here + 1);
        pos := pos - 1;
      }
    }
    pos, numzeros, values, tokens, v :=
      Emit(hash, data, insize, pos, length, offset, minmatch, zerosHere, values, inpos, tokens, here + 1, k);
  }

  /** Windows that are not a power of two, or too large, are refused. */
  function WindowError(windowsize: nat): nat {
    if windowsize == 0 || windowsize > 32768 then 60 else if And(windowsize, windowsize - 1) != 0 then 90 else 0
  }

  /** A match at the previous position waits for a longer one. */
  ghost predicate Deferred(data: seq<byte>, inpos: nat, insize: nat, pos: nat, length: nat, offset: nat, ws: nat) {
    inpos < pos < insize && length >= 3 && Found(data, insize, pos - 1, length, offset, ws)
  }

  /** encodeLZ77. The result stands for the block whatever earlier blocks left in the hash.
      The errors 81 and 86 of the source cannot occur. */
  method EncodeLZ77(hash: Hash, data: seq<byte>, inpos: nat, insize: nat, windowsize: nat,
                    minmatch: nat, nicematch: nat, lazymatching: bool)
      returns (error: nat, values: seq<nat>, ghost tokens: seq<Token>)
    requires hash.windowsize == windowsize && hash.Tracks(data, inpos) && inpos <= insize <= |data|
    modifies hash.head, hash.val, hash.chain, hash.headz, hash.chainz, hash.zeros
    ensures error == WindowError(windowsize)
    ensures error == 0 ==> values == Flatten(tokens) && Encodes(data, inpos, insize, tokens, windowsize)
    ensures error == 0 ==> hash.Tracks(data, insize)
  {
    values, tokens := [], [];
    if windowsize == 0 || windowsize > 32768 { return 60, values, tokens; }
    if And(windowsize, windowsize - 1) != 0 { return 90, values, tokens; }
    ghost var k := PowerOfTwoTest(windowsize);
    error := 0;
    var maxchainlength := if windowsize >= 8192 then windowsize else windowsize / 8;
    var maxlazymatch := if windowsize >= 8192 then MAX_DEFLATE_LENGTH else 64;
    var nice := Min(nicematch, MAX_DEFLATE_LENGTH);
    var pos, numzeros := inpos, 0;
    var lazy, lazylength, lazyoffset := false, 0, 0;
    ghost var v: nat := inpos;
    EncodesNothing(data, inpos, windowsize);
    while pos < insize
      invariant inpos <= pos <= insize && hash.Tracks(data, v) && pos <= v <= pos + 1 && v <= insize
      invariant ZeroRun(data, insize, pos - 1, numzeros) || ZeroRun(data, insize, pos, numzeros)
      invariant lazy ==> lazymatching && Deferred(data, inpos, insize, pos, lazylength, lazyoffset, windowsize)
      invariant values == Flatten(tokens) && EncodesTo(data, inpos, if lazy then pos - 1 else pos, tokens, windowsize)
      decreases insize - (if lazy then pos - 1 else pos), !lazy
    {
      var wpos, hashval, n := hash.Visit(data, insize, pos, numzeros, v, k);
      numzeros, v := n, pos + 1;
      var length, offset := FindMatch(hash, data, insize, pos, wpos, hashval, numzeros, maxchainlength, nice);
      if lazymatching && !lazy && 3 <= length <= maxlazymatch && length < MAX_DEFLATE_LENGTH {
        lazy, lazylength, lazyoffset := true, length, offset;
      } else {
        pos, numzeros, values, tokens, v :=
          Resolve(hash, data, insize, pos, hashval, length, offset, lazy, lazylength, lazyoffset, minmatch, numzeros,
                  values, inpos, tokens, k);
        lazy := false;
      }
      pos := pos + 1;
    }
  }
}
