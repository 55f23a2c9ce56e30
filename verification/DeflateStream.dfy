/** lodepng_deflatev over all three block types, and the round trip through the decoder. */
module DeflateStream {
  import opened Bits
  import opened BitStream
  import opened Tokens
  import opened Lz77
  import opened DeflateFormat
  import opened DeflateWriter
  import opened DeflateDynamic
  import opened Inflate
  import opened LookAhead
  import opened MachineWords
  import opened StoredData

  /** The bytes start with blocks that stand for the data, the last of them not empty. */
  ghost predicate Packs(out: seq<byte>, data: seq<byte>, blocks: seq<Block>, stop: nat, readable: bool) {
    blocks != [] && blocks[|blocks| - 1] != Stored([]) &&
    BlocksStand(StreamBits(out), 0, blocks, [], data, stop, true, readable)
  }

  // ---------------------------------------------------------------- stored blocks

  lemma {:induction false} FirstByte(f: bit)
    ensures LsbBits(f, 8)[..3] == HeadBits(0, f == 1)
  {
    LsbBitsTake(f, 8, 1);
    OneBit(f);
    LsbBitsTake(Shr(f, 1), 7, 2);
    assert LsbBits(f, 8)[..3] == LsbBits(f, 8)[..1] + LsbBits(f, 8)[1..][..2];
    assert Shr(f, 1) == Shr(0, 0);
  }

  /** Header byte, lengths and data of a stored block after whole bytes. */
  lemma {:induction false} StoredAppended(before: seq<byte>, chunk: seq<byte>, f: bit, after: seq<byte>, pos: nat)
    requires |chunk| < 65536 && after == before + [f] + StoredBytes(chunk)
    ensures StreamBits(before) <= StreamBits(after)
    ensures BlockAt(StreamBits(after), 8 * |before|, Stored(chunk), pos, f == 1)
    ensures BlockEnd(8 * |before|, Stored(chunk), pos) == 8 * |after|
  {
    StoredStream(before, chunk, f, after);
    StoredAt(StreamBits(after), 8 * |before|, chunk, f == 1, pos);
  }

  /** The bits of a stored block behind those of before. */
  lemma {:induction false} StoredStream(before: seq<byte>, chunk: seq<byte>, f: bit, after: seq<byte>)
    requires |chunk| < 65536 && after == before + [f] + StoredBytes(chunk)
    ensures var s, p := StreamBits(after), 8 * |before|;
            |s| == p + 8 + 8 * |StoredBytes(chunk)| && StreamBits(before) <= s &&
            s[p..][..3] == HeadBits(0, f == 1) && s[p + 8..] == StreamBits(StoredBytes(chunk))
  {
    var rest := StreamBits(StoredBytes(chunk));
    StreamBitsConcat(before + [f], StoredBytes(chunk));
    StreamBitsConcat(before, [f]);
    assert StreamBits([f]) == LsbBits(f, 8);
    FirstByte(f);
    ThreeParts(StreamBits(before), LsbBits(f, 8), rest);
  }

  lemma {:induction false} ThreeParts(a: seq<bit>, b: seq<bit>, c: seq<bit>)
    requires |b| == 8
    ensures var s := a + b + c; a <= s && s[|a|..][..3] == b[..3] && s[|a| + 8..] == c
  {
  }

  lemma {:induction false} StoredAt(s: seq<bit>, p: nat, chunk: seq<byte>, final: bool, pos: nat)
    requires p % 8 == 0 && |chunk| < 65536 && |s| == p + 8 + 8 * |StoredBytes(chunk)|
    requires s[p..][..3] == HeadBits(0, final) && s[p + 8..] == StreamBits(StoredBytes(chunk))
    ensures BlockAt(s, p, Stored(chunk), pos, final) && BlockEnd(p, Stored(chunk), pos) == |s|
  {
    assert BodyStart(p, Stored(chunk)) == p + 8;
  }

  ghost predicate NoneEmpty(blocks: seq<Block>) {
    forall i :: 0 <= i < |blocks| ==> blocks[i] != Stored([])
  }

  /** All that has been written so far: blocks that stand for the data up to datapos. */
  ghost predicate StoredUpTo(out: seq<byte>, blocks: seq<Block>, data: seq<byte>, datapos: nat, final: bool) {
    datapos <= |data| &&
    BlocksStand(StreamBits(out), 0, blocks, [], data[..datapos], 8 * |out|, final, true) && NoneEmpty(blocks)
  }

  lemma {:induction false} StoredMore(before: seq<byte>, blocks: seq<Block>, data: seq<byte>, start: nat, datapos: nat, f: byte, out: seq<byte>)
    requires StoredUpTo(before, blocks, data, start, false) && start < datapos <= |data| && datapos - start < 65536 && f < 2
    requires out == before + [f] + StoredBytes(data[start..datapos])
    ensures StoredUpTo(out, blocks + [Stored(data[start..datapos])], data, datapos, f == 1)
  {
    var chunk := data[start..datapos];
    StoredAppended(before, chunk, f, out, start);
    assert data[..start] + chunk == data[..datapos];
    StoredNext(StreamBits(before), StreamBits(out), 8 * |before|, 8 * |out|, blocks, chunk, data[..start], data[..datapos],
               f == 1);
  }

  lemma {:induction false} StoredNext(s: seq<bit>, t: seq<bit>, n: nat, m: nat, blocks: seq<Block>, chunk: seq<byte>,
                                      before: seq<byte>, after: seq<byte>, final: bool)
    requires n == |s| && m == |t| && s <= t && NoneEmpty(blocks) && 0 < |chunk| < 65536 && before + chunk == after
    requires BlocksStand(s, 0, blocks, [], before, n, false, true)
    requires BlockAt(t, n, Stored(chunk), |before|, final) && BlockEnd(n, Stored(chunk), |before|) == m
    ensures BlocksStand(t, 0, blocks + [Stored(chunk)], [], after, m, final, true) && NoneEmpty(blocks + [Stored(chunk)])
  {
    WrittenNext(s, t, blocks, Stored(chunk), before, after, final, true);
  }

  /** The five bytes before the data of a stored block. */
  function StoredHead(f: byte, len: nat): seq<byte>
    requires len < 65536
  {
    [f, len % 256, len / 256, (65535 - len) % 256, (65535 - len) / 256]
  }

  lemma {:induction false} StoredLayout(before: seq<byte>, f: byte, chunk: seq<byte>)
    requires |chunk| < 65536
    ensures before + StoredHead(f, |chunk|) + chunk == before + [f] + StoredBytes(chunk)
  {
  }

  /** The next bytes of the data, at most 65535, by a position of 32 bits. */
  method CopyData(before: seq<byte>, data: seq<byte>, start: nat) returns (out: seq<byte>, datapos: nat)
    requires start <= |data| && start < WORD32
    ensures out == before + Around(data, start, CopyCount(|data|, start))
    ensures datapos == (start + CopyCount(|data|, start)) % WORD32
  {
    out, datapos := before, start;
    var j := 0;
    ghost var count := CopyCount(|data|, start);
    while j < 65535 && datapos < |data|
      invariant j <= count && datapos == (start + j) % WORD32
      invariant out == before + Around(data, start, j)
    {
      out := out + [data[datapos]];
      AroundMore(data, start, j);
      datapos, j := (datapos + 1) % WORD32, j + 1;
    }
  }

  lemma {:induction false} AroundMore(data: seq<byte>, start: nat, j: nat)
    requires |data| < WORD32 ==> start + j + 1 <= |data|
    ensures Around(data, start, j + 1) == Around(data, start, j) + [data[(start + j) % WORD32]]
    ensures ((start + j) % WORD32 + 1) % WORD32 == (start + j + 1) % WORD32
  {
  }

  /** The first bytes that are copied are the next ones of what is sent. */
  lemma {:induction false} AroundIsSent(data: seq<byte>, p: nat, d: nat, count: nat, len: nat)
    requires d == p % WORD32 && (|data| < WORD32 ==> d + count <= |data|) && len <= count && p + len <= SentSize(|data|)
    ensures Around(data, d, count)[..len] == Sent(data)[p..p + len]
  {
    forall k | 0 <= k < len ensures Around(data, d, count)[k] == Sent(data)[p + k] {
      SamePosition(p, k);
    }
  }

  lemma {:induction false} SamePosition(p: nat, k: nat)
    ensures (p % WORD32 + k) % WORD32 == (p + k) % WORD32
  {
    var q := p / WORD32;
    assert p + k == q * WORD32 + (p % WORD32 + k);
  }

  /** Blocks for what is sent up to pos, and more behind them if the last one was overlong. */
  ghost predicate SentUpTo(out: seq<byte>, base: seq<byte>, blocks: seq<Block>, sent: seq<byte>, pos: nat, final: bool,
                           overlong: bool) {
    base <= out && StoredUpTo(base, blocks, sent, pos, final) && (base != out <==> overlong)
  }

  /** LEN, in 32 bits. */
  method LengthField(n: nat, datapos: nat) returns (len: nat)
    requires datapos <= n && datapos < WORD32
    ensures len == BlockLength(n, datapos)
  {
    len := 65535;
    if n - datapos < 65535 {
      len := (n % WORD32 + WORD32 - datapos) % WORD32;
      Difference32(n, datapos, len);
    }
  }

  lemma {:induction false} Difference32(n: nat, d: nat, len: nat)
    requires d <= n < d + 65535 && d < WORD32 && len == (n % WORD32 + WORD32 - d) % WORD32
    ensures len == n - d
  {
    var q, r := n / WORD32, n % WORD32;
    assert n == q * WORD32 + r;
  }

  /** LEN fits, and what is copied begins with what is sent from p to q. */
  lemma {:induction false} ChunkFacts(data: seq<byte>, d: nat, p: nat, q: nat)
    requires d == p % WORD32 && d <= |data| && q == p + BlockLength(|data|, d) <= |Sent(data)|
    requires BlockLength(|data|, d) <= CopyCount(|data|, d)
    ensures var copied, len := Around(data, d, CopyCount(|data|, d)), BlockLength(|data|, d);
            |copied| == CopyCount(|data|, d) && len < 65536 && copied[..len] == Sent(data)[p..q]
  {
    AroundIsSent(data, p, d, CopyCount(|data|, d), BlockLength(|data|, d));
  }

  /** The block from p to q starts at the read position d. */
  ghost predicate Planned(n: nat, d: nat, p: nat, q: nat, overlong: bool) {
    d == p % WORD32 && d <= n && q == p + BlockLength(n, d) <= SentSize(n) && 0 < BlockLength(n, d) <= CopyCount(n, d) &&
    (overlong <==> BlockLength(n, d) < CopyCount(n, d))
  }

  /** The block of what is sent from p to q. */
  method StoredBlock(before: seq<byte>, data: seq<byte>, datapos: nat, final: bool, ghost p: nat, ghost q: nat,
                     ghost overlong: bool, ghost blocks: seq<Block>)
      returns (out: seq<byte>, next: nat, ghost base: seq<byte>, ghost more: seq<Block>)
    requires Planned(|data|, datapos, p, q, overlong) && StoredUpTo(before, blocks, Sent(data), p, false)
    ensures next == (datapos + CopyCount(|data|, datapos)) % WORD32
    ensures more != [] && SentUpTo(out, base, more, Sent(data), q, final, overlong)
  {
    var firstbyte: byte := if final then 1 else 0;
    var len := LengthField(|data|, datapos);
    out, next := CopyData(before + StoredHead(firstbyte, len), data, datapos);
    ghost var copied := Around(data, datapos, CopyCount(|data|, datapos));
    ChunkFacts(data, datapos, p, q);
    base, more := BlockSent(before, Sent(data), p, q, firstbyte, copied, len, blocks, out, overlong);
  }

  lemma {:induction false} BlockSent(before: seq<byte>, sent: seq<byte>, p: nat, q: nat, f: byte, copied: seq<byte>, len: nat,
                                     blocks: seq<Block>, out: seq<byte>, overlong: bool)
      returns (base: seq<byte>, more: seq<Block>)
    requires StoredUpTo(before, blocks, sent, p, false) && p < q == p + len <= |sent| && len < 65536 && f < 2
    requires len <= |copied| && copied[..len] == sent[p..q] && (overlong <==> len < |copied|)
    requires out == before + StoredHead(f, len) + copied
    ensures more != [] && SentUpTo(out, base, more, sent, q, f == 1, overlong)
  {
    base, more := before + StoredHead(f, len) + sent[p..q], blocks + [Stored(sent[p..q])];
    Cut(before + StoredHead(f, len), copied, len);
    StoredLayout(before, f, sent[p..q]);
    StoredMore(before, blocks, sent, p, q, f, base);
  }

  lemma {:induction false} NextPosition(i: nat)
    ensures (ReadPosition(i) + STORED_SIZE) % WORD32 == ReadPosition(i + 1)
  {
    SamePosition(i * STORED_SIZE, STORED_SIZE);
  }

  lemma {:induction false} Cut(a: seq<byte>, b: seq<byte>, n: nat)
    requires n <= |b|
    ensures a + b[..n] <= a + b && (a + b[..n] != a + b <==> n < |b|)
  {
  }

  lemma {:induction false} NothingSent(sent: seq<byte>)
    ensures SentUpTo([], [], [], sent, 0, false, false)
  {
    NoBlocks([], 0, [], [], false, true);
  }

  /** Before block i of n: blocks up to pos, all of it after the last one. */
  ghost predicate SentSoFar(out: seq<byte>, base: seq<byte>, blocks: seq<Block>, sent: seq<byte>, i: nat, n: nat, pos: nat,
                            overlong: bool) {
    (i < n ==> pos == i * STORED_SIZE) && (i > 0 ==> blocks != []) && (i == n > 0 ==> pos == |sent|) &&
    SentUpTo(out, base, blocks, sent, pos, i == n > 0, i == n > 0 && overlong)
  }

  /** deflateNoCompression. Empty data gives no blocks at all. The blocks end with the output
      unless the last one is overlong. */
  method DeflateNoCompression(data: seq<byte>) returns (out: seq<byte>, ghost blocks: seq<Block>, ghost stop: nat)
    ensures data == [] ==> out == []
    ensures data != [] ==> Packs(out, Sent(data), blocks, stop, true) && (stop == 8 * |out| <==> !Overlong(|data|))
  {
    out, blocks := [], [];
    ghost var base, pos := [], 0;
    var numdeflateblocks := (|data| + 65534) / 65535;
    var datapos, i := 0, 0;
    NothingSent(Sent(data));
    while i != numdeflateblocks
      invariant i <= numdeflateblocks && (i < numdeflateblocks ==> datapos == ReadPosition(i))
      invariant SentSoFar(out, base, blocks, Sent(data), i, numdeflateblocks, pos, Overlong(|data|))
      invariant data == [] ==> out == []
    {
      out, datapos, base, blocks, pos := NextStored(out, data, datapos, i, numdeflateblocks, base, blocks, pos);
      i := i + 1;
    }
    stop := 8 * |base|;
    if data != [] { SentPacks(out, base, blocks, Sent(data), Overlong(|data|)); }
  }

  /** Block i of n. */
  method NextStored(before: seq<byte>, data: seq<byte>, datapos: nat, i: nat, n: nat, ghost base: seq<byte>,
                    ghost blocks: seq<Block>, ghost pos: nat)
      returns (out: seq<byte>, next: nat, ghost base': seq<byte>, ghost blocks': seq<Block>, ghost pos': nat)
    requires i < n == StoredCount(|data|) && datapos == ReadPosition(i)
    requires SentSoFar(before, base, blocks, Sent(data), i, n, pos, Overlong(|data|))
    ensures i + 1 < n ==> next == ReadPosition(i + 1)
    ensures SentSoFar(out, base', blocks', Sent(data), i + 1, n, pos', Overlong(|data|))
  {
    ghost var overlong;
    SoFarStored(before, base, blocks, Sent(data), i, n, pos, Overlong(|data|));
    pos', overlong := PlanBlock(|data|, i, n, datapos, pos);
    out, next, base', blocks' := StoredBlock(before, data, datapos, i == n - 1, pos, pos', overlong, blocks);
    SoFarIs(out, base', blocks', Sent(data), i, n, pos', i == n - 1, overlong, Overlong(|data|), SentSize(|data|));
  }

  lemma {:induction false} SoFarStored(out: seq<byte>, base: seq<byte>, blocks: seq<Block>, sent: seq<byte>, i: nat, n: nat,
                                       pos: nat, overlong: bool)
    requires SentSoFar(out, base, blocks, sent, i, n, pos, overlong) && i < n
    ensures StoredUpTo(out, blocks, sent, pos, false) && pos == i * STORED_SIZE
  {
  }

  lemma {:induction false} SoFarIs(out: seq<byte>, base: seq<byte>, blocks: seq<Block>, sent: seq<byte>, i: nat, n: nat,
                                   pos: nat, final: bool, last: bool, overlong: bool, size: nat)
    requires i < n && blocks != [] && SentUpTo(out, base, blocks, sent, pos, final, last) && size == |sent|
    requires (final <==> i == n - 1) && (last <==> i + 1 == n && overlong)
    requires if i + 1 < n then pos == (i + 1) * STORED_SIZE else pos == size
    ensures SentSoFar(out, base, blocks, sent, i + 1, n, pos, overlong)
  {
  }

  /** Block i ends at q. */
  lemma {:induction false} PlanBlock(n: nat, i: nat, m: nat, d: nat, p: nat) returns (q: nat, overlong: bool)
    requires i < m == StoredCount(n) && d == ReadPosition(i) && p == i * STORED_SIZE
    ensures Planned(n, d, p, q, overlong) && (overlong <==> i + 1 == m && Overlong(n))
    ensures if i + 1 < m then q == (i + 1) * STORED_SIZE else q == SentSize(n)
    ensures i + 1 < m ==> (d + CopyCount(n, d)) % WORD32 == ReadPosition(i + 1)
  {
    BlockFacts(n, i, d);
    q, overlong := p + BlockLength(n, d), i + 1 == m && Overlong(n);
    if i + 1 < m {
      FullBlock(n, i, d);
      NextPosition(i);
    }
  }

  lemma {:induction false} SentPacks(out: seq<byte>, base: seq<byte>, blocks: seq<Block>, sent: seq<byte>, overlong: bool)
    requires blocks != [] && SentUpTo(out, base, blocks, sent, |sent|, true, overlong)
    ensures Packs(out, sent, blocks, 8 * |base|, true) && (8 * |base| == 8 * |out| <==> !overlong)
  {
    assert sent[..|sent|] == sent;
    StreamBitsDrop(out, |base|);
    assert out[..|base|] == base;
    BasePacks(StreamBits(base), out, blocks, sent, 8 * |base|);
  }

  lemma {:induction false} BasePacks(s: seq<bit>, out: seq<byte>, blocks: seq<Block>, sent: seq<byte>, stop: nat)
    requires blocks != [] && NoneEmpty(blocks) && s <= StreamBits(out)
    requires BlocksStand(s, 0, blocks, [], sent, stop, true, true)
    ensures Packs(out, sent, blocks, stop, true)
  {
    BlocksExtend(s, StreamBits(out), 0, blocks, [], sent, stop, true, true);
  }

  // ---------------------------------------------------------------- compressed blocks

  /** All that has been written so far: blocks that stand for the data up to datapos. */
  ghost predicate WrittenUpTo(s: seq<bit>, blocks: seq<Block>, data: seq<byte>, datapos: nat, final: bool, readable: bool) {
    datapos <= |data| &&
    BlocksStand(s, 0, blocks, [], data[..datapos], |s|, final, readable) && NoneEmpty(blocks)
  }

  lemma {:induction false} AppendedStands(s: seq<bit>, t: seq<bit>, b: Block, data: seq<byte>, datapos: nat, dataend: nat, final: bool)
    requires Appended(s, t, b, data, datapos, dataend, final)
    ensures s <= t && BlockAt(t, |s|, b, datapos, final) && BlockEnd(|s|, b, datapos) == |t|
  {
    var head, body := HeadBits(TypeOf(b), final), BodyBits(b, datapos);
    assert t[|s|..] == head + body;
    AtSplit(t, |s|, head, body);
  }

  lemma {:induction false} WrittenMore(s: seq<bit>, t: seq<bit>, blocks: seq<Block>, b: Block, data: seq<byte>,
                                       datapos: nat, dataend: nat, final: bool, readable: bool)
    requires WrittenUpTo(s, blocks, data, datapos, false, readable)
    requires Appended(s, t, b, data, datapos, dataend, final) && (readable ==> BlockReadable(b, datapos, BodyStart(|s|, b)))
    ensures WrittenUpTo(t, blocks + [b], data, dataend, final, readable)
  {
    AppendedStands(s, t, b, data, datapos, dataend, final);
    WrittenNext(s, t, blocks, b, data[..datapos], data[..dataend], final, readable);
  }

  lemma {:induction false} WrittenNext(s: seq<bit>, t: seq<bit>, blocks: seq<Block>, b: Block, before: seq<byte>,
                                       after: seq<byte>, final: bool, readable: bool)
    requires BlocksStand(s, 0, blocks, [], before, |s|, false, readable) && NoneEmpty(blocks) && b != Stored([])
    requires s <= t && BlockAt(t, |s|, b, |before|, final) && BlockEnd(|s|, b, |before|) == |t|
    requires UnpackBlock(before, b) == after && (readable ==> BlockReadable(b, |before|, BodyStart(|s|, b)))
    ensures BlocksStand(t, 0, blocks + [b], [], after, |t|, final, readable) && NoneEmpty(blocks + [b])
  {
    OneMoreBlock(s, t, 0, blocks, [], before, |s|, b, final, readable);
  }

  lemma {:induction false} NothingWritten(data: seq<byte>, readable: bool)
    ensures WrittenUpTo([], [], data, 0, false, readable)
  {
    NoBlocks([], 0, [], [], false, readable);
  }

  /** The last block ends the data, and only the last. */
  lemma {:induction false} BlockCount(insize: nat, blocksize: nat, n: nat, i: nat)
    requires blocksize > 0 && insize > 0 && n == (insize + blocksize - 1) / blocksize && i < n
    ensures i * blocksize < insize && (i == n - 1 <==> (i + 1) * blocksize >= insize)
  {
    var r := (insize + blocksize - 1) % blocksize;
    assert insize + blocksize - 1 == n * blocksize + r;
    if i < n - 1 {
      MulMono(i + 1, n - 1, blocksize);
    }
    MulMono(i, n - 1, blocksize);
    assert (n - 1) * blocksize == n * blocksize - blocksize;
    assert (i + 1) * blocksize == i * blocksize + blocksize;
  }

  lemma {:induction false} MulMono(a: nat, b: nat, c: nat)
    requires a <= b
    ensures a * c <= b * c
  {
  }

  /** One block of type 1 or 2. */
  method DeflateBlock(writer: BitWriter, hash: Hash, data: seq<byte>, start: nat, end: nat, settings: Settings, final: bool,
                      ghost blocks: seq<Block>, ghost readable: bool) returns (error: nat, ghost more: seq<Block>)
    requires writer.Valid() && hash.windowsize == settings.windowsize && start <= end <= |data|
    requires 1 <= settings.btype <= 2 && hash.Tracks(data, if settings.useLz77 then start else 0)
    requires settings.btype == 1 ==> final
    requires WrittenUpTo(writer.Written(), blocks, data, start, false, readable)
    requires readable && settings.btype == 2 && settings.useLz77 ==> settings.windowsize <= 2048
    modifies writer, hash.head, hash.val, hash.chain, hash.headz, hash.chainz, hash.zeros
    ensures error in {0, 60, 90} && (error == 0 <==> settings.WindowOk())
    ensures error == 0 ==> writer.Valid() && more != [] && WrittenUpTo(writer.Written(), more, data, end, final, readable)
    ensures error == 0 && !final ==> hash.Tracks(data, if settings.useLz77 then end else 0)
  {
    ghost var s, b := writer.Written(), Stored([]);
    if settings.btype == 1 {
      error, b := DeflateFixed(writer, hash, data, start, end, settings, final);
    } else {
      error, b := DeflateBlockDynamic(writer, hash, data, start, end, settings, final);
    }
    more := blocks + [b];
    if error == 0 { WrittenMore(s, writer.Written(), blocks, b, data, start, end, final, readable); }
  }

  predicate IsBlockCount(n: nat, insize: nat, blocksize: nat) {
    blocksize > 0 && n == if (insize + blocksize - 1) / blocksize == 0 then 1 else (insize + blocksize - 1) / blocksize
  }

  /** Where block i of n starts. */
  function BlockStart(i: nat, n: nat, blocksize: nat, insize: nat): nat
    decreases i, n
  {
    if i == 0 then 0 else if i < n then BlockStart(i - 1, n, blocksize, insize) + blocksize else insize
  }

  lemma {:induction false} BlockStartIs(i: nat, n: nat, blocksize: nat, insize: nat)
    requires i < n
    ensures BlockStart(i, n, blocksize, insize) == i * blocksize
    decreases i
  {
    if i > 0 {
      BlockStartIs(i - 1, n, blocksize, insize);
      assert i * blocksize == (i - 1) * blocksize + blocksize;
    }
  }

  /** Block i of n, which starts at start, ends before the end of the data unless it is the last. */
  ghost predicate Reaches(insize: nat, blocksize: nat, n: nat, i: nat, start: nat) {
    start <= insize && (i == n - 1 ==> start + blocksize >= insize) && (insize == blocksize ==> n == 1) &&
    (i < n - 1 ==> start + blocksize == BlockStart(i + 1, n, blocksize, insize) < insize)
  }

  /** The number of blocks, at least one. */
  method CountBlocks(insize: nat, blocksize: nat) returns (n: nat)
    requires blocksize > 0
    ensures n > 0
    ensures forall i: nat, start: nat {:trigger Reaches(insize, blocksize, n, i, start)} ::
      i < n && start == BlockStart(i, n, blocksize, insize) ==> Reaches(insize, blocksize, n, i, start)
  {
    n := (insize + blocksize - 1) / blocksize;
    if n == 0 { n := 1; }
    forall i: nat, start: nat | i < n && start == BlockStart(i, n, blocksize, insize)
      ensures Reaches(insize, blocksize, n, i, start)
    {
      BlockEnds(insize, blocksize, n, i, start);
    }
  }

  /** Block i of n. */
  method DeflateNext(writer: BitWriter, hash: Hash, data: seq<byte>, blocksize: nat, n: nat, i: nat, start: nat,
                     settings: Settings, ghost blocks: seq<Block>, ghost readable: bool)
      returns (error: nat, next: nat, end: nat, ghost more: seq<Block>)
    requires writer.Valid() && hash.windowsize == settings.windowsize
    requires i < n && start == BlockStart(i, n, blocksize, |data|) && Reaches(|data|, blocksize, n, i, start)
    requires 1 <= settings.btype <= 2 && (settings.btype == 1 ==> blocksize == |data|)
    requires hash.Tracks(data, if settings.useLz77 then start else 0)
    requires WrittenUpTo(writer.Written(), blocks, data, start, false, readable)
    requires readable && settings.btype == 2 && settings.useLz77 ==> settings.windowsize <= 2048
    modifies writer, hash.head, hash.val, hash.chain, hash.headz, hash.chainz, hash.zeros
    ensures error in {0, 60, 90} && (error == 0 <==> settings.WindowOk())
    ensures next == i + 1 && end <= |data| && end == BlockStart(next, n, blocksize, |data|)
    ensures error == 0 ==> writer.Valid() && more != [] && WrittenUpTo(writer.Written(), more, data, end, next == n, readable)
    ensures error == 0 && next < n ==> hash.Tracks(data, if settings.useLz77 then end else 0)
  {
    next := i + 1;
    end := start + blocksize;
    if end > |data| { end := |data|; }
    error, more := DeflateBlock(writer, hash, data, start, end, settings, next == n, blocks, readable);
  }

  /** The loop of lodepng_deflatev over the blocks. */
  method DeflateBlocks(writer: BitWriter, hash: Hash, data: seq<byte>, blocksize: nat, settings: Settings, ghost readable: bool)
      returns (error: nat, ghost blocks: seq<Block>)
    requires writer.Valid() && writer.Written() == [] && hash.windowsize == settings.windowsize && hash.Tracks(data, 0)
    requires 1 <= settings.btype <= 2 && blocksize > 0 && (settings.btype == 1 ==> data != [] && blocksize == |data|)
    requires readable && settings.btype == 2 && settings.useLz77 ==> settings.windowsize <= 2048
    modifies writer, hash.head, hash.val, hash.chain, hash.headz, hash.chainz, hash.zeros
    ensures error in {0, 60, 90} && (error == 0 <==> settings.WindowOk())
    ensures error == 0 ==> writer.Valid() && blocks != [] && WrittenUpTo(writer.Written(), blocks, data, |data|, true, readable)
  {
    var n := CountBlocks(|data|, blocksize);
    error, blocks := 0, [];
    NothingWritten(data, readable);
    var i, start := 0, 0;
    while i != n
      invariant i <= n && error == 0 && (i > 0 ==> settings.WindowOk() && blocks != [])
      invariant writer.Valid() && start <= |data| && start == BlockStart(i, n, blocksize, |data|)
      invariant WrittenUpTo(writer.Written(), blocks, data, start, i == n, readable)
      invariant i < n ==> hash.Tracks(data, if settings.useLz77 then start else 0)
    {
      assert Reaches(|data|, blocksize, n, i, start);
      error, i, start, blocks := DeflateNext(writer, hash, data, blocksize, n, i, start, settings, blocks, readable);
      if error != 0 { return; }
    }
  }

  lemma {:induction false} ExactlyOne(insize: nat, n: nat)
    requires insize > 0 && IsBlockCount(n, insize, insize)
    ensures n == 1
  {
    Quotient(insize);
  }

  lemma {:induction false} Quotient(d: nat)
    requires d > 0
    ensures (d + d - 1) / d == 1
  {
  }

  lemma {:induction false} BlockEnds(insize: nat, blocksize: nat, n: nat, i: nat, start: nat)
    requires i < n && start == BlockStart(i, n, blocksize, insize)
    requires IsBlockCount(n, insize, blocksize)
    ensures Reaches(insize, blocksize, n, i, start)
  {
    var m := (insize + blocksize - 1) / blocksize;
    BlockStartIs(i, n, blocksize, insize);
    if insize > 0 {
      Positive(insize, blocksize);
      BlockCount(insize, blocksize, n, i);
      if i < n - 1 { BlockCount(insize, blocksize, n, i + 1); }
      if insize == blocksize { ExactlyOne(insize, n); }
    }
    assert (i + 1) * blocksize == i * blocksize + blocksize;
  }

  lemma {:induction false} Positive(insize: nat, blocksize: nat)
    requires blocksize > 0 && insize > 0
    ensures (insize + blocksize - 1) / blocksize > 0
  {
    var q, r := (insize + blocksize - 1) / blocksize, (insize + blocksize - 1) % blocksize;
    assert insize + blocksize - 1 == q * blocksize + r;
  }

  lemma {:induction false} WrittenPacks(s: seq<bit>, out: seq<byte>, data: seq<byte>, blocks: seq<Block>, readable: bool)
    requires s <= StreamBits(out) && blocks != [] && WrittenUpTo(s, blocks, data, |data|, true, readable)
    ensures Packs(out, data, blocks, |s|, readable)
  {
    assert data[..|data|] == data;
    BlocksExtend(s, StreamBits(out), 0, blocks, [], data, |s|, true, readable);
  }

  /** Block types 1 and 2. */
  method DeflateCompressed(data: seq<byte>, settings: Settings)
      returns (error: nat, out: seq<byte>, ghost blocks: seq<Block>, ghost stop: nat)
    requires 1 <= settings.btype <= 2 && (settings.btype == 1 ==> data != [])
    ensures error in {0, 60, 90} && (error == 0 <==> settings.WindowOk())
    ensures error == 0 ==> Packs(out, data, blocks, stop, Reads(settings))
  {
    out, stop := [], 0;
    var blocksize := |data|;
    if settings.btype == 2 {
      blocksize := |data| / 8 + 8;
      if blocksize < 65536 { blocksize := 65536; }
      if blocksize > 262144 { blocksize := 262144; }
    }
    var writer := new BitWriter();
    var hash := new Hash(settings.windowsize);
    error, blocks := DeflateBlocks(writer, hash, data, blocksize, settings, Reads(settings));
    if error == 0 {
      out, stop := writer.data, |writer.Written()|;
      WrittenPacks(writer.Written(), out, data, blocks, Reads(settings));
    }
  }

  /** The settings that the encoder accepts. */
  predicate Accepts(settings: Settings) {
    settings.btype == 0 || (settings.btype <= 2 && settings.WindowOk())
  }

  /** Without compression no data give no blocks at all. */
  predicate NoBlocksFor(data: seq<byte>, settings: Settings) {
    settings.btype == 0 && data == []
  }

  /** A single fixed block is as long as the data; the number of blocks is then computed by a
      division by zero, if there are no data. */
  predicate DividesByZero(data: seq<byte>, settings: Settings) {
    settings.btype == 1 && data == []
  }

  /** What the blocks stand for: the data, but for stored blocks of more than 2^32 bytes. */
  function Carried(data: seq<byte>, settings: Settings): seq<byte> {
    if settings.btype == 0 then Sent(data) else data
  }

  predicate Fits32(data: seq<byte>, settings: Settings) { settings.btype == 0 ==> |data| <= WORD32 }

  lemma {:induction false} CarriedWhole(data: seq<byte>, settings: Settings)
    requires Fits32(data, settings)
    ensures Carried(data, settings) == data
  {
    if settings.btype == 0 { SentWhole(data); }
  }

  /** lodepng_deflatev. What it writes stands for what is carried; Reads says for which settings
      all distances are sure to be read back. */
  method Deflate(data: seq<byte>, settings: Settings)
      returns (error: nat, out: seq<byte>, undefined: bool, ghost blocks: seq<Block>, ghost stop: nat)
    ensures undefined <==> DividesByZero(data, settings)
    ensures !undefined ==> error in {0, 60, 61, 90} && (error == 0 <==> Accepts(settings)) && (error == 61 <==> settings.btype > 2)
    ensures NoBlocksFor(data, settings) ==> out == []
    ensures !undefined && error == 0 && !NoBlocksFor(data, settings) ==> Packs(out, Carried(data, settings), blocks, stop, Reads(settings))
  {
    out, undefined, blocks, stop := [], false, [], 0;
    if settings.btype > 2 { return 61, out, undefined, blocks, stop; }
    if settings.btype == 0 {
      out, blocks, stop := DeflateNoCompression(data);
      error := 0;
    } else if settings.btype == 1 && |data| == 0 {
      error, undefined := 0, true;
    } else {
      error, out, blocks, stop := DeflateCompressed(data, settings);
    }
  }

  /** The settings for which the decoder reads every distance the encoder may write. */
  predicate Reads(settings: Settings) {
    settings.btype == 2 && settings.useLz77 ==> settings.windowsize <= 2048
  }

  lemma {:induction false} PackedRight(packed: seq<byte>, data: seq<byte>, blocks: seq<Block>, stop: nat, readable: bool)
    requires Packs(packed, data, blocks, stop, readable)
    ensures BlocksStand(StreamBits(packed), 0, blocks, [], data, stop, true, false)
    ensures readable ==> BlocksRight(packed, 0, blocks, [])
  {
    if readable { ReadableBlocksRight(packed, 0, blocks, [], data, stop, true); }
  }

  /** Decoding what was encoded. */
  method Unpack(packed: seq<byte>, ignoreNlen: bool, ghost data: seq<byte>, ghost blocks: seq<Block>, ghost stop: nat,
                ghost readable: bool) returns (error: nat, out: seq<byte>)
    requires Packs(packed, data, blocks, stop, readable)
    ensures error == 0 && out == data <==> BlocksRight(packed, 0, blocks, [])
    ensures readable ==> error == 0 && out == data
  {
    PackedRight(packed, data, blocks, stop, readable);
    ghost var found, end;
    error, out, found, end := Inflate.Inflate(packed, ignoreNlen, blocks, data, stop);
  }

  /** lodepng_deflate and then lodepng_inflate, for all block types, all LZ77 settings and all
      data. They give back what is carried, which is the data up to 2^32 bytes and always with
      compression, if and only if the decoder reads the distances of what was written right.
      It does so for all settings but dynamic blocks with windows of more than 2048 bytes.
      Without compression no data are the exception: the encoder then writes nothing, which the
      decoder refuses. */
  method RoundTrip(data: seq<byte>, settings: Settings, ignoreNlen: bool)
      returns (e1: nat, e2: nat, out: seq<byte>, undefined: bool, ghost packed: seq<byte>, ghost blocks: seq<Block>, ghost stop: nat)
    ensures undefined <==> DividesByZero(data, settings)
    ensures !undefined ==> (e1 == 0 <==> Accepts(settings))
    ensures NoBlocksFor(data, settings) ==> e2 == 52
    ensures !undefined && e1 == 0 && !NoBlocksFor(data, settings) ==>
      Packs(packed, Carried(data, settings), blocks, stop, Reads(settings)) &&
      (e2 == 0 && out == Carried(data, settings) <==> BlocksRight(packed, 0, blocks, []))
    ensures !undefined && e1 == 0 && !NoBlocksFor(data, settings) && Reads(settings) ==>
      e2 == 0 && out == Carried(data, settings) && (Fits32(data, settings) ==> out == data)
  {
    var bytes;
    e2, out := 0, [];
    e1, bytes, undefined, blocks, stop := Deflate(data, settings);
    packed := bytes;
    if undefined || e1 != 0 { return; }
    if Fits32(data, settings) { CarriedWhole(data, settings); }
    if NoBlocksFor(data, settings) {
      ghost var found, end;
      e2, out, found, end := Inflate.Inflate(bytes, ignoreNlen, blocks, data, stop);
    } else {
      e2, out := Unpack(bytes, ignoreNlen, Carried(data, settings), blocks, stop, Reads(settings));
    }
  }
}
