/** The zlib wrapper (RFC 1950): two header bytes, DEFLATE data, and the big-endian Adler-32
    checksum of the uncompressed data. */
module Zlib {
  import opened Bits
  import opened Adler32
  import opened DeflateFormat
  import opened DeflateWriter
  import opened DeflateStream
  import opened LookAhead
  import opened MachineWords
  import opened SeenBlocks
  import Inflate
  import ZeroPadding

  /** lodepng_read32bitInt. */
  function Read32(b: seq<byte>): (r: nat)
    requires |b| == 4
  {
    BigEndian(b[0], b[1], b[2], b[3])
  }

  function BigEndian(a: nat, b: nat, c: nat, d: nat): nat {
    16777216 * a + 65536 * b + 256 * c + d
  }

  /** lodepng_set32bitInt. */
  function Bytes32(v: nat): (b: seq<byte>)
    requires v < WORD32
    ensures |b| == 4
  {
    [v / 16777216, v / 65536 % 256, v / 256 % 256, v % 256]
  }

  lemma {:induction false} ReadBytes(v: nat)
    requires v < WORD32
    ensures Read32(Bytes32(v)) == v
  {
    var h, m := v / 256, v / 65536;
    assert v == 256 * h + v % 256 && h == 256 * m + h % 256 && m == 256 * (v / 16777216) + m % 256;
  }

  /** The checks on the first two bytes: 0, or the error they cause. */
  function HeaderError(cmf: nat, flg: nat): nat {
    if (cmf * 256 + flg) % 31 != 0 then 24
    else if And(cmf, 15) != 8 || And(Shr(cmf, 4), 15) > 7 then 25
    else if And(Shr(flg, 5), 1) != 0 then 26
    else 0
  }

  lemma {:induction false} OwnHeader(cmf: nat, flg: nat)
    requires cmf == 120 && flg == 1
    ensures HeaderError(cmf, flg) == 0
  {
    OwnMethod(cmf);
    OwnFlags(flg);
  }

  lemma {:induction false} OwnMethod(cmf: nat)
    requires cmf == 120
    ensures And(cmf, 15) == 8 && And(Shr(cmf, 4), 15) == 7
  {
    Nibble(cmf, 4);
    Nibble(Shr(cmf, 4), 4);
  }

  lemma {:induction false} Nibble(v: nat, n: nat)
    requires n == 4
    ensures And(v, 15) == v % 16 && Shr(v, n) == v / 16
  {
    Pow2Values();
    AndMask(v, n);
    ShrLowSplit(v, n);
    ShlIsMul(Shr(v, n), n);
    Sixteenths(v, Low(v, n), Shr(v, n));
  }

  lemma {:induction false} Sixteenths(v: nat, r: nat, q: nat)
    requires v == r + q * 16 && r < 16
    ensures v % 16 == r && v / 16 == q
  {
  }

  lemma {:induction false} OwnFlags(flg: nat)
    requires flg == 1
    ensures And(Shr(flg, 5), 1) == 0
  {
    AndMask(Shr(flg, 5), 1);
  }

  /** A valid header, and blocks that stand for goal, with more after them. */
  ghost predicate Stands(data: seq<byte>, blocks: seq<Block>, goal: seq<byte>, stop: nat) {
    |data| >= 6 && HeaderError(data[0], data[1]) == 0 && blocks != [] &&
    !Inflate.EndsEmpty(StreamBits(data[2..]), blocks, stop) &&
    BlocksStand(StreamBits(data[2..]), 0, blocks, [], goal, stop, true, false)
  }

  /** The checksum at the end is that of the goal, as far as it is summed. */
  ghost predicate Signs(data: seq<byte>, goal: seq<byte>)
    requires |data| >= 4
  {
    Summed(goal) == Read32(data[|data| - 4..])
  }

  /** The source reads the checksum from four bytes at insize - 4, which of three bytes of
      input is before the first. It gets there with a header and the one byte that inflates. */
  predicate ReadsOutside(data: seq<byte>, ignoreAdler32: bool) {
    |data| == 3 && HeaderError(data[0], data[1]) == 0 && data[2] == 3 && !ignoreAdler32
  }

  lemma {:induction false} SomeReadOutside()
    ensures ReadsOutside([120, 1, 3], false)
  {
    OwnHeader(120, 1);
  }

  /** lodepng_zlib_decompress. What it accepts has the checksum that the input ends with; if
      there is no room for one in the input, it reads outside. */
  method Decompress(data: seq<byte>, ignoreAdler32: bool, ignoreNlen: bool,
                    ghost blocks: seq<Block>, ghost goal: seq<byte>, ghost stop: nat)
      returns (error: nat, out: seq<byte>, outside: bool, ghost found: seq<Block>, ghost end: nat)
    ensures |data| < 2 ==> error == 53
    ensures |data| >= 2 && HeaderError(data[0], data[1]) != 0 ==> error == HeaderError(data[0], data[1])
    ensures outside <==> ReadsOutside(data, ignoreAdler32)
    ensures error == 0 && !outside ==> |data| >= if ignoreAdler32 then 3 else 4
    ensures error == 0 && !outside && !ignoreAdler32 ==> Summed(out) == Read32(data[|data| - 4..])
    ensures error == 0 && !ignoreNlen ==> found != [] && BlocksFound(data[2..], 0, found, [], out, end, true)
    ensures 2 <= |data| <= 6 && HeaderError(data[0], data[1]) == 0 && Window(StreamBits(data[2..]), 1, 2) == 0 ==> error == 52
    ensures Stands(data, blocks, goal, stop) ==>
      (error == 0 && out == goal <==> BlocksRight(data[2..], 0, blocks, []) && (ignoreAdler32 || Signs(data, goal))) &&
      (BlocksRight(data[2..], 0, blocks, []) ==> error in {0, 58})
  {
    out, outside, found, end := [], false, [], 0;
    if |data| < 2 { return 53, out, false, [], 0; }
    if HeaderError(data[0], data[1]) != 0 { return HeaderError(data[0], data[1]), out, false, [], 0; }
    error, out, found, end := Inflate.Inflate(data[2..], ignoreNlen, blocks, goal, stop);
    if error != 0 { return; }
    if !ignoreAdler32 {
      outside := |data| < 4;
      if outside { return; }
      var checksum := Checksum32(out, |out| % WORD32);
      if checksum != Read32(data[|data| - 4..]) { return 58, out, false, found, end; }
    }
  }

  /** CMF and FLG. */
  method HeaderBytes() returns (cmf: byte, flg: byte)
    ensures HeaderError(cmf, flg) == 0
  {
    var cmfflg := 256 * 120;
    var fcheck := 31 - cmfflg % 31;
    cmfflg := cmfflg + fcheck;
    cmf, flg := cmfflg / 256, cmfflg % 256;
    OwnHeader(cmf, flg);
  }

  /** Header, packed data and checksum. */
  method Wrap(packed: seq<byte>, adler: nat) returns (out: seq<byte>)
    requires adler < WORD32
    ensures |out| >= 6 && HeaderError(out[0], out[1]) == 0 && Read32(out[|out| - 4..]) == adler
    ensures out[2..] == packed + Bytes32(adler)
  {
    var cmf, flg := HeaderBytes();
    out := [cmf, flg] + (packed + Bytes32(adler));
    ReadBytes(adler);
    Framed(cmf, flg, packed, Bytes32(adler));
  }

  lemma {:induction false} Framed(cmf: byte, flg: byte, packed: seq<byte>, b: seq<byte>)
    requires |b| == 4
    ensures var out := [cmf, flg] + (packed + b);
            |out| >= 6 && out[0] == cmf && out[1] == flg && out[2..] == packed + b && out[|out| - 4..] == b
  {
  }

  /** The packed data with their header and the checksum of the data. */
  method WrapData(packed: seq<byte>, data: seq<byte>) returns (out: seq<byte>)
    ensures |out| >= 6 && HeaderError(out[0], out[1]) == 0 && Signs(out, data)
    ensures Summed(data) < WORD32 && out[2..] == packed + Bytes32(Summed(data))
    ensures data == [] && packed == [] ==> |out| == 6 && out[2..] == [0, 0, 0, 1]
  {
    var adler := Checksum32(data, |data| % WORD32);
    out := Wrap(packed, adler);
    if data == [] { EmptySum(); }
  }

  /** lodepng_zlib_compress. */
  method Compress(data: seq<byte>, settings: Settings)
      returns (error: nat, out: seq<byte>, undefined: bool, ghost blocks: seq<Block>, ghost stop: nat)
    ensures undefined <==> DividesByZero(data, settings)
    ensures !undefined ==> (error == 0 <==> Accepts(settings))
    ensures !undefined && error == 0 ==> |out| >= 6 && HeaderError(out[0], out[1]) == 0 && Signs(out, data)
    ensures NoBlocksFor(data, settings) ==> |out| == 6 && out[2..] == [0, 0, 0, 1]
    ensures !undefined && error == 0 && !NoBlocksFor(data, settings) ==>
      Stands(out, blocks, Carried(data, settings), stop) && (Reads(settings) ==> BlocksRight(out[2..], 0, blocks, []))
  {
    var packed;
    error, packed, undefined, blocks, stop := Deflate(data, settings);
    out := [];
    if error == 0 && !undefined {
      out := WrapData(packed, data);
      if !NoBlocksFor(data, settings) {
        Framing(packed, Bytes32(Summed(data)), out, blocks, Carried(data, settings), stop, Reads(settings));
      }
    }
  }

  lemma {:induction false} Framing(packed: seq<byte>, sum: seq<byte>, out: seq<byte>, blocks: seq<Block>, goal: seq<byte>,
                                   stop: nat, readable: bool)
    requires Packs(packed, goal, blocks, stop, readable)
    requires |out| >= 6 && HeaderError(out[0], out[1]) == 0 && out[2..] == packed + sum
    ensures Stands(out, blocks, goal, stop) && (readable ==> BlocksRight(out[2..], 0, blocks, []))
  {
    Continues(packed, sum, out[2..], blocks, goal, stop, readable);
  }

  /** The blocks still stand when more bytes follow. */
  lemma {:induction false} Continues(packed: seq<byte>, more: seq<byte>, all: seq<byte>, blocks: seq<Block>, goal: seq<byte>,
                                     stop: nat, readable: bool)
    requires Packs(packed, goal, blocks, stop, readable) && all == packed + more
    ensures BlocksStand(StreamBits(all), 0, blocks, [], goal, stop, true, false)
    ensures readable ==> BlocksRight(all, 0, blocks, [])
  {
    StreamBitsConcat(packed, more);
    PackedRight(packed, goal, blocks, stop, readable);
    BlocksExtend(StreamBits(packed), StreamBits(all), 0, blocks, [], goal, stop, true, false);
    if readable {
      BlocksExtend(StreamBits(packed), StreamBits(all), 0, blocks, [], goal, stop, true, true);
      ReadableBlocksRight(all, 0, blocks, [], goal, stop, true);
    }
  }

  lemma {:induction false} EmptySum()
    ensures Checksum([]) == 1 && Bytes32(1) == [0, 0, 0, 1]
  {
    ShlIsMul(0, 16);
  }

  lemma {:induction false} ZeroHead(data: seq<byte>)
    requires data != [] && data[0] == 0
    ensures Window(StreamBits(data), 1, 2) == 0
  {
    var s := StreamBits(data);
    ZeroPadding.ZeroByte(8);
    assert s[1] == LsbBits(0, 8)[1] && s[2] == LsbBits(0, 8)[2];
    assert Window(s, 3, 0) == 0;
    assert Window(s, 2, 1) == s[2];
  }

  /** The checksum of what is carried is that of the data. */
  predicate SumKept(data: seq<byte>, settings: Settings) { Summed(Carried(data, settings)) == Summed(data) }

  /** Compressing and decompressing gives back what is carried, which is the data up to 2^32
      bytes and always with compression, if and only if the distances are read right and the
      checksum is either kept or not looked at. */
  method RoundTrip(data: seq<byte>, settings: Settings, ignoreAdler32: bool, ignoreNlen: bool)
      returns (e1: nat, e2: nat, out: seq<byte>, undefined: bool, ghost packed: seq<byte>, ghost blocks: seq<Block>)
    ensures undefined <==> DividesByZero(data, settings)
    ensures !undefined ==> (e1 == 0 <==> Accepts(settings))
    ensures NoBlocksFor(data, settings) ==> e2 == 52
    ensures !undefined && e1 == 0 && !NoBlocksFor(data, settings) ==>
      |packed| >= 2 && (e2 == 0 && out == Carried(data, settings) <==>
        BlocksRight(packed[2..], 0, blocks, []) && (ignoreAdler32 || SumKept(data, settings)))
    ensures !undefined && e1 == 0 && !NoBlocksFor(data, settings) && Reads(settings) && Fits32(data, settings) ==>
      e2 == 0 && out == data
  {
    var bytes;
    ghost var stop;
    e2, out := 0, [];
    e1, bytes, undefined, blocks, stop := Compress(data, settings);
    packed := bytes;
    if undefined || e1 != 0 { return; }
    if NoBlocksFor(data, settings) { ZeroHead([0, 0, 0, 1]); }
    if Fits32(data, settings) { CarriedWhole(data, settings); }
    var outside;
    ghost var found, end;
    e2, out, outside, found, end := Decompress(bytes, ignoreAdler32, ignoreNlen, blocks, Carried(data, settings), stop);
  }
}
