/** Which bytes deflateNoCompression puts into stored blocks. Its read position has 32 bits and
    starts again from zero. */
module StoredData {
  import opened Bits
  import opened MachineWords

  const STORED_SIZE: nat := 65535

  function StoredCount(n: nat): nat { (n + 65534) / STORED_SIZE }

  /** The read position at the start of block i. */
  function ReadPosition(i: nat): nat { i * STORED_SIZE % WORD32 }

  /** LEN of the block that starts at the read position d. */
  function BlockLength(n: nat, d: nat): nat { if n < d + STORED_SIZE && d <= n then n - d else STORED_SIZE }

  /** How many bytes are copied from the read position d. */
  function CopyCount(n: nat, d: nat): nat
    requires n < WORD32 ==> d <= n
  {
    if n < WORD32 then Min(STORED_SIZE, n - d) else STORED_SIZE
  }

  /** The data from 2^32 bytes on for which LEN is not what is copied. */
  predicate Overlong(n: nat) { WORD32 <= n < WORD32 + STORED_SIZE - 1 }

  /** How many bytes the blocks of n bytes of data stand for. */
  function SentSize(n: nat): nat { if n < WORD32 + STORED_SIZE - 1 then n else StoredCount(n) * STORED_SIZE }

  /** count bytes from a position on. */
  function Around(data: seq<byte>, start: nat, count: nat): (r: seq<byte>)
    requires |data| < WORD32 ==> start + count <= |data|
    ensures |r| == count && forall k :: 0 <= k < count ==> r[k] == data[(start + k) % WORD32]
  {
    seq(count, k requires 0 <= k < count => data[(start + k) % WORD32])
  }

  /** What the stored blocks stand for. */
  function Sent(data: seq<byte>): (r: seq<byte>)
    ensures |r| == SentSize(|data|) && forall k :: 0 <= k < |r| ==> r[k] == data[k % WORD32]
  {
    Around(data, 0, SentSize(|data|))
  }

  lemma {:induction false} SentWhole(data: seq<byte>)
    requires |data| <= WORD32
    ensures Sent(data) == data
  {
  }

  /** All data of n bytes are what their stored blocks stand for exactly up to 2^32 bytes. */
  lemma {:induction false} SentExact(n: nat)
    ensures (forall data: seq<byte> :: |data| == n ==> Sent(data) == data) <==> n <= WORD32
  {
    if n <= WORD32 {
      forall data: seq<byte> | |data| == n ensures Sent(data) == data { SentWhole(data); }
    } else {
      var data: seq<byte> := seq(n, i => if i == WORD32 then 1 else 0);
      SentDiffers(data);
    }
  }

  lemma {:induction false} SentDiffers(data: seq<byte>)
    requires |data| > WORD32 && data[0] != data[WORD32]
    ensures Sent(data) != data
  {
    assert |Sent(data)| > WORD32;
    assert Sent(data)[WORD32] == data[0];
  }

  // ---------------------------------------------------------------- blocks

  /** The last block ends the data. */
  lemma {:induction false} LastBlock(n: nat, i: nat)
    requires i < StoredCount(n)
    ensures i * STORED_SIZE < n
    ensures i == StoredCount(n) - 1 <==> n <= (i + 1) * STORED_SIZE
  {
  }

  lemma {:induction false} PositionSmall(i: nat)
    requires i <= 65537
    ensures ReadPosition(i) == i * STORED_SIZE
  {
  }

  /** Block i of n bytes: it has the length of what is copied unless it is the last one. */
  lemma {:induction false} BlockFacts(n: nat, i: nat, d: nat)
    requires i < StoredCount(n) && d == ReadPosition(i)
    ensures d <= n && 0 < BlockLength(n, d) <= CopyCount(n, d)
    ensures i * STORED_SIZE + BlockLength(n, d) == Min((i + 1) * STORED_SIZE, SentSize(n))
    ensures i < StoredCount(n) - 1 ==> BlockLength(n, d) == CopyCount(n, d)
    ensures i == StoredCount(n) - 1 ==>
      i * STORED_SIZE + BlockLength(n, d) == SentSize(n) && (BlockLength(n, d) < CopyCount(n, d) <==> Overlong(n))
  {
    LastBlock(n, i);
    if i <= 65537 {
      PositionSmall(i);
    } else {
      assert n > 65538 * STORED_SIZE;
    }
  }

  lemma {:induction false} FullBlock(n: nat, i: nat, d: nat)
    requires i < StoredCount(n) - 1 && d == ReadPosition(i)
    ensures d <= n && CopyCount(n, d) == STORED_SIZE
  {
    LastBlock(n, i);
    BlockFacts(n, i, d);
    if n < WORD32 { PositionSmall(i); }
  }
}
