/** The two-level lookup table for Huffman decoding, and decoding through it. The reader
    delivers bits least-significant first, so table indices are reversed codewords. */
module HuffmanTable {
  import opened Bits
  import opened BitStream

  const FIRSTBITS: nat := 9
  const HEADSIZE: nat := 512
  const UNUSED: nat := 16
  const INVALIDSYMBOL: nat := 65535

  /** The codes and lengths of an alphabet; a length of zero marks an absent symbol. */
  datatype Alphabet = Alphabet(lengths: seq<nat>, codes: seq<nat>) {
    ghost predicate Valid() {
      |lengths| == |codes| && forall i :: 0 <= i < |lengths| ==> lengths[i] <= 15 && codes[i] < Pow2(lengths[i])
    }

    ghost predicate Symbol(i: int) {
      0 <= i < |lengths| && lengths[i] > 0
    }

    function Codeword(i: nat): (c: seq<bit>)
      requires Valid() && i < |lengths|
      ensures |c| == lengths[i]
    {
      MsbBits(codes[i], lengths[i])
    }

    /** The codeword as the reader delivers it. */
    function Reversed(i: nat): (r: nat)
      requires Valid() && i < |lengths|
      ensures r < Pow2(lengths[i])
    {
      Val(Codeword(i))
    }

    /** The window w starts with the codeword of symbol i. */
    ghost predicate Starts(w: nat, i: nat)
      requires Valid()
    {
      Symbol(i) && Low(w, lengths[i]) == Reversed(i)
    }

    /** No window starts with two codewords. */
    ghost predicate Unambiguous()
      requires Valid()
    {
      forall w: nat, i: nat, j: nat :: Starts(w, i) && Starts(w, j) ==> i == j
    }

    ghost predicate Covered(w: nat)
      requires Valid()
    {
      exists i: nat :: Starts(w, i)
    }

    /** Every 15-bit window starts with a codeword. */
    ghost predicate Exhaustive()
      requires Valid()
    {
      forall w: nat :: w < Pow2(15) ==> Covered(w)
    }

    ghost predicate Short(i: int) {
      Symbol(i) && lengths[i] <= FIRSTBITS
    }

    ghost predicate Long(i: int) {
      Symbol(i) && lengths[i] > FIRSTBITS
    }

    /** No two short codewords share a head entry, and no short one with a long one. */
    ghost predicate Apart()
      requires Valid()
    {
      forall v: nat, i: nat :: v < HEADSIZE && Short(i) && Starts(v, i) ==>
        MaxLen(v, |lengths|) == 0 && forall j: nat :: Short(j) && Starts(v, j) ==> j == i
    }

    /** How many of the first n symbols are present. */
    function Present(n: nat): nat
      requires n <= |lengths|
    {
      if n == 0 then 0 else Present(n - 1) + if lengths[n - 1] > 0 then 1 else 0
    }

    /** The head table entry of a long symbol. */
    function Head(i: nat): (v: nat)
      requires Valid() && i < |lengths| && lengths[i] > FIRSTBITS
      ensures v < HEADSIZE
    {
      LowBound(Reversed(i), FIRSTBITS);
      Pow2Values();
      Low(Reversed(i), FIRSTBITS)
    }

    /** The longest of the first n codes that start with the head bits v, if it is long. */
    function MaxLen(v: nat, n: nat): (m: nat)
      requires Valid() && n <= |lengths|
      ensures m <= 15
    {
      if n == 0 then 0
      else if lengths[n - 1] > FIRSTBITS && Head(n - 1) == v then Max(MaxLen(v, n - 1), lengths[n - 1])
      else MaxLen(v, n - 1)
    }

    /** The size of the secondary table below head entry v. */
    function SubSize(v: nat): nat
      requires Valid()
    {
      var m := MaxLen(v, |lengths|);
      if m > FIRSTBITS then Pow2(m - FIRSTBITS) else 0
    }

    /** The start of the secondary table below head entry v. */
    function Pointer(v: nat): nat
      requires Valid()
    {
      if v == 0 then HEADSIZE else Pointer(v - 1) + SubSize(v - 1)
    }
  }

  function Max(a: nat, b: nat): nat { if a >= b then a else b }

  lemma {:induction false} MaxLenBound(c: Alphabet, v: nat, n: nat, i: nat)
    requires c.Valid() && i < n <= |c.lengths| && c.Long(i) && c.Head(i) == v
    ensures c.lengths[i] <= c.MaxLen(v, n)
    decreases n
  {
    if i < n - 1 { MaxLenBound(c, v, n - 1, i); }
  }

  lemma {:induction false} MaxLenWitness(c: Alphabet, v: nat, n: nat) returns (i: nat)
    requires c.Valid() && n <= |c.lengths| && c.MaxLen(v, n) > 0
    ensures i < n && c.Long(i) && c.Head(i) == v && c.lengths[i] == c.MaxLen(v, n)
    decreases n
  {
    if c.lengths[n - 1] > FIRSTBITS && c.Head(n - 1) == v && c.lengths[n - 1] == c.MaxLen(v, n) {
      i := n - 1;
    } else {
      i := MaxLenWitness(c, v, n - 1);
    }
  }

  lemma {:induction false} PointerMono(c: Alphabet, u: nat, v: nat)
    requires c.Valid() && u < v
    ensures HEADSIZE <= c.Pointer(u) && c.Pointer(u) + c.SubSize(u) <= c.Pointer(v)
    decreases v
  {
    if u < v - 1 { PointerMono(c, u, v - 1); }
    PointerAtLeast(c, u);
  }

  lemma {:induction false} PointerAtLeast(c: Alphabet, u: nat)
    requires c.Valid()
    ensures HEADSIZE <= c.Pointer(u)
  {
    if u > 0 { PointerAtLeast(c, u - 1); }
  }

  /** A long codeword is its head bits followed by the bits above them. */
  lemma {:induction false} LongStarts(c: Alphabet, w: nat, i: nat)
    requires c.Valid() && c.Long(i)
    ensures c.Starts(w, i) <==>
      Low(w, FIRSTBITS) == c.Head(i) &&
      Low(Shr(w, FIRSTBITS), c.lengths[i] - FIRSTBITS) == Shr(c.Reversed(i), FIRSTBITS)
  {
    var l, r := c.lengths[i], c.Reversed(i);
    LowLow(w, FIRSTBITS, l);
    ShrLow(w, FIRSTBITS, l);
    ShrLowSplit(Low(w, l), FIRSTBITS);
    ShrLowSplit(r, FIRSTBITS);
  }

  /** Head bits v followed by x. */
  function Join(v: nat, x: nat): nat { v + Shl(x, FIRSTBITS) }

  lemma {:induction false} JoinParts(v: nat, x: nat)
    requires v < HEADSIZE
    ensures Low(Join(v, x), FIRSTBITS) == v && Shr(Join(v, x), FIRSTBITS) == x
  {
    Pow2Values();
    OrDisjoint(v, x, FIRSTBITS);
  }

  lemma {:induction false} ShortStarts(c: Alphabet, w: nat, i: nat)
    requires c.Valid() && c.Short(i)
    ensures c.Starts(w, i) <==> c.Starts(Low(w, FIRSTBITS), i)
  {
    LowLow(w, c.lengths[i], FIRSTBITS);
  }

  /** In an unambiguous alphabet no short codeword shares its head bits with a long one. */
  lemma {:induction false} ShortMeetsLong(c: Alphabet, v: nat, i: nat)
    requires c.Valid() && c.Short(i) && v < HEADSIZE && c.Starts(v, i)
    requires c.MaxLen(v, |c.lengths|) > 0
    ensures !c.Unambiguous()
  {
    var j := MaxLenWitness(c, v, |c.lengths|);
    var w := c.Reversed(j);
    LowSmall(w, c.lengths[j]);
    ShortStarts(c, w, i);
    assert c.Starts(w, i) && c.Starts(w, j) && i != j;
  }

  // ---------------------------------------------------------------- table contents

  /** The tables as values: one code length and one symbol or pointer per entry. */
  datatype Table = Table(len: seq<nat>, value: seq<nat>)

  /** What an entry of the head table holds after the first n symbols were entered. */
  ghost predicate HeadEntry(c: Alphabet, n: nat, v: nat, len: nat, value: nat)
    requires c.Valid() && n <= |c.lengths|
  {
    var m := c.MaxLen(v, |c.lengths|);
    if m > 0 then
      len == m && value == c.Pointer(v) && forall i: nat :: i < n && c.Short(i) ==> !c.Starts(v, i)
    else
      (forall i: nat :: i < n && c.Short(i) && c.Starts(v, i) ==> len == c.lengths[i] && value == i) &&
      ((forall i: nat :: i < n && c.Short(i) ==> !c.Starts(v, i)) ==> len == UNUSED) &&
      (0 < len <= FIRSTBITS || len == UNUSED)
  }

  /** What entry w of the secondary table below head entry v holds. */
  ghost predicate SubEntry(c: Alphabet, n: nat, t: Table, v: nat, w: nat)
    requires c.Valid() && n <= |c.lengths|
  {
    var k := c.Pointer(v) + w;
    k < |t.len| && k < |t.value| && FIRSTBITS < t.len[k] <= UNUSED &&
    ((forall i: nat :: i < n && c.Long(i) ==> !c.Starts(Join(v, w), i)) ==> t.len[k] == UNUSED) &&
    (c.Unambiguous() ==>
       forall i: nat :: i < n && c.Long(i) && c.Starts(Join(v, w), i) ==> t.len[k] == c.lengths[i] && t.value[k] == i)
  }

  ghost predicate Sized(c: Alphabet, t: Table)
    requires c.Valid()
  {
    |t.len| == |t.value| == c.Pointer(HEADSIZE)
  }

  /** Head entry v has a secondary table with an entry w. */
  ghost predicate InSub(c: Alphabet, v: nat, w: nat)
    requires c.Valid()
  {
    v < HEADSIZE && w < c.SubSize(v)
  }

  lemma {:induction false} SubInRange(c: Alphabet, t: Table, v: nat, w: nat)
    requires c.Valid() && Sized(c, t) && InSub(c, v, w)
    ensures HEADSIZE <= c.Pointer(v) && c.Pointer(v) + w < |t.len|
  {
    PointerMono(c, v, HEADSIZE);
  }

  ghost predicate HeadFilled(c: Alphabet, n: nat, t: Table)
    requires c.Valid() && n <= |c.lengths|
  {
    Sized(c, t) && HEADSIZE <= |t.len| &&
    forall v: nat :: v < HEADSIZE ==> HeadEntry(c, n, v, t.len[v], t.value[v])
  }

  ghost predicate SubFilled(c: Alphabet, n: nat, t: Table)
    requires c.Valid() && n <= |c.lengths|
  {
    Sized(c, t) &&
    forall v: nat, w: nat :: InSub(c, v, w) ==> SubEntry(c, n, t, v, w)
  }

  /** Entering a short symbol into entries that were all unused. */
  lemma {:induction false} ShortStep(c: Alphabet, n: nat, t0: Table, t: Table)
    requires c.Valid() && n < |c.lengths| && c.Short(n)
    requires HeadFilled(c, n, t0) && SubFilled(c, n, t0) && Sized(c, t)
    requires forall v: nat :: v < HEADSIZE && c.Starts(v, n) ==>
      t0.len[v] == UNUSED && t.len[v] == c.lengths[n] && t.value[v] == n
    requires forall k: nat :: k < |t.len| && (k >= HEADSIZE || !c.Starts(k, n)) ==>
      t.len[k] == t0.len[k] && t.value[k] == t0.value[k]
    ensures HeadFilled(c, n + 1, t) && SubFilled(c, n + 1, t)
  {
    forall v: nat | v < HEADSIZE ensures HeadEntry(c, n + 1, v, t.len[v], t.value[v]) {
      assert HeadEntry(c, n, v, t0.len[v], t0.value[v]);
      if c.Starts(v, n) {
        forall i: nat | i < n && c.Short(i) ensures !c.Starts(v, i) {
        }
      }
    }
    forall v: nat, w: nat | InSub(c, v, w)
      ensures SubEntry(c, n + 1, t, v, w)
    {
      SubInRange(c, t, v, w);
      assert SubEntry(c, n, t0, v, w);
    }
  }

  ghost predicate SubEntered(c: Alphabet, n: nat, t0: Table, t: Table, v: nat, w: nat)
    requires c.Valid() && n < |c.lengths| && Sized(c, t0) && Sized(c, t)
  {
    var k := c.Pointer(v) + w;
    k < |t.len| &&
    (if c.Starts(Join(v, w), n) then t.len[k] == c.lengths[n] && t.value[k] == n
     else t.len[k] == t0.len[k] && t.value[k] == t0.value[k])
  }

  /** Entering a long symbol into its secondary table. */
  lemma {:induction false} LongStep(c: Alphabet, n: nat, t0: Table, t: Table)
    requires c.Valid() && n < |c.lengths| && c.Long(n)
    requires HeadFilled(c, n, t0) && SubFilled(c, n, t0) && Sized(c, t)
    requires forall k: nat :: k < HEADSIZE ==> t.len[k] == t0.len[k] && t.value[k] == t0.value[k]
    requires forall v: nat, w: nat :: InSub(c, v, w) ==> SubEntered(c, n, t0, t, v, w)
    ensures HeadFilled(c, n + 1, t) && SubFilled(c, n + 1, t)
  {
    forall v: nat | v < HEADSIZE ensures HeadEntry(c, n + 1, v, t.len[v], t.value[v]) {
      assert HeadEntry(c, n, v, t0.len[v], t0.value[v]);
    }
    forall v: nat, w: nat | InSub(c, v, w)
      ensures SubEntry(c, n + 1, t, v, w)
    {
      assert SubEntry(c, n, t0, v, w) && SubEntered(c, n, t0, t, v, w);
    }
  }

  // ---------------------------------------------------------------- lookup

  /** The two lookups of huffmanDecodeSymbol on a window of at least 15 bits: symbol and
      number of bits consumed. */
  function Lookup(t: Table, w: nat): (nat, nat)
    requires Safe(t)
  {
    HeadIndex(w);
    var v := Low(w, FIRSTBITS);
    if t.len[v] <= FIRSTBITS then (t.value[v], t.len[v]) else
    LowBound(Shr(w, FIRSTBITS), t.len[v] - FIRSTBITS);
    var k := t.value[v] + Low(Shr(w, FIRSTBITS), t.len[v] - FIRSTBITS);
    (t.value[k], t.len[k])
  }

  lemma {:induction false} HeadIndex(w: nat)
    ensures Low(w, FIRSTBITS) < HEADSIZE
  {
    LowBound(w, FIRSTBITS);
    Pow2Values();
  }

  /** Whatever bits come, lookups stay inside the table and consume at least one bit. */
  ghost predicate Safe(t: Table) {
    HEADSIZE <= |t.len| == |t.value| &&
    (forall v: nat :: v < HEADSIZE ==> SafeHead(t, t.len[v], t.value[v])) &&
    (forall k: nat :: HEADSIZE <= k < |t.len| ==> FIRSTBITS < t.len[k] <= 15)
  }

  ghost predicate SafeHead(t: Table, len: nat, value: nat) {
    0 < len <= 15 &&
    (len > FIRSTBITS ==> HEADSIZE <= value && value + Pow2(len - FIRSTBITS) <= |t.len|)
  }

  /** Windows that start with no codeword give the invalid symbol. */
  ghost predicate NothingElse(c: Alphabet, t: Table)
    requires c.Valid()
  {
    Safe(t) && forall w: nat :: !c.Covered(w) ==> Lookup(t, w).0 == INVALIDSYMBOL
  }

  /** The table decodes the alphabet. */
  ghost predicate Decodes(c: Alphabet, t: Table)
    requires c.Valid()
  {
    Safe(t) && forall w: nat, i: nat :: c.Starts(w, i) ==> Lookup(t, w) == (i, c.lengths[i])
  }

  /** Unused entries of t0 hold the invalid symbol in t, the others are as before. */
  ghost predicate Replaced(t0: Table, t: Table) {
    |t0.len| == |t0.value| == |t.len| == |t.value| &&
    forall k :: 0 <= k < |t.len| ==>
      if t0.len[k] == UNUSED then t.len[k] == (if k < HEADSIZE then 1 else FIRSTBITS + 1) && t.value[k] == INVALIDSYMBOL
      else t.len[k] == t0.len[k] && t.value[k] == t0.value[k]
  }

  lemma {:induction false} ShortLookup(c: Alphabet, t0: Table, t: Table, w: nat, i: nat)
    requires c.Valid() && c.Unambiguous() && Safe(t) && HeadFilled(c, |c.lengths|, t0) && Replaced(t0, t)
    requires c.Short(i) && c.Starts(w, i)
    ensures Lookup(t, w) == (i, c.lengths[i])
  {
    HeadIndex(w);
    var v := Low(w, FIRSTBITS);
    ShortStarts(c, w, i);
    if c.MaxLen(v, |c.lengths|) > 0 { ShortMeetsLong(c, v, i); }
    assert HeadEntry(c, |c.lengths|, v, t0.len[v], t0.value[v]);
  }

  lemma {:induction false} LongLookup(c: Alphabet, t0: Table, t: Table, w: nat, i: nat)
    requires c.Valid() && c.Unambiguous() && Safe(t) && Replaced(t0, t)
    requires HeadFilled(c, |c.lengths|, t0) && SubFilled(c, |c.lengths|, t0)
    requires c.Long(i) && c.Starts(w, i)
    ensures Lookup(t, w) == (i, c.lengths[i])
  {
    HeadIndex(w);
    SubIndex(c, w, i);
    var v := Low(w, FIRSTBITS);
    var m := c.MaxLen(v, |c.lengths|);
    var x := Low(Shr(w, FIRSTBITS), m - FIRSTBITS);
    HeadPointer(c, |c.lengths|, t0, v);
    SubHit(c, t0, v, x, i);
    SecondEntry(t0, t, w, v, m, x, c.Pointer(v), i, c.lengths[i]);
  }

  lemma {:induction false} SecondEntry(t0: Table, t: Table, w: nat, v: nat, m: nat, x: nat, start: nat, value: nat, length: nat)
    requires Safe(t) && Replaced(t0, t) && v == Low(w, FIRSTBITS) < HEADSIZE
    requires t0.len[v] == m > FIRSTBITS && m != UNUSED && t0.value[v] == start && x == Low(Shr(w, FIRSTBITS), m - FIRSTBITS)
    requires start + x < |t0.len| && t0.len[start + x] == length != UNUSED && t0.value[start + x] == value
    ensures Lookup(t, w) == (value, length)
  {
  }

  /** The lookup of a window that starts with no codeword. */
  lemma {:induction false} OtherLookup(c: Alphabet, t0: Table, t: Table, w: nat)
    requires c.Valid() && Safe(t) && Replaced(t0, t)
    requires HeadFilled(c, |c.lengths|, t0) && SubFilled(c, |c.lengths|, t0)
    requires !c.Covered(w)
    ensures Lookup(t, w).0 == INVALIDSYMBOL
  {
    HeadIndex(w);
    var v := Low(w, FIRSTBITS);
    assert HeadEntry(c, |c.lengths|, v, t0.len[v], t0.value[v]);
    SubSizeIs(c, v);
    if c.MaxLen(v, |c.lengths|) == 0 {
      forall i: nat | c.Short(i) ensures !c.Starts(v, i) { ShortStarts(c, w, i); }
    } else {
      OtherSubLookup(c, t0, w, v, c.MaxLen(v, |c.lengths|));
    }
  }

  lemma {:induction false} OtherSubLookup(c: Alphabet, t: Table, w: nat, v: nat, m: nat)
    requires c.Valid() && SubFilled(c, |c.lengths|, t) && !c.Covered(w)
    requires v == Low(w, FIRSTBITS) < HEADSIZE && m == c.MaxLen(v, |c.lengths|) > FIRSTBITS
    ensures HEADSIZE <= c.Pointer(v) && c.Pointer(v) + Low(Shr(w, FIRSTBITS), m - FIRSTBITS) < |t.len|
    ensures t.len[c.Pointer(v) + Low(Shr(w, FIRSTBITS), m - FIRSTBITS)] == UNUSED
  {
    var x := Low(Shr(w, FIRSTBITS), m - FIRSTBITS);
    LowBound(Shr(w, FIRSTBITS), m - FIRSTBITS);
    assert InSub(c, v, x) && SubEntry(c, |c.lengths|, t, v, x);
    SubInRange(c, t, v, x);
    forall i: nat | c.Long(i) ensures !c.Starts(Join(v, x), i) { JoinUncovered(c, w, v, m, x, i); }
  }

  lemma {:induction false} JoinUncovered(c: Alphabet, w: nat, v: nat, m: nat, x: nat, i: nat)
    requires c.Valid() && !c.Covered(w) && c.Long(i) && v == Low(w, FIRSTBITS) < HEADSIZE
    requires m == c.MaxLen(v, |c.lengths|) > FIRSTBITS && x == Low(Shr(w, FIRSTBITS), m - FIRSTBITS)
    ensures !c.Starts(Join(v, x), i)
  {
    JoinParts(v, x);
    LongStarts(c, Join(v, x), i);
    LongStarts(c, w, i);
    if c.Head(i) == v {
      MaxLenBound(c, v, |c.lengths|, i);
      LowLow(Shr(w, FIRSTBITS), c.lengths[i] - FIRSTBITS, m - FIRSTBITS);
    }
    assert !c.Starts(w, i);
  }

  lemma {:induction false} HeadPointer(c: Alphabet, n: nat, t: Table, v: nat)
    requires c.Valid() && n <= |c.lengths| && HeadFilled(c, n, t) && v < HEADSIZE && c.MaxLen(v, |c.lengths|) > 0
    ensures t.len[v] == c.MaxLen(v, |c.lengths|) && t.value[v] == c.Pointer(v)
  {
    assert HeadEntry(c, n, v, t.len[v], t.value[v]);
  }

  lemma {:induction false} SubHit(c: Alphabet, t: Table, v: nat, x: nat, i: nat)
    requires c.Valid() && c.Unambiguous() && SubFilled(c, |c.lengths|, t)
    requires InSub(c, v, x) && c.Long(i) && c.Starts(Join(v, x), i)
    ensures c.Pointer(v) + x < |t.len|
    ensures t.len[c.Pointer(v) + x] == c.lengths[i] && t.value[c.Pointer(v) + x] == i
  {
    assert SubEntry(c, |c.lengths|, t, v, x);
  }

  /** The second lookup of a window that starts with a long codeword. */
  lemma {:induction false} SubIndex(c: Alphabet, w: nat, i: nat)
    requires c.Valid() && c.Long(i) && c.Starts(w, i)
    ensures var v := Low(w, FIRSTBITS);
      var m := c.MaxLen(v, |c.lengths|);
      m > FIRSTBITS && var x := Low(Shr(w, FIRSTBITS), m - FIRSTBITS);
      InSub(c, v, x) && c.Starts(Join(v, x), i)
  {
    HeadIndex(w);
    var v := Low(w, FIRSTBITS);
    LongStarts(c, w, i);
    MaxLenBound(c, v, |c.lengths|, i);
    var m := c.MaxLen(v, |c.lengths|) - FIRSTBITS;
    var x := Low(Shr(w, FIRSTBITS), m);
    LowBound(Shr(w, FIRSTBITS), m);
    LowLow(Shr(w, FIRSTBITS), c.lengths[i] - FIRSTBITS, m);
    JoinParts(v, x);
    LongStarts(c, Join(v, x), i);
  }

  // ---------------------------------------------------------------- construction

  /** reverseBits: the first bit written becomes the lowest bit. */
  method ReverseBits(bits: nat, num: nat) returns (result: nat)
    ensures result == Val(MsbBits(bits, num))
  {
    result := 0;
    var i := 0;
    while i < num
      invariant i <= num && result == Val(MsbBits(bits, num)[..i])
    {
      var b := Shr(bits, num - i - 1) % 2;
      MsbBitsAt(bits, num, i);
      ValSnoc(MsbBits(bits, num)[..i], b);
      assert MsbBits(bits, num)[..i + 1] == MsbBits(bits, num)[..i] + [b];
      OrDisjoint(result, b, i);
      result := Or(result, Shl(b, i));
      i := i + 1;
    }
    assert MsbBits(bits, num)[..num] == MsbBits(bits, num);
  }

  lemma {:induction false} HeadIs(c: Alphabet, i: nat)
    requires c.Valid() && c.Long(i)
    ensures Val(MsbBits(Shr(c.codes[i], c.lengths[i] - FIRSTBITS), FIRSTBITS)) == c.Head(i)
  {
    MsbBitsTake(c.codes[i], c.lengths[i], FIRSTBITS);
    ValSplit(c.Codeword(i), FIRSTBITS);
  }

  /** The entries are the longest codes among the first n symbols. */
  ghost predicate Maxima(c: Alphabet, a: seq<nat>, n: nat)
    requires c.Valid() && n <= |c.lengths|
  {
    |a| == HEADSIZE && forall v: nat :: v < HEADSIZE ==> a[v] == c.MaxLen(v, n)
  }

  lemma {:induction false} MaximaNext(c: Alphabet, a: seq<nat>, n: nat, b: seq<nat>)
    requires c.Valid() && n < |c.lengths| && Maxima(c, a, n)
    requires if c.lengths[n] > FIRSTBITS then b == a[c.Head(n) := Max(a[c.Head(n)], c.lengths[n])] else b == a
    ensures Maxima(c, b, n + 1)
  {
  }

  method MaxLengths(c: Alphabet) returns (maxlens: seq<nat>)
    requires c.Valid()
    ensures |maxlens| == HEADSIZE
    ensures forall v :: 0 <= v < HEADSIZE ==> maxlens[v] == c.MaxLen(v, |c.lengths|)
  {
    var a := new nat[HEADSIZE](_ => 0);
    var i := 0;
    while i < |c.lengths|
      invariant i <= |c.lengths| && Maxima(c, a[..], i)
    {
      var l := c.lengths[i];
      ghost var before := a[..];
      if l > FIRSTBITS {
        HeadIs(c, i);
        var index := ReverseBits(Shr(c.codes[i], l - FIRSTBITS), FIRSTBITS);
        a[index] := Max(a[index], l);
        assert a[..] == before[index := Max(before[index], l)];
      }
      MaximaNext(c, before, i, a[..]);
      i := i + 1;
    }
    maxlens := a[..];
  }

  lemma {:induction false} SubSizeIs(c: Alphabet, v: nat)
    requires c.Valid()
    ensures c.MaxLen(v, |c.lengths|) == 0 || c.MaxLen(v, |c.lengths|) > FIRSTBITS
  {
    if c.MaxLen(v, |c.lengths|) > 0 {
      var i := MaxLenWitness(c, v, |c.lengths|);
    }
  }

  method TableSize(c: Alphabet, maxlens: seq<nat>) returns (size: nat)
    requires c.Valid() && |maxlens| == HEADSIZE
    requires forall v :: 0 <= v < HEADSIZE ==> maxlens[v] == c.MaxLen(v, |c.lengths|)
    ensures size == c.Pointer(HEADSIZE)
  {
    size := HEADSIZE;
    var i := 0;
    while i < HEADSIZE
      invariant i <= HEADSIZE && size == c.Pointer(i)
    {
      var l := maxlens[i];
      if l > FIRSTBITS { size := size + Pow2(l - FIRSTBITS); }
      i := i + 1;
    }
  }

  /** The first table for long symbols: maximum length and pointer to the secondary table. */
  method FillPointers(c: Alphabet, maxlens: seq<nat>, len: array<nat>, value: array<nat>)
    requires c.Valid() && |maxlens| == HEADSIZE && len != value
    requires forall v :: 0 <= v < HEADSIZE ==> maxlens[v] == c.MaxLen(v, |c.lengths|)
    requires len.Length == value.Length == c.Pointer(HEADSIZE)
    requires forall k :: 0 <= k < len.Length ==> len[k] == UNUSED
    modifies len, value
    ensures HeadFilled(c, 0, Table(len[..], value[..])) && SubFilled(c, 0, Table(len[..], value[..]))
  {
    PointerAtLeast(c, HEADSIZE);
    var pointer, i := HEADSIZE, 0;
    while i < HEADSIZE
      invariant i <= HEADSIZE && pointer == c.Pointer(i)
      invariant forall k :: i <= k < len.Length ==> len[k] == UNUSED
      invariant forall v :: 0 <= v < i ==> HeadEntry(c, 0, v, len[v], value[v])
    {
      var l := maxlens[i];
      SubSizeIs(c, i);
      if l > FIRSTBITS {
        len[i], value[i] := l, pointer;
        pointer := pointer + Pow2(l - FIRSTBITS);
      }
      i := i + 1;
    }
    forall v: nat, w: nat | InSub(c, v, w) ensures SubEntry(c, 0, Table(len[..], value[..]), v, w) {
      SubInRange(c, Table(len[..], value[..]), v, w);
    }
  }

  lemma {:induction false} SpreadIndex(rev: nat, l: nat, j: nat, m: nat)
    requires rev < Pow2(l) && l <= m && j < Pow2(m - l)
    ensures Or(rev, Shl(j, l)) < Pow2(m)
    ensures Low(Or(rev, Shl(j, l)), l) == rev && Shr(Or(rev, Shl(j, l)), l) == j
  {
    OrDisjoint(rev, j, l);
    ShlMono(j, Pow2(m - l), l);
    ShlPow2(m - l, l);
  }

  lemma {:induction false} SameParts(v: nat, w: nat, l: nat)
    requires Low(v, l) == Low(w, l) && Shr(v, l) == Shr(w, l)
    ensures v == w
  {
    ShrLowSplit(v, l);
    ShrLowSplit(w, l);
  }

  /** Entries base + (rev | j << l) for all j. With `check`, stops at an entry in use. */
  method Spread(len: array<nat>, value: array<nat>, base: nat, m: nat, rev: nat, l: nat, newlen: nat, sym: nat, check: bool)
    returns (ok: bool)
    requires len != value && len.Length == value.Length && l <= m && rev < Pow2(l)
    requires base + Pow2(m) <= len.Length
    modifies len, value
    ensures !check ==> ok
    ensures !ok ==> exists v: nat :: v < Pow2(m) && Low(v, l) == rev && old(len[base + v]) != UNUSED
    ensures ok ==> forall v: nat :: v < Pow2(m) && Low(v, l) == rev ==>
      len[base + v] == newlen && value[base + v] == sym && (check ==> old(len[base + v]) == UNUSED)
    ensures forall k: nat :: k < len.Length && (k < base || k >= base + Pow2(m) || Low(k - base, l) != rev) ==>
      len[k] == old(len[k]) && value[k] == old(value[k])
  {
    var num := Pow2(m - l);
    var j := 0;
    while j < num
      invariant j <= num
      invariant forall v: nat :: v < Pow2(m) && Low(v, l) == rev && Shr(v, l) < j ==>
        len[base + v] == newlen && value[base + v] == sym && (check ==> old(len[base + v]) == UNUSED)
      invariant forall k: nat ::
        k < len.Length && (k < base || k >= base + Pow2(m) || Low(k - base, l) != rev || Shr(k - base, l) >= j) ==>
          len[k] == old(len[k]) && value[k] == old(value[k])
    {
      SpreadIndex(rev, l, j, m);
      var index := Or(rev, Shl(j, l));
      if check && len[base + index] != UNUSED { return false; }
      forall v: nat | Low(v, l) == rev && Shr(v, l) == j ensures v == index { SameParts(v, index, l); }
      len[base + index] := newlen;
      value[base + index] := sym;
      j := j + 1;
    }
    forall v: nat | v < Pow2(m) ensures Shr(v, l) < num { ShrBound(v, l, m); }
    ok := true;
  }

  lemma {:induction false} InUse(c: Alphabet, n: nat, v: nat, len: nat, value: nat)
    requires c.Valid() && n < |c.lengths| && c.Short(n) && v < HEADSIZE && c.Starts(v, n)
    requires HeadEntry(c, n, v, len, value) && len != UNUSED
    ensures !c.Unambiguous()
  {
    if c.MaxLen(v, |c.lengths|) > 0 {
      ShortMeetsLong(c, v, n);
    } else {
      var i: nat :| i < n && c.Short(i) && c.Starts(v, i);
    }
  }

  method EnterShort(c: Alphabet, i: nat, len: array<nat>, value: array<nat>) returns (ok: bool)
    requires c.Valid() && c.Short(i) && len != value
    requires len.Length == value.Length == c.Pointer(HEADSIZE)
    requires HeadFilled(c, i, Table(len[..], value[..])) && SubFilled(c, i, Table(len[..], value[..]))
    modifies len, value
    ensures ok ==> HeadFilled(c, i + 1, Table(len[..], value[..])) && SubFilled(c, i + 1, Table(len[..], value[..]))
    ensures !ok ==> !c.Unambiguous()
  {
    ghost var t0 := Table(len[..], value[..]);
    var l := c.lengths[i];
    Pow2Values();
    var reverse := ReverseBits(c.codes[i], l);
    ok := Spread(len, value, 0, FIRSTBITS, reverse, l, l, i, true);
    if ok {
      ShortStep(c, i, t0, Table(len[..], value[..]));
    } else {
      ghost var v: nat :| v < HEADSIZE && Low(v, l) == reverse && t0.len[v] != UNUSED;
      InUse(c, i, v, t0.len[v], t0.value[v]);
    }
  }

  lemma {:induction false} LongSpread(c: Alphabet, i: nat, v: nat, w: nat)
    requires c.Valid() && c.Long(i) && InSub(c, v, w)
    ensures c.Starts(Join(v, w), i) <==> v == c.Head(i) && Low(w, c.lengths[i] - FIRSTBITS) == Shr(c.Reversed(i), FIRSTBITS)
  {
    JoinParts(v, w);
    LongStarts(c, Join(v, w), i);
  }

  lemma {:induction false} OtherSub(c: Alphabet, u: nat, v: nat, w: nat)
    requires c.Valid() && InSub(c, v, w) && u < HEADSIZE && u != v
    ensures c.Pointer(v) + w < c.Pointer(u) || c.Pointer(v) + w >= c.Pointer(u) + c.SubSize(u)
  {
    if u < v { PointerMono(c, u, v); } else { PointerMono(c, v, u); }
  }

  lemma {:induction false} OtherSubAt(c: Alphabet, u: nat, v: nat, w: nat, m: nat)
    requires c.Valid() && InSub(c, v, w) && u < HEADSIZE && u != v && m > 0 && c.MaxLen(u, |c.lengths|) == m + FIRSTBITS
    ensures c.Pointer(v) + w < c.Pointer(u) || c.Pointer(v) + w >= c.Pointer(u) + Pow2(m)
  {
    OtherSub(c, u, v, w);
  }

  /** Spreading a long symbol over its secondary table enters it there and nowhere else. */
  lemma {:induction false} LongEntered(c: Alphabet, i: nat, t0: Table, t: Table, u: nat, start: nat, m: nat, rev: nat, l: nat)
    requires c.Valid() && c.Long(i) && Sized(c, t0) && Sized(c, t) && Located(c, i, u, start, m, rev, l)
    requires SpreadOver(t0, t, start, m, rev, l, c.lengths[i], i)
    ensures forall v: nat, w: nat :: InSub(c, v, w) ==> SubEntered(c, i, t0, t, v, w)
  {
    forall v: nat, w: nat | InSub(c, v, w) ensures SubEntered(c, i, t0, t, v, w) {
      LongEnteredAt(c, i, t0, t, v, w, u, start, m, rev, l);
    }
  }

  /** Long symbol i has the l bits rev in the table of 2^m entries that starts at start, below
      head entry u. */
  ghost predicate Located(c: Alphabet, i: nat, u: nat, start: nat, m: nat, rev: nat, l: nat)
    requires c.Valid() && c.Long(i)
  {
    u == c.Head(i) && m > 0 && m + FIRSTBITS == c.MaxLen(u, |c.lengths|) && start == c.Pointer(u) &&
    rev == Shr(c.Reversed(i), FIRSTBITS) && l == c.lengths[i] - FIRSTBITS
  }

  lemma {:induction false} LongEnteredAt(c: Alphabet, i: nat, t0: Table, t: Table, v: nat, w: nat,
                                         u: nat, start: nat, m: nat, rev: nat, l: nat)
    requires c.Valid() && c.Long(i) && Sized(c, t0) && Sized(c, t) && InSub(c, v, w) && Located(c, i, u, start, m, rev, l)
    requires SpreadOver(t0, t, start, m, rev, l, c.lengths[i], i)
    ensures SubEntered(c, i, t0, t, v, w)
  {
    SubInRange(c, t, v, w);
    LongSpread(c, i, v, w);
    if v == u {
      SpreadInside(t0, t, start, m, rev, l, c.lengths[i], i, w);
    } else {
      OtherSubAt(c, u, v, w, m);
      SpreadOutside(t0, t, start, m, rev, l, c.lengths[i], i, c.Pointer(v) + w);
    }
    EntryIs(c, i, t0, t, v, w, c.Pointer(v) + w, v == u && Low(w, l) == rev);
  }

  lemma {:induction false} EntryIs(c: Alphabet, i: nat, t0: Table, t: Table, v: nat, w: nat, k: nat, here: bool)
    requires c.Valid() && c.Long(i) && Sized(c, t0) && Sized(c, t) && k == c.Pointer(v) + w < |t.len|
    requires c.Starts(Join(v, w), i) <==> here
    requires if here then t.len[k] == c.lengths[i] && t.value[k] == i else t.len[k] == t0.len[k] && t.value[k] == t0.value[k]
    ensures SubEntered(c, i, t0, t, v, w)
  {
  }

  lemma {:induction false} SpreadInside(t0: Table, t: Table, base: nat, m: nat, rev: nat, l: nat, newlen: nat, sym: nat, w: nat)
    requires SpreadOver(t0, t, base, m, rev, l, newlen, sym) && w < Pow2(m)
    ensures if Low(w, l) == rev then t.len[base + w] == newlen && t.value[base + w] == sym
            else t.len[base + w] == t0.len[base + w] && t.value[base + w] == t0.value[base + w]
  {
    assert base + w - base == w;
  }

  lemma {:induction false} SpreadOutside(t0: Table, t: Table, base: nat, m: nat, rev: nat, l: nat, newlen: nat, sym: nat, k: nat)
    requires SpreadOver(t0, t, base, m, rev, l, newlen, sym) && k < |t.len| && (k < base || k >= base + Pow2(m))
    ensures t.len[k] == t0.len[k] && t.value[k] == t0.value[k]
  {
  }

  /** The effect of Spread. */
  ghost predicate SpreadOver(t0: Table, t: Table, base: nat, m: nat, rev: nat, l: nat, newlen: nat, sym: nat) {
    |t0.len| == |t0.value| == |t.len| == |t.value| && base + Pow2(m) <= |t.len| &&
    (forall v: nat :: v < Pow2(m) && Low(v, l) == rev ==> t.len[base + v] == newlen && t.value[base + v] == sym) &&
    (forall k: nat :: k < |t.len| && (k < base || k >= base + Pow2(m) || Low(k - base, l) != rev) ==>
      t.len[k] == t0.len[k] && t.value[k] == t0.value[k])
  }

  method EnterLong(c: Alphabet, i: nat, len: array<nat>, value: array<nat>) returns (ok: bool)
    requires c.Valid() && c.Long(i) && len != value
    requires len.Length == value.Length == c.Pointer(HEADSIZE)
    requires HeadFilled(c, i, Table(len[..], value[..])) && SubFilled(c, i, Table(len[..], value[..]))
    modifies len, value
    ensures ok
    ensures HeadFilled(c, i + 1, Table(len[..], value[..])) && SubFilled(c, i + 1, Table(len[..], value[..]))
  {
    ghost var t0 := Table(len[..], value[..]);
    var l := c.lengths[i];
    var reverse, index := Locate(c, i);
    HeadAt(c, i, t0, index);
    var maxlen, start := len[index], value[index];
    if maxlen < l { return false; }
    var tablelen, reverse2, rest := maxlen - FIRSTBITS, Shr(reverse, FIRSTBITS), l - FIRSTBITS;
    SpreadSymbol(len, value, start, tablelen, reverse2, rest, l, i);
    ok := true;
    LongAdded(c, i, t0, Table(len[..], value[..]), index, start, tablelen, reverse2, rest);
  }

  /** Spread without the check for entries that are used. */
  method SpreadSymbol(len: array<nat>, value: array<nat>, base: nat, m: nat, rev: nat, l: nat, newlen: nat, sym: nat)
    requires len != value && len.Length == value.Length && l <= m && rev < Pow2(l) && base + Pow2(m) <= len.Length
    modifies len, value
    ensures SpreadOver(old(Table(len[..], value[..])), Table(len[..], value[..]), base, m, rev, l, newlen, sym)
  {
    var _ := Spread(len, value, base, m, rev, l, newlen, sym, false);
  }

  /** The reversed code and its head entry. */
  method Locate(c: Alphabet, i: nat) returns (reverse: nat, index: nat)
    requires c.Valid() && c.Long(i)
    ensures reverse == c.Reversed(i) && index == c.Head(i)
    ensures Shr(reverse, FIRSTBITS) < Pow2(c.lengths[i] - FIRSTBITS)
  {
    reverse := ReverseBits(c.codes[i], c.lengths[i]);
    AndMask(reverse, FIRSTBITS);
    Pow2Values();
    index := And(reverse, HEADSIZE - 1);
    ShrBound(reverse, FIRSTBITS, c.lengths[i]);
  }

  lemma {:induction false} HeadAt(c: Alphabet, i: nat, t: Table, u: nat)
    requires c.Valid() && c.Long(i) && Sized(c, t) && HeadFilled(c, i, t) && u == c.Head(i)
    ensures var m := c.MaxLen(u, |c.lengths|);
            m > FIRSTBITS && c.lengths[i] <= m && t.len[u] == m && t.value[u] == c.Pointer(u) &&
            HEADSIZE <= c.Pointer(u) && c.Pointer(u) + Pow2(m - FIRSTBITS) <= |t.len|
  {
    MaxLenBound(c, u, |c.lengths|, i);
    PointerMono(c, u, HEADSIZE);
    HeadPointer(c, i, t, u);
  }

  /** What is spread behind the head leaves the head alone. */
  lemma {:induction false} HeadKept(t0: Table, t: Table, base: nat, m: nat, rev: nat, l: nat, newlen: nat, sym: nat)
    requires SpreadOver(t0, t, base, m, rev, l, newlen, sym) && HEADSIZE <= base
    ensures forall k: nat :: k < HEADSIZE ==> t.len[k] == t0.len[k] && t.value[k] == t0.value[k]
  {
  }

  lemma {:induction false} LongAdded(c: Alphabet, i: nat, t0: Table, t: Table, u: nat, start: nat, m: nat, rev: nat, l: nat)
    requires c.Valid() && c.Long(i) && Sized(c, t0) && Sized(c, t) && HeadFilled(c, i, t0) && SubFilled(c, i, t0)
    requires Located(c, i, u, start, m, rev, l) && HEADSIZE <= start
    requires SpreadOver(t0, t, start, m, rev, l, c.lengths[i], i)
    ensures HeadFilled(c, i + 1, t) && SubFilled(c, i + 1, t)
  {
    LongEntered(c, i, t0, t, u, start, m, rev, l);
    HeadKept(t0, t, start, m, rev, l, c.lengths[i], i);
    LongStep(c, i, t0, t);
  }

  // ---------------------------------------------------------------- completeness

  /** Every entry after the head belongs to a secondary table. */
  lemma {:induction false} FindSub(c: Alphabet, k: nat, u: nat) returns (v: nat, w: nat)
    requires c.Valid() && HEADSIZE <= k < c.Pointer(u) && u <= HEADSIZE
    ensures InSub(c, v, w) && k == c.Pointer(v) + w
    decreases u
  {
    if k < c.Pointer(u - 1) {
      v, w := FindSub(c, k, u - 1);
    } else {
      v, w := u - 1, k - c.Pointer(u - 1);
    }
  }

  lemma {:induction false} HeadUsed(c: Alphabet, v: nat, len: nat, value: nat)
    requires c.Valid() && c.Exhaustive() && v < HEADSIZE
    requires HeadEntry(c, |c.lengths|, v, len, value)
    ensures len != UNUSED
  {
    if c.MaxLen(v, |c.lengths|) == 0 {
      Pow2Values();
      assert c.Covered(v);
      var i: nat :| c.Starts(v, i);
      if c.Long(i) {
        LongStarts(c, v, i);
        LowSmall(v, FIRSTBITS);
        MaxLenBound(c, v, |c.lengths|, i);
      }
    }
  }

  lemma {:induction false} JoinBound(v: nat, x: nat, m: nat)
    requires v < HEADSIZE && x < Pow2(m)
    ensures Join(v, x) < Pow2(m + FIRSTBITS)
  {
    Pow2Values();
    ShlMono(x, Pow2(m), FIRSTBITS);
    ShlPow2(m, FIRSTBITS);
  }

  lemma {:induction false} JoinCovered(c: Alphabet, v: nat, w: nat, m: nat)
    requires c.Valid() && c.Exhaustive() && v < HEADSIZE && FIRSTBITS < m <= 15 && w < Pow2(m - FIRSTBITS)
    ensures c.Covered(Join(v, w))
  {
    JoinBound(v, w, m - FIRSTBITS);
    Pow2Mono(m, 15);
  }

  lemma {:induction false} SubUsed(c: Alphabet, t: Table, v: nat, w: nat)
    requires c.Valid() && c.Unambiguous() && c.Exhaustive() && InSub(c, v, w)
    requires SubEntry(c, |c.lengths|, t, v, w)
    ensures t.len[c.Pointer(v) + w] != UNUSED
  {
    var m := c.MaxLen(v, |c.lengths|);
    var x := Join(v, w);
    JoinCovered(c, v, w, m);
    var i: nat :| c.Starts(x, i);
    JoinParts(v, w);
    if c.Short(i) {
      ShortStarts(c, x, i);
      ShortMeetsLong(c, v, i);
    }
  }

  lemma {:induction false} AllUsed(c: Alphabet, t: Table)
    requires c.Valid() && c.Unambiguous() && c.Exhaustive()
    requires HeadFilled(c, |c.lengths|, t) && SubFilled(c, |c.lengths|, t)
    ensures forall k :: 0 <= k < |t.len| ==> t.len[k] != UNUSED
  {
    forall k | 0 <= k < |t.len| ensures t.len[k] != UNUSED {
      if k < HEADSIZE {
        HeadUsed(c, k, t.len[k], t.value[k]);
      } else {
        var v, w := FindSub(c, k, HEADSIZE);
        SubUsed(c, t, v, w);
      }
    }
  }

  /** If no entry is unused, every window starts with a codeword. */
  lemma {:induction false} UsedIsExhaustive(c: Alphabet, t: Table)
    requires c.Valid() && HeadFilled(c, |c.lengths|, t) && SubFilled(c, |c.lengths|, t)
    requires forall k :: 0 <= k < |t.len| ==> t.len[k] != UNUSED
    ensures c.Exhaustive()
  {
    forall w: nat | w < Pow2(15) ensures c.Covered(w) {
      HeadIndex(w);
      var v := Low(w, FIRSTBITS);
      assert HeadEntry(c, |c.lengths|, v, t.len[v], t.value[v]);
      if c.MaxLen(v, |c.lengths|) == 0 {
        var i: nat :| i < |c.lengths| && c.Short(i) && c.Starts(v, i);
        ShortStarts(c, w, i);
      } else {
        SubCovered(c, t, w);
      }
    }
  }

  lemma {:induction false} SubCovered(c: Alphabet, t: Table, w: nat)
    requires c.Valid() && SubFilled(c, |c.lengths|, t)
    requires forall k :: 0 <= k < |t.len| ==> t.len[k] != UNUSED
    requires Low(w, FIRSTBITS) < HEADSIZE && c.MaxLen(Low(w, FIRSTBITS), |c.lengths|) > 0
    ensures c.Covered(w)
  {
    var v := Low(w, FIRSTBITS);
    SubSizeIs(c, v);
    var m := c.MaxLen(v, |c.lengths|) - FIRSTBITS;
    var x := Low(Shr(w, FIRSTBITS), m);
    LowBound(Shr(w, FIRSTBITS), m);
    assert InSub(c, v, x) && SubEntry(c, |c.lengths|, t, v, x);
    var i: nat :| i < |c.lengths| && c.Long(i) && c.Starts(Join(v, x), i);
    JoinParts(v, x);
    LongStarts(c, Join(v, x), i);
    MaxLenBound(c, v, |c.lengths|, i);
    LowLow(Shr(w, FIRSTBITS), c.lengths[i] - FIRSTBITS, m);
    LongStarts(c, w, i);
  }

  /** Safe, apart from entries that are still unused. */
  ghost predicate AlmostSafe(t: Table) {
    HEADSIZE <= |t.len| == |t.value| &&
    (forall v: nat :: v < HEADSIZE ==> t.len[v] == UNUSED || SafeHead(t, t.len[v], t.value[v])) &&
    (forall k: nat :: HEADSIZE <= k < |t.len| ==> FIRSTBITS < t.len[k] <= UNUSED)
  }

  lemma {:induction false} FilledIsSafe(c: Alphabet, t: Table)
    requires c.Valid() && HeadFilled(c, |c.lengths|, t) && SubFilled(c, |c.lengths|, t)
    ensures AlmostSafe(t)
  {
    forall v: nat | v < HEADSIZE ensures t.len[v] == UNUSED || SafeHead(t, t.len[v], t.value[v]) {
      assert HeadEntry(c, |c.lengths|, v, t.len[v], t.value[v]);
      SubSizeIs(c, v);
      PointerMono(c, v, HEADSIZE);
    }
    forall k: nat | HEADSIZE <= k < |t.len| ensures FIRSTBITS < t.len[k] <= UNUSED {
      var v, w := FindSub(c, k, HEADSIZE);
      assert SubEntry(c, |c.lengths|, t, v, w);
    }
  }

  lemma {:induction false} FilledDecodes(c: Alphabet, t0: Table, t: Table)
    requires c.Valid() && c.Unambiguous() && Safe(t) && Replaced(t0, t)
    requires HeadFilled(c, |c.lengths|, t0) && SubFilled(c, |c.lengths|, t0)
    ensures Decodes(c, t) && NothingElse(c, t)
  {
    forall w: nat, i: nat | c.Starts(w, i) ensures Lookup(t, w) == (i, c.lengths[i]) {
      if c.Short(i) { ShortLookup(c, t0, t, w, i); } else { LongLookup(c, t0, t, w, i); }
    }
    forall w: nat | !c.Covered(w) ensures Lookup(t, w).0 == INVALIDSYMBOL { OtherLookup(c, t0, t, w); }
  }

  lemma {:induction false} FilledApart(c: Alphabet, t: Table)
    requires c.Valid() && HeadFilled(c, |c.lengths|, t)
    ensures c.Apart()
  {
    forall v: nat, i: nat | v < HEADSIZE && c.Short(i) && c.Starts(v, i)
      ensures c.MaxLen(v, |c.lengths|) == 0 && forall j: nat :: c.Short(j) && c.Starts(v, j) ==> j == i
    {
      assert HeadEntry(c, |c.lengths|, v, t.len[v], t.value[v]);
    }
  }

  method EnterAll(c: Alphabet, len: array<nat>, value: array<nat>) returns (ok: bool, numpresent: nat)
    requires c.Valid() && len != value
    requires len.Length == value.Length == c.Pointer(HEADSIZE)
    requires HeadFilled(c, 0, Table(len[..], value[..])) && SubFilled(c, 0, Table(len[..], value[..]))
    modifies len, value
    ensures ok ==> HeadFilled(c, |c.lengths|, Table(len[..], value[..])) && SubFilled(c, |c.lengths|, Table(len[..], value[..]))
    ensures ok ==> numpresent == c.Present(|c.lengths|)
    ensures !ok ==> !c.Unambiguous()
  {
    numpresent := 0;
    ok := true;
    var i := 0;
    while i < |c.lengths|
      invariant i <= |c.lengths| && numpresent == c.Present(i)
      invariant HeadFilled(c, i, Table(len[..], value[..])) && SubFilled(c, i, Table(len[..], value[..]))
    {
      if c.lengths[i] == 0 {
        AbsentStep(c, i, Table(len[..], value[..]));
      } else {
        numpresent := numpresent + 1;
        if c.lengths[i] <= FIRSTBITS {
          ok := EnterShort(c, i, len, value);
        } else {
          ok := EnterLong(c, i, len, value);
        }
        if !ok { return; }
      }
      i := i + 1;
    }
  }

  lemma {:induction false} AbsentStep(c: Alphabet, n: nat, t: Table)
    requires c.Valid() && n < |c.lengths| && c.lengths[n] == 0
    requires HeadFilled(c, n, t) && SubFilled(c, n, t)
    ensures HeadFilled(c, n + 1, t) && SubFilled(c, n + 1, t)
  {
    forall v: nat | v < HEADSIZE ensures HeadEntry(c, n + 1, v, t.len[v], t.value[v]) {
      assert HeadEntry(c, n, v, t.len[v], t.value[v]);
    }
    forall v: nat, w: nat | InSub(c, v, w) ensures SubEntry(c, n + 1, t, v, w) {
      assert SubEntry(c, n, t, v, w);
    }
  }

  /** Unused entries become an invalid symbol whose length keeps lookups in range. */
  method FillInvalid(len: array<nat>, value: array<nat>)
    requires len != value && AlmostSafe(Table(len[..], value[..]))
    modifies len, value
    ensures Safe(Table(len[..], value[..])) && Replaced(old(Table(len[..], value[..])), Table(len[..], value[..]))
  {
    ghost var t0 := Table(len[..], value[..]);
    var i := 0;
    while i < len.Length
      invariant i <= len.Length
      invariant forall k :: 0 <= k < len.Length ==>
        if k < i && t0.len[k] == UNUSED then
          len[k] == (if k < HEADSIZE then 1 else FIRSTBITS + 1) && value[k] == INVALIDSYMBOL
        else len[k] == t0.len[k] && value[k] == t0.value[k]
    {
      if len[i] == UNUSED {
        len[i] := if i < HEADSIZE then 1 else FIRSTBITS + 1;
        value[i] := INVALIDSYMBOL;
      }
      i := i + 1;
    }
    assert forall v: nat :: v < HEADSIZE && t0.len[v] != UNUSED ==> SafeHead(t0, t0.len[v], t0.value[v]);
  }

  method NoneUnused(len: array<nat>) returns (b: bool)
    ensures b <==> forall k :: 0 <= k < len.Length ==> len[k] != UNUSED
  {
    var i := 0;
    while i < len.Length
      invariant i <= len.Length && forall k :: 0 <= k < i ==> len[k] != UNUSED
    {
      if len[i] == UNUSED { return false; }
      i := i + 1;
    }
    b := true;
  }

  method FinishTable(c: Alphabet, len: array<nat>, value: array<nat>, numpresent: nat) returns (error: nat, t: Table)
    requires c.Valid() && len != value && numpresent == c.Present(|c.lengths|)
    requires HeadFilled(c, |c.lengths|, Table(len[..], value[..])) && SubFilled(c, |c.lengths|, Table(len[..], value[..]))
    modifies len, value
    ensures error == 0 || error == 55
    ensures error == 0 ==> Safe(t) && c.Apart()
    ensures error == 0 && c.Unambiguous() ==> Decodes(c, t) && NothingElse(c, t)
    ensures numpresent < 2 ==> error == 0
    ensures c.Unambiguous() && numpresent >= 2 ==> (error == 0 <==> c.Exhaustive())
  {
    ghost var t0 := Table(len[..], value[..]);
    FilledIsSafe(c, t0);
    FilledApart(c, t0);
    if numpresent < 2 {
      FillInvalid(len, value);
    } else {
      if c.Unambiguous() && c.Exhaustive() { AllUsed(c, t0); }
      var ok := NoneUnused(len);
      if !ok { return 55, Table([], []); }
      UsedIsExhaustive(c, t0);
    }
    error, t := 0, Table(len[..], value[..]);
    if c.Unambiguous() { FilledDecodes(c, t0, t); }
  }

  /** HuffmanTree_makeTable. On an unambiguous alphabet it succeeds exactly if the alphabet is
      exhaustive or has fewer than two symbols, and the table then decodes the alphabet and
      gives the invalid symbol where no codeword comes. Any table it returns, for any lengths
      and codes, is safe to look up in, and no short codeword shares its head entry. */
  method MakeTable(c: Alphabet) returns (error: nat, t: Table)
    requires c.Valid()
    ensures error == 0 || error == 55
    ensures error == 0 ==> Safe(t) && c.Apart()
    ensures error == 0 && c.Unambiguous() ==> Decodes(c, t) && NothingElse(c, t)
    ensures c.Unambiguous() ==> (error == 0 <==> c.Exhaustive() || c.Present(|c.lengths|) < 2)
  {
    var maxlens := MaxLengths(c);
    var size := TableSize(c, maxlens);
    var len := new nat[size](_ => UNUSED);
    var value := new nat[size](_ => 0);
    FillPointers(c, maxlens, len, value);
    var ok, numpresent := EnterAll(c, len, value);
    if !ok { return 55, Table([], []); }
    error, t := FinishTable(c, len, value, numpresent);
  }
}
