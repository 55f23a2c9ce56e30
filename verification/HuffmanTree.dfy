/** Huffman trees: codes for writing and a lookup table for reading, both made from code
    lengths. */
module HuffmanTree {
  import opened Bits
  import opened BitStream
  import opened CanonicalCode
  import opened HuffmanTable
  import CodeLengths
  import DeflateFormat

  datatype Tree = Tree(alphabet: Alphabet, table: Table) {
    /** Lookups are in range; nothing is known about what they return. */
    ghost predicate Usable() {
      alphabet.Valid() && Safe(table)
    }

    /** The tree writes and reads the canonical code of the lengths ls, and reads the invalid
        symbol where no codeword comes. */
    ghost predicate For(ls: seq<nat>) {
      Usable() && alphabet.lengths == ls && Decodable(ls, 15) && Decodes(alphabet, table) && NothingElse(alphabet, table) &&
      forall i: nat :: i < |ls| && ls[i] > 0 ==> alphabet.Codeword(i) == Codeword(ls, i)
    }
  }

  /** The same, for use in longer conditions. */
  ghost predicate TreeFor(tree: Tree, ls: seq<nat>) {
    forall l: seq<nat> {:trigger tree.For(l)} :: l == ls ==> tree.For(l)
  }

  /** The alphabet that AssignCodes makes from lengths with a Kraft sum of at most one. */
  lemma {:induction false} CanonicalAlphabet(c: Alphabet)
    requires Bounded(c.lengths, 15) && Kraft(c.lengths, 15, |c.lengths|) <= Pow2(15) && |c.codes| == |c.lengths|
    requires forall i: nat :: i < |c.lengths| ==> IsCode(c.lengths, i, c.codes[i])
    ensures c.Valid() && c.Unambiguous()
    ensures forall i: nat :: i < |c.lengths| && c.lengths[i] > 0 ==> c.Codeword(i) == Codeword(c.lengths, i)
  {
    AssignedAreValid(c);
    CanonicalCodewords(c);
    forall w: nat, i: nat, j: nat | c.Starts(w, i) && c.Starts(w, j) ensures i == j {
      StartsIsPrefix(c, w, i);
      StartsIsPrefix(c, w, j);
      PrefixIsSlot(c.lengths, 15, i, LsbBits(w, 15));
      PrefixIsSlot(c.lengths, 15, j, LsbBits(w, 15));
      SlotsDisjoint(c.lengths, 15, i, j, MsbVal(LsbBits(w, 15)));
    }
  }

  lemma {:induction false} CanonicalCodewords(c: Alphabet)
    requires Bounded(c.lengths, 15) && Kraft(c.lengths, 15, |c.lengths|) <= Pow2(15) && |c.codes| == |c.lengths| && c.Valid()
    requires forall i: nat :: i < |c.lengths| ==> IsCode(c.lengths, i, c.codes[i])
    ensures forall i: nat :: i < |c.lengths| && c.lengths[i] > 0 ==> c.Codeword(i) == Codeword(c.lengths, i)
  {
    forall i: nat | i < |c.lengths| && c.lengths[i] > 0 ensures c.Codeword(i) == Codeword(c.lengths, i) {
      assert IsCode(c.lengths, i, c.codes[i]);
      CodeFits(c.lengths, 15, i);
      LowSmall(Code(c.lengths, i), c.lengths[i]);
    }
  }

  /** It is exhaustive exactly if the code is complete. */
  lemma {:induction false} CanonicalExhaustive(c: Alphabet)
    requires c.Valid() && Bounded(c.lengths, 15) && Kraft(c.lengths, 15, |c.lengths|) <= Pow2(15)
    requires forall i: nat :: i < |c.lengths| && c.lengths[i] > 0 ==> c.Codeword(i) == Codeword(c.lengths, i)
    ensures c.Exhaustive() <==> Complete(c.lengths, 15)
  {
    if Complete(c.lengths, 15) {
      forall w: nat | w < Pow2(15) ensures c.Covered(w) {
        var i := CanonicalCode.Exhaustive(c.lengths, 15, LsbBits(w, 15));
        StartsIsPrefix(c, w, i);
        assert c.Starts(w, i);
      }
    } else {
      SomeUncovered(c, Kraft(c.lengths, 15, |c.lengths|));
    }
  }

  /** The first value behind all slots is a window without a codeword. */
  lemma {:induction false} SomeUncovered(c: Alphabet, v: nat)
    requires c.Valid() && Bounded(c.lengths, 15) && v == Kraft(c.lengths, 15, |c.lengths|) < Pow2(15)
    requires forall i: nat :: i < |c.lengths| && c.lengths[i] > 0 ==> c.Codeword(i) == Codeword(c.lengths, i)
    ensures !c.Exhaustive()
  {
    var w := WindowOf(v, 15);
    forall i: nat ensures !c.Starts(w, i) { NotThere(c, v, w, i); }
    assert !c.Covered(w);
  }

  lemma {:induction false} WindowOf(v: nat, n: nat) returns (w: nat)
    requires v < Pow2(n)
    ensures w < Pow2(n) && LsbBits(w, n) == MsbBits(v, n)
  {
    w := Val(MsbBits(v, n));
    LsbBitsVal(MsbBits(v, n));
  }

  lemma {:induction false} NotThere(c: Alphabet, v: nat, w: nat, i: nat)
    requires c.Valid() && Bounded(c.lengths, 15) && v == Kraft(c.lengths, 15, |c.lengths|) < Pow2(15) && w < Pow2(15)
    requires forall j: nat :: j < |c.lengths| && c.lengths[j] > 0 ==> c.Codeword(j) == Codeword(c.lengths, j)
    requires LsbBits(w, 15) == MsbBits(v, 15)
    ensures !c.Starts(w, i)
  {
    if c.Symbol(i) {
      MsbValBits(v, 15);
      StartsIsPrefix(c, w, i);
      PrefixIsSlot(c.lengths, 15, i, MsbBits(v, 15));
      SlotInKraft(c.lengths, 15, i);
    }
  }

  /** With a Kraft sum over one, the first code that does not fit its length has the bits of
      the shortest code. In alphabets of up to 1024 symbols that one is short, so the two
      share a head entry. */
  lemma {:induction false} TooManyMeet(c: Alphabet)
    requires c.Valid() && Bounded(c.lengths, 15) && Kraft(c.lengths, 15, |c.lengths|) > Pow2(15) && |c.lengths| <= 1024
    requires forall i: nat :: i < |c.lengths| ==> IsCode(c.lengths, i, c.codes[i])
    ensures !c.Apart()
  {
    var i := Overflow(c.lengths, 15);
    var j := ShortestIsZero(c.lengths, i);
    ShortestIsShort(c.lengths, 15, FIRSTBITS, c.lengths[j]);
    ZeroReversed(c, i);
    ZeroReversed(c, j);
    ZerosMeet(c, i, j);
  }

  lemma {:induction false} ShortestIsShort(ls: seq<nat>, maxbits: nat, first: nat, l: nat)
    requires Bounded(ls, maxbits) && Kraft(ls, maxbits, |ls|) > Pow2(maxbits) && |ls| <= 1024
    requires maxbits == 15 && first == FIRSTBITS && l <= maxbits && forall k :: 0 <= k < |ls| ==> ls[k] == 0 || ls[k] >= l
    ensures l <= first
  {
    if l > first {
      KraftLong(ls, maxbits, first + 1, |ls|);
      Pow2Values();
    }
  }

  lemma {:induction false} ZeroReversed(c: Alphabet, i: nat)
    requires c.Valid() && c.Symbol(i) && IsCode(c.lengths, i, c.codes[i])
    requires Code(c.lengths, i) == 0 || Code(c.lengths, i) == Pow2(c.lengths[i])
    ensures c.Reversed(i) == 0
  {
    var l := c.lengths[i];
    ShlIsMul(1, l);
    LowShl(1, l);
    LowZero(l);
    MsbZero(l);
  }

  lemma {:induction false} ZerosMeet(c: Alphabet, i: nat, j: nat)
    requires c.Valid() && c.Symbol(i) && c.Short(j) && i != j && c.Reversed(i) == 0 && c.Reversed(j) == 0
    ensures !c.Apart()
  {
    LowZero(c.lengths[i]);
    LowZero(c.lengths[j]);
    LowZero(FIRSTBITS);
    assert c.Starts(0, j) && c.Starts(0, i);
    if c.Long(i) { MaxLenBound(c, 0, |c.lengths|, i); }
  }

  lemma {:induction false} PresentSparse(c: Alphabet, n: nat)
    requires n <= |c.lengths|
    ensures c.Present(n) < 2 <==> Sparse(c.lengths[..n])
    ensures c.Present(n) == 0 <==> forall i :: 0 <= i < n ==> c.lengths[i] == 0
    decreases n
  {
    if n > 0 {
      PresentSparse(c, n - 1);
      SparseSnoc(c.lengths[..n - 1], c.lengths[n - 1]);
      assert c.lengths[..n] == c.lengths[..n - 1] + [c.lengths[n - 1]];
    }
  }

  lemma {:induction false} SparseSnoc(ls: seq<nat>, l: nat)
    ensures Sparse(ls + [l]) <==> if l == 0 then Sparse(ls) else forall i :: 0 <= i < |ls| ==> ls[i] == 0
  {
    var all := ls + [l];
    if Sparse(all) {
      forall i, j | 0 <= i < |ls| && 0 <= j < |ls| && ls[i] > 0 && ls[j] > 0 ensures i == j { assert all[i] > 0 && all[j] > 0; }
      if l > 0 {
        forall i | 0 <= i < |ls| ensures ls[i] == 0 { assert all[i] == ls[i] && all[|ls|] == l; }
      }
    }
  }

  lemma {:induction false} AssignedAreValid(c: Alphabet)
    requires Bounded(c.lengths, 15) && |c.codes| == |c.lengths|
    requires forall i: nat :: i < |c.lengths| ==> IsCode(c.lengths, i, c.codes[i])
    ensures c.Valid()
  {
    forall i: nat | i < |c.lengths| ensures c.codes[i] < Pow2(c.lengths[i]) {
      assert IsCode(c.lengths, i, c.codes[i]);
      LowBound(Code(c.lengths, i), c.lengths[i]);
    }
  }

  lemma {:induction false} StartsIsPrefix(c: Alphabet, w: nat, i: nat)
    requires c.Valid() && c.Symbol(i)
    ensures c.Starts(w, i) <==> c.Codeword(i) <= LsbBits(w, 15)
  {
    LsbPrefix(w, 15, c.Codeword(i));
  }

  /** What makeTable decides about canonical alphabets. */
  lemma {:induction false} AcceptedIsDecodable(c: Alphabet, maxbits: nat, error: nat)
    requires maxbits <= 15 && Bounded(c.lengths, maxbits) && c.Valid() && |c.lengths| <= 1024
    requires forall i: nat :: i < |c.lengths| ==> IsCode(c.lengths, i, c.codes[i])
    requires error == 0 ==> c.Apart()
    requires c.Unambiguous() ==> (error == 0 <==> c.Exhaustive() || c.Present(|c.lengths|) < 2)
    ensures error == 0 <==> Decodable(c.lengths, maxbits)
    ensures error == 0 ==> Kraft(c.lengths, 15, |c.lengths|) <= Pow2(15) && Decodable(c.lengths, 15)
  {
    var ls := c.lengths;
    BoundedMore(ls, maxbits);
    Scaled(ls, maxbits);
    assert ls[..|ls|] == ls;
    PresentSparse(c, |ls|);
    if Kraft(ls, 15, |ls|) > Pow2(15) {
      TooManyMeet(c);
      if Decodable(ls, 15) { DecodableKraft(ls, 15); }
    } else {
      CanonicalAlphabet(c);
      CanonicalExhaustive(c);
    }
  }

  lemma {:induction false} BoundedMore(ls: seq<nat>, maxbits: nat)
    requires maxbits <= 15 && Bounded(ls, maxbits)
    ensures Bounded(ls, 15)
  {
  }

  lemma {:induction false} Scaled(ls: seq<nat>, maxbits: nat)
    requires maxbits <= 15 && Bounded(ls, maxbits)
    ensures Complete(ls, maxbits) <==> Complete(ls, 15)
    ensures Decodable(ls, maxbits) <==> Decodable(ls, 15)
  {
    if Complete(ls, maxbits) { CompleteScale(ls, maxbits, 15 - maxbits); }
    if Complete(ls, 15) { CompleteUnscale(ls, maxbits, 15 - maxbits); }
  }

  /** HuffmanTree_makeFromLengths. For the alphabets there are it accepts exactly complete
      codes and codes of at most one symbol, and makes trees for them. */
  method MakeFromLengths(bitlen: seq<nat>, maxbitlen: nat) returns (error: nat, tree: Tree)
    requires maxbitlen <= 15 && Bounded(bitlen, maxbitlen)
    ensures error == 0 || error == 55
    ensures error == 0 ==> tree.Usable()
    ensures |bitlen| <= 1024 ==> (error == 0 <==> Decodable(bitlen, maxbitlen)) && (error == 0 ==> tree.For(bitlen))
    ensures Complete(bitlen, maxbitlen) ==> error == 0 && tree.For(bitlen)
  {
    var codes := AssignCodes(bitlen, maxbitlen);
    var alphabet := Alphabet(bitlen, codes);
    AssignedAreValid(alphabet);
    var table;
    error, table := MakeTable(alphabet);
    tree := Tree(alphabet, table);
    if |bitlen| <= 1024 { AcceptedIsDecodable(alphabet, maxbitlen, error); }
    Scaled(bitlen, maxbitlen);
    if Decodable(bitlen, 15) { TreeIsFor(tree, bitlen, error); }
  }

  lemma {:induction false} TreeIsFor(tree: Tree, ls: seq<nat>, error: nat)
    requires tree.alphabet.Valid() && tree.alphabet.lengths == ls && Decodable(ls, 15)
    requires forall i: nat :: i < |ls| ==> IsCode(ls, i, tree.alphabet.codes[i])
    requires error == 0 ==> Safe(tree.table)
    requires error == 0 && tree.alphabet.Unambiguous() ==>
      Decodes(tree.alphabet, tree.table) && NothingElse(tree.alphabet, tree.table)
    requires tree.alphabet.Unambiguous() ==> (error == 0 <==> tree.alphabet.Exhaustive() || tree.alphabet.Present(|ls|) < 2)
    ensures error == 0 ==> tree.For(ls)
    ensures Complete(ls, 15) ==> error == 0
  {
    DecodableKraft(ls, 15);
    CanonicalAlphabet(tree.alphabet);
    CanonicalExhaustive(tree.alphabet);
  }

  /** The symbols that occur are among the first |ls| and have a code of at most maxbits. */
  ghost predicate Serves(ls: seq<nat>, frequencies: seq<nat>, maxbits: nat) {
    |ls| <= |frequencies| && Complete(ls, maxbits) &&
    forall i: nat :: i < |frequencies| && frequencies[i] > 0 ==> i < |ls| && ls[i] > 0
  }

  /** The number of codes without absent symbols at the end, but at least mincodes. */
  method TrimCodes(frequencies: seq<nat>, mincodes: nat) returns (numcodes: nat)
    requires 0 < mincodes <= |frequencies|
    ensures mincodes <= numcodes <= |frequencies|
    ensures forall i :: numcodes <= i < |frequencies| ==> frequencies[i] == 0
    ensures numcodes > mincodes ==> frequencies[numcodes - 1] > 0
  {
    numcodes := |frequencies|;
    while frequencies[numcodes - 1] == 0 && numcodes > mincodes
      invariant mincodes <= numcodes <= |frequencies|
      invariant forall i :: numcodes <= i < |frequencies| ==> frequencies[i] == 0
    {
      numcodes := numcodes - 1;
    }
  }

  /** HuffmanTree_makeFromFrequencies: absent symbols at the end are dropped as far as
      mincodes allows. */
  method MakeFromFrequencies(frequencies: seq<nat>, mincodes: nat, maxbitlen: nat) returns (error: nat, tree: Tree)
    requires 2 <= mincodes <= |frequencies| && maxbitlen <= 15
    ensures |frequencies| <= Pow2(maxbitlen) ==> error == 0
    ensures error == 0 ==> mincodes <= |tree.alphabet.lengths| && tree.For(tree.alphabet.lengths)
    ensures error == 0 ==> Serves(tree.alphabet.lengths, frequencies, maxbitlen)
    ensures error == 0 ==> |tree.alphabet.lengths| > mincodes ==> frequencies[|tree.alphabet.lengths| - 1] > 0
  {
    var numcodes := TrimCodes(frequencies, mincodes);
    var lengths := new nat[numcodes](_ => 0);
    var outside;
    error, outside := CodeLengths.HuffmanCodeLengths(lengths, frequencies[..numcodes], maxbitlen);
    tree := Tree(Alphabet([], []), Table([], []));
    if error == 0 {
      ServesAll(lengths[..], frequencies, maxbitlen);
      error, tree := MakeFromLengths(lengths[..], maxbitlen);
    }
  }

  lemma {:induction false} ServesAll(ls: seq<nat>, frequencies: seq<nat>, maxbits: nat)
    requires |ls| <= |frequencies| && Complete(ls, maxbits)
    requires forall i :: 0 <= i < |ls| && frequencies[..|ls|][i] > 0 ==> ls[i] > 0
    requires forall i :: |ls| <= i < |frequencies| ==> frequencies[i] == 0
    ensures Serves(ls, frequencies, maxbits)
  {
    forall i: nat | i < |frequencies| && frequencies[i] > 0 ensures i < |ls| && ls[i] > 0 {
      assert i < |ls| ==> frequencies[..|ls|][i] == frequencies[i];
    }
  }

  /** generateFixedLitLenTree and generateFixedDistanceTree. */
  method FixedTrees(ghost c: DeflateFormat.Coding) returns (treeLL: Tree, treeD: Tree)
    requires DeflateFormat.IsFixed(c)
    ensures treeLL.For(c.ll) && treeD.For(c.d)
  {
    DeflateFormat.FixedIs(c);
    DeflateFormat.FixedComplete();
    var error;
    error, treeLL := MakeFromLengths(DeflateFormat.FixedLL(), 15);
    error, treeD := MakeFromLengths(DeflateFormat.FixedD(), 15);
  }

  lemma {:induction false} HeadLookup(t: Table, w: nat, v: nat)
    requires Safe(t) && v == Low(w, FIRSTBITS)
    ensures v < HEADSIZE && 0 < t.len[v] <= 15
    ensures t.len[v] <= FIRSTBITS ==> Lookup(t, w) == (t.value[v], t.len[v])
  {
    HeadIndex(w);
    assert SafeHead(t, t.len[v], t.value[v]);
  }

  lemma {:induction false} SubLookup(t: Table, w: nat, v: nat, x: nat)
    requires Safe(t) && v == Low(w, FIRSTBITS) < HEADSIZE && t.len[v] > FIRSTBITS
    requires x == Low(Shr(w, FIRSTBITS), t.len[v] - FIRSTBITS)
    ensures t.value[v] + x < |t.len| && FIRSTBITS < t.len[t.value[v] + x] <= 15
    ensures Lookup(t, w) == (t.value[t.value[v] + x], t.len[t.value[v] + x])
  {
    assert SafeHead(t, t.len[v], t.value[v]);
    LowBound(Shr(w, FIRSTBITS), t.len[v] - FIRSTBITS);
  }

  lemma {:induction false} SubWindow(s: seq<bit>, p: nat, m: nat)
    requires m <= 6
    ensures Low(Shr(Window(s, p, 15), FIRSTBITS), m) == Window(s, p + FIRSTBITS, m)
  {
    WindowDrop(s, p, FIRSTBITS, 15);
    WindowPrefix(s, p + FIRSTBITS, m, 6);
  }

  /** The entries of the table that a lookup at position p goes through: entry h of the
      head, and entry next of a second table if the code is longer than the head. */
  lemma {:induction false} LookupSteps(t: Table, s: seq<bit>, p: nat, first: nat) returns (h: nat, next: nat)
    requires Safe(t) && first == FIRSTBITS
    ensures h == Window(s, p, first) && h < |t.len| == |t.value| && 0 < t.len[h] <= 15
    ensures t.len[h] <= first ==> Lookup(t, Window(s, p, 15)) == (t.value[h], t.len[h])
    ensures t.len[h] > first ==>
      next == Window(s, p + first, t.len[h] - first) && t.value[h] + next < |t.len| &&
      first < t.len[t.value[h] + next] <= 15 &&
      Lookup(t, Window(s, p, 15)) == (t.value[t.value[h] + next], t.len[t.value[h] + next])
  {
    var w := Window(s, p, 15);
    h := HeadStep(t, s, p, w);
    next := 0;
    if t.len[h] > first { next := SubStep(t, s, p, w, h); }
  }

  lemma {:induction false} HeadStep(t: Table, s: seq<bit>, p: nat, w: nat) returns (h: nat)
    requires Safe(t) && w == Window(s, p, 15)
    ensures h == Low(w, FIRSTBITS) == Window(s, p, FIRSTBITS) && h < HEADSIZE && 0 < t.len[h] <= 15
    ensures t.len[h] <= FIRSTBITS ==> Lookup(t, w) == (t.value[h], t.len[h])
  {
    WindowPrefix(s, p, FIRSTBITS, 15);
    h := Low(w, FIRSTBITS);
    HeadLookup(t, w, h);
  }

  lemma {:induction false} SubStep(t: Table, s: seq<bit>, p: nat, w: nat, h: nat) returns (next: nat)
    requires Safe(t) && w == Window(s, p, 15) && h == Low(w, FIRSTBITS) < HEADSIZE && FIRSTBITS < t.len[h] <= 15
    ensures next == Window(s, p + FIRSTBITS, t.len[h] - FIRSTBITS) && t.value[h] + next < |t.len|
    ensures FIRSTBITS < t.len[t.value[h] + next] <= 15
    ensures Lookup(t, w) == (t.value[t.value[h] + next], t.len[t.value[h] + next])
  {
    SubWindow(s, p, t.len[h] - FIRSTBITS);
    next := Low(Shr(w, FIRSTBITS), t.len[h] - FIRSTBITS);
    SubLookup(t, w, h, next);
  }

  /** huffmanDecodeSymbol, where found is what the lookup gives for the 15 bits at the read
      position. The reader must be right for at least k >= 15 bits. */
  method DecodeSymbol(reader: BitReader, table: Table, ghost found: (nat, nat), ghost k: nat) returns (symbol: nat)
    requires Safe(table) && found == Lookup(table, Window(reader.stream, reader.bp, 15))
    requires 15 <= k && reader.Agrees(k)
    modifies reader
    ensures old(reader.bp) < reader.bp <= old(reader.bp) + 15
    ensures (symbol, reader.bp - old(reader.bp)) == found
    ensures reader.Agrees(k - (reader.bp - old(reader.bp))) && reader.buffer == Shr(old(reader.buffer), reader.bp - old(reader.bp))
  {
    ghost var first: nat := FIRSTBITS;
    ghost var h, next := LookupSteps(table, reader.stream, reader.bp, first);
    symbol := DecodeEntries(reader, table, h, next, found, first, k);
  }

  method DecodeEntries(reader: BitReader, table: Table, ghost h: nat, ghost next: nat, ghost found: (nat, nat),
                       ghost first: nat, ghost k: nat) returns (symbol: nat)
    requires first == FIRSTBITS && 15 <= k && reader.Agrees(k)
    requires h == Window(reader.stream, reader.bp, first) && h < |table.len| == |table.value| && 0 < table.len[h] <= 15
    requires table.len[h] <= first ==> found == (table.value[h], table.len[h])
    requires table.len[h] > first ==>
      next == Window(reader.stream, reader.bp + first, table.len[h] - first) && table.value[h] + next < |table.len| &&
      first < table.len[table.value[h] + next] <= 15 &&
      found == (table.value[table.value[h] + next], table.len[table.value[h] + next])
    modifies reader
    ensures old(reader.bp) < reader.bp <= old(reader.bp) + 15
    ensures (symbol, reader.bp - old(reader.bp)) == found
    ensures reader.Agrees(k - (reader.bp - old(reader.bp))) && reader.buffer == Shr(old(reader.buffer), reader.bp - old(reader.bp))
  {
    var code := reader.PeekAs(FIRSTBITS, h, k);
    var l, value := table.len[code], table.value[code];
    if l <= FIRSTBITS {
      reader.Advance(l, k);
      symbol := value;
    } else {
      symbol := DecodeLong(reader, table, value, l - FIRSTBITS, next, found, first, k);
    }
  }

  /** A code longer than the head of the table: m more bits select the entry of a second
      table. */
  method DecodeLong(reader: BitReader, table: Table, value: nat, m: nat, ghost next: nat, ghost found: (nat, nat),
                    ghost first: nat, ghost k: nat) returns (symbol: nat)
    requires |table.len| == |table.value| && first == FIRSTBITS && m <= 6 && 15 <= k && reader.Agrees(k)
    requires next == Window(reader.stream, reader.bp + first, m) && value + next < |table.len|
    requires FIRSTBITS < table.len[value + next] <= 15 && found == (table.value[value + next], table.len[value + next])
    modifies reader
    ensures old(reader.bp) < reader.bp <= old(reader.bp) + 15
    ensures (symbol, reader.bp - old(reader.bp)) == found
    ensures reader.Agrees(k - (reader.bp - old(reader.bp))) && reader.buffer == Shr(old(reader.buffer), reader.bp - old(reader.bp))
  {
    ghost var word := reader.buffer;
    reader.Advance(FIRSTBITS, k);
    var x := reader.PeekAs(m, next, k - FIRSTBITS);
    symbol := table.value[value + x];
    reader.Advance(table.len[value + x] - FIRSTBITS, k - FIRSTBITS);
    ShrShr(word, FIRSTBITS, table.len[value + x] - FIRSTBITS);
  }

  /** Where the stream continues with the codeword of symbol i, the lookup finds i. */
  lemma {:induction false} CodewordLookup(tree: Tree, ls: seq<nat>, s: seq<bit>, p: nat, i: nat)
    requires tree.For(ls) && i < |ls| && ls[i] > 0
    requires p <= |s| && Codeword(ls, i) <= s[p..]
    ensures Lookup(tree.table, Window(s, p, 15)) == (i, ls[i])
  {
    WindowPrefix(s, p, ls[i], 15);
    WindowIs(s, p, Codeword(ls, i));
    assert tree.alphabet.Starts(Window(s, p, 15), i);
  }
}
