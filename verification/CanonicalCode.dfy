/** Canonical Huffman codes from code lengths (section 3.2.2 of RFC 1951). A length of zero
    marks an absent symbol. */
module CanonicalCode {
  import opened Bits

  ghost predicate Bounded(ls: seq<nat>, maxbits: nat) {
    forall i :: 0 <= i < |ls| ==> ls[i] <= maxbits
  }

  /** How many of the first k symbols have length b. */
  function CountLen(ls: seq<nat>, b: nat, k: nat): (r: nat)
    requires k <= |ls|
  {
    if k == 0 then 0 else CountLen(ls, b, k - 1) + if ls[k - 1] == b then 1 else 0
  }

  /** The smallest code of length b. */
  function FirstCode(ls: seq<nat>, b: nat): nat {
    if b <= 1 then 0 else 2 * (FirstCode(ls, b - 1) + CountLen(ls, b - 1, |ls|))
  }

  /** Codes of one length are consecutive, in symbol order. */
  function Code(ls: seq<nat>, i: nat): nat
    requires i < |ls|
  {
    FirstCode(ls, ls[i]) + CountLen(ls, ls[i], i)
  }

  /** The bits written for symbol i. */
  function Codeword(ls: seq<nat>, i: nat): (c: seq<bit>)
    requires i < |ls|
    ensures |c| == ls[i]
  {
    MsbBits(Code(ls, i), ls[i])
  }

  /** The Kraft sum of the first k symbols, scaled by 2^maxbits. */
  function Kraft(ls: seq<nat>, maxbits: nat, k: nat): nat
    requires k <= |ls| && Bounded(ls, maxbits)
  {
    if k == 0 then 0 else Kraft(ls, maxbits, k - 1) + if ls[k - 1] > 0 then Pow2(maxbits - ls[k - 1]) else 0
  }

  /** Every bit string is decodable: the Kraft sum is exactly one. */
  ghost predicate Complete(ls: seq<nat>, maxbits: nat) {
    Bounded(ls, maxbits) && Kraft(ls, maxbits, |ls|) == Pow2(maxbits)
  }

  /** At most one symbol is present. */
  ghost predicate Sparse(ls: seq<nat>) {
    forall i, j :: 0 <= i < |ls| && 0 <= j < |ls| && ls[i] > 0 && ls[j] > 0 ==> i == j
  }

  /** The codes that can be read: every bit string is decodable, or there is at most one
      codeword (section 3.2.7 of RFC 1951 has one distance code use one bit). */
  ghost predicate Decodable(ls: seq<nat>, maxbits: nat) {
    Complete(ls, maxbits) || (Bounded(ls, maxbits) && Sparse(ls))
  }

  /** The same, for use in longer conditions. */
  ghost predicate CanDecode(ls: seq<nat>, maxbits: nat) {
    forall n: nat {:trigger Decodable(ls, n)} :: n == maxbits ==> Decodable(ls, n)
  }

  // ---------------------------------------------------------------- slots

  /* Symbol i owns the slot of all maxbits-bit strings that start with its codeword. Read
     most-significant bit first, slots are consecutive intervals, shorter codes first. */

  /** The total width of the slots of lengths below b, among the first k symbols. */
  ghost function Below(ls: seq<nat>, maxbits: nat, b: nat, k: nat): nat
    requires k <= |ls| && b <= maxbits + 1
    decreases b
  {
    if b <= 1 then 0 else Below(ls, maxbits, b - 1, k) + Shl(CountLen(ls, b - 1, k), maxbits - (b - 1))
  }

  ghost function SlotStart(ls: seq<nat>, maxbits: nat, i: nat): nat
    requires i < |ls| && ls[i] <= maxbits
  {
    Shl(Code(ls, i), maxbits - ls[i])
  }

  ghost predicate InSlot(ls: seq<nat>, maxbits: nat, i: nat, v: nat)
    requires i < |ls| && ls[i] <= maxbits
  {
    SlotStart(ls, maxbits, i) <= v < SlotStart(ls, maxbits, i) + Pow2(maxbits - ls[i])
  }

  lemma {:induction false} BelowStep(ls: seq<nat>, maxbits: nat, b: nat, k: nat)
    requires k < |ls| && b <= maxbits + 1 && ls[k] <= maxbits
    ensures Below(ls, maxbits, b, k + 1)
         == Below(ls, maxbits, b, k) + if 0 < ls[k] < b then Pow2(maxbits - ls[k]) else 0
    decreases b
  {
    if b > 1 {
      BelowStep(ls, maxbits, b - 1, k);
      ShlAdd(CountLen(ls, b - 1, k), 1, maxbits - (b - 1));
      ShlPow2(0, maxbits - (b - 1));
    }
  }

  lemma {:induction false} BelowZero(ls: seq<nat>, maxbits: nat, b: nat)
    requires b <= maxbits + 1
    ensures Below(ls, maxbits, b, 0) == 0
    decreases b
  {
    if b > 1 {
      BelowZero(ls, maxbits, b - 1);
      ShlIsMul(0, maxbits - (b - 1));
    }
  }

  /** All slots together have the width of the Kraft sum. */
  lemma {:induction false} BelowAll(ls: seq<nat>, maxbits: nat, k: nat)
    requires k <= |ls| && Bounded(ls, maxbits)
    ensures Below(ls, maxbits, maxbits + 1, k) == Kraft(ls, maxbits, k)
    decreases k
  {
    if k == 0 {
      BelowZero(ls, maxbits, maxbits + 1);
    } else {
      BelowAll(ls, maxbits, k - 1);
      BelowStep(ls, maxbits, maxbits + 1, k - 1);
    }
  }

  lemma {:induction false} BelowMono(ls: seq<nat>, maxbits: nat, a: nat, b: nat)
    requires a <= b <= maxbits + 1
    ensures Below(ls, maxbits, a, |ls|) <= Below(ls, maxbits, b, |ls|)
    decreases b - a
  {
    if a < b { BelowMono(ls, maxbits, a, b - 1); }
  }

  lemma {:induction false} FirstCodeBelow(ls: seq<nat>, maxbits: nat, b: nat)
    requires 0 < b <= maxbits
    ensures Shl(FirstCode(ls, b), maxbits - b) == Below(ls, maxbits, b, |ls|)
    decreases b
  {
    if b == 1 {
      ShlIsMul(0, maxbits - b);
    } else {
      FirstCodeBelow(ls, maxbits, b - 1);
      var x := FirstCode(ls, b - 1) + CountLen(ls, b - 1, |ls|);
      ShlShl(x, 1, maxbits - b);
      assert Shl(x, 1) == 2 * Shl(x, 0);
      ShlAdd(FirstCode(ls, b - 1), CountLen(ls, b - 1, |ls|), maxbits - (b - 1));
    }
  }

  lemma {:induction false} CountLenMono(ls: seq<nat>, b: nat, i: nat, k: nat)
    requires i <= k <= |ls|
    ensures CountLen(ls, b, i) <= CountLen(ls, b, k)
    ensures i < k && ls[i] == b ==> CountLen(ls, b, i) < CountLen(ls, b, k)
    decreases k - i
  {
    if i < k { CountLenMono(ls, b, i + 1, k); }
  }

  /** A slot lies after all slots of shorter lengths and before all slots of longer ones. */
  lemma {:induction false} SlotBounds(ls: seq<nat>, maxbits: nat, i: nat)
    requires i < |ls| && 0 < ls[i] <= maxbits
    ensures SlotStart(ls, maxbits, i)
         == Below(ls, maxbits, ls[i], |ls|) + Shl(CountLen(ls, ls[i], i), maxbits - ls[i])
    ensures SlotStart(ls, maxbits, i) + Pow2(maxbits - ls[i]) <= Below(ls, maxbits, ls[i] + 1, |ls|)
  {
    var b := ls[i];
    FirstCodeBelow(ls, maxbits, b);
    ShlAdd(FirstCode(ls, b), CountLen(ls, b, i), maxbits - b);
    CountLenMono(ls, b, i, |ls|);
    ShlMono(CountLen(ls, b, i), CountLen(ls, b, |ls|), maxbits - b);
  }

  lemma {:induction false} SlotsDisjoint(ls: seq<nat>, maxbits: nat, i: nat, j: nat, v: nat)
    requires i < |ls| && 0 < ls[i] <= maxbits && j < |ls| && 0 < ls[j] <= maxbits
    requires InSlot(ls, maxbits, i, v) && InSlot(ls, maxbits, j, v)
    ensures i == j
  {
    SlotBounds(ls, maxbits, i);
    SlotBounds(ls, maxbits, j);
    if ls[i] < ls[j] {
      BelowMono(ls, maxbits, ls[i] + 1, ls[j]);
    } else if ls[j] < ls[i] {
      BelowMono(ls, maxbits, ls[j] + 1, ls[i]);
    } else if i < j {
      CountLenMono(ls, ls[i], i, j);
      ShlMono(CountLen(ls, ls[i], i), CountLen(ls, ls[i], j), maxbits - ls[i]);
    } else if j < i {
      CountLenMono(ls, ls[j], j, i);
      ShlMono(CountLen(ls, ls[j], j), CountLen(ls, ls[j], i), maxbits - ls[j]);
    }
  }

  /** The length class whose slots contain v. */
  lemma {:induction false} FindLength(ls: seq<nat>, maxbits: nat, v: nat, b: nat) returns (c: nat)
    requires 1 <= b <= maxbits + 1 && v < Below(ls, maxbits, b, |ls|)
    ensures 0 < c <= maxbits
    ensures Below(ls, maxbits, c, |ls|) <= v < Below(ls, maxbits, c + 1, |ls|)
    decreases b
  {
    if Below(ls, maxbits, b - 1, |ls|) <= v {
      c := b - 1;
    } else {
      c := FindLength(ls, maxbits, v, b - 1);
    }
  }

  /** The q-th symbol of length b. */
  lemma {:induction false} FindSymbol(ls: seq<nat>, b: nat, q: nat, k: nat) returns (i: nat)
    requires k <= |ls| && q < CountLen(ls, b, k)
    ensures i < k && ls[i] == b && CountLen(ls, b, i) == q
    decreases k
  {
    if CountLen(ls, b, k - 1) <= q {
      i := k - 1;
    } else {
      i := FindSymbol(ls, b, q, k - 1);
    }
  }

  lemma {:induction false} SlotsCover(ls: seq<nat>, maxbits: nat, v: nat) returns (i: nat)
    requires Bounded(ls, maxbits) && v < Kraft(ls, maxbits, |ls|)
    ensures i < |ls| && ls[i] > 0 && InSlot(ls, maxbits, i, v)
  {
    BelowAll(ls, maxbits, |ls|);
    var b := FindLength(ls, maxbits, v, maxbits + 1);
    var n := maxbits - b;
    var r := v - Below(ls, maxbits, b, |ls|);
    ShrLowSplit(r, n);
    var q, count := Shr(r, n), CountLen(ls, b, |ls|);
    assert q < count by {
      if q > count { ShlMono(count, q, n); }
    }
    i := FindSymbol(ls, b, q, |ls|);
    SlotBounds(ls, maxbits, i);
  }

  // ---------------------------------------------------------------- codewords

  /** With a Kraft sum of at most one every code fits its length. */
  lemma {:induction false} CodeFits(ls: seq<nat>, maxbits: nat, i: nat)
    requires Bounded(ls, maxbits) && Kraft(ls, maxbits, |ls|) <= Pow2(maxbits)
    requires i < |ls| && ls[i] > 0
    ensures Code(ls, i) < Pow2(ls[i])
  {
    SlotBounds(ls, maxbits, i);
    BelowMono(ls, maxbits, ls[i] + 1, maxbits + 1);
    BelowAll(ls, maxbits, |ls|);
    ShlPow2(ls[i], maxbits - ls[i]);
    if Code(ls, i) > Pow2(ls[i]) { ShlMono(Pow2(ls[i]), Code(ls, i), maxbits - ls[i]); }
  }

  /** A bit string starts with a codeword exactly when its value is in the slot. */
  lemma {:induction false} PrefixIsSlot(ls: seq<nat>, maxbits: nat, i: nat, s: seq<bit>)
    requires Bounded(ls, maxbits) && Kraft(ls, maxbits, |ls|) <= Pow2(maxbits)
    requires i < |ls| && ls[i] > 0 && |s| == maxbits
    ensures Codeword(ls, i) <= s <==> InSlot(ls, maxbits, i, MsbVal(s))
  {
    var l := ls[i];
    var n := maxbits - l;
    CodeFits(ls, maxbits, i);
    MsbValBits(Code(ls, i), l);
    var a, b := s[..l], s[l..];
    assert s == a + b;
    MsbValConcat(a, b);
    var x, y := Code(ls, i), MsbVal(a);
    assert Codeword(ls, i) <= s <==> Codeword(ls, i) == a;
    if x < y {
      ShlMono(x, y, n);
    } else if y < x {
      ShlMono(y, x, n);
    } else {
      MsbBitsVal(a);
    }
  }

  function Zeros(n: nat): (s: seq<bit>)
    ensures |s| == n
  {
    seq(n, i => 0)
  }

  /** No codeword is a prefix of another. */
  lemma {:induction false} PrefixFree(ls: seq<nat>, maxbits: nat, i: nat, j: nat)
    requires Bounded(ls, maxbits) && Kraft(ls, maxbits, |ls|) <= Pow2(maxbits)
    requires i < |ls| && ls[i] > 0 && j < |ls| && ls[j] > 0
    requires Codeword(ls, i) <= Codeword(ls, j)
    ensures i == j
  {
    var s := Codeword(ls, j) + Zeros(maxbits - ls[j]);
    PrefixIsSlot(ls, maxbits, i, s);
    PrefixIsSlot(ls, maxbits, j, s);
    SlotsDisjoint(ls, maxbits, i, j, MsbVal(s));
  }

  /** The maximum length may be chosen larger. */
  lemma {:induction false} KraftScale(ls: seq<nat>, maxbits: nat, d: nat, k: nat)
    requires Bounded(ls, maxbits) && k <= |ls|
    ensures Bounded(ls, maxbits + d) && Kraft(ls, maxbits + d, k) == Shl(Kraft(ls, maxbits, k), d)
    decreases k
  {
    if k == 0 {
      ShlIsMul(0, d);
    } else {
      KraftScale(ls, maxbits, d, k - 1);
      if ls[k - 1] > 0 {
        ShlAdd(Kraft(ls, maxbits, k - 1), Pow2(maxbits - ls[k - 1]), d);
        ShlPow2(maxbits - ls[k - 1], d);
      }
    }
  }

  lemma {:induction false} CompleteScale(ls: seq<nat>, maxbits: nat, d: nat)
    requires Complete(ls, maxbits)
    ensures Complete(ls, maxbits + d)
  {
    KraftScale(ls, maxbits, d, |ls|);
    ShlPow2(maxbits, d);
  }

  /** Every bit string of the maximum length starts with a codeword. */
  lemma {:induction false} Exhaustive(ls: seq<nat>, maxbits: nat, s: seq<bit>) returns (i: nat)
    requires Complete(ls, maxbits) && |s| == maxbits
    ensures i < |ls| && ls[i] > 0 && Codeword(ls, i) <= s
  {
    i := SlotsCover(ls, maxbits, MsbVal(s));
    PrefixIsSlot(ls, maxbits, i, s);
  }

  // ---------------------------------------------------------------- too many codes

  /** If the Kraft sum exceeds one, some code is the first that does not fit its length. */
  lemma {:induction false} Overflow(ls: seq<nat>, maxbits: nat) returns (i: nat)
    requires Bounded(ls, maxbits) && Kraft(ls, maxbits, |ls|) > Pow2(maxbits)
    ensures i < |ls| && ls[i] > 0 && Code(ls, i) == Pow2(ls[i])
  {
    i := SlotsCover(ls, maxbits, Pow2(maxbits));
    var n, l := maxbits - ls[i], ls[i];
    ShlPow2(l, n);
    if Code(ls, i) < Pow2(l) {
      ShlMono(Code(ls, i), Pow2(l), n);
    } else if Code(ls, i) > Pow2(l) {
      ShlMono(Pow2(l), Code(ls, i), n);
    }
  }

  lemma {:induction false} NoneOfLength(ls: seq<nat>, b: nat, k: nat)
    requires k <= |ls| && forall i :: 0 <= i < k ==> ls[i] != b
    ensures CountLen(ls, b, k) == 0
    decreases k
  {
    if k > 0 { NoneOfLength(ls, b, k - 1); }
  }

  lemma {:induction false} FirstIsZero(ls: seq<nat>, b: nat)
    requires forall i :: 0 <= i < |ls| ==> ls[i] == 0 || ls[i] >= b
    ensures FirstCode(ls, b) == 0
    decreases b
  {
    if b > 1 {
      FirstIsZero(ls, b - 1);
      NoneOfLength(ls, b - 1, |ls|);
    }
  }

  /** The first of the shortest codes among the first k symbols. */
  lemma {:induction false} Shortest(ls: seq<nat>, k: nat) returns (j: nat)
    requires k <= |ls| && exists i :: 0 <= i < k && ls[i] > 0
    ensures j < k && ls[j] > 0 && forall i :: 0 <= i < k ==> ls[i] == 0 || ls[i] >= ls[j]
    ensures forall i :: 0 <= i < j ==> ls[i] != ls[j]
    decreases k
  {
    if exists i :: 0 <= i < k - 1 && ls[i] > 0 {
      j := Shortest(ls, k - 1);
      if 0 < ls[k - 1] < ls[j] { j := k - 1; }
    } else {
      j := k - 1;
    }
  }

  /** Its code is zero. */
  lemma {:induction false} ShortestIsZero(ls: seq<nat>, i: nat) returns (j: nat)
    requires i < |ls| && ls[i] > 0
    ensures j < |ls| && ls[j] > 0 && Code(ls, j) == 0 && forall k :: 0 <= k < |ls| ==> ls[k] == 0 || ls[k] >= ls[j]
  {
    j := Shortest(ls, |ls|);
    FirstIsZero(ls, ls[j]);
    NoneOfLength(ls, ls[j], j);
  }

  lemma {:induction false} KraftLong(ls: seq<nat>, maxbits: nat, b: nat, k: nat)
    requires Bounded(ls, maxbits) && k <= |ls| && b <= maxbits && forall i :: 0 <= i < |ls| ==> ls[i] == 0 || ls[i] >= b
    ensures Kraft(ls, maxbits, k) <= k * Pow2(maxbits - b)
    decreases k
  {
    if k > 0 {
      KraftLong(ls, maxbits, b, k - 1);
      if ls[k - 1] > 0 { Pow2Mono(maxbits - ls[k - 1], maxbits - b); }
      assert k * Pow2(maxbits - b) == (k - 1) * Pow2(maxbits - b) + Pow2(maxbits - b);
    }
  }

  lemma {:induction false} KraftNone(ls: seq<nat>, maxbits: nat, k: nat)
    requires Bounded(ls, maxbits) && k <= |ls| && forall i :: 0 <= i < k ==> ls[i] == 0
    ensures Kraft(ls, maxbits, k) == 0
    decreases k
  {
    if k > 0 { KraftNone(ls, maxbits, k - 1); }
  }

  lemma {:induction false} SparseKraft(ls: seq<nat>, maxbits: nat, k: nat)
    requires Bounded(ls, maxbits) && k <= |ls| && Sparse(ls)
    ensures Kraft(ls, maxbits, k) <= Pow2(maxbits)
    decreases k
  {
    if k > 0 {
      if ls[k - 1] > 0 {
        KraftNone(ls, maxbits, k - 1);
        Pow2Mono(maxbits - ls[k - 1], maxbits);
      } else {
        SparseKraft(ls, maxbits, k - 1);
      }
    }
  }

  lemma {:induction false} DecodableKraft(ls: seq<nat>, maxbits: nat)
    requires Decodable(ls, maxbits)
    ensures Bounded(ls, maxbits) && Kraft(ls, maxbits, |ls|) <= Pow2(maxbits)
  {
    if Sparse(ls) { SparseKraft(ls, maxbits, |ls|); }
  }

  /** A slot ends within the Kraft sum. */
  lemma {:induction false} SlotInKraft(ls: seq<nat>, maxbits: nat, i: nat)
    requires Bounded(ls, maxbits) && i < |ls| && ls[i] > 0
    ensures SlotStart(ls, maxbits, i) + Pow2(maxbits - ls[i]) <= Kraft(ls, maxbits, |ls|)
  {
    SlotBounds(ls, maxbits, i);
    BelowMono(ls, maxbits, ls[i] + 1, maxbits + 1);
    BelowAll(ls, maxbits, |ls|);
  }

  /** A code that is complete with more bits is complete. */
  lemma {:induction false} CompleteUnscale(ls: seq<nat>, maxbits: nat, d: nat)
    requires Bounded(ls, maxbits) && Complete(ls, maxbits + d)
    ensures Complete(ls, maxbits)
  {
    KraftScale(ls, maxbits, d, |ls|);
    ShlPow2(maxbits, d);
    LowShl(Kraft(ls, maxbits, |ls|), d);
    LowShl(Pow2(maxbits), d);
  }

  // ---------------------------------------------------------------- absent symbols

  /** Absent symbols at the end of the alphabet do not change the code. */
  lemma {:induction false} PadCode(ls: seq<nat>, pad: seq<nat>, maxbits: nat)
    requires Bounded(ls, maxbits) && forall i :: 0 <= i < |pad| ==> pad[i] == 0
    ensures Complete(ls + pad, maxbits) <==> Complete(ls, maxbits)
    ensures Decodable(ls + pad, maxbits) <==> Decodable(ls, maxbits)
    ensures forall i :: 0 <= i < |ls| && ls[i] > 0 ==> Codeword(ls + pad, i) == Codeword(ls, i)
  {
    forall b: nat | b > 0 ensures CountLen(ls + pad, b, |ls + pad|) == CountLen(ls, b, |ls|) {
      PadCount(ls, pad, b, |ls + pad|);
    }
    forall i | 0 <= i < |ls| && ls[i] > 0 ensures Codeword(ls + pad, i) == Codeword(ls, i) {
      PadFirstCode(ls, pad, ls[i]);
      PadCount(ls, pad, ls[i], i);
    }
    PadKraft(ls, pad, maxbits, |ls + pad|);
    PadSparse(ls, pad);
  }

  lemma {:induction false} PadSparse(ls: seq<nat>, pad: seq<nat>)
    requires forall i :: 0 <= i < |pad| ==> pad[i] == 0
    ensures Sparse(ls + pad) <==> Sparse(ls)
  {
    var all := ls + pad;
    if Sparse(all) {
      forall i, j | 0 <= i < |ls| && 0 <= j < |ls| && ls[i] > 0 && ls[j] > 0 ensures i == j {
        assert all[i] == ls[i] && all[j] == ls[j];
      }
    }
    if Sparse(ls) {
      forall i, j | 0 <= i < |all| && 0 <= j < |all| && all[i] > 0 && all[j] > 0 ensures i == j {
        assert i < |ls| && j < |ls|;
      }
    }
  }

  lemma {:induction false} PadCount(ls: seq<nat>, pad: seq<nat>, b: nat, k: nat)
    requires b > 0 && k <= |ls + pad| && forall i :: 0 <= i < |pad| ==> pad[i] == 0
    ensures CountLen(ls + pad, b, k) == CountLen(ls, b, Min(k, |ls|))
    decreases k
  {
    if k > 0 { PadCount(ls, pad, b, k - 1); }
  }

  lemma {:induction false} PadFirstCode(ls: seq<nat>, pad: seq<nat>, b: nat)
    requires forall c: nat :: c > 0 ==> CountLen(ls + pad, c, |ls + pad|) == CountLen(ls, c, |ls|)
    ensures FirstCode(ls + pad, b) == FirstCode(ls, b)
    decreases b
  {
    if b > 1 { PadFirstCode(ls, pad, b - 1); }
  }

  lemma {:induction false} PadKraft(ls: seq<nat>, pad: seq<nat>, maxbits: nat, k: nat)
    requires Bounded(ls, maxbits) && k <= |ls + pad| && forall i :: 0 <= i < |pad| ==> pad[i] == 0
    ensures Bounded(ls + pad, maxbits)
    ensures Kraft(ls + pad, maxbits, k) == Kraft(ls, maxbits, Min(k, |ls|))
    decreases k
  {
    if k > 0 { PadKraft(ls, pad, maxbits, k - 1); }
  }

  // ---------------------------------------------------------------- code assignment

  /** Step 1 of HuffmanTree_makeFromLengths2. */
  method CountLengths(lengths: seq<nat>, blcount: array<nat>)
    requires blcount.Length > 0 && Bounded(lengths, blcount.Length - 1)
    requires forall b :: 0 <= b < blcount.Length ==> blcount[b] == 0
    modifies blcount
    ensures forall b :: 0 <= b < blcount.Length ==> blcount[b] == CountLen(lengths, b, |lengths|)
  {
    var n := 0;
    while n != |lengths|
      invariant n <= |lengths|
      invariant forall b :: 0 <= b < blcount.Length ==> blcount[b] == CountLen(lengths, b, n)
    {
      blcount[lengths[n]] := blcount[lengths[n]] + 1;
      n := n + 1;
    }
  }

  /** Step 2: absent symbols are counted too, which offsets every next code by a multiple of
      two to the power of its length. */
  method FirstCodes(lengths: seq<nat>, blcount: array<nat>, nextcode: array<nat>)
    requires blcount != nextcode && 0 < blcount.Length == nextcode.Length
    requires forall b :: 0 <= b < blcount.Length ==> blcount[b] == CountLen(lengths, b, |lengths|)
    requires nextcode[0] == 0
    modifies nextcode
    ensures forall b :: 1 <= b < nextcode.Length ==> nextcode[b] == NextCode(lengths, b, 0)
  {
    var bits := 1;
    while bits < nextcode.Length
      invariant 1 <= bits <= nextcode.Length && nextcode[0] == 0
      invariant forall b :: 1 <= b < bits ==> nextcode[b] == NextCode(lengths, b, 0)
    {
      nextcode[bits] := 2 * (nextcode[bits - 1] + blcount[bits - 1]);
      assert Shl(blcount[0], 1) == 2 * Shl(blcount[0], 0);
      bits := bits + 1;
    }
  }

  /** The entry of length b after the first n symbols took their codes. */
  function NextCode(ls: seq<nat>, b: nat, n: nat): nat
    requires n <= |ls|
  {
    FirstCode(ls, b) + Shl(CountLen(ls, 0, |ls|), b) + CountLen(ls, b, n)
  }

  /** c is the code of symbol i, without bits that do not fit its length. */
  ghost predicate IsCode(ls: seq<nat>, i: nat, c: nat)
    requires i < |ls|
  {
    c == Low(Code(ls, i), ls[i])
  }

  lemma {:induction false} NextCodeMasked(ls: seq<nat>, n: nat, next: nat)
    requires n < |ls| && next == NextCode(ls, ls[n], n)
    ensures IsCode(ls, n, And(next, Pow2(ls[n]) - 1))
  {
    AndMask(next, ls[n]);
    LowAddShl(Code(ls, n), CountLen(ls, 0, |ls|), ls[n]);
  }

  /** Steps 1 to 3 of HuffmanTree_makeFromLengths2; masking the code removes the offset. */
  method AssignCodes(lengths: seq<nat>, maxbitlen: nat) returns (codes: seq<nat>)
    requires Bounded(lengths, maxbitlen)
    ensures |codes| == |lengths|
    ensures forall i :: 0 <= i < |lengths| ==> IsCode(lengths, i, codes[i])
  {
    var blcount := new nat[maxbitlen + 1](_ => 0);
    var nextcode := new nat[maxbitlen + 1](_ => 0);
    CountLengths(lengths, blcount);
    FirstCodes(lengths, blcount, nextcode);
    codes := [];
    while |codes| != |lengths|
      invariant |codes| <= |lengths|
      invariant forall b :: 1 <= b <= maxbitlen ==> nextcode[b] == NextCode(lengths, b, |codes|)
      invariant forall i :: 0 <= i < |codes| ==> IsCode(lengths, i, codes[i])
    {
      var n := |codes|;
      var l := lengths[n];
      var code := 0;
      if l != 0 {
        NextCodeMasked(lengths, n, nextcode[l]);
        code := And(nextcode[l], Pow2(l) - 1);
        nextcode[l] := nextcode[l] + 1;
      }
      codes := codes + [code];
    }
  }
}
