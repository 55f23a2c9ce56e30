/** Reading beyond the end of the input: the look-ahead delivers zero bits there. What the
    decoder reads are the bits of the input followed by zero bytes. */
module ZeroPadding {
  import opened Bits
  import opened CanonicalCode
  import opened HuffmanTable
  import opened HuffmanTree
  import opened DeflateFormat

  const PAD: seq<byte> := [0, 0, 0, 0, 0, 0, 0, 0]

  /** The bits of the input, and 64 zero bits. */
  ghost function Extended(data: seq<byte>): (s: seq<bit>)
    ensures |s| == 8 * |data| + 64
  {
    StreamBits(data + PAD)
  }

  /** The bits b are read from position p, with zeros after the end of the stream. */
  ghost predicate Shows(s: seq<bit>, p: nat, b: seq<bit>) {
    Window(s, p, |b|) == Val(b)
  }

  lemma {:induction false} ShowsConcat(s: seq<bit>, p: nat, a: seq<bit>, b: seq<bit>)
    requires Shows(s, p, a) && Shows(s, p + |a|, b)
    ensures Shows(s, p, a + b)
  {
    var n, k := |a|, |a| + |b|;
    ValSplit(a + b, n);
    assert (a + b)[..n] == a && (a + b)[n..] == b;
    WindowPrefix(s, p, n, k);
    WindowDrop(s, p, n, k);
    ShrLowSplit(Window(s, p, k), n);
    ShrLowSplit(Val(a + b), n);
  }

  lemma {:induction false} ShowsNumber(s: seq<bit>, p: nat, n: nat)
    ensures Window(s, p, n) < Pow2(n) && Shows(s, p, LsbBits(Window(s, p, n), n))
  {
    WindowBound(s, p, n);
    ValLsbBits(Window(s, p, n), n);
    LowSmall(Window(s, p, n), n);
  }

  lemma {:induction false} WindowZeros(s: seq<bit>, z: seq<bit>, p: nat, n: nat)
    requires forall i :: 0 <= i < |z| ==> z[i] == 0
    ensures Window(s + z, p, n) == Window(s, p, n)
    decreases n
  {
    if n > 0 { WindowZeros(s, z, p + 1, n - 1); }
  }

  lemma {:induction false} ZeroBits(b: seq<byte>)
    requires forall i :: 0 <= i < |b| ==> b[i] == 0
    ensures forall i :: 0 <= i < 8 * |b| ==> StreamBits(b)[i] == 0
  {
    if b != [] {
      ZeroBits(b[1..]);
      ZeroByte(8);
    }
  }

  lemma {:induction false} ZeroByte(n: nat)
    ensures forall i :: 0 <= i < n ==> LsbBits(0, n)[i] == 0
  {
    if n > 0 { ZeroByte(n - 1); }
  }

  /** What is read stands in the extended input. */
  lemma {:induction false} ShowsAt(data: seq<byte>, p: nat, b: seq<bit>)
    requires p + |b| <= 8 * |data| + 64
    ensures Shows(StreamBits(data), p, b) <==> At(Extended(data), p, b)
  {
    var t := Extended(data);
    var c := t[p..p + |b|];
    StreamBitsConcat(data, PAD);
    ZeroBits(PAD);
    WindowZeros(StreamBits(data), StreamBits(PAD), p, |b|);
    WindowIs(t, p, c);
    assert t[p..][..|b|] == c;
    if Shows(StreamBits(data), p, b) { ValInjective(b, c); }
    if At(t, p, b) { assert b == t[p..][..|b|]; }
  }

  lemma {:induction false} AtExtended(data: seq<byte>, p: nat, b: seq<bit>)
    requires At(StreamBits(data), p, b)
    ensures At(Extended(data), p, b)
  {
    StreamBitsConcat(data, PAD);
    AtExtend(StreamBits(data), Extended(data), p, b);
  }

  // ---------------------------------------------------------------- symbols

  /** Where a codeword is read, the lookup finds its symbol. */
  lemma {:induction false} ShowsLookup(tree: Tree, ls: seq<nat>, s: seq<bit>, p: nat, i: nat)
    requires tree.For(ls) && Codes(ls, i) && Shows(s, p, Codeword(ls, i))
    ensures Lookup(tree.table, Window(s, p, 15)) == (i, ls[i])
  {
    WindowPrefix(s, p, ls[i], 15);
    assert tree.alphabet.Starts(Window(s, p, 15), i);
  }

  /** Where a window starts with a codeword, that codeword is read. */
  lemma {:induction false} StartsShows(tree: Tree, ls: seq<nat>, s: seq<bit>, p: nat, i: nat)
    requires tree.For(ls) && tree.alphabet.Starts(Window(s, p, 15), i)
    ensures Codes(ls, i) && Shows(s, p, Codeword(ls, i)) && Lookup(tree.table, Window(s, p, 15)) == (i, ls[i])
  {
    WindowPrefix(s, p, ls[i], 15);
  }

  /** If the code is complete, there always is one. */
  lemma {:induction false} LookupShows(tree: Tree, ls: seq<nat>, s: seq<bit>, p: nat) returns (i: nat)
    requires tree.For(ls) && Complete(ls, 15)
    ensures Codes(ls, i) && Shows(s, p, Codeword(ls, i))
    ensures Lookup(tree.table, Window(s, p, 15)) == (i, ls[i])
  {
    var w := Window(s, p, 15);
    i := Exhaustive(ls, 15, LsbBits(w, 15));
    LsbPrefix(w, 15, Codeword(ls, i));
    WindowPrefix(s, p, ls[i], 15);
    ShowsLookup(tree, ls, s, p, i);
  }

  lemma {:induction false} Assoc<T>(a: seq<T>, b: seq<T>, c: seq<T>)
    ensures a + b + c == a + (b + c)
  {
  }
}
