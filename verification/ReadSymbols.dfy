/** Reading one Huffman symbol or one number, when it is known what the stream holds. */
module ReadSymbols {
  import opened Bits
  import opened BitStream
  import opened CanonicalCode
  import opened HuffmanTable
  import opened HuffmanTree
  import opened DeflateFormat
  import opened ZeroPadding

  /** A number of n bits follows. */
  lemma {:induction false} NumberAt(s: seq<bit>, p: nat, v: nat, n: nat)
    requires v < Pow2(n) && At(s, p, LsbBits(v, n))
    ensures Window(s, p, n) == v
  {
    WindowIs(s, p, LsbBits(v, n));
    ValLsbBits(v, n);
    LowSmall(v, n);
  }

  /** The codeword of the symbol was read from p to q, and no other stands there. */
  ghost predicate SymbolRead(ls: seq<nat>, s: seq<bit>, p: nat, q: nat, symbol: nat) {
    Codes(ls, symbol) && Shows(s, p, Codeword(ls, symbol)) && q == p + ls[symbol] &&
    forall j: nat {:trigger Codeword(ls, j)} :: Codes(ls, j) && Shows(s, p, Codeword(ls, j)) ==> j == symbol
  }

  ghost predicate NoSymbol(ls: seq<nat>, s: seq<bit>, p: nat) {
    forall j: nat {:trigger Codeword(ls, j)} :: Codes(ls, j) ==> !Shows(s, p, Codeword(ls, j))
  }

  /** The symbol was read, or no codeword stands there. */
  ghost predicate SymbolSeen(ls: seq<nat>, s: seq<bit>, p: nat, q: nat, symbol: nat) {
    SymbolRead(ls, s, p, q, symbol) || (symbol == INVALIDSYMBOL && NoSymbol(ls, s, p))
  }

  lemma {:induction false} LookupRead(tree: Tree, ls: seq<nat>, s: seq<bit>, p: nat, found: (nat, nat))
    requires tree.For(ls) && found == Lookup(tree.table, Window(s, p, 15))
    ensures SymbolSeen(ls, s, p, p + found.1, found.0)
  {
    var w := Window(s, p, 15);
    if tree.alphabet.Covered(w) {
      var i: nat :| tree.alphabet.Starts(w, i);
      StartsShows(tree, ls, s, p, i);
      forall j: nat | Codes(ls, j) && Shows(s, p, Codeword(ls, j)) ensures j == i {
        ShowsLookup(tree, ls, s, p, j);
      }
    } else {
      forall j: nat | Codes(ls, j) ensures !Shows(s, p, Codeword(ls, j)) { NotShown(tree, ls, s, p, j); }
    }
  }

  lemma {:induction false} NotShown(tree: Tree, ls: seq<nat>, s: seq<bit>, p: nat, j: nat)
    requires tree.For(ls) && Codes(ls, j) && !tree.alphabet.Covered(Window(s, p, 15))
    ensures !Shows(s, p, Codeword(ls, j))
  {
    WindowPrefix(s, p, ls[j], 15);
    if Shows(s, p, Codeword(ls, j)) { assert tree.alphabet.Starts(Window(s, p, 15), j); }
  }

  lemma {:induction false} LookupIs(tree: Tree, ls: seq<nat>, s: seq<bit>, p: nat, i: nat, good: bool) returns (found: (nat, nat))
    requires TreeFor(tree, ls)
    requires good ==> Codes(ls, i) && At(s, p, Codeword(ls, i))
    ensures Safe(tree.table) && found == Lookup(tree.table, Window(s, p, 15))
    ensures good ==> found == (i, ls[i])
    ensures SymbolSeen(ls, s, p, p + found.1, found.0)
  {
    assert tree.For(ls);
    found := Lookup(tree.table, Window(s, p, 15));
    if good { CodewordLookup(tree, ls, s, p, i); }
    LookupRead(tree, ls, s, p, found);
  }

  /** Decodes one symbol: the one whose codeword follows, if zeros may complete it, or the
      invalid symbol. When the codeword of symbol i follows, exactly that is consumed. */
  method ReadSymbol(reader: BitReader, tree: Tree, ghost ls: seq<nat>, ghost i: nat, ghost k: nat, ghost good: bool)
      returns (symbol: nat)
    requires TreeFor(tree, ls) && 15 <= k && reader.Agrees(k)
    requires good ==> Codes(ls, i) && At(reader.stream, reader.bp, Codeword(ls, i))
    modifies reader
    ensures old(reader.bp) < reader.bp <= old(reader.bp) + 15
    ensures reader.Agrees(k - (reader.bp - old(reader.bp))) && reader.buffer == Shr(old(reader.buffer), reader.bp - old(reader.bp))
    ensures good ==> symbol == i && reader.bp == old(reader.bp) + ls[i]
    ensures SymbolSeen(ls, reader.stream, old(reader.bp), reader.bp, symbol)
  {
    ghost var found := LookupIs(tree, ls, reader.stream, reader.bp, i, good);
    symbol := DecodeSymbol(reader, tree.table, found, k);
  }

  /** Adds extra bits to a base value. */
  method ReadExtra(reader: BitReader, base: nat, nbits: nat, ghost v: nat, ghost k: nat, ghost good: bool) returns (r: nat)
    requires nbits < 32 && reader.Agrees(k)
    requires good ==> nbits <= k && v < Pow2(nbits) && At(reader.stream, reader.bp, LsbBits(v, nbits))
    modifies reader
    ensures reader.bp == old(reader.bp) + nbits
    ensures base <= r < base + Pow2(nbits)
    ensures r == base + Low(old(reader.buffer), nbits)
    ensures good ==> r == base + v
    ensures nbits <= k ==> r == base + Window(reader.stream, old(reader.bp), nbits)
    ensures nbits <= k ==> reader.Agrees(k - nbits)
  {
    r := base;
    assert Window(reader.stream, reader.bp, 0) == 0;
    if good { NumberAt(reader.stream, reader.bp, v, nbits); }
    if nbits != 0 {
      var x := reader.ReadBits(nbits, k);
      r := r + x;
    }
  }
}
