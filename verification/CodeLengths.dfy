/** lodepng_huffman_code_lengths: length-limited Huffman code lengths from symbol
    frequencies. */
module CodeLengths {
  import opened Bits
  import opened CanonicalCode
  import opened GreedyMerge
  import opened PackageMerge
  import opened NodePool
  import opened BoundaryPM
  import opened LeafSort

  // ---------------------------------------------------------------- leaves

  /** The present ones among the first k symbols, in symbol order. */
  function Leaves(frequencies: seq<nat>, k: nat): (s: seq<Leaf>)
    requires k <= |frequencies|
    ensures |s| <= k
  {
    if k == 0 then []
    else if frequencies[k - 1] > 0 then Leaves(frequencies, k - 1) + [Leaf(frequencies[k - 1], k - 1)]
    else Leaves(frequencies, k - 1)
  }

  ghost predicate LeafOf(frequencies: seq<nat>, k: nat, x: Leaf) {
    x.symbol < k && k <= |frequencies| && x.weight == frequencies[x.symbol] && x.weight > 0
  }

  lemma {:induction false} LeavesAre(frequencies: seq<nat>, k: nat)
    requires k <= |frequencies|
    ensures forall i :: 0 <= i < |Leaves(frequencies, k)| ==> LeafOf(frequencies, k, Leaves(frequencies, k)[i])
    ensures Distinct(Leaves(frequencies, k))
    decreases k
  {
    if k > 0 {
      LeavesAre(frequencies, k - 1);
      var s := Leaves(frequencies, k - 1);
      forall i | 0 <= i < |Leaves(frequencies, k)| ensures LeafOf(frequencies, k, Leaves(frequencies, k)[i]) {
        assert i < |s| ==> LeafOf(frequencies, k - 1, s[i]);
      }
    }
  }

  lemma {:induction false} SymbolHasLeaf(frequencies: seq<nat>, k: nat, i: nat)
    requires i < k <= |frequencies| && frequencies[i] > 0
    ensures Leaf(frequencies[i], i) in Leaves(frequencies, k)
    decreases k
  {
    if i < k - 1 { SymbolHasLeaf(frequencies, k - 1, i); }
  }

  ghost predicate Distinct(s: seq<Leaf>) {
    forall i, j :: 0 <= i < j < |s| ==> s[i].symbol != s[j].symbol
  }

  lemma {:induction false} Multiplicity(s: seq<Leaf>, x: Leaf)
    requires Distinct(s)
    ensures multiset(s)[x] <= 1
  {
    if s != [] {
      var t := s[..|s| - 1];
      Multiplicity(t, x);
      assert s == t + [s[|s| - 1]];
      if x in t {
        assert x != s[|s| - 1];
      }
    }
  }

  /** The sorted leaves still are the present symbols, each once. */
  lemma {:induction false} SortedLeaves(frequencies: seq<nat>, s: seq<Leaf>)
    requires multiset(s) == multiset(Leaves(frequencies, |frequencies|))
    ensures |s| == |Leaves(frequencies, |frequencies|)|
    ensures Distinct(s)
    ensures forall i :: 0 <= i < |s| ==> LeafOf(frequencies, |frequencies|, s[i])
  {
    var n := |frequencies|;
    var l := Leaves(frequencies, n);
    LeavesAre(frequencies, n);
    assert |s| == |multiset(s)| == |multiset(l)| == |l|;
    forall i | 0 <= i < |s| ensures LeafOf(frequencies, n, s[i]) {
      assert s[i] in multiset(l);
      assert s[i] in l;
    }
    forall i, j | 0 <= i < j < |s| ensures s[i].symbol != s[j].symbol {
      if s[i].symbol == s[j].symbol {
        assert LeafOf(frequencies, n, s[i]) && LeafOf(frequencies, n, s[j]);
        Twice(s, i, j);
        Multiplicity(l, s[i]);
      }
    }
  }

  lemma {:induction false} Twice(s: seq<Leaf>, i: nat, j: nat)
    requires i < j < |s| && s[i] == s[j]
    ensures multiset(s)[s[i]] >= 2
  {
    assert s == s[..j] + s[j..];
    assert s[i] in s[..j] && s[j] in s[j..];
  }

  /** Every present symbol has its place in the sorted leaves. */
  lemma {:induction false} PlaceOf(frequencies: seq<nat>, s: seq<Leaf>, x: nat) returns (i: nat)
    requires multiset(s) == multiset(Leaves(frequencies, |frequencies|))
    requires x < |frequencies| && frequencies[x] > 0
    ensures i < |s| && s[i].symbol == x
  {
    SymbolHasLeaf(frequencies, |frequencies|, x);
    assert Leaf(frequencies[x], x) in multiset(s);
    assert Leaf(frequencies[x], x) in s;
    i :| 0 <= i < |s| && s[i] == Leaf(frequencies[x], x);
  }

  // ---------------------------------------------------------------- sums over leaves

  ghost function Total(s: seq<Leaf>, f: Leaf -> int): int {
    if s == [] then 0 else Total(s[..|s| - 1], f) + f(s[|s| - 1])
  }

  lemma {:induction false} TotalLast(r: seq<Leaf>, f: Leaf -> int)
    requires r != []
    ensures Total(r, f) == Total(r[..|r| - 1], f) + f(r[|r| - 1])
  {
  }

  lemma {:induction false} TotalRemove(s: seq<Leaf>, f: Leaf -> int, j: nat)
    requires j < |s|
    ensures Total(s, f) == Total(s[..j] + s[j + 1..], f) + f(s[j])
  {
    var t := s[..|s| - 1];
    var r := s[..j] + s[j + 1..];
    TotalLast(s, f);
    if j == |s| - 1 {
      assert r == t;
    } else {
      TotalRemove(t, f, j);
      LastStays(s, j);
      TotalLast(r, f);
    }
  }

  lemma {:induction false} LastStays(s: seq<Leaf>, j: nat)
    requires j + 1 < |s|
    ensures var t, r := s[..|s| - 1], s[..j] + s[j + 1..];
            r[..|r| - 1] == t[..j] + t[j + 1..] && r[|r| - 1] == s[|s| - 1]
  {
  }

  lemma {:induction false} RemoveOne(a: seq<Leaf>, b: seq<Leaf>, j: nat)
    requires a != [] && multiset(a) == multiset(b) && j < |b| && b[j] == a[|a| - 1]
    ensures multiset(a[..|a| - 1]) == multiset(b[..j] + b[j + 1..])
  {
    Split(a, |a| - 1);
    Split(b, j);
    assert a[|a|..] == [];
  }

  lemma {:induction false} Split(s: seq<Leaf>, j: nat)
    requires j < |s|
    ensures multiset(s[..j] + s[j + 1..]) == multiset(s) - multiset{s[j]}
    ensures multiset(s[..j]) + multiset(s[j + 1..]) == multiset(s) - multiset{s[j]}
  {
    assert s == s[..j] + ([s[j]] + s[j + 1..]);
  }

  /** The order of the leaves does not matter. */
  lemma {:induction false} TotalPermuted(a: seq<Leaf>, b: seq<Leaf>, f: Leaf -> int)
    requires multiset(a) == multiset(b)
    ensures Total(a, f) == Total(b, f)
    decreases |a|
  {
    assert |a| == |multiset(a)| == |multiset(b)| == |b|;
    if a != [] {
      var x, t := a[|a| - 1], a[..|a| - 1];
      assert a == t + [x];
      assert x in multiset(b);
      assert x in b;
      var j :| 0 <= j < |b| && b[j] == x;
      TotalRemove(b, f, j);
      RemoveOne(a, b, j);
      TotalPermuted(t, b[..j] + b[j + 1..], f);
    }
  }

  /** What a leaf adds to the Kraft sum of the code lengths ls. */
  ghost function KraftTerm(ls: seq<nat>, maxbits: nat): Leaf -> int {
    (x: Leaf) => if x.symbol < |ls| && 0 < ls[x.symbol] <= maxbits then Pow2(maxbits - ls[x.symbol]) else 0
  }

  /** What it adds to the size of the coded message. */
  ghost function CostTerm(ls: seq<nat>): Leaf -> int {
    (x: Leaf) => if x.symbol < |ls| then x.weight * ls[x.symbol] else 0
  }

  /** ls gives a code to exactly the present symbols. */
  ghost predicate CodesPresent(frequencies: seq<nat>, ls: seq<nat>, maxbits: nat) {
    |ls| == |frequencies| && Bounded(ls, maxbits) &&
    forall i :: 0 <= i < |ls| ==> (ls[i] > 0 <==> frequencies[i] > 0)
  }

  /** The number of bits that a message takes in which symbol i occurs frequencies[i] times. */
  ghost function MessageBits(frequencies: seq<nat>, ls: seq<nat>, k: nat): nat
    requires k <= |ls| == |frequencies|
  {
    if k == 0 then 0 else MessageBits(frequencies, ls, k - 1) + frequencies[k - 1] * ls[k - 1]
  }

  /** The lengths give every present symbol a code, of at most maxbits bits, and are possible
      for a prefix code. */
  ghost predicate Serviceable(frequencies: seq<nat>, ls: seq<nat>, maxbits: nat) {
    |ls| == |frequencies| && Bounded(ls, maxbits) && Kraft(ls, maxbits, |ls|) <= Pow2(maxbits) &&
    forall i :: 0 <= i < |ls| && frequencies[i] > 0 ==> ls[i] > 0
  }

  /** No other code takes fewer bits. */
  ghost predicate Cheapest(frequencies: seq<nat>, ls: seq<nat>, maxbits: nat) {
    |ls| == |frequencies| &&
    forall other :: Serviceable(frequencies, other, maxbits) ==>
      MessageBits(frequencies, ls, |ls|) <= MessageBits(frequencies, other, |ls|)
  }

  lemma {:induction false} TotalsOfLeaves(frequencies: seq<nat>, ls: seq<nat>, maxbits: nat, k: nat)
    requires |ls| == |frequencies| && Bounded(ls, maxbits) && k <= |ls|
    ensures Total(Leaves(frequencies, k), KraftTerm(ls, maxbits)) <= Kraft(ls, maxbits, k)
    ensures CodesPresent(frequencies, ls, maxbits) ==>
      Total(Leaves(frequencies, k), KraftTerm(ls, maxbits)) == Kraft(ls, maxbits, k)
    ensures Total(Leaves(frequencies, k), CostTerm(ls)) == MessageBits(frequencies, ls, k)
    decreases k
  {
    if k > 0 {
      TotalsOfLeaves(frequencies, ls, maxbits, k - 1);
      var s := Leaves(frequencies, k);
      if frequencies[k - 1] > 0 { assert s[..|s| - 1] == Leaves(frequencies, k - 1); }
    }
  }

  /** The lengths of the leaves, in their order. */
  ghost function LeafLengths(s: seq<Leaf>, ls: seq<nat>): (r: seq<nat>)
    requires forall i :: 0 <= i < |s| ==> s[i].symbol < |ls|
    ensures |r| == |s|
  {
    seq(|s|, i requires 0 <= i < |s| => ls[s[i].symbol])
  }

  lemma {:induction false} TotalsOfSorted(s: seq<Leaf>, ls: seq<nat>, maxbits: nat, m: nat)
    requires m <= |s| && forall i :: 0 <= i < |s| ==> s[i].symbol < |ls|
    requires Bounded(LeafLengths(s, ls), maxbits)
    ensures Total(s[..m], KraftTerm(ls, maxbits)) == Kraft(LeafLengths(s, ls), maxbits, m)
    ensures Total(s[..m], CostTerm(ls)) == Cost(Weights(s), LeafLengths(s, ls), m)
    decreases m
  {
    if m > 0 {
      TotalsOfSorted(s, ls, maxbits, m - 1);
      assert s[..m][..m - 1] == s[..m - 1];
    }
  }

  /** Leaf i of s has the length that the chain gives it. */
  ghost predicate ReadOff(s: seq<Leaf>, ls: seq<nat>, ch: Chain) {
    forall i :: 0 <= i < |s| ==> s[i].symbol < |ls| && ls[s[i].symbol] == Length(ch, i)
  }

  /** The leaves and the symbols give the same sums. */
  lemma {:induction false} SortedTotals(frequencies: seq<nat>, s: seq<Leaf>, ls: seq<nat>, maxbits: nat)
    requires multiset(s) == multiset(Leaves(frequencies, |frequencies|))
    requires |ls| == |frequencies| && Bounded(ls, maxbits)
    ensures forall i :: 0 <= i < |s| ==> s[i].symbol < |ls|
    ensures Bounded(LeafLengths(s, ls), maxbits)
    ensures Kraft(LeafLengths(s, ls), maxbits, |s|) <= Kraft(ls, maxbits, |ls|)
    ensures CodesPresent(frequencies, ls, maxbits) ==> Kraft(LeafLengths(s, ls), maxbits, |s|) == Kraft(ls, maxbits, |ls|)
    ensures Cost(Weights(s), LeafLengths(s, ls), |s|) == MessageBits(frequencies, ls, |ls|)
  {
    var all := Leaves(frequencies, |frequencies|);
    SortedLeaves(frequencies, s);
    forall i | 0 <= i < |s| ensures s[i].symbol < |ls| { assert LeafOf(frequencies, |frequencies|, s[i]); }
    TotalsOfSorted(s, ls, maxbits, |s|);
    assert s[..|s|] == s;
    TotalsOfLeaves(frequencies, ls, maxbits, |ls|);
    TotalPermuted(s, all, KraftTerm(ls, maxbits));
    TotalPermuted(s, all, CostTerm(ls));
  }

  /** Lengths read off the chain of 2 * n - 2 items make a complete code of exactly the
      present symbols. */
  lemma {:induction false} ChainIsComplete(frequencies: seq<nat>, s: seq<Leaf>, ls: seq<nat>, c: nat, ch: Chain)
    requires multiset(s) == multiset(Leaves(frequencies, |frequencies|)) && |s| >= 2
    requires ChainOf(|s|, c, ch, 2 * |s| - 2)
    requires |ls| == |frequencies| && ReadOff(s, ls, ch)
    requires forall x :: 0 <= x < |ls| && frequencies[x] == 0 ==> ls[x] == 0
    ensures CodesPresent(frequencies, ls, c + 1) && Complete(ls, c + 1)
  {
    CompleteLengths(|s|, c, ch);
    forall x | 0 <= x < |ls| ensures ls[x] <= c + 1 && (ls[x] > 0 <==> frequencies[x] > 0) {
      if frequencies[x] > 0 {
        var i := PlaceOf(frequencies, s, x);
        assert ls[s[i].symbol] == Length(ch, i);
      }
    }
    SortedTotals(frequencies, s, ls, c + 1);
    KraftOfChain(LeafLengths(s, ls), c, ch, |s|);
  }

  lemma {:induction false} KraftOfChain(ls: seq<nat>, c: nat, ch: Chain, m: nat)
    requires m <= |ls| && Bounded(ls, c + 1) && forall i: nat :: i < |ls| ==> 0 < ls[i] == Length(ch, i)
    ensures Kraft(ls, c + 1, m) == LeafKraft(c, ch, m)
    decreases m
  {
    if m > 0 { KraftOfChain(ls, c, ch, m - 1); }
  }

  /** And they are the cheapest, if the items are those of greedy merging. */
  lemma {:induction false} ChainIsCheapest(frequencies: seq<nat>, s: seq<Leaf>, ls: seq<nat>, c: nat, ch: Chain)
    requires multiset(s) == multiset(Leaves(frequencies, |frequencies|)) && |s| >= 2 && SortedWeights(Weights(s))
    requires FirstItems(Weights(s), c, ch, 2 * |s| - 2)
    requires |ls| == |frequencies| && Bounded(ls, c + 1) && ReadOff(s, ls, ch)
    ensures Cheapest(frequencies, ls, c + 1)
  {
    SortedTotals(frequencies, s, ls, c + 1);
    ChainCost(Weights(s), c, ch, 2 * |s| - 2, LeafLengths(s, ls));
    forall other | Serviceable(frequencies, other, c + 1)
      ensures MessageBits(frequencies, ls, |ls|) <= MessageBits(frequencies, other, |ls|)
    {
      NotCheaper(frequencies, s, other, c);
    }
  }

  lemma {:induction false} NotCheaper(frequencies: seq<nat>, s: seq<Leaf>, other: seq<nat>, c: nat)
    requires multiset(s) == multiset(Leaves(frequencies, |frequencies|)) && |s| >= 2 && SortedWeights(Weights(s))
    requires Serviceable(frequencies, other, c + 1)
    ensures GreedyCost(Weights(s), c, 2 * |s| - 2) <= MessageBits(frequencies, other, |frequencies|)
  {
    SortedTotals(frequencies, s, other, c + 1);
    SortedLeaves(frequencies, s);
    forall i | 0 <= i < |s| ensures other[s[i].symbol] > 0 { assert LeafOf(frequencies, |frequencies|, s[i]); }
    NoCodeCheaper(Weights(s), LeafLengths(s, other), c + 1);
  }

  /** Two codes of one bit. */
  lemma {:induction false} TwoSymbols(ls: seq<nat>, maxbits: nat, a: nat, b: nat, k: nat)
    requires a < b < |ls| && maxbits > 0 && k <= |ls|
    requires ls[a] == ls[b] == 1 && forall i :: 0 <= i < |ls| && i != a && i != b ==> ls[i] == 0
    ensures Bounded(ls, maxbits)
    ensures Kraft(ls, maxbits, k) == (if a < k then Pow2(maxbits - 1) else 0) + (if b < k then Pow2(maxbits - 1) else 0)
    decreases k
  {
    if k > 0 { TwoSymbols(ls, maxbits, a, b, k - 1); }
  }

  // ---------------------------------------------------------------- the method

  method CollectLeaves(frequencies: seq<nat>) returns (leaves: seq<Leaf>)
    ensures leaves == Leaves(frequencies, |frequencies|)
  {
    leaves := [];
    var i := 0;
    while i != |frequencies|
      invariant i <= |frequencies| && leaves == Leaves(frequencies, i)
    {
      if frequencies[i] > 0 { leaves := leaves + [Leaf(frequencies[i], i)]; }
      i := i + 1;
    }
  }

  lemma {:induction false} SortedPositive(frequencies: seq<nat>, s: seq<Leaf>)
    requires multiset(s) == multiset(Leaves(frequencies, |frequencies|)) && Ascending(s, 0, |s|)
    ensures SortedWeights(Weights(s))
  {
    SortedLeaves(frequencies, s);
    forall i | 0 <= i < |s| ensures Weights(s)[i] > 0 {
      assert LeafOf(frequencies, |frequencies|, s[i]);
    }
  }

  /** The boundaryPM calls: the last list ends with the chain of 2 * n - 2 items. */
  method Build(lists: BPMLists, leaves: seq<Leaf>, maxbitlen: nat, ghost ws: seq<int>)
    requires |leaves| >= 2 && maxbitlen > 0 && |leaves| <= Pow2(maxbitlen)
    requires ws == Weights(leaves) && SortedWeights(ws)
    requires lists.Valid() && lists.chains0.Length == maxbitlen && lists.lists == Initial(ws, maxbitlen)
    modifies lists, lists.memory, lists.inUse, lists.freelist, lists.chains0, lists.chains1
    ensures lists.Valid() && lists.lists.Shaped(maxbitlen - 1)
    ensures ChainOf(|leaves|, maxbitlen - 1, lists.lists.chains1[maxbitlen - 1], 2 * |leaves| - 2)
    ensures FirstItems(ws, maxbitlen - 1, lists.lists.chains1[maxbitlen - 1], 2 * |leaves| - 2)
  {
    var i := 2;
    var c := maxbitlen - 1;
    BuildStart(ws, maxbitlen);
    while i != 2 * |leaves| - 2
      invariant 2 <= i <= 2 * |leaves| - 2 && lists.Valid() && Building(ws, lists.lists, c, i)
    {
      BuildNext(ws, lists.lists, c, i);
      lists.Step(leaves, c, i, ws);
      i := i + 1;
    }
  }

  /** The last list has its first i items; before the last call the invariant holds. */
  ghost predicate Building(ws: seq<int>, st: Lists, c: nat, i: nat) {
    st.Shaped(c) && ChainOf(|ws|, c, st.chains1[c], i) && FirstItems(ws, c, st.chains1[c], i) &&
    (i < 2 * |ws| - 2 ==> Invariant(ws, st, c) && st.count[c] == i)
  }

  lemma {:induction false} BuildStart(ws: seq<int>, maxbitlen: nat)
    requires SortedWeights(ws) && |ws| >= 2 && maxbitlen > 0 && |ws| <= Pow2(maxbitlen)
    ensures Building(ws, Initial(ws, maxbitlen), maxbitlen - 1, 2)
  {
    var c := maxbitlen - 1;
    InitialOk(ws, maxbitlen);
    CapacityShort(|ws|, c);
    assert ListOk(ws, Initial(ws, maxbitlen), c);
  }

  lemma {:induction false} ChainAt(ws: seq<int>, st: Lists, c: nat)
    requires Invariant(ws, st, c) && st.count[c] <= Capacity(|ws|, c)
    ensures ChainOf(|ws|, c, st.chains1[c], st.count[c]) && FirstItems(ws, c, st.chains1[c], st.count[c])
  {
    assert ListOk(ws, st, c);
  }

  lemma {:induction false} BuildNext(ws: seq<int>, st: Lists, c: nat, i: nat)
    requires SortedWeights(ws) && |ws| <= Pow2(c + 1) && i < 2 * |ws| - 2 && Building(ws, st, c, i)
    ensures Building(ws, PackageMerge.Step(ws, st, c, i + 1 >= 2 * |ws| - 2), c, i + 1)
  {
    CapacityShort(|ws|, c);
    if i + 1 < 2 * |ws| - 2 {
      StepOk(ws, st, c);
      ChainAt(ws, PackageMerge.Step(ws, st, c, false), c);
    } else {
      FinalChain(ws, st, c);
    }
  }

  /** Counts, for every leaf, the nodes of the chain that include it. */
  method ReadLengths(lists: BPMLists, leaves: seq<Leaf>, head: int, ghost ch: Chain, lengths: array<nat>)
    requires Holds(lists.memory[..], head, ch) && Distinct(leaves)
    requires forall i :: 0 <= i < |leaves| ==> leaves[i].symbol < lengths.Length
    requires forall x :: 0 <= x < lengths.Length ==> lengths[x] == 0
    requires WithinLeaves(ch, |leaves|)
    modifies lengths
    ensures ReadOff(leaves, lengths[..], ch)
    ensures forall x :: 0 <= x < lengths.Length && Unlisted(leaves, x) ==> lengths[x] == 0
  {
    var node := head;
    ghost var rest := ch;
    while node != NULL
      invariant Holds(lists.memory[..], node, rest) && WithinLeaves(rest, |leaves|)
      invariant forall i :: 0 <= i < |leaves| ==> lengths[leaves[i].symbol] + Length(rest, i) == Length(ch, i)
      invariant forall x :: 0 <= x < lengths.Length && Unlisted(leaves, x) ==> lengths[x] == 0
      decreases rest
    {
      AddNode(leaves, lists.memory[node].index, lengths);
      node := lists.memory[node].tail;
      rest := rest.tail;
    }
  }

  ghost predicate Unlisted(leaves: seq<Leaf>, x: nat) {
    forall i :: 0 <= i < |leaves| ==> leaves[i].symbol != x
  }

  ghost predicate WithinLeaves(ch: Chain, n: nat) {
    ch.Node? ==> ch.index <= n && WithinLeaves(ch.tail, n)
  }

  lemma {:induction false} ChainWithin(n: nat, c: nat, ch: Chain, t: nat)
    requires ChainOf(n, c, ch, t)
    ensures WithinLeaves(ch, n)
    decreases c
  {
    if ch.tail.Node? { ChainWithin(n, c - 1, ch.tail, 2 * (t - ch.index)); }
  }

  method AddNode(leaves: seq<Leaf>, index: nat, lengths: array<nat>)
    requires index <= |leaves| && Distinct(leaves)
    requires forall i :: 0 <= i < |leaves| ==> leaves[i].symbol < lengths.Length
    modifies lengths
    ensures forall i :: 0 <= i < |leaves| ==>
      lengths[leaves[i].symbol] == old(lengths[leaves[i].symbol]) + if i < index then 1 else 0
    ensures forall x :: 0 <= x < lengths.Length && Unlisted(leaves, x) ==> lengths[x] == old(lengths[x])
  {
    var i := 0;
    while i != index
      invariant i <= index
      invariant forall j :: 0 <= j < |leaves| ==>
        lengths[leaves[j].symbol] == old(lengths[leaves[j].symbol]) + if j < i then 1 else 0
      invariant forall x :: 0 <= x < lengths.Length && Unlisted(leaves, x) ==> lengths[x] == old(lengths[x])
    {
      lengths[leaves[i].symbol] := lengths[leaves[i].symbol] + 1;
      i := i + 1;
    }
  }

  method ClearLengths(lengths: array<nat>)
    modifies lengths
    ensures forall x :: 0 <= x < lengths.Length ==> lengths[x] == 0
  {
    var i := 0;
    while i != lengths.Length
      invariant i <= lengths.Length && forall x :: 0 <= x < i ==> lengths[x] == 0
    {
      lengths[i] := 0;
      i := i + 1;
    }
  }

  /** ls has exactly two codes, of one bit each. */
  ghost predicate TwoCodes(ls: seq<nat>, a: nat, b: nat) {
    a < b < |ls| && forall i :: 0 <= i < |ls| ==> ls[i] == if i == a || i == b then 1 else 0
  }

  /** At least two symbols get a code, present or not. If there is only one symbol the second
      write is beyond the lengths. */
  method FewSymbols(lengths: array<nat>, frequencies: seq<nat>, present: seq<Leaf>, maxbitlen: nat)
      returns (outside: bool, ghost a: nat, ghost b: nat)
    requires 1 <= lengths.Length == |frequencies|
    requires present == Leaves(frequencies, |frequencies|) && |present| < 2
    requires forall x :: 0 <= x < lengths.Length ==> lengths[x] == 0
    modifies lengths
    ensures outside <==> lengths.Length == 1
    ensures !outside ==> TwoCodes(lengths[..], a, b)
    ensures !outside ==> forall i :: 0 <= i < |frequencies| && frequencies[i] > 0 ==> lengths[i] > 0
  {
    forall x | 0 <= x < |frequencies| && frequencies[x] > 0 ensures Leaf(frequencies[x], x) in present {
      SymbolHasLeaf(frequencies, |frequencies|, x);
    }
    var first, second := 0, 1;
    if |present| == 1 {
      LeavesAre(frequencies, |frequencies|);
      assert LeafOf(frequencies, |frequencies|, present[0]);
      first := present[0].symbol;
      second := if first == 0 then 1 else 0;
    }
    a, b := if first < second then first else second, if first < second then second else first;
    lengths[first] := 1;
    outside := second >= lengths.Length;
    if !outside { lengths[second] := 1; }
  }

  /** One bit for each of at most two symbols cannot be undercut. */
  lemma {:induction false} TwoCodesCheapest(frequencies: seq<nat>, ls: seq<nat>, other: seq<nat>, k: nat)
    requires |ls| == |other| == |frequencies| && k <= |ls| && forall i :: 0 <= i < |ls| ==> ls[i] <= 1
    requires forall i :: 0 <= i < |ls| && frequencies[i] > 0 ==> other[i] > 0
    ensures MessageBits(frequencies, ls, k) <= MessageBits(frequencies, other, k)
    decreases k
  {
    if k > 0 {
      TwoCodesCheapest(frequencies, ls, other, k - 1);
      var f, x, y := frequencies[k - 1], ls[k - 1], other[k - 1];
      if f > 0 && x == 1 { assert f * y == f * (y - 1) + f && f * (y - 1) >= 0; }
    }
  }

  lemma {:induction false} TwoCodesOk(frequencies: seq<nat>, ls: seq<nat>, a: nat, b: nat, maxbits: nat)
    requires |ls| == |frequencies| && TwoCodes(ls, a, b) && maxbits > 0
    requires forall i :: 0 <= i < |frequencies| && frequencies[i] > 0 ==> ls[i] > 0
    ensures Complete(ls, maxbits) && Cheapest(frequencies, ls, maxbits)
  {
    TwoSymbols(ls, maxbits, a, b, |ls|);
    forall other | Serviceable(frequencies, other, maxbits)
      ensures MessageBits(frequencies, ls, |ls|) <= MessageBits(frequencies, other, |ls|)
    {
      TwoCodesCheapest(frequencies, ls, other, |ls|);
    }
  }

  /** Boundary package-merge over the present symbols. */
  method ManySymbols(lengths: array<nat>, frequencies: seq<nat>, present: seq<Leaf>, maxbitlen: nat)
    requires lengths.Length == |frequencies| <= Pow2(maxbitlen) && maxbitlen > 0
    requires present == Leaves(frequencies, |frequencies|) && |present| >= 2
    requires forall x :: 0 <= x < lengths.Length ==> lengths[x] == 0
    modifies lengths
    ensures CodesPresent(frequencies, lengths[..], maxbitlen) && Complete(lengths[..], maxbitlen)
    ensures Cheapest(frequencies, lengths[..], maxbitlen)
  {
    var a := new Leaf[|present|](i requires 0 <= i < |present| => present[i]);
    assert a[..] == present;
    Sort(a);
    var leaves := a[..];
    ghost var ws := Weights(leaves);
    SortedPositive(frequencies, leaves);
    var lists := new BPMLists(leaves, maxbitlen);
    Build(lists, leaves, maxbitlen, ws);
    lists.Head(maxbitlen - 1);
    ghost var ch := lists.lists.chains1[maxbitlen - 1];
    SortedLeaves(frequencies, leaves);
    ChainWithin(|leaves|, maxbitlen - 1, ch, 2 * |leaves| - 2);
    LeavesInRange(frequencies, leaves);
    ReadLengths(lists, leaves, lists.chains1[maxbitlen - 1], ch, lengths);
    AbsentUnlisted(frequencies, leaves);
    ChainIsComplete(frequencies, leaves, lengths[..], maxbitlen - 1, ch);
    ChainIsCheapest(frequencies, leaves, lengths[..], maxbitlen - 1, ch);
  }

  lemma {:induction false} LeavesInRange(frequencies: seq<nat>, s: seq<Leaf>)
    requires forall i :: 0 <= i < |s| ==> LeafOf(frequencies, |frequencies|, s[i])
    ensures forall i :: 0 <= i < |s| ==> s[i].symbol < |frequencies|
  {
    forall i | 0 <= i < |s| ensures s[i].symbol < |frequencies| {
      assert LeafOf(frequencies, |frequencies|, s[i]);
    }
  }

  lemma {:induction false} AbsentUnlisted(frequencies: seq<nat>, s: seq<Leaf>)
    requires forall i :: 0 <= i < |s| ==> LeafOf(frequencies, |frequencies|, s[i])
    ensures forall x: nat :: x < |frequencies| && frequencies[x] == 0 ==> Unlisted(s, x)
  {
    forall x: nat | x < |frequencies| && frequencies[x] == 0 ensures Unlisted(s, x) {
      forall i | 0 <= i < |s| ensures s[i].symbol != x {
        assert LeafOf(frequencies, |frequencies|, s[i]);
      }
    }
  }

  /** lodepng_huffman_code_lengths. Of the prefix codes of at most maxbitlen bits that code the
      present symbols it finds one of least cost. For an alphabet of one symbol it writes
      beyond the lengths, and only for that. */
  method HuffmanCodeLengths(lengths: array<nat>, frequencies: seq<nat>, maxbitlen: nat)
      returns (error: nat, outside: bool)
    requires lengths.Length == |frequencies|
    modifies lengths
    ensures error == if 1 <= |frequencies| <= Pow2(maxbitlen) then 0 else 80
    ensures outside <==> |frequencies| == 1
    ensures error == 0 && !outside ==> Complete(lengths[..], maxbitlen) && Cheapest(frequencies, lengths[..], maxbitlen)
    ensures error == 0 && !outside ==> forall i :: 0 <= i < |frequencies| && frequencies[i] > 0 ==> lengths[i] > 0
    ensures error == 0 && |Leaves(frequencies, |frequencies|)| >= 2 ==> CodesPresent(frequencies, lengths[..], maxbitlen)
    ensures error == 0 && !outside && |Leaves(frequencies, |frequencies|)| < 2 ==>
      exists a, b :: TwoCodes(lengths[..], a, b)
  {
    var numcodes := |frequencies|;
    outside := false;
    if numcodes == 0 { return 80, false; }
    if Pow2(maxbitlen) < numcodes { return 80, false; }
    error := 0;
    var present := CollectLeaves(frequencies);
    ClearLengths(lengths);
    if |present| < 2 {
      ghost var a, b;
      outside, a, b := FewSymbols(lengths, frequencies, present, maxbitlen);
      if !outside { TwoCodesOk(frequencies, lengths[..], a, b, maxbitlen); }
    } else {
      ManySymbols(lengths, frequencies, present, maxbitlen);
    }
  }
}
