/** Boundary package-merge on values: the look-ahead chains of all lists, one step, the
    invariant of a run, and the Kraft sum of the code lengths read off the final chain. */
module PackageMerge {
  import opened Bits
  import opened GreedyMerge

  /** A chain of one list: total weight, how many leaves it has, and the chain of the
      previous list that its packages consist of. */
  datatype Chain = Nil | Node(weight: int, index: nat, tail: Chain)

  /** Two look-ahead chains per list, and how often each list was advanced. */
  datatype Lists = Lists(chains0: seq<Chain>, chains1: seq<Chain>, count: seq<nat>) {
    ghost predicate Shaped(c: nat) {
      c < |chains0| == |chains1| == |count| &&
      forall k :: 0 <= k <= c ==> chains0[k].Node? && chains1[k].Node?
    }
  }

  /** The weight of the next package of list c. */
  function PackageWeight(st: Lists, c: nat): int
    requires c > 0 && st.Shaped(c)
  {
    st.chains0[c - 1].weight + st.chains1[c - 1].weight
  }

  ghost predicate TakesLeaf(ws: seq<int>, st: Lists, c: nat)
    requires st.Shaped(c)
  {
    var last := st.chains1[c].index;
    last < |ws| && (c > 0 ==> PackageWeight(st, c) > ws[last])
  }

  /** The next chain of list c: one more leaf, or one more package. */
  ghost function NextChain(ws: seq<int>, st: Lists, c: nat): Chain
    requires st.Shaped(c)
  {
    var head := st.chains1[c];
    if TakesLeaf(ws, st, c) then Node(ws[head.index], head.index + 1, if c == 0 then Nil else head.tail)
    else if c == 0 then head
    else Node(PackageWeight(st, c), head.index, st.chains1[c - 1])
  }

  /** List c moves on to its next chain; list 0 stays when its leaves are used up. */
  ghost function Advance(ws: seq<int>, st: Lists, c: nat): (r: Lists)
    requires st.Shaped(c)
    ensures r.Shaped(c) && |r.count| == |st.count|
  {
    if c == 0 && !TakesLeaf(ws, st, c) then st.(count := st.count[c := st.count[c] + 1]) else
    Lists(st.chains0[c := st.chains1[c]], st.chains1[c := NextChain(ws, st, c)], st.count[c := st.count[c] + 1])
  }

  /** One boundaryPM call. A new package uses up both look-ahead chains of the list below,
      so that list is advanced twice, except in the very last call. */
  ghost function Step(ws: seq<int>, st: Lists, c: nat, last: bool): (r: Lists)
    requires st.Shaped(c)
    ensures r.Shaped(c) && |r.count| == |st.count|
    ensures forall k :: c < k < |st.count| ==>
      r.chains0[k] == st.chains0[k] && r.chains1[k] == st.chains1[k] && r.count[k] == st.count[k]
    decreases c
  {
    var st1 := Advance(ws, st, c);
    if c == 0 || TakesLeaf(ws, st, c) || last then st1 else
    Step(ws, Step(ws, st1, c - 1, last), c - 1, last)
  }

  // ---------------------------------------------------------------- invariant

  /** ch is the t-th chain of list c: of its t items index are leaves, and the packages
      consist of twice as many items of the list below. */
  ghost predicate ChainOf(n: nat, c: nat, ch: Chain, t: nat)
    decreases c
  {
    ch.Node? && 1 <= ch.index <= n && ch.index <= t &&
    if t == ch.index then ch.tail == Nil
    else c > 0 && ch.tail.Node? && ch.tail.index <= ch.index && ChainOf(n, c - 1, ch.tail, 2 * (t - ch.index))
  }

  /** The packages in the current chain of list c. */
  ghost function Packages(st: Lists, c: nat): int
    requires st.Shaped(c)
  {
    st.count[c] - st.chains1[c].index
  }

  /** The current chain weighs at least as much as its last leaf and no more than what may
      follow it. */
  ghost predicate Ordered(ws: seq<int>, st: Lists, c: nat)
    requires st.Shaped(c)
  {
    var head := st.chains1[c];
    0 < st.chains0[c].weight <= head.weight &&
    1 <= head.index <= |ws| &&
    ws[head.index - 1] <= head.weight &&
    (head.index < |ws| ==> head.weight <= ws[head.index]) &&
    (c > 0 ==> head.weight <= PackageWeight(st, c))
  }

  ghost predicate Counted(ws: seq<int>, st: Lists, c: nat)
    requires st.Shaped(c)
  {
    var n, head, t := |ws|, st.chains1[c], st.count[c];
    (if c == 0 then head.index == Min(t, n)
     else head.index <= t && (head.index < n ==> 2 * Packages(st, c) <= Capacity(n, c - 1))) &&
    (t <= Capacity(n, c) ==> ChainOf(n, c, head, t))
  }

  /** The look-ahead chains of the list below are the two after those already packaged. */
  ghost predicate Linked(st: Lists, c: nat)
    requires st.Shaped(c)
  {
    c > 0 ==> st.count[c - 1] == 2 + 2 * Packages(st, c)
  }

  /** The items of the chain are the first t of list c. */
  ghost predicate FirstItems(ws: seq<int>, c: nat, ch: Chain, t: nat)
    decreases c
  {
    ch.Node? && ch.index == Index(ws, c, t) &&
    if t == ch.index then ch.tail == Nil else c > 0 && FirstItems(ws, c - 1, ch.tail, 2 * (t - ch.index))
  }

  /** The look-ahead chains end with the items of greedy merging. */
  ghost predicate Greedy(ws: seq<int>, st: Lists, c: nat)
    requires st.Shaped(c)
  {
    GreedyChains(ws, c, st.chains0[c], st.chains1[c], st.count[c])
  }

  ghost predicate GreedyChains(ws: seq<int>, c: nat, before: Chain, head: Chain, t: nat)
    requires before.Node? && head.Node?
  {
    t >= 2 &&
    (t <= Capacity(|ws|, c) ==>
      before.weight == Item(ws, c, t - 1) && head.weight == Item(ws, c, t) && FirstItems(ws, c, head, t))
  }

  ghost predicate ListOk(ws: seq<int>, st: Lists, c: nat)
    requires st.Shaped(c)
  {
    Ordered(ws, st, c) && Counted(ws, st, c) && Greedy(ws, st, c)
  }

  /** The invariant of lists 0 to c. */
  ghost predicate Invariant(ws: seq<int>, st: Lists, c: nat) {
    st.Shaped(c) && forall k: nat :: k <= c ==> ListOk(ws, st, k) && Linked(st, k)
  }

  /** A list advanced as often as it has meaningful chains has used all leaves. */
  lemma {:induction false} Exhausted(ws: seq<int>, st: Lists, c: nat)
    requires st.Shaped(c) && ListOk(ws, st, c) && st.count[c] >= Capacity(|ws|, c)
    ensures st.chains1[c].index == |ws|
  {
  }

  /** A package is taken before a leaf only if it uses no more leaves than were taken and
      the list below is not used up. */
  lemma {:induction false} PackageFits(ws: seq<int>, st: Lists, c: nat)
    requires SortedWeights(ws) && c > 0 && st.Shaped(c)
    requires ListOk(ws, st, c) && ListOk(ws, st, c - 1) && Linked(st, c) && !TakesLeaf(ws, st, c)
    ensures st.chains1[c - 1].index <= st.chains1[c].index
    ensures st.chains1[c].index < |ws| ==> st.count[c - 1] <= Capacity(|ws|, c - 1)
  {
    if st.chains1[c].index < |ws| && st.count[c - 1] > Capacity(|ws|, c - 1) { Exhausted(ws, st, c - 1); }
  }

  /** What boundaryPM takes next is what greedy merging takes next. */
  lemma {:induction false} SameChoice(ws: seq<int>, st: Lists, c: nat)
    requires SortedWeights(ws) && st.Shaped(c) && ListOk(ws, st, c) && Linked(st, c)
    requires c > 0 ==> ListOk(ws, st, c - 1)
    requires st.count[c] < Capacity(|ws|, c)
    ensures TakesLeaf(ws, st, c) <==> LeafNext(ws, c, st.chains1[c].index, st.count[c] - st.chains1[c].index)
    ensures c > 0 && !TakesLeaf(ws, st, c) ==> st.count[c - 1] <= Capacity(|ws|, c - 1)
    ensures c > 0 && !TakesLeaf(ws, st, c) ==> PackageWeight(st, c) == Package(ws, c, st.count[c] - st.chains1[c].index)
  {
    if c > 0 {
      if st.chains1[c].index < |ws| && st.count[c - 1] > Capacity(|ws|, c - 1) {
        Exhausted(ws, st, c - 1);
      }
      PackagesFit(ws, c, st.count[c]);
    }
  }

  lemma {:induction false} AdvanceGreedy(ws: seq<int>, st: Lists, c: nat)
    requires SortedWeights(ws) && st.Shaped(c) && ListOk(ws, st, c) && Linked(st, c)
    requires c > 0 ==> ListOk(ws, st, c - 1)
    ensures c == 0 && !TakesLeaf(ws, st, c) ==> st.count[c] >= Capacity(|ws|, c)
    ensures c > 0 || TakesLeaf(ws, st, c) ==>
      GreedyChains(ws, c, st.chains1[c], NextChain(ws, st, c), st.count[c] + 1)
  {
    var t, head := st.count[c], st.chains1[c];
    if t < Capacity(|ws|, c) {
      SameChoice(ws, st, c);
      if TakesLeaf(ws, st, c) {
        NextIsLeaf(ws, c, head, t);
      } else if c > 0 {
        NextIsPackage(ws, c, head, t, st.chains1[c - 1], PackageWeight(st, c));
      }
    }
  }

  lemma {:induction false} NextIsLeaf(ws: seq<int>, c: nat, head: Chain, t: nat)
    requires t >= 2 && FirstItems(ws, c, head, t) && LeafNext(ws, c, head.index, t - head.index)
    requires head.weight == Item(ws, c, t)
    ensures GreedyChains(ws, c, head, Node(ws[head.index], head.index + 1, if c == 0 then Nil else head.tail), t + 1)
  {
  }

  lemma {:induction false} NextIsPackage(ws: seq<int>, c: nat, head: Chain, t: nat, below: Chain, w: int)
    requires t >= 2 && c > 0 && FirstItems(ws, c, head, t) && !LeafNext(ws, c, head.index, t - head.index)
    requires FirstItems(ws, c - 1, below, 2 * (t - head.index) + 2)
    requires head.weight == Item(ws, c, t) && w == Package(ws, c, t - head.index)
    ensures GreedyChains(ws, c, head, Node(w, head.index, below), t + 1)
  {
    assert 2 * (t + 1 - head.index) == 2 * (t - head.index) + 2;
  }

  /** Advancing list c keeps its part of the invariant and its chains do not get lighter. */
  lemma {:induction false} AdvanceOk(ws: seq<int>, st: Lists, c: nat)
    requires SortedWeights(ws) && st.Shaped(c) && ListOk(ws, st, c) && Linked(st, c)
    requires c > 0 ==> ListOk(ws, st, c - 1)
    ensures ListOk(ws, Advance(ws, st, c), c)
    ensures Heavier(st, Advance(ws, st, c), c)
    ensures c > 0 && TakesLeaf(ws, st, c) ==> Linked(Advance(ws, st, c), c)
    ensures c > 0 && !TakesLeaf(ws, st, c) ==> st.count[c - 1] == 2 * Packages(Advance(ws, st, c), c)
  {
    AdvanceOrdered(ws, st, c);
    AdvanceCounted(ws, st, c);
    GreedyAdvanced(ws, st, c);
  }

  lemma {:induction false} AdvanceOrdered(ws: seq<int>, st: Lists, c: nat)
    requires SortedWeights(ws) && st.Shaped(c) && ListOk(ws, st, c) && Linked(st, c)
    requires c > 0 ==> ListOk(ws, st, c - 1)
    ensures Ordered(ws, Advance(ws, st, c), c) && Heavier(st, Advance(ws, st, c), c)
  {
  }

  lemma {:induction false} AdvanceCounted(ws: seq<int>, st: Lists, c: nat)
    requires SortedWeights(ws) && st.Shaped(c) && ListOk(ws, st, c) && Linked(st, c)
    requires c > 0 ==> ListOk(ws, st, c - 1)
    ensures Counted(ws, Advance(ws, st, c), c)
    ensures c > 0 && TakesLeaf(ws, st, c) ==> Linked(Advance(ws, st, c), c)
    ensures c > 0 && !TakesLeaf(ws, st, c) ==> st.count[c - 1] == 2 * Packages(Advance(ws, st, c), c)
  {
    if c > 0 && !TakesLeaf(ws, st, c) { PackageFits(ws, st, c); }
  }

  lemma {:induction false} GreedyAdvanced(ws: seq<int>, st: Lists, c: nat)
    requires SortedWeights(ws) && st.Shaped(c) && ListOk(ws, st, c) && Linked(st, c)
    requires c > 0 ==> ListOk(ws, st, c - 1)
    ensures Greedy(ws, Advance(ws, st, c), c)
  {
    AdvanceGreedy(ws, st, c);
  }

  ghost predicate Heavier(st: Lists, r: Lists, c: nat)
    requires st.Shaped(c) && r.Shaped(c)
  {
    st.chains0[c].weight <= r.chains0[c].weight && st.chains1[c].weight <= r.chains1[c].weight
  }

  /** The lists up to c of r are those of st. */
  ghost predicate SameUpTo(st: Lists, r: Lists, c: int) {
    |r.chains0| == |st.chains0| && |r.chains1| == |st.chains1| && |r.count| == |st.count| &&
    forall k: nat :: k <= c && k < |st.chains0| && k < |st.chains1| && k < |st.count| ==>
      r.chains0[k] == st.chains0[k] && r.chains1[k] == st.chains1[k] && r.count[k] == st.count[k]
  }

  lemma {:induction false} InvariantSame(ws: seq<int>, st: Lists, r: Lists, c: nat)
    requires Invariant(ws, st, c) && SameUpTo(st, r, c)
    ensures Invariant(ws, r, c)
  {
    forall k: nat | k <= c ensures ListOk(ws, r, k) && Linked(r, k) {
      assert ListOk(ws, st, k) && Linked(st, k);
    }
  }

  /** Every boundaryPM call before the last keeps the invariant of the lists it touches. */
  lemma {:induction false} StepOk(ws: seq<int>, st: Lists, c: nat)
    requires SortedWeights(ws) && Invariant(ws, st, c)
    ensures Invariant(ws, Step(ws, st, c, false), c)
    ensures Heavier(st, Step(ws, st, c, false), c)
    ensures Step(ws, st, c, false).count[c] == st.count[c] + 1
    decreases c, 0, 1
  {
    var st1 := Advance(ws, st, c);
    assert ListOk(ws, st, c) && Linked(st, c);
    if c > 0 { assert ListOk(ws, st, c - 1); }
    AdvanceOk(ws, st, c);
    if c > 0 {
      InvariantDown(ws, st, c);
      InvariantSame(ws, st, st1, c - 1);
      if TakesLeaf(ws, st, c) {
        InvariantUp(ws, st1, c);
      } else {
        PackageStepOk(ws, st, st1, c);
      }
    }
  }

  lemma {:induction false} PackageStepOk(ws: seq<int>, st: Lists, st1: Lists, c: nat)
    requires SortedWeights(ws) && c > 0 && st.Shaped(c) && st1.Shaped(c)
    requires ListOk(ws, st1, c) && Heavier(st, st1, c) && Invariant(ws, st1, c - 1)
    requires st1.count[c - 1] == 2 * Packages(st1, c)
    ensures var st3 := StepTwice(ws, st1, c - 1);
            Invariant(ws, st3, c) && Heavier(st, st3, c) && st3.count[c] == st1.count[c]
    decreases c, 0, 0
  {
    StepTwiceOk(ws, st1, c - 1);
    TwoSteps(ws, st, st1, StepTwice(ws, st1, c - 1), c);
  }

  ghost function StepTwice(ws: seq<int>, st: Lists, c: nat): Lists
    requires st.Shaped(c)
  {
    Step(ws, Step(ws, st, c, false), c, false)
  }

  lemma {:induction false} StepTwiceOk(ws: seq<int>, st: Lists, c: nat)
    requires SortedWeights(ws) && Invariant(ws, st, c)
    ensures var r := StepTwice(ws, st, c);
            Invariant(ws, r, c) && Heavier(st, r, c) && r.count[c] == st.count[c] + 2
    decreases c, 1
  {
    StepOk(ws, st, c);
    StepOk(ws, Step(ws, st, c, false), c);
  }

  ghost predicate SameList(st: Lists, r: Lists, c: nat)
    requires st.Shaped(c) && r.Shaped(c)
  {
    r.chains0[c] == st.chains0[c] && r.chains1[c] == st.chains1[c] && r.count[c] == st.count[c]
  }

  /** List c again after two steps below it. */
  lemma {:induction false} TwoSteps(ws: seq<int>, st: Lists, st1: Lists, st3: Lists, c: nat)
    requires c > 0 && st.Shaped(c) && st1.Shaped(c) && st3.Shaped(c)
    requires ListOk(ws, st1, c) && Heavier(st, st1, c) && Heavier(st1, st3, c - 1)
    requires SameList(st1, st3, c) && Invariant(ws, st3, c - 1)
    requires st3.count[c - 1] == st1.count[c - 1] + 2 && st1.count[c - 1] == 2 * Packages(st1, c)
    ensures Invariant(ws, st3, c) && Heavier(st, st3, c)
  {
    BelowHeavier(ws, st1, st3, c);
    InvariantUp(ws, st3, c);
  }

  lemma {:induction false} InvariantDown(ws: seq<int>, st: Lists, c: nat)
    requires c > 0 && Invariant(ws, st, c)
    ensures Invariant(ws, st, c - 1)
  {
    forall k: nat | k <= c - 1 ensures ListOk(ws, st, k) && Linked(st, k) {
      assert ListOk(ws, st, k) && Linked(st, k);
    }
  }

  lemma {:induction false} InvariantUp(ws: seq<int>, st: Lists, c: nat)
    requires c > 0 && Invariant(ws, st, c - 1) && st.Shaped(c) && ListOk(ws, st, c) && Linked(st, c)
    ensures Invariant(ws, st, c)
  {
    forall k: nat | k <= c ensures ListOk(ws, st, k) && Linked(st, k) {
      if k < c { assert ListOk(ws, st, k) && Linked(st, k); }
    }
  }

  /** List c stays in order when the list below gets heavier. */
  lemma {:induction false} BelowHeavier(ws: seq<int>, st: Lists, r: Lists, c: nat)
    requires c > 0 && st.Shaped(c) && r.Shaped(c) && ListOk(ws, st, c) && Heavier(st, r, c - 1)
    requires r.chains0[c] == st.chains0[c] && r.chains1[c] == st.chains1[c] && r.count[c] == st.count[c]
    ensures ListOk(ws, r, c)
  {
  }

  // ---------------------------------------------------------------- a run

  /** All lists start with the chains of the first and of the first two leaves. */
  ghost function Initial(ws: seq<int>, lists: nat): (st: Lists)
    requires |ws| >= 2
  {
    Lists(seq(lists, _ => Node(ws[0], 1, Nil)), seq(lists, _ => Node(ws[1], 2, Nil)), seq(lists, _ => 2))
  }

  lemma {:induction false} InitialOk(ws: seq<int>, lists: nat)
    requires |ws| >= 2 && SortedWeights(ws) && lists > 0
    ensures Invariant(ws, Initial(ws, lists), lists - 1)
  {
    var st := Initial(ws, lists);
    forall k: nat | k <= lists - 1 ensures ListOk(ws, st, k) && Linked(st, k) {
      FirstTwo(ws, k);
    }
  }

  /** The first two items of a list are leaves. */
  lemma {:induction false} FirstTwo(ws: seq<int>, c: nat)
    requires |ws| >= 2 && SortedWeights(ws)
    ensures Item(ws, c, 1) == ws[0] && Item(ws, c, 2) == ws[1] && Index(ws, c, 1) == 1 && Index(ws, c, 2) == 2
    decreases c
  {
    assert Index(ws, c, 0) == 0;
    if c > 0 {
      FirstTwo(ws, c - 1);
      assert Package(ws, c, 0) == ws[0] + ws[1];
    }
  }

  /** The final call makes the chain of all 2 * n - 2 items. */
  lemma {:induction false} FinalChain(ws: seq<int>, st: Lists, c: nat)
    requires SortedWeights(ws) && Invariant(ws, st, c)
    requires st.count[c] + 1 <= Capacity(|ws|, c)
    ensures ChainOf(|ws|, c, Step(ws, st, c, true).chains1[c], st.count[c] + 1)
    ensures FirstItems(ws, c, Step(ws, st, c, true).chains1[c], st.count[c] + 1)
  {
    assert ListOk(ws, st, c) && Linked(st, c);
    if c > 0 { assert ListOk(ws, st, c - 1); }
    AdvanceOk(ws, st, c);
  }

  /** Half of the items that list c lacks of 2 * n are missing from the list above. */
  lemma {:induction false} CapacityShort(n: nat, c: nat)
    requires n >= 2 && n <= Pow2(c + 1)
    ensures Capacity(n, c) >= 2 * n - 2
  {
    ShlPow2(1, c);
    Pow2Values();
    CapacityGap(n, c, 2);
  }

  /** If n <= g * 2^c then list c lacks at most g items of 2 * n. */
  lemma {:induction false} CapacityGap(n: nat, c: nat, g: nat)
    requires n <= Shl(g, c)
    ensures Capacity(n, c) + g >= 2 * n
    decreases c
  {
    if c > 0 {
      ShlShl(g, 1, c - 1);
      assert Shl(g, 1) == 2 * Shl(g, 0);
      CapacityGap(n, c - 1, 2 * g);
    }
  }

  // ---------------------------------------------------------------- code lengths

  /** What the chain of the first t items costs as a code is the weight of the items. */
  lemma {:induction false} ChainCost(ws: seq<int>, c: nat, ch: Chain, t: nat, ls: seq<nat>)
    requires FirstItems(ws, c, ch, t) && |ls| == |ws| && forall i: nat :: i < |ls| ==> ls[i] == Length(ch, i)
    ensures Cost(ws, ls, |ws|) == GreedyCost(ws, c, t)
    decreases c
  {
    var below: seq<nat> := seq(|ws|, i requires 0 <= i < |ws| => Length(ch.tail, i));
    CostAbove(ws, ls, below, ch.index, |ws|);
    if ch.tail == Nil {
      AllZero(ws, below, |ws|);
      if c > 0 { NoCost(ws, c - 1, 2 * (t - ch.index)); }
    } else {
      ChainCost(ws, c - 1, ch.tail, 2 * (t - ch.index), below);
    }
  }

  lemma {:induction false} CostAbove(ws: seq<int>, ls: seq<nat>, below: seq<nat>, index: nat, k: nat)
    requires |ls| == |ws| == |below| && k <= |ws| && index <= |ws|
    requires forall i :: 0 <= i < |ls| ==> ls[i] == below[i] + if i < index then 1 else 0
    ensures Cost(ws, ls, k) == Cost(ws, below, k) + LeafSum(ws, if k < index then k else index)
    decreases k
  {
    if k > 0 {
      CostAbove(ws, ls, below, index, k - 1);
      if k <= index { assert ws[k - 1] * ls[k - 1] == ws[k - 1] * below[k - 1] + ws[k - 1]; }
    }
  }

  lemma {:induction false} AllZero(ws: seq<int>, ls: seq<nat>, k: nat)
    requires k <= |ls| == |ws| && forall i :: 0 <= i < |ls| ==> ls[i] == 0
    ensures Cost(ws, ls, k) == 0
    decreases k
  {
    if k > 0 { AllZero(ws, ls, k - 1); }
  }

  /** The code length of the i-th lightest leaf: in how many lists of the chain it is. */
  function Length(ch: Chain, i: nat): nat {
    match ch
    case Nil => 0
    case Node(_, index, tail) => (if i < index then 1 else 0) + Length(tail, i)
  }

  /** The part of 2^(c + 1) that a code of length l leaves to the others. */
  ghost function Rest(c: nat, l: nat): int
    requires l <= c + 1
  {
    Pow2(c + 1) - Pow2(c + 1 - l)
  }

  ghost function RestSum(c: nat, ch: Chain, m: nat): int
    requires forall i: nat :: i < m ==> Length(ch, i) <= c + 1
  {
    if m == 0 then 0 else RestSum(c, ch, m - 1) + Rest(c, Length(ch, m - 1))
  }

  lemma {:induction false} LengthBound(n: nat, c: nat, ch: Chain, t: nat, i: nat)
    requires ChainOf(n, c, ch, t)
    ensures Length(ch, i) <= c + 1
    ensures i >= ch.index ==> Length(ch, i) == 0
    ensures i < ch.index ==> Length(ch, i) >= 1
    decreases c
  {
    if ch.tail.Node? { LengthBound(n, c - 1, ch.tail, 2 * (t - ch.index), i); }
  }

  /** All leaves are in the chain if it has at least 2 * n - 2 items. */
  lemma {:induction false} AllLeavesUsed(n: nat, c: nat, ch: Chain, t: nat)
    requires n >= 2 && ChainOf(n, c, ch, t) && t >= 2 * n - 2
    ensures ch.index == n
    decreases c
  {
    if ch.index < n { AllLeavesUsed(n, c - 1, ch.tail, 2 * (t - ch.index)); }
  }

  /** Leaves are worth 2^c at list c, and half of that at each list below; together the
      items of the chain are worth t * 2^c. */
  lemma {:induction false} ChainWorth(n: nat, c: nat, ch: Chain, t: nat, m: nat)
    requires ChainOf(n, c, ch, t) && m >= ch.index
    requires forall i: nat :: i < m ==> Length(ch, i) <= c + 1
    ensures RestSum(c, ch, m) == Shl(t, c)
    decreases c, m
  {
    if m > ch.index {
      LengthBound(n, c, ch, t, m - 1);
      ChainWorth(n, c, ch, t, m - 1);
    } else if ch.tail == Nil {
      FlatWorth(c, ch, m);
    } else {
      var t' := 2 * (t - ch.index);
      forall i: nat | i < m ensures Length(ch.tail, i) <= c { LengthBound(n, c - 1, ch.tail, t', i); }
      ChainWorth(n, c - 1, ch.tail, t', m);
      TailWorth(c, ch, m);
      ShlAdd(m, t - m, c);
      ShlShl(t - m, 1, c - 1);
      assert Shl(t - m, 1) == 2 * Shl(t - m, 0);
    }
  }

  lemma {:induction false} FlatWorth(c: nat, ch: Chain, m: nat)
    requires ch.Node? && ch.tail == Nil && m <= ch.index
    ensures forall i: nat :: i < m ==> Length(ch, i) == 1
    ensures RestSum(c, ch, m) == Shl(m, c)
    decreases m
  {
    if m == 0 {
      ShlIsMul(0, c);
    } else {
      FlatWorth(c, ch, m - 1);
      assert Length(ch, m - 1) == 1;
      assert Pow2(c + 1) == 2 * Pow2(c);
      ShlAdd(m - 1, 1, c);
      ShlPow2(0, c);
    }
  }

  lemma {:induction false} TailWorth(c: nat, ch: Chain, m: nat)
    requires c > 0 && ch.Node? && m <= ch.index
    requires forall i: nat :: i < m ==> Length(ch.tail, i) <= c
    ensures forall i: nat :: i < m ==> Length(ch, i) == 1 + Length(ch.tail, i)
    ensures RestSum(c, ch, m) == Shl(m, c) + RestSum(c - 1, ch.tail, m)
    decreases m
  {
    if m == 0 {
      ShlIsMul(0, c);
    } else {
      TailWorth(c, ch, m - 1);
      ShlAdd(m - 1, 1, c);
      ShlPow2(0, c);
    }
  }

  /** The Kraft sum of the first m leaves, scaled by 2^(c + 1). */
  ghost function LeafKraft(c: nat, ch: Chain, m: nat): nat
    requires forall i: nat :: i < m ==> Length(ch, i) <= c + 1
  {
    if m == 0 then 0 else LeafKraft(c, ch, m - 1) + Pow2(c + 1 - Length(ch, m - 1))
  }

  lemma {:induction false} KraftAndRest(c: nat, ch: Chain, m: nat)
    requires forall i: nat :: i < m ==> Length(ch, i) <= c + 1
    ensures LeafKraft(c, ch, m) + RestSum(c, ch, m) == Shl(m, c + 1)
    decreases m
  {
    if m == 0 {
      ShlIsMul(0, c + 1);
    } else {
      KraftAndRest(c, ch, m - 1);
      ShlAdd(m - 1, 1, c + 1);
      ShlPow2(0, c + 1);
    }
  }

  /** The chain of 2 * n - 2 items of list c gives every leaf a length from 1 to c + 1, and
      the Kraft sum of these lengths is one. */
  lemma {:induction false} CompleteLengths(n: nat, c: nat, ch: Chain)
    requires n >= 2 && ChainOf(n, c, ch, 2 * n - 2)
    ensures forall i: nat :: i < n ==> 1 <= Length(ch, i) <= c + 1
    ensures LeafKraft(c, ch, n) == Pow2(c + 1)
  {
    AllLeavesUsed(n, c, ch, 2 * n - 2);
    forall i: nat | i < n ensures 1 <= Length(ch, i) <= c + 1 { LengthBound(n, c, ch, 2 * n - 2, i); }
    ChainWorth(n, c, ch, 2 * n - 2, n);
    KraftAndRest(c, ch, n);
    ShlAdd(n - 1, 1, c + 1);
    ShlPow2(0, c + 1);
    ShlShl(n - 1, 1, c);
    assert Shl(n - 1, 1) == 2 * Shl(n - 1, 0);
  }
}
