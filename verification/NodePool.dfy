/** The chains of boundary package-merge as linked nodes in a fixed pool with mark-and-collect
    garbage collection, and the boundaryPM step over them. */
module NodePool {
  import opened PackageMerge

  /** A pool node; tail is the pool index of the next node, or NULL. */
  datatype PoolNode = PoolNode(weight: int, index: nat, tail: int)

  const NULL: int := -1

  /** Pool index p holds the chain ch. */
  ghost predicate Holds(mem: seq<PoolNode>, p: int, ch: Chain)
    decreases ch
  {
    match ch
    case Nil => p == NULL
    case Node(w, i, tail) =>
      0 <= p < |mem| && mem[p].weight == w && mem[p].index == i && Holds(mem, mem[p].tail, tail)
  }

  /** The pool indices of the nodes of a chain. */
  ghost function Cells(mem: seq<PoolNode>, p: int, ch: Chain): set<int>
    requires Holds(mem, p, ch)
    decreases ch
  {
    match ch
    case Nil => {}
    case Node(_, _, tail) => {p} + Cells(mem, mem[p].tail, tail)
  }

  function Depth(ch: Chain): nat {
    match ch
    case Nil => 0
    case Node(_, _, tail) => 1 + Depth(tail)
  }

  lemma {:induction false} CellsBound(mem: seq<PoolNode>, p: int, ch: Chain)
    requires Holds(mem, p, ch)
    ensures |Cells(mem, p, ch)| <= Depth(ch)
    ensures forall x :: x in Cells(mem, p, ch) ==> 0 <= x < |mem|
    decreases ch
  {
    if ch.Node? { CellsBound(mem, mem[p].tail, ch.tail); }
  }

  /** Writing a node outside a chain does not change the chain. */
  lemma {:induction false} HoldsFrame(mem: seq<PoolNode>, f: int, node: PoolNode, p: int, ch: Chain)
    requires 0 <= f < |mem| && Holds(mem, p, ch) && f !in Cells(mem, p, ch)
    ensures Holds(mem[f := node], p, ch) && Cells(mem[f := node], p, ch) == Cells(mem, p, ch)
    decreases ch
  {
    if ch.Node? { HoldsFrame(mem, f, node, mem[p].tail, ch.tail); }
  }

  /** The pool indices p hold the chains chs, and chain k has at most k + 1 nodes. */
  ghost predicate HoldsAll(mem: seq<PoolNode>, p: seq<int>, chs: seq<Chain>) {
    |p| == |chs| && forall k: nat :: k < |p| ==> HoldsAt(mem, p, chs, k)
  }

  ghost predicate HoldsAt(mem: seq<PoolNode>, p: seq<int>, chs: seq<Chain>, k: nat)
    requires k < |p| == |chs|
  {
    Holds(mem, p[k], chs[k]) && chs[k].Node? && Depth(chs[k]) <= k + 1
  }

  /** All nodes of the first k chains. */
  ghost function Live(mem: seq<PoolNode>, p: seq<int>, chs: seq<Chain>, k: nat): set<int>
    requires HoldsAll(mem, p, chs) && k <= |p|
  {
    if k == 0 then {} else
    assert HoldsAt(mem, p, chs, k - 1);
    Live(mem, p, chs, k - 1) + Cells(mem, p[k - 1], chs[k - 1])
  }

  lemma {:induction false} CellsLive(mem: seq<PoolNode>, p: seq<int>, chs: seq<Chain>, j: nat, k: nat)
    requires HoldsAll(mem, p, chs) && j < k <= |p|
    ensures HoldsAt(mem, p, chs, j) && Cells(mem, p[j], chs[j]) <= Live(mem, p, chs, k)
    decreases k
  {
    assert HoldsAt(mem, p, chs, j);
    if j < k - 1 { CellsLive(mem, p, chs, j, k - 1); }
  }

  function Triangle(k: nat): nat {
    if k == 0 then 0 else Triangle(k - 1) + k
  }

  lemma {:induction false} TriangleIs(k: nat)
    ensures 2 * Triangle(k) == k * (k + 1)
  {
    if k > 0 { TriangleIs(k - 1); }
  }

  lemma {:induction false} UnionSize<T>(a: set<T>, b: set<T>)
    ensures |a + b| <= |a| + |b|
  {
    assert a + b == a + (b - a);
    assert |b - a| <= |b| by { assert b == (b - a) + (a * b); }
  }

  lemma {:induction false} LiveBound(mem: seq<PoolNode>, p: seq<int>, chs: seq<Chain>, k: nat)
    requires HoldsAll(mem, p, chs) && k <= |p|
    ensures |Live(mem, p, chs, k)| <= Triangle(k)
    ensures forall x :: x in Live(mem, p, chs, k) ==> 0 <= x < |mem|
  {
    if k > 0 {
      LiveBound(mem, p, chs, k - 1);
      assert HoldsAt(mem, p, chs, k - 1);
      CellsBound(mem, p[k - 1], chs[k - 1]);
      UnionSize(Live(mem, p, chs, k - 1), Cells(mem, p[k - 1], chs[k - 1]));
    }
  }

  lemma {:induction false} LiveFrame(mem: seq<PoolNode>, f: int, node: PoolNode, p: seq<int>, chs: seq<Chain>, k: nat)
    requires 0 <= f < |mem| && HoldsAll(mem, p, chs) && k <= |p| && f !in Live(mem, p, chs, |p|)
    ensures HoldsAll(mem[f := node], p, chs)
    ensures Live(mem[f := node], p, chs, k) == Live(mem, p, chs, k)
  {
    forall j: nat | j < |p|
      ensures HoldsAt(mem[f := node], p, chs, j)
      ensures HoldsAt(mem, p, chs, j) && Cells(mem[f := node], p[j], chs[j]) == Cells(mem, p[j], chs[j])
    {
      CellsLive(mem, p, chs, j, |p|);
      HoldsFrame(mem, f, node, p[j], chs[j]);
    }
    if k > 0 { LiveFrame(mem, f, node, p, chs, k - 1); }
  }

  /** Replacing chain c. */
  lemma {:induction false} LiveUpdate(mem: seq<PoolNode>, p: seq<int>, chs: seq<Chain>, c: nat, q: int, ch: Chain, k: nat)
    requires HoldsAll(mem, p, chs) && c < |p| && k <= |p|
    requires Holds(mem, q, ch) && ch.Node? && Depth(ch) <= c + 1
    ensures HoldsAll(mem, p[c := q], chs[c := ch])
    ensures Live(mem, p[c := q], chs[c := ch], k) <= Live(mem, p, chs, k) + Cells(mem, q, ch)
  {
    var p', chs' := p[c := q], chs[c := ch];
    forall j: nat | j < |p'| ensures HoldsAt(mem, p', chs', j) {
      assert HoldsAt(mem, p, chs, j);
    }
    if k > 0 { LiveUpdate(mem, p, chs, c, q, ch, k - 1); }
  }

  /** A set of fewer than n numbers misses one below n. */
  lemma {:induction false} RangeSize(s: set<int>, n: nat)
    requires forall x :: 0 <= x < n ==> x in s
    ensures |s| >= n
  {
    if n > 0 {
      RangeSize(s - {n - 1}, n - 1);
    }
  }

  // ---------------------------------------------------------------- the pool as a value

  /** The look-ahead chains of lists live at the indices p0 and p1 of mem, and the pool
      indices in free are distinct and in none of the chains. */
  ghost predicate PoolOk(mem: seq<PoolNode>, p0: seq<int>, p1: seq<int>, lists: Lists, free: seq<int>) {
    |p0| == |p1| == |lists.count| > 0 &&
    HoldsAll(mem, p0, lists.chains0) && HoldsAll(mem, p1, lists.chains1) &&
    (forall i :: 0 <= i < |free| ==> 0 <= free[i] < |mem| && free[i] !in AllLive(mem, p0, p1, lists)) &&
    forall i, j :: 0 <= i < j < |free| ==> free[i] != free[j]
  }

  ghost function AllLive(mem: seq<PoolNode>, p0: seq<int>, p1: seq<int>, lists: Lists): set<int>
    requires HoldsAll(mem, p0, lists.chains0) && HoldsAll(mem, p1, lists.chains1)
  {
    Live(mem, p0, lists.chains0, |p0|) + Live(mem, p1, lists.chains1, |p1|)
  }

  ghost predicate Apart(free: seq<int>, cells: set<int>) {
    forall i :: 0 <= i < |free| ==> free[i] !in cells
  }

  /** Building a node over a live tail in a free cell. */
  lemma {:induction false} TakeOk(mem: seq<PoolNode>, p0: seq<int>, p1: seq<int>, lists: Lists, free: seq<int>,
                                  weight: int, index: nat, tail: int, ch: Chain)
    requires PoolOk(mem, p0, p1, lists, free) && |free| > 0
    requires Holds(mem, tail, ch) && Cells(mem, tail, ch) <= AllLive(mem, p0, p1, lists)
    ensures var mem' := mem[free[0] := PoolNode(weight, index, tail)];
      PoolOk(mem', p0, p1, lists, free[1..]) &&
      AllLive(mem', p0, p1, lists) == AllLive(mem, p0, p1, lists) &&
      Holds(mem', free[0], Node(weight, index, ch)) &&
      Apart(free[1..], Cells(mem', free[0], Node(weight, index, ch)))
  {
    var f, node := free[0], PoolNode(weight, index, tail);
    LiveFrame(mem, f, node, p0, lists.chains0, |p0|);
    LiveFrame(mem, f, node, p1, lists.chains1, |p1|);
    HoldsFrame(mem, f, node, tail, ch);
  }

  /** The first look-ahead chain of list c is replaced by the second. */
  lemma {:induction false} ShiftOk(mem: seq<PoolNode>, p0: seq<int>, p1: seq<int>, lists: Lists, free: seq<int>, c: nat)
    requires PoolOk(mem, p0, p1, lists, free) && c < |p0|
    ensures PoolOk(mem, p0[c := p1[c]], p1, lists.(chains0 := lists.chains0[c := lists.chains1[c]]), free)
  {
    CellsLive(mem, p1, lists.chains1, c, |p1|);
    LiveUpdate(mem, p0, lists.chains0, c, p1[c], lists.chains1[c], |p0|);
  }

  /** The second look-ahead chain of list c is replaced by a chain at q over cells that are
      not free. */
  lemma {:induction false} SetOk(mem: seq<PoolNode>, p0: seq<int>, p1: seq<int>, lists: Lists, free: seq<int>,
                                 c: nat, q: int, ch: Chain)
    requires PoolOk(mem, p0, p1, lists, free) && c < |p1|
    requires Holds(mem, q, ch) && ch.Node? && Depth(ch) <= c + 1
    requires Apart(free, Cells(mem, q, ch))
    ensures PoolOk(mem, p0, p1[c := q], lists.(chains1 := lists.chains1[c := ch]), free)
  {
    LiveUpdate(mem, p1, lists.chains1, c, q, ch, |p1|);
  }

  /** With 2 * L * (L + 1) cells, at most half of the cells are ever live. */
  lemma {:induction false} SomeCellFree(mem: seq<PoolNode>, p0: seq<int>, p1: seq<int>, lists: Lists)
    requires |p0| == |p1| > 0 && |mem| == 2 * |p0| * (|p0| + 1)
    requires HoldsAll(mem, p0, lists.chains0) && HoldsAll(mem, p1, lists.chains1)
    ensures 2 * |AllLive(mem, p0, p1, lists)| <= |mem|
    ensures exists x :: 0 <= x < |mem| && x !in AllLive(mem, p0, p1, lists)
  {
    LiveBound(mem, p0, lists.chains0, |p0|);
    LiveBound(mem, p1, lists.chains1, |p1|);
    UnionSize(Live(mem, p0, lists.chains0, |p0|), Live(mem, p1, lists.chains1, |p1|));
    TriangleIs(|p0|);
    var k := |p0|;
    assert 2 * k * (k + 1) == 2 * (k * (k + 1)) && k * (k + 1) > 0;
    if forall x :: 0 <= x < |mem| ==> x in AllLive(mem, p0, p1, lists) {
      RangeSize(AllLive(mem, p0, p1, lists), |mem|);
    }
  }
}
