/** Package-merge as a greedy choice: the items of a list are its leaves and the packages of
    the list below, in ascending order; and why the first items are the cheapest choice. */
module GreedyMerge {
  import opened Bits
  import opened CanonicalCode

  ghost predicate SortedWeights(ws: seq<int>) {
    (forall i :: 0 <= i < |ws| ==> 0 < ws[i]) && forall i, j :: 0 <= i <= j < |ws| ==> ws[i] <= ws[j]
  }

  /** How many items list c has: all leaves and half the list below. */
  function Capacity(n: nat, c: nat): nat
    decreases c, n
  {
    if c == 0 then n else n + Capacity(n, c - 1) / 2
  }

  // ---------------------------------------------------------------- items

  /** After a leaves and b packages of list c the next item is a leaf. */
  ghost predicate LeafNext(ws: seq<int>, c: nat, a: nat, b: nat)
    decreases c, 1, b
  {
    a < |ws| && (c == 0 || 2 * b + 2 > Capacity(|ws|, c - 1) || Package(ws, c, b) > ws[a])
  }

  /** How many of the first t items of list c are leaves. */
  ghost function Index(ws: seq<int>, c: nat, t: nat): (a: nat)
    ensures a <= t && a <= |ws|
    decreases c, 2, t
  {
    if t == 0 then 0 else
    var a := Index(ws, c, t - 1);
    if LeafNext(ws, c, a, t - 1 - a) then a + 1 else a
  }

  /** The weight of the t-th item of list c. */
  ghost function Item(ws: seq<int>, c: nat, t: nat): int
    requires t > 0
    decreases c, 3, t
  {
    var a := Index(ws, c, t - 1);
    if LeafNext(ws, c, a, t - 1 - a) then ws[a] else if c == 0 then 0 else Package(ws, c, t - 1 - a)
  }

  /** The weight of the package after b packages of list c. */
  ghost function Package(ws: seq<int>, c: nat, b: nat): int
    requires c > 0
    decreases c, 0, b
  {
    Item(ws, c - 1, 2 * b + 1) + Item(ws, c - 1, 2 * b + 2)
  }

  lemma {:induction false} BottomIndex(ws: seq<int>, t: nat)
    requires t <= |ws|
    ensures Index(ws, 0, t) == t
    decreases t
  {
    if t > 0 { BottomIndex(ws, t - 1); }
  }

  /** The packages among the items exist. */
  lemma {:induction false} PackagesFit(ws: seq<int>, c: nat, t: nat)
    requires c > 0 && t <= Capacity(|ws|, c)
    ensures 2 * (t - Index(ws, c, t)) <= Capacity(|ws|, c - 1)
    decreases t
  {
    if t > 0 { PackagesFit(ws, c, t - 1); }
  }

  // ---------------------------------------------------------------- order

  /** A package that was taken is no heavier than the next leaf. */
  lemma {:induction false} PackagesBelow(ws: seq<int>, c: nat, t: nat, k: nat)
    requires SortedWeights(ws) && c > 0 && Index(ws, c, t) < |ws| && k < t - Index(ws, c, t)
    ensures Package(ws, c, k) <= ws[Index(ws, c, t)]
    decreases t
  {
    var a := Index(ws, c, t - 1);
    if k < t - 1 - a { PackagesBelow(ws, c, t - 1, k); }
  }

  /** A leaf that was taken is no heavier than the packages that were not. */
  lemma {:induction false} LeavesBelow(ws: seq<int>, c: nat, t: nat, j: nat, k: nat)
    requires SortedWeights(ws) && c > 0 && j < Index(ws, c, t)
    requires t - Index(ws, c, t) <= k && 2 * k + 2 <= Capacity(|ws|, c - 1)
    ensures ws[j] <= Package(ws, c, k)
    decreases c, 1, t
  {
    var a := Index(ws, c, t - 1);
    if j < a {
      LeavesBelow(ws, c, t - 1, j, k);
    } else {
      PackagesAscend(ws, c, t - 1 - a, k);
    }
  }

  lemma {:induction false} PackagesAscend(ws: seq<int>, c: nat, k: nat, m: nat)
    requires SortedWeights(ws) && c > 0 && k <= m && 2 * m + 2 <= Capacity(|ws|, c - 1)
    ensures Package(ws, c, k) <= Package(ws, c, m)
    decreases c, 0, m + 1
  {
    if k < m {
      PackagesAscend(ws, c, k, m - 1);
      NextPackage(ws, c, m);
    }
  }

  lemma {:induction false} NextPackage(ws: seq<int>, c: nat, m: nat)
    requires SortedWeights(ws) && c > 0 && m > 0 && 2 * m + 2 <= Capacity(|ws|, c - 1)
    ensures Package(ws, c, m - 1) <= Package(ws, c, m)
    decreases c, 0, 0
  {
    var p := PairsAscend(ws, c - 1, 2 * m - 1);
    TwoItems(ws, c, m - 1, 2 * m - 1, p.0);
    TwoItems(ws, c, m, 2 * m + 1, p.1);
  }

  /** The weights of two pairs of items, one after the other. */
  lemma {:induction false} PairsAscend(ws: seq<int>, c: nat, t: nat) returns (p: (int, int))
    requires SortedWeights(ws) && t > 0 && t + 3 <= Capacity(|ws|, c)
    ensures p.0 == Item(ws, c, t) + Item(ws, c, t + 1) && p.1 == Item(ws, c, t + 2) + Item(ws, c, t + 3) && p.0 <= p.1
    decreases c, 3
  {
    ItemsAscend(ws, c, t);
    ItemsAscend(ws, c, t + 1);
    ItemsAscend(ws, c, t + 2);
    p := (Item(ws, c, t) + Item(ws, c, t + 1), Item(ws, c, t + 2) + Item(ws, c, t + 3));
  }

  lemma {:induction false} TwoItems(ws: seq<int>, c: nat, b: nat, t: nat, p: int)
    requires c > 0 && t == 2 * b + 1 && p == Item(ws, c - 1, t) + Item(ws, c - 1, t + 1)
    ensures Package(ws, c, b) == p
  {
  }

  /** The items of a list ascend. */
  lemma {:induction false} ItemsAscend(ws: seq<int>, c: nat, t: nat)
    requires SortedWeights(ws) && 0 < t < Capacity(|ws|, c)
    ensures Item(ws, c, t) <= Item(ws, c, t + 1)
    decreases c, 2
  {
    var a := Index(ws, c, t);
    if c == 0 {
      BottomIndex(ws, t - 1);
      BottomIndex(ws, t);
    } else if LeafNext(ws, c, a, t - a) {
      if t > a { PackagesBelow(ws, c, t, t - a - 1); }
    } else {
      PackagesFit(ws, c, t + 1);
      if a > 0 { LeavesBelow(ws, c, t, a - 1, t - a); }
      if t > a { PackagesAscend(ws, c, t - a - 1, t - a); }
    }
  }

  // ---------------------------------------------------------------- cost

  /** The weight of the first a leaves. */
  ghost function LeafSum(ws: seq<int>, a: nat): int
    requires a <= |ws|
  {
    if a == 0 then 0 else LeafSum(ws, a - 1) + ws[a - 1]
  }

  /** The weight of the first t items of list c. */
  ghost function GreedyCost(ws: seq<int>, c: nat, t: nat): int
    decreases c
  {
    var a := Index(ws, c, t);
    LeafSum(ws, a) + if c == 0 then 0 else GreedyCost(ws, c - 1, 2 * (t - a))
  }

  lemma {:induction false} NoCost(ws: seq<int>, c: nat, t: nat)
    requires t == 0
    ensures GreedyCost(ws, c, t) == 0
    decreases c
  {
    if c > 0 { NoCost(ws, c - 1, 2 * (t - Index(ws, c, t))); }
  }

  lemma {:induction false} CostStep(ws: seq<int>, c: nat, t: nat)
    requires t < Capacity(|ws|, c)
    ensures GreedyCost(ws, c, t + 1) == GreedyCost(ws, c, t) + Item(ws, c, t + 1)
    decreases c, 1
  {
    var a := Index(ws, c, t);
    if c == 0 {
      BottomIndex(ws, t);
    } else if !LeafNext(ws, c, a, t - a) {
      PackagesFit(ws, c, t + 1);
      PackageCost(ws, c, t - a);
    }
  }

  lemma {:induction false} PackageCost(ws: seq<int>, c: nat, b: nat)
    requires c > 0 && 2 * b + 2 <= Capacity(|ws|, c - 1)
    ensures GreedyCost(ws, c - 1, 2 * (b + 1)) == GreedyCost(ws, c - 1, 2 * b) + Package(ws, c, b)
    decreases c, 0
  {
    CostStep(ws, c - 1, 2 * b);
    CostStep(ws, c - 1, 2 * b + 1);
  }

  lemma {:induction false} LeafSumGrows(ws: seq<int>, a: nat, b: nat)
    requires SortedWeights(ws) && a <= b <= |ws|
    ensures 0 <= LeafSum(ws, a) <= LeafSum(ws, b)
    decreases b
  {
    if a < b { LeafSumGrows(ws, a, b - 1); } else if a > 0 { LeafSumGrows(ws, a - 1, b - 1); }
  }

  lemma {:induction false} CostBounded(ws: seq<int>, c: nat, t: nat, total: int)
    requires SortedWeights(ws) && t <= Capacity(|ws|, c) && total == LeafSum(ws, |ws|)
    ensures 0 <= GreedyCost(ws, c, t) <= (c + 1) * total
    decreases c
  {
    LeafSumGrows(ws, Index(ws, c, t), |ws|);
    if c > 0 {
      PackagesFit(ws, c, t);
      CostBounded(ws, c - 1, 2 * (t - Index(ws, c, t)), total);
      assert (c + 1) * total == c * total + total;
    }
  }

  /** No sum of two look-ahead weights exceeds c times the sum of all weights, so in the 32-bit
      int of the source none wraps around as long as that is below 2^31. */
  lemma {:induction false} SumsFit(ws: seq<int>, c: nat, b: nat, total: int)
    requires SortedWeights(ws) && c > 0 && 2 * b + 2 <= Capacity(|ws|, c - 1) && total == LeafSum(ws, |ws|)
    ensures 0 < Package(ws, c, b) <= c * total
    ensures c * total < 0x8000_0000 ==> Package(ws, c, b) < 0x8000_0000
  {
    PackageCost(ws, c, b);
    PackagePositive(ws, c, b);
    CostBounded(ws, c - 1, 2 * b, total);
    CostBounded(ws, c - 1, 2 * (b + 1), total);
  }

  lemma {:induction false} ItemPositive(ws: seq<int>, c: nat, t: nat)
    requires SortedWeights(ws) && 0 < t <= Capacity(|ws|, c)
    ensures Item(ws, c, t) > 0
    decreases c, 1
  {
    var a := Index(ws, c, t - 1);
    if c == 0 {
      BottomIndex(ws, t - 1);
    } else if !LeafNext(ws, c, a, t - 1 - a) {
      PackagesFit(ws, c, t);
      PackagePositive(ws, c, t - 1 - a);
    }
  }

  lemma {:induction false} PackagePositive(ws: seq<int>, c: nat, b: nat)
    requires SortedWeights(ws) && c > 0 && 2 * b + 2 <= Capacity(|ws|, c - 1)
    ensures Package(ws, c, b) > 0
    decreases c, 0
  {
    ItemPositive(ws, c - 1, 2 * b + 1);
    ItemPositive(ws, c - 1, 2 * b + 2);
  }

  /** The cost of a leaves and b packages of list c. */
  ghost function SplitCost(ws: seq<int>, c: nat, a: nat, b: nat): int
    requires c > 0 && a <= |ws|
  {
    LeafSum(ws, a) + GreedyCost(ws, c - 1, 2 * b)
  }

  /** Exchanging a package for a leaf that greedy merging does not take does not pay. */
  lemma {:induction false} MoreLeaves(ws: seq<int>, c: nat, t: nat, a: nat, b: nat)
    requires SortedWeights(ws) && c > 0 && t <= Capacity(|ws|, c) && Index(ws, c, t) <= a < |ws|
    requires b < t - Index(ws, c, t)
    ensures SplitCost(ws, c, a, b + 1) <= SplitCost(ws, c, a + 1, b)
  {
    PackagesFit(ws, c, t);
    PackageCost(ws, c, b);
    PackagesBelow(ws, c, t, b);
  }

  /** Nor does the reverse. */
  lemma {:induction false} MorePackages(ws: seq<int>, c: nat, t: nat, a: nat, b: nat)
    requires SortedWeights(ws) && c > 0 && a < Index(ws, c, t)
    requires t - Index(ws, c, t) <= b && 2 * b + 2 <= Capacity(|ws|, c - 1)
    ensures SplitCost(ws, c, a + 1, b) <= SplitCost(ws, c, a, b + 1)
  {
    PackageCost(ws, c, b);
    LeavesBelow(ws, c, t, a, b);
  }

  /** No other number of leaves makes t items of list c cheaper. */
  lemma {:induction false} SplitBest(ws: seq<int>, c: nat, t: nat, a: nat)
    requires SortedWeights(ws) && c > 0 && a <= |ws| && a <= t <= Capacity(|ws|, c)
    requires 2 * (t - a) <= Capacity(|ws|, c - 1)
    ensures GreedyCost(ws, c, t) <= SplitCost(ws, c, a, t - a)
  {
    if a >= Index(ws, c, t) { BestBelow(ws, c, t, a); } else { BestAbove(ws, c, t, a); }
  }

  lemma {:induction false} BestBelow(ws: seq<int>, c: nat, t: nat, a: nat)
    requires SortedWeights(ws) && c > 0 && Index(ws, c, t) <= a <= |ws| && a <= t <= Capacity(|ws|, c)
    requires 2 * (t - a) <= Capacity(|ws|, c - 1)
    ensures GreedyCost(ws, c, t) <= SplitCost(ws, c, a, t - a)
    decreases a
  {
    if a > Index(ws, c, t) {
      PackagesFit(ws, c, t);
      BestBelow(ws, c, t, a - 1);
      MoreLeaves(ws, c, t, a - 1, t - a);
    }
  }

  lemma {:induction false} BestAbove(ws: seq<int>, c: nat, t: nat, a: nat)
    requires SortedWeights(ws) && c > 0 && a <= Index(ws, c, t) && a <= |ws| && a <= t <= Capacity(|ws|, c)
    requires 2 * (t - a) <= Capacity(|ws|, c - 1)
    ensures GreedyCost(ws, c, t) <= SplitCost(ws, c, a, t - a)
    decreases Index(ws, c, t) - a
  {
    if a < Index(ws, c, t) {
      BestAbove(ws, c, t, a + 1);
      MorePackages(ws, c, t, a, t - a - 1);
    }
  }

  // ---------------------------------------------------------------- any code lengths

  /** How many of the first k lengths are at least d. */
  ghost function Level(ls: seq<nat>, d: int, k: nat): (m: nat)
    requires k <= |ls|
    ensures m <= k
  {
    if k == 0 then 0 else Level(ls, d, k - 1) + if ls[k - 1] >= d then 1 else 0
  }

  /** The weight of those leaves. */
  ghost function LevelWeight(ws: seq<int>, ls: seq<nat>, d: int, k: nat): int
    requires k <= |ls| == |ws|
  {
    if k == 0 then 0 else LevelWeight(ws, ls, d, k - 1) + if ls[k - 1] >= d then ws[k - 1] else 0
  }

  lemma {:induction false} LightestFirst(ws: seq<int>, ls: seq<nat>, d: int, k: nat)
    requires SortedWeights(ws) && k <= |ls| == |ws|
    ensures LeafSum(ws, Level(ls, d, k)) <= LevelWeight(ws, ls, d, k)
    decreases k
  {
    if k > 0 { LightestFirst(ws, ls, d, k - 1); }
  }

  /** A leaf of length l is in l of the lists, the topmost ones. The width of a leaf in list
      c is 2^c; this is the width of the first k leaves in lists 0 to c, of maxbits lists. */
  ghost function Width(ls: seq<nat>, maxbits: nat, c: nat, k: nat): nat
    requires k <= |ls|
    decreases c, k
  {
    Shl(Level(ls, maxbits - c, k), c) + if c == 0 then 0 else Width(ls, maxbits, c - 1, k)
  }

  /** And this is their weight. */
  ghost function ListsWeight(ws: seq<int>, ls: seq<nat>, maxbits: nat, c: nat, k: nat): int
    requires k <= |ls| == |ws|
    decreases c, k
  {
    LevelWeight(ws, ls, maxbits - c, k) + if c == 0 then 0 else ListsWeight(ws, ls, maxbits, c - 1, k)
  }

  lemma {:induction false} NotNegative(ws: seq<int>, ls: seq<nat>, maxbits: nat, c: nat, k: nat)
    requires SortedWeights(ws) && k <= |ls| == |ws|
    ensures ListsWeight(ws, ls, maxbits, c, k) >= 0
    decreases c
  {
    LightestFirst(ws, ls, maxbits - c, k);
    LeafSumGrows(ws, 0, Level(ls, maxbits - c, k));
    if c > 0 { NotNegative(ws, ls, maxbits, c - 1, k); }
  }

  /** Whatever is as wide as t items of list c weighs at least as much as the first t. */
  lemma {:induction false} GreedyCheapest(ws: seq<int>, ls: seq<nat>, maxbits: nat, c: nat, t: nat)
    requires SortedWeights(ws) && |ls| == |ws| && Width(ls, maxbits, c, |ws|) >= Shl(t, c)
    ensures t <= Capacity(|ws|, c) && GreedyCost(ws, c, t) <= ListsWeight(ws, ls, maxbits, c, |ws|)
    decreases c
  {
    var n := |ws|;
    var a := Level(ls, maxbits - c, n);
    LightestFirst(ws, ls, maxbits - c, n);
    if c == 0 {
      BottomIndex(ws, t);
      LeafSumGrows(ws, t, a);
    } else if t <= a {
      LeafSumGrows(ws, t, a);
      NotNegative(ws, ls, maxbits, c - 1, n);
      SplitBest(ws, c, t, t);
      NoCost(ws, c - 1, 2 * (t - t));
    } else {
      ShlAdd(a, t - a, c);
      ShlShl(t - a, 1, c - 1);
      assert Shl(t - a, 1) == 2 * Shl(t - a, 0);
      GreedyCheapest(ws, ls, maxbits, c - 1, 2 * (t - a));
      SplitBest(ws, c, t, a);
    }
  }

  /** The sum of weight times length. */
  ghost function Cost(ws: seq<int>, ls: seq<nat>, k: nat): int
    requires k <= |ls| == |ws|
  {
    if k == 0 then 0 else Cost(ws, ls, k - 1) + ws[k - 1] * ls[k - 1]
  }

  /** How many of the lists 0 to c a leaf of length l is in. */
  function InLists(maxbits: nat, c: nat, l: nat): nat {
    if l + c + 1 < maxbits then 0 else l + c + 1 - maxbits
  }

  lemma {:induction false} WeightStep(ws: seq<int>, ls: seq<nat>, maxbits: nat, c: nat, k: nat)
    requires 0 < k <= |ls| == |ws| && c < maxbits && ls[k - 1] <= maxbits
    ensures ListsWeight(ws, ls, maxbits, c, k) ==
            ListsWeight(ws, ls, maxbits, c, k - 1) + ws[k - 1] * InLists(maxbits, c, ls[k - 1])
    decreases c
  {
    if c > 0 { WeightStep(ws, ls, maxbits, c - 1, k); }
    var w, m := ws[k - 1], InLists(maxbits, c, ls[k - 1]);
    if m > 0 { assert w * m == w * (m - 1) + w; }
  }

  lemma {:induction false} CostByLists(ws: seq<int>, ls: seq<nat>, maxbits: nat, k: nat)
    requires k <= |ls| == |ws| && maxbits > 0 && forall i :: 0 <= i < |ls| ==> ls[i] <= maxbits
    ensures Cost(ws, ls, k) == ListsWeight(ws, ls, maxbits, maxbits - 1, k)
    decreases k
  {
    if k == 0 {
      NoWeight(ws, ls, maxbits, maxbits - 1);
    } else {
      CostByLists(ws, ls, maxbits, k - 1);
      WeightStep(ws, ls, maxbits, maxbits - 1, k);
    }
  }

  lemma {:induction false} NoWeight(ws: seq<int>, ls: seq<nat>, maxbits: nat, c: nat)
    requires |ls| == |ws|
    ensures ListsWeight(ws, ls, maxbits, c, 0) == 0 && Width(ls, maxbits, c, 0) == 0
    decreases c
  {
    ShlIsMul(0, c);
    if c > 0 { NoWeight(ws, ls, maxbits, c - 1); }
  }

  lemma {:induction false} WidthStep(ls: seq<nat>, maxbits: nat, c: nat, k: nat)
    requires 0 < k <= |ls| && c < maxbits && ls[k - 1] <= maxbits
    ensures Width(ls, maxbits, c, k) + (if InLists(maxbits, c, ls[k - 1]) > 0 then Pow2(maxbits - ls[k - 1]) else 0) ==
            Width(ls, maxbits, c, k - 1) + if InLists(maxbits, c, ls[k - 1]) > 0 then Pow2(c + 1) else 0
    decreases c
  {
    var m := Level(ls, maxbits - c, k - 1);
    ShlAdd(m, 1, c);
    ShlPow2(0, c);
    if c > 0 { WidthStep(ls, maxbits, c - 1, k); }
  }

  /** Width and Kraft sum add up to 2^maxbits for every leaf. */
  lemma {:induction false} WidthAndKraft(ls: seq<nat>, maxbits: nat, k: nat)
    requires k <= |ls| && maxbits > 0 && Bounded(ls, maxbits) && forall i :: 0 <= i < |ls| ==> ls[i] > 0
    ensures Width(ls, maxbits, maxbits - 1, k) + Kraft(ls, maxbits, k) == Shl(k, maxbits)
    decreases k
  {
    if k == 0 {
      NoWeight(seq(|ls|, _ => 0), ls, maxbits, maxbits - 1);
      ShlIsMul(0, maxbits);
    } else {
      WidthAndKraft(ls, maxbits, k - 1);
      WidthStep(ls, maxbits, maxbits - 1, k);
      ShlAdd(k - 1, 1, maxbits);
      ShlPow2(0, maxbits);
    }
  }

  /** No code of at most maxbits bits, complete or not, costs less than the first 2 * n - 2
      items of the last list. */
  lemma {:induction false} NoCodeCheaper(ws: seq<int>, ls: seq<nat>, maxbits: nat)
    requires SortedWeights(ws) && |ls| == |ws| >= 2 && maxbits > 0
    requires Bounded(ls, maxbits) && forall i :: 0 <= i < |ls| ==> ls[i] > 0
    requires Kraft(ls, maxbits, |ls|) <= Pow2(maxbits)
    ensures GreedyCost(ws, maxbits - 1, 2 * |ws| - 2) <= Cost(ws, ls, |ws|)
  {
    var n := |ws|;
    WidthAndKraft(ls, maxbits, n);
    ShlAdd(n - 1, 1, maxbits);
    ShlPow2(0, maxbits);
    ShlShl(n - 1, 1, maxbits - 1);
    assert Shl(n - 1, 1) == 2 * Shl(n - 1, 0);
    GreedyCheapest(ws, ls, maxbits, maxbits - 1, 2 * n - 2);
    CostByLists(ws, ls, maxbits, n);
  }
}
