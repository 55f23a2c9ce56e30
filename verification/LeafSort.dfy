/** bpmnode_sort: bottom-up merge sort of the leaves by weight, alternating between the array
    and a scratch copy. */
module LeafSort {
  import opened BoundaryPM

  ghost predicate Ascending(s: seq<Leaf>, p: nat, q: nat)
    requires q <= |s|
  {
    forall i, j :: p <= i <= j < q ==> s[i].weight <= s[j].weight
  }

  function Clip(x: nat, n: nat): nat { if x > n then n else x }

  /** From p on, consecutive runs of the given width are ascending. */
  ghost predicate Runs(s: seq<Leaf>, p: nat, width: nat)
    requires width > 0
    decreases |s| - p
  {
    p >= |s| || (Ascending(s, p, Clip(p + width, |s|)) && Runs(s, Clip(p + width, |s|), width))
  }

  /** The stable merge of s[i..q] and s[j..r]. */
  function Merge(s: seq<Leaf>, i: nat, q: nat, j: nat, r: nat): (z: seq<Leaf>)
    requires i <= q <= |s| && j <= r <= |s|
    ensures |z| == q - i + r - j
    decreases q - i + r - j
  {
    if i < q && (j >= r || s[i].weight <= s[j].weight) then [s[i]] + Merge(s, i + 1, q, j, r)
    else if j < r then [s[j]] + Merge(s, i, q, j + 1, r)
    else []
  }

  /** One pass from p on: neighbouring runs are merged. */
  function Pass(s: seq<Leaf>, p: nat, width: nat): (z: seq<Leaf>)
    requires width > 0 && p <= |s|
    ensures |z| == |s| - p
    decreases |s| - p
  {
    if p == |s| then [] else
    var q, r := Clip(p + width, |s|), Clip(p + 2 * width, |s|);
    Merge(s, p, q, q, r) + Pass(s, r, width)
  }

  lemma {:induction false} MergeSame(s: seq<Leaf>, i: nat, q: nat, j: nat, r: nat)
    requires i <= q <= |s| && j <= r <= |s|
    ensures multiset(Merge(s, i, q, j, r)) == multiset(s[i..q]) + multiset(s[j..r])
    decreases q - i + r - j
  {
    if i < q && (j >= r || s[i].weight <= s[j].weight) {
      MergeSame(s, i + 1, q, j, r);
      FirstOut(s, i, q);
      FirstIn(s[i], Merge(s, i + 1, q, j, r), multiset(s[i + 1..q]), multiset(s[j..r]));
    } else if j < r {
      MergeSame(s, i, q, j + 1, r);
      FirstOut(s, j, r);
      FirstIn(s[j], Merge(s, i, q, j + 1, r), multiset(s[j + 1..r]), multiset(s[i..q]));
    }
  }

  lemma {:induction false} FirstIn(x: Leaf, m: seq<Leaf>, a: multiset<Leaf>, b: multiset<Leaf>)
    requires multiset(m) == a + b
    ensures multiset([x] + m) == (multiset{x} + a) + b == b + (multiset{x} + a)
  {
  }

  lemma {:induction false} FirstOut(s: seq<Leaf>, i: nat, q: nat)
    requires i < q <= |s|
    ensures multiset(s[i..q]) == multiset{s[i]} + multiset(s[i + 1..q])
  {
    assert s[i..q] == [s[i]] + s[i + 1..q];
  }

  lemma {:induction false} MergeAscends(s: seq<Leaf>, i: nat, q: nat, j: nat, r: nat)
    requires i <= q <= |s| && j <= r <= |s| && Ascending(s, i, q) && Ascending(s, j, r)
    ensures var z := Merge(s, i, q, j, r);
      Ascending(z, 0, |z|) && (z != [] ==> z[0] == if i < q && (j >= r || s[i].weight <= s[j].weight) then s[i] else s[j])
    decreases q - i + r - j
  {
    if i < q && (j >= r || s[i].weight <= s[j].weight) {
      MergeAscends(s, i + 1, q, j, r);
      Prepend(s[i], Merge(s, i + 1, q, j, r));
    } else if j < r {
      MergeAscends(s, i, q, j + 1, r);
      Prepend(s[j], Merge(s, i, q, j + 1, r));
    }
  }

  lemma {:induction false} Prepend(a: Leaf, s: seq<Leaf>)
    requires Ascending(s, 0, |s|) && (s != [] ==> a.weight <= s[0].weight)
    ensures Ascending([a] + s, 0, |s| + 1)
  {
    var t := [a] + s;
    forall i, j | 0 <= i <= j < |t| ensures t[i].weight <= t[j].weight {
      if i == 0 && j > 0 { assert s[0].weight <= s[j - 1].weight; }
    }
  }

  lemma {:induction false} PassSame(s: seq<Leaf>, p: nat, width: nat)
    requires width > 0 && p <= |s|
    ensures multiset(Pass(s, p, width)) == multiset(s[p..])
    decreases |s| - p
  {
    if p < |s| {
      var q, r := Clip(p + width, |s|), Clip(p + 2 * width, |s|);
      MergeSame(s, p, q, q, r);
      PassSame(s, r, width);
      ThreeParts(s, p, q, r);
    }
  }

  lemma {:induction false} ThreeParts(s: seq<Leaf>, p: nat, q: nat, r: nat)
    requires p <= q <= r <= |s|
    ensures multiset(s[p..]) == multiset(s[p..q]) + multiset(s[q..r]) + multiset(s[r..])
  {
    assert s[p..] == s[p..q] + s[q..r] + s[r..];
  }

  lemma {:induction false} RunsShift(u: seq<Leaf>, s: seq<Leaf>, p: nat, width: nat)
    requires width > 0 && Runs(s, p, width)
    ensures Runs(u + s, |u| + p, width)
    decreases |s| - p
  {
    if p < |s| {
      var q := Clip(p + width, |s|);
      RunsShift(u, s, q, width);
      assert Clip(|u| + p + width, |u + s|) == |u| + q;
      forall i, j | |u| + p <= i <= j < |u| + q ensures (u + s)[i].weight <= (u + s)[j].weight {
        assert (u + s)[i] == s[i - |u|] && (u + s)[j] == s[j - |u|];
      }
    }
  }

  /** A pass doubles the width of the runs. */
  lemma {:induction false} PassDoubles(s: seq<Leaf>, p: nat, width: nat)
    requires width > 0 && p <= |s| && Runs(s, p, width)
    ensures Runs(Pass(s, p, width), 0, 2 * width)
    decreases |s| - p
  {
    if p < |s| {
      var q, r := Clip(p + width, |s|), Clip(p + 2 * width, |s|);
      assert Clip(q + width, |s|) == r;
      var m, rest := Merge(s, p, q, q, r), Pass(s, r, width);
      MergeAscends(s, p, q, q, r);
      PassDoubles(s, r, width);
      JoinRuns(m, rest, 2 * width);
    }
  }

  lemma {:induction false} JoinRuns(m: seq<Leaf>, rest: seq<Leaf>, width: nat)
    requires width > 0 && Ascending(m, 0, |m|) && Runs(rest, 0, width)
    requires |m| == width || (|m| <= width && rest == [])
    ensures Runs(m + rest, 0, width)
  {
    if m + rest != [] {
      RunsShift(m, rest, 0, width);
      assert Clip(width, |m + rest|) == |m|;
      assert Ascending(m + rest, 0, |m|);
    }
  }

  lemma {:induction false} UnitRuns(s: seq<Leaf>, p: nat)
    ensures Runs(s, p, 1)
    decreases |s| - p
  {
    if p < |s| { UnitRuns(s, p + 1); }
  }

  /** Merges a[p..q] and a[q..r] into b[p..r]. */
  method MergePair(a: array<Leaf>, b: array<Leaf>, p: nat, q: nat, r: nat, ghost s: seq<Leaf>)
    requires a != b && a.Length == b.Length && p <= q <= r <= a.Length && s == a[..]
    modifies b
    ensures b[..r] == old(b[..p]) + Merge(s, p, q, q, r)
  {
    ghost var goal := b[..p] + Merge(s, p, q, q, r);
    var i, j, k := p, q, p;
    while k < r
      invariant p <= i <= q <= j <= r && k == p + (i - p) + (j - q)
      invariant b[..k] + Merge(s, i, q, j, r) == goal
    {
      ghost var u := b[..k];
      if i < q && (j >= r || a[i].weight <= a[j].weight) {
        b[k] := a[i];
        i := i + 1;
      } else {
        b[k] := a[j];
        j := j + 1;
      }
      assert b[..k + 1] == u + [b[k]];
      k := k + 1;
    }
  }

  method MergePass(a: array<Leaf>, b: array<Leaf>, width: nat)
    requires a != b && a.Length == b.Length && width > 0
    modifies b
    ensures b[..] == Pass(a[..], 0, width)
  {
    ghost var s := a[..];
    ghost var goal := Pass(s, 0, width);
    var num, p := a.Length, 0;
    assert b[..0] + goal == goal;
    while p < num
      invariant p <= num
      invariant b[..p] + Pass(s, p, width) == goal
    {
      var q, r := Clip(p + width, num), Clip(p + 2 * width, num);
      NextPair(b[..p], s, p, q, r, width, goal);
      MergePair(a, b, p, q, r, s);
      p := r;
    }
    assert b[..p] == b[..];
  }

  lemma {:induction false} NextPair(u: seq<Leaf>, s: seq<Leaf>, p: nat, q: nat, r: nat, width: nat, goal: seq<Leaf>)
    requires width > 0 && p < |s| && q == Clip(p + width, |s|) && r == Clip(p + 2 * width, |s|)
    requires u + Pass(s, p, width) == goal
    ensures u + Merge(s, p, q, q, r) + Pass(s, r, width) == goal
  {
    assert Pass(s, p, width) == Merge(s, p, q, q, r) + Pass(s, r, width);
  }

  /** bpmnode_sort. */
  method Sort(leaves: array<Leaf>)
    modifies leaves
    ensures Ascending(leaves[..], 0, leaves.Length)
    ensures multiset(leaves[..]) == old(multiset(leaves[..]))
  {
    var num := leaves.Length;
    var mem := new Leaf[num];
    var a, b := leaves, mem;
    var width := 1;
    ghost var all := multiset(leaves[..]);
    UnitRuns(leaves[..], 0);
    while width < num
      invariant width > 0 && {a, b} == {leaves, mem} && a != b
      invariant Runs(a[..], 0, width) && multiset(a[..]) == all
      decreases num - width
    {
      PassSame(a[..], 0, width);
      assert a[..][0..] == a[..];
      PassDoubles(a[..], 0, width);
      MergePass(a, b, width);
      a, b := b, a;
      width := 2 * width;
    }
    ghost var sorted := a[..];
    if a != leaves {
      forall i | 0 <= i < num { leaves[i] := mem[i]; }
      assert leaves[..] == sorted;
    }
  }
}
