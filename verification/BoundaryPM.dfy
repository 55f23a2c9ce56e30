/** The BPMLists structure of lodepng.c: chain nodes in a pool, a free list that is refilled
    by mark-and-collect, and the boundaryPM step. */
module BoundaryPM {
  import opened PackageMerge
  import opened NodePool

  class BPMLists {
    const memory: array<PoolNode>
    const inUse: array<bool>
    const freelist: array<int>
    const chains0: array<int>
    const chains1: array<int>
    var numfree: nat
    var nextfree: nat
    ghost var lists: Lists

    ghost predicate Shape()
      reads this
    {
      freelist != chains0 && freelist != chains1 && chains0 != chains1 &&
      var k := chains0.Length;
      chains1.Length == k > 0 &&
      memory.Length == inUse.Length == freelist.Length == 2 * k * (k + 1) &&
      |lists.count| == k && nextfree <= numfree <= freelist.Length
    }

    ghost predicate Valid()
      reads this, memory, freelist, chains0, chains1
    {
      Shape() && PoolOk(memory[..], chains0[..], chains1[..], lists, freelist[nextfree..numfree])
    }

    /** The first two nodes are taken from the free list without collecting; every list
        starts with them as its look-ahead chains. */
    constructor (leaves: seq<Leaf>, maxbitlen: nat)
      requires |leaves| >= 2 && maxbitlen > 0
      ensures Valid() && chains0.Length == maxbitlen && lists == Initial(Weights(leaves), maxbitlen)
      ensures fresh(memory) && fresh(inUse) && fresh(freelist) && fresh(chains0) && fresh(chains1)
    {
      var memsize := 2 * maxbitlen * (maxbitlen + 1);
      memory := new PoolNode[memsize];
      inUse := new bool[memsize];
      freelist := new int[memsize](i => i);
      chains0 := new int[maxbitlen](_ => 0);
      chains1 := new int[maxbitlen](_ => 1);
      numfree, nextfree := memsize, 2;
      lists := Initial(Weights(leaves), maxbitlen);
      new;
      PoolSize(maxbitlen);
      StartPool(leaves[0].weight, leaves[1].weight);
    }

    /** The first two nodes are those of the two lightest leaves, and every list starts with
        them. */
    method StartPool(w0: int, w1: int)
      requires Shape() && memory.Length >= 4 && nextfree == 2 && numfree == memory.Length
      requires forall i :: 0 <= i < freelist.Length ==> freelist[i] == i
      requires forall k :: 0 <= k < chains0.Length ==> chains0[k] == 0 && chains1[k] == 1
      requires |lists.chains0| == |lists.chains1| == chains0.Length
      requires forall k :: 0 <= k < chains0.Length ==> lists.chains0[k] == Node(w0, 1, Nil) && lists.chains1[k] == Node(w1, 2, Nil)
      modifies memory
      ensures Valid()
    {
      ghost var p0, p1, free := chains0[..], chains1[..], freelist[2..numfree];
      StoreLeaves(w0, w1);
      InitialPoolOk(memory[..], p0, p1, lists, free);
      assert chains0[..] == p0 && chains1[..] == p1;
    }

    /** The nodes of the two lightest leaves. */
    method StoreLeaves(w0: int, w1: int)
      requires memory.Length == freelist.Length >= 2 && freelist[0] == 0 && freelist[1] == 1
      modifies memory
      ensures memory[0] == PoolNode(w0, 1, NULL) && memory[1] == PoolNode(w1, 2, NULL)
    {
      memory[freelist[0]] := PoolNode(w0, 1, NULL);
      memory[freelist[1]] := PoolNode(w1, 2, NULL);
    }

    /** Marks the nodes of the chain at p. */
    method Mark(p: int, ghost ch: Chain)
      requires memory.Length == inUse.Length && Holds(memory[..], p, ch)
      modifies inUse
      ensures forall x :: 0 <= x < inUse.Length ==>
        (inUse[x] <==> old(inUse[x]) || x in Cells(memory[..], p, ch))
    {
      var node := p;
      ghost var rest := ch;
      while node != NULL
        invariant Holds(memory[..], node, rest)
        invariant forall x :: 0 <= x < inUse.Length ==>
          (inUse[x] || x in Cells(memory[..], node, rest) <==> old(inUse[x]) || x in Cells(memory[..], p, ch))
        decreases rest
      {
        inUse[node] := true;
        node := memory[node].tail;
        rest := rest.tail;
      }
    }

    /** Marks the nodes of all chains. */
    method MarkAll()
      requires Shape() && HoldsAll(memory[..], chains0[..], lists.chains0) && HoldsAll(memory[..], chains1[..], lists.chains1)
      modifies inUse
      ensures forall x :: 0 <= x < inUse.Length ==>
        (inUse[x] <==> x in AllLive(memory[..], chains0[..], chains1[..], lists))
    {
      var i := 0;
      while i != inUse.Length
        invariant i <= inUse.Length && forall x :: 0 <= x < i ==> !inUse[x]
      {
        inUse[i] := false;
        i := i + 1;
      }
      ghost var mem, p0, p1 := memory[..], chains0[..], chains1[..];
      i := 0;
      while i != chains0.Length
        invariant i <= chains0.Length
        invariant forall x :: 0 <= x < inUse.Length ==>
          (inUse[x] <==> x in Live(mem, p0, lists.chains0, i) || x in Live(mem, p1, lists.chains1, i))
      {
        assert HoldsAt(mem, p0, lists.chains0, i) && HoldsAt(mem, p1, lists.chains1, i);
        Mark(chains0[i], lists.chains0[i]);
        Mark(chains1[i], lists.chains1[i]);
        i := i + 1;
      }
    }

    method PutFree(x: int)
      requires 0 <= numfree < freelist.Length
      modifies this`numfree, freelist
      ensures numfree == old(numfree) + 1 && freelist[..numfree] == old(freelist[..numfree]) + [x]
    {
      freelist[numfree] := x;
      numfree := numfree + 1;
    }

    /** Lists the nodes that are not marked. */
    method ListUnmarked()
      requires Shape()
      modifies this`numfree, freelist
      ensures numfree <= memory.Length && Unmarked(freelist[..numfree], inUse[..], memory.Length)
    {
      numfree := 0;
      ghost var free: seq<int>, used := [], inUse[..];
      var i := 0;
      while i != memory.Length
        invariant numfree <= i <= memory.Length && freelist[..numfree] == free && Unmarked(free, used, i)
      {
        UnmarkedNext(free, used, i);
        if !inUse[i] {
          PutFree(i);
          free := free + [i];
        }
        i := i + 1;
      }
    }

    /** Refills the free list with the nodes that are in no chain; there always is one. */
    method Collect()
      requires Valid()
      modifies this`numfree, this`nextfree, inUse, freelist
      ensures Valid() && nextfree < numfree
      ensures forall x :: 0 <= x < memory.Length ==>
        (x in freelist[nextfree..numfree] <==> x !in AllLive(memory[..], chains0[..], chains1[..], lists))
    {
      ghost var mem, p0, p1 := memory[..], chains0[..], chains1[..];
      MarkAll();
      nextfree := 0;
      ListUnmarked();
      SomeCellFree(mem, p0, p1, lists);
      assert memory[..] == mem && chains0[..] == p0 && chains1[..] == p1;
    }

    /** bpmnode_create. The node is placed over no live node. */
    method Create(weight: int, index: nat, tail: int, ghost ch: Chain) returns (result: int)
      requires Valid() && Holds(memory[..], tail, ch)
      requires Cells(memory[..], tail, ch) <= AllLive(memory[..], chains0[..], chains1[..], lists)
      modifies this`numfree, this`nextfree, memory, inUse, freelist
      ensures Valid()
      ensures Holds(memory[..], result, Node(weight, index, ch))
      ensures Apart(freelist[nextfree..numfree], Cells(memory[..], result, Node(weight, index, ch)))
    {
      if nextfree >= numfree { Collect(); }
      ghost var mem, p0, p1, free := memory[..], chains0[..], chains1[..], freelist[nextfree..numfree];
      TakeOk(mem, p0, p1, lists, free, weight, index, tail, ch);
      result := freelist[nextfree];
      nextfree := nextfree + 1;
      memory[result] := PoolNode(weight, index, tail);
      assert memory[..] == mem[result := PoolNode(weight, index, tail)];
      assert freelist[nextfree..numfree] == free[1..];
      assert chains0[..] == p0 && chains1[..] == p1;
    }

    /** The look-ahead of list c moves on: the second chain becomes the first, and a new
        node is made for the second. */
    method Push(c: nat, weight: int, index: nat, tail: int, ghost ch: Chain)
      requires Valid() && c < chains0.Length && Depth(ch) <= c
      requires Holds(memory[..], tail, ch)
      requires Cells(memory[..], tail, ch) <= Live(memory[..], chains1[..], lists.chains1, chains1.Length)
      modifies this, memory, inUse, freelist, chains0, chains1
      ensures Valid()
      ensures lists == Lists(old(lists).chains0[c := old(lists).chains1[c]],
                             old(lists).chains1[c := Node(weight, index, ch)], old(lists).count)
    {
      ghost var p0, p1, free := chains0[..], chains1[..], freelist[nextfree..numfree];
      ShiftOk(memory[..], p0, p1, lists, free, c);
      chains0[c] := chains1[c];
      assert chains0[..] == p0[c := p1[c]] && chains1[..] == p1 && freelist[nextfree..numfree] == free;
      lists := lists.(chains0 := lists.chains0[c := lists.chains1[c]]);
      var r := Create(weight, index, tail, ch);
      p0, p1, free := chains0[..], chains1[..], freelist[nextfree..numfree];
      SetOk(memory[..], p0, p1, lists, free, c, r, Node(weight, index, ch));
      chains1[c] := r;
      assert chains1[..] == p1[c := r] && chains0[..] == p0 && freelist[nextfree..numfree] == free;
      lists := lists.(chains1 := lists.chains1[c := Node(weight, index, ch)]);
    }

    lemma {:induction false} Head(c: nat)
      requires Valid() && c < chains0.Length
      ensures lists.Shaped(c)
      ensures 0 <= chains0[c] < memory.Length && 0 <= chains1[c] < memory.Length
      ensures memory[chains0[c]].weight == lists.chains0[c].weight
      ensures memory[chains1[c]].weight == lists.chains1[c].weight && memory[chains1[c]].index == lists.chains1[c].index
      ensures Holds(memory[..], chains1[c], lists.chains1[c]) && Depth(lists.chains1[c]) <= c + 1
      ensures Cells(memory[..], chains1[c], lists.chains1[c]) <= Live(memory[..], chains1[..], lists.chains1, chains1.Length)
    {
      forall k: nat | k < chains0.Length ensures lists.chains0[k].Node? && lists.chains1[k].Node? {
        assert HoldsAt(memory[..], chains0[..], lists.chains0, k) && HoldsAt(memory[..], chains1[..], lists.chains1, k);
      }
      assert HoldsAt(memory[..], chains0[..], lists.chains0, c) && HoldsAt(memory[..], chains1[..], lists.chains1, c);
      CellsLive(memory[..], chains1[..], lists.chains1, c, chains1.Length);
    }

    ghost method Count(c: nat)
      requires Valid() && c < chains0.Length
      modifies this`lists
      ensures Valid() && lists == old(lists).(count := old(lists).count[c := old(lists).count[c] + 1])
    {
      lists := lists.(count := lists.count[c := lists.count[c] + 1]);
    }

    /** boundaryPM without its recursion: list c takes a leaf or a package. */
    method Advance(leaves: seq<Leaf>, c: nat, ghost ws: seq<int>) returns (leaf: bool)
      requires Valid() && c < chains0.Length && ws == Weights(leaves)
      modifies this, memory, inUse, freelist, chains0, chains1
      ensures Valid() && old(lists).Shaped(c)
      ensures lists == PackageMerge.Advance(ws, old(lists), c)
      ensures leaf == TakesLeaf(ws, old(lists), c)
    {
      Head(c);
      var lastindex := memory[chains1[c]].index;
      if c == 0 {
        leaf := lastindex < |leaves|;
        if leaf { Push(c, leaves[lastindex].weight, lastindex + 1, NULL, Nil); }
      } else {
        Head(c - 1);
        var sum := memory[chains0[c - 1]].weight + memory[chains1[c - 1]].weight;
        leaf := lastindex < |leaves| && sum > leaves[lastindex].weight;
        if leaf {
          Push(c, leaves[lastindex].weight, lastindex + 1, memory[chains1[c]].tail, lists.chains1[c].tail);
        } else {
          Push(c, sum, lastindex, chains1[c - 1], lists.chains1[c - 1]);
        }
      }
      Count(c);
    }

    /** boundaryPM. */
    method Step(leaves: seq<Leaf>, c: nat, num: nat, ghost ws: seq<int>)
      requires Valid() && c < chains0.Length && ws == Weights(leaves)
      modifies this, memory, inUse, freelist, chains0, chains1
      ensures Valid() && old(lists).Shaped(c)
      ensures lists == PackageMerge.Step(ws, old(lists), c, num + 1 >= 2 * |leaves| - 2)
      decreases c, 0
    {
      var leaf := Advance(leaves, c, ws);
      if c > 0 && !leaf && num + 1 < 2 * |leaves| - 2 {
        StepTwice(leaves, c - 1, num, ws);
      }
    }

    /** Both chains of the package came from the list below. */
    method StepTwice(leaves: seq<Leaf>, c: nat, num: nat, ghost ws: seq<int>)
      requires Valid() && c < chains0.Length && ws == Weights(leaves) && num + 1 < 2 * |leaves| - 2
      modifies this, memory, inUse, freelist, chains0, chains1
      ensures Valid() && old(lists).Shaped(c)
      ensures lists == PackageMerge.Step(ws, PackageMerge.Step(ws, old(lists), c, false), c, false)
      decreases c, 1
    {
      Step(leaves, c, num, ws);
      Step(leaves, c, num, ws);
    }
  }

  lemma {:induction false} PoolSize(k: nat)
    requires k > 0
    ensures 2 * k * (k + 1) >= 4
  {
  }

  /** The first n nodes that are not in use are in the list, each once. */
  ghost predicate Unmarked(free: seq<int>, used: seq<bool>, n: nat) {
    n <= |used| && (forall k :: 0 <= k < |free| ==> 0 <= free[k] < n && !used[free[k]]) &&
    (forall j, k :: 0 <= j < k < |free| ==> free[j] != free[k]) && forall x :: 0 <= x < n && !used[x] ==> x in free
  }

  lemma {:induction false} UnmarkedNext(free: seq<int>, used: seq<bool>, n: nat)
    requires Unmarked(free, used, n) && n < |used|
    ensures Unmarked(if used[n] then free else free + [n], used, n + 1)
  {
  }

  lemma {:induction false} InitialPoolOk(mem: seq<PoolNode>, p0: seq<int>, p1: seq<int>, lists: Lists, free: seq<int>)
    requires |mem| >= 2 && mem[0].tail == NULL && mem[1].tail == NULL
    requires |p0| == |p1| == |lists.count| == |lists.chains0| == |lists.chains1| > 0
    requires forall k :: 0 <= k < |p0| ==> p0[k] == 0 && lists.chains0[k] == Node(mem[0].weight, mem[0].index, Nil)
    requires forall k :: 0 <= k < |p1| ==> p1[k] == 1 && lists.chains1[k] == Node(mem[1].weight, mem[1].index, Nil)
    requires |free| + 2 <= |mem| && forall i :: 0 <= i < |free| ==> free[i] == i + 2
    ensures PoolOk(mem, p0, p1, lists, free)
  {
    InitialPool(mem, p0, p1, lists);
  }

  lemma {:induction false} InitialPool(mem: seq<PoolNode>, p0: seq<int>, p1: seq<int>, lists: Lists)
    requires |mem| >= 2 && mem[0].tail == NULL && mem[1].tail == NULL
    requires |p0| == |p1| == |lists.chains0| == |lists.chains1|
    requires forall k :: 0 <= k < |p0| ==> p0[k] == 0 && lists.chains0[k] == Node(mem[0].weight, mem[0].index, Nil)
    requires forall k :: 0 <= k < |p1| ==> p1[k] == 1 && lists.chains1[k] == Node(mem[1].weight, mem[1].index, Nil)
    ensures HoldsAll(mem, p0, lists.chains0) && HoldsAll(mem, p1, lists.chains1)
    ensures AllLive(mem, p0, p1, lists) <= {0, 1}
  {
    assert HoldsAll(mem, p0, lists.chains0) && HoldsAll(mem, p1, lists.chains1) by {
      forall k: nat | k < |p0| ensures HoldsAt(mem, p0, lists.chains0, k) && HoldsAt(mem, p1, lists.chains1, k) {
      }
    }
    OneLive(mem, p0, lists.chains0, |p0|, 0);
    OneLive(mem, p1, lists.chains1, |p1|, 1);
  }

  lemma {:induction false} OneLive(mem: seq<PoolNode>, p: seq<int>, chs: seq<Chain>, k: nat, x: int)
    requires HoldsAll(mem, p, chs) && k <= |p|
    requires forall j :: 0 <= j < |p| ==> p[j] == x && chs[j].Node? && chs[j].tail == Nil
    ensures Live(mem, p, chs, k) <= {x}
  {
    if k > 0 {
      OneLive(mem, p, chs, k - 1, x);
      assert HoldsAt(mem, p, chs, k - 1);
      assert Cells(mem, mem[x].tail, chs[k - 1].tail) == {};
      assert Cells(mem, x, chs[k - 1]) == {x};
    }
  }

  /** A present symbol and its frequency. */
  datatype Leaf = Leaf(weight: int, symbol: nat)

  function Weights(leaves: seq<Leaf>): (ws: seq<int>)
    ensures |ws| == |leaves| && forall i :: 0 <= i < |leaves| ==> ws[i] == leaves[i].weight
  {
    seq(|leaves|, i requires 0 <= i < |leaves| => leaves[i].weight)
  }
}
