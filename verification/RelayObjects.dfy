/** AtomicSet, Chunk and Buffer as objects: the buffer and all its chunks share one consumer
    set. Each method is proved against the step functions of RelayBuffer. */
module RelayObjects {
  import opened Bits
  import opened RelayBuffer

  class AtomicSet {
    var members: set<string>

    constructor ()
      ensures members == {}
    {
      members := {};
    }

    function Size(): (n: nat)
      reads this
      ensures n == |members|
    {
      |members|
    }

    method Remove(value: string) returns (ok: bool)
      modifies this
      ensures ok == (value in old(members)) && members == old(members) - {value}
    {
      ok := value in members;
      members := members - {value};
    }

    method Add(value: string) returns (ok: bool)
      modifies this
      ensures ok == (value !in old(members)) && members == old(members) + {value}
    {
      ok := value !in members;
      members := members + {value};
    }
  }

  class Chunk {
    const data: seq<byte>
    const consumerExpected: AtomicSet
    ghost const index: nat
    var uses: nat

    constructor (consumers: AtomicSet, data: seq<byte>, ghost index: nat)
      ensures consumerExpected == consumers && this.data == data && this.index == index && uses == 0
    {
      consumerExpected, this.data, this.index, uses := consumers, data, index, 0;
    }

    function HowMuchIsLeft(): (n: nat)
      reads this, consumerExpected
      ensures n == 0 <==> uses >= |consumerExpected.members|
    {
      if uses >= consumerExpected.Size() then 0 else consumerExpected.Size() - uses
    }

    method IncrementUses()
      modifies this
      ensures uses == if |consumerExpected.members| > old(uses) then old(uses) + 1 else old(uses)
    {
      if consumerExpected.Size() > uses { uses := uses + 1; }
    }
  }

  class Buffer {
    const expectedConsumers: AtomicSet
    var chunks: map<nat, Chunk>
    var chunksMaxIndex: nat
    var bytesInTotal: nat
    var someChunkWasRemoved: bool
    var eof: bool
    var initialChunksFreezing: bool
    /** The state as a value. */
    ghost var state: BufferState

    /** Each chunk stands at its own index, so the chunks are distinct objects, and all share
        the consumer set of the buffer. */
    ghost predicate Shape()
      reads this
    {
      forall i :: i in chunks ==>
        1 <= i <= chunksMaxIndex && chunks[i].index == i && chunks[i].consumerExpected == expectedConsumers
    }

    ghost function Snapshot(): (s: BufferState)
      reads this, expectedConsumers, chunks.Values
    {
      BufferState(expectedConsumers.members, map i | i in chunks :: ChunkState(chunks[i].data, chunks[i].uses),
                  chunksMaxIndex, bytesInTotal, someChunkWasRemoved, eof, initialChunksFreezing)
    }

    ghost predicate Valid()
      reads this, expectedConsumers, chunks.Values
    {
      Shape() && state == Snapshot()
    }

    lemma {:induction false} SameCount()
      requires Valid()
      ensures |state.chunks| == |chunks| && (|chunks| == 0 <==> state.chunks == map[])
    {
      assert state.chunks.Keys == chunks.Keys;
      assert |state.chunks| == |state.chunks.Keys| && |chunks| == |chunks.Keys|;
    }

    method ChunkCount() returns (n: nat)
      requires Valid()
      ensures n == |state.chunks| && (n == 0 <==> state.chunks == map[])
    {
      SameCount();
      n := |chunks|;
    }

    method NewChunkIsAllowed(lim: Limits) returns (b: bool)
      requires Valid()
      ensures b <==> lim.queueMaxSize > |state.chunks|
    {
      var n := ChunkCount();
      b := lim.queueMaxSize > n;
    }

    method Eof() returns (b: bool)
      requires Valid()
      ensures b == state.eof
    {
      b := eof;
    }

    method InitialChunksFreezing() returns (b: bool)
      requires Valid()
      ensures b == state.frozen
    {
      b := initialChunksFreezing;
    }

    method SomeChunksWasRemoved() returns (b: bool)
      requires Valid()
      ensures b == state.someRemoved
    {
      b := someChunkWasRemoved;
    }

    method BytesIn() returns (n: nat)
      requires Valid()
      ensures n == state.bytesIn
    {
      n := bytesInTotal;
    }

    constructor ()
      ensures Valid() && state == Initial() && fresh(expectedConsumers) && chunks == map[]
    {
      expectedConsumers := new AtomicSet();
      chunks, chunksMaxIndex, bytesInTotal := map[], 0, 0;
      someChunkWasRemoved, eof, initialChunksFreezing := false, false, true;
      state := Initial();
    }

    method AddChunk(data: seq<byte>, lim: Limits) returns (index: nat)
      requires Valid()
      modifies this
      ensures Valid() && (state, index) == RelayBuffer.AddChunk(old(state), data, lim)
      ensures chunks.Values - old(chunks).Values == {} || fresh(chunks.Values - old(chunks).Values)
    {
      SameCount();
      if eof { return 0; }
      if |data| > lim.maxChunkSize { return 0; }
      if lim.queueMaxSize <= |chunks| { return 0; }
      Emplace(data);
      state := Snapshot();
      index := chunksMaxIndex;
    }

    method Emplace(data: seq<byte>)
      requires Valid()
      modifies this`chunks, this`chunksMaxIndex, this`bytesInTotal
      ensures Shape() && chunksMaxIndex == old(chunksMaxIndex) + 1
      ensures Snapshot() == state.(chunks := state.chunks[chunksMaxIndex := ChunkState(data, 0)],
                                   maxIndex := chunksMaxIndex, bytesIn := state.bytesIn + |data|)
      ensures fresh(chunks.Values - old(chunks).Values)
    {
      chunksMaxIndex := chunksMaxIndex + 1;
      var chunk := new Chunk(expectedConsumers, data, chunksMaxIndex);
      chunks := chunks[chunksMaxIndex := chunk];
      bytesInTotal := bytesInTotal + |data|;
      assert Snapshot().chunks == state.chunks[chunksMaxIndex := ChunkState(data, 0)];
    }

    /** sanitize: drops the chunks that wait for nobody, in ascending order. */
    method SanitizeChunks(ghost s: BufferState) returns (removed: seq<nat>)
      requires Shape() && s == Snapshot()
      modifies this`chunks, this`someChunkWasRemoved, this`state
      ensures Valid() && state == Sanitize(s) && chunks.Values <= old(chunks).Values
      ensures removed == Ascending(Dropped(s), s.maxIndex)
    {
      removed := EraseFinished(s);
      state := Snapshot();
    }

    method EraseFinished(ghost s: BufferState) returns (removed: seq<nat>)
      requires Shape() && s == Snapshot()
      modifies this`chunks, this`someChunkWasRemoved
      ensures Shape() && Snapshot() == Sanitize(s) && chunks.Values <= old(chunks).Values
      ensures removed == Ascending(Dropped(s), s.maxIndex)
    {
      removed := [];
      if initialChunksFreezing {
        NoneAscending(chunksMaxIndex);
        assert s.chunks - {} == s.chunks;
        return;
      }
      var i := 0;
      while i < chunksMaxIndex
        invariant i <= chunksMaxIndex && Shape() && chunks.Values <= old(chunks).Values
        invariant removed == Ascending(Dropped(s), i)
        invariant forall k :: k in chunks <==> k in s.chunks && !(k <= i && k in Dropped(s))
        invariant forall k :: k in chunks ==> k in old(chunks) && chunks[k] == old(chunks)[k]
        invariant someChunkWasRemoved == (s.someRemoved || exists k :: k <= i && k in Dropped(s))
      {
        i := i + 1;
        if i in chunks && chunks[i].HowMuchIsLeft() == 0 {
          assert i in Dropped(s);
          someChunkWasRemoved := true;
          removed := removed + [i];
          chunks := chunks - {i};
        } else {
          assert i !in Dropped(s);
        }
      }
      assert Snapshot().chunks == s.chunks - Dropped(s);
    }

    lemma {:induction false} NoneAscending(n: nat)
      ensures Ascending({}, n) == []
    {
      if n > 0 { NoneAscending(n - 1); }
    }

    method SetChunkAsReceived(index: nat) returns (ok: bool, removed: seq<nat>)
      requires Valid()
      modifies this`chunks, this`someChunkWasRemoved, this`state, chunks.Values
      ensures Valid() && state == Confirm(old(state), index) && ok == (index in old(state).chunks)
      ensures chunks.Values <= old(chunks).Values
      ensures removed == if ok then Ascending(Dropped(Confirmed(old(state), index)), old(state).maxIndex) else []
    {
      removed := [];
      if index !in chunks { return false, removed; }
      chunks[index].IncrementUses();
      assert Snapshot().chunks == Used(state, index).chunks;
      removed := SanitizeChunks(Used(state, index));
      ok := true;
    }

    method SetEndOfFile()
      requires Valid()
      modifies this`eof, this`state
      ensures Valid() && state == SetEof(old(state))
    {
      if eof { return; }
      eof := true;
      assert Snapshot().chunks == state.chunks;
      state := SetEof(state);
    }

    method AddNewToExpectedConsumers(id: string, lim: Limits) returns (ok: bool)
      requires Valid()
      modifies this`state, expectedConsumers
      ensures Valid() && state == Join(old(state), id, lim) && ok == CanJoin(old(state), id, lim)
    {
      if someChunkWasRemoved || expectedConsumers.Size() + 1 > lim.maxConsumerCount { return false; }
      ok := expectedConsumers.Add(id);
      assert Snapshot().chunks == state.chunks;
      if !ok { assert expectedConsumers.members == old(expectedConsumers.members); }
      state := Snapshot();
    }

    method RemoveOneFromExpectedConsumers(id: string) returns (removed: seq<nat>)
      requires Valid()
      modifies this`chunks, this`someChunkWasRemoved, this`state, expectedConsumers
      ensures Valid() && state == Leave(old(state), id) && chunks.Values <= old(chunks).Values
      ensures removed ==
        if id in old(state).consumers then Ascending(Dropped(Departed(old(state), id)), old(state).maxIndex) else []
    {
      removed := [];
      var ok := expectedConsumers.Remove(id);
      assert Snapshot().chunks == state.chunks;
      if ok {
        removed := SanitizeChunks(Departed(state, id));
      } else {
        assert expectedConsumers.members == state.consumers;
      }
    }

    method SetInitialChunksFreezingDropped() returns (ok: bool, removed: seq<nat>)
      requires Valid()
      modifies this`chunks, this`someChunkWasRemoved, this`initialChunksFreezing, this`state
      ensures Valid() && state == DropFreeze(old(state)) && ok == old(state).frozen
      ensures chunks.Values <= old(chunks).Values
      ensures removed == if ok then Ascending(Dropped(Unfrozen(old(state))), old(state).maxIndex) else []
    {
      removed := [];
      if !initialChunksFreezing { return false, removed; }
      initialChunksFreezing := false;
      assert Snapshot().chunks == state.chunks;
      removed := SanitizeChunks(Unfrozen(state));
      ok := true;
    }
  }
}
