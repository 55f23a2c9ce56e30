/** The chunk buffer of a transfer session as a state machine: one function per public method
    of Buffer, each one atomic step. */
module RelayBuffer {
  import opened Bits

  /** A chunk and how often it was confirmed. */
  datatype ChunkState = ChunkState(data: seq<byte>, uses: nat)

  datatype Limits = Limits(maxChunkSize: nat, queueMaxSize: nat, maxConsumerCount: nat)

  datatype BufferState = BufferState(
    consumers: set<string>,
    chunks: map<nat, ChunkState>,
    maxIndex: nat,
    bytesIn: nat,
    someRemoved: bool,
    eof: bool,
    frozen: bool)

  function Initial(): BufferState { BufferState({}, map[], 0, 0, false, false, true) }

  /** Nothing is left to wait for. */
  predicate Finished(s: BufferState, i: nat) {
    i in s.chunks && s.chunks[i].uses >= |s.consumers|
  }

  /** The chunks that sanitize drops: none before the initial freeze is lifted. */
  function Dropped(s: BufferState): set<nat> {
    if s.frozen then {} else set i | i in s.chunks && Finished(s, i)
  }

  function Sanitize(s: BufferState): BufferState {
    s.(chunks := s.chunks - Dropped(s), someRemoved := s.someRemoved || Dropped(s) != {})
  }

  /** addChunk: the new state and the index of the new chunk, or 0. */
  function AddChunk(s: BufferState, data: seq<byte>, lim: Limits): (BufferState, nat) {
    if s.eof || |data| > lim.maxChunkSize || lim.queueMaxSize <= |s.chunks| then (s, 0)
    else if s.maxIndex + 1 in s.chunks then (s, s.maxIndex)
    else
      (s.(chunks := s.chunks[s.maxIndex + 1 := ChunkState(data, 0)], maxIndex := s.maxIndex + 1,
          bytesIn := s.bytesIn + |data|),
       s.maxIndex + 1)
  }

  /** Chunk::incrementUses. */
  function Used(s: BufferState, i: nat): BufferState
    requires i in s.chunks
  {
    var c := s.chunks[i];
    if |s.consumers| > c.uses then s.(chunks := s.chunks[i := c.(uses := c.uses + 1)]) else s
  }

  /** The state in which setChunkAsReceived calls sanitize. */
  function Confirmed(s: BufferState, i: nat): BufferState {
    if i in s.chunks then Used(s, i) else s
  }

  function Confirm(s: BufferState, i: nat): BufferState {
    if i in s.chunks then Sanitize(Confirmed(s, i)) else s
  }

  predicate CanJoin(s: BufferState, id: string, lim: Limits) {
    !s.someRemoved && |s.consumers| + 1 <= lim.maxConsumerCount && id !in s.consumers
  }

  function Join(s: BufferState, id: string, lim: Limits): BufferState {
    if CanJoin(s, id, lim) then s.(consumers := s.consumers + {id}) else s
  }

  /** The state in which removeOneFromExpectedConsumers calls sanitize. */
  function Departed(s: BufferState, id: string): BufferState {
    s.(consumers := s.consumers - {id})
  }

  function Leave(s: BufferState, id: string): BufferState {
    if id in s.consumers then Sanitize(Departed(s, id)) else s
  }

  function SetEof(s: BufferState): BufferState { s.(eof := true) }

  function Unfrozen(s: BufferState): BufferState { s.(frozen := false) }

  function DropFreeze(s: BufferState): BufferState {
    if s.frozen then Sanitize(Unfrozen(s)) else s
  }

  // ---------------------------------------------------------------- runs

  datatype Step =
    | Add(data: seq<byte>)
    | Receive(who: string, index: nat)
    | Arrive(id: string)
    | Depart(id: string)
    | EndOfFile
    | Unfreeze

  /** The buffer, all chunks ever added, who confirmed which chunk while it was held, and which
      chunks were reported as removed, in this order. */
  datatype World = World(buffer: BufferState, stream: seq<seq<byte>>, confirmed: set<(string, nat)>, reported: seq<nat>)

  /** The chunks among 1 to n that are in the set, in ascending order, as std::map is walked. */
  function Ascending(gone: set<nat>, n: nat): (r: seq<nat>)
  {
    if n == 0 then [] else if n in gone then Ascending(gone, n - 1) + [n] else Ascending(gone, n - 1)
  }

  /** The total size of the first n chunks of the stream. */
  function Total(stream: seq<seq<byte>>, n: nat): nat
    requires n <= |stream|
  {
    if n == 0 then 0 else Total(stream, n - 1) + |stream[n - 1]|
  }

  /** The total size of those among the first n chunks of the stream that are in the set. */
  ghost function Share(stream: seq<seq<byte>>, some: set<nat>, n: nat): nat
    requires n <= |stream|
  {
    if n == 0 then 0 else Share(stream, some, n - 1) + if n in some then |stream[n - 1]| else 0
  }

  /** before is the state in which sanitize is called. */
  ghost function Report(w: World, before: BufferState): World {
    w.(buffer := Sanitize(before), reported := w.reported + Ascending(Dropped(before), before.maxIndex))
  }

  ghost function Next(w: World, t: Step, lim: Limits): World {
    var s := w.buffer;
    match t
    case Add(data) =>
      var t := AddChunk(s, data, lim).0;
      w.(buffer := t, stream := if t.maxIndex > s.maxIndex then w.stream + [data] else w.stream)
    case Receive(who, i) =>
      if i in s.chunks then Report(w.(confirmed := w.confirmed + {(who, i)}), Confirmed(s, i)) else w
    case Arrive(id) => w.(buffer := Join(s, id, lim))
    case Depart(id) => if id in s.consumers then Report(w, Departed(s, id)) else w
    case EndOfFile => w.(buffer := SetEof(s))
    case Unfreeze => if s.frozen then Report(w, Unfrozen(s)) else w
  }

  ghost function Run(steps: seq<Step>, lim: Limits): World {
    if steps == [] then World(Initial(), [], {}, []) else Next(Run(steps[..|steps| - 1], lim), steps[|steps| - 1], lim)
  }

  // ---------------------------------------------------------------- every run

  /** Live chunks and chunks reported as removed partition 1 to maxIndex, and each chunk is
      reported at most once. */
  ghost predicate Partition(s: BufferState, reported: seq<nat>) {
    (forall i :: i in s.chunks ==> 1 <= i <= s.maxIndex && i !in reported) &&
    (forall i :: 1 <= i <= s.maxIndex ==> i in s.chunks || i in reported) &&
    (forall i :: i in reported ==> 1 <= i <= s.maxIndex) &&
    forall j, k :: 0 <= j < k < |reported| ==> reported[j] != reported[k]
  }

  /** The removal flag says whether anything is gone, and a frozen buffer has lost nothing. */
  ghost predicate Flags(s: BufferState, reported: seq<nat>) {
    (s.someRemoved <==> reported != []) && (s.frozen ==> reported == [])
  }

  ghost predicate Bounds(s: BufferState, lim: Limits) {
    |s.chunks| <= lim.queueMaxSize && |s.consumers| <= lim.maxConsumerCount
  }

  /** The live chunks are those that were added, and all bytes are counted. */
  ghost predicate Faithful(s: BufferState, stream: seq<seq<byte>>) {
    |stream| == s.maxIndex && s.bytesIn == Total(stream, |stream|) &&
    forall i :: i in s.chunks ==> 1 <= i <= |stream| && s.chunks[i].data == stream[i - 1]
  }

  ghost predicate Sound(w: World, lim: Limits) {
    Partition(w.buffer, w.reported) && Flags(w.buffer, w.reported) && Bounds(w.buffer, lim) &&
    Faithful(w.buffer, w.stream)
  }

  /** After the freeze, no chunk that everyone confirmed is kept. */
  ghost predicate Tidy(s: BufferState) {
    !s.frozen ==> forall i :: i in s.chunks ==> s.chunks[i].uses < |s.consumers| || (s.consumers == {} && s.chunks[i].uses == 0)
  }

  lemma {:induction false} AscendingIs(gone: set<nat>, n: nat)
    ensures forall i :: i in Ascending(gone, n) <==> i in gone && 1 <= i <= n
    ensures forall j, k :: 0 <= j < k < |Ascending(gone, n)| ==> Ascending(gone, n)[j] < Ascending(gone, n)[k]
  {
    if n > 0 {
      AscendingIs(gone, n - 1);
      var r := Ascending(gone, n - 1);
      forall j | 0 <= j < |r| ensures r[j] < n { assert r[j] in r; }
    }
  }

  lemma {:induction false} SubsetSize<T>(a: set<T>, b: set<T>)
    requires a <= b
    ensures |a| <= |b| && (|a| == |b| ==> a == b)
  {
    assert b == a + (b - a) && a !! (b - a);
    if |a| == |b| { assert |b - a| == 0; }
  }

  /** Removed chunks move from the live to the reported ones. */
  lemma {:induction false} ReportPartition(s: BufferState, reported: seq<nat>)
    requires Partition(s, reported)
    ensures Partition(Sanitize(s), reported + Ascending(Dropped(s), s.maxIndex))
  {
    AscendingIs(Dropped(s), s.maxIndex);
    ReportedOnce(reported, Ascending(Dropped(s), s.maxIndex));
  }

  lemma {:induction false} FirstIn(a: seq<nat>)
    requires a != []
    ensures a[0] in a
  {
  }

  lemma {:induction false} ReportFlags(s: BufferState, reported: seq<nat>)
    requires Partition(s, reported) && Flags(s, reported)
    ensures Flags(Sanitize(s), reported + Ascending(Dropped(s), s.maxIndex))
  {
    AscendingIs(Dropped(s), s.maxIndex);
    if Dropped(s) != {} {
      var i :| i in Dropped(s);
      assert i in Ascending(Dropped(s), s.maxIndex);
    } else {
      if Ascending(Dropped(s), s.maxIndex) != [] { FirstIn(Ascending(Dropped(s), s.maxIndex)); }
    }
  }

  lemma {:induction false} ReportBounds(s: BufferState, lim: Limits)
    requires Bounds(s, lim)
    ensures Bounds(Sanitize(s), lim)
  {
    SubsetSize(Sanitize(s).chunks.Keys, s.chunks.Keys);
  }

  lemma {:induction false} ReportSound(w: World, before: BufferState, lim: Limits)
    requires Sound(w.(buffer := before), lim)
    ensures Sound(Report(w, before), lim)
  {
    ReportPartition(before, w.reported);
    ReportFlags(before, w.reported);
    ReportBounds(before, lim);
  }

  lemma {:induction false} ReportTidy(s: BufferState)
    ensures Tidy(Sanitize(s))
  {
  }

  lemma {:induction false} ReportedOnce(a: seq<nat>, b: seq<nat>)
    requires forall j, k :: 0 <= j < k < |a| ==> a[j] != a[k]
    requires forall j, k :: 0 <= j < k < |b| ==> b[j] < b[k]
    requires forall i :: i in b ==> i !in a
    ensures forall j, k :: 0 <= j < k < |a + b| ==> (a + b)[j] != (a + b)[k]
  {
    forall j, k | 0 <= j < k < |a + b| ensures (a + b)[j] != (a + b)[k] {
      if j < |a| <= k { assert (a + b)[k] in b && (a + b)[j] in a; }
    }
  }

  lemma {:induction false} UsedSound(w: World, i: nat, lim: Limits)
    requires Sound(w, lim) && i in w.buffer.chunks
    ensures Sound(w.(buffer := Used(w.buffer, i)), lim)
  {
    assert Used(w.buffer, i).chunks.Keys == w.buffer.chunks.Keys;
  }

  lemma {:induction false} TotalPrefix(a: seq<seq<byte>>, b: seq<seq<byte>>, n: nat)
    requires n <= |a| && a <= b
    ensures Total(a, n) == Total(b, n)
  {
    if n > 0 { TotalPrefix(a, b, n - 1); }
  }

  lemma {:induction false} AddPartition(s: BufferState, data: seq<byte>, lim: Limits, reported: seq<nat>)
    requires Partition(s, reported)
    ensures Partition(AddChunk(s, data, lim).0, reported)
  {
  }

  lemma {:induction false} AddBounds(s: BufferState, data: seq<byte>, lim: Limits)
    requires Bounds(s, lim)
    ensures Bounds(AddChunk(s, data, lim).0, lim)
  {
    var t := AddChunk(s, data, lim).0;
    if t.maxIndex > s.maxIndex {
      assert t.chunks.Keys == s.chunks.Keys + {t.maxIndex};
      assert |t.chunks| == |t.chunks.Keys| == |s.chunks.Keys| + 1;
    }
  }

  lemma {:induction false} AddSound(w: World, data: seq<byte>, lim: Limits)
    requires Sound(w, lim)
    ensures Sound(Next(w, Add(data), lim), lim)
  {
    AddPartition(w.buffer, data, lim, w.reported);
    AddBounds(w.buffer, data, lim);
    TotalPrefix(w.stream, w.stream + [data], |w.stream|);
  }

  lemma {:induction false} NextSound(w: World, t: Step, lim: Limits)
    requires Sound(w, lim) && Tidy(w.buffer)
    ensures Sound(Next(w, t, lim), lim) && Tidy(Next(w, t, lim).buffer)
  {
    var s := w.buffer;
    match t
    case Add(data) =>
      AddSound(w, data, lim);
    case Receive(who, i) =>
      if i in s.chunks {
        UsedSound(w, i, lim);
        ReportSound(w.(confirmed := w.confirmed + {(who, i)}), Confirmed(s, i), lim);
        ReportTidy(Confirmed(s, i));
      }
    case Arrive(id) =>
    case Depart(id) =>
      SubsetSize(s.consumers - {id}, s.consumers);
      ReportSound(w, Departed(s, id), lim);
      ReportTidy(Departed(s, id));
    case EndOfFile =>
    case Unfreeze =>
      ReportSound(w, Unfrozen(s), lim);
      ReportTidy(Unfrozen(s));
  }

  /** Every run is sound and tidy. */
  lemma {:induction false} EveryRun(steps: seq<Step>, lim: Limits)
    ensures Sound(Run(steps, lim), lim) && Tidy(Run(steps, lim).buffer)
    decreases |steps|
  {
    if steps != [] {
      EveryRun(steps[..|steps| - 1], lim);
      NextSound(Run(steps[..|steps| - 1], lim), steps[|steps| - 1], lim);
    }
  }

  /** Whoever joins finds every chunk of the stream so far, with its data. */
  lemma {:induction false} JoinerReadsAll(steps: seq<Step>, id: string, lim: Limits, i: nat)
    requires CanJoin(Run(steps, lim).buffer, id, lim) && 1 <= i <= |Run(steps, lim).stream|
    ensures var chunks := Join(Run(steps, lim).buffer, id, lim).chunks;
      i in chunks && chunks[i].data == Run(steps, lim).stream[i - 1]
  {
    EveryRun(steps, lim);
  }

  ghost function Indices(s: seq<nat>): set<nat> { set i | i in s }

  lemma {:induction false} Shares(stream: seq<seq<byte>>, a: set<nat>, b: set<nat>, n: nat)
    requires n <= |stream| && forall i :: 1 <= i <= n ==> (i in a <==> i !in b)
    ensures Share(stream, a, n) + Share(stream, b, n) == Total(stream, n)
  {
    if n > 0 { Shares(stream, a, b, n - 1); }
  }

  /** The bytes taken in are those of the live chunks and those of the removed ones. */
  lemma {:induction false} BytesConserved(steps: seq<Step>, lim: Limits)
    ensures var w := Run(steps, lim); var n := |w.stream|;
      w.buffer.bytesIn == Share(w.stream, w.buffer.chunks.Keys, n) + Share(w.stream, Indices(w.reported), n)
  {
    EveryRun(steps, lim);
    var w := Run(steps, lim);
    Shares(w.stream, w.buffer.chunks.Keys, Indices(w.reported), |w.stream|);
  }

  // ---------------------------------------------------------------- counting consumers

  /** Who confirmed chunk i while it was held. */
  ghost function Confirmers(confirmed: set<(string, nat)>, i: nat): set<string> {
    set p | p in confirmed && p.1 == i :: p.0
  }

  /** Only consumers confirm, each chunk at most once, and nobody leaves after confirming a
      chunk that is still held. */
  ghost predicate Fair(w: World, t: Step) {
    match t
    case Receive(who, i) => i in w.buffer.chunks ==> who in w.buffer.consumers && (who, i) !in w.confirmed
    case Depart(id) => forall i :: i in w.buffer.chunks ==> (id, i) !in w.confirmed
    case _ => true
  }

  ghost predicate FairRun(steps: seq<Step>, lim: Limits) {
    steps == [] ||
    (FairRun(steps[..|steps| - 1], lim) && Fair(Run(steps[..|steps| - 1], lim), steps[|steps| - 1]))
  }

  /** The counter of a live chunk is the number of consumers that confirmed it. */
  ghost predicate Counted(s: BufferState, confirmed: set<(string, nat)>) {
    forall i :: i in s.chunks ==>
      s.chunks[i].uses == |Confirmers(confirmed, i)| && Confirmers(confirmed, i) <= s.consumers
  }

  /** Every consumer confirmed every chunk that is gone. */
  ghost predicate Delivered(s: BufferState, confirmed: set<(string, nat)>) {
    forall i, c :: 1 <= i <= s.maxIndex && i !in s.chunks && c in s.consumers ==> (c, i) in confirmed
  }

  lemma {:induction false} SanitizeDelivers(s: BufferState, confirmed: set<(string, nat)>)
    requires Counted(s, confirmed) && Delivered(s, confirmed)
    ensures Counted(Sanitize(s), confirmed) && Delivered(Sanitize(s), confirmed)
  {
    forall i, c | i in Dropped(s) && c in s.consumers ensures (c, i) in confirmed {
      SubsetSize(Confirmers(confirmed, i), s.consumers);
      assert c in Confirmers(confirmed, i);
    }
  }

  lemma {:induction false} MoreConfirmers(confirmed: set<(string, nat)>, who: string, i: nat, j: nat)
    ensures Confirmers(confirmed + {(who, i)}, j) == Confirmers(confirmed, j) + if i == j then {who} else {}
    ensures who in Confirmers(confirmed, i) <==> (who, i) in confirmed
  {
    var more := confirmed + {(who, i)};
    forall c ensures c in Confirmers(more, j) <==> c in Confirmers(confirmed, j) + if i == j then {who} else {} {
      if c in Confirmers(confirmed, j) { assert (c, j) in more; }
      if i == j { assert (who, i) in more; }
    }
    if who in Confirmers(confirmed, i) { assert (who, i) in confirmed; }
  }

  /** A confirmation is counted right exactly if it is the first one of this consumer for this
      chunk, or the counter already stands at its limit. */
  lemma {:induction false} ReceiveCounts(s: BufferState, confirmed: set<(string, nat)>, who: string, i: nat)
    requires Counted(s, confirmed) && i in s.chunks && who in s.consumers
    ensures Used(s, i).chunks[i].uses == |Confirmers(confirmed + {(who, i)}, i)| <==>
      (who, i) !in confirmed || s.chunks[i].uses == |s.consumers|
  {
    MoreConfirmers(confirmed, who, i, i);
    var c := Confirmers(confirmed, i);
    SubsetSize(c, s.consumers);
    if who !in c {
      SubsetSize(c + {who}, s.consumers);
    } else {
      assert c + {who} == c;
    }
  }

  /** A departure keeps the counter of chunk i right exactly if the one who leaves has not
      confirmed it. */
  lemma {:induction false} DepartCounts(s: BufferState, confirmed: set<(string, nat)>, id: string, i: nat)
    requires Counted(s, confirmed) && i in s.chunks && id in s.consumers
    ensures Departed(s, id).chunks[i].uses == |Confirmers(confirmed, i) * Departed(s, id).consumers| <==> (id, i) !in confirmed
  {
    MoreConfirmers(confirmed, id, i, i);
    var c := Confirmers(confirmed, i);
    var rest := c * (s.consumers - {id});
    if id in c {
      assert c == rest + {id} && id !in rest;
    } else {
      assert c == rest;
    }
  }

  /** Nobody confirms a chunk before it is added. */
  ghost predicate Timely(w: World) {
    forall p :: p in w.confirmed ==> p.1 <= w.buffer.maxIndex
  }

  ghost predicate Delivering(w: World) {
    Counted(w.buffer, w.confirmed) && Delivered(w.buffer, w.confirmed) && Timely(w)
  }

  lemma {:induction false} AddDelivers(w: World, data: seq<byte>, lim: Limits)
    requires Sound(w, lim) && Delivering(w)
    ensures Delivering(Next(w, Add(data), lim))
  {
    var s, t := w.buffer, AddChunk(w.buffer, data, lim).0;
    if t != s {
      assert Confirmers(w.confirmed, t.maxIndex) == {};
      AddedCounts(s, t, w.confirmed, ChunkState(data, 0));
    }
  }

  lemma {:induction false} AddedCounts(s: BufferState, t: BufferState, confirmed: set<(string, nat)>, c: ChunkState)
    requires Counted(s, confirmed) && Delivered(s, confirmed) && c.uses == 0 && Confirmers(confirmed, t.maxIndex) == {}
    requires t.maxIndex == s.maxIndex + 1 && t.chunks == s.chunks[t.maxIndex := c] && t.consumers == s.consumers
    ensures Counted(t, confirmed) && Delivered(t, confirmed)
  {
  }

  lemma {:induction false} NextDelivers(w: World, t: Step, lim: Limits)
    requires Sound(w, lim) && Fair(w, t) && Delivering(w)
    ensures Delivering(Next(w, t, lim))
  {
    var s := w.buffer;
    match t
    case Add(data) => AddDelivers(w, data, lim);
    case Receive(who, i) =>
      if i in s.chunks {
        ReceiveDelivers(s, w.confirmed, who, i);
        SanitizeDelivers(Used(s, i), w.confirmed + {(who, i)});
      }
    case Arrive(id) =>
    case Depart(id) =>
      if id in s.consumers {
        forall i | i in s.chunks ensures id !in Confirmers(w.confirmed, i) { MoreConfirmers(w.confirmed, id, i, i); }
        SanitizeDelivers(Departed(s, id), w.confirmed);
      }
    case EndOfFile =>
    case Unfreeze => SanitizeDelivers(Unfrozen(s), w.confirmed);
  }

  lemma {:induction false} ReceiveDelivers(s: BufferState, confirmed: set<(string, nat)>, who: string, i: nat)
    requires Counted(s, confirmed) && Delivered(s, confirmed) && i in s.chunks
    requires who in s.consumers && (who, i) !in confirmed
    ensures Counted(Used(s, i), confirmed + {(who, i)}) && Delivered(Used(s, i), confirmed + {(who, i)})
  {
    var t, more := Used(s, i), confirmed + {(who, i)};
    assert t.chunks.Keys == s.chunks.Keys;
    forall j | j in t.chunks ensures CountedAt(t, more, j) { ReceiveCountsAt(s, confirmed, who, i, j); }
    forall j | j in t.chunks ensures t.chunks[j].uses == |Confirmers(more, j)| && Confirmers(more, j) <= t.consumers {
      assert CountedAt(t, more, j);
    }
  }

  ghost predicate CountedAt(s: BufferState, confirmed: set<(string, nat)>, j: nat) {
    j in s.chunks && s.chunks[j].uses == |Confirmers(confirmed, j)| && Confirmers(confirmed, j) <= s.consumers
  }

  lemma {:induction false} ReceiveCountsAt(s: BufferState, confirmed: set<(string, nat)>, who: string, i: nat, j: nat)
    requires CountedAt(s, confirmed, i) && CountedAt(s, confirmed, j) && who in s.consumers && (who, i) !in confirmed
    ensures CountedAt(Used(s, i), confirmed + {(who, i)}, j)
  {
    MoreConfirmers(confirmed, who, i, j);
    MoreConfirmers(confirmed, who, i, i);
    SubsetSize(Confirmers(confirmed, i) + {who}, s.consumers);
  }

  /** In every fair run the counters count consumers, and a chunk that is gone was confirmed by
      everyone who is still there. */
  lemma {:induction false} FairRunDelivers(steps: seq<Step>, lim: Limits)
    requires FairRun(steps, lim)
    ensures Delivering(Run(steps, lim))
    decreases |steps|
  {
    if steps != [] {
      FairRunDelivers(steps[..|steps| - 1], lim);
      EveryRun(steps[..|steps| - 1], lim);
      NextDelivers(Run(steps[..|steps| - 1], lim), steps[|steps| - 1], lim);
    }
  }

  /** When a fair run has emptied the buffer, every remaining consumer has confirmed the whole
      stream. */
  lemma {:induction false} WholeStreamConfirmed(steps: seq<Step>, lim: Limits, c: string, i: nat)
    requires FairRun(steps, lim) && Run(steps, lim).buffer.chunks == map[]
    requires c in Run(steps, lim).buffer.consumers && 1 <= i <= |Run(steps, lim).stream|
    ensures (c, i) in Run(steps, lim).confirmed
  {
    FairRunDelivers(steps, lim);
    EveryRun(steps, lim);
  }

  /** A chunk leaves the buffer only in a step after which everyone has confirmed it. */
  lemma {:induction false} RemovedWhenConfirmed(steps: seq<Step>, t: Step, lim: Limits, i: nat, c: string)
    requires FairRun(steps + [t], lim)
    requires i in Run(steps, lim).buffer.chunks && i !in Run(steps + [t], lim).buffer.chunks
    requires c in Run(steps + [t], lim).buffer.consumers
    ensures (c, i) in Run(steps + [t], lim).confirmed
  {
    assert (steps + [t])[..|steps + [t]| - 1] == steps;
    EveryRun(steps, lim);
    EveryRun(steps + [t], lim);
    FairRunDelivers(steps + [t], lim);
  }

  // ---------------------------------------------------------------- unfair runs

  /** One of these consumers has not confirmed chunk i. */
  ghost predicate Owed(consumers: set<string>, confirmed: set<(string, nat)>, i: nat) {
    exists c :: c in consumers && (c, i) !in confirmed
  }

  /** The step removes chunk i although someone who stays has not confirmed it. */
  ghost predicate Loses(w: World, t: Step, lim: Limits, i: nat) {
    var z := Next(w, t, lim);
    i in w.buffer.chunks && i !in z.buffer.chunks && Owed(z.buffer.consumers, z.confirmed, i)
  }

  /** Only confirmations of the chunk, departures and the end of the freeze can do so: after the
      freeze if the counter is at most one below the number of consumers, or at the end of the
      freeze if it has reached it, while another consumer has not confirmed. */
  ghost predicate MayLose(w: World, t: Step, i: nat) {
    var s := w.buffer;
    i in s.chunks &&
    match t
    case Receive(who, j) =>
      j == i && !s.frozen && s.chunks[i].uses + 1 >= |s.consumers| && Owed(s.consumers - {who}, w.confirmed, i)
    case Depart(id) =>
      id in s.consumers && !s.frozen && s.chunks[i].uses + 1 >= |s.consumers| && Owed(s.consumers - {id}, w.confirmed, i)
    case Unfreeze => s.frozen && s.chunks[i].uses >= |s.consumers| && Owed(s.consumers, w.confirmed, i)
    case _ => false
  }

  /** In every run, fair or not, a step loses a chunk exactly under this condition. */
  lemma {:induction false} LosesExactly(steps: seq<Step>, t: Step, lim: Limits, i: nat)
    ensures Loses(Run(steps, lim), t, lim, i) <==> MayLose(Run(steps, lim), t, i)
  {
    EveryRun(steps, lim);
    var w := Run(steps, lim);
    match t
    case Receive(who, j) => ReceiveLosesWhen(w, who, j, lim, i);
    case Depart(id) => DepartLosesWhen(w, id, lim, i);
    case _ =>
  }

  lemma {:induction false} ReceiveLosesWhen(w: World, who: string, j: nat, lim: Limits, i: nat)
    requires Tidy(w.buffer)
    ensures Loses(w, Receive(who, j), lim, i) <==> MayLose(w, Receive(who, j), i)
  {
    var s := w.buffer;
    if i in s.chunks && j in s.chunks {
      OwedWithout(s.consumers, w.confirmed, who, i);
      assert Confirmed(s, j).chunks[i].uses == if i == j && |s.consumers| > s.chunks[i].uses then s.chunks[i].uses + 1 else s.chunks[i].uses;
      assert i in Dropped(Confirmed(s, j)) <==> !s.frozen && Finished(Confirmed(s, j), i);
      assert s.consumers == {} ==> !Owed(s.consumers, w.confirmed + {(who, j)}, i);
    }
  }

  lemma {:induction false} OwedWithout(consumers: set<string>, confirmed: set<(string, nat)>, who: string, i: nat)
    ensures Owed(consumers, confirmed + {(who, i)}, i) <==> Owed(consumers - {who}, confirmed, i)
  {
    if Owed(consumers, confirmed + {(who, i)}, i) {
      var c :| c in consumers && (c, i) !in confirmed + {(who, i)};
      assert c in consumers - {who} && (c, i) !in confirmed;
    }
    if Owed(consumers - {who}, confirmed, i) {
      var c :| c in consumers - {who} && (c, i) !in confirmed;
      assert c in consumers && (c, i) !in confirmed + {(who, i)};
    }
  }

  lemma {:induction false} DepartLosesWhen(w: World, id: string, lim: Limits, i: nat)
    requires Tidy(w.buffer)
    ensures Loses(w, Depart(id), lim, i) <==> MayLose(w, Depart(id), i)
  {
    var s := w.buffer;
    if id in s.consumers {
      assert |s.consumers - {id}| + 1 == |s.consumers|;
      assert i in s.chunks ==> (i in Dropped(Departed(s, id)) <==> !s.frozen && Finished(Departed(s, id), i));
    }
  }

  lemma {:induction false} RunSnoc(steps: seq<Step>, t: Step, lim: Limits)
    ensures Run(steps + [t], lim) == Next(Run(steps, lim), t, lim)
  {
    assert (steps + [t])[..|steps + [t]| - 1] == steps;
  }

  /** These consumers, and one chunk that may be dropped. */
  ghost predicate Waiting(w: World, all: set<string>) {
    w.buffer.consumers == all && w.buffer.chunks == map[1 := ChunkState([7], 0)] && !w.buffer.frozen && w.confirmed == {}
  }

  /** A new buffer that the consumers have joined. */
  ghost predicate Joined(w: World, all: set<string>) {
    w.buffer == Initial().(consumers := all) && w.confirmed == {}
  }

  lemma {:induction false} OneMoreConsumer(steps: seq<Step>, all: set<string>, id: string, lim: Limits)
    requires Joined(Run(steps, lim), all) && id !in all && |all| < lim.maxConsumerCount
    ensures Joined(Run(steps + [Arrive(id)], lim), all + {id})
  {
    RunSnoc(steps, Arrive(id), lim);
  }

  lemma {:induction false} AddAndUnfreeze(w: World, all: set<string>, lim: Limits)
    requires Joined(w, all) && all != {} && lim.maxChunkSize == lim.queueMaxSize == 1
    ensures Waiting(Next(Next(w, Add([7]), lim), Unfreeze, lim), all)
  {
    assert |all| > 0;
    var x := Next(w, Add([7]), lim);
    assert x.buffer.chunks == map[1 := ChunkState([7], 0)] && x.buffer.consumers == all && x.confirmed == {};
  }

  lemma {:induction false} ReachWaiting(joined: seq<Step>, all: set<string>, lim: Limits) returns (steps: seq<Step>)
    requires Joined(Run(joined, lim), all) && all != {} && lim.maxChunkSize == lim.queueMaxSize == 1
    ensures Waiting(Run(steps, lim), all)
  {
    AddAndUnfreeze(Run(joined, lim), all, lim);
    RunSnoc(joined, Add([7]), lim);
    RunSnoc(joined + [Add([7])], Unfreeze, lim);
    steps := joined + [Add([7])] + [Unfreeze];
  }

  lemma {:induction false} ReachTwo(a: string, b: string, lim: Limits) returns (steps: seq<Step>)
    requires a != b && lim.maxConsumerCount >= 2
    ensures Joined(Run(steps, lim), {a, b})
  {
    assert Run([], lim) == World(Initial(), [], {}, []);
    OneMoreConsumer([], {}, a, lim);
    OneMoreConsumer([] + [Arrive(a)], {} + {a}, b, lim);
    steps := [] + [Arrive(a)] + [Arrive(b)];
    assert {} + {a} + {b} == {a, b};
  }

  /** If a consumer may confirm a chunk twice, it goes although another consumer never
      confirmed it. */
  lemma {:induction false} DoubleConfirmationLoses() returns (steps: seq<Step>, lim: Limits)
    ensures |steps| >= 2 && steps[|steps| - 2] == steps[|steps| - 1] == Receive("a", 1)
    ensures var w := Run(steps, lim); 1 !in w.buffer.chunks && "b" in w.buffer.consumers && ("b", 1) !in w.confirmed
  {
    lim := Limits(1, 1, 2);
    steps := ReachTwo("a", "b", lim);
    steps := ReachWaiting(steps, {"a", "b"}, lim);
    RunSnoc(steps, Receive("a", 1), lim);
    assert |{"a", "b"}| == 2;
    steps := steps + [Receive("a", 1)];
    assert Run(steps, lim).buffer.chunks[1].uses == 1;
    RunSnoc(steps, Receive("a", 1), lim);
    steps := steps + [Receive("a", 1)];
  }

  /** One of three confirms and leaves, and another confirms: the chunk is gone. */
  lemma {:induction false} ConfirmAndLeave(w: World, a: string, b: string, c: string, lim: Limits)
    requires a != b && b != c && a != c && Waiting(w, {a, b, c})
    ensures var z := Next(Next(Next(w, Receive(a, 1), lim), Depart(a), lim), Receive(b, 1), lim);
      1 !in z.buffer.chunks && c in z.buffer.consumers && (c, 1) !in z.confirmed
  {
    assert |{a, b, c}| == 3 && |{b, c}| == 2;
    var x := Next(w, Receive(a, 1), lim);
    assert x.buffer.chunks == map[1 := ChunkState([7], 1)];
    var y := Next(x, Depart(a), lim);
    assert y.buffer.consumers == {b, c} && y.buffer.chunks == map[1 := ChunkState([7], 1)];
  }

  /** If a consumer may leave after confirming a held chunk, its confirmation is taken for that
      of a consumer who stays. */
  lemma {:induction false} DepartureLoses() returns (steps: seq<Step>, lim: Limits)
    ensures |steps| >= 3 && steps[|steps| - 3..] == [Receive("a", 1), Depart("a"), Receive("b", 1)]
    ensures var w := Run(steps, lim); 1 !in w.buffer.chunks && "c" in w.buffer.consumers && ("c", 1) !in w.confirmed
  {
    lim := Limits(1, 1, 3);
    var two := ReachTwo("a", "b", lim);
    assert |{"a", "b"}| == 2;
    OneMoreConsumer(two, {"a", "b"}, "c", lim);
    assert {"a", "b"} + {"c"} == {"a", "b", "c"};
    var all := ReachWaiting(two + [Arrive("c")], {"a", "b", "c"}, lim);
    ConfirmAndLeave(Run(all, lim), "a", "b", "c", lim);
    RunSnoc(all, Receive("a", 1), lim);
    RunSnoc(all + [Receive("a", 1)], Depart("a"), lim);
    RunSnoc(all + [Receive("a", 1)] + [Depart("a")], Receive("b", 1), lim);
    steps := all + [Receive("a", 1)] + [Depart("a")] + [Receive("b", 1)];
  }
}
