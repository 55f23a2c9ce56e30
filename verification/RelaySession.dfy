/** A transfer session as a state machine over its buffer: who receives, what is published, and
    when the session leaves the session list. */
module RelaySession {
  import opened RelayBuffer
  import opened Bits

  datatype CompleteType = Done | Timeout | SenderIsGone | NoReceivers

  /** What the session publishes, in order. Kicked is the acknowledged message to a receiver. */
  datatype Event =
    | NewReceiver(id: string)
    | ReceiverRemoved(id: string)
    | Kicked(id: string)
    | FileInfoUpdated
    | NewChunkIsAvailable(index: nat, size: nat)
    | NewChunkIsAllowed(allowed: bool)
    | BytesInUpdated(bytes: nat)
    | BytesOutUpdated
    | ChunksWasRemoved(removed: seq<nat>)
    | ChunkDownloadFinished(id: string, index: nat)
    | ChunksAreUnfrozen
    | FileUploadFinished

  /** sender says whether the client that created the session still exists. */
  datatype SessionState = SessionState(
    buffer: BufferState,
    receivers: set<string>,
    sender: bool,
    named: bool,
    autoDrop: bool,
    autoDropFired: bool,
    completeType: CompleteType,
    listed: bool,
    events: seq<Event>)

  function Created(autoDrop: bool): SessionState {
    SessionState(RelayBuffer.Initial(), {}, true, false, autoDrop, false, Done, true, [])
  }

  /** TransferSessionList::remove. */
  function Unlist(s: SessionState): SessionState { s.(listed := false) }

  function Publish(s: SessionState, e: seq<Event>): SessionState { s.(events := s.events + e) }

  predicate Allowed(b: BufferState, lim: Limits) { lim.queueMaxSize > |b.chunks| }

  /** The message about removed chunks, if there are any. */
  function Removal(removed: seq<nat>): seq<Event> { if removed == [] then [] else [ChunksWasRemoved(removed)] }

  /** The message to the sender when the queue becomes full or free. */
  function Change(before: bool, after: bool): seq<Event> { if before == after then [] else [NewChunkIsAllowed(after)] }

  function AddReceiver(s: SessionState, id: string, lim: Limits): SessionState {
    if id in s.receivers || !CanJoin(s.buffer, id, lim) then s
    else Publish(s.(buffer := Join(s.buffer, id, lim), receivers := s.receivers + {id}), [NewReceiver(id)])
  }

  /** The chunks that a departure drops. */
  function DroppedByLeave(b: BufferState, id: string): seq<nat> {
    if id in b.consumers then Ascending(Dropped(Departed(b, id)), b.maxIndex) else []
  }

  /** The end of removeReceiver: without receivers the session ends, unless it is still frozen,
      lost nothing, and waits for the sender to start. */
  function AfterLast(s: SessionState): SessionState {
    if s.receivers != {} then s
    else if s.autoDrop then Unlist(s.(completeType := Done))
    else if s.buffer.someRemoved || !s.buffer.frozen then
      Unlist(s.(completeType := if s.buffer.eof && s.buffer.chunks == map[] then Done else NoReceivers))
    else s
  }

  /** removeReceiver. Only a receiver that still exists is told. */
  function RemoveReceiver(s: SessionState, id: string, alive: bool): SessionState {
    var kicked := if alive && id in s.receivers then [Kicked(id)] else [];
    AfterLast(Publish(s.(buffer := Leave(s.buffer, id), receivers := s.receivers - {id}),
                      Removal(DroppedByLeave(s.buffer, id)) + kicked + [ReceiverRemoved(id)]))
  }

  function AddData(s: SessionState, data: seq<byte>, lim: Limits): SessionState {
    var (b, index) := AddChunk(s.buffer, data, lim);
    if index == 0 then s else
    Publish(s.(buffer := b), [NewChunkIsAvailable(index, |data|)] + Change(Allowed(s.buffer, lim), Allowed(b, lim)) +
                             [BytesInUpdated(b.bytesIn)])
  }

  predicate Complete(b: BufferState) { b.chunks == map[] && b.eof }

  /** dropInitialChunksFreeze. */
  function DropInitialFreeze(s: SessionState, lim: Limits): SessionState {
    if !s.buffer.frozen then s else
    var removed := Ascending(Dropped(Unfrozen(s.buffer)), s.buffer.maxIndex);
    var t := s.(buffer := DropFreeze(s.buffer));
    if t.receivers == {} then Unlist(t.(completeType := NoReceivers))
    else if !t.named then Unlist(t.(completeType := SenderIsGone))
    else
      var u := Publish(t, Removal(removed) + [NewChunkIsAllowed(Allowed(t.buffer, lim)), ChunksAreUnfrozen]);
      if Complete(u.buffer) then Unlist(u) else u
  }

  /** The automatic drop of the freeze with the first confirmation. */
  function AutoDrop(s: SessionState, lim: Limits): SessionState {
    if s.autoDrop && s.buffer.frozen && !s.autoDropFired then DropInitialFreeze(s.(autoDropFired := true), lim) else s
  }

  /** The messages about a confirmation after which the buffer is that of s, and the end of the
      session. */
  function Announce(s: SessionState, index: nat, id: string, removed: seq<nat>, oldAllowed: bool, lim: Limits): SessionState {
    var t := Publish(s,
      Removal(removed) + Change(oldAllowed, Allowed(s.buffer, lim)) + [BytesOutUpdated, ChunkDownloadFinished(id, index)]);
    if Complete(s.buffer) then Unlist(t) else t
  }

  /** setChunkAsReceived after the automatic drop. */
  function ConfirmChunk(s: SessionState, index: nat, id: string, lim: Limits): SessionState {
    if index !in s.buffer.chunks then s else
    var removed := Ascending(Dropped(Confirmed(s.buffer, index)), s.buffer.maxIndex);
    Announce(s.(buffer := Confirm(s.buffer, index)), index, id, removed, Allowed(s.buffer, lim), lim)
  }

  function SetChunkAsReceived(s: SessionState, index: nat, id: string, lim: Limits): SessionState {
    ConfirmChunk(AutoDrop(s, lim), index, id, lim)
  }

  function SetEndOfFile(s: SessionState): SessionState {
    if s.buffer.eof then s else
    var t := Publish(s.(buffer := SetEof(s.buffer)), [FileUploadFinished]);
    if t.buffer.chunks == map[] then Unlist(t) else t
  }

  /** What the session does about a destroyed client if the sender does not exist. */
  function SenderGone(s: SessionState): SessionState {
    if !s.buffer.eof then Unlist(s.(completeType := SenderIsGone))
    else if s.receivers == {} then Unlist(s.(completeType := NoReceivers))
    else s
  }

  /** update: a client was destroyed. */
  function Destroyed(s: SessionState, id: string): SessionState {
    if s.sender then RemoveReceiver(s, id, false) else SenderGone(s)
  }

  /** Exit is the destruction of a receiver's client. Name, Upload, Eof, Kick and Terminate come
      from the sender. */
  datatype Action =
    | Enter(id: string)
    | Exit(id: string)
    | Kick(id: string)
    | Name
    | Upload(data: seq<byte>)
    | Acknowledge(index: nat, id: string)
    | Eof
    | Start
    | SenderLost
    | Terminate
    | Expire

  function Act(s: SessionState, a: Action, lim: Limits): SessionState {
    match a
    case Enter(id) => AddReceiver(s, id, lim)
    case Exit(id) => Destroyed(s, id)
    case Kick(id) => if s.sender then RemoveReceiver(s, id, true) else s
    case Name => if s.sender then Publish(s.(named := true), [FileInfoUpdated]) else s
    case Upload(data) => if s.sender then AddData(s, data, lim) else s
    case Acknowledge(index, id) => SetChunkAsReceived(s, index, id, lim)
    case Eof => if s.sender then SetEndOfFile(s) else s
    case Start => DropInitialFreeze(s, lim)
    case SenderLost => if s.sender then SenderGone(s.(sender := false)) else s
    case Terminate => if s.sender then Unlist(s.(completeType := SenderIsGone)) else s
    case Expire => Unlist(s.(completeType := Timeout))
  }

  function Session(actions: seq<Action>, autoDrop: bool, lim: Limits): SessionState {
    if actions == [] then Created(autoDrop) else
    Act(Session(actions[..|actions| - 1], autoDrop, lim), actions[|actions| - 1], lim)
  }

  // ---------------------------------------------------------------- completion

  /** The receivers are the expected consumers of the buffer. */
  ghost predicate SameReceivers(s: SessionState) { s.receivers == s.buffer.consumers }

  /** A session that has delivered everything is no longer listed. */
  ghost predicate Ends(s: SessionState) { Complete(s.buffer) ==> !s.listed }

  /** A session that ended well, and not by the departure of an unattended sender's receivers,
      has the whole upload and nothing left to deliver. */
  ghost predicate EndsWell(s: SessionState) {
    !s.listed && s.completeType == Done && !s.autoDrop ==> Complete(s.buffer)
  }

  lemma {:induction false} StaysComplete(b: BufferState, data: seq<byte>, lim: Limits)
    requires Complete(b)
    ensures Complete(AddChunk(b, data, lim).0)
    ensures forall i :: Complete(Confirm(b, i))
    ensures forall id :: Complete(Leave(b, id)) && Complete(Join(b, id, lim))
    ensures Complete(DropFreeze(b))
  {
    assert b.chunks - Dropped(Unfrozen(b)) == map[];
  }

  lemma {:induction false} DropSame(s: SessionState, lim: Limits)
    ensures DropInitialFreeze(s, lim).receivers == s.receivers && DropInitialFreeze(s, lim).autoDrop == s.autoDrop
    ensures DropInitialFreeze(s, lim).sender == s.sender
    ensures DropInitialFreeze(s, lim).buffer == DropFreeze(s.buffer)
    ensures DropFreeze(s.buffer).consumers == s.buffer.consumers
  {
  }

  lemma {:induction false} ConfirmSame(s: SessionState, index: nat, id: string, lim: Limits)
    ensures ConfirmChunk(s, index, id, lim).receivers == s.receivers && ConfirmChunk(s, index, id, lim).autoDrop == s.autoDrop
    ensures ConfirmChunk(s, index, id, lim).sender == s.sender
    ensures ConfirmChunk(s, index, id, lim).buffer == Confirm(s.buffer, index)
    ensures Confirm(s.buffer, index).consumers == s.buffer.consumers
  {
    if index in s.buffer.chunks { ConfirmParts(s, index, id, lim, Confirm(s.buffer, index)); }
  }

  lemma {:induction false} ConfirmParts(s: SessionState, index: nat, id: string, lim: Limits, b: BufferState)
    requires index in s.buffer.chunks && b == Confirm(s.buffer, index)
    ensures exists listed: bool, events: seq<Event> ::
      ConfirmChunk(s, index, id, lim) == s.(buffer := b, listed := listed, events := events)
  {
    var t := ConfirmChunk(s, index, id, lim);
    assert t == s.(buffer := b, listed := t.listed, events := t.events);
  }

  lemma {:induction false} RemoveSame(s: SessionState, id: string, alive: bool)
    ensures RemoveReceiver(s, id, alive).receivers == s.receivers - {id}
    ensures RemoveReceiver(s, id, alive).autoDrop == s.autoDrop && RemoveReceiver(s, id, alive).sender == s.sender
    ensures RemoveReceiver(s, id, alive).buffer == Leave(s.buffer, id)
    ensures Leave(s.buffer, id).consumers == s.buffer.consumers - {id}
  {
  }

  lemma {:induction false} ActSame(s: SessionState, a: Action, lim: Limits)
    requires SameReceivers(s)
    ensures SameReceivers(Act(s, a, lim)) && Act(s, a, lim).autoDrop == s.autoDrop
  {
    match a
    case Exit(id) => RemoveSame(s, id, false);
    case Kick(id) => RemoveSame(s, id, true);
    case Acknowledge(index, id) =>
      DropSame(s.(autoDropFired := true), lim);
      ConfirmSame(AutoDrop(s, lim), index, id, lim);
    case Start => DropSame(s, lim);
    case Enter(id) =>
    case Name =>
    case Upload(data) =>
    case Eof =>
    case SenderLost =>
    case Terminate =>
    case Expire =>
  }

  lemma {:induction false} AcknowledgeEnds(s: SessionState, index: nat, id: string, lim: Limits)
    requires Ends(s)
    ensures Ends(SetChunkAsReceived(s, index, id, lim))
  {
    DropEnds(s.(autoDropFired := true), lim);
    ConfirmEnds(AutoDrop(s, lim), index, id, lim);
  }

  lemma {:induction false} ConfirmEnds(s: SessionState, index: nat, id: string, lim: Limits)
    requires Ends(s)
    ensures Ends(ConfirmChunk(s, index, id, lim))
  {
  }

  lemma {:induction false} ActEnds(s: SessionState, a: Action, lim: Limits)
    requires Ends(s) && !a.Exit? && !a.Kick?
    ensures Ends(Act(s, a, lim))
  {
    match a
    case Enter(id) =>
    case Name =>
    case Upload(data) =>
    case Acknowledge(index, id) => AcknowledgeEnds(s, index, id, lim);
    case Eof =>
    case Start => DropEnds(s, lim);
    case SenderLost =>
    case Terminate =>
    case Expire =>
  }

  lemma {:induction false} DropEnds(s: SessionState, lim: Limits)
    requires Ends(s)
    ensures Ends(DropInitialFreeze(s, lim))
  {
  }

  lemma {:induction false} DropEndsWell(s: SessionState, lim: Limits)
    requires EndsWell(s)
    ensures EndsWell(DropInitialFreeze(s, lim))
  {
    DropSame(s, lim);
    if Complete(s.buffer) { StaysComplete(s.buffer, [], lim); }
  }

  lemma {:induction false} ConfirmEndsWell(s: SessionState, index: nat, id: string, lim: Limits)
    requires EndsWell(s)
    ensures EndsWell(ConfirmChunk(s, index, id, lim))
  {
  }

  lemma {:induction false} RemoveEndsWell(s: SessionState, id: string, alive: bool)
    requires EndsWell(s)
    ensures EndsWell(RemoveReceiver(s, id, alive))
  {
    RemoveSame(s, id, alive);
    if Complete(s.buffer) { StaysComplete(s.buffer, [], Limits(0, 0, 0)); }
  }

  lemma {:induction false} ActEndsWell(s: SessionState, a: Action, lim: Limits)
    requires EndsWell(s)
    ensures EndsWell(Act(s, a, lim))
  {
    match a
    case Exit(id) => RemoveEndsWell(s, id, false);
    case Kick(id) => RemoveEndsWell(s, id, true);
    case Acknowledge(index, id) =>
      DropEndsWell(s.(autoDropFired := true), lim);
      ConfirmEndsWell(AutoDrop(s, lim), index, id, lim);
    case Start => DropEndsWell(s, lim);
    case Enter(id) =>
    case Name =>
    case Upload(data) =>
    case Eof =>
    case SenderLost =>
    case Terminate =>
    case Expire =>
  }

  ghost predicate NobodyLeaves(actions: seq<Action>) {
    forall i :: 0 <= i < |actions| ==> !actions[i].Exit? && !actions[i].Kick?
  }

  /** As long as no receiver leaves, a session that has delivered everything has ended, in
      whatever order the end of the upload, the last confirmation and the end of the freeze
      come. */
  lemma {:induction false} CompletionIsNoticed(actions: seq<Action>, autoDrop: bool, lim: Limits)
    requires NobodyLeaves(actions)
    ensures Ends(Session(actions, autoDrop, lim))
    decreases |actions|
  {
    if actions != [] {
      CompletionIsNoticed(actions[..|actions| - 1], autoDrop, lim);
      ActEnds(Session(actions[..|actions| - 1], autoDrop, lim), actions[|actions| - 1], lim);
    }
  }

  lemma {:induction false} SuccessIsComplete(actions: seq<Action>, autoDrop: bool, lim: Limits)
    ensures EndsWell(Session(actions, autoDrop, lim)) && SameReceivers(Session(actions, autoDrop, lim))
    ensures Session(actions, autoDrop, lim).autoDrop == autoDrop
    decreases |actions|
  {
    if actions != [] {
      SuccessIsComplete(actions[..|actions| - 1], autoDrop, lim);
      ActEndsWell(Session(actions[..|actions| - 1], autoDrop, lim), actions[|actions| - 1], lim);
      ActSame(Session(actions[..|actions| - 1], autoDrop, lim), actions[|actions| - 1], lim);
    }
  }

  lemma {:induction false} RemovalStalls(s: SessionState, id: string, alive: bool)
    requires Ends(s) && SameReceivers(s) && id in s.receivers
    ensures !Ends(RemoveReceiver(s, id, alive)) <==>
      s.listed && s.buffer.eof && !s.buffer.frozen && s.receivers != {id} &&
      forall i :: i in s.buffer.chunks ==> s.buffer.chunks[i].uses + 1 >= |s.buffer.consumers|
  {
    var b := Departed(s.buffer, id);
    assert |b.consumers| + 1 == |s.buffer.consumers|;
    assert s.receivers - {id} == {} <==> s.receivers == {id};
    if forall i :: i in s.buffer.chunks ==> s.buffer.chunks[i].uses + 1 >= |s.buffer.consumers| {
      forall i | i in b.chunks && !b.frozen ensures i in Dropped(b) { assert Finished(b, i); }
      if !b.frozen { assert b.chunks - Dropped(b) == map[]; }
    } else {
      var i :| i in s.buffer.chunks && s.buffer.chunks[i].uses + 1 < |s.buffer.consumers|;
      assert i in Sanitize(b).chunks;
    }
  }

  /** A departure leaves a finished session listed exactly if the sender exists, the session is
      listed, the upload is over, the freeze is lifted, someone stays, and every held chunk lacks
      at most the confirmation of the one who leaves. */
  lemma {:induction false} DepartureStalls(s: SessionState, a: Action, id: string, lim: Limits)
    requires a == Exit(id) || a == Kick(id)
    requires Ends(s) && SameReceivers(s) && id in s.receivers
    ensures !Ends(Act(s, a, lim)) <==>
      s.sender && s.listed && s.buffer.eof && !s.buffer.frozen && s.receivers != {id} &&
      forall i :: i in s.buffer.chunks ==> s.buffer.chunks[i].uses + 1 >= |s.buffer.consumers|
  {
    if s.sender { RemovalStalls(s, id, a.Kick?); }
  }

  lemma {:induction false} SessionSnoc(actions: seq<Action>, a: Action, autoDrop: bool, lim: Limits)
    ensures Session(actions + [a], autoDrop, lim) == Act(Session(actions, autoDrop, lim), a, lim)
  {
    assert (actions + [a])[..|actions + [a]| - 1] == actions;
  }

  /** The session after the actions is listed, has a file name, and has this buffer. */
  ghost predicate Reached(actions: seq<Action>, lim: Limits, b: BufferState) {
    var s := Session(actions, false, lim);
    s.listed && s.named && s.sender && !s.autoDrop && s.receivers == b.consumers && s.buffer == b
  }

  lemma {:induction false} ReachedMore(actions: seq<Action>, a: Action, lim: Limits, b: BufferState, c: BufferState)
    requires Reached(actions, lim, b) && lim == Limits(1, 1, 2)
    requires (a.Enter? && CanJoin(b, a.id, lim) && c == Join(b, a.id, lim)) ||
             (a.Upload? && c == AddChunk(b, a.data, lim).0) ||
             (a.Start? && b.frozen && b.consumers != {} && c == DropFreeze(b) && !Complete(c)) ||
             (a.Acknowledge? && c == Confirm(b, a.index) && !Complete(c)) ||
             (a.Eof? && b.chunks != map[] && c == SetEof(b))
    ensures Reached(actions + [a], lim, c)
  {
    SessionSnoc(actions, a, false, lim);
  }

  lemma {:induction false} ReachNamed(lim: Limits)
    ensures Reached([] + [Name], lim, RelayBuffer.Initial())
  {
    SessionSnoc([], Name, false, lim);
    assert Session([], false, lim) == Created(false);
  }

  /** Nobody confirms or leaves. */
  predicate Quiet(a: Action) { !a.Acknowledge? && !a.Exit? && !a.Kick? }

  function Starting(): seq<Action> { [] + [Name] + [Enter("a")] + [Enter("b")] + [Upload([7])] + [Start] }

  /** Two receivers, and one chunk that may be dropped. */
  lemma {:induction false} ReachStarted(lim: Limits) returns (actions: seq<Action>)
    requires lim == Limits(1, 1, 2)
    ensures actions == Starting() && Reached(actions, lim, Waiting(0, false, false))
  {
    actions := [] + [Name];
    ReachNamed(lim);
    var b := RelayBuffer.Initial();
    ReachedMore(actions, Enter("a"), lim, b, b.(consumers := {"a"}));
    actions := actions + [Enter("a")];
    ReachedMore(actions, Enter("b"), lim, b.(consumers := {"a"}), b.(consumers := {"a", "b"}));
    actions := actions + [Enter("b")];
    ReachedMore(actions, Upload([7]), lim, b.(consumers := {"a", "b"}), Waiting(0, true, false));
    actions := actions + [Upload([7])];
    WaitingFacts(true, 0);
    ReachedMore(actions, Start, lim, Waiting(0, true, false), Waiting(0, false, false));
    actions := actions + [Start];
  }

  /** One chunk that waits for two receivers. */
  function Waiting(uses: nat, frozen: bool, eof: bool): BufferState {
    BufferState({"a", "b"}, map[1 := ChunkState([7], uses)], 1, 1, false, eof, frozen)
  }

  lemma {:induction false} WaitingFacts(eof: bool, uses: nat)
    ensures |{"a", "b"}| == 2 && 1 in Waiting(uses, false, eof).chunks
    ensures DropFreeze(Waiting(0, true, false)) == Waiting(0, false, false)
    ensures Confirm(Waiting(0, false, false), 1) == Waiting(1, false, false)
    ensures forall frozen :: Waiting(uses, frozen, eof).chunks != map[]
  {
    assert |{"a", "b"}| == 2;
    assert 1 in map[1 := ChunkState([7], uses)];
    var gone := Dropped(Waiting(0, false, false));
    assert gone == {};
    assert Waiting(0, false, false).chunks - gone == Waiting(0, false, false).chunks;
    var gone1 := Dropped(Waiting(1, false, false));
    assert gone1 == {};
    assert Waiting(1, false, false).chunks - gone1 == Waiting(1, false, false).chunks;
  }

  /** Such a session exists: of two receivers one confirms everything, the upload ends, and the
      other receiver leaves. */
  lemma {:induction false} StalledSession() returns (actions: seq<Action>, lim: Limits)
    ensures !Ends(Session(actions, false, lim))
  {
    lim := Limits(1, 1, 2);
    actions := ReachStarted(lim);
    WaitingFacts(false, 1);
    ReachedMore(actions, Acknowledge(1, "a"), lim, Waiting(0, false, false), Waiting(1, false, false));
    actions := actions + [Acknowledge(1, "a")];
    ReachedMore(actions, Eof, lim, Waiting(1, false, false), Waiting(1, false, true));
    actions := actions + [Eof];
    WaitingFacts(true, 1);
    assert "a" in {"a", "b"} - {"b"};
    DepartureStalls(Session(actions, false, lim), Exit("b"), "b", lim);
    SessionSnoc(actions, Exit("b"), false, lim);
    actions := actions + [Exit("b")];
  }

  // ---------------------------------------------------------------- delivery

  /** The steps of the buffer in one action of the session. */
  ghost function BufferSteps(s: SessionState, a: Action): seq<Step> {
    match a
    case Enter(id) => if id in s.receivers then [] else [Arrive(id)]
    case Exit(id) => if s.sender then [Depart(id)] else []
    case Kick(id) => if s.sender then [Depart(id)] else []
    case Upload(data) => if s.sender then [Add(data)] else []
    case Acknowledge(index, id) =>
      (if s.autoDrop && s.buffer.frozen && !s.autoDropFired then [Unfreeze] else []) + [Receive(id, index)]
    case Eof => if s.sender then [EndOfFile] else []
    case Start => [Unfreeze]
    case _ => []
  }

  ghost function Trace(actions: seq<Action>, autoDrop: bool, lim: Limits): seq<Step> {
    if actions == [] then [] else
    var before := actions[..|actions| - 1];
    Trace(before, autoDrop, lim) + BufferSteps(Session(before, autoDrop, lim), actions[|actions| - 1])
  }

  lemma {:induction false} RunSteps(steps: seq<Step>, more: seq<Step>, s: SessionState, a: Action, lim: Limits)
    requires Run(steps, lim).buffer == s.buffer && more == BufferSteps(s, a)
    ensures Run(steps + more, lim).buffer == Act(s, a, lim).buffer
  {
    if more == [] {
      assert steps + more == steps;
      NoSteps(s, a, lim);
    } else if |more| == 1 {
      RunOne(steps, more, lim);
      OneStep(Run(steps, lim), s, a, lim);
    } else {
      RunTwo(steps, more, lim);
      TwoSteps(Run(steps, lim), s, a, lim);
    }
  }

  lemma {:induction false} RunOne(steps: seq<Step>, more: seq<Step>, lim: Limits)
    requires |more| == 1
    ensures Run(steps + more, lim) == Next(Run(steps, lim), more[0], lim)
  {
    assert more == [more[0]];
    RunSnoc(steps, more[0], lim);
  }

  lemma {:induction false} RunTwo(steps: seq<Step>, more: seq<Step>, lim: Limits)
    requires |more| == 2
    ensures Run(steps + more, lim) == Next(Next(Run(steps, lim), more[0], lim), more[1], lim)
  {
    RunSnoc(steps, more[0], lim);
    RunSnoc(steps + [more[0]], more[1], lim);
    assert steps + more == steps + [more[0]] + [more[1]];
  }

  lemma {:induction false} NoSteps(s: SessionState, a: Action, lim: Limits)
    requires BufferSteps(s, a) == []
    ensures Act(s, a, lim).buffer == s.buffer
  {
  }

  lemma {:induction false} TwoSteps(w: World, s: SessionState, a: Action, lim: Limits)
    requires w.buffer == s.buffer && |BufferSteps(s, a)| == 2
    ensures Next(Next(w, BufferSteps(s, a)[0], lim), BufferSteps(s, a)[1], lim).buffer == Act(s, a, lim).buffer
  {
    DropSame(s.(autoDropFired := true), lim);
    ConfirmSame(AutoDrop(s, lim), a.index, a.id, lim);
  }

  lemma {:induction false} OneStep(w: World, s: SessionState, a: Action, lim: Limits)
    requires w.buffer == s.buffer && |BufferSteps(s, a)| == 1
    ensures Next(w, BufferSteps(s, a)[0], lim).buffer == Act(s, a, lim).buffer
  {
    match a
    case Exit(id) => RemoveSame(s, id, false);
    case Kick(id) => RemoveSame(s, id, true);
    case Acknowledge(index, id) => ConfirmSame(s, index, id, lim);
    case Start => DropSame(s, lim);
    case _ =>
  }

  /** A session drives its buffer: the buffer of a session run is that of a buffer run. */
  lemma {:induction false} SessionRunsBuffer(actions: seq<Action>, autoDrop: bool, lim: Limits)
    ensures Run(Trace(actions, autoDrop, lim), lim).buffer == Session(actions, autoDrop, lim).buffer
    decreases |actions|
  {
    if actions != [] {
      var before, a := actions[..|actions| - 1], actions[|actions| - 1];
      SessionRunsBuffer(before, autoDrop, lim);
      RunSteps(Trace(before, autoDrop, lim), BufferSteps(Session(before, autoDrop, lim), a), Session(before, autoDrop, lim), a, lim);
    }
  }

  /** When a session ends well, everyone who is still receiving has confirmed the whole stream:
      provided that only receivers confirm, each chunk once, and nobody left after confirming a
      chunk that was still held. */
  lemma {:induction false} SuccessIsDelivery(actions: seq<Action>, lim: Limits, c: string, i: nat)
    requires FairRun(Trace(actions, false, lim), lim)
    requires var s := Session(actions, false, lim); !s.listed && s.completeType == Done && c in s.receivers
    requires 1 <= i <= |Run(Trace(actions, false, lim), lim).stream|
    ensures (c, i) in Run(Trace(actions, false, lim), lim).confirmed
  {
    SessionRunsBuffer(actions, false, lim);
    SuccessIsComplete(actions, false, lim);
    WholeStreamConfirmed(Trace(actions, false, lim), lim, c, i);
  }

  /** The same for an unattended session that completed. */
  lemma {:induction false} CompleteIsDelivery(actions: seq<Action>, autoDrop: bool, lim: Limits, c: string, i: nat)
    requires FairRun(Trace(actions, autoDrop, lim), lim)
    requires Complete(Session(actions, autoDrop, lim).buffer) && c in Session(actions, autoDrop, lim).receivers
    requires 1 <= i <= |Run(Trace(actions, autoDrop, lim), lim).stream|
    ensures (c, i) in Run(Trace(actions, autoDrop, lim), lim).confirmed
  {
    SessionRunsBuffer(actions, autoDrop, lim);
    SuccessIsComplete(actions, autoDrop, lim);
    WholeStreamConfirmed(Trace(actions, autoDrop, lim), lim, c, i);
  }

  // ---------------------------------------------------------------- without the sender

  /** Once the sender's client is destroyed, no departure takes effect any more. */
  lemma {:induction false} DepartureIgnored(s: SessionState, a: Action, id: string, lim: Limits)
    requires !s.sender && (a == Exit(id) || a == Kick(id))
    ensures Act(s, a, lim).receivers == s.receivers && Act(s, a, lim).buffer == s.buffer && Act(s, a, lim).events == s.events
  {
  }

  lemma {:induction false} AcknowledgeSame(s: SessionState, index: nat, id: string, lim: Limits)
    ensures SetChunkAsReceived(s, index, id, lim).receivers == s.receivers
    ensures SetChunkAsReceived(s, index, id, lim).sender == s.sender
  {
    DropSame(s.(autoDropFired := true), lim);
    ConfirmSame(AutoDrop(s, lim), index, id, lim);
  }

  lemma {:induction false} ReceiversStayOnce(s: SessionState, a: Action, lim: Limits)
    requires !s.sender
    ensures !Act(s, a, lim).sender && s.receivers <= Act(s, a, lim).receivers
  {
    match a
    case Acknowledge(index, id) => AcknowledgeSame(s, index, id, lim);
    case Start => DropSame(s, lim);
    case Enter(id) =>
    case Exit(id) =>
    case Kick(id) =>
    case Name =>
    case Upload(data) =>
    case Eof =>
    case SenderLost =>
    case Terminate =>
    case Expire =>
  }

  /** So whoever received then is waited for in every continuation of the run. */
  lemma {:induction false} ReceiversStay(actions: seq<Action>, more: seq<Action>, autoDrop: bool, lim: Limits)
    requires !Session(actions, autoDrop, lim).sender
    ensures !Session(actions + more, autoDrop, lim).sender
    ensures Session(actions, autoDrop, lim).receivers <= Session(actions + more, autoDrop, lim).receivers
    ensures Session(actions + more, autoDrop, lim).receivers == Session(actions + more, autoDrop, lim).buffer.consumers
    decreases |more|
  {
    SuccessIsComplete(actions + more, autoDrop, lim);
    if more == [] {
      assert actions + more == actions;
    } else {
      var most, a := more[..|more| - 1], more[|more| - 1];
      ReceiversStay(actions, most, autoDrop, lim);
      assert actions + more == actions + most + [a];
      SessionSnoc(actions + most, a, autoDrop, lim);
      ReceiversStayOnce(Session(actions + most, autoDrop, lim), a, lim);
    }
  }

  /** A session without its sender that holds chunk i for receiver id after the end of the
      upload. */
  ghost predicate Owing(s: SessionState, id: string, i: nat) {
    !s.sender && s.listed && s.named && s.buffer.eof && id in s.receivers && i in s.buffer.chunks
  }

  lemma {:induction false} StaysListed(s: SessionState, a: Action, lim: Limits, id: string, i: nat)
    requires Owing(s, id, i) && a != Expire && i in Act(s, a, lim).buffer.chunks
    ensures Owing(Act(s, a, lim), id, i)
  {
    match a
    case Acknowledge(index, who) => AcknowledgeOwes(s, index, who, lim, id, i);
    case Start => StartOwes(s, lim, id, i);
    case Enter(who) =>
    case Exit(who) =>
    case Kick(who) =>
    case Name =>
    case Upload(data) =>
    case Eof =>
    case SenderLost =>
    case Terminate =>
  }

  lemma {:induction false} StartOwes(s: SessionState, lim: Limits, id: string, i: nat)
    requires Owing(s, id, i) && i in DropInitialFreeze(s, lim).buffer.chunks
    ensures Owing(DropInitialFreeze(s, lim), id, i)
  {
  }

  lemma {:induction false} AcknowledgeOwes(s: SessionState, index: nat, who: string, lim: Limits, id: string, i: nat)
    requires Owing(s, id, i) && i in SetChunkAsReceived(s, index, who, lim).buffer.chunks
    ensures Owing(SetChunkAsReceived(s, index, who, lim), id, i)
  {
    ConfirmShrinks(AutoDrop(s, lim), index, who, lim, i);
    AutoDropOwes(s, lim, id, i);
    ConfirmOwes(AutoDrop(s, lim), index, who, lim, id, i);
  }

  lemma {:induction false} AutoDropOwes(s: SessionState, lim: Limits, id: string, i: nat)
    requires Owing(s, id, i) && i in AutoDrop(s, lim).buffer.chunks
    ensures Owing(AutoDrop(s, lim), id, i)
  {
    if AutoDrop(s, lim) != s { StartOwes(s.(autoDropFired := true), lim, id, i); }
  }

  lemma {:induction false} ConfirmShrinks(s: SessionState, index: nat, who: string, lim: Limits, i: nat)
    requires i in ConfirmChunk(s, index, who, lim).buffer.chunks
    ensures i in s.buffer.chunks
  {
  }

  lemma {:induction false} ConfirmOwes(s: SessionState, index: nat, who: string, lim: Limits, id: string, i: nat)
    requires Owing(s, id, i) && i in ConfirmChunk(s, index, who, lim).buffer.chunks
    ensures Owing(ConfirmChunk(s, index, who, lim), id, i)
  {
  }

  lemma {:induction false} TraceSnoc(actions: seq<Action>, a: Action, autoDrop: bool, lim: Limits)
    ensures Trace(actions + [a], autoDrop, lim) ==
            Trace(actions, autoDrop, lim) + BufferSteps(Session(actions, autoDrop, lim), a)
  {
    assert (actions + [a])[..|actions + [a]| - 1] == actions;
  }

  lemma {:induction false} FairPrefix(steps: seq<Step>, more: seq<Step>, lim: Limits)
    requires FairRun(steps + more, lim)
    ensures FairRun(steps, lim)
    decreases |more|
  {
    if more == [] {
      assert steps + more == steps;
    } else {
      assert (steps + more)[..|steps + more| - 1] == steps + more[..|more| - 1];
      FairPrefix(steps, more[..|more| - 1], lim);
    }
  }

  lemma {:induction false} NotConfirmedOnce(w: World, t: Step, lim: Limits, id: string, i: nat)
    requires (id, i) !in w.confirmed && t != Receive(id, i)
    ensures (id, i) !in Next(w, t, lim).confirmed
  {
  }

  lemma {:induction false} NotConfirmedIn(steps: seq<Step>, more: seq<Step>, lim: Limits, id: string, i: nat)
    requires (id, i) !in Run(steps, lim).confirmed && Receive(id, i) !in more
    ensures (id, i) !in Run(steps + more, lim).confirmed
    decreases |more|
  {
    if more == [] {
      assert steps + more == steps;
    } else {
      var most, t := more[..|more| - 1], more[|more| - 1];
      assert steps + more == steps + most + [t];
      NotConfirmedIn(steps, most, lim, id, i);
      RunSnoc(steps + most, t, lim);
      NotConfirmedOnce(Run(steps + most, lim), t, lim, id, i);
    }
  }

  lemma {:induction false} NotAmong(s: SessionState, a: Action, id: string, i: nat)
    requires a != Acknowledge(i, id)
    ensures Receive(id, i) !in BufferSteps(s, a)
  {
  }

  /** Who never acknowledges a chunk has not confirmed it. */
  lemma {:induction false} NeverConfirmed(actions: seq<Action>, autoDrop: bool, lim: Limits, id: string, i: nat)
    requires Acknowledge(i, id) !in actions
    ensures (id, i) !in Run(Trace(actions, autoDrop, lim), lim).confirmed
    decreases |actions|
  {
    if actions != [] {
      var most, a := actions[..|actions| - 1], actions[|actions| - 1];
      assert actions == most + [a];
      assert a in actions && a != Acknowledge(i, id);
      NeverConfirmed(most, autoDrop, lim, id, i);
      TraceSnoc(most, a, autoDrop, lim);
      NotAmong(Session(most, autoDrop, lim), a, id, i);
      NotConfirmedIn(Trace(most, autoDrop, lim), BufferSteps(Session(most, autoDrop, lim), a), lim, id, i);
    }
  }

  /** In a fair run a chunk that a receiver never confirms stays in the buffer. */
  lemma {:induction false} StillHeld(actions: seq<Action>, a: Action, autoDrop: bool, lim: Limits, id: string, i: nat)
    requires FairRun(Trace(actions + [a], autoDrop, lim), lim) && Acknowledge(i, id) !in actions + [a]
    requires Owing(Session(actions, autoDrop, lim), id, i)
    ensures i in Session(actions + [a], autoDrop, lim).buffer.chunks
  {
    var steps, all := Trace(actions, autoDrop, lim), Trace(actions + [a], autoDrop, lim);
    SessionRunsBuffer(actions, autoDrop, lim);
    SessionRunsBuffer(actions + [a], autoDrop, lim);
    EveryRun(steps, lim);
    EveryRun(all, lim);
    FairRunDelivers(all, lim);
    NeverConfirmed(actions + [a], autoDrop, lim, id, i);
    ReceiversStay(actions, [a], autoDrop, lim);
    TraceSnoc(actions, a, autoDrop, lim);
    StreamGrows(steps, BufferSteps(Session(actions, autoDrop, lim), a), lim);
  }

  lemma {:induction false} StreamGrows(steps: seq<Step>, more: seq<Step>, lim: Limits)
    ensures Run(steps, lim).buffer.maxIndex <= Run(steps + more, lim).buffer.maxIndex
    decreases |more|
  {
    if more == [] {
      assert steps + more == steps;
    } else {
      var most, t := more[..|more| - 1], more[|more| - 1];
      assert steps + more == steps + most + [t];
      StreamGrows(steps, most, lim);
      RunSnoc(steps + most, t, lim);
    }
  }

  lemma {:induction false} FairBefore(actions: seq<Action>, a: Action, autoDrop: bool, lim: Limits)
    requires FairRun(Trace(actions + [a], autoDrop, lim), lim)
    ensures FairRun(Trace(actions, autoDrop, lim), lim)
  {
    TraceSnoc(actions, a, autoDrop, lim);
    FairPrefix(Trace(actions, autoDrop, lim), BufferSteps(Session(actions, autoDrop, lim), a), lim);
  }

  lemma {:induction false} WaitsOn(actions: seq<Action>, a: Action, autoDrop: bool, lim: Limits, id: string, i: nat)
    requires Owing(Session(actions, autoDrop, lim), id, i) && FairRun(Trace(actions + [a], autoDrop, lim), lim)
    requires Acknowledge(i, id) !in actions + [a] && a != Expire
    ensures Owing(Session(actions + [a], autoDrop, lim), id, i)
  {
    StillHeld(actions, a, autoDrop, lim, id, i);
    SessionSnoc(actions, a, autoDrop, lim);
    StaysListed(Session(actions, autoDrop, lim), a, lim, id, i);
  }

  /** A session that has lost its sender and holds a chunk for a receiver who never confirms it,
      which need not exist any more, stays listed until its time is up. */
  lemma {:induction false} WaitsForTimeout(actions: seq<Action>, more: seq<Action>, autoDrop: bool, lim: Limits, id: string, i: nat)
    requires Owing(Session(actions, autoDrop, lim), id, i) && FairRun(Trace(actions + more, autoDrop, lim), lim)
    requires Acknowledge(i, id) !in actions + more && Expire !in more
    ensures Owing(Session(actions + more, autoDrop, lim), id, i)
    decreases |more|
  {
    if more == [] {
      assert actions + more == actions;
    } else {
      var most, a := more[..|more| - 1], more[|more| - 1];
      assert actions + more == actions + most + [a];
      FairBefore(actions + most, a, autoDrop, lim);
      WaitsForTimeout(actions, most, autoDrop, lim, id, i);
      WaitsOn(actions + most, a, autoDrop, lim, id, i);
    }
  }

  lemma {:induction false} QuietSteps(steps: seq<Step>, more: seq<Step>, lim: Limits)
    requires FairRun(steps, lim) && forall t :: t in more ==> !t.Receive? && !t.Depart?
    ensures FairRun(steps + more, lim)
    decreases |more|
  {
    if more == [] {
      assert steps + more == steps;
    } else {
      QuietSteps(steps, more[..|more| - 1], lim);
      assert (steps + more)[..|steps + more| - 1] == steps + more[..|more| - 1];
    }
  }

  lemma {:induction false} QuietOnes(s: SessionState, a: Action)
    requires Quiet(a)
    ensures forall t :: t in BufferSteps(s, a) ==> !t.Receive? && !t.Depart?
  {
  }

  lemma {:induction false} QuietMore(actions: seq<Action>, a: Action, lim: Limits)
    requires FairRun(Trace(actions, false, lim), lim) && Quiet(a)
    ensures FairRun(Trace(actions + [a], false, lim), lim)
  {
    var s := Session(actions, false, lim);
    QuietOnes(s, a);
    QuietSteps(Trace(actions, false, lim), BufferSteps(s, a), lim);
    TraceSnoc(actions, a, false, lim);
  }

  lemma {:induction false} StartingFair(lim: Limits)
    ensures FairRun(Trace(Starting(), false, lim), lim)
  {
    assert Trace([], false, lim) == [];
    QuietMore([], Name, lim);
    QuietMore([] + [Name], Enter("a"), lim);
    QuietMore([] + [Name] + [Enter("a")], Enter("b"), lim);
    QuietMore([] + [Name] + [Enter("a")] + [Enter("b")], Upload([7]), lim);
    QuietMore([] + [Name] + [Enter("a")] + [Enter("b")] + [Upload([7])], Start, lim);
  }

  lemma {:induction false} LeaveBehind(actions: seq<Action>, lim: Limits, id: string)
    requires !Session(actions, false, lim).sender && FairRun(Trace(actions, false, lim), lim)
    requires Owing(Session(actions, false, lim), id, 1) && Acknowledge(1, id) !in actions
    ensures Owing(Session(actions + [Exit(id)], false, lim), id, 1)
    ensures FairRun(Trace(actions + [Exit(id)], false, lim), lim) && Acknowledge(1, id) !in actions + [Exit(id)]
  {
    SessionSnoc(actions, Exit(id), false, lim);
    TraceSnoc(actions, Exit(id), false, lim);
    assert Trace(actions, false, lim) + [] == Trace(actions, false, lim);
  }

  lemma {:induction false} NobodyAcknowledges(a: Action)
    requires a in Starting() + [Eof] + [SenderLost]
    ensures Quiet(a)
  {
  }

  lemma {:induction false} LosesSender(actions: seq<Action>, lim: Limits)
    requires Reached(actions, lim, Waiting(0, false, true)) && FairRun(Trace(actions, false, lim), lim)
    ensures Owing(Session(actions + [SenderLost], false, lim), "b", 1)
    ensures FairRun(Trace(actions + [SenderLost], false, lim), lim)
  {
    OwesAfterLoss(Session(actions, false, lim), lim);
    SessionSnoc(actions, SenderLost, false, lim);
    QuietMore(actions, SenderLost, lim);
  }

  lemma {:induction false} OwesAfterLoss(s: SessionState, lim: Limits)
    requires s.buffer == Waiting(0, false, true) && s.receivers == s.buffer.consumers && s.listed && s.named && s.sender
    ensures Owing(Act(s, SenderLost, lim), "b", 1)
  {
    assert "b" in s.receivers;
    assert 1 in s.buffer.chunks;
  }

  lemma {:induction false} UploadEnds(actions: seq<Action>, lim: Limits)
    requires lim == Limits(1, 1, 2)
    requires Reached(actions, lim, Waiting(0, false, false)) && FairRun(Trace(actions, false, lim), lim)
    ensures Reached(actions + [Eof], lim, Waiting(0, false, true)) && FairRun(Trace(actions + [Eof], false, lim), lim)
  {
    WaitingFacts(false, 0);
    ReachedMore(actions, Eof, lim, Waiting(0, false, false), Waiting(0, false, true));
    QuietMore(actions, Eof, lim);
  }

  lemma {:induction false} LastTwo(actions: seq<Action>, a: Action, b: Action)
    ensures var all := actions + [a] + [b]; |all| >= 2 && all[|all| - 2..] == [a, b]
  {
  }

  lemma {:induction false} Uploaded(lim: Limits) returns (actions: seq<Action>)
    requires lim == Limits(1, 1, 2)
    ensures actions == Starting() + [Eof] && Reached(actions, lim, Waiting(0, false, true))
    ensures FairRun(Trace(actions, false, lim), lim)
  {
    actions := ReachStarted(lim);
    StartingFair(lim);
    UploadEnds(actions, lim);
    actions := actions + [Eof];
  }

  lemma {:induction false} Abandoned(actions: seq<Action>, lim: Limits, all: seq<Action>)
    requires actions == Starting() + [Eof] && Reached(actions, lim, Waiting(0, false, true))
    requires FairRun(Trace(actions, false, lim), lim) && all == actions + [SenderLost] + [Exit("b")]
    ensures Owing(Session(all, false, lim), "b", 1)
    ensures FairRun(Trace(all, false, lim), lim) && Acknowledge(1, "b") !in all
  {
    LosesSender(actions, lim);
    if Acknowledge(1, "b") in actions + [SenderLost] { NobodyAcknowledges(Acknowledge(1, "b")); }
    LeaveBehind(actions + [SenderLost], lim, "b");
  }

  /** Such a session exists: the upload ends, the sender goes, and then a receiver goes. */
  lemma {:induction false} AbandonedSession() returns (actions: seq<Action>, lim: Limits)
    ensures |actions| >= 2 && actions[|actions| - 2..] == [SenderLost, Exit("b")]
    ensures Owing(Session(actions, false, lim), "b", 1)
    ensures FairRun(Trace(actions, false, lim), lim) && Acknowledge(1, "b") !in actions
  {
    lim := Limits(1, 1, 2);
    var before := Uploaded(lim);
    actions := before + [SenderLost] + [Exit("b")];
    LastTwo(before, SenderLost, Exit("b"));
    Abandoned(before, lim, actions);
  }
}
