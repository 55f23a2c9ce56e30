/** The TransferSession object, proved against the actions of RelaySession. */
module TransferSession {
  import opened Bits
  import opened RelayBuffer
  import opened RelayObjects
  import opened RelaySession

  class TransferSession {
    const buffer: Buffer
    const autoDrop: bool
    var receivers: seq<string>
    var sender: bool
    var named: bool
    var autoDropFired: bool
    var completeType: CompleteType
    var listed: bool
    var events: seq<Event>

    ghost predicate Valid()
      reads this, buffer, buffer.expectedConsumers, buffer.chunks.Values
    {
      buffer.Valid()
    }

    ghost function State(): (s: SessionState)
      reads this, buffer
    {
      SessionState(buffer.state, Members(receivers), sender, named, autoDrop, autoDropFired, completeType, listed, events)
    }

    constructor (autoDrop: bool)
      ensures Valid() && State() == Created(autoDrop) && fresh(buffer) && fresh(buffer.expectedConsumers)
    {
      buffer := new Buffer();
      this.autoDrop := autoDrop;
      receivers, sender, named, autoDropFired, completeType, listed, events := [], true, false, false, Done, true, [];
    }

    /** notifySubscribers, for several messages in order. */
    method Publish(news: seq<Event>)
      modifies this`events
      ensures events == old(events) + news
    {
      events := events + news;
    }

    /** An empty buffer after the end of the upload ends the session. */
    method EndIfComplete()
      requires Valid()
      modifies this`listed
      ensures Valid() && State() == old(if Complete(buffer.state) then Unlist(State()) else State())
    {
      var count := buffer.ChunkCount();
      var eof := buffer.Eof();
      if count == 0 && eof { listed := false; }
    }

    method AddReceiver(id: string, lim: Limits) returns (ok: bool)
      requires Valid()
      modifies this`receivers, this`events, buffer`state, buffer.expectedConsumers
      ensures Valid() && State() == RelaySession.AddReceiver(old(State()), id, lim)
      ensures ok == (id !in old(State()).receivers && CanJoin(old(State()).buffer, id, lim))
    {
      if id in receivers { return false; }
      ok := buffer.AddNewToExpectedConsumers(id, lim);
      if !ok { return false; }
      MembersSnoc(receivers, id);
      receivers := receivers + [id];
      Publish([NewReceiver(id)]);
    }

    /** removeReceiver, where alive says whether the client of that receiver still exists. */
    method RemoveReceiver(id: string, alive: bool)
      requires Valid()
      modifies this`receivers, this`events, this`completeType, this`listed
      modifies buffer`chunks, buffer`someChunkWasRemoved, buffer`state, buffer.expectedConsumers
      ensures Valid() && State() == RelaySession.RemoveReceiver(old(State()), id, alive)
    {
      var kicked := if alive && id in receivers then [Kicked(id)] else [];
      ghost var was := State();
      receivers := Without(receivers, id);
      var removed := buffer.RemoveOneFromExpectedConsumers(id);
      assert removed == DroppedByLeave(was.buffer, id);
      Publish(Removal(removed) + kicked + [ReceiverRemoved(id)]);
      FinishDeparture();
    }

    method FinishDeparture()
      requires Valid()
      modifies this`completeType, this`listed
      ensures Valid() && State() == AfterLast(old(State()))
    {
      assert Members(receivers) == {} <==> receivers == [] by { MembersEmpty(receivers); }
      if receivers == [] {
        if autoDrop {
          completeType, listed := Done, false;
          return;
        }
        var someRemoved := buffer.SomeChunksWasRemoved();
        var freezing := buffer.InitialChunksFreezing();
        if someRemoved || !freezing {
          var eof := buffer.Eof();
          var count := buffer.ChunkCount();
          completeType := if eof && count == 0 then Done else NoReceivers;
          listed := false;
        }
      }
    }

    method AddChunk(data: seq<byte>, lim: Limits) returns (ok: bool)
      requires Valid()
      modifies this`events, buffer
      ensures Valid() && State() == AddData(old(State()), data, lim)
    {
      var oldAllowed := buffer.NewChunkIsAllowed(lim);
      var index := buffer.AddChunk(data, lim);
      ok := index != 0;
      if ok { AnnounceChunk(index, |data|, oldAllowed, lim); }
    }

    method AnnounceChunk(index: nat, size: nat, oldAllowed: bool, lim: Limits)
      requires Valid()
      modifies this`events
      ensures Valid()
      ensures State() == old(
        RelaySession.Publish(State(), [NewChunkIsAvailable(index, size)] + Change(oldAllowed, Allowed(buffer.state, lim)) +
                                      [BytesInUpdated(buffer.state.bytesIn)]))
    {
      var newAllowed := buffer.NewChunkIsAllowed(lim);
      var bytesIn := buffer.BytesIn();
      Publish([NewChunkIsAvailable(index, size)] + Change(oldAllowed, newAllowed) + [BytesInUpdated(bytesIn)]);
    }

    method DropInitialChunksFreeze(lim: Limits)
      requires Valid()
      modifies this`events, this`completeType, this`listed
      modifies buffer`chunks, buffer`someChunkWasRemoved, buffer`initialChunksFreezing, buffer`state
      ensures Valid() && State() == DropInitialFreeze(old(State()), lim)
      ensures buffer.chunks.Values <= old(buffer.chunks).Values
    {
      var ok, removed := buffer.SetInitialChunksFreezingDropped();
      if !ok { return; }
      assert Members(receivers) == {} <==> receivers == [] by { MembersEmpty(receivers); }
      if receivers == [] {
        completeType, listed := NoReceivers, false;
        return;
      }
      if !named {
        completeType, listed := SenderIsGone, false;
        return;
      }
      var newAllowed := buffer.NewChunkIsAllowed(lim);
      Publish(Removal(removed) + [NewChunkIsAllowed(newAllowed), ChunksAreUnfrozen]);
      EndIfComplete();
    }

    method SetChunkAsReceived(index: nat, id: string, lim: Limits)
      requires Valid()
      modifies this, buffer, buffer.chunks.Values
      ensures Valid() && State() == RelaySession.SetChunkAsReceived(old(State()), index, id, lim)
    {
      var freezing := buffer.InitialChunksFreezing();
      if autoDrop && freezing && !autoDropFired {
        autoDropFired := true;
        DropInitialChunksFreeze(lim);
      }
      assert State() == AutoDrop(old(State()), lim);
      Confirm(index, id, lim);
    }

    method Confirm(index: nat, id: string, lim: Limits)
      requires Valid()
      modifies this`events, this`listed, buffer`chunks, buffer`someChunkWasRemoved, buffer`state, buffer.chunks.Values
      ensures Valid() && State() == ConfirmChunk(old(State()), index, id, lim)
    {
      var oldAllowed := buffer.NewChunkIsAllowed(lim);
      var ok, removed := buffer.SetChunkAsReceived(index);
      if ok { FinishConfirmation(index, id, removed, oldAllowed, lim); }
    }

    /** The messages about a confirmation, and the end of the session. */
    method FinishConfirmation(index: nat, id: string, removed: seq<nat>, oldAllowed: bool, lim: Limits)
      requires Valid()
      modifies this`events, this`listed
      ensures Valid() && State() == Announce(old(State()), index, id, removed, oldAllowed, lim)
    {
      var newAllowed := buffer.NewChunkIsAllowed(lim);
      Publish(Removal(removed) + Change(oldAllowed, newAllowed) + [BytesOutUpdated, ChunkDownloadFinished(id, index)]);
      EndIfComplete();
    }

    method SetEndOfFile()
      requires Valid()
      modifies this`events, this`listed, buffer`eof, buffer`state
      ensures Valid() && State() == RelaySession.SetEndOfFile(old(State()))
    {
      var eof := buffer.Eof();
      if eof { return; }
      buffer.SetEndOfFile();
      Publish([FileUploadFinished]);
      var count := buffer.ChunkCount();
      if count == 0 { listed := false; }
    }

    /** update: a client was destroyed, which is the sender's if that one does not exist. */
    method Update(id: string)
      requires Valid()
      modifies this`receivers, this`events, this`completeType, this`listed
      modifies buffer`chunks, buffer`someChunkWasRemoved, buffer`state, buffer.expectedConsumers
      ensures Valid() && State() == Destroyed(old(State()), id)
    {
      if !sender {
        WithoutSender();
        return;
      }
      RemoveReceiver(id, false);
    }

    method WithoutSender()
      requires Valid()
      modifies this`completeType, this`listed
      ensures Valid() && State() == SenderGone(old(State()))
    {
      assert Members(receivers) == {} <==> receivers == [] by { MembersEmpty(receivers); }
      var eof := buffer.Eof();
      if eof {
        if receivers == [] { completeType, listed := NoReceivers, false; }
        return;
      }
      completeType, listed := SenderIsGone, false;
    }

    /** The sender's client is destroyed. */
    method SenderDestroyed(id: string)
      requires Valid() && sender
      modifies this`sender, this`receivers, this`events, this`completeType, this`listed
      modifies buffer`chunks, buffer`someChunkWasRemoved, buffer`state, buffer.expectedConsumers
      ensures Valid() && State() == SenderGone(old(State()).(sender := false))
    {
      sender := false;
      Update(id);
    }
  }

  function Members(s: seq<string>): set<string> { set x | x in s }

  lemma {:induction false} MembersSnoc(s: seq<string>, x: string)
    ensures Members(s + [x]) == Members(s) + {x}
  {
  }

  lemma {:induction false} MembersEmpty(s: seq<string>)
    ensures Members(s) == {} <==> s == []
  {
    if s != [] { assert s[0] in Members(s); }
  }

  /** The list without every entry equal to x. */
  function Without(s: seq<string>, x: string): (r: seq<string>)
    ensures Members(r) == Members(s) - {x}
  {
    if s == [] then [] else
    var rest := Without(s[1..], x);
    assert forall y :: y in s <==> y == s[0] || y in s[1..];
    assert forall y :: y in rest <==> y in Members(rest);
    assert forall y :: y in s[1..] <==> y in Members(s[1..]);
    if s[0] == x then rest else [s[0]] + rest
  }
}
