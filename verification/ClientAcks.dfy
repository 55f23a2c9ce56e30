/** The acknowledgement protocol of Client: every message sent with an acknowledgement has a
    callback, which a client ACK, the fallback timer, a missing connection or the destructor
    runs. */
module ClientAcks {
  /** Callbacks are named by what they do. */
  type Callback = string

  datatype AckState = AckState(
    pending: map<nat, Callback>,
    nextAckId: nat,
    connected: bool,
    destroyed: bool,
    sent: seq<nat>,
    ran: seq<(nat, Callback)>)

  function Created(): AckState { AckState(map[], 1, false, false, [], []) }

  /** resolveAck: an entry is taken out before its callback runs. */
  function Resolve(s: AckState, id: nat): AckState {
    if id in s.pending then s.(pending := s.pending - {id}, ran := s.ran + [(id, s.pending[id])]) else s
  }

  /** sendTextWithAck. */
  function Send(s: AckState, onAck: Callback): AckState {
    var id := s.nextAckId;
    var t := s.(pending := if id in s.pending then s.pending else s.pending[id := onAck], nextAckId := id + 1);
    if s.connected then t.(sent := s.sent + [id]) else Resolve(t, id)
  }

  /** The callbacks of a drained map, in the order of the ids. */
  function Drained(pending: map<nat, Callback>, order: seq<nat>): seq<(nat, Callback)>
    requires forall i :: 0 <= i < |order| ==> order[i] in pending
  {
    if order == [] then [] else Drained(pending, order[..|order| - 1]) + [(order[|order| - 1], pending[order[|order| - 1]])]
  }

  /** Each pending id once. */
  ghost predicate Enumerates(order: seq<nat>, pending: map<nat, Callback>) {
    (forall i :: 0 <= i < |order| ==> order[i] in pending) &&
    (forall id :: id in pending ==> id in order) &&
    forall i, j :: 0 <= i < j < |order| ==> order[i] != order[j]
  }

  /** Those not left are in the order, each once. */
  ghost predicate Draining(pending: map<nat, Callback>, left: set<nat>, order: seq<nat>) {
    (forall i :: 0 <= i < |order| ==> order[i] in pending && order[i] !in left) &&
    (forall id :: id in pending ==> id in left || id in order) &&
    forall i, j :: 0 <= i < j < |order| ==> order[i] != order[j]
  }

  lemma {:induction false} DrainNext(pending: map<nat, Callback>, left: set<nat>, order: seq<nat>, id: nat)
    requires Draining(pending, left, order) && id in left && id in pending
    ensures Draining(pending, left - {id}, order + [id])
    ensures Drained(pending, order + [id]) == Drained(pending, order) + [(id, pending[id])]
  {
    assert (order + [id])[..|order + [id]| - 1] == order;
    forall x | x in pending ensures x in left - {id} || x in order + [id] {
      assert x in left || x in order;
    }
  }

  /** The destructor runs what is left, in the order of the hash map. */
  function Destroy(s: AckState, order: seq<nat>): AckState
    requires forall i :: 0 <= i < |order| ==> order[i] in s.pending
  {
    s.(pending := map[], destroyed := true, ran := s.ran + Drained(s.pending, order))
  }

  /** A timer that fires after the destruction finds no client. */
  datatype Step = SendMessage(onAck: Callback) | ClientAck(id: nat) | TimerFires(id: nat) | Connect | Disconnect | Delete(order: seq<nat>)

  ghost predicate Possible(s: AckState, t: Step) {
    match t
    case TimerFires(_) => true
    case Delete(order) => !s.destroyed && Enumerates(order, s.pending)
    case _ => !s.destroyed
  }

  ghost function Next(s: AckState, t: Step): AckState
    requires Possible(s, t)
  {
    match t
    case SendMessage(onAck) => Send(s, onAck)
    case ClientAck(id) => Resolve(s, id)
    case TimerFires(id) => if s.destroyed then s else Resolve(s, id)
    case Connect => s.(connected := true)
    case Disconnect => s.(connected := false)
    case Delete(order) => Destroy(s, order)
  }

  /** The client, and the callbacks given to it so far, by id. */
  datatype World = World(client: AckState, issued: map<nat, Callback>)

  ghost function Run(steps: seq<Step>): World {
    if steps == [] then World(Created(), map[]) else
    var w, t := Run(steps[..|steps| - 1]), steps[|steps| - 1];
    if !Possible(w.client, t) then w else
    World(Next(w.client, t), if t.SendMessage? then w.issued[w.client.nextAckId := t.onAck] else w.issued)
  }

  function Ids(ran: seq<(nat, Callback)>): set<nat> { set k | 0 <= k < |ran| :: ran[k].0 }

  /** No id ran twice, and what ran is what was issued. */
  ghost predicate RanOnce(ran: seq<(nat, Callback)>, issued: map<nat, Callback>) {
    (forall k :: 0 <= k < |ran| ==> ran[k].0 in issued && ran[k].1 == issued[ran[k].0]) &&
    forall j, k :: 0 <= j < k < |ran| ==> ran[j].0 != ran[k].0
  }

  /** Every issued callback either waits, or ran exactly once. */
  ghost predicate ExactlyOnce(s: AckState, issued: map<nat, Callback>) {
    s.nextAckId >= 1 && (forall id :: id in issued ==> id < s.nextAckId) &&
    (forall id :: id in s.pending ==> id in issued && s.pending[id] == issued[id]) &&
    (forall id :: id in issued ==> (id in s.pending <==> id !in Ids(s.ran))) &&
    RanOnce(s.ran, issued) && (s.destroyed ==> s.pending == map[])
  }

  lemma {:induction false} IdsSnoc(ran: seq<(nat, Callback)>, x: (nat, Callback))
    ensures Ids(ran + [x]) == Ids(ran) + {x.0}
  {
    var more := ran + [x];
    forall id ensures id in Ids(more) <==> id in Ids(ran) + {x.0} {
      if id in Ids(ran) {
        var k :| 0 <= k < |ran| && ran[k].0 == id;
        assert more[k].0 == id;
      }
      if id == x.0 { assert more[|ran|].0 == id; }
    }
  }

  /** A waiting callback runs. */
  lemma {:induction false} RunOne(ran: seq<(nat, Callback)>, issued: map<nat, Callback>, id: nat)
    requires RanOnce(ran, issued) && id in issued && id !in Ids(ran)
    ensures RanOnce(ran + [(id, issued[id])], issued)
  {
    forall k | 0 <= k < |ran| ensures ran[k].0 != id { assert ran[k].0 in Ids(ran); }
  }

  lemma {:induction false} ResolveOnce(s: AckState, issued: map<nat, Callback>, id: nat)
    requires ExactlyOnce(s, issued)
    ensures ExactlyOnce(Resolve(s, id), issued)
  {
    if id in s.pending {
      RunOne(s.ran, issued, id);
      IdsSnoc(s.ran, (id, s.pending[id]));
    }
  }

  lemma {:induction false} SendOnce(s: AckState, issued: map<nat, Callback>, onAck: Callback)
    requires ExactlyOnce(s, issued) && !s.destroyed
    ensures ExactlyOnce(Send(s, onAck), issued[s.nextAckId := onAck])
  {
    var id, more := s.nextAckId, issued[s.nextAckId := onAck];
    var t := s.(pending := s.pending[id := onAck], nextAckId := id + 1);
    assert id !in Ids(s.ran);
    assert RanOnce(s.ran, more);
    assert ExactlyOnce(t, more);
    if !s.connected { ResolveOnce(t, more, id); }
  }

  lemma {:induction false} DrainOnce(ran: seq<(nat, Callback)>, issued: map<nat, Callback>, pending: map<nat, Callback>, order: seq<nat>)
    requires RanOnce(ran, issued)
    requires forall i :: 0 <= i < |order| ==> order[i] in pending
    requires forall id :: id in pending ==> id in issued && pending[id] == issued[id] && id !in Ids(ran)
    requires forall i, j :: 0 <= i < j < |order| ==> order[i] != order[j]
    ensures RanOnce(ran + Drained(pending, order), issued)
    ensures Ids(ran + Drained(pending, order)) == Ids(ran) + set i | 0 <= i < |order| :: order[i]
    decreases |order|
  {
    if order == [] {
      assert ran + Drained(pending, order) == ran;
    } else {
      var before, id := order[..|order| - 1], order[|order| - 1];
      DrainOnce(ran, issued, pending, before);
      var so := ran + Drained(pending, before);
      RunOne(so, issued, id);
      IdsSnoc(so, (id, pending[id]));
      assert ran + Drained(pending, order) == so + [(id, pending[id])];
    }
  }

  lemma {:induction false} DestroyOnce(s: AckState, issued: map<nat, Callback>, order: seq<nat>)
    requires ExactlyOnce(s, issued) && Enumerates(order, s.pending)
    ensures ExactlyOnce(Destroy(s, order), issued)
  {
    DrainOnce(s.ran, issued, s.pending, order);
  }

  lemma {:induction false} NextOnce(s: AckState, issued: map<nat, Callback>, t: Step)
    requires ExactlyOnce(s, issued) && Possible(s, t)
    ensures ExactlyOnce(Next(s, t), if t.SendMessage? then issued[s.nextAckId := t.onAck] else issued)
  {
    match t
    case SendMessage(onAck) => SendOnce(s, issued, onAck);
    case ClientAck(id) => ResolveOnce(s, issued, id);
    case TimerFires(id) => ResolveOnce(s, issued, id);
    case Connect =>
    case Disconnect =>
    case Delete(order) => DestroyOnce(s, issued, order);
  }

  /** In every interleaving of sends, acknowledgements of any ids, timers, connections and the
      destruction. */
  lemma {:induction false} AlwaysExactlyOnce(steps: seq<Step>)
    ensures ExactlyOnce(Run(steps).client, Run(steps).issued)
    decreases |steps|
  {
    if steps != [] {
      var w, t := Run(steps[..|steps| - 1]), steps[|steps| - 1];
      AlwaysExactlyOnce(steps[..|steps| - 1]);
      if Possible(w.client, t) { NextOnce(w.client, w.issued, t); }
    }
  }

  /** Once the client is destroyed, every callback it was ever given has run, exactly once. */
  lemma {:induction false} AllRunInTheEnd(steps: seq<Step>, id: nat) returns (k: nat)
    requires Run(steps).client.destroyed && id in Run(steps).issued
    ensures var ran := Run(steps).client.ran;
      k < |ran| && ran[k] == (id, Run(steps).issued[id]) && forall j :: 0 <= j < |ran| && ran[j].0 == id ==> j == k
  {
    AlwaysExactlyOnce(steps);
    var ran := Run(steps).client.ran;
    assert id in Ids(ran);
    k :| 0 <= k < |ran| && ran[k].0 == id;
  }

  // ---------------------------------------------------------------- the object

  class Client {
    var pendingAcks: map<nat, Callback>
    var nextAckId: nat
    var webSocketConnected: bool
    var destroyed: bool
    var sent: seq<nat>
    var ran: seq<(nat, Callback)>

    ghost function State(): AckState
      reads this
    {
      AckState(pendingAcks, nextAckId, webSocketConnected, destroyed, sent, ran)
    }

    constructor ()
      ensures State() == Created()
    {
      pendingAcks, nextAckId, webSocketConnected, destroyed, sent, ran := map[], 1, false, false, [], [];
    }

    method SendTextWithAck(onAck: Callback)
      requires !destroyed
      modifies this
      ensures State() == Send(old(State()), onAck)
    {
      var id := nextAckId;
      nextAckId := nextAckId + 1;
      if id !in pendingAcks { pendingAcks := pendingAcks[id := onAck]; }
      if webSocketConnected {
        sent := sent + [id];
      } else {
        ResolveAck(id);
      }
    }

    method ResolveAck(id: nat)
      modifies this
      ensures State() == Resolve(old(State()), id)
    {
      if id !in pendingAcks { return; }
      var cb := pendingAcks[id];
      pendingAcks := pendingAcks - {id};
      ran := ran + [(id, cb)];
    }

    /** ~Client: takes the map over and runs its callbacks in any order. */
    method Destruct() returns (ghost order: seq<nat>)
      requires !destroyed
      modifies this
      ensures Enumerates(order, old(pendingAcks)) && State() == Destroy(old(State()), order)
    {
      var pending := pendingAcks;
      pendingAcks, destroyed := map[], true;
      order := RunAll(pending);
    }

    method RunAll(pending: map<nat, Callback>) returns (ghost order: seq<nat>)
      modifies this`ran
      ensures Enumerates(order, pending) && ran == old(ran) + Drained(pending, order)
    {
      var left := pending.Keys;
      order := [];
      while left != {}
        invariant left <= pending.Keys
        invariant Draining(pending, left, order) && ran == old(ran) + Drained(pending, order)
        decreases left
      {
        var id :| id in left;
        DrainNext(pending, left, order, id);
        left := left - {id};
        ran := ran + [(id, pending[id])];
        order := order + [id];
      }
    }
  }
}
