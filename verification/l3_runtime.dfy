// The L3 actor runtime (l3_runtime_init, l3_spawn_actor, l3_send_message,
// l3_get_actor_by_name, l3_tick): actors in spawn order, each with its own
// mailbox, and a tick that lets every actor handle at most one message.

module L3Runtime {
  import opened CStrings
  import opened L3Store
  import opened L3Parse
  import opened L3Queue
  import opened L3Eval
  import opened L3Exec

  /** A spawned actor: its id, its name and role, its state, and its handlers. */
  datatype Actor = Actor(id: int, name: Option<string>, role: Option<string>, state: Store, handlers: seq<Handler>)

  /** The actors and their mailboxes, index for index; a mailbox is the
      sequence of its messages, oldest first. */
  datatype World = World(actors: seq<Actor>, queues: seq<seq<Message>>)

  predicate Aligned(w: World) {
    |w.actors| == |w.queues|
  }

  /** The actors as name lookup sees them. */
  function PeersOf(actors: seq<Actor>): (r: seq<Peer>)
    ensures |r| == |actors|
    ensures forall k :: 0 <= k < |r| ==> r[k] == Peer(actors[k].id, actors[k].name)
  {
    seq(|actors|, k requires 0 <= k < |actors| => Peer(actors[k].id, actors[k].name))
  }

  /** The index of the first actor with the id (the scan of l3_send_message). */
  function IndexOfId(actors: seq<Actor>, id: int): (r: Option<nat>)
    ensures r.Some? ==> r.value < |actors| && actors[r.value].id == id
    ensures r.Some? ==> forall j :: 0 <= j < r.value ==> actors[j].id != id
    ensures r.None? ==> forall j :: 0 <= j < |actors| ==> actors[j].id != id
  {
    if |actors| == 0 then None
    else if actors[0].id == id then Some(0)
    else
      match IndexOfId(actors[1..], id)
      case None => None
      case Some(k) => Some(k + 1)
  }

  /** l3_send_message with a non-NULL event: the message is queued at the
      tail of the mailbox of the actor with the id; an unknown id changes
      nothing. */
  function Deliver(w: World, target: int, event: string, data: string, now: int): (r: World)
    requires Aligned(w)
    ensures Aligned(r) && r.actors == w.actors
  {
    match IndexOfId(w.actors, target)
    case None => w
    case Some(k) => w.(queues := w.queues[k := w.queues[k] + [Message(event, data, now)]])
  }

  /** The messages of a handler delivered in the order they were sent. */
  function DeliverAll(w: World, out: seq<Outgoing>, now: int): (r: World)
    requires Aligned(w)
    ensures Aligned(r) && r.actors == w.actors
    decreases |out|
  {
    if |out| == 0 then w
    else
      var last := out[|out| - 1];
      Deliver(DeliverAll(w, out[..|out| - 1], now), last.target, last.event, last.data, now)
  }

  /** The first handler for the event, in definition order. */
  function HandlerFor(handlers: seq<Handler>, event: string): (r: Option<nat>)
    ensures r.Some? ==> r.value < |handlers| && handlers[r.value].eventName == event
    ensures r.Some? ==> forall j :: 0 <= j < r.value ==> handlers[j].eventName != event
    ensures r.None? ==> forall j :: 0 <= j < |handlers| ==> handlers[j].eventName != event
  {
    if |handlers| == 0 then None
    else if handlers[0].eventName == event then Some(0)
    else
      match HandlerFor(handlers[1..], event)
      case None => None
      case Some(k) => Some(k + 1)
  }

  /** What actor i's handler does with a message: the context after the
      body ran on the actor's state with the message's data. */
  function Handle(actors: seq<Actor>, i: nat, h: nat, msg: Message, bc: Calc): Ctx
    requires i < |actors| && h < |actors[i].handlers|
  {
    ExecHandler(actors[i].handlers[h].body, actors[i].state, HandlerEnv(msg.data, PeersOf(actors), bc))
  }

  /** Actor i's turn in a tick: with an empty mailbox nothing happens;
      otherwise the oldest message is taken out, and when the actor has a
      handler for its event the handler runs, the actor keeps the state it
      leaves, and the messages it sent are queued. A message without a
      handler is dropped. */
  function Turn(w: World, i: nat, now: int, bc: Calc): (r: World)
    requires Aligned(w) && i < |w.actors|
    ensures Aligned(r) && |r.actors| == |w.actors|
  {
    if |w.queues[i]| == 0 then w
    else
      var msg := w.queues[i][0];
      var popped := w.(queues := w.queues[i := w.queues[i][1..]]);
      match HandlerFor(w.actors[i].handlers, msg.event)
      case None => popped
      case Some(h) =>
        var c := Handle(w.actors, i, h, msg, bc);
        DeliverAll(popped.(actors := w.actors[i := w.actors[i].(state := c.state)]), c.outbox, now)
  }

  /** The turns of actors i, i+1, ... in spawn order. */
  function TickFrom(w: World, i: nat, now: int, bc: Calc): (r: World)
    requires Aligned(w) && i <= |w.actors|
    ensures Aligned(r) && |r.actors| == |w.actors|
    decreases |w.actors| - i
  {
    if i == |w.actors| then w else TickFrom(Turn(w, i, now, bc), i + 1, now, bc)
  }

  /** l3_runtime_init / l3_spawn_actor / l3_send_message / l3_tick. The actor
      and mailbox arrays are sequences; a mailbox is the sequence of its
      messages (its circular buffer is modelled by Mailbox). */
  class ActorRuntime {
    var actors: seq<Actor>
    var queues: seq<seq<Message>>
    var nextActorId: int
    var running: bool

    /** Actor k carries id k + 1, and the next id is one past the last. */
    ghost predicate Valid()
      reads this
    {
      |actors| == |queues| && nextActorId == |actors| + 1 &&
      forall k :: 0 <= k < |actors| ==> actors[k].id == k + 1
    }

    function Snapshot(): World
      reads this
    {
      World(actors, queues)
    }

    /** l3_runtime_init: no actors, ids from 1, not running. */
    constructor ()
      ensures Valid() && actors == [] && queues == [] && nextActorId == 1 && !running
    {
      actors, queues := [], [];
      nextActorId := 1;
      running := false;
    }

    /** l3_start_runtime. */
    method Start()
      modifies this
      ensures running && actors == old(actors) && queues == old(queues) && nextActorId == old(nextActorId)
    {
      running := true;
    }

    /** l3_stop_runtime. */
    method Stop()
      modifies this
      ensures !running && actors == old(actors) && queues == old(queues) && nextActorId == old(nextActorId)
    {
      running := false;
    }

    /** l3_spawn_actor: -1 for a NULL definition; otherwise the next id, and an
        actor holding a copy of the definition's state, set entry by entry,
        and of its handlers, with an empty mailbox. */
    method Spawn(def: Option<ActorDefinition>) returns (id: int)
      requires Valid()
      modifies this
      ensures Valid() && running == old(running)
      ensures def.None? ==> id == -1 && actors == old(actors) && queues == old(queues)
      ensures def.Some? ==> id == old(nextActorId)
      ensures def.Some? ==> actors == old(actors) + [Actor(id, def.value.name, def.value.role, PutAll([], def.value.initialState), def.value.handlers)]
      ensures def.Some? ==> queues == old(queues) + [[]]
    {
      if def.None? {
        return -1;
      }
      var d := def.value;
      id := nextActorId;
      nextActorId := nextActorId + 1;
      var state := new StateStore();
      var i := 0;
      while i < |d.initialState|
        invariant i <= |d.initialState|
        invariant state.entries == PutAll([], d.initialState[..i])
        modifies state
      {
        var e := d.initialState[i];
        var _ := state.Set(Some(e.key), e.value);
        PutAllSnoc([], d.initialState[..i], e);
        assert d.initialState[..i + 1] == d.initialState[..i] + [e];
        i := i + 1;
      }
      assert d.initialState[..i] == d.initialState;
      actors := actors + [Actor(id, d.name, d.role, state.entries, d.handlers)];
      queues := queues + [[]];
    }

    /** l3_send_message: false for a NULL event or an unknown id, with nothing
        queued; otherwise the message, with "{}" for NULL data, joins the
        tail of the actor's mailbox. */
    method Send(actorId: int, event: Option<string>, data: Option<string>, now: int) returns (ok: bool)
      requires Valid()
      modifies this
      ensures Valid() && actors == old(actors) && nextActorId == old(nextActorId) && running == old(running)
      ensures ok <==> event.Some? && IndexOfId(actors, actorId).Some?
      ensures ok ==> Snapshot() == Deliver(old(Snapshot()), actorId, event.value, Payload(data), now)
      ensures !ok ==> queues == old(queues)
    {
      if event.None? {
        return false;
      }
      var index := IdIndex(actorId);
      if index.None? {
        return false;
      }
      var k := index.value;
      queues := queues[k := queues[k] + [Message(event.value, Payload(data), now)]];
      ok := true;
    }

    /** The index scan of l3_send_message. */
    method IdIndex(actorId: int) returns (r: Option<nat>)
      ensures r == IndexOfId(actors, actorId)
    {
      var i := 0;
      while i < |actors|
        invariant i <= |actors|
        invariant forall j :: 0 <= j < i ==> actors[j].id != actorId
      {
        if actors[i].id == actorId {
          return Some(i);
        }
        i := i + 1;
      }
      return None;
    }

    /** l3_get_actor_by_name: -1 for a NULL name, otherwise the id of the
        first actor in spawn order with that name, or -1. */
    method GetActorByName(name: Option<string>) returns (id: int)
      ensures name.None? ==> id == -1
      ensures name.Some? ==> id == ActorIdByName(PeersOf(actors), name.value)
    {
      if name.None? {
        return -1;
      }
      var peers := PeersOf(actors);
      var i := 0;
      while i < |actors|
        invariant i <= |actors|
        invariant ActorIdByName(peers, name.value) == ActorIdByName(peers[i..], name.value)
      {
        assert peers[i..][1..] == peers[i + 1..];
        if actors[i].name == name {
          return actors[i].id;
        }
        i := i + 1;
      }
      return -1;
    }

    /** l3_tick: every actor in spawn order takes its turn. */
    method Tick(now: int, bc: Calc)
      requires Valid()
      modifies this
      ensures Valid() && nextActorId == old(nextActorId) && running == old(running)
      ensures Snapshot() == TickFrom(old(Snapshot()), 0, now, bc)
    {
      var i := 0;
      while i < |actors|
        invariant i <= |actors| && Valid()
        invariant nextActorId == old(nextActorId) && running == old(running)
        invariant TickFrom(Snapshot(), i, now, bc) == TickFrom(old(Snapshot()), 0, now, bc)
      {
        TakeTurn(i, now, bc);
        i := i + 1;
      }
    }

    /** Actor i's turn of l3_tick. */
    method TakeTurn(i: nat, now: int, bc: Calc)
      requires Valid() && i < |actors|
      modifies this
      ensures Valid() && nextActorId == old(nextActorId) && running == old(running)
      ensures Snapshot() == Turn(old(Snapshot()), i, now, bc)
    {
      if |queues[i]| == 0 {
        return;
      }
      var msg := queues[i][0];
      queues := queues[i := queues[i][1..]];
      var a := actors[i];
      var h := FindHandler(a.handlers, msg.event);
      if h.None? {
        return;
      }
      var ctx := new ExecutionContext(a.state);
      var env := HandlerEnv(msg.data, PeersOf(actors), bc);
      ExecuteHandler(a.handlers[h.value].body, ctx, env);
      assert ctx.Snapshot() == Handle(old(actors), i, h.value, msg, bc);
      actors := actors[i := a.(state := ctx.state)];
      DeliverOutbox(ctx.outbox, now);
    }

    /** The sending loop at the end of a turn: the handler's messages are
        queued in the order it sent them. */
    method DeliverOutbox(out: seq<Outgoing>, now: int)
      requires Valid()
      modifies this
      ensures Valid() && actors == old(actors) && nextActorId == old(nextActorId) && running == old(running)
      ensures Snapshot() == DeliverAll(old(Snapshot()), out, now)
    {
      var j := 0;
      while j < |out|
        invariant j <= |out| && Valid()
        invariant actors == old(actors) && nextActorId == old(nextActorId) && running == old(running)
        invariant Snapshot() == DeliverAll(old(Snapshot()), out[..j], now)
      {
        var _ := Send(out[j].target, Some(out[j].event), Some(out[j].data), now);
        assert out[..j + 1][..j] == out[..j];
        j := j + 1;
      }
      assert out[..j] == out;
    }
  }

  /** The handler scan of l3_tick. */
  method FindHandler(handlers: seq<Handler>, event: string) returns (r: Option<nat>)
    ensures r == HandlerFor(handlers, event)
  {
    var i := 0;
    while i < |handlers|
      invariant i <= |handlers|
      invariant forall j :: 0 <= j < i ==> handlers[j].eventName != event
    {
      if handlers[i].eventName == event {
        return Some(i);
      }
      i := i + 1;
    }
    return None;
  }

  // ---------------------------------------------------------------------------
  // What a tick guarantees
  // ---------------------------------------------------------------------------

  /** A parsed definition's state has no key twice, so the entry-by-entry
      copy l3_spawn_actor makes is the definition's state itself. */
  lemma SpawnCopiesParsedState(code: string)
    ensures var d := Parsed(Some(code)).value;
      PutAll([], d.initialState) == d.initialState
  {
    ParsedWellFormed(code);
    CopyIsIdentity(Parsed(Some(code)).value.initialState);
  }

  /** The number of messages waiting in all mailboxes. */
  function Total(queues: seq<seq<Message>>): nat
    decreases |queues|
  {
    if |queues| == 0 then 0 else Total(queues[..|queues| - 1]) + |queues[|queues| - 1]|
  }

  /** Replacing one mailbox changes the total by the difference in its length. */
  lemma {:induction false} TotalUpdate(queues: seq<seq<Message>>, k: nat, q: seq<Message>)
    requires k < |queues|
    ensures Total(queues[k := q]) + |queues[k]| == Total(queues) + |q|
    decreases |queues|
  {
    var n := |queues| - 1;
    var r := queues[k := q];
    assert r[..n] == if k < n then queues[..n][k := q] else queues[..n];
    if k < n {
      TotalUpdate(queues[..n], k, q);
    }
  }

  /** An id some actor carries is found by the scan. */
  lemma KnownIsFound(actors: seq<Actor>, id: int)
    requires Known(PeersOf(actors), id)
    ensures IndexOfId(actors, id).Some?
  {
    var j :| 0 <= j < |PeersOf(actors)| && PeersOf(actors)[j].id == id;
    assert actors[j].id == id;
  }

  /** Messages to actors that exist all arrive: delivering them adds exactly
      their number to the mailboxes. */
  lemma {:induction false} DeliverAllCount(w: World, out: seq<Outgoing>, now: int)
    requires Aligned(w)
    requires forall k :: 0 <= k < |out| ==> Known(PeersOf(w.actors), out[k].target)
    ensures Total(DeliverAll(w, out, now).queues) == Total(w.queues) + |out|
    decreases |out|
  {
    if |out| > 0 {
      var front := out[..|out| - 1];
      var last := out[|out| - 1];
      DeliverAllCount(w, front, now);
      var v := DeliverAll(w, front, now);
      KnownIsFound(v.actors, last.target);
      var k := IndexOfId(v.actors, last.target).value;
      TotalUpdate(v.queues, k, v.queues[k] + [Message(last.event, last.data, now)]);
    }
  }

  /** Every actor state without a duplicate key. */
  ghost predicate StatesUnique(w: World) {
    forall k :: 0 <= k < |w.actors| ==> UniqueKeys(w.actors[k].state)
  }

  /** A turn takes at most the one message it handles out of the mailboxes
      and loses none of the messages the handler sends; it changes no actor's
      id, name, role or handlers, and keeps every state free of duplicate keys. */
  lemma TurnKeeps(w: World, i: nat, now: int, bc: Calc)
    requires Aligned(w) && i < |w.actors| && StatesUnique(w)
    ensures var r := Turn(w, i, now, bc);
      StatesUnique(r) &&
      PeersOf(r.actors) == PeersOf(w.actors) &&
      (forall k :: 0 <= k < |w.actors| ==> r.actors[k] == w.actors[k].(state := r.actors[k].state)) &&
      (|w.queues[i]| == 0 ==> r == w) &&
      (|w.queues[i]| > 0 ==> Total(r.queues) + 1 >= Total(w.queues))
  {
    if |w.queues[i]| > 0 {
      var msg := w.queues[i][0];
      var popped := w.(queues := w.queues[i := w.queues[i][1..]]);
      TotalUpdate(w.queues, i, w.queues[i][1..]);
      match HandlerFor(w.actors[i].handlers, msg.event)
      case None =>
      case Some(h) =>
        var env := HandlerEnv(msg.data, PeersOf(w.actors), bc);
        ExecHandlerSound(w.actors[i].handlers[h].body, w.actors[i].state, env);
        var c := Handle(w.actors, i, h, msg, bc);
        var w2 := popped.(actors := w.actors[i := w.actors[i].(state := c.state)]);
        assert PeersOf(w2.actors) == PeersOf(w.actors);
        DeliverAllCount(w2, c.outbox, now);
    }
  }

  /** A handler that sends n messages to existing actors adds n messages to
      the mailboxes while its own message leaves: nothing is lost in a turn. */
  lemma TurnConservesMessages(w: World, i: nat, now: int, bc: Calc, h: nat)
    requires Aligned(w) && i < |w.actors| && StatesUnique(w)
    requires |w.queues[i]| > 0 && HandlerFor(w.actors[i].handlers, w.queues[i][0].event) == Some(h)
    ensures Total(Turn(w, i, now, bc).queues) + 1 ==
      Total(w.queues) + |Handle(w.actors, i, h, w.queues[i][0], bc).outbox|
  {
    var msg := w.queues[i][0];
    var popped := w.(queues := w.queues[i := w.queues[i][1..]]);
    TotalUpdate(w.queues, i, w.queues[i][1..]);
    var env := HandlerEnv(msg.data, PeersOf(w.actors), bc);
    ExecHandlerSound(w.actors[i].handlers[h].body, w.actors[i].state, env);
    var c := Handle(w.actors, i, h, msg, bc);
    var w2 := popped.(actors := w.actors[i := w.actors[i].(state := c.state)]);
    assert PeersOf(w2.actors) == PeersOf(w.actors);
    DeliverAllCount(w2, c.outbox, now);
  }

  /** A whole tick keeps every actor's id, name, role and handlers and keeps
      every state free of duplicate keys. */
  lemma {:induction false} TickKeeps(w: World, i: nat, now: int, bc: Calc)
    requires Aligned(w) && i <= |w.actors| && StatesUnique(w)
    ensures var r := TickFrom(w, i, now, bc);
      StatesUnique(r) && PeersOf(r.actors) == PeersOf(w.actors) &&
      forall k :: 0 <= k < |w.actors| ==> r.actors[k] == w.actors[k].(state := r.actors[k].state)
    decreases |w.actors| - i
  {
    if i < |w.actors| {
      TurnKeeps(w, i, now, bc);
      TickKeeps(Turn(w, i, now, bc), i + 1, now, bc);
    }
  }

  /** A message one actor's handler sends during a tick to an actor later in
      spawn order, with an empty mailbox, is handled in the same tick: with
      two actors, the first handling m and sending ev to the second, whose
      handler for ev sends nothing, the tick ends with both mailboxes empty
      and the second actor in the state its handler for ev leaves. */
  lemma LaterActorHandlesSameTick(w: World, m: Message, ha: nat, ev: string, hb: nat, now: int, bc: Calc)
    requires Aligned(w) && |w.actors| == 2 && w.actors[0].id != w.actors[1].id
    requires w.queues[0] == [m] && w.queues[1] == []
    requires HandlerFor(w.actors[0].handlers, m.event) == Some(ha)
    requires Handle(w.actors, 0, ha, m, bc).outbox == [Outgoing(w.actors[1].id, ev, m.data)]
    requires HandlerFor(w.actors[1].handlers, ev) == Some(hb)
    requires ExecHandler(w.actors[1].handlers[hb].body, w.actors[1].state, HandlerEnv(m.data, PeersOf(w.actors), bc)).outbox == []
    ensures var r := TickFrom(w, 0, now, bc);
      r.queues[0] == [] && r.queues[1] == [] &&
      r.actors[1].state ==
        ExecHandler(w.actors[1].handlers[hb].body, w.actors[1].state, HandlerEnv(m.data, PeersOf(w.actors), bc)).state
  {
    var w1 := Turn(w, 0, now, bc);
    FirstTurnSends(w, m, ha, ev, now, bc);
    assert PeersOf(w1.actors) == PeersOf(w.actors);
    SecondTurnHandles(w1, ev, m.data, hb, now, bc);
  }

  /** The first actor's turn: its message leaves and the one it sends waits
      in the second actor's mailbox. */
  lemma FirstTurnSends(w: World, m: Message, ha: nat, ev: string, now: int, bc: Calc)
    requires Aligned(w) && |w.actors| == 2 && w.actors[0].id != w.actors[1].id
    requires w.queues[0] == [m] && w.queues[1] == []
    requires HandlerFor(w.actors[0].handlers, m.event) == Some(ha)
    requires Handle(w.actors, 0, ha, m, bc).outbox == [Outgoing(w.actors[1].id, ev, m.data)]
    ensures var r := Turn(w, 0, now, bc);
      r.actors == w.actors[0 := w.actors[0].(state := Handle(w.actors, 0, ha, m, bc).state)] &&
      r.queues[0] == [] && r.queues[1] == [Message(ev, m.data, now)]
  {
    var c := Handle(w.actors, 0, ha, m, bc);
    assert w.queues[0][0] == m && w.queues[0][1..] == [];
    var popped := w.(queues := w.queues[0 := []]);
    var w2 := popped.(actors := w.actors[0 := w.actors[0].(state := c.state)]);
    assert Turn(w, 0, now, bc) == DeliverAll(w2, c.outbox, now);
    assert IndexOfId(w2.actors, w.actors[1].id) == Some(1);
    assert c.outbox[..0] == [];
    assert DeliverAll(w2, c.outbox, now) == Deliver(w2, w.actors[1].id, ev, m.data, now);
  }

  /** The second actor's turn handles the message waiting for it. */
  lemma SecondTurnHandles(w: World, ev: string, data: string, hb: nat, now: int, bc: Calc)
    requires Aligned(w) && |w.actors| == 2 && w.queues[0] == [] && w.queues[1] == [Message(ev, data, now)]
    requires HandlerFor(w.actors[1].handlers, ev) == Some(hb)
    requires ExecHandler(w.actors[1].handlers[hb].body, w.actors[1].state, HandlerEnv(data, PeersOf(w.actors), bc)).outbox == []
    ensures var r := TickFrom(w, 1, now, bc);
      r.queues[0] == [] && r.queues[1] == [] &&
      r.actors[1].state == ExecHandler(w.actors[1].handlers[hb].body, w.actors[1].state, HandlerEnv(data, PeersOf(w.actors), bc)).state
  {
    var r := Turn(w, 1, now, bc);
    assert TickFrom(w, 1, now, bc) == TickFrom(r, 2, now, bc) == r;
  }
}
