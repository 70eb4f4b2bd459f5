// The D layer: irreversible gates built from the R layer's bit operations on a
// runtime whose last bits are ancillas, a resolve-once MAYBE flag, and actors
// holding a message queue that grows by doubling and is drained from the head.

module DLayer {
  import opened CStrings
  import opened RLayer

  /** A bit as read_qubit sees it: clear past the last bit. */
  function Bit(bits: seq<bool>, i: nat): bool {
    i < |bits| && bits[i]
  }

  class DRuntime {
    const r: Runtime
    const ancillaStart: nat
    const ancillaCount: nat

    /** The bits are the caller's, then the ancillas. */
    predicate Shaped() {
      r.qubits.Length == ancillaStart + ancillaCount
    }

    /** init: an R runtime of `qubitCount + ancillaCount` cleared bits whose
        ancillas start after the caller's bits. */
    constructor (qubitCount: nat, ancillaCount: nat, instanceId: nat)
      ensures Shaped() && r.Valid() && fresh(r) && fresh(r.qubits)
      ensures ancillaStart == qubitCount && this.ancillaCount == ancillaCount && r.instanceId == instanceId
      ensures r.qubits[..] == seq(qubitCount + ancillaCount, _ => false)
      ensures r.cells == [] && r.trail == [] && r.executionCount == 0 && r.checkpoints == []
    {
      r := new Runtime(qubitCount + ancillaCount, instanceId);
      ancillaStart := qubitCount;
      this.ancillaCount := ancillaCount;
    }

    /** AND: the target is cleared, then CCNOT onto it. It ends holding a∧b
        when it is neither operand, and clear when it is one of them; the
        result is false when an index is out of range, after the clearing. */
    method And(a: nat, b: nat, res: nat) returns (ok: bool)
      modifies r.qubits
      ensures ok <==> a < r.qubits.Length && b < r.qubits.Length && res < r.qubits.Length
      ensures res < r.qubits.Length ==>
        r.qubits[..] == old(r.qubits[..])[res := res != a && res != b && Bit(old(r.qubits[..]), a) && Bit(old(r.qubits[..]), b)]
      ensures res >= r.qubits.Length ==> r.qubits[..] == old(r.qubits[..])
    {
      if r.ReadQubit(res) == 1 {
        var cleared := r.ExecuteNOT(res);
      }
      ok := r.ExecuteCCNOT(a, b, res);
    }

    /** OR by De Morgan: each ancilla gets the negated copy of an operand, the
        target gets their AND, negated. False with no change when there are
        fewer than two ancillas. For a target among the caller's bits it ends
        holding a∨b and the ancillas ¬a and ¬b (the second copy is read after
        the first is written, so it sees the first ancilla if `b` names it);
        no other bit changes. */
    method Or(a: nat, b: nat, res: nat) returns (ok: bool)
      requires Shaped()
      modifies r.qubits
      ensures ok <==> ancillaCount >= 2
      ensures !ok ==> r.qubits[..] == old(r.qubits[..])
      ensures ok && res < ancillaStart ==>
        var A := Bit(old(r.qubits[..]), a);
        var B := if b == ancillaStart then !A else Bit(old(r.qubits[..]), b);
        r.qubits[..] == old(r.qubits[..])[ancillaStart := !A][ancillaStart + 1 := !B][res := A || B]
      ensures forall i :: 0 <= i < r.qubits.Length && i != ancillaStart && i != ancillaStart + 1 && i != res ==>
        r.qubits[i] == old(r.qubits[i])
    {
      if ancillaCount < 2 {
        return false;
      }
      var x := ancillaStart;
      var y := ancillaStart + 1;
      var done := r.WriteQubit(x, r.ReadQubit(a));
      done := r.ExecuteNOT(x);
      done := r.WriteQubit(y, r.ReadQubit(b));
      done := r.ExecuteNOT(y);
      done := And(x, y, res);
      done := r.ExecuteNOT(res);
      return true;
    }

    /** NAND: AND, then the target negated; always true. */
    method Nand(a: nat, b: nat, res: nat) returns (ok: bool)
      modifies r.qubits
      ensures ok
      ensures res < r.qubits.Length ==>
        r.qubits[..] == old(r.qubits[..])[res := !(res != a && res != b && Bit(old(r.qubits[..]), a) && Bit(old(r.qubits[..]), b))]
      ensures res >= r.qubits.Length ==> r.qubits[..] == old(r.qubits[..])
    {
      var done := And(a, b, res);
      done := r.ExecuteNOT(res);
      return true;
    }

    /** NOR: OR, then the target negated; always true, so with fewer than two
        ancillas it only flips the target. */
    method Nor(a: nat, b: nat, res: nat) returns (ok: bool)
      requires Shaped()
      modifies r.qubits
      ensures ok
      ensures ancillaCount < 2 && res < r.qubits.Length ==>
        r.qubits[..] == old(r.qubits[..])[res := !old(r.qubits[res])]
      ensures ancillaCount < 2 && res >= r.qubits.Length ==> r.qubits[..] == old(r.qubits[..])
      ensures ancillaCount >= 2 && res < ancillaStart ==>
        var A := Bit(old(r.qubits[..]), a);
        var B := if b == ancillaStart then !A else Bit(old(r.qubits[..]), b);
        r.qubits[..] == old(r.qubits[..])[ancillaStart := !A][ancillaStart + 1 := !B][res := !(A || B)]
    {
      var done := Or(a, b, res);
      done := r.ExecuteNOT(res);
      return true;
    }

    /** XOR: the target is cleared, then CNOT from a and CNOT from b onto it;
        always true. A control that is the target contributes nothing, and
        when b is the target the second CNOT clears it. */
    method Xor(a: nat, b: nat, res: nat) returns (ok: bool)
      modifies r.qubits
      ensures ok
      ensures res < r.qubits.Length ==>
        r.qubits[..] == old(r.qubits[..])[res := b != res && ((a != res && Bit(old(r.qubits[..]), a)) != Bit(old(r.qubits[..]), b))]
      ensures res >= r.qubits.Length ==> r.qubits[..] == old(r.qubits[..])
    {
      if r.ReadQubit(res) == 1 {
        var cleared := r.ExecuteNOT(res);
      }
      var done := r.ExecuteCNOT(a, res);
      done := r.ExecuteCNOT(b, res);
      return true;
    }
  }

  /** With the target among the caller's bits and distinct operands, the five
      gates compute the boolean operations. */
  lemma Truth(A: bool, B: bool)
    ensures (A || B) == !(!A && !B)
    ensures !(A || B) == (!A && !B)
  {
  }

  // ---------------------------------------------------------------------------
  // MAYBE
  // ---------------------------------------------------------------------------

  /** A value that can be resolved once. The superposition data it carries
      is the caller's pointer and is not part of this model. */
  class Maybe {
    var resolved: bool
    var value: bool

    /** create_maybe: unresolved. */
    constructor ()
      ensures !resolved && !value
    {
      resolved := false;
      value := false;
    }
  }

  /** resolve_maybe: false for a missing or already resolved value, which is
      left as it was; otherwise the value is set and resolved. */
  method ResolveMaybe(m: Maybe?, v: bool) returns (ok: bool)
    modifies m
    ensures ok <==> m != null && !old(m.resolved)
    ensures ok ==> m.resolved && m.value == v
    ensures !ok && m != null ==> m.resolved == old(m.resolved) && m.value == old(m.value)
  {
    if m == null || m.resolved {
      return false;
    }
    m.resolved := true;
    m.value := v;
    return true;
  }

  /** is_resolved: false for a missing value. */
  predicate IsResolved(m: Maybe?)
    reads m
  {
    m != null && m.resolved
  }

  // ---------------------------------------------------------------------------
  // Actors
  // ---------------------------------------------------------------------------

  /** A queued message: the copied name, a copy of the payload when one of
      nonzero size was given, and the size as given. */
  datatype Message = Message(name: string, payload: Option<seq<bv8>>, size: nat)

  /** The process-wide actor number counter. */
  class ActorIds {
    var next: nat

    constructor ()
      ensures next == 0
    {
      next := 0;
    }
  }

  const InitialQueueCapacity: nat := 16

  class Actor {
    const id: nat
    const name: Option<string>
    const role: Option<string>
    var queue: array<Message>
    var queueSize: nat
    /** The message names of the handlers; nothing in the layer adds one. */
    var handlers: seq<string>

    ghost predicate Valid()
      reads this
    {
      queueSize <= queue.Length && queue.Length >= 1
    }

    /** The queued messages, head first. */
    ghost function Contents(): seq<Message>
      reads this, queue
      requires Valid()
    {
      queue[..queueSize]
    }

    /** create_actor: the next number from the counter, an empty queue of 16
        slots and no handlers. */
    constructor (ids: ActorIds, name: Option<string>, role: Option<string>)
      modifies ids
      ensures Valid() && fresh(queue)
      ensures id == old(ids.next) && ids.next == old(ids.next) + 1
      ensures this.name == name && this.role == role
      ensures Contents() == [] && queue.Length == InitialQueueCapacity && handlers == []
    {
      id := ids.next;
      ids.next := ids.next + 1;
      this.name := name;
      this.role := role;
      queue := new Message[InitialQueueCapacity](_ => Message("", None, 0));
      queueSize := 0;
      handlers := [];
    }
  }

  /** The message a send stores. */
  function Made(name: string, payload: Option<seq<bv8>>, size: nat): (m: Message)
    requires payload.Some? && size > 0 ==> |payload.value| >= size
    ensures m.name == name && m.size == size
    ensures m.payload.Some? <==> payload.Some? && size > 0
    ensures m.payload.Some? ==> m.payload.value == payload.value[..size]
  {
    Message(name, if payload.Some? && size > 0 then Some(payload.value[..size]) else None, size)
  }

  /** send_message: false for a missing actor or name; otherwise the message
      goes at the tail, the queue's capacity doubling first when it is full. */
  method SendMessage(actor: Actor?, name: Option<string>, payload: Option<seq<bv8>>, size: nat) returns (ok: bool)
    requires actor != null ==> actor.Valid()
    requires payload.Some? && size > 0 ==> |payload.value| >= size
    modifies actor, if actor != null then {actor.queue} else {}
    ensures actor != null ==> actor.Valid()
    ensures ok <==> actor != null && name.Some?
    ensures ok ==> actor.Contents() == old(actor.Contents()) + [Made(name.value, payload, size)]
    ensures ok ==>
      actor.queue.Length == if old(actor.queueSize) >= old(actor.queue.Length) then 2 * old(actor.queue.Length) else old(actor.queue.Length)
    ensures !ok && actor != null ==> actor.queue == old(actor.queue) && actor.queueSize == old(actor.queueSize)
  {
    if actor == null || name.None? {
      return false;
    }
    var msg := Made(name.value, payload, size);
    if actor.queueSize >= actor.queue.Length {
      var bigger := new Message[2 * actor.queue.Length](_ => Message("", None, 0));
      var i := 0;
      while i < actor.queueSize
        modifies bigger
        invariant 0 <= i <= actor.queueSize
        invariant bigger[..i] == actor.queue[..i]
      {
        bigger[i] := actor.queue[i];
        i := i + 1;
      }
      actor.queue := bigger;
    }
    actor.queue[actor.queueSize] := msg;
    actor.queueSize := actor.queueSize + 1;
    return true;
  }

  /** The index of the first handler registered for `name`. */
  function FirstHandler(handlers: seq<string>, name: string): (k: Option<nat>)
    ensures k.Some? ==> k.value < |handlers| && handlers[k.value] == name
    ensures k.Some? ==> forall j :: 0 <= j < k.value ==> handlers[j] != name
    ensures k.None? ==> forall j :: 0 <= j < |handlers| ==> handlers[j] != name
  {
    if |handlers| == 0 then None
    else if handlers[0] == name then Some(0)
    else match FirstHandler(handlers[1..], name)
      case None => None
      case Some(k) => Some(k + 1)
  }

  /** process_messages: false for a missing actor or an empty queue;
      otherwise the first handler registered for the head message's name is
      the one invoked (its effect is the handler's own), the head is removed
      and the rest move forward in order. */
  method ProcessMessages(actor: Actor?) returns (ok: bool, invoked: Option<nat>)
    requires actor != null ==> actor.Valid()
    modifies actor, if actor != null then {actor.queue} else {}
    ensures actor != null ==> actor.Valid() && actor.queue == old(actor.queue)
    ensures ok <==> actor != null && old(actor.queueSize) > 0
    ensures ok ==> invoked == FirstHandler(actor.handlers, old(actor.Contents())[0].name)
    ensures ok ==> actor.Contents() == old(actor.Contents())[1..]
    ensures !ok ==> invoked.None?
    ensures !ok && actor != null ==> actor.Contents() == old(actor.Contents())
  {
    if actor == null || actor.queueSize == 0 {
      return false, None;
    }
    var msg := actor.queue[0];
    invoked := None;
    var h := 0;
    while h < |actor.handlers|
      invariant 0 <= h <= |actor.handlers|
      invariant forall j :: 0 <= j < h ==> actor.handlers[j] != msg.name
    {
      if actor.handlers[h] == msg.name {
        invoked := Some(h);
        break;
      }
      h := h + 1;
    }
    FirstHandlerIs(actor.handlers, msg.name, invoked);
    var i := 0;
    while i < actor.queueSize - 1
      modifies actor.queue
      invariant 0 <= i <= actor.queueSize - 1
      invariant actor.queue[..i] == old(actor.queue[1..i + 1])
      invariant actor.queue[i + 1..actor.queueSize] == old(actor.queue[i + 1..actor.queueSize])
    {
      actor.queue[i] := actor.queue[i + 1];
      i := i + 1;
    }
    actor.queueSize := actor.queueSize - 1;
    return true, invoked;
  }

  /** The first index found by a scan is the one FirstHandler names. */
  lemma FirstHandlerIs(handlers: seq<string>, name: string, k: Option<nat>)
    requires k.Some? ==> k.value < |handlers| && handlers[k.value] == name
    requires k.Some? ==> forall j :: 0 <= j < k.value ==> handlers[j] != name
    requires k.None? ==> forall j :: 0 <= j < |handlers| ==> handlers[j] != name
    ensures FirstHandler(handlers, name) == k
  {
  }
}
