// The per-actor message queue of the L3 runtime (l3_queue_*): a circular
// buffer of messages that doubles its capacity when full.

module L3Queue {
  import opened CStrings

  /** An L3 message; `timestamp` is the time(NULL) reading taken when it was queued. */
  datatype Message = Message(event: string, data: string, timestamp: int)

  /** The data stored for a message: a NULL payload becomes "{}". */
  function Payload(data: Option<string>): string {
    if data.None? then "{}" else data.value
  }

  /** The slot that holds the k-th queued message. */
  function Slot(head: nat, k: nat, capacity: nat): nat {
    if head + k < capacity then head + k else head + k - capacity
  }

  /** `x % c` for `x` below twice `c`: the wrap-around the queue indices use. */
  lemma ModSlot(x: nat, c: nat)
    requires 0 < c && x < 2 * c
    ensures x % c == if x < c then x else x - c
  {
    if x < c {
      assert x == c * 0 + x;
    } else {
      assert x == c * 1 + (x - c);
    }
  }

  class Mailbox {
    var messages: array<Message>
    var head: nat
    var tail: nat
    var count: nat
    /** The queued messages, oldest first. */
    ghost var contents: seq<Message>

    ghost predicate Valid()
      reads this, messages
    {
      0 < messages.Length && head < messages.Length && count <= messages.Length &&
      tail == Slot(head, count, messages.Length) &&
      |contents| == count &&
      forall k :: 0 <= k < count ==> contents[k] == messages[Slot(head, k, messages.Length)]
    }

    /** l3_queue_create: an empty queue of 64 slots. */
    constructor ()
      ensures Valid() && fresh(messages) && contents == [] && messages.Length == 64
    {
      messages := new Message[64](_ => Message("", "", 0));
      head, tail, count := 0, 0, 0;
      contents := [];
    }

    /** l3_queue_push: appends a message stamped `now`; a full queue is first
        copied into twice the space with its messages in order from slot 0. */
    method Push(event: string, data: Option<string>, now: int) returns (ok: bool)
      requires Valid()
      modifies this, messages
      ensures Valid() && ok
      ensures contents == old(contents) + [Message(event, Payload(data), now)]
      ensures old(count) < old(messages.Length) ==> messages == old(messages)
      ensures old(count) == old(messages.Length) ==> messages.Length == 2 * old(messages.Length) && head == 0
    {
      if count >= messages.Length {
        Grow();
      }
      ok := true;
      var msg := Message(event, Payload(data), now);
      messages[tail] := msg;
      ModSlot(tail + 1, messages.Length);
      tail := (tail + 1) % messages.Length;
      count := count + 1;
      contents := contents + [msg];
    }

    /** The expansion step of l3_queue_push. */
    method Grow()
      requires Valid() && count == messages.Length
      modifies this
      ensures Valid() && fresh(messages) && contents == old(contents)
      ensures messages.Length == 2 * old(messages.Length) && head == 0 && tail == count && count == old(count)
    {
      var capacity := messages.Length;
      var grown := new Message[2 * capacity](_ => Message("", "", 0));
      var i := 0;
      while i < count
        invariant i <= count && Valid()
        invariant forall k :: 0 <= k < i ==> grown[k] == contents[k]
        modifies grown
      {
        ModSlot(head + i, capacity);
        grown[i] := messages[(head + i) % capacity];
        i := i + 1;
      }
      messages := grown;
      head := 0;
      tail := count;
    }

    /** l3_queue_pop: NULL on an empty queue, otherwise the oldest message. */
    method Pop() returns (m: Option<Message>)
      requires Valid()
      modifies this
      ensures Valid() && messages == old(messages)
      ensures old(contents) == [] ==> m.None? && contents == []
      ensures old(contents) != [] ==> m == Some(old(contents)[0]) && contents == old(contents)[1..]
    {
      if count == 0 {
        return None;
      }
      m := Some(messages[head]);
      ModSlot(head + 1, messages.Length);
      head := (head + 1) % messages.Length;
      count := count - 1;
      contents := contents[1..];
    }
  }

  /** Messages leave a queue in the order they were pushed, whatever happened
      to its capacity in between. */
  method FifoOrder(a: Message, b: Message) returns (first: Option<Message>, second: Option<Message>)
    ensures first == Some(Message(a.event, a.data, a.timestamp))
    ensures second == Some(Message(b.event, b.data, b.timestamp))
  {
    var q := new Mailbox();
    var _ := q.Push(a.event, Some(a.data), a.timestamp);
    var _ := q.Push(b.event, Some(b.data), b.timestamp);
    first := q.Pop();
    second := q.Pop();
  }
}
