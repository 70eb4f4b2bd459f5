// The L3 actor state: a list of key/value string pairs (l3_state_*), also used
// for a handler's local variables (l3_set_local / l3_get_local).

module L3Store {
  import opened CStrings

  datatype Entry = Entry(key: string, value: string)

  /** The entries in slot order. */
  type Store = seq<Entry>

  /** The first slot at or after `from` holding `key` (the strcmp scan). */
  function KeyIndexFrom(s: Store, key: string, from: nat): (r: Option<nat>)
    decreases |s| - from
    ensures r.Some? ==> from <= r.value < |s| && s[r.value].key == key
    ensures r.Some? ==> forall j :: from <= j < r.value ==> s[j].key != key
    ensures r.None? ==> forall j :: from <= j < |s| ==> s[j].key != key
  {
    if from >= |s| then None
    else if s[from].key == key then Some(from)
    else KeyIndexFrom(s, key, from + 1)
  }

  function KeyIndex(s: Store, key: string): (r: Option<nat>)
    ensures r.Some? ==> r.value < |s| && s[r.value].key == key
    ensures r.Some? ==> forall j :: 0 <= j < r.value ==> s[j].key != key
    ensures r.None? ==> forall j :: 0 <= j < |s| ==> s[j].key != key
  {
    KeyIndexFrom(s, key, 0)
  }

  /** l3_state_get: the value in the first slot holding the key, if any. */
  function Lookup(s: Store, key: string): (r: Option<string>)
    ensures r.Some? <==> exists j :: 0 <= j < |s| && s[j].key == key
  {
    match KeyIndex(s, key)
    case None => None
    case Some(i) => Some(s[i].value)
  }

  /** l3_state_set with a non-NULL key: overwrites the value in the slot that
      holds the key, otherwise appends a new slot. */
  function Put(s: Store, key: string, value: string): (r: Store)
    ensures |r| == |s| + (if KeyIndex(s, key).Some? then 0 else 1)
    ensures forall j :: 0 <= j < |s| ==> r[j].key == s[j].key
  {
    match KeyIndex(s, key)
    case Some(i) => s[i := Entry(key, value)]
    case None => s + [Entry(key, value)]
  }

  /** No key occupies two slots. */
  ghost predicate UniqueKeys(s: Store) {
    forall i, j :: 0 <= i < j < |s| ==> s[i].key != s[j].key
  }

  /** After storing a value under a key, reading the key gives that value. */
  lemma LookupPutSame(s: Store, key: string, value: string)
    ensures Lookup(Put(s, key, value), key) == Some(value)
  {
    var r := Put(s, key, value);
    match KeyIndex(s, key)
    case Some(i) =>
      assert forall j :: 0 <= j < i ==> r[j].key != key;
      assert KeyIndex(r, key) == Some(i);
    case None =>
      KeyIndexSkips(r, key, 0, |s|);
  }

  /** Storing under one key leaves every other key's value alone. */
  lemma LookupPutOther(s: Store, key: string, value: string, other: string)
    requires other != key
    ensures Lookup(Put(s, key, value), other) == Lookup(s, other)
  {
    var r := Put(s, key, value);
    assert forall j :: 0 <= j < |r| && r[j].key == other ==> j < |s| && r[j] == s[j];
    match KeyIndex(s, other)
    case Some(i) =>
      assert KeyIndex(r, other) == Some(i);
    case None =>
      assert KeyIndex(r, other) == None;
  }

  /** Storing never creates a second slot for a key. */
  lemma PutKeepsUnique(s: Store, key: string, value: string)
    requires UniqueKeys(s)
    ensures UniqueKeys(Put(s, key, value))
  {
  }

  /** The store a sequence of l3_state_set calls builds, starting from `s`. */
  function PutAll(s: Store, entries: Store): Store
    decreases |entries|
  {
    if |entries| == 0 then s
    else PutAll(Put(s, entries[0].key, entries[0].value), entries[1..])
  }

  /** Storing one more entry after a sequence of stores. */
  lemma {:induction false} PutAllSnoc(s: Store, entries: Store, e: Entry)
    ensures PutAll(s, entries + [e]) == Put(PutAll(s, entries), e.key, e.value)
    decreases |entries|
  {
    if |entries| > 0 {
      assert (entries + [e])[1..] == entries[1..] + [e];
      PutAllSnoc(Put(s, entries[0].key, entries[0].value), entries[1..], e);
    }
  }

  /** Copying a store with unique keys entry by entry into an empty store
      reproduces it, slot for slot (the copy l3_spawn_actor makes). */
  lemma {:induction false} CopyIsIdentity(entries: Store)
    requires UniqueKeys(entries)
    ensures PutAll([], entries) == entries
  {
    CopyPrefix(entries, 0);
  }

  lemma {:induction false} CopyPrefix(entries: Store, k: nat)
    requires UniqueKeys(entries) && k <= |entries|
    ensures PutAll(entries[..k], entries[k..]) == entries
    decreases |entries| - k
  {
    if k < |entries| {
      var e := entries[k];
      assert KeyIndex(entries[..k], e.key) == None by {
        forall j | 0 <= j < k ensures entries[..k][j].key != e.key {
          assert entries[j].key != entries[k].key;
        }
      }
      assert entries[..k] + [e] == entries[..k + 1];
      assert entries[k..][1..] == entries[k + 1..];
      CopyPrefix(entries, k + 1);
    } else {
      assert entries[..k] == entries;
    }
  }

  /** The state record of l3_state_create / l3_state_set / l3_state_get, its
      parallel key and value arrays held as one list of slots. */
  class StateStore {
    var entries: Store

    /** l3_state_create: no slots. */
    constructor ()
      ensures entries == []
    {
      entries := [];
    }

    /** l3_state_set: false for a NULL key; otherwise the scan for the key,
        then an overwrite in place or an append. */
    method Set(key: Option<string>, value: string) returns (ok: bool)
      modifies this
      ensures ok <==> key.Some?
      ensures key.None? ==> entries == old(entries)
      ensures key.Some? ==> entries == Put(old(entries), key.value, value)
    {
      if key.None? {
        return false;
      }
      var k := key.value;
      var i := 0;
      while i < |entries|
        invariant i <= |entries| && entries == old(entries)
        invariant forall j :: 0 <= j < i ==> entries[j].key != k
      {
        if entries[i].key == k {
          assert KeyIndexFrom(entries, k, 0) == Some(i) by {
            KeyIndexSkips(entries, k, 0, i);
          }
          entries := entries[i := Entry(k, value)];
          return true;
        }
        i := i + 1;
      }
      entries := entries + [Entry(k, value)];
      ok := true;
    }

    /** l3_state_get: NULL for a NULL or absent key, else the stored value. */
    method Get(key: Option<string>) returns (r: Option<string>)
      ensures key.None? ==> r.None?
      ensures key.Some? ==> r == Lookup(entries, key.value)
    {
      if key.None? {
        return None;
      }
      var i := 0;
      while i < |entries|
        invariant i <= |entries|
        invariant forall j :: 0 <= j < i ==> entries[j].key != key.value
      {
        if entries[i].key == key.value {
          KeyIndexSkips(entries, key.value, 0, i);
          return Some(entries[i].value);
        }
        i := i + 1;
      }
      r := None;
    }
  }

  /** A scan that passes slots without the key finds the same slot. */
  lemma {:induction false} KeyIndexSkips(s: Store, key: string, from: nat, upTo: nat)
    requires from <= upTo <= |s|
    requires forall j :: from <= j < upTo ==> s[j].key != key
    ensures KeyIndexFrom(s, key, from) == KeyIndexFrom(s, key, upTo)
    decreases upTo - from
  {
    if from < upTo {
      KeyIndexSkips(s, key, from + 1, upTo);
    }
  }
}
