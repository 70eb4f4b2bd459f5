// The minimal three-layer core: an R runtime of classical bits whose gates
// record themselves in a fixed history, checkpoint and restore by popping that
// history, D-layer boolean operations built from the gates, and the S-layer
// pair of a root prototype and a root actor.

module MoopCore {
  import opened BitGates

  /** Entries in the history buffer of an R runtime. */
  const HistoryCapacity: nat := 4096

  /** Entries in the actor and prototype tables of an S runtime. */
  const TableCapacity: nat := 256

  /** A history entry that a gate call could have stored. */
  predicate Recorded(g: GateCell, n: nat) {
    Normal(g) && InRange(g, n)
  }

  // ---------------------------------------------------------------------------
  // R layer
  // ---------------------------------------------------------------------------

  class RRuntime {
    /** The bits; C keeps them as bytes that are always 0 or 1. */
    const qubits: array<bool>
    /** The history buffer; the live part is history[..historyCount]. */
    const history: array<GateCell>
    var historyCount: nat
    const instanceId: nat

    ghost predicate Valid()
      reads this, history
    {
      history.Length == HistoryCapacity && historyCount <= HistoryCapacity &&
      forall i :: 0 <= i < historyCount ==> Recorded(history[i], qubits.Length)
    }

    ghost function Bits(): seq<bool>
      reads qubits
    {
      qubits[..]
    }

    ghost function History(): seq<GateCell>
      reads this, history
      requires historyCount <= history.Length
    {
      history[..historyCount]
    }

    /** r_init: `n` cleared bits and an empty history. */
    constructor (n: nat, instanceId: nat)
      ensures Valid() && qubits.Length == n && instanceId == this.instanceId
      ensures Bits() == seq(n, _ => false) && History() == []
      ensures fresh(qubits) && fresh(history)
    {
      qubits := new bool[n](_ => false);
      history := new GateCell[HistoryCapacity];
      historyCount := 0;
      this.instanceId := instanceId;
    }

    /** Stores the record of the gate just executed. */
    method Push(g: GateCell)
      requires Valid() && historyCount < HistoryCapacity && Recorded(g, qubits.Length)
      modifies this, history
      ensures Valid() && History() == old(History()) + [g]
    {
      history[historyCount] := g;
      historyCount := historyCount + 1;
    }

    /** r_CCNOT: flips c when a and b are set, and records the gate. */
    method CCNOTGate(a: Byte, b: Byte, c: Byte)
      requires Valid() && historyCount < HistoryCapacity
      requires a < qubits.Length && b < qubits.Length && c < qubits.Length
      modifies this, qubits, history
      ensures Valid()
      ensures Bits() == Apply(old(Bits()), GateCell(CCNOT, a, b, c))
      ensures History() == old(History()) + [GateCell(CCNOT, a, b, c)]
    {
      if qubits[a] && qubits[b] {
        qubits[c] := !qubits[c];
      }
      Push(GateCell(CCNOT, a, b, c));
    }

    /** r_CNOT: flips b when a is set, and records the gate. */
    method CNOTGate(a: Byte, b: Byte)
      requires Valid() && historyCount < HistoryCapacity
      requires a < qubits.Length && b < qubits.Length
      modifies this, qubits, history
      ensures Valid()
      ensures Bits() == Apply(old(Bits()), GateCell(CNOT, a, b, 0))
      ensures History() == old(History()) + [GateCell(CNOT, a, b, 0)]
    {
      if qubits[a] {
        qubits[b] := !qubits[b];
      }
      Push(GateCell(CNOT, a, b, 0));
    }

    /** r_NOT: flips a and records the gate. */
    method NOTGate(a: Byte)
      requires Valid() && historyCount < HistoryCapacity
      requires a < qubits.Length
      modifies this, qubits, history
      ensures Valid()
      ensures Bits() == Apply(old(Bits()), GateCell(NOT, a, 0, 0))
      ensures History() == old(History()) + [GateCell(NOT, a, 0, 0)]
    {
      qubits[a] := !qubits[a];
      Push(GateCell(NOT, a, 0, 0));
    }

    /** r_SWAP: exchanges a and b and records the gate. */
    method SWAPGate(a: Byte, b: Byte)
      requires Valid() && historyCount < HistoryCapacity
      requires a < qubits.Length && b < qubits.Length
      modifies this, qubits, history
      ensures Valid()
      ensures Bits() == Apply(old(Bits()), GateCell(SWAP, a, b, 0))
      ensures History() == old(History()) + [GateCell(SWAP, a, b, 0)]
    {
      var t := qubits[a];
      qubits[a] := qubits[b];
      qubits[b] := t;
      Push(GateCell(SWAP, a, b, 0));
    }

    /** r_checkpoint: the current history length. */
    method Checkpoint() returns (cp: nat)
      ensures cp == historyCount
    {
      cp := historyCount;
    }

    /** r_restore: while the history is longer than `cp`, pops the last record
        and executes its gate again, dropping the record that execution adds.
        The history ends cut back to `cp` (left alone if it is not longer) and
        the bits are the old ones with the popped gates re-executed, last first. */
    method Restore(cp: nat)
      requires Valid()
      modifies this, qubits, history
      ensures Valid()
      ensures historyCount == if cp < old(historyCount) then cp else old(historyCount)
      ensures History() == old(History())[..historyCount]
      ensures Bits() == Unwind(old(Bits()), old(History())[historyCount..])
    {
      ghost var h0 := History();
      ghost var b0 := Bits();
      ghost var n0 := historyCount;
      while historyCount > cp
        invariant Valid() && historyCount <= n0 && (cp < n0 ==> cp <= historyCount)
        invariant cp >= n0 ==> historyCount == n0
        invariant History() == h0[..historyCount]
        invariant AllInRange(h0[historyCount..], |b0|)
        invariant Bits() == Unwind(b0, h0[historyCount..])
        decreases historyCount
      {
        PopAndExecute();
        assert h0[historyCount..][1..] == h0[historyCount + 1..];
      }
    }

    /** One iteration of r_restore's loop: pop, execute, drop the new record. */
    method PopAndExecute()
      requires Valid() && historyCount > 0
      modifies this, qubits, history
      ensures Valid() && historyCount == old(historyCount) - 1
      ensures History() == old(History())[..historyCount]
      ensures Bits() == Apply(old(Bits()), old(History())[historyCount])
    {
      historyCount := historyCount - 1;
      var g := history[historyCount];
      match g.gate
      case 0 => CCNOTGate(g.a, g.b, g.c); historyCount := historyCount - 1;
      case 1 => CNOTGate(g.a, g.b); historyCount := historyCount - 1;
      case 2 => NOTGate(g.a); historyCount := historyCount - 1;
      case 3 => SWAPGate(g.a, g.b); historyCount := historyCount - 1;
      case _ =>
    }

    /** r_step_back: nothing on an empty history; otherwise pops the last record
        and executes its gate again without recording it. */
    method StepBack()
      requires Valid()
      modifies this, qubits
      ensures Valid()
      ensures old(historyCount) == 0 ==> historyCount == 0 && Bits() == old(Bits())
      ensures old(historyCount) > 0 ==>
        historyCount == old(historyCount) - 1 && Bits() == Apply(old(Bits()), old(History())[historyCount])
      ensures History() == old(History())[..historyCount]
    {
      if historyCount > 0 {
        historyCount := historyCount - 1;
        var g := history[historyCount];
        match g.gate
        case 0 =>
          if qubits[g.a] && qubits[g.b] { qubits[g.c] := !qubits[g.c]; }
        case 1 =>
          if qubits[g.a] { qubits[g.b] := !qubits[g.b]; }
        case 2 =>
          qubits[g.a] := !qubits[g.a];
        case 3 =>
          var t := qubits[g.a];
          qubits[g.a] := qubits[g.b];
          qubits[g.b] := t;
        case _ =>
      }
    }
  }

  // ---------------------------------------------------------------------------
  // D layer: boolean operations built from the gates
  // ---------------------------------------------------------------------------

  /** What a D operation promises about its runtime: the history it started
      from is kept as a prefix, and the bits are the bits it started from run
      through exactly the records appended since. */
  ghost predicate Logged(r: RRuntime, bits0: seq<bool>, h0: seq<GateCell>)
    reads r, r.qubits, r.history
  {
    r.Valid() && |bits0| == r.qubits.Length &&
    |h0| <= r.historyCount && r.History()[..|h0|] == h0 &&
    AllInRange(r.History()[|h0|..], |bits0|) &&
    r.Bits() == Run(bits0, r.History()[|h0|..])
  }

  lemma LoggedStart(r: RRuntime)
    requires r.Valid()
    ensures Logged(r, r.Bits(), r.History())
  {
    assert r.History()[r.historyCount..] == [];
  }

  /** Appending one executed record keeps the log. */
  lemma LoggedStep(bits0: seq<bool>, h0: seq<GateCell>, h1: seq<GateCell>, g: GateCell)
    requires |h0| <= |h1| && h1[..|h0|] == h0
    requires AllInRange(h1[|h0|..], |bits0|) && InRange(g, |bits0|)
    ensures (h1 + [g])[..|h0|] == h0
    ensures (h1 + [g])[|h0|..] == h1[|h0|..] + [g]
    ensures AllInRange((h1 + [g])[|h0|..], |bits0|)
    ensures Run(bits0, (h1 + [g])[|h0|..]) == Apply(Run(bits0, h1[|h0|..]), g)
  {
    assert (h1 + [g])[|h0|..] == h1[|h0|..] + [g];
    RunSnoc(bits0, h1[|h0|..], g);
  }

  /** r_NOT inside a D operation. */
  method LoggedNot(r: RRuntime, x: Byte, ghost b0: seq<bool>, ghost h0: seq<GateCell>)
    requires Logged(r, b0, h0) && r.historyCount < HistoryCapacity && x < r.qubits.Length
    modifies r, r.qubits, r.history
    ensures Logged(r, b0, h0) && r.historyCount == old(r.historyCount) + 1
    ensures r.Bits() == old(r.Bits())[x := !old(r.qubits[x])]
  {
    LoggedStep(b0, h0, r.History(), GateCell(NOT, x, 0, 0));
    r.NOTGate(x);
  }

  /** r_CNOT inside a D operation. */
  method LoggedCnot(r: RRuntime, x: Byte, y: Byte, ghost b0: seq<bool>, ghost h0: seq<GateCell>)
    requires Logged(r, b0, h0) && r.historyCount < HistoryCapacity
    requires x < r.qubits.Length && y < r.qubits.Length
    modifies r, r.qubits, r.history
    ensures Logged(r, b0, h0) && r.historyCount == old(r.historyCount) + 1
    ensures r.Bits() == Apply(old(r.Bits()), GateCell(CNOT, x, y, 0))
  {
    LoggedStep(b0, h0, r.History(), GateCell(CNOT, x, y, 0));
    r.CNOTGate(x, y);
  }

  /** r_CCNOT inside a D operation. */
  method LoggedCcnot(r: RRuntime, x: Byte, y: Byte, z: Byte, ghost b0: seq<bool>, ghost h0: seq<GateCell>)
    requires Logged(r, b0, h0) && r.historyCount < HistoryCapacity
    requires x < r.qubits.Length && y < r.qubits.Length && z < r.qubits.Length
    modifies r, r.qubits, r.history
    ensures Logged(r, b0, h0) && r.historyCount == old(r.historyCount) + 1
    ensures r.Bits() == Apply(old(r.Bits()), GateCell(CCNOT, x, y, z))
  {
    LoggedStep(b0, h0, r.History(), GateCell(CCNOT, x, y, z));
    r.CCNOTGate(x, y, z);
  }

  /** d_AND: clears result if it is set, then CCNOT a b result. The result
      holds a ∧ b and no other bit changes, unless the result is one of the
      operands, in which case it ends cleared. Every change is logged in the
      history that began at `b0`, `h0`. */
  method And(r: RRuntime, a: Byte, b: Byte, res: Byte, ghost b0: seq<bool>, ghost h0: seq<GateCell>)
    requires Logged(r, b0, h0) && r.historyCount + 2 <= HistoryCapacity
    requires a < r.qubits.Length && b < r.qubits.Length && res < r.qubits.Length
    modifies r, r.qubits, r.history
    ensures Logged(r, b0, h0) && r.historyCount <= old(r.historyCount) + 2
    ensures r.Bits() == old(r.Bits())[res := if res == a || res == b then false else old(r.qubits[a] && r.qubits[b])]
  {
    if r.qubits[res] {
      LoggedNot(r, res, b0, h0);
    }
    LoggedCcnot(r, a, b, res, b0, h0);
  }

  /** d_XOR: clears result if it is set, then CNOT a result and CNOT b result.
      A result distinct from both operands ends holding a ⊕ b, and no other
      bit changes. */
  method Xor(r: RRuntime, a: Byte, b: Byte, res: Byte, ghost b0: seq<bool>, ghost h0: seq<GateCell>)
    requires Logged(r, b0, h0) && r.historyCount + 3 <= HistoryCapacity
    requires a < r.qubits.Length && b < r.qubits.Length && res < r.qubits.Length
    modifies r, r.qubits, r.history
    ensures Logged(r, b0, h0) && r.historyCount <= old(r.historyCount) + 3
    ensures res != a && res != b ==> r.Bits() == old(r.Bits())[res := old(r.qubits[a] != r.qubits[b])]
  {
    if r.qubits[res] {
      LoggedNot(r, res, b0, h0);
    }
    LoggedCnot(r, a, res, b0, h0);
    LoggedCnot(r, b, res, b0, h0);
  }

  /** d_OR by De Morgan: NOT a, NOT b, d_AND a b result, NOT result, then NOT a
      and NOT b again. For three distinct bits the result holds a ∨ b and a and
      b end as they began; with a and b the same bit the result holds its
      negation. */
  method Or(r: RRuntime, a: Byte, b: Byte, res: Byte, ghost b0: seq<bool>, ghost h0: seq<GateCell>)
    requires Logged(r, b0, h0) && r.historyCount + 7 <= HistoryCapacity
    requires a < r.qubits.Length && b < r.qubits.Length && res < r.qubits.Length
    modifies r, r.qubits, r.history
    ensures Logged(r, b0, h0) && r.historyCount <= old(r.historyCount) + 7
    ensures a != b && res != a && res != b ==>
      r.Bits() == old(r.Bits())[res := old(r.qubits[a] || r.qubits[b])]
    ensures a == b && res != a ==> r.Bits() == old(r.Bits())[res := !old(r.qubits[a])]
  {
    ghost var s0 := r.Bits();
    LoggedNot(r, a, b0, h0);
    ghost var s1 := r.Bits();
    LoggedNot(r, b, b0, h0);
    ghost var s2 := r.Bits();
    And(r, a, b, res, b0, h0);
    ghost var s3 := r.Bits();
    LoggedNot(r, res, b0, h0);
    ghost var s4 := r.Bits();
    LoggedNot(r, a, b0, h0);
    ghost var s5 := r.Bits();
    LoggedNot(r, b, b0, h0);
    OrSteps(s0, s1, s2, s3, s4, s5, r.Bits(), a, b, res);
  }

  /** The bit-level composition of d_OR: De Morgan over d_AND, with the
      operands negated before and restored after. */
  lemma OrSteps(s0: seq<bool>, s1: seq<bool>, s2: seq<bool>, s3: seq<bool>, s4: seq<bool>, s5: seq<bool>, s6: seq<bool>,
                a: nat, b: nat, res: nat)
    requires a < |s0| && b < |s0| && res < |s0|
    requires s1 == s0[a := !s0[a]] && s2 == s1[b := !s1[b]]
    requires s3 == s2[res := if res == a || res == b then false else s2[a] && s2[b]]
    requires s4 == s3[res := !s3[res]] && s5 == s4[a := !s4[a]] && s6 == s5[b := !s5[b]]
    ensures a != b && res != a && res != b ==> s6 == s0[res := s0[a] || s0[b]]
    ensures a == b && res != a ==> s6 == s0[res := !s0[a]]
  {
    if a != b && res != a && res != b {
      assert s5 == s0[b := !s0[b]][res := s0[a] || s0[b]];
    } else if a == b && res != a {
      assert s2 == s0;
    }
  }

  /** d_NAND: d_AND then NOT result; the result holds ¬(a ∧ b) when distinct
      from both operands. */
  method Nand(r: RRuntime, a: Byte, b: Byte, res: Byte, ghost b0: seq<bool>, ghost h0: seq<GateCell>)
    requires Logged(r, b0, h0) && r.historyCount + 3 <= HistoryCapacity
    requires a < r.qubits.Length && b < r.qubits.Length && res < r.qubits.Length
    modifies r, r.qubits, r.history
    ensures Logged(r, b0, h0) && r.historyCount <= old(r.historyCount) + 3
    ensures res != a && res != b ==> r.Bits() == old(r.Bits())[res := !old(r.qubits[a] && r.qubits[b])]
  {
    And(r, a, b, res, b0, h0);
    LoggedNot(r, res, b0, h0);
  }

  /** d_NOR: d_OR then NOT result; for three distinct bits the result holds
      ¬(a ∨ b). */
  method Nor(r: RRuntime, a: Byte, b: Byte, res: Byte, ghost b0: seq<bool>, ghost h0: seq<GateCell>)
    requires Logged(r, b0, h0) && r.historyCount + 8 <= HistoryCapacity
    requires a < r.qubits.Length && b < r.qubits.Length && res < r.qubits.Length
    modifies r, r.qubits, r.history
    ensures Logged(r, b0, h0) && r.historyCount <= old(r.historyCount) + 8
    ensures a != b && res != a && res != b ==>
      r.Bits() == old(r.Bits())[res := !old(r.qubits[a] || r.qubits[b])]
  {
    Or(r, a, b, res, b0, h0);
    LoggedNot(r, res, b0, h0);
  }

  // ---------------------------------------------------------------------------
  // MAYBE: a flag that is resolved to a value
  // ---------------------------------------------------------------------------

  class Maybe {
    var resolved: bool
    var value: bool

    /** d_maybe: unresolved, value false. */
    constructor ()
      ensures !resolved && !value
    {
      resolved := false;
      value := false;
    }

    /** d_resolve: resolves to `v`, whether or not it was resolved before. */
    method Resolve(v: bool)
      modifies this
      ensures resolved && value == v
    {
      resolved := true;
      value := v;
    }
  }

  // ---------------------------------------------------------------------------
  // S layer: prototypes and actors
  // ---------------------------------------------------------------------------

  class SProto {
    const name: string
    /** The parent in the inheritance chain; null only for the root. */
    const parent: SProto?

    constructor (name: string, parent: SProto?)
      ensures this.name == name && this.parent == parent
    {
      this.name := name;
      this.parent := parent;
    }
  }

  class SActor {
    const name: string
    const role: string
    const prototype: SProto

    constructor (name: string, role: string, prototype: SProto)
      ensures this.name == name && this.role == role && this.prototype == prototype
    {
      this.name := name;
      this.role := role;
      this.prototype := prototype;
    }
  }

  class SRuntime {
    const r: RRuntime
    const instanceId: nat
    const rootProto: SProto
    const rootActor: SActor
    var actors: seq<SActor>
    var protos: seq<SProto>

    /** The root pair heads both tables, the root prototype has no parent, and
        every actor takes its structure from the root prototype. */
    ghost predicate Valid()
      reads this
    {
      1 <= |actors| <= TableCapacity && 1 <= |protos| <= TableCapacity &&
      actors[0] == rootActor && protos[0] == rootProto &&
      rootProto.parent == null && rootProto.name == "root_proto" &&
      rootActor.name == "root_actor" &&
      forall i :: 0 <= i < |actors| ==> actors[i].prototype == rootProto
    }

    /** s_init: an R runtime of `n` bits, and the root prototype and root actor
        as the only entries of their tables. */
    constructor (n: nat, instanceId: nat)
      ensures Valid() && |actors| == 1 && |protos| == 1
      ensures rootActor.role == "Bootstrap coordinator" && this.instanceId == instanceId
      ensures r.Valid() && r.qubits.Length == n && r.History() == []
      ensures fresh(r) && fresh(r.qubits) && fresh(r.history)
    {
      r := new RRuntime(n, instanceId);
      this.instanceId := instanceId;
      var proto := new SProto("root_proto", null);
      var actor := new SActor("root_actor", "Bootstrap coordinator", proto);
      rootProto := proto;
      rootActor := actor;
      actors := [actor];
      protos := [proto];
    }

    /** s_create_actor: appends a new actor of the root prototype. */
    method CreateActor(name: string, role: string) returns (actor: SActor)
      requires Valid() && |actors| < TableCapacity
      modifies this
      ensures Valid() && fresh(actor)
      ensures actors == old(actors) + [actor] && protos == old(protos)
      ensures actor.name == name && actor.role == role && actor.prototype == rootProto
    {
      actor := new SActor(name, role, rootProto);
      actors := actors + [actor];
    }

    /** s_create_proto: appends a new prototype whose parent is the one given,
        or the root prototype when none is given. */
    method CreateProto(name: string, parent: SProto?) returns (proto: SProto)
      requires Valid() && |protos| < TableCapacity
      modifies this
      ensures Valid() && fresh(proto)
      ensures protos == old(protos) + [proto] && actors == old(actors)
      ensures proto.name == name && proto.parent == (if parent == null then rootProto else parent)
    {
      proto := new SProto(name, if parent == null then rootProto else parent);
      protos := protos + [proto];
    }
  }
}
