// The R layer runtime: a bit array driven by HRIR cells whose opcode and
// arguments are text, an execution history of cells, checkpoints that copy the
// bits, and rewinding and stepping through the history. Its cells are the
// R layer's own HRIR_Cell, unrelated to the cells of HrIr.

module RLayer {
  import opened CStrings

  // ---------------------------------------------------------------------------
  // Gates on 32-bit indices
  // ---------------------------------------------------------------------------

  /** The cast `(uint32_t)` of an `int`: two's-complement wrap-around. */
  function U32(i: int): nat {
    (i % 0x1_0000_0000) as nat
  }

  /** The cast keeps the value modulo 2^32 and lands below 2^32; a negative
      number wraps to the top of the range. */
  lemma U32Wraps(i: int)
    ensures U32(i) < 0x1_0000_0000 && (U32(i) - i) % 0x1_0000_0000 == 0
    ensures 0 <= i < 0x1_0000_0000 ==> U32(i) == i
    ensures -0x1_0000_0000 <= i < 0 ==> U32(i) == i + 0x1_0000_0000
  {
  }

  /** A decoded cell: the gate and its bit indices. */
  datatype Gate = Ccnot(a: nat, b: nat, c: nat) | Cnot(a: nat, b: nat) | Not(a: nat) | Swap(a: nat, b: nat)

  /** Every index of the gate is below the bit count `n`. */
  predicate Fits(g: Gate, n: nat) {
    match g
    case Ccnot(a, b, c) => a < n && b < n && c < n
    case Cnot(a, b) => a < n && b < n
    case Not(a) => a < n
    case Swap(a, b) => a < n && b < n
  }

  /** The effect of a gate: CCNOT flips c when a and b are set, CNOT flips b
      when a is set, NOT flips a, SWAP exchanges a and b. */
  function Fire(bits: seq<bool>, g: Gate): (r: seq<bool>)
    requires Fits(g, |bits|)
    ensures |r| == |bits|
  {
    match g
    case Ccnot(a, b, c) => if bits[a] && bits[b] then bits[c := !bits[c]] else bits
    case Cnot(a, b) => if bits[a] then bits[b := !bits[b]] else bits
    case Not(a) => bits[a := !bits[a]]
    case Swap(a, b) => bits[a := bits[b]][b := bits[a]]
  }

  /** The operands for which a gate undoes itself. */
  predicate SelfInverse(g: Gate) {
    match g
    case Ccnot(a, b, c) => c != a && c != b
    case Cnot(a, b) => a != b
    case _ => true
  }

  lemma FireTwice(bits: seq<bool>, g: Gate)
    requires Fits(g, |bits|) && SelfInverse(g)
    ensures Fire(Fire(bits, g), g) == bits
  {
    if g.Swap? {
      assert forall i :: 0 <= i < |bits| ==> Fire(Fire(bits, g), g)[i] == bits[i];
    }
  }

  /** A CCNOT whose target is one of its controls, or a CNOT whose target is
      its control, is not undone by firing it again once it has fired: the
      first firing clears a control the second one needs. */
  lemma AliasedNotUndone(bits: seq<bool>, g: Gate)
    requires Fits(g, |bits|) && !SelfInverse(g)
    requires g.Ccnot? ==> bits[g.a] && bits[g.b]
    requires g.Cnot? ==> bits[g.a]
    ensures Fire(Fire(bits, g), g) != bits
  {
    var once := Fire(bits, g);
    if g.Ccnot? {
      assert !once[g.c];
      assert Fire(once, g)[g.c] != bits[g.c];
    } else {
      assert !once[g.b];
      assert Fire(once, g)[g.b] != bits[g.b];
    }
  }

  predicate AllFit(gs: seq<Gate>, n: nat) {
    forall i :: 0 <= i < |gs| ==> Fits(gs[i], n)
  }

  /** The bits after executing the gates in order. */
  function Forward(bits: seq<bool>, gs: seq<Gate>): (r: seq<bool>)
    requires AllFit(gs, |bits|)
    ensures |r| == |bits|
    decreases |gs|
  {
    if |gs| == 0 then bits else Fire(Forward(bits, gs[..|gs| - 1]), gs[|gs| - 1])
  }

  /** The bits after executing the gates again from the last to the first, as
      rewinding a history does. */
  function Backward(bits: seq<bool>, gs: seq<Gate>): (r: seq<bool>)
    requires AllFit(gs, |bits|)
    ensures |r| == |bits|
    decreases |gs|
  {
    if |gs| == 0 then bits else Fire(Backward(bits, gs[1..]), gs[0])
  }

  lemma {:induction false} BackwardSnoc(bits: seq<bool>, gs: seq<Gate>, g: Gate)
    requires AllFit(gs, |bits|) && Fits(g, |bits|)
    ensures AllFit(gs + [g], |bits|)
    ensures Backward(bits, gs + [g]) == Backward(Fire(bits, g), gs)
    decreases |gs|
  {
    if |gs| > 0 {
      assert (gs + [g])[1..] == gs[1..] + [g];
      BackwardSnoc(bits, gs[1..], g);
    } else {
      assert (gs + [g])[1..] == [];
    }
  }

  /** Rewinding what was executed gives back the bits it started from, when
      every gate undoes itself. */
  lemma {:induction false} BackwardForward(bits: seq<bool>, gs: seq<Gate>)
    requires AllFit(gs, |bits|)
    requires forall i :: 0 <= i < |gs| ==> SelfInverse(gs[i])
    ensures Backward(Forward(bits, gs), gs) == bits
    decreases |gs|
  {
    if |gs| > 0 {
      var p := gs[..|gs| - 1];
      var g := gs[|gs| - 1];
      assert gs == p + [g];
      var before := Forward(bits, p);
      BackwardSnoc(Fire(before, g), p, g);
      FireTwice(before, g);
      BackwardForward(bits, p);
    }
  }

  // ---------------------------------------------------------------------------
  // Cells: the gate as text
  // ---------------------------------------------------------------------------

  /** The operand at position `k` as execute_cell reads it: atoi, cast to
      uint32. */
  function Operand(args: seq<string>, k: nat): nat
    requires k < |args|
  {
    U32(Atoi(args[k]))
  }

  /** What execute_cell makes of an opcode and its arguments: one of the four
      names with exactly its arity, or nothing. */
  function Decode(opcode: string, args: seq<string>): (r: Option<Gate>)
  {
    if opcode == "CCNOT" && |args| == 3 then Some(Ccnot(Operand(args, 0), Operand(args, 1), Operand(args, 2)))
    else if opcode == "CNOT" && |args| == 2 then Some(Cnot(Operand(args, 0), Operand(args, 1)))
    else if opcode == "NOT" && |args| == 1 then Some(Not(Operand(args, 0)))
    else if opcode == "SWAP" && |args| == 2 then Some(Swap(Operand(args, 0), Operand(args, 1)))
    else None
  }

  /** The opcodes and argument counts execute_cell accepts, and the operand
      order it reads. */
  lemma DecodeAccepts(opcode: string, args: seq<string>)
    ensures Decode(opcode, args).Some? <==>
      (opcode == "CCNOT" && |args| == 3) || (opcode == "CNOT" && |args| == 2) ||
      (opcode == "NOT" && |args| == 1) || (opcode == "SWAP" && |args| == 2)
    ensures opcode == "CCNOT" && |args| == 3 ==>
      Decode(opcode, args) == Some(Ccnot(Operand(args, 0), Operand(args, 1), Operand(args, 2)))
    ensures opcode == "SWAP" && |args| == 2 ==>
      Decode(opcode, args) == Some(Swap(Operand(args, 0), Operand(args, 1)))
  {
  }

  /** An HRIR cell of the R layer. Its text never changes; its execution flag,
      inverse and dependency lists can. */
  class Cell {
    const id: nat
    const opcode: string
    const args: seq<string>
    const path: Option<string>
    const reversible: bool
    var inverse: Cell?
    var executed: bool
    var dependencies: seq<Cell>
    var dependents: seq<Cell>

    constructor (id: nat, opcode: string, args: seq<string>, path: Option<string>)
      ensures this.id == id && this.opcode == opcode && this.args == args && this.path == path
      ensures reversible && inverse == null && !executed && dependencies == [] && dependents == []
    {
      this.id := id;
      this.opcode := opcode;
      this.args := args;
      this.path := path;
      reversible := true;
      inverse := null;
      executed := false;
      dependencies := [];
      dependents := [];
    }
  }

  /** The cell decodes to a gate that fits `n` bits. */
  predicate Runnable(c: Cell, n: nat) {
    Decode(c.opcode, c.args).Some? && Fits(Decode(c.opcode, c.args).value, n)
  }

  function GateOf(c: Cell): Gate
    requires Decode(c.opcode, c.args).Some?
  {
    Decode(c.opcode, c.args).value
  }

  /** The gates of a run of cells. */
  function Gates(cs: seq<Cell>, n: nat): (gs: seq<Gate>)
    requires forall j :: 0 <= j < |cs| ==> Runnable(cs[j], n)
    ensures |gs| == |cs| && AllFit(gs, n)
  {
    seq(|cs|, j requires 0 <= j < |cs| && Runnable(cs[j], n) => GateOf(cs[j]))
  }

  predicate AllRunnable(t: seq<Cell>, n: nat) {
    forall j :: 0 <= j < |t| ==> Runnable(t[j], n)
  }

  /** What execute_cell does to the bits with one cell: its gate fires when
      the cell decodes and fits, and nothing happens otherwise. */
  function Step(bits: seq<bool>, c: Cell): (r: seq<bool>)
    ensures |r| == |bits|
  {
    if Runnable(c, |bits|) then Fire(bits, GateOf(c)) else bits
  }

  /** The bits after handing the cells of t[lo..hi] to execute_cell again,
      last first. */
  function Replay(bits: seq<bool>, t: seq<Cell>, lo: nat, hi: nat): (r: seq<bool>)
    requires lo <= hi <= |t|
    ensures |r| == |bits|
    decreases hi - lo
  {
    if lo == hi then bits else Step(Replay(bits, t, lo + 1, hi), t[lo])
  }

  /** On a history of runnable cells, replaying is executing their gates
      backwards. */
  lemma {:induction false} ReplayBackward(bits: seq<bool>, t: seq<Cell>, lo: nat, hi: nat)
    requires lo <= hi <= |t| && AllRunnable(t, |bits|)
    ensures Replay(bits, t, lo, hi) == Backward(bits, Gates(t[lo..hi], |bits|))
    decreases hi - lo
  {
    if lo < hi {
      ReplayBackward(bits, t, lo + 1, hi);
      var gs := Gates(t[lo..hi], |bits|);
      assert gs[1..] == Gates(t[lo + 1..hi], |bits|);
    }
  }

  /** get_inverse returns the cell itself. */
  function Inverse(c: Cell?): (r: Cell?) {
    c
  }

  /** The inverse cell undoes the cell whenever its gate undoes itself. */
  lemma InverseUndoes(bits: seq<bool>, c: Cell)
    requires Runnable(c, |bits|) && SelfInverse(GateOf(c))
    ensures Inverse(c) != null && Runnable(Inverse(c), |bits|)
    ensures Fire(Fire(bits, GateOf(c)), GateOf(Inverse(c))) == bits
  {
    FireTwice(bits, GateOf(c));
  }

  /** A copy of the bits and the history length, with its number, label and
      the time it was taken. */
  datatype Checkpoint = Checkpoint(id: nat, name: Option<string>, timestamp: nat,
                                   qubitState: seq<bool>, executionIndex: nat)

  /** Writing `c` at index `k` of the history buffer, which is `k` long or
      longer. */
  function Put(trail: seq<Cell>, k: nat, c: Cell): (r: seq<Cell>)
    requires k <= |trail|
    ensures |r| == if k == |trail| then k + 1 else |trail|
    ensures r[k] == c && forall j :: 0 <= j < |r| && j != k ==> r[j] == trail[j]
  {
    if k == |trail| then trail + [c] else trail[k := c]
  }

  class Runtime {
    const instanceId: nat
    const qubits: array<bool>
    var nextCellId: nat
    /** Every cell created, in creation order. */
    var cells: seq<Cell>
    var checkpoints: seq<Checkpoint>
    /** The history buffer up to the furthest entry ever written; the history
        itself is its first executionCount entries. */
    var trail: seq<Cell>
    var executionCount: nat

    ghost predicate Valid()
      reads this
    {
      nextCellId == |cells| && (forall i :: 0 <= i < |cells| ==> cells[i].id == i) &&
      executionCount <= |trail| && AllRunnable(trail, qubits.Length)
    }

    /** init: `n` cleared bits and no cells, checkpoints or history. */
    constructor (n: nat, instanceId: nat)
      ensures Valid() && this.instanceId == instanceId
      ensures qubits.Length == n && qubits[..] == seq(n, _ => false) && fresh(qubits)
      ensures nextCellId == 0 && cells == [] && checkpoints == [] && trail == [] && executionCount == 0
    {
      this.instanceId := instanceId;
      qubits := new bool[n](_ => false);
      nextCellId := 0;
      cells := [];
      checkpoints := [];
      trail := [];
      executionCount := 0;
    }

    /** create_cell: a fresh, unexecuted, reversible cell numbered by the
        counter, appended to the cells. */
    method CreateCell(opcode: string, args: seq<string>, path: Option<string>) returns (c: Cell)
      requires Valid()
      modifies this
      ensures Valid() && fresh(c)
      ensures c.id == old(nextCellId) && c.opcode == opcode && c.args == args && c.path == path
      ensures c.reversible && c.inverse == null && !c.executed && c.dependencies == [] && c.dependents == []
      ensures cells == old(cells) + [c] && nextCellId == old(nextCellId) + 1
      ensures checkpoints == old(checkpoints) && trail == old(trail) && executionCount == old(executionCount)
    {
      c := new Cell(nextCellId, opcode, args, path);
      nextCellId := nextCellId + 1;
      cells := cells + [c];
    }

    /** execute_CCNOT: false with no change when an index is out of range. */
    method ExecuteCCNOT(a: nat, b: nat, c: nat) returns (ok: bool)
      modifies qubits
      ensures ok <==> Fits(Ccnot(a, b, c), qubits.Length)
      ensures qubits[..] == if ok then Fire(old(qubits[..]), Ccnot(a, b, c)) else old(qubits[..])
    {
      if a >= qubits.Length || b >= qubits.Length || c >= qubits.Length {
        return false;
      }
      if qubits[a] && qubits[b] {
        qubits[c] := !qubits[c];
      }
      return true;
    }

    /** execute_CNOT: false with no change when an index is out of range. */
    method ExecuteCNOT(a: nat, b: nat) returns (ok: bool)
      modifies qubits
      ensures ok <==> Fits(Cnot(a, b), qubits.Length)
      ensures qubits[..] == if ok then Fire(old(qubits[..]), Cnot(a, b)) else old(qubits[..])
    {
      if a >= qubits.Length || b >= qubits.Length {
        return false;
      }
      if qubits[a] {
        qubits[b] := !qubits[b];
      }
      return true;
    }

    /** execute_NOT: false with no change when the index is out of range. */
    method ExecuteNOT(a: nat) returns (ok: bool)
      modifies qubits
      ensures ok <==> Fits(Not(a), qubits.Length)
      ensures qubits[..] == if ok then Fire(old(qubits[..]), Not(a)) else old(qubits[..])
    {
      if a >= qubits.Length {
        return false;
      }
      qubits[a] := !qubits[a];
      return true;
    }

    /** execute_SWAP: false with no change when an index is out of range. */
    method ExecuteSWAP(a: nat, b: nat) returns (ok: bool)
      modifies qubits
      ensures ok <==> Fits(Swap(a, b), qubits.Length)
      ensures qubits[..] == if ok then Fire(old(qubits[..]), Swap(a, b)) else old(qubits[..])
    {
      if a >= qubits.Length || b >= qubits.Length {
        return false;
      }
      var t := qubits[a];
      qubits[a] := qubits[b];
      qubits[b] := t;
      return true;
    }

    /** execute_cell's opcode test: the gate named by the opcode, when the
        argument count is its arity, runs on the parsed arguments. */
    method Dispatch(opcode: string, args: seq<string>) returns (ok: bool)
      modifies qubits
      ensures ok <==> Decode(opcode, args).Some? && Fits(Decode(opcode, args).value, qubits.Length)
      ensures qubits[..] == if ok then Fire(old(qubits[..]), Decode(opcode, args).value) else old(qubits[..])
    {
      var v := ParseArgs(args);
      ok := false;
      if opcode == "CCNOT" && |args| == 3 {
        ok := ExecuteCCNOT(v[0], v[1], v[2]);
      } else if opcode == "CNOT" && |args| == 2 {
        ok := ExecuteCNOT(v[0], v[1]);
      } else if opcode == "NOT" && |args| == 1 {
        ok := ExecuteNOT(v[0]);
      } else if opcode == "SWAP" && |args| == 2 {
        ok := ExecuteSWAP(v[0], v[1]);
      }
    }

    /** execute_cell's argument loop: the first three arguments through atoi
        and the uint32 cast, zero where there are fewer. */
    static method ParseArgs(args: seq<string>) returns (v: seq<nat>)
      ensures |v| == 3
      ensures forall k :: 0 <= k < 3 ==> v[k] == if k < |args| then Operand(args, k) else 0
    {
      v := [0, 0, 0];
      var i := 0;
      while i < |args| && i < 3
        invariant 0 <= i <= 3 && i <= |args| && |v| == 3
        invariant forall k :: 0 <= k < 3 ==> v[k] == if k < i then Operand(args, k) else 0
      {
        v := v[i := U32(Atoi(args[i]))];
        i := i + 1;
      }
    }

    /** execute_cell: false with no change for a missing or already executed
        cell, an unknown opcode, a wrong argument count or an index out of
        range; otherwise the gate runs, the cell is marked executed and is
        written at the end of the history. */
    method ExecuteCell(c: Cell?) returns (ok: bool)
      requires Valid()
      modifies this, qubits, c
      ensures Valid()
      ensures ok <==> c != null && !old(c.executed) && Runnable(c, qubits.Length)
      ensures ok ==> qubits[..] == Fire(old(qubits[..]), GateOf(c)) && c.executed
      ensures ok ==> trail == Put(old(trail), old(executionCount), c) && executionCount == old(executionCount) + 1
      ensures !ok ==> qubits[..] == old(qubits[..]) && trail == old(trail) && executionCount == old(executionCount)
      ensures !ok && c != null ==> c.executed == old(c.executed)
      ensures cells == old(cells) && checkpoints == old(checkpoints) && nextCellId == old(nextCellId)
    {
      if c == null || c.executed {
        return false;
      }
      ok := Dispatch(c.opcode, c.args);
      if ok {
        c.executed := true;
        trail := Put(trail, executionCount, c);
        executionCount := executionCount + 1;
      }
    }

    /** save_checkpoint: copies the bits and the history length, numbered by
        the checkpoints taken so far; `now` stands for the clock. */
    method SaveCheckpoint(name: Option<string>, now: nat) returns (cp: Checkpoint)
      requires Valid()
      modifies this
      ensures Valid()
      ensures cp.id == |old(checkpoints)| && cp.name == name && cp.timestamp == now
      ensures cp.qubitState == qubits[..] && cp.executionIndex == executionCount
      ensures checkpoints == old(checkpoints) + [cp]
      ensures cells == old(cells) && trail == old(trail) && executionCount == old(executionCount)
    {
      cp := Checkpoint(|checkpoints|, name, now, qubits[..], executionCount);
      checkpoints := checkpoints + [cp];
    }

    /** restore_checkpoint: false with no change for a missing checkpoint or
        one of another bit count; otherwise the bits and the history length are
        the checkpoint's and every cell created at an index at or past that
        length is marked not executed. */
    method RestoreCheckpoint(cp: Option<Checkpoint>) returns (ok: bool)
      requires Valid()
      requires cp.Some? ==> cp.value.executionIndex <= |trail|
      modifies this, qubits, cells
      ensures Valid()
      ensures cells == old(cells) && trail == old(trail) && checkpoints == old(checkpoints) && nextCellId == old(nextCellId)
      ensures ok <==> cp.Some? && |cp.value.qubitState| == qubits.Length
      ensures ok ==> qubits[..] == cp.value.qubitState && executionCount == cp.value.executionIndex
      ensures ok ==> forall i :: 0 <= i < |cells| ==>
        cells[i].executed == (old(cells[i].executed) && i < cp.value.executionIndex)
      ensures !ok ==> qubits[..] == old(qubits[..]) && executionCount == old(executionCount)
      ensures !ok ==> forall i :: 0 <= i < |cells| ==> cells[i].executed == old(cells[i].executed)
    {
      if cp.None? || |cp.value.qubitState| != qubits.Length {
        return false;
      }
      var state := cp.value.qubitState;
      forall i | 0 <= i < qubits.Length {
        qubits[i] := state[i];
      }
      executionCount := cp.value.executionIndex;
      var i := executionCount;
      while i < |cells|
        invariant Valid() && executionCount == cp.value.executionIndex
        invariant cells == old(cells) && trail == old(trail) && checkpoints == old(checkpoints)
        invariant qubits[..] == state
        invariant forall k :: 0 <= k < |cells| ==>
          cells[k].executed == (old(cells[k].executed) && (k < executionCount || k >= i))
      {
        cells[i].executed := false;
        i := i + 1;
      }
      return true;
    }

    /** rewind_to_index as written: false when the index is past the history;
        otherwise each cell after it is handed, last first, to execute_cell,
        which refuses a cell already marked executed, and the history is cut
        back. When every such cell is still marked executed, as it is right
        after executing it, nothing but the history length changes. */
    method RewindToIndex(index: nat) returns (ok: bool)
      requires Valid()
      modifies this, qubits, trail
      ensures Valid()
      ensures cells == old(cells) && checkpoints == old(checkpoints) && nextCellId == old(nextCellId)
      ensures |trail| >= old(executionCount) && trail[..old(executionCount)] == old(trail[..executionCount])
      ensures ok <==> index <= old(executionCount)
      ensures ok ==> executionCount == index
      ensures !ok ==> qubits[..] == old(qubits[..]) && executionCount == old(executionCount) && trail == old(trail)
      ensures ok && (forall j :: index <= j < old(executionCount) ==> old(trail[j].executed)) ==>
        qubits[..] == old(qubits[..]) && trail == old(trail) &&
        forall j :: 0 <= j < |trail| ==> trail[j].executed == old(trail[j].executed)
    {
      if index > executionCount {
        return false;
      }
      ghost var n0 := executionCount;
      ghost var t0 := trail;
      ghost var allMarked := forall j :: index <= j < n0 ==> trail[j].executed;
      var i := executionCount;
      while i > index
        invariant Valid() && index <= i <= n0 <= executionCount <= |trail|
        invariant forall j :: 0 <= j < n0 ==> trail[j] == t0[j]
        invariant cells == old(cells) && checkpoints == old(checkpoints) && nextCellId == old(nextCellId)
        invariant allMarked ==> qubits[..] == old(qubits[..])
        invariant allMarked ==> trail == t0 && executionCount == n0
        invariant allMarked ==> forall j :: 0 <= j < |t0| ==> t0[j].executed == old(t0[j].executed)
      {
        var c := trail[i - 1];
        assert c == t0[i - 1];
        var _ := ExecuteCell(c);
        i := i - 1;
      }
      executionCount := index;
      return true;
    }

    /** rewind_to_index as evidently intended: false when the index is past
        the history; otherwise the gates after it are executed again, last
        first, which undoes them, their cells are marked not executed, and the
        history is cut back. */
    method UndoToIndex(index: nat) returns (ok: bool)
      requires Valid()
      modifies this, qubits, trail
      ensures Valid()
      ensures trail == old(trail) && cells == old(cells) && checkpoints == old(checkpoints) && nextCellId == old(nextCellId)
      ensures ok <==> index <= old(executionCount)
      ensures ok ==> executionCount == index
      ensures ok ==> qubits[..] == Backward(old(qubits[..]), Gates(old(trail[index..executionCount]), qubits.Length))
      ensures ok ==> forall j :: index <= j < old(executionCount) ==> !trail[j].executed
      ensures !ok ==> qubits[..] == old(qubits[..]) && executionCount == old(executionCount)
    {
      if index > executionCount {
        return false;
      }
      ghost var b0 := qubits[..];
      UndoGates(trail, index, executionCount);
      ReplayBackward(b0, trail, index, executionCount);
      executionCount := index;
      return true;
    }

    /** execute_cell's effect on the bits, for any cell. */
    method RunCell(c: Cell)
      modifies qubits
      ensures qubits[..] == Step(old(qubits[..]), c)
    {
      var _ := Dispatch(c.opcode, c.args);
    }

    /** The undo loop: from the last cell before `n0` down to `index`, each
        cell is marked not executed and handed to execute_cell once more. */
    method UndoGates(t: seq<Cell>, index: nat, n0: nat)
      requires index <= n0 <= |t|
      modifies qubits, t
      ensures qubits[..] == Replay(old(qubits[..]), t, index, n0)
      ensures forall j :: index <= j < n0 ==> !t[j].executed
    {
      ghost var b0 := qubits[..];
      var i := n0;
      while i > index
        invariant index <= i <= n0
        invariant qubits[..] == Replay(b0, t, i, n0)
        invariant forall j :: i <= j < n0 ==> !t[j].executed
      {
        var c := t[i - 1];
        c.executed := false;
        RunCell(c);
        i := i - 1;
      }
    }

    /** step_forward: false when the history is as long as the cell list;
        otherwise execute_cell on the cell whose creation index is the history
        length. */
    method StepForward() returns (ok: bool)
      requires Valid()
      modifies this, qubits, cells
      ensures Valid()
      ensures cells == old(cells) && checkpoints == old(checkpoints)
      ensures old(executionCount) >= |cells| ==> !ok && qubits[..] == old(qubits[..]) && executionCount == old(executionCount)
      ensures old(executionCount) < |cells| ==>
        (ok <==> !old(cells[executionCount].executed) && Runnable(cells[old(executionCount)], qubits.Length)) &&
        (ok ==> qubits[..] == Fire(old(qubits[..]), GateOf(cells[old(executionCount)])) &&
                cells[old(executionCount)].executed && executionCount == old(executionCount) + 1)
      ensures !ok ==> qubits[..] == old(qubits[..]) && executionCount == old(executionCount) && trail == old(trail)
    {
      if executionCount >= |cells| {
        return false;
      }
      ok := ExecuteCell(cells[executionCount]);
    }

    /** step_backward: false on an empty history; otherwise the last history
        entry is undone. */
    method StepBackward() returns (ok: bool)
      requires Valid()
      modifies this, qubits, trail
      ensures Valid()
      ensures trail == old(trail) && cells == old(cells) && checkpoints == old(checkpoints)
      ensures ok <==> old(executionCount) > 0
      ensures ok ==> executionCount == old(executionCount) - 1
      ensures ok ==> qubits[..] == Fire(old(qubits[..]), GateOf(trail[executionCount])) && !trail[executionCount].executed
      ensures !ok ==> qubits[..] == old(qubits[..]) && executionCount == old(executionCount)
    {
      if executionCount == 0 {
        return false;
      }
      ghost var k := executionCount - 1;
      assert trail[k..k + 1] == [trail[k]];
      ok := UndoToIndex(executionCount - 1);
    }

    /** step_backward as written: rewind_to_index as written to one before
        the history length, so when the newest cell is still marked executed
        no qubit changes and only the history is shortened. */
    method StepBackwardAsWritten() returns (ok: bool)
      requires Valid()
      modifies this, qubits, trail
      ensures Valid()
      ensures cells == old(cells) && checkpoints == old(checkpoints)
      ensures ok <==> old(executionCount) > 0
      ensures ok ==> executionCount == old(executionCount) - 1
      ensures ok && old(trail[executionCount - 1].executed) ==> qubits[..] == old(qubits[..]) && trail == old(trail)
      ensures !ok ==> qubits[..] == old(qubits[..]) && executionCount == old(executionCount) && trail == old(trail)
    {
      if executionCount == 0 {
        return false;
      }
      ok := RewindToIndex(executionCount - 1);
    }

    /** read_qubit: the bit as 0 or 1, and 0 past the last bit. */
    function ReadQubit(index: nat): (v: nat)
      reads qubits
      ensures v < 2 && (v == 1 <==> index < qubits.Length && qubits[index])
    {
      if index < qubits.Length && qubits[index] then 1 else 0
    }

    /** write_qubit: false past the last bit; otherwise the bit becomes the
        low bit of `value`, which a read then returns. */
    method WriteQubit(index: nat, value: nat) returns (ok: bool)
      modifies qubits
      ensures ok <==> index < qubits.Length
      ensures ok ==> qubits[..] == old(qubits[..])[index := value % 2 == 1] && ReadQubit(index) == value % 2
      ensures !ok ==> qubits[..] == old(qubits[..])
    {
      if index >= qubits.Length {
        return false;
      }
      qubits[index] := value % 2 == 1;
      return true;
    }
  }
}
