// The one-allocation R runtime: bits, a 4096-entry history of gate records,
// and checkpoint, restore, step back and step forward over that history. Gate
// records, their meaning and their text form are those of BitGates.

module RLayerMinimal {
  import opened BitGates

  const CellCapacity: nat := 4096

  /** A history entry that a gate call could have stored. */
  predicate Live(g: GateCell, n: nat) {
    g.gate < 4 && Normal(g) && InRange(g, n)
  }

  /** The bits and the live history, as values. */
  datatype Machine = Machine(bits: seq<bool>, live: seq<GateCell>)

  ghost predicate WellFormed(m: Machine) {
    forall i :: 0 <= i < |m.live| ==> Live(m.live[i], |m.bits|)
  }

  /** exec_cell on values: a gate code 0..3 executes and appends its record;
      any other code does nothing. */
  function ExecOn(m: Machine, g: GateCell): (r: Machine)
    requires InRange(g, |m.bits|)
    ensures |r.bits| == |m.bits|
  {
    if g.gate < 4 then Machine(Apply(m.bits, g), m.live + [Record(g)]) else m
  }

  /** step_back on values, which is also the body of restore's loop: pop the
      last record and hand it to exec_cell. */
  function StepBackOn(m: Machine): (r: Machine)
    requires WellFormed(m) && |m.live| > 0
    ensures WellFormed(r) && |r.bits| == |m.bits|
  {
    var n := |m.live|;
    ExecOn(Machine(m.bits, m.live[..n - 1]), m.live[n - 1])
  }

  /** The machine after `k` passes of restore's loop body. */
  function Passes(m: Machine, k: nat): (r: Machine)
    requires WellFormed(m) && |m.live| > 0
    ensures WellFormed(r) && |r.live| == |m.live| && |r.bits| == |m.bits|
  {
    if k == 0 then m
    else
      var p := Passes(m, k - 1);
      StepBackOn(p)
  }

  /** One pass of restore's loop neither shortens the history nor changes it:
      the popped record is appended again. */
  lemma StepBackKeepsHistory(m: Machine)
    requires WellFormed(m) && |m.live| > 0
    ensures StepBackOn(m).live == m.live
    ensures StepBackOn(m).bits == Apply(m.bits, m.live[|m.live| - 1])
  {
    var n := |m.live|;
    assert m.live[..n - 1] + [m.live[n - 1]] == m.live;
  }

  /** restore as written never ends once the history is longer than the
      checkpoint: after any number of passes the loop test still holds. */
  lemma {:induction false} RestoreNeverEnds(m: Machine, cp: nat, k: nat)
    requires WellFormed(m) && |m.live| > cp
    ensures |Passes(m, k).live| > cp
    ensures Passes(m, k).live == m.live
  {
    if k > 0 {
      RestoreNeverEnds(m, cp, k - 1);
      StepBackKeepsHistory(Passes(m, k - 1));
    }
  }

  /** Two passes give back the machine itself when the last gate undoes
      itself, so the loop revisits the same two states forever; the same
      fact says two step_backs restore the bits. */
  lemma StepBackTwice(m: Machine)
    requires WellFormed(m) && |m.live| > 0 && SelfInverse(m.live[|m.live| - 1])
    ensures StepBackOn(StepBackOn(m)) == m
  {
    StepBackKeepsHistory(m);
    StepBackKeepsHistory(StepBackOn(m));
    ApplyTwice(m.bits, m.live[|m.live| - 1]);
  }

  class Runtime {
    const qubits: array<bool>
    /** The history buffer; entries past cellCount keep whatever they held. */
    const cells: array<GateCell>
    var cellCount: nat

    ghost predicate Valid()
      reads this, cells
    {
      cells.Length == CellCapacity && cellCount <= CellCapacity &&
      forall i :: 0 <= i < cellCount ==> Live(cells[i], qubits.Length)
    }

    ghost function State(): (m: Machine)
      reads this, qubits, cells
      requires Valid()
      ensures WellFormed(m) && |m.bits| == qubits.Length
    {
      Machine(qubits[..], cells[..cellCount])
    }

    /** init: `n` cleared bits, an empty history, and a buffer whose entries
        are unspecified. */
    constructor (n: nat)
      ensures Valid() && qubits.Length == n && cellCount == 0
      ensures qubits[..] == seq(n, _ => false)
    {
      qubits := new bool[n](_ => false);
      cells := new GateCell[CellCapacity];
      cellCount := 0;
    }

    /** exec_CCNOT: flips c when a and b are set, and stores the record. */
    method ExecCCNOT(a: Byte, b: Byte, c: Byte)
      requires Valid() && cellCount < CellCapacity
      requires a < qubits.Length && b < qubits.Length && c < qubits.Length
      modifies this, qubits, cells
      ensures Valid() && cellCount == old(cellCount) + 1
      ensures qubits[..] == Apply(old(qubits[..]), GateCell(CCNOT, a, b, c))
      ensures cells[..] == old(cells[..])[old(cellCount) := GateCell(CCNOT, a, b, c)]
    {
      if qubits[a] && qubits[b] {
        qubits[c] := !qubits[c];
      }
      cells[cellCount] := GateCell(CCNOT, a, b, c);
      cellCount := cellCount + 1;
    }

    /** exec_CNOT: flips b when a is set, and stores the record. */
    method ExecCNOT(a: Byte, b: Byte)
      requires Valid() && cellCount < CellCapacity
      requires a < qubits.Length && b < qubits.Length
      modifies this, qubits, cells
      ensures Valid() && cellCount == old(cellCount) + 1
      ensures qubits[..] == Apply(old(qubits[..]), GateCell(CNOT, a, b, 0))
      ensures cells[..] == old(cells[..])[old(cellCount) := GateCell(CNOT, a, b, 0)]
    {
      if qubits[a] {
        qubits[b] := !qubits[b];
      }
      cells[cellCount] := GateCell(CNOT, a, b, 0);
      cellCount := cellCount + 1;
    }

    /** exec_NOT: flips a and stores the record. */
    method ExecNOT(a: Byte)
      requires Valid() && cellCount < CellCapacity
      requires a < qubits.Length
      modifies this, qubits, cells
      ensures Valid() && cellCount == old(cellCount) + 1
      ensures qubits[..] == Apply(old(qubits[..]), GateCell(NOT, a, 0, 0))
      ensures cells[..] == old(cells[..])[old(cellCount) := GateCell(NOT, a, 0, 0)]
    {
      qubits[a] := !qubits[a];
      cells[cellCount] := GateCell(NOT, a, 0, 0);
      cellCount := cellCount + 1;
    }

    /** exec_SWAP: exchanges a and b and stores the record. */
    method ExecSWAP(a: Byte, b: Byte)
      requires Valid() && cellCount < CellCapacity
      requires a < qubits.Length && b < qubits.Length
      modifies this, qubits, cells
      ensures Valid() && cellCount == old(cellCount) + 1
      ensures qubits[..] == Apply(old(qubits[..]), GateCell(SWAP, a, b, 0))
      ensures cells[..] == old(cells[..])[old(cellCount) := GateCell(SWAP, a, b, 0)]
    {
      var t := qubits[a];
      qubits[a] := qubits[b];
      qubits[b] := t;
      cells[cellCount] := GateCell(SWAP, a, b, 0);
      cellCount := cellCount + 1;
    }

    /** exec_cell: dispatches gate codes 0..3 and ignores any other code. */
    method ExecCell(g: GateCell)
      requires Valid() && InRange(g, qubits.Length)
      requires g.gate < 4 ==> cellCount < CellCapacity
      modifies this, qubits, cells
      ensures Valid()
      ensures g.gate < 4 ==>
        cellCount == old(cellCount) + 1 && qubits[..] == Apply(old(qubits[..]), g) &&
        cells[..] == old(cells[..])[old(cellCount) := Record(g)]
      ensures g.gate >= 4 ==>
        cellCount == old(cellCount) && qubits[..] == old(qubits[..]) && cells[..] == old(cells[..])
      ensures State() == ExecOn(old(State()), g)
    {
      match g.gate
      case 0 => ExecCCNOT(g.a, g.b, g.c);
      case 1 => ExecCNOT(g.a, g.b);
      case 2 => ExecNOT(g.a);
      case 3 => ExecSWAP(g.a, g.b);
      case _ =>
    }

    /** checkpoint: the current history length. */
    method Checkpoint() returns (cp: nat)
      ensures cp == cellCount
    {
      cp := cellCount;
    }

    /** One pass of restore's loop as written: pop the last record and hand it
        to exec_cell, which stores it again. The history length, the loop's
        only way out, is the same afterwards. */
    method RestorePass()
      requires Valid() && cellCount > 0
      modifies this, qubits, cells
      ensures Valid() && cellCount == old(cellCount) && cells[..] == old(cells[..])
      ensures State() == StepBackOn(old(State()))
    {
      cellCount := cellCount - 1;
      ExecCell(cells[cellCount]);
    }

    /** restore with the re-stored record dropped after each pass, as the
        runtime of MoopCore does: the history ends cut back to `cp` (left alone
        if it is not longer) and the bits are the old ones with the popped
        gates re-executed, last first. */
    method Restore(cp: nat)
      requires Valid()
      modifies this, qubits, cells
      ensures Valid()
      ensures cellCount == if cp < old(cellCount) then cp else old(cellCount)
      ensures cells[..] == old(cells[..])
      ensures qubits[..] == Unwind(old(qubits[..]), old(cells[..cellCount])[cellCount..])
    {
      ghost var h0 := cells[..cellCount];
      ghost var b0 := qubits[..];
      ghost var n0 := cellCount;
      while cellCount > cp
        invariant Valid() && cellCount <= n0 && (cp < n0 ==> cp <= cellCount)
        invariant cp >= n0 ==> cellCount == n0
        invariant cells[..] == old(cells[..]) && cells[..cellCount] == h0[..cellCount]
        invariant AllInRange(h0[cellCount..], |b0|)
        invariant qubits[..] == Unwind(b0, h0[cellCount..])
        decreases cellCount
      {
        RestoreOne(h0, b0);
      }
    }

    /** One pass of restore followed by dropping the re-stored record: the
        last gate of the history is executed again and the history is one
        shorter. */
    method RestoreOne(ghost h0: seq<GateCell>, ghost b0: seq<bool>)
      requires Valid() && 0 < cellCount <= |h0|
      requires cells[..cellCount] == h0[..cellCount]
      requires AllInRange(h0[cellCount..], |b0|)
      requires qubits[..] == Unwind(b0, h0[cellCount..])
      modifies this, qubits, cells
      ensures Valid() && cellCount == old(cellCount) - 1 && cells[..] == old(cells[..])
      ensures cells[..cellCount] == h0[..cellCount]
      ensures AllInRange(h0[cellCount..], |b0|)
      ensures qubits[..] == Unwind(b0, h0[cellCount..])
    {
      ghost var k := cellCount;
      StepBackKeepsHistory(State());
      RestorePass();
      cellCount := cellCount - 1;
      assert h0[k - 1..][1..] == h0[k..];
      assert h0[k - 1..][0] == h0[k - 1] == cells[k - 1];
    }

    /** step_back: nothing on an empty history; otherwise the last gate is
        executed again and its record stored again, so the history is the same
        and only the bits change. */
    method StepBack()
      requires Valid()
      modifies this, qubits, cells
      ensures Valid()
      ensures old(cellCount) == 0 ==> State() == old(State())
      ensures old(cellCount) > 0 ==> State() == StepBackOn(old(State()))
    {
      if cellCount > 0 {
        RestorePass();
      }
    }

    /** step_forward: below capacity, executes the buffer entry just past the
        history (a record left there by an earlier restore or step back, or
        whatever the buffer held); at capacity, nothing. */
    method StepForward()
      requires Valid()
      requires cellCount < CellCapacity ==> InRange(cells[cellCount], qubits.Length)
      modifies this, qubits, cells
      ensures Valid()
      ensures old(cellCount) < CellCapacity ==> State() == ExecOn(old(State()), old(cells[cellCount]))
      ensures old(cellCount) == CellCapacity ==> State() == old(State())
    {
      if cellCount < CellCapacity {
        ExecCell(cells[cellCount]);
      }
    }
  }
}
