// L1 HRIR: homoiconic reversible cells, the append-only program that holds
// them, and the runtime that moves the program counter forward (step) and
// back (undo) with a single checkpoint slot.

module HrIr {
  import opened CStrings

  const OpAdd: string := "add"
  const OpSubtract: string := "subtract"
  const OpMultiply: string := "multiply"
  const OpDivide: string := "divide"
  const OpPrint: string := "print"

  /** The placeholder result a step records. */
  const StepResult: string := "executed"

  /** A cell. `args` is absent (NULL) exactly when the cell was created with no
      arguments; an individual argument may itself be absent. A cell's inverse
      is a cell of its own, stored inside it. */
  datatype Cell = Cell(
    id: nat,
    opcode: string,
    args: Option<seq<Option<string>>>,
    inverse: Option<Cell>,
    isReversible: bool,
    executed: bool,
    result: Option<string>)

  /** The argument list a cell was created with (arg_count entries). */
  function ArgList(c: Cell): seq<Option<string>> {
    if c.args.None? then [] else c.args.value
  }

  // ---------------------------------------------------------------------------
  // Cell creation
  // ---------------------------------------------------------------------------

  /** hr_ir_create_cell: NULL without an opcode; otherwise a fresh, reversible,
      unexecuted cell with copied arguments and no argument array when there are none. */
  function CreateCell(opcode: Option<string>, args: seq<Option<string>>): (r: Option<Cell>)
    ensures r.None? <==> opcode.None?
    ensures r.Some? ==> r.value.opcode == opcode.value && ArgList(r.value) == args
    ensures r.Some? ==> (r.value.args.None? <==> |args| == 0)
    ensures r.Some? ==> r.value.isReversible && !r.value.executed && r.value.result.None?
    ensures r.Some? ==> r.value.inverse.None? && r.value.id == 0
  {
    if opcode.None? then None
    else Some(Cell(0, opcode.value, if |args| == 0 then None else Some(args), None, true, false, None))
  }

  /** The opcode table behind hr_ir_create_inverse. */
  function InverseOpcode(op: string): Option<string> {
    Lookup([("add", "subtract"), ("subtract", "add"), ("multiply", "divide"), ("divide", "multiply")], op)
  }

  /** The value of the first entry of a table whose key is `key`, as a chain of
      strcmp tests finds it. */
  function Lookup(table: seq<(string, string)>, key: string): Option<string>
    decreases |table|
  {
    if |table| == 0 then None
    else if table[0].0 == key then Some(table[0].1)
    else Lookup(table[1..], key)
  }

  lemma {:induction false} LookupAt(table: seq<(string, string)>, key: string, k: nat)
    requires k < |table| && table[k].0 == key
    requires forall j :: 0 <= j < k ==> table[j].0 != key
    ensures Lookup(table, key) == Some(table[k].1)
    decreases k
  {
    if k > 0 {
      LookupAt(table[1..], key, k - 1);
    }
  }

  lemma {:induction false} LookupMissing(table: seq<(string, string)>, key: string)
    requires forall j :: 0 <= j < |table| ==> table[j].0 != key
    ensures Lookup(table, key).None?
    decreases |table|
  {
    if |table| > 0 {
      LookupMissing(table[1..], key);
    }
  }

  /** The inverse table as a chain of tests: add and subtract undo each other,
      as do multiply and divide; no other opcode has an inverse. */
  lemma InverseOpcodeTable(op: string)
    ensures InverseOpcode(op) ==
      if op == OpAdd then Some(OpSubtract)
      else if op == OpSubtract then Some(OpAdd)
      else if op == OpMultiply then Some(OpDivide)
      else if op == OpDivide then Some(OpMultiply)
      else None
  {
    var t := [("add", "subtract"), ("subtract", "add"), ("multiply", "divide"), ("divide", "multiply")];
    if op == OpAdd {
      LookupAt(t, op, 0);
    } else if op == OpSubtract {
      LookupAt(t, op, 1);
    } else if op == OpMultiply {
      LookupAt(t, op, 2);
    } else if op == OpDivide {
      LookupAt(t, op, 3);
    } else {
      LookupMissing(t, op);
    }
  }

  /** hr_ir_create_inverse: the cell with the inverse opcode and the same arguments,
      or NULL for an irreversible cell or an opcode outside the table. */
  function CreateInverse(c: Option<Cell>): (r: Option<Cell>)
    ensures r.Some? <==> c.Some? && c.value.isReversible && InverseOpcode(c.value.opcode).Some?
    ensures r.Some? ==> r.value.opcode == InverseOpcode(c.value.opcode).value
    ensures r.Some? ==> ArgList(r.value) == ArgList(c.value) && r.value.inverse.None? && r.value.isReversible
  {
    if c.None? || !c.value.isReversible then None
    else match InverseOpcode(c.value.opcode)
      case None => None
      case Some(op) => CreateCell(Some(op), ArgList(c.value))
  }

  /** The inverse table pairs add with subtract and multiply with divide. */
  lemma InverseOpcodeInvolutive(op: string)
    requires InverseOpcode(op).Some?
    ensures InverseOpcode(InverseOpcode(op).value) == Some(op)
    ensures InverseOpcode(op).value != op
  {
    InverseOpcodeTable(op);
    InverseOpcodeTable(InverseOpcode(op).value);
  }

  /** Inverting an inverse gives back the original operation and arguments. */
  lemma InverseOfInverse(c: Cell)
    requires c.isReversible && InverseOpcode(c.opcode).Some?
    ensures CreateInverse(CreateInverse(Some(c))).Some?
    ensures CreateInverse(CreateInverse(Some(c))).value.opcode == c.opcode
    ensures ArgList(CreateInverse(CreateInverse(Some(c))).value) == ArgList(c)
  {
    InverseOpcodeInvolutive(c.opcode);
  }

  /** hr_ir_from_send_operation: the selectors add, subtract, multiply, divide and
      output (as print) become cells; any other selector or a NULL target or
      selector gives NULL. */
  function FromSendOperation(target: Option<string>, selector: Option<string>, args: seq<Option<string>>): Option<Cell> {
    if target.None? || selector.None? then None
    else match Lookup([("add", "add"), ("subtract", "subtract"), ("multiply", "multiply"), ("divide", "divide"), ("output", "print")], selector.value)
      case None => None
      case Some(op) => CreateCell(Some(op), args)
  }

  /** What hr_ir_from_send_operation accepts and the cell it builds. */
  lemma FromSendOperationSpec(target: Option<string>, selector: Option<string>, args: seq<Option<string>>)
    ensures var r := FromSendOperation(target, selector, args);
      r.Some? <==> target.Some? && selector.Some? && selector.value in {OpAdd, OpSubtract, OpMultiply, OpDivide, "output"}
    ensures var r := FromSendOperation(target, selector, args);
      r.Some? ==> r.value.opcode == (if selector.value == "output" then OpPrint else selector.value)
    ensures var r := FromSendOperation(target, selector, args);
      r.Some? ==> r.value == CreateCell(Some(r.value.opcode), args).value
  {
    if target.Some? && selector.Some? {
      var sel := selector.value;
      var t := [("add", "add"), ("subtract", "subtract"), ("multiply", "multiply"), ("divide", "divide"), ("output", "print")];
      if sel == OpAdd {
        LookupAt(t, sel, 0);
      } else if sel == OpSubtract {
        LookupAt(t, sel, 1);
      } else if sel == OpMultiply {
        LookupAt(t, sel, 2);
      } else if sel == OpDivide {
        LookupAt(t, sel, 3);
      } else if sel == "output" {
        LookupAt(t, sel, 4);
      } else {
        LookupMissing(t, sel);
      }
    }
  }

  /** hr_ir_from_d_term_operation: the same cell as hr_ir_create_cell, irreversible. */
  function FromDTermOperation(operation: Option<string>, args: seq<Option<string>>): (r: Option<Cell>)
    ensures r.Some? <==> operation.Some?
    ensures r.Some? ==> !r.value.isReversible
    ensures r.Some? ==> r.value.(isReversible := true) == CreateCell(operation, args).value
  {
    match CreateCell(operation, args)
    case None => None
    case Some(c) => Some(c.(isReversible := false))
  }

  /** A d-term cell never receives an inverse. */
  lemma DTermHasNoInverse(operation: string, args: seq<Option<string>>)
    ensures CreateInverse(FromDTermOperation(Some(operation), args)).None?
  {
  }

  // ---------------------------------------------------------------------------
  // What adding, stepping and undoing do to one cell
  // ---------------------------------------------------------------------------

  /** The cell as hr_ir_add_cell stores it: the given id, and a derived inverse
      when it is reversible and has none (that inverse gets no inverse of its own). */
  function Attach(c: Cell, id: nat): (r: Cell)
    ensures r.id == id && r.opcode == c.opcode && r.args == c.args
    ensures r.isReversible == c.isReversible && r.executed == c.executed && r.result == c.result
    ensures c.inverse.Some? ==> r.inverse == c.inverse
    ensures c.inverse.None? ==> r.inverse == CreateInverse(Some(c))
    ensures r.inverse.Some? && c.inverse.None? ==> r.inverse.value.inverse.None?
  {
    var c1 := c.(id := id);
    if c1.isReversible && c1.inverse.None? then c1.(inverse := CreateInverse(Some(c1))) else c1
  }

  function MarkExecuted(c: Cell): Cell {
    c.(executed := true, result := Some(StepResult))
  }

  function Unmark(c: Cell): Cell {
    c.(executed := false, result := None)
  }

  /** Cells lo..hi-1 marked executed, the others as they were. */
  function MarkRange(cells: seq<Cell>, lo: nat, hi: nat): (r: seq<Cell>)
    ensures |r| == |cells|
  {
    seq(|cells|, i requires 0 <= i < |cells| => if lo <= i < hi then MarkExecuted(cells[i]) else cells[i])
  }

  /** Cells lo..hi-1 unmarked, the others as they were. */
  function UnmarkRange(cells: seq<Cell>, lo: nat, hi: nat): (r: seq<Cell>)
    ensures |r| == |cells|
  {
    seq(|cells|, i requires 0 <= i < |cells| => if lo <= i < hi then Unmark(cells[i]) else cells[i])
  }

  /** The execution invariant: exactly the cells before the program counter have run. */
  ghost predicate ExecutedPrefix(cells: seq<Cell>, pc: nat) {
    pc <= |cells| && forall i :: 0 <= i < |cells| ==> (cells[i].executed <==> i < pc)
  }

  ghost predicate Pristine(c: Cell) {
    !c.executed && c.result.None?
  }

  lemma StepKeepsPrefix(cells: seq<Cell>, pc: nat)
    requires ExecutedPrefix(cells, pc) && pc < |cells|
    ensures ExecutedPrefix(cells[pc := MarkExecuted(cells[pc])], pc + 1)
  {
  }

  lemma UndoKeepsPrefix(cells: seq<Cell>, pc: nat)
    requires ExecutedPrefix(cells, pc) && 0 < pc
    ensures ExecutedPrefix(cells[pc - 1 := Unmark(cells[pc - 1])], pc - 1)
  {
  }

  lemma RunEstablishesPrefix(cells: seq<Cell>, pc: nat)
    requires ExecutedPrefix(cells, pc)
    ensures ExecutedPrefix(MarkRange(cells, pc, |cells|), |cells|)
  {
  }

  lemma RollbackKeepsPrefix(cells: seq<Cell>, cp: nat, pc: nat)
    requires ExecutedPrefix(cells, pc) && cp < pc
    ensures ExecutedPrefix(UnmarkRange(cells, cp, pc), cp)
  {
  }

  /** Undoing a step restores a cell that had not run before. */
  lemma StepThenUndo(cells: seq<Cell>, pc: nat)
    requires pc < |cells| && Pristine(cells[pc])
    ensures var s := cells[pc := MarkExecuted(cells[pc])]; s[pc := Unmark(s[pc])] == cells
  {
    var s := cells[pc := MarkExecuted(cells[pc])];
    assert Unmark(s[pc]) == cells[pc];
  }

  // ---------------------------------------------------------------------------
  // Statistics
  // ---------------------------------------------------------------------------

  datatype Stats = Stats(totalCells: nat, rTermCells: nat, dTermCells: nat, executedCells: nat)

  function CountReversible(cells: seq<Cell>): (n: nat)
    ensures n <= |cells|
  {
    if |cells| == 0 then 0
    else CountReversible(cells[..|cells| - 1]) + (if cells[|cells| - 1].isReversible then 1 else 0)
  }

  function CountExecuted(cells: seq<Cell>): (n: nat)
    ensures n <= |cells|
  {
    if |cells| == 0 then 0
    else CountExecuted(cells[..|cells| - 1]) + (if cells[|cells| - 1].executed then 1 else 0)
  }

  /** hr_ir_get_stats: every cell is counted once, as r-term or as d-term. */
  function GetStats(cells: seq<Cell>): (r: Stats)
    ensures r.totalCells == |cells| && r.rTermCells + r.dTermCells == r.totalCells
    ensures r.executedCells <= r.totalCells
  {
    var rt := CountReversible(cells);
    Stats(|cells|, rt, |cells| - rt, CountExecuted(cells))
  }

  /** Under the execution invariant the executed count is the program counter. */
  lemma {:induction false} ExecutedCountIsPc(cells: seq<Cell>, pc: nat)
    requires ExecutedPrefix(cells, pc)
    ensures GetStats(cells).executedCells == pc
    decreases |cells|
  {
    if |cells| > 0 {
      var init := cells[..|cells| - 1];
      if pc == |cells| {
        assert ExecutedPrefix(init, pc - 1);
        ExecutedCountIsPc(init, pc - 1);
      } else {
        assert ExecutedPrefix(init, pc);
        ExecutedCountIsPc(init, pc);
      }
    }
  }

  // ---------------------------------------------------------------------------
  // Lookup
  // ---------------------------------------------------------------------------

  /** The first cell carrying `id`. */
  function FindById(cells: seq<Cell>, id: nat): (r: Option<Cell>)
    ensures r.Some? ==> exists i :: 0 <= i < |cells| && cells[i] == r.value && r.value.id == id
    ensures r.None? ==> forall i :: 0 <= i < |cells| ==> cells[i].id != id
  {
    if |cells| == 0 then None
    else if cells[0].id == id then Some(cells[0])
    else
      var r := FindById(cells[1..], id);
      assert r.Some? ==> exists i :: 0 <= i < |cells| && cells[i] == r.value by {
        if r.Some? {
          var i :| 0 <= i < |cells[1..]| && cells[1..][i] == r.value;
          assert cells[i + 1] == r.value;
        }
      }
      r
  }

  ghost predicate StrictlyIncreasingIds(cells: seq<Cell>) {
    forall i, j :: 0 <= i < j < |cells| ==> cells[i].id < cells[j].id
  }

  /** With strictly increasing ids a lookup by id finds exactly the cell that carries it. */
  lemma {:induction false} FindByIdUnique(cells: seq<Cell>, k: nat)
    requires StrictlyIncreasingIds(cells) && k < |cells|
    ensures FindById(cells, cells[k].id) == Some(cells[k])
  {
    if k > 0 {
      assert cells[0].id < cells[k].id;
      assert StrictlyIncreasingIds(cells[1..]);
      FindByIdUnique(cells[1..], k - 1);
    }
  }

  // ---------------------------------------------------------------------------
  // The program
  // ---------------------------------------------------------------------------

  /** HRIR_Program: the cell array, the program counter and the next id to assign. */
  class Program {
    var cells: seq<Cell>
    var pc: nat
    var nextId: nat

    ghost predicate Valid()
      reads this
    {
      pc <= |cells| && 1 <= nextId &&
      StrictlyIncreasingIds(cells) &&
      (forall i :: 0 <= i < |cells| ==> 1 <= cells[i].id < nextId)
    }

    /** hr_ir_create_program: empty, counter at 0, first id 1. */
    constructor ()
      ensures Valid() && cells == [] && pc == 0 && nextId == 1
    {
      cells, pc, nextId := [], 0, 1;
    }

    /** hr_ir_add_cell: NULL is refused; otherwise the cell gets the next id and is
        appended, with a derived inverse attached when it is reversible and has none. */
    method AddCell(cell: Option<Cell>) returns (ok: bool)
      requires Valid()
      modifies this
      ensures Valid() && pc == old(pc)
      ensures ok == cell.Some?
      ensures ok ==> cells == old(cells) + [Attach(cell.value, old(nextId))] && nextId == old(nextId) + 1
      ensures !ok ==> cells == old(cells) && nextId == old(nextId)
    {
      if cell.None? {
        return false;
      }
      var c := cell.value.(id := nextId);
      nextId := nextId + 1;
      if c.isReversible && c.inverse.None? {
        var inv := CreateInverse(Some(c));
        if inv.Some? {
          c := c.(inverse := inv);
        }
      }
      cells := cells + [c];
      ok := true;
    }

    /** hr_ir_get_cell: the index-th appended cell, NULL past the end. */
    function GetCell(index: nat): (r: Option<Cell>)
      reads this
      ensures r.Some? <==> index < |cells|
      ensures r.Some? ==> r.value == cells[index]
    {
      if index < |cells| then Some(cells[index]) else None
    }

    /** hr_ir_get_cell_by_id: the first cell with that id, NULL if none. */
    function GetCellById(id: nat): (r: Option<Cell>)
      reads this
      ensures r.None? <==> forall i :: 0 <= i < |cells| ==> cells[i].id != id
      ensures Valid() ==> forall i :: 0 <= i < |cells| && cells[i].id == id ==> r == Some(cells[i])
    {
      var r := FindById(cells, id);
      assert Valid() ==> forall i :: 0 <= i < |cells| && cells[i].id == id ==> r == Some(cells[i]) by {
        if Valid() {
          forall i | 0 <= i < |cells| && cells[i].id == id ensures r == Some(cells[i]) {
            FindByIdUnique(cells, i);
          }
        }
      }
      r
    }
  }

  // ---------------------------------------------------------------------------
  // The runtime
  // ---------------------------------------------------------------------------

  /** HRIR_Runtime. The program counter lives in the program; the runtime keeps the
      checkpoint slot and the step and rollback counters. */
  class Runtime {
    var program: Program
    var checkpoint: nat
    var stepsExecuted: int
    var rollbacks: nat

    /** hr_ir_create_runtime. */
    constructor (p: Program)
      ensures program == p && checkpoint == 0 && stepsExecuted == 0 && rollbacks == 0
    {
      program, checkpoint, stepsExecuted, rollbacks := p, 0, 0, 0;
    }

    /** hr_ir_is_complete. */
    function IsComplete(): (b: bool)
      reads this, program
      ensures b <==> program.pc >= |program.cells|
    {
      program.pc >= |program.cells|
    }

    /** hr_ir_step: fails with nothing changed when the program is complete; otherwise
        marks the cell at pc executed with the placeholder result and advances. */
    method Step() returns (ok: bool)
      requires program.Valid()
      modifies this, program
      ensures program == old(program) && program.Valid()
      ensures checkpoint == old(checkpoint) && rollbacks == old(rollbacks) && program.nextId == old(program.nextId)
      ensures ok == (old(program.pc) < |old(program.cells)|)
      ensures ok ==> program.pc == old(program.pc) + 1 && stepsExecuted == old(stepsExecuted) + 1
      ensures ok ==> program.cells == old(program.cells)[old(program.pc) := MarkExecuted(old(program.cells)[old(program.pc)])]
      ensures !ok ==> program.pc == old(program.pc) && program.cells == old(program.cells) && stepsExecuted == old(stepsExecuted)
    {
      if program.pc >= |program.cells| {
        return false;
      }
      program.cells := program.cells[program.pc := MarkExecuted(program.cells[program.pc])];
      stepsExecuted := stepsExecuted + 1;
      program.pc := program.pc + 1;
      ok := true;
    }

    /** hr_ir_run: steps until a step fails, which leaves the program complete. */
    method Run() returns (ok: bool)
      requires program.Valid()
      modifies this, program
      ensures program == old(program) && program.Valid()
      ensures checkpoint == old(checkpoint) && rollbacks == old(rollbacks) && program.nextId == old(program.nextId)
      ensures ok && program.pc == |program.cells|
      ensures program.cells == MarkRange(old(program.cells), old(program.pc), |old(program.cells)|)
      ensures stepsExecuted == old(stepsExecuted) + (|program.cells| - old(program.pc))
    {
      var more := true;
      while more
        invariant program == old(program) && program.Valid()
        invariant checkpoint == old(checkpoint) && rollbacks == old(rollbacks) && program.nextId == old(program.nextId)
        invariant old(program.pc) <= program.pc
        invariant !more ==> program.pc == |program.cells|
        invariant program.cells == MarkRange(old(program.cells), old(program.pc), program.pc)
        invariant stepsExecuted == old(stepsExecuted) + (program.pc - old(program.pc))
        decreases |program.cells| - program.pc, more
      {
        ghost var before := program.cells;
        more := Step();
        if more {
          assert program.cells == MarkRange(old(program.cells), old(program.pc), program.pc) by {
            assert forall i :: 0 <= i < |program.cells| ==> program.cells[i] == MarkRange(old(program.cells), old(program.pc), program.pc)[i];
          }
        }
      }
      ok := IsComplete();
    }

    /** hr_ir_undo: fails at pc 0; otherwise moves pc back and clears that cell. */
    method Undo() returns (ok: bool)
      requires program.Valid()
      modifies this, program
      ensures program == old(program) && program.Valid()
      ensures checkpoint == old(checkpoint) && program.nextId == old(program.nextId)
      ensures ok == (old(program.pc) > 0)
      ensures ok ==> program.pc == old(program.pc) - 1
      ensures ok ==> program.cells == old(program.cells)[program.pc := Unmark(old(program.cells)[program.pc])]
      ensures ok ==> stepsExecuted == old(stepsExecuted) - 1 && rollbacks == old(rollbacks) + 1
      ensures !ok ==> program.pc == old(program.pc) && program.cells == old(program.cells)
      ensures !ok ==> stepsExecuted == old(stepsExecuted) && rollbacks == old(rollbacks)
    {
      if program.pc == 0 {
        return false;
      }
      program.pc := program.pc - 1;
      program.cells := program.cells[program.pc := Unmark(program.cells[program.pc])];
      stepsExecuted := stepsExecuted - 1;
      rollbacks := rollbacks + 1;
      ok := true;
    }

    /** hr_ir_checkpoint: the slot takes the current pc. */
    method Checkpoint() returns (ok: bool)
      modifies this
      ensures ok && checkpoint == program.pc
      ensures program == old(program) && stepsExecuted == old(stepsExecuted) && rollbacks == old(rollbacks)
    {
      checkpoint := program.pc;
      ok := true;
    }

    /** hr_ir_rollback: undoes until pc is back at the checkpoint; a no-op when pc is
        already at or before it. It always succeeds. */
    method Rollback() returns (ok: bool)
      requires program.Valid()
      modifies this, program
      ensures program == old(program) && program.Valid() && ok
      ensures checkpoint == old(checkpoint) && program.nextId == old(program.nextId)
      ensures old(program.pc) <= checkpoint ==>
        program.pc == old(program.pc) && program.cells == old(program.cells) &&
        stepsExecuted == old(stepsExecuted) && rollbacks == old(rollbacks)
      ensures old(program.pc) > checkpoint ==>
        program.pc == checkpoint &&
        program.cells == UnmarkRange(old(program.cells), checkpoint, old(program.pc)) &&
        stepsExecuted == old(stepsExecuted) - (old(program.pc) - checkpoint) &&
        rollbacks == old(rollbacks) + (old(program.pc) - checkpoint)
    {
      ghost var top := program.pc;
      while program.pc > checkpoint
        invariant program == old(program) && program.Valid()
        invariant checkpoint == old(checkpoint) && program.nextId == old(program.nextId)
        invariant top <= checkpoint ==> program.pc == top
        invariant top > checkpoint ==> checkpoint <= program.pc <= top
        invariant program.cells == UnmarkRange(old(program.cells), program.pc, top)
        invariant stepsExecuted == old(stepsExecuted) - (top - program.pc)
        invariant rollbacks == old(rollbacks) + (top - program.pc)
        decreases program.pc
      {
        var undone := Undo();
        if !undone {
          return false;
        }
        assert program.cells == UnmarkRange(old(program.cells), program.pc, top) by {
          assert forall i :: 0 <= i < |program.cells| ==> program.cells[i] == UnmarkRange(old(program.cells), program.pc, top)[i];
        }
      }
      ok := true;
    }
  }
}
