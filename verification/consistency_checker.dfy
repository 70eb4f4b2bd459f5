// The consistency checker over HRIR programs: an internal validation scan,
// a step/undo/redo drive comparing d-term cells with expected side effects,
// and the three-test suite built from them.

module ConsistencyChecker {
  import opened CStrings
  import opened HrIr

  datatype ConsistencyResult = ConsistencyResult(
    isConsistent: bool,
    errorMessage: Option<string>,
    operationsChecked: nat,
    sideEffectsVerified: nat)

  /** An L0 side effect a d-term cell is expected to produce. */
  datatype ExpectedSideEffect = ExpectedSideEffect(operation: string, args: seq<Option<string>>, shouldSucceed: bool)

  const Passing := ConsistencyResult(true, None, 0, 0)

  function Fail(acc: ConsistencyResult, msg: string): ConsistencyResult {
    acc.(isConsistent := false, errorMessage := Some(msg))
  }

  // ---------------------------------------------------------------------------
  // validate_hrir_consistency
  // ---------------------------------------------------------------------------

  predicate DuplicateId(cells: seq<Cell>, i: nat)
    requires i < |cells|
  {
    exists j :: 0 <= j < |cells| && j != i && cells[j].id == cells[i].id
  }

  /** The first check cell i fails, in the order the scan makes them. */
  function CellProblem(cells: seq<Cell>, i: nat): Option<string>
    requires i < |cells|
  {
    if cells[i].args.None? then Some("Missing cell data")
    else if cells[i].isReversible && cells[i].inverse.None? then Some("Reversible cell missing inverse")
    else if DuplicateId(cells, i) then Some("Duplicate cell ID")
    else None
  }

  /** The scan from cell i on: it stops at the first cell with a problem. */
  function ValidateFrom(cells: seq<Cell>, i: nat): (r: ConsistencyResult)
    requires i <= |cells|
    decreases |cells| - i
    ensures r.isConsistent <==> forall k :: i <= k < |cells| ==> CellProblem(cells, k).None?
    ensures !r.isConsistent ==> exists k :: (i <= k < |cells| && CellProblem(cells, k).Some? &&
      r.operationsChecked == k + 1 && r.errorMessage == CellProblem(cells, k) &&
      forall m :: i <= m < k ==> CellProblem(cells, m).None?)
    ensures r.isConsistent ==> r.errorMessage.None? && r.operationsChecked == |cells|
  {
    // the closing "Statistics mismatch" check compares the cell count with
    // itself (GetStats), so it never fires
    if i == |cells| then Passing.(operationsChecked := |cells|)
    else match CellProblem(cells, i)
      case Some(msg) => Fail(Passing.(operationsChecked := i + 1), msg)
      case None => ValidateFrom(cells, i + 1)
  }

  /** validate_hrir_consistency: a NULL program is "Invalid program"; otherwise the scan. */
  function Validate(program: Program?): (r: ConsistencyResult)
    reads program
    ensures program == null ==> !r.isConsistent && r.errorMessage == Some("Invalid program")
    ensures program != null ==> (r.isConsistent <==> forall k :: 0 <= k < |program.cells| ==> CellProblem(program.cells, k).None?)
  {
    if program == null then Fail(Passing, "Invalid program") else ValidateFrom(program.cells, 0)
  }

  /** An empty program is consistent. */
  lemma EmptyIsConsistent()
    ensures ValidateFrom([], 0) == ConsistencyResult(true, None, 0, 0)
  {
  }

  /** A cell without an argument array (every cell created with no arguments) fails. */
  lemma ZeroArgumentCellFails(cells: seq<Cell>, k: nat)
    requires k < |cells| && cells[k].args.None?
    ensures !ValidateFrom(cells, 0).isConsistent
  {
    assert CellProblem(cells, k) == Some("Missing cell data");
  }

  /** hr_ir_create_cell leaves the argument array NULL when there are no arguments. */
  lemma CreatedWithoutArgumentsHasNoArray(opcode: string)
    ensures CreateCell(Some(opcode), []).value.args.None?
  {
  }

  /** Ids handed out by hr_ir_add_cell never collide. */
  lemma AddedCellsHaveNoDuplicate(p: Program, k: nat)
    requires p.Valid() && k < |p.cells|
    ensures !DuplicateId(p.cells, k)
  {
  }

  /** A reversible cell whose opcode has no inverse gets none from hr_ir_add_cell,
      so the validation fails on it. */
  lemma ReversibleOutsideTableFails(cells: seq<Cell>, c: Cell, id: nat)
    requires c.isReversible && c.inverse.None? && InverseOpcode(c.opcode).None?
    ensures var s := cells + [Attach(c, id)]; !ValidateFrom(s, 0).isConsistent
  {
    var s := cells + [Attach(c, id)];
    assert CellProblem(s, |cells|).Some?;
  }

  // ---------------------------------------------------------------------------
  // check_l1_l0_consistency
  // ---------------------------------------------------------------------------

  /** One cell of the drive, with the program counter at pc in a program of n
      cells and the next expected effect at e: a reversible cell is stepped,
      undone and stepped again; a d-term cell is stepped and, while effects
      remain, compared with the next one. The result is the updated counts, the
      new program counter and the new effect index. */
  function CheckCell(c: Cell, effects: seq<ExpectedSideEffect>, n: nat, pc: nat, e: nat, acc: ConsistencyResult): (ConsistencyResult, nat, nat)
  {
    var acc1 := acc.(operationsChecked := acc.operationsChecked + 1);
    var stepOk := pc < n;
    var pc1 := if stepOk then pc + 1 else pc;
    if c.isReversible then
      // after a successful step the undo finds pc > 0 and the redo finds a
      // cell to run, so "R-term undo failed" and "R-term redo failed" cannot arise
      if !stepOk then (Fail(acc1, "R-term operation failed"), pc1, e)
      else (acc1, pc1, e)
    else if e < |effects| then
      if c.opcode == effects[e].operation then
        var acc2 := acc1.(sideEffectsVerified := acc1.sideEffectsVerified + 1);
        if stepOk != effects[e].shouldSucceed then (Fail(acc2, "D-term side effect mismatch"), pc1, e + 1)
        else (acc2, pc1, e + 1)
      else (acc1, pc1, e + 1)
    else (acc1, pc1, e)
  }

  /** The drive from cell i on; it stops at the first failure, and once every
      cell is visited the program must be complete. */
  function CheckFrom(cells: seq<Cell>, effects: seq<ExpectedSideEffect>, i: nat, pc: nat, e: nat, acc: ConsistencyResult): ConsistencyResult
    decreases |cells| - i
  {
    if i >= |cells| then
      if pc >= |cells| then acc else Fail(acc, "Program did not complete")
    else
      var (acc1, pc1, e1) := CheckCell(cells[i], effects, |cells|, pc, e, acc);
      if !acc1.isConsistent then acc1 else CheckFrom(cells, effects, i + 1, pc1, e1, acc1)
  }

  /** Two cell lists with the same opcodes and kinds, position by position. */
  ghost predicate SameShape(a: seq<Cell>, b: seq<Cell>) {
    |a| == |b| && forall k :: 0 <= k < |a| ==> a[k].opcode == b[k].opcode && a[k].isReversible == b[k].isReversible
  }

  /** The number of d-term cells before index k: the index of the effect the
      cell at k is compared with. */
  function DTermsBefore(cells: seq<Cell>, k: nat): (n: nat)
    requires k <= |cells|
    ensures n <= k
  {
    if k == 0 then 0 else DTermsBefore(cells, k - 1) + (if cells[k - 1].isReversible then 0 else 1)
  }

  /** Cell k is a d-term cell whose expected effect names its opcode but expects failure. */
  predicate Mismatch(cells: seq<Cell>, effects: seq<ExpectedSideEffect>, k: nat)
    requires k < |cells|
  {
    var d := DTermsBefore(cells, k);
    !cells[k].isReversible && d < |effects| && cells[k].opcode == effects[d].operation && !effects[d].shouldSucceed
  }

  /** Cell k is a d-term cell whose expected effect names its opcode. */
  predicate Matches(cells: seq<Cell>, effects: seq<ExpectedSideEffect>, k: nat)
    requires k < |cells|
  {
    var d := DTermsBefore(cells, k);
    !cells[k].isReversible && d < |effects| && cells[k].opcode == effects[d].operation
  }

  function CountMatches(cells: seq<Cell>, effects: seq<ExpectedSideEffect>, k: nat): nat
    requires k <= |cells|
  {
    if k == 0 then 0 else CountMatches(cells, effects, k - 1) + (if Matches(cells, effects, k - 1) then 1 else 0)
  }

  /** The effect index the drive has reached at cell k: it stops advancing once
      the expected effects run out. */
  function EffectIndex(cells: seq<Cell>, effects: seq<ExpectedSideEffect>, k: nat): nat
    requires k <= |cells|
  {
    var d := DTermsBefore(cells, k);
    if d < |effects| then d else |effects|
  }

  /** Started with the counter in step with the scan, every step succeeds, so the
      drive fails exactly on a d-term cell whose expected effect says it should fail. */
  lemma {:induction false} CheckFromInStep(cells: seq<Cell>, effects: seq<ExpectedSideEffect>, i: nat, acc: ConsistencyResult)
    requires i <= |cells| && acc.isConsistent
    requires acc.operationsChecked == i && acc.sideEffectsVerified == CountMatches(cells, effects, i)
    decreases |cells| - i
    ensures var r := CheckFrom(cells, effects, i, i, EffectIndex(cells, effects, i), acc);
      (r.isConsistent <==> forall k :: i <= k < |cells| ==> !Mismatch(cells, effects, k)) &&
      (r.isConsistent ==> r.operationsChecked == |cells| && r.sideEffectsVerified == CountMatches(cells, effects, |cells|)) &&
      (!r.isConsistent ==> r.errorMessage == Some("D-term side effect mismatch"))
  {
    if i < |cells| {
      var d := DTermsBefore(cells, i);
      var e := EffectIndex(cells, effects, i);
      var r := CheckFrom(cells, effects, i, i, e, acc);
      var acc1 := acc.(operationsChecked := acc.operationsChecked + 1);
      assert DTermsBefore(cells, i + 1) == d + (if cells[i].isReversible then 0 else 1);
      assert CountMatches(cells, effects, i + 1) == CountMatches(cells, effects, i) + (if Matches(cells, effects, i) then 1 else 0);
      if cells[i].isReversible {
        assert r == CheckFrom(cells, effects, i + 1, i + 1, e, acc1);
        CheckFromInStep(cells, effects, i + 1, acc1);
      } else if d < |effects| && cells[i].opcode == effects[d].operation {
        var acc2 := acc1.(sideEffectsVerified := acc1.sideEffectsVerified + 1);
        if effects[d].shouldSucceed {
          assert r == CheckFrom(cells, effects, i + 1, i + 1, d + 1, acc2);
          CheckFromInStep(cells, effects, i + 1, acc2);
        } else {
          assert Mismatch(cells, effects, i);
        }
      } else if d < |effects| {
        assert r == CheckFrom(cells, effects, i + 1, i + 1, d + 1, acc1);
        CheckFromInStep(cells, effects, i + 1, acc1);
      } else {
        assert r == CheckFrom(cells, effects, i + 1, i + 1, e, acc1);
        CheckFromInStep(cells, effects, i + 1, acc1);
      }
    }
  }

  /** From a fresh program counter the undo and redo of a reversible cell never
      fail and the run always completes: the only possible failure is a d-term
      mismatch, and it happens exactly when some expected effect expects failure. */
  lemma CheckFromStart(cells: seq<Cell>, effects: seq<ExpectedSideEffect>)
    ensures var r := CheckFrom(cells, effects, 0, 0, 0, Passing);
      (r.isConsistent <==> forall k :: 0 <= k < |cells| ==> !Mismatch(cells, effects, k)) &&
      (r.isConsistent ==> r.operationsChecked == |cells| && r.sideEffectsVerified == CountMatches(cells, effects, |cells|)) &&
      (!r.isConsistent ==> r.errorMessage == Some("D-term side effect mismatch"))
  {
    CheckFromInStep(cells, effects, 0, Passing);
  }

  /** check_l1_l0_consistency: drives a fresh runtime over the program. NULL
      arguments are "Invalid parameters". */
  method CheckL1L0(program: Program?, effects: Option<seq<ExpectedSideEffect>>) returns (r: ConsistencyResult)
    requires program != null ==> program.Valid()
    modifies program
    ensures program == null || effects.None? ==> r == Fail(Passing, "Invalid parameters")
    ensures program != null && effects.Some? ==>
      r == CheckFrom(old(program.cells), effects.value, 0, old(program.pc), 0, Passing)
    ensures program != null && effects.Some? && r.isConsistent ==> program.pc >= |program.cells|
  {
    if program == null || effects.None? {
      return Fail(Passing, "Invalid parameters");
    }
    var effs := effects.value;
    var rt := new Runtime(program);
    ghost var cells0 := program.cells;
    ghost var spec := CheckFrom(cells0, effs, 0, program.pc, 0, Passing);
    r := Passing;
    var i, effectIndex := 0, 0;
    while i < |program.cells| && r.isConsistent
      invariant rt.program == program && program.Valid()
      invariant SameShape(program.cells, cells0) && i <= |cells0|
      invariant r.isConsistent ==> CheckFrom(cells0, effs, i, program.pc, effectIndex, r) == spec
      invariant !r.isConsistent ==> r == spec
      decreases |cells0| - i
    {
      var cell := program.GetCell(i).value;
      r, effectIndex := DriveCell(rt, cell, effs, effectIndex, r);
      i := i + 1;
    }
    if r.isConsistent && !rt.IsComplete() {
      r := Fail(r, "Program did not complete");
    }
  }

  /** The body of the check_l1_l0_consistency loop for one cell. */
  method DriveCell(rt: Runtime, cell: Cell, effs: seq<ExpectedSideEffect>, e: nat, acc: ConsistencyResult)
    returns (r: ConsistencyResult, e': nat)
    requires rt.program.Valid()
    modifies rt, rt.program
    ensures rt.program == old(rt.program) && rt.program.Valid()
    ensures SameShape(rt.program.cells, old(rt.program.cells))
    ensures (r, rt.program.pc, e') == CheckCell(cell, effs, |old(rt.program.cells)|, old(rt.program.pc), e, acc)
  {
    r, e' := acc.(operationsChecked := acc.operationsChecked + 1), e;
    var stepOk := rt.Step();
    if cell.isReversible {
      if !stepOk {
        r := Fail(r, "R-term operation failed");
      } else {
        var undoOk := rt.Undo();
        if !undoOk {
          r := Fail(r, "R-term undo failed");
        } else {
          var redoOk := rt.Step();
          if !redoOk {
            r := Fail(r, "R-term redo failed");
          }
        }
      }
    } else if e < |effs| {
      if cell.opcode == effs[e].operation {
        r := r.(sideEffectsVerified := r.sideEffectsVerified + 1);
        if stepOk != effs[e].shouldSucceed {
          r := Fail(r, "D-term side effect mismatch");
        }
      }
      e' := e + 1;
    }
  }

  // ---------------------------------------------------------------------------
  // run_consistency_suite
  // ---------------------------------------------------------------------------

  /** run_consistency_suite: the given program, an empty program and an
      add/multiply program are validated; 0 means all three passed. The two
      built-in programs always pass, so the verdict is the given program's. */
  method RunSuite(program: Program?) returns (status: int)
    ensures status == 0 <==> Validate(program).isConsistent
    ensures status == 0 || status == 1
  {
    var passed, total := 0, 0;

    total := total + 1;
    var internal := Validate(program);
    if internal.isConsistent { passed := passed + 1; }

    total := total + 1;
    var empty := new Program();
    var emptyResult := Validate(empty);
    if emptyResult.isConsistent { passed := passed + 1; }

    total := total + 1;
    var rTerm := new Program();
    var addCell := CreateCell(Some("add"), [Some("5"), Some("3")]);
    var mulCell := CreateCell(Some("multiply"), [Some("result"), Some("2")]);
    var _ := rTerm.AddCell(addCell);
    var _ := rTerm.AddCell(mulCell);
    assert forall k :: 0 <= k < |rTerm.cells| ==> CellProblem(rTerm.cells, k).None? by {
      forall k | 0 <= k < |rTerm.cells| ensures CellProblem(rTerm.cells, k).None? {
        AddedCellsHaveNoDuplicate(rTerm, k);
      }
    }
    var rTermResult := Validate(rTerm);
    if rTermResult.isConsistent { passed := passed + 1; }

    status := if passed == total then 0 else 1;
  }
}
