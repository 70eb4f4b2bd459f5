// L5 Moop: a program of natural-language statements (inheritance, message
// send, output), each optionally backed by an HRIR cell, executed with a
// LIFO history that supports undo(n) and rollback to a named checkpoint.

module L5Moop {
  import opened CStrings
  import H = HrIr

  // ---------------------------------------------------------------------------
  // Statements
  // ---------------------------------------------------------------------------

  datatype StatementType = Inheritance | MessageSend | Output | Unknown

  /** l5_parse_statement_type: " <- " is checked first, then " -> ", then "output " anywhere. */
  function TypeOf(text: string): (t: StatementType)
    ensures t == Inheritance <==> Contains(text, " <- ")
    ensures t == MessageSend <==> !Contains(text, " <- ") && Contains(text, " -> ")
    ensures t == Output <==> !Contains(text, " <- ") && !Contains(text, " -> ") && Contains(text, "output ")
  {
    if Contains(text, " <- ") then Inheritance
    else if Contains(text, " -> ") then MessageSend
    else if Contains(text, "output ") then Output
    else Unknown
  }

  datatype StatementData =
    | InheritanceData(child: string, parent: string)
    | SendData(target: string, selector: string)
    | OutputData(content: string)
    | NoData

  /** L5_Statement. `cell` is the index, in the program's HRIR cell array, of the
      cell the statement points at (the C code shares the cell by pointer). */
  datatype Statement = Statement(
    id: nat,
    text: string,
    kind: StatementType,
    isReversible: bool,
    executed: bool,
    data: StatementData,
    cell: Option<nat>)

  /** The selector of a message part: the text before its first '(' if any. */
  function Selector(message: string): string {
    match IndexOfChar(message, '(')
    case None => message
    case Some(p) => message[..p]
  }

  /** An output's content: a leading '"' is dropped and the text ends before the
      last remaining '"', if there is one. */
  function Unquoted(content: string): string {
    if |content| > 0 && content[0] == '"' then
      var c := content[1..];
      match LastIndexOfChar(c, '"')
      case None => c
      case Some(e) => c[..e]
    else content
  }

  function DataOf(text: string): StatementData {
    match TypeOf(text)
    case Inheritance => InheritanceData(Before(text, " <- "), After(text, " <- "))
    case MessageSend => SendData(Before(text, " -> "), Selector(After(text, " -> ")))
    case Output => OutputData(Unquoted(After(text, "output ")))
    case Unknown => NoData
  }

  /** The parenthesised branch of l5_parse_statement stores arguments into an
      argument array it never allocates. It does so exactly when a ')' follows
      the '(' and some character other than ',' lies between them. Such texts
      are outside the model. */
  predicate WritesArguments(text: string) {
    TypeOf(text) == MessageSend &&
    var m := After(text, " -> ");
    match IndexOfChar(m, '(')
    case None => false
    case Some(p) =>
      match IndexOfChar(m[p + 1..], ')')
      case None => false
      case Some(q) => exists k :: p + 1 <= k < p + 1 + q && m[k] != ','
  }

  /** The parenthesised branch of l5_parse_statement runs strtok over the
      argument list: a send whose message part has a '(' with a ')' after it.
      The ')' it overwrote with a terminator is never restored, and strtok's
      saved position is left on it. */
  predicate ClosesArguments(text: string) {
    TypeOf(text) == MessageSend &&
    var m := After(text, " -> ");
    match IndexOfChar(m, '(')
    case None => false
    case Some(p) => IndexOfChar(m[p + 1..], ')').Some?
  }

  /** l5_parse_statement: the text classified and split; only an output is
      irreversible; the statement starts unexecuted and without a cell. An
      inheritance is split at its first " <- ", a send at its first " -> " with
      the selector ending at the first '('. */
  function ParseStatement(text: string, id: nat): (s: Statement)
    ensures s.id == id && s.text == text && s.kind == TypeOf(text)
    ensures !s.executed && s.cell.None?
    ensures s.isReversible <==> s.kind != Output
    ensures s.kind == Inheritance ==>
      s.data.InheritanceData? && text == s.data.child + " <- " + s.data.parent && !Contains(s.data.child, " <- ")
    ensures s.kind == MessageSend ==>
      s.data.SendData? && !Contains(s.data.target, " -> ") && '(' !in s.data.selector &&
      exists rest :: text == s.data.target + " -> " + s.data.selector + rest && (rest == [] || rest[0] == '(')
    ensures s.kind == Output ==> s.data.OutputData?
    ensures s.kind == Unknown ==> s.data == NoData
  {
    SplitsAtArrow(text);
    var kind := TypeOf(text);
    Statement(id, text, kind, kind != Output, false, DataOf(text), None)
  }

  lemma SplitsAtArrow(text: string)
    ensures TypeOf(text) == Inheritance ==> text == Before(text, " <- ") + " <- " + After(text, " <- ") && !Contains(Before(text, " <- "), " <- ")
    ensures TypeOf(text) == MessageSend ==>
      var m := After(text, " -> ");
      !Contains(Before(text, " -> "), " -> ") && '(' !in Selector(m) &&
      text == Before(text, " -> ") + " -> " + Selector(m) + m[|Selector(m)|..] &&
      (m[|Selector(m)|..] == [] || m[|Selector(m)|..][0] == '(')
  {
    if TypeOf(text) == Inheritance {
      SplitAtFirst(text, " <- ");
    } else if TypeOf(text) == MessageSend {
      SplitAtFirst(text, " -> ");
      var m := After(text, " -> ");
      var rest := m[|Selector(m)|..];
      assert m == Selector(m) + rest;
    }
  }

  /** A quoted output, free of arrows, is stored without its quotes. */
  lemma OutputUnquotes(c: string)
    requires '"' !in c && '<' !in c && '>' !in c
    ensures ParseStatement("output \"" + c + "\"", 0).data == OutputData(c)
  {
    var t := "output \"" + c + "\"";
    assert forall i :: 0 <= i < |t| ==> t[i] != '<' && t[i] != '>' by {
      forall i | 0 <= i < |t| ensures t[i] != '<' && t[i] != '>' {
        if 8 <= i < 8 + |c| {
          assert t[i] == c[i - 8];
        }
      }
    }
    forall j | 0 <= j ensures !OccursAt(t, " <- ", j) && !OccursAt(t, " -> ", j) {
      if j + 4 <= |t| {
        assert t[j..j + 4][1] == t[j + 1] && t[j..j + 4][2] == t[j + 2];
      }
    }
    assert OccursAt(t, "output ", 0);
    assert After(t, "output ") == "\"" + c + "\"";
    var q := (c + "\"");
    assert ("\"" + c + "\"")[1..] == q;
    assert LastIndexOfChar(q, '"') == Some(|c|);
    assert q[..|c|] == c;
  }

  // ---------------------------------------------------------------------------
  // HRIR cells
  // ---------------------------------------------------------------------------

  const SendSelectors: set<string> := {H.OpAdd, H.OpSubtract, H.OpMultiply, H.OpDivide, "output"}

  /** l5_generate_hrir_cell: a send becomes hr_ir_from_send_operation's cell (none
      for a selector outside its table), an output an irreversible print of its
      content, anything else no cell. */
  function GenerateCell(s: Statement): Option<H.Cell> {
    match s.data
    case SendData(target, selector) => H.FromSendOperation(Some(target), Some(selector), [])
    case OutputData(content) => H.FromDTermOperation(Some(H.OpPrint), [Some(content)])
    case _ => None
  }

  /** A send with a known selector yields a reversible cell with no
      arguments, an output statement an irreversible print of its text, and
      nothing else yields a cell; a new cell has not run. */
  lemma GenerateCellSpec(s: Statement)
    ensures var r := GenerateCell(s);
      (r.Some? <==> (s.data.SendData? && s.data.selector in SendSelectors) || s.data.OutputData?) &&
      (r.Some? && s.data.SendData? ==>
        r.value.isReversible && H.ArgList(r.value) == [] &&
        r.value.opcode == (if s.data.selector == "output" then H.OpPrint else s.data.selector)) &&
      (r.Some? && s.data.OutputData? ==>
        !r.value.isReversible && r.value.opcode == H.OpPrint && H.ArgList(r.value) == [Some(s.data.content)]) &&
      (r.Some? ==> !r.value.executed && r.value.result.None? && r.value.inverse.None?)
  {
    match s.data
    case SendData(target, selector) => H.FromSendOperationSpec(Some(target), Some(selector), []);
    case OutputData(content) =>
    case _ =>
  }

  // ---------------------------------------------------------------------------
  // The program's state
  // ---------------------------------------------------------------------------

  /** The observable state of an L5_MoopProgram: its statements, the cells,
      program counter and next id of its HRIR program, the execution history
      and the checkpoint ids. */
  datatype Moop = Moop(
    statements: seq<Statement>,
    cells: seq<H.Cell>,
    pc: nat,
    nextId: nat,
    history: seq<nat>,
    checkpoints: seq<string>)

  /** Statement i has id i, every cell link is in range and no two statements
      share a cell, and the history holds statement indices. */
  ghost predicate Linked(m: Moop) {
    (forall i :: 0 <= i < |m.statements| ==> m.statements[i].id == i) &&
    (forall i :: 0 <= i < |m.statements| && m.statements[i].cell.Some? ==> m.statements[i].cell.value < |m.cells|) &&
    (forall i, j :: 0 <= i < j < |m.statements| && m.statements[i].cell.Some? ==> m.statements[i].cell != m.statements[j].cell) &&
    (forall k :: 0 <= k < |m.history| ==> m.history[k] < |m.statements|)
  }

  /** The result string l5_execute_program stores in a cell it runs. */
  function Mark(c: H.Cell, now: int): H.Cell {
    c.(executed := true, result := Some("executed_" + c.opcode + "_" + IntToString(now)))
  }

  /** "checkpoint_<count>_<time>". */
  function CheckpointId(count: nat, now: int): string {
    "checkpoint_" + NatToString(count) + "_" + IntToString(now)
  }

  function WithCheckpoint(m: Moop, now: int): Moop {
    m.(checkpoints := m.checkpoints + [CheckpointId(|m.checkpoints|, now)])
  }

  function Indices(n: nat): (r: seq<nat>)
    ensures |r| == n && forall k :: 0 <= k < n ==> r[k] == k
  {
    seq(n, k requires 0 <= k => k)
  }

  /** Some statement before `upTo` points at cell j. */
  predicate Touched(stmts: seq<Statement>, upTo: nat, j: nat) {
    exists k :: 0 <= k < upTo && k < |stmts| && stmts[k].cell == Some(j)
  }

  /** The state after the first i iterations of l5_execute_program's loop:
      statements 0..i-1 executed, the cells they point at marked, and their
      indices pushed on the history in order. */
  function ExecutedUpTo(m: Moop, i: nat, now: int): (r: Moop)
    requires i <= |m.statements|
    ensures |r.statements| == |m.statements| && |r.cells| == |m.cells|
    ensures r.pc == m.pc && r.nextId == m.nextId && r.checkpoints == m.checkpoints
    ensures forall k :: 0 <= k < |m.statements| ==> r.statements[k] == m.statements[k].(executed := k < i || m.statements[k].executed)
    ensures r.history == m.history + Indices(i)
  {
    m.(statements := seq(|m.statements|, k requires 0 <= k < |m.statements| =>
                          if k < i then m.statements[k].(executed := true) else m.statements[k]),
       cells := seq(|m.cells|, j requires 0 <= j < |m.cells| =>
                     if Touched(m.statements, i, j) then Mark(m.cells[j], now) else m.cells[j]),
       history := m.history + Indices(i))
  }

  /** l5_execute_program: one checkpoint, then every statement executed in order. */
  function Executed(m: Moop, now: int): Moop {
    ExecutedUpTo(WithCheckpoint(m, now), |m.statements|, now)
  }

  /** One iteration of l5_undo_program's loop: pop the last history entry,
      unmark that statement and clear its cell. */
  function UndoOne(m: Moop): (r: Moop)
    requires Linked(m) && |m.history| > 0
    ensures Linked(r) && |r.history| == |m.history| - 1
  {
    var k := m.history[|m.history| - 1];
    var s := m.statements[k];
    m.(history := m.history[..|m.history| - 1],
       statements := m.statements[k := s.(executed := false)],
       cells := if s.cell.Some? then m.cells[s.cell.value := H.Unmark(m.cells[s.cell.value])] else m.cells)
  }

  /** At most n iterations, stopping when the history is empty. */
  function UndoSteps(m: Moop, n: nat): (r: Moop)
    requires Linked(m)
    ensures Linked(r)
    decreases n
  {
    if n == 0 || |m.history| == 0 then m else UndoSteps(UndoOne(m), n - 1)
  }

  /** Some statement points at cell j. */
  predicate Linked1(stmts: seq<Statement>, j: nat) {
    Touched(stmts, |stmts|, j)
  }

  /** l5_rollback_program on a known checkpoint: every statement unmarked, every
      cell a statement points at cleared, the history emptied. */
  function RolledBack(m: Moop): (r: Moop)
    ensures |r.statements| == |m.statements| && |r.cells| == |m.cells| && r.history == []
    ensures forall k :: 0 <= k < |m.statements| ==> r.statements[k] == m.statements[k].(executed := false)
    ensures r.checkpoints == m.checkpoints && r.pc == m.pc && r.nextId == m.nextId
  {
    m.(statements := seq(|m.statements|, k requires 0 <= k < |m.statements| => m.statements[k].(executed := false)),
       cells := seq(|m.cells|, j requires 0 <= j < |m.cells| =>
                     if Linked1(m.statements, j) then H.Unmark(m.cells[j]) else m.cells[j]),
       history := [])
  }

  // ---------------------------------------------------------------------------
  // Cell generation
  // ---------------------------------------------------------------------------

  /** The statement-to-cell translation the generation loop applies; the
      loop and its lemmas are stated for any such translation, and
      l5_generate_hrir_cells uses GenerateCell. */
  type Generator = Statement -> Option<H.Cell>

  /** One iteration of l5_generate_hrir_cells: a generated cell is linked to the
      statement and added to the HRIR program under the next id. */
  function GenStepWith(m: Moop, i: nat, gen: Generator): (r: Moop)
    requires i < |m.statements|
    ensures |r.statements| == |m.statements|
  {
    match gen(m.statements[i])
    case None => m
    case Some(c) =>
      m.(statements := m.statements[i := m.statements[i].(cell := Some(|m.cells|))],
         cells := m.cells + [H.Attach(c, m.nextId)],
         nextId := m.nextId + 1)
  }

  /** The loop of l5_generate_hrir_cells from statement i on. */
  function GenerateFromWith(m: Moop, i: nat, gen: Generator): (r: Moop)
    requires i <= |m.statements|
    ensures |r.statements| == |m.statements|
    decreases |m.statements| - i
  {
    if i == |m.statements| then m else GenerateFromWith(GenStepWith(m, i, gen), i + 1, gen)
  }

  function GenStep(m: Moop, i: nat): Moop
    requires i < |m.statements|
  {
    GenStepWith(m, i, GenerateCell)
  }

  function GenerateFrom(m: Moop, i: nat): Moop
    requires i <= |m.statements|
  {
    GenerateFromWith(m, i, GenerateCell)
  }

  /** How many of the statements produce a cell. */
  function CellCount(stmts: seq<Statement>): nat {
    CellsBetween(stmts, 0, |stmts|, GenerateCell)
  }

  /** How many of the statements from i up to k produce a cell. */
  function CellsBetween(stmts: seq<Statement>, i: nat, k: nat, gen: Generator): nat
    requires i <= k <= |stmts|
    decreases k - i
  {
    if i == k then 0
    else (if gen(stmts[i]).Some? then 1 else 0) + CellsBetween(stmts, i + 1, k, gen)
  }

  /** The count over a stretch depends only on that stretch. */
  lemma {:induction false} CellsBetweenSame(a: seq<Statement>, b: seq<Statement>, i: nat, k: nat, gen: Generator)
    requires i <= k <= |a| == |b|
    requires forall j :: i <= j < k ==> a[j] == b[j]
    ensures CellsBetween(a, i, k, gen) == CellsBetween(b, i, k, gen)
    decreases k - i
  {
    if i < k {
      CellsBetweenSame(a, b, i + 1, k, gen);
    }
  }

  // ---------------------------------------------------------------------------
  // The program object
  // ---------------------------------------------------------------------------

  class MoopProgram {
    var statements: seq<Statement>
    const hrir: H.Program
    var history: seq<nat>
    var checkpoints: seq<string>

    function Snapshot(): Moop
      reads this, hrir
    {
      Moop(statements, hrir.cells, hrir.pc, hrir.nextId, history, checkpoints)
    }

    ghost predicate Valid()
      reads this, hrir
    {
      hrir.Valid() && Linked(Snapshot())
    }

    /** l5_create_homoiconic_program: no statements, an empty HRIR program, no
        history and no checkpoints. */
    constructor ()
      ensures Valid() && fresh(hrir)
      ensures Snapshot() == Moop([], [], 0, 1, [], [])
    {
      statements := [];
      hrir := new H.Program();
      history := [];
      checkpoints := [];
    }

    /** l5_add_statement: NULL text is refused; otherwise the parsed statement,
        with id = the previous statement count, is appended. */
    method AddStatement(text: Option<string>) returns (ok: bool)
      requires Valid()
      requires text.Some? ==> !WritesArguments(text.value)
      modifies this
      ensures Valid() && ok == text.Some?
      ensures ok ==> Snapshot() == old(Snapshot()).(statements := old(statements) + [ParseStatement(text.value, |old(statements)|)])
      ensures !ok ==> Snapshot() == old(Snapshot())
    {
      if text.None? {
        return false;
      }
      statements := statements + [ParseStatement(text.value, |statements|)];
      ok := true;
    }

    /** l5_generate_hrir_cells: every statement that yields a cell is linked to
        it and the cell is added to the HRIR program, in statement order. */
    method GenerateHrirCells() returns (ok: bool)
      requires Valid()
      modifies this, hrir
      ensures Valid() && ok
      ensures Snapshot() == GenerateFrom(old(Snapshot()), 0)
    {
      var i := 0;
      while i < |statements|
        invariant i <= |statements| && Valid()
        invariant GenerateFrom(Snapshot(), i) == GenerateFrom(old(Snapshot()), 0)
      {
        var cell := GenerateCell(statements[i]);
        if cell.Some? {
          ghost var before := Snapshot();
          statements := statements[i := statements[i].(cell := Some(|hrir.cells|))];
          var added := hrir.AddCell(cell);
          assert Snapshot() == GenStep(before, i);
          LinkFreshKeepsLinked(before, i);
        }
        i := i + 1;
      }
      ok := true;
    }

    /** l5_create_checkpoint: appends exactly one checkpoint id and returns it. */
    method CreateCheckpoint(now: int) returns (id: string)
      requires Valid()
      modifies this
      ensures Valid() && id == CheckpointId(|old(checkpoints)|, now)
      ensures Snapshot() == WithCheckpoint(old(Snapshot()), now)
    {
      id := CheckpointId(|checkpoints|, now);
      checkpoints := checkpoints + [id];
    }

    /** l5_execute_program: a checkpoint, then each statement in order pushed on
        the history, marked executed, and its cell marked with a result. */
    method ExecuteProgram(now: int) returns (ok: bool)
      requires Valid()
      modifies this, hrir
      ensures Valid() && ok
      ensures Snapshot() == Executed(old(Snapshot()), now)
    {
      var _ := CreateCheckpoint(now);
      ghost var m1 := Snapshot();
      ExecutedNone(m1, now);
      var i := 0;
      while i < |statements|
        invariant i <= |statements| == |m1.statements| && Valid()
        invariant Snapshot() == ExecutedUpTo(m1, i, now)
      {
        ExecutedStep(m1, i, now);
        ExecuteStatement(i, now);
        i := i + 1;
      }
      ok := true;
    }

    /** One iteration of l5_execute_program's loop: statement i pushed on the
        history, marked executed, and the cell it points at marked with a result. */
    method ExecuteStatement(i: nat, now: int)
      requires Valid() && i < |statements|
      modifies this, hrir
      ensures Valid()
      ensures var m := old(Snapshot()); var link := m.statements[i].cell;
        Snapshot() == m.(statements := m.statements[i := m.statements[i].(executed := true)],
                         cells := if link.Some? then m.cells[link.value := Mark(m.cells[link.value], now)] else m.cells,
                         history := m.history + [i])
    {
      history := history + [i];
      statements := statements[i := statements[i].(executed := true)];
      var link := statements[i].cell;
      if link.Some? {
        var j := link.value;
        MarkKeepsIds(hrir.cells, j, now);
        hrir.cells := hrir.cells[j := Mark(hrir.cells[j], now)];
      }
    }

    /** l5_undo_program: false for steps <= 0; otherwise up to `steps` history
        entries popped, last first, and true even when the history was empty. */
    method UndoProgram(steps: int) returns (ok: bool)
      requires Valid()
      modifies this, hrir
      ensures Valid() && ok == (steps > 0)
      ensures Snapshot() == if steps <= 0 then old(Snapshot()) else UndoSteps(old(Snapshot()), steps)
    {
      if steps <= 0 {
        return false;
      }
      var i := 0;
      while i < steps && |history| > 0
        invariant 0 <= i <= steps && Valid()
        invariant UndoSteps(Snapshot(), steps - i) == UndoSteps(old(Snapshot()), steps)
      {
        PopHistory();
        i := i + 1;
      }
      ok := true;
    }

    /** One iteration of the undo loop. */
    method PopHistory()
      requires Valid() && |history| > 0
      modifies this, hrir
      ensures Valid() && Snapshot() == UndoOne(old(Snapshot()))
    {
      var k := history[|history| - 1];
      history := history[..|history| - 1];
      Unexecute(k);
    }

    /** Statement k unmarked and the cell it points at cleared. */
    method Unexecute(k: nat)
      requires Valid() && k < |statements|
      requires forall i :: 0 <= i < |history| ==> history[i] < |statements|
      modifies this, hrir
      ensures Valid()
      ensures var m := old(Snapshot()); var s := m.statements[k];
        Snapshot() == m.(statements := m.statements[k := s.(executed := false)],
                         cells := if s.cell.Some? then m.cells[s.cell.value := H.Unmark(m.cells[s.cell.value])] else m.cells)
    {
      var s := statements[k];
      statements := statements[k := s.(executed := false)];
      if s.cell.Some? {
        var j := s.cell.value;
        UnmarkKeepsIds(hrir.cells, j);
        hrir.cells := hrir.cells[j := H.Unmark(hrir.cells[j])];
      }
    }

    /** l5_rollback_program: false with nothing changed for a NULL or unknown
        checkpoint id; for any known id, the same reset whichever it names. */
    method RollbackProgram(id: Option<string>) returns (ok: bool)
      requires Valid()
      modifies this, hrir
      ensures Valid()
      ensures ok <==> id.Some? && id.value in old(checkpoints)
      ensures ok ==> Snapshot() == RolledBack(old(Snapshot()))
      ensures !ok ==> Snapshot() == old(Snapshot())
    {
      if id.None? {
        return false;
      }
      var i := 0;
      while i < |checkpoints|
        invariant i <= |checkpoints|
        invariant id.value !in checkpoints[..i]
        invariant Valid() && Snapshot() == old(Snapshot())
      {
        if checkpoints[i] == id.value {
          ResetStatements();
          return true;
        }
        i := i + 1;
      }
      return false;
    }

    /** The reset loop of l5_rollback_program. */
    method ResetStatements()
      requires Valid()
      modifies this, hrir
      ensures Valid() && Snapshot() == RolledBack(old(Snapshot()))
    {
      ghost var m0 := Snapshot();
      ResetNone(m0);
      var j := 0;
      while j < |statements|
        invariant j <= |statements| == |m0.statements| && Valid()
        invariant Snapshot() == ResetUpTo(m0, j)
      {
        ResetStep(m0, j);
        Unexecute(j);
        j := j + 1;
      }
      ResetAll(m0);
      history := [];
    }
  }

  // ---------------------------------------------------------------------------
  // Loop bookkeeping
  // ---------------------------------------------------------------------------

  lemma UnmarkKeepsIds(cells: seq<H.Cell>, j: nat)
    requires j < |cells|
    ensures var u := cells[j := H.Unmark(cells[j])];
      (H.StrictlyIncreasingIds(cells) ==> H.StrictlyIncreasingIds(u)) &&
      forall i :: 0 <= i < |cells| ==> u[i].id == cells[i].id
  {
  }

  lemma MarkKeepsIds(cells: seq<H.Cell>, j: nat, now: int)
    requires j < |cells|
    ensures var u := cells[j := Mark(cells[j], now)];
      (H.StrictlyIncreasingIds(cells) ==> H.StrictlyIncreasingIds(u)) &&
      forall i :: 0 <= i < |cells| ==> u[i].id == cells[i].id
  {
  }

  /** Linking statement i to a newly appended cell keeps the links distinct. */
  lemma LinkFreshKeepsLinked(m: Moop, i: nat)
    requires Linked(m) && i < |m.statements|
    ensures Linked(GenStep(m, i))
  {
  }

  lemma ExecutedNone(m: Moop, now: int)
    ensures ExecutedUpTo(m, 0, now) == m
  {
    var r := ExecutedUpTo(m, 0, now);
    assert r.statements == m.statements;
    assert r.cells == m.cells;
    assert r.history == m.history;
  }

  lemma ExecutedStep(m: Moop, i: nat, now: int)
    requires i < |m.statements|
    ensures var e := ExecutedUpTo(m, i, now);
      ExecutedUpTo(m, i + 1, now) ==
      e.(statements := e.statements[i := e.statements[i].(executed := true)],
         cells := if m.statements[i].cell.Some? && m.statements[i].cell.value < |m.cells|
                  then e.cells[m.statements[i].cell.value := Mark(e.cells[m.statements[i].cell.value], now)]
                  else e.cells,
         history := e.history + [i])
  {
    var e := ExecutedUpTo(m, i, now);
    var f := ExecutedUpTo(m, i + 1, now);
    var link := m.statements[i].cell;
    forall j | 0 <= j < |m.cells|
      ensures f.cells[j] == if link == Some(j) then Mark(e.cells[j], now) else e.cells[j]
    {
      if link == Some(j) {
        assert Touched(m.statements, i + 1, j);
      } else if Touched(m.statements, i + 1, j) {
        var k :| 0 <= k < i + 1 && k < |m.statements| && m.statements[k].cell == Some(j);
        assert Touched(m.statements, i, j);
      } else {
        assert !Touched(m.statements, i, j);
      }
    }
    assert Indices(i + 1) == Indices(i) + [i];
  }

  /** The state after the first j iterations of the rollback reset loop. */
  function ResetUpTo(m: Moop, j: nat): (r: Moop)
    requires j <= |m.statements|
  {
    m.(statements := seq(|m.statements|, k requires 0 <= k < |m.statements| =>
                          if k < j then m.statements[k].(executed := false) else m.statements[k]),
       cells := seq(|m.cells|, c requires 0 <= c < |m.cells| =>
                     if Touched(m.statements, j, c) then H.Unmark(m.cells[c]) else m.cells[c]))
  }

  lemma ResetStep(m: Moop, j: nat)
    requires Linked(m) && j < |m.statements|
    ensures var e := ResetUpTo(m, j);
      ResetUpTo(m, j + 1) ==
      e.(statements := e.statements[j := e.statements[j].(executed := false)],
         cells := if m.statements[j].cell.Some?
                  then e.cells[m.statements[j].cell.value := H.Unmark(e.cells[m.statements[j].cell.value])]
                  else e.cells)
  {
    var e := ResetUpTo(m, j);
    var f := ResetUpTo(m, j + 1);
    var link := m.statements[j].cell;
    forall c | 0 <= c < |m.cells|
      ensures f.cells[c] == if link == Some(c) then H.Unmark(e.cells[c]) else e.cells[c]
    {
      if link == Some(c) {
        assert Touched(m.statements, j + 1, c);
      } else if Touched(m.statements, j + 1, c) {
        var k :| 0 <= k < j + 1 && k < |m.statements| && m.statements[k].cell == Some(c);
        assert Touched(m.statements, j, c);
      } else {
        assert !Touched(m.statements, j, c);
      }
    }
  }

  lemma ResetNone(m: Moop)
    ensures ResetUpTo(m, 0) == m
  {
    assert ResetUpTo(m, 0).statements == m.statements;
    assert ResetUpTo(m, 0).cells == m.cells;
  }

  lemma ResetAll(m: Moop)
    requires Linked(m)
    ensures ResetUpTo(m, |m.statements|).(history := []) == RolledBack(m)
  {
    var a := ResetUpTo(m, |m.statements|).(history := []);
    var b := RolledBack(m);
    assert a.statements == b.statements;
    assert a.cells == b.cells;
  }

  // ---------------------------------------------------------------------------
  // What the history promises
  // ---------------------------------------------------------------------------

  function Min(a: nat, b: nat): nat { if a <= b then a else b }

  /** undo(n) pops min(n, |history|) entries from the end: the history is LIFO. */
  lemma {:induction false} UndoPopsLifo(m: Moop, n: nat)
    requires Linked(m)
    ensures UndoSteps(m, n).history == m.history[..|m.history| - Min(n, |m.history|)]
    decreases n
  {
    if n > 0 && |m.history| > 0 {
      var u := UndoOne(m);
      UndoPopsLifo(u, n - 1);
      assert u.history[..|u.history| - Min(n - 1, |u.history|)] == m.history[..|m.history| - Min(n, |m.history|)];
    }
  }

  /** Statements not yet run, and every cell a statement points at not yet run
      and without a result. */
  ghost predicate Clean(m: Moop) {
    (forall k :: 0 <= k < |m.statements| ==> !m.statements[k].executed) &&
    (forall k :: 0 <= k < |m.statements| && m.statements[k].cell.Some? && m.statements[k].cell.value < |m.cells| ==>
       H.Pristine(m.cells[m.statements[k].cell.value]))
  }

  lemma ExecutedLinked(m: Moop, i: nat, now: int)
    requires Linked(m) && i <= |m.statements|
    ensures Linked(ExecutedUpTo(m, i, now))
  {
  }

  /** Undoing the last executed statement gives back the state before it ran. */
  lemma UndoOneExecuted(m: Moop, i: nat, now: int)
    requires Linked(m) && Clean(m) && i < |m.statements|
    ensures Linked(ExecutedUpTo(m, i + 1, now)) && |ExecutedUpTo(m, i + 1, now).history| > 0
    ensures UndoOne(ExecutedUpTo(m, i + 1, now)) == ExecutedUpTo(m, i, now)
  {
    ExecutedLinked(m, i + 1, now);
    var e := ExecutedUpTo(m, i + 1, now);
    var g := ExecutedUpTo(m, i, now);
    var u := UndoOne(e);
    assert e.history[|e.history| - 1] == i;
    assert e.history[..|e.history| - 1] == g.history;
    assert u.statements == g.statements;
    forall j | 0 <= j < |m.cells| ensures u.cells[j] == g.cells[j] {
      UndoOneCell(m, i, now, j);
    }
    assert u.cells == g.cells;
  }

  /** The cell undo clears is the one the last executed statement marked, and
      it was pristine before; every other cell is as the earlier run left it. */
  lemma UndoOneCell(m: Moop, i: nat, now: int, j: nat)
    requires Linked(m) && Clean(m) && i < |m.statements| && j < |m.cells|
    ensures Linked(ExecutedUpTo(m, i + 1, now)) && |ExecutedUpTo(m, i + 1, now).history| > 0
    ensures UndoOne(ExecutedUpTo(m, i + 1, now)).cells[j] == ExecutedUpTo(m, i, now).cells[j]
  {
    ExecutedLinked(m, i + 1, now);
    var e := ExecutedUpTo(m, i + 1, now);
    assert e.history[|e.history| - 1] == i;
    var link := m.statements[i].cell;
    if link == Some(j) {
      assert Touched(m.statements, i + 1, j);
      assert !Touched(m.statements, i, j);
      assert H.Pristine(m.cells[j]);
    } else if Touched(m.statements, i + 1, j) {
      var k :| 0 <= k < i + 1 && k < |m.statements| && m.statements[k].cell == Some(j);
      assert Touched(m.statements, i, j);
    } else {
      assert !Touched(m.statements, i, j);
    }
  }

  lemma {:induction false} UndoExecutedPrefix(m: Moop, i: nat, now: int)
    requires Linked(m) && Clean(m) && i <= |m.statements|
    ensures Linked(ExecutedUpTo(m, i, now))
    ensures UndoSteps(ExecutedUpTo(m, i, now), i) == m
    decreases i
  {
    ExecutedLinked(m, i, now);
    if i == 0 {
      ExecutedNone(m, now);
    } else {
      UndoOneExecuted(m, i - 1, now);
      UndoExecutedPrefix(m, i - 1, now);
    }
  }

  /** Executing a program whose statements have not run and then undoing as many
      steps as it has statements restores every statement, every cell and the
      history; only the checkpoint taken by the execution remains. */
  lemma UndoAllAfterExecute(m: Moop, now: int)
    requires Linked(m) && Clean(m)
    ensures Linked(Executed(m, now))
    ensures UndoSteps(Executed(m, now), |m.statements|) == WithCheckpoint(m, now)
  {
    UndoExecutedPrefix(WithCheckpoint(m, now), |m.statements|, now);
  }

  /** Rolling back after an execution restores every statement and cell and
      empties the history. */
  lemma RollbackAfterExecute(m: Moop, now: int)
    requires Linked(m) && Clean(m)
    ensures RolledBack(Executed(m, now)) == WithCheckpoint(m, now).(history := [])
  {
    var e := Executed(m, now);
    var r := RolledBack(e);
    var w := WithCheckpoint(m, now).(history := []);
    assert r.statements == w.statements;
    forall j | 0 <= j < |m.cells| ensures r.cells[j] == w.cells[j] {
      if Linked1(m.statements, j) {
        var k :| 0 <= k < |m.statements| && m.statements[k].cell == Some(j);
        assert H.Pristine(m.cells[j]);
        assert Touched(m.statements, |m.statements|, j);
      }
    }
    assert r.cells == w.cells;
  }

  /** Checkpoints taken at different counts have different ids, whatever the clock says. */
  lemma CheckpointIdsDistinct(a: nat, b: nat, t1: int, t2: int)
    requires a != b
    ensures CheckpointId(a, t1) != CheckpointId(b, t2)
  {
    NatToStringValue(a);
    NatToStringValue(b);
    DigitFieldsDiffer("checkpoint_", NatToString(a), NatToString(b), IntToString(t1), IntToString(t2));
  }

  /** Two different digit strings, each closed by '_', make different texts. */
  lemma DigitFieldsDiffer(p: string, x: string, y: string, r1: string, r2: string)
    requires AllDigits(x) && AllDigits(y) && x != y
    ensures p + x + "_" + r1 != p + y + "_" + r2
  {
    var s1, s2 := p + x + "_" + r1, p + y + "_" + r2;
    var n := |p|;
    if |x| == |y| {
      assert s1[n..n + |x|] == x != y == s2[n..n + |y|];
    } else if |x| < |y| {
      assert s1[n + |x|] == '_' != y[|x|] == s2[n + |x|];
    } else {
      assert s2[n + |y|] == '_' != x[|y|] == s1[n + |y|];
    }
  }

  // ---------------------------------------------------------------------------
  // What cell generation promises
  // ---------------------------------------------------------------------------

  /** Generation from statement i on leaves the existing cells, the history
      and the checkpoints alone, and adds one cell per statement that yields
      one. */
  lemma {:induction false} GenerateKeeps(m: Moop, i: nat, gen: Generator)
    requires i <= |m.statements|
    ensures var r := GenerateFromWith(m, i, gen);
      |r.cells| == |m.cells| + CellsBetween(m.statements, i, |m.statements|, gen) &&
      r.nextId == m.nextId + CellsBetween(m.statements, i, |m.statements|, gen) &&
      r.cells[..|m.cells|] == m.cells &&
      r.history == m.history && r.checkpoints == m.checkpoints && r.pc == m.pc
    decreases |m.statements| - i
  {
    if i < |m.statements| {
      var m1 := GenStepWith(m, i, gen);
      GenerateKeeps(m1, i + 1, gen);
      CellsBetweenSame(m1.statements, m.statements, i + 1, |m.statements|, gen);
      var r := GenerateFromWith(m, i, gen);
      assert r.cells[..|m.cells|] == m1.cells[..|m1.cells|][..|m.cells|];
    }
  }

  /** Generation from statement i on leaves the earlier statements alone and
      changes no later statement but for its link. */
  lemma {:induction false} GenerateLinks(m: Moop, i: nat, gen: Generator)
    requires i <= |m.statements|
    ensures var r := GenerateFromWith(m, i, gen);
      (forall j :: 0 <= j < i ==> r.statements[j] == m.statements[j]) &&
      (forall j :: i <= j < |m.statements| ==> r.statements[j] == m.statements[j].(cell := r.statements[j].cell))
    decreases |m.statements| - i
  {
    if i < |m.statements| {
      GenerateLinks(GenStepWith(m, i, gen), i + 1, gen);
    }
  }

  /** Cells are added in statement order: statement k is linked to the cell
      added after those of the statements before it. A statement that yields
      no cell keeps its link. */
  lemma {:induction false} GenerateLinkOrder(m: Moop, i: nat, k: nat, gen: Generator)
    requires i <= k < |m.statements|
    ensures var r := GenerateFromWith(m, i, gen);
      r.statements[k].cell ==
        (if gen(m.statements[k]).Some? then Some(|m.cells| + CellsBetween(m.statements, i, k, gen))
         else m.statements[k].cell)
    decreases k - i
  {
    var m1 := GenStepWith(m, i, gen);
    if k == i {
      GenerateLinks(m1, i + 1, gen);
    } else {
      GenerateLinkOrder(m1, i + 1, k, gen);
      CellsBetweenSame(m1.statements, m.statements, i + 1, k, gen);
      var one := if gen(m.statements[i]).Some? then 1 else 0;
      assert |m1.cells| == |m.cells| + one;
      assert m1.statements[k] == m.statements[k];
    }
  }

  /** The cell statement k is linked to is the one it yields, under the id
      that follows those of the cells added before it. */
  lemma {:induction false} GenerateCellOrder(m: Moop, i: nat, k: nat, gen: Generator)
    requires i <= k < |m.statements| && gen(m.statements[k]).Some?
    ensures var r := GenerateFromWith(m, i, gen);
      var before := CellsBetween(m.statements, i, k, gen);
      |m.cells| + before < |r.cells| &&
      r.cells[|m.cells| + before] == H.Attach(gen(m.statements[k]).value, m.nextId + before)
    decreases k - i
  {
    var m1 := GenStepWith(m, i, gen);
    if k == i {
      GenerateKeeps(m1, i + 1, gen);
      var r := GenerateFromWith(m, i, gen);
      assert r.cells[|m.cells|] == r.cells[..|m1.cells|][|m.cells|];
    } else {
      GenerateCellOrder(m1, i + 1, k, gen);
      CellsBetweenSame(m1.statements, m.statements, i + 1, k, gen);
      var one := if gen(m.statements[i]).Some? then 1 else 0;
      assert |m1.cells| == |m.cells| + one && m1.nextId == m.nextId + one;
      assert m1.statements[k] == m.statements[k];
    }
  }

  // ---------------------------------------------------------------------------
  // Compilation
  // ---------------------------------------------------------------------------

  datatype Options = Options(enhanced: bool, autoInherit: bool, enableTimeTravel: bool, generateHrir: bool)

  /** l5_default_options and l5_enhanced_options. */
  const DefaultOptions := Options(false, true, false, false)
  const EnhancedOptions := Options(true, true, true, true)

  datatype Features = Features(homoiconicStatements: nat, hrirCells: nat, reversibleOperations: nat, timeTravelCapable: bool)

  datatype CompileResult = CompileResult(
    success: bool,
    l4Output: Option<string>,
    programId: Option<string>,
    isHomoiconic: bool,
    isReversible: bool,
    features: Features)

  /** The line with its leading ' ' characters skipped. */
  function SkipBlanks(s: string): (r: string)
    ensures |r| <= |s| && r == s[|s| - |r|..]
    ensures |r| > 0 ==> r[0] != ' '
  {
    if |s| > 0 && s[0] == ' ' then SkipBlanks(s[1..]) else s
  }

  /** A stripped line that becomes a statement: not empty and not starting with '/'. */
  predicate IsStatementLine(t: string) {
    |t| > 0 && t[0] != '/'
  }

  /** The statement lines of a text: strtok's lines, stripped, comments and
      empty lines skipped, in order. */
  function StatementLines(lines: seq<string>): (r: seq<string>)
    ensures |r| <= |lines|
    ensures forall k :: 0 <= k < |r| ==> IsStatementLine(r[k]) && r[k][0] != ' '
  {
    if |lines| == 0 then []
    else
      var t := SkipBlanks(lines[|lines| - 1]);
      StatementLines(lines[..|lines| - 1]) + (if IsStatementLine(t) then [t] else [])
  }

  /** A line after which the strtok loop of l5_compile_moop reads no more:
      a statement line whose argument list strtok has taken over. */
  predicate StopsReading(line: string) {
    var t := SkipBlanks(line);
    IsStatementLine(t) && ClosesArguments(t)
  }

  /** The lines up to and including the first one `stop` holds of; all of
      them when there is none. */
  function TakeThrough(lines: seq<string>, stop: string -> bool): (r: seq<string>)
    ensures |r| <= |lines| && r == lines[..|r|]
  {
    if |lines| == 0 then []
    else if stop(lines[0]) then [lines[0]]
    else [lines[0]] + TakeThrough(lines[1..], stop)
  }

  /** The cut is made at the first line `stop` holds of, and only there. */
  lemma {:induction false} TakeThroughStops(lines: seq<string>, stop: string -> bool)
    ensures var r := TakeThrough(lines, stop);
      (forall k :: 0 <= k < |r| - 1 ==> !stop(r[k])) &&
      (|r| < |lines| ==> |r| > 0 && stop(r[|r| - 1]))
  {
    if |lines| > 0 && !stop(lines[0]) {
      TakeThroughStops(lines[1..], stop);
    }
  }

  /** When `stop` holds of no line, every line is taken. */
  lemma {:induction false} TakeThroughAll(lines: seq<string>, stop: string -> bool)
    requires forall k :: 0 <= k < |lines| ==> !stop(lines[k])
    ensures TakeThrough(lines, stop) == lines
  {
    if |lines| > 0 {
      TakeThroughAll(lines[1..], stop);
    }
  }

  /** The lines the strtok loop of l5_compile_moop reads: all of them, up to
      and including the first one that stops it. */
  function ReadLines(lines: seq<string>): seq<string> {
    TakeThrough(lines, StopsReading)
  }

  /** The statements the lines become, with ids 0, 1, 2, ... */
  function ParseAll(lines: seq<string>): (r: seq<Statement>)
    ensures |r| == |lines|
  {
    seq(|lines|, k requires 0 <= k < |lines| => ParseStatement(lines[k], k))
  }

  /** A text l5_compile_moop can read without writing through the missing
      argument array. */
  predicate Compilable(code: string) {
    forall k :: 0 <= k < |ReadLines(Tokens(code, '\n'))| ==>
      var t := SkipBlanks(ReadLines(Tokens(code, '\n'))[k]);
      IsStatementLine(t) ==> !WritesArguments(t)
  }

  /** The program state an enhanced compilation builds: the statements of
      the lines the strtok loop reads. */
  function Built(code: string, generate: bool): Moop {
    var m := Moop(ParseAll(StatementLines(ReadLines(Tokens(code, '\n')))), [], 0, 1, [], []);
    if generate then GenerateFrom(m, 0) else m
  }

  function CountReversible(stmts: seq<Statement>): (n: nat)
    ensures n <= |stmts|
  {
    if |stmts| == 0 then 0
    else CountReversible(stmts[..|stmts| - 1]) + (if stmts[|stmts| - 1].isReversible then 1 else 0)
  }

  function CountOutputs(lines: seq<string>): nat {
    if |lines| == 0 then 0
    else CountOutputs(lines[..|lines| - 1]) + (if TypeOf(lines[|lines| - 1]) == Output then 1 else 0)
  }

  /** "moop_<time>_<counter>"; the counter is a static of the C code, here a parameter. */
  function ProgramId(now: int, counter: nat): string {
    "moop_" + IntToString(now) + "_" + NatToString(counter)
  }

  const LegacyHeader := "// L4 Rio code generated from L5 Moop\n"

  function Truncate(s: string, n: nat): string {
    if |s| <= n then s else s[..n]
  }

  /** The L4 text l5_compile_moop_legacy writes for one statement line, cut to
      the 511 characters its 512-byte snprintf buffer keeps. */
  function LegacyLine(t: string): string {
    Truncate(
      if Contains(t, " <- ") then "root_proto " + Before(t, " <- ") + " <- " + After(t, " <- ") + "\n"
      else if Contains(t, " -> ") then
        var target, message := Before(t, " -> "), After(t, " -> ");
        "root_proto Message_" + target + "_" + message + " <- Object\n    slots:\n        target: \"" + target +
        "\"\n        message: \"" + message + "\"\n    methods:\n        send: method()\n            target.receive(message)\n"
      else if Contains(t, "output ") then
        var c := Unquoted(After(t, "output "));
        "root_proto Display_" + c + " <- Object\n    slots:\n        message: \"" + c +
        "\"\n    methods:\n        display: method()\n            message\n"
      else "",
      511)
  }

  /** The texts f gives for each of ts, one after the other. */
  function Concat(ts: seq<string>, f: string -> string): string {
    if |ts| == 0 then "" else Concat(ts[..|ts| - 1], f) + f(ts[|ts| - 1])
  }

  function Legacy(code: string): string {
    LegacyHeader + Concat(StatementLines(Tokens(code, '\n')), LegacyLine)
  }

  lemma StatementLinesSnoc(lines: seq<string>, i: nat)
    requires i < |lines|
    ensures StatementLines(lines[..i + 1]) ==
      StatementLines(lines[..i]) + (if IsStatementLine(SkipBlanks(lines[i])) then [SkipBlanks(lines[i])] else [])
  {
    assert lines[..i + 1][..i] == lines[..i];
  }

  lemma ConcatSnoc(ts: seq<string>, t: string, f: string -> string)
    ensures Concat(ts + [t], f) == Concat(ts, f) + f(t)
  {
    assert (ts + [t])[..|ts|] == ts;
  }

  /** l5_compile_moop_legacy: the header, then each statement line's L4 text in order. */
  method CompileLegacy(code: string) returns (out: string)
    requires |Legacy(code)| < 4096
    ensures out == Legacy(code)
  {
    var body := ConcatLines(Tokens(code, '\n'), LegacyLine);
    out := LegacyHeader + body;
  }

  /** One more line adds its text exactly when it is a statement line. */
  lemma ConcatStep(lines: seq<string>, i: nat, f: string -> string)
    requires i < |lines|
    ensures var t := SkipBlanks(lines[i]);
      Concat(StatementLines(lines[..i + 1]), f) ==
      Concat(StatementLines(lines[..i]), f) + (if IsStatementLine(t) then f(t) else "")
  {
    var t := SkipBlanks(lines[i]);
    StatementLinesSnoc(lines, i);
    ConcatGrow(StatementLines(lines[..i]), StatementLines(lines[..i + 1]), t, IsStatementLine(t), f);
  }

  lemma ConcatGrow(prev: seq<string>, next: seq<string>, t: string, keep: bool, f: string -> string)
    requires next == prev + (if keep then [t] else [])
    ensures Concat(next, f) == Concat(prev, f) + (if keep then f(t) else "")
  {
    if keep {
      ConcatSnoc(prev, t, f);
    } else {
      assert next == prev;
    }
  }

  /** The line loop of l5_compile_moop_legacy: the text of each statement line appended in order. */
  method ConcatLines(lines: seq<string>, f: string -> string) returns (body: string)
    ensures body == Concat(StatementLines(lines), f)
  {
    body := "";
    var i := 0;
    while i < |lines|
      invariant i <= |lines|
      invariant body == Concat(StatementLines(lines[..i]), f)
    {
      ConcatStep(lines, i, f);
      var t := SkipBlanks(lines[i]);
      if IsStatementLine(t) {
        body := body + f(t);
      }
      i := i + 1;
    }
    assert lines[..i] == lines;
  }

  /** l5_compile_moop. Without the enhanced flag only the legacy text is made.
      With it, every statement line is added to a new program, cells are
      generated when asked for, and the features are counted. */
  method Compile(code: string, options: Options, now: int, counter: nat) returns (r: CompileResult, program: MoopProgram?)
    requires Compilable(code) && |Legacy(code)| < 4096
    ensures !options.enhanced ==> program == null
    ensures !options.enhanced ==> r == CompileResult(true, Some(Legacy(code)), None, false, false, Features(0, 0, 0, false))
    ensures options.enhanced ==> program != null && fresh(program) && program.Valid()
    ensures options.enhanced ==> program.Snapshot() == Built(code, options.generateHrir)
    ensures options.enhanced ==>
      r == CompileResult(true, Some(Legacy(code)), Some(ProgramId(now, counter)), true, true,
                         Features(|program.statements|, |program.hrir.cells|, CountReversible(program.statements), options.enableTimeTravel))
  {
    if !options.enhanced {
      var legacy := CompileLegacy(code);
      return CompileResult(true, Some(legacy), None, false, false, Features(0, 0, 0, false)), null;
    }
    program := new MoopProgram();
    AddLines(program, ReadLines(Tokens(code, '\n')));
    if options.generateHrir {
      var _ := program.GenerateHrirCells();
    }
    var reversible := ReversibleOperations(program.statements);
    var legacy := CompileLegacy(code);
    r := CompileResult(true, Some(legacy), Some(ProgramId(now, counter)), true, true,
                       Features(|program.statements|, |program.hrir.cells|, reversible, options.enableTimeTravel));
  }

  /** The strtok loop of l5_compile_moop: each line strtok returns, in order,
      is added when it is a statement line. */
  method AddLines(program: MoopProgram, lines: seq<string>)
    requires program.Valid() && program.Snapshot() == Moop([], [], 0, 1, [], [])
    requires forall k :: 0 <= k < |lines| && IsStatementLine(SkipBlanks(lines[k])) ==> !WritesArguments(SkipBlanks(lines[k]))
    modifies program
    ensures program.Valid() && program.Snapshot() == Moop(ParseAll(StatementLines(lines)), [], 0, 1, [], [])
  {
    var i := 0;
    while i < |lines|
      invariant i <= |lines| && program.Valid()
      invariant program.Snapshot() == Moop(ParseAll(StatementLines(lines[..i])), [], 0, 1, [], [])
    {
      var t := SkipBlanks(lines[i]);
      AddStep(lines, i);
      if IsStatementLine(t) {
        var _ := program.AddStatement(Some(t));
      }
      i := i + 1;
    }
    assert lines[..i] == lines;
  }

  /** One more line adds its statement exactly when it is a statement line. */
  lemma AddStep(lines: seq<string>, i: nat)
    requires i < |lines|
    ensures var t := SkipBlanks(lines[i]);
      var before := StatementLines(lines[..i]);
      ParseAll(StatementLines(lines[..i + 1])) ==
      ParseAll(before) + (if IsStatementLine(t) then [ParseStatement(t, |before|)] else [])
  {
    var t := SkipBlanks(lines[i]);
    StatementLinesSnoc(lines, i);
    ParseAllGrow(StatementLines(lines[..i]), StatementLines(lines[..i + 1]), t, IsStatementLine(t));
  }

  lemma ParseAllGrow(prev: seq<string>, next: seq<string>, t: string, keep: bool)
    requires next == prev + (if keep then [t] else [])
    ensures ParseAll(next) == ParseAll(prev) + (if keep then [ParseStatement(t, |prev|)] else [])
  {
    if keep {
      ParseAllSnoc(prev, t);
    } else {
      assert next == prev;
    }
  }

  lemma ParseAllSnoc(ts: seq<string>, t: string)
    ensures ParseAll(ts + [t]) == ParseAll(ts) + [ParseStatement(t, |ts|)]
  {
    var lines := ts + [t];
    forall k | 0 <= k < |lines|
      ensures ParseAll(lines)[k] == (ParseAll(ts) + [ParseStatement(t, |ts|)])[k]
    {
      if k < |ts| {
        assert lines[k] == ts[k];
      } else {
        assert lines[k] == t;
      }
    }
  }

  /** The counting loop of l5_compile_moop. */
  method ReversibleOperations(stmts: seq<Statement>) returns (n: nat)
    ensures n == CountReversible(stmts)
  {
    n := 0;
    var k := 0;
    while k < |stmts|
      invariant k <= |stmts| && n == CountReversible(stmts[..k])
    {
      assert stmts[..k + 1][..k] == stmts[..k];
      if stmts[k].isReversible {
        n := n + 1;
      }
      k := k + 1;
    }
    assert stmts[..k] == stmts;
  }

  /** Every statement but an output is reversible, so the reversible count is
      the number of statement lines that are not outputs. */
  lemma ReversibleCount(lines: seq<string>)
    ensures CountReversible(ParseAll(lines)) + CountOutputs(lines) == |lines|
  {
    var stmts := ParseAll(lines);
    forall k | 0 <= k < |lines|
      ensures stmts[k].isReversible <==> TypeOf(lines[k]) != Output
    {
      var s := ParseStatement(lines[k], k);
      assert stmts[k] == s;
    }
    ReversibleAgainstOutputs(stmts, lines);
  }

  /** Statements reversible exactly where their lines are not outputs split
      the lines into the two counts. */
  lemma {:induction false} ReversibleAgainstOutputs(stmts: seq<Statement>, lines: seq<string>)
    requires |stmts| == |lines|
    requires forall k :: 0 <= k < |lines| ==> (stmts[k].isReversible <==> TypeOf(lines[k]) != Output)
    ensures CountReversible(stmts) + CountOutputs(lines) == |lines|
    decreases |lines|
  {
    if |lines| > 0 {
      var n := |lines|;
      ReversibleAgainstOutputs(stmts[..n - 1], lines[..n - 1]);
    }
  }

  /** With cell generation the compiled program holds one cell per statement
      that yields one. */
  lemma CompiledCellCount(code: string)
    ensures |Built(code, true).cells| == CellCount(Built(code, false).statements)
  {
    var m := Built(code, false);
    GenerateKeeps(m, 0, GenerateCell);
  }

  /** The legacy text and the statement classifier agree: a line yields L4 text
      exactly when it is an inheritance, a send or an output. */
  lemma LegacyLineIffClassified(t: string)
    ensures LegacyLine(t) == "" <==> TypeOf(t) == Unknown
  {
  }

  /** A short inheritance line is copied after "root_proto ". */
  lemma LegacyInheritance(t: string)
    requires TypeOf(t) == Inheritance && |t| < 499
    ensures LegacyLine(t) == "root_proto " + t + "\n"
  {
    SplitAtFirst(t, " <- ");
  }
}
