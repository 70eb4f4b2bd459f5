# A verified model of the Moop/Rio runtime core

This project models, in Dafny, the core of the Moop/Rio experimental language runtime (a C code base).
Each core C file becomes one Dafny module.
A module takes the form of its C file: classes with `modifies` clauses where the C code updates records and arrays in place, and datatypes, functions and lemmas where it computes values.

| module | C source | what it models |
|---|---|---|
| `HrIr` | `src/hr_ir.c` | HRIR cells, the inverse table (add/subtract, multiply/divide), the append-only program with ids from `next_id`, and the runtime that steps, undoes, runs, checkpoints and rolls back the program counter |
| `ConsistencyChecker` | `src/consistency_checker.c` | the structural validator of HRIR programs, the step/undo/redo drive of the L1/L0 check, and the three-part suite |
| `CStrings` | `src/l3_turchin.c`, `src/l5_moop.c` | the C string helpers the runtime uses: `strstr`/`strchr` search, trimming, `atoi`, decimal printing, `strtok` tokenizing |
| `L3Store`, `L3Queue` | `src/l3_turchin.c` | the per-actor key/value state store and the circular mailbox that doubles its capacity |
| `L3Parse` | `src/l3_turchin.c` | the line-based parser of actor definitions (`actor`, `role is`, `state has`, `on`) |
| `L3Eval` | `src/l3_turchin.c` | evaluation of expressions and conditions in a handler body |
| `L3Exec` | `src/l3_turchin.c` | the handler interpreter: statement forms, `if`/`while`/`for` blocks and the execution context |
| `L3Runtime` | `src/l3_turchin.c` | the actor registry: spawning, sending, lookup by name, and the one-message-per-actor tick |
| `L5Moop` | `src/l5_moop.c` | the moop statement program: statement classification, HRIR cell generation, execution with a history stack, undo, checkpoints, rollback, and both compile paths |
| `BitGates` | `src/moop_core.c`, `src/r_layer_minimal.c` | the shared semantics of the CCNOT/CNOT/NOT/SWAP gates over 0/1 qubits, their replay and unwinding, and the gate text format |
| `MoopCore` | `src/moop_core.c` | the R runtime with its gate history, restore and step-back, the D gates built on it, MAYBE, and the S prototype/actor registry |
| `RLayerMinimal` | `src/r_layer_minimal.c` | the minimal R layer: gates, cell execution, checkpoint, restore, step back and step forward |
| `RLayer` | `src/r_layer.c` | the full R layer: cell memory, range-checked gates, cell execution with arity checks, checkpoints, rewinding and stepping |
| `DLayer` | `src/d_layer.c` | AND/OR/NAND/NOR/XOR on top of the R layer, the resolve-once MAYBE, and the actor message queue |
| `SurfaceParser` | `src/surface_parser.c` | the surface lexer with line and column tracking, R/D classification and PascalCase |
| `SimpleParser` | `src/simple_parser.c` | the two-arrow lexer and parser that `parse_surface` actually uses |
| `UnifiedCompiler` | `src/unified_compiler.c` | canonical paths, reversible IR, membrane logs, HRIR lowering, validation and the compile driver |
| `RioApi` | `src/rio_api.c` | `rio_compile_string`, the result accessors, AST node access, the inheritance-map queries and canonical-path splitting |

Modelling conventions:
- C strings are `seq<char>`. A C `NULL` argument or result is an `Option` or a nullable reference.
- The runtime's qubits are `array<bool>`, because every write in the C code keeps each byte 0 or 1.
- Integers are unbounded. Two places where C integer width changes a result are written out: the `uint32_t` cast in `r_execute_cell` (`RLayer.U32Wraps`) and the 256-byte `snprintf` buffers of the compiler (`UnifiedCompiler.Clip`). The other width effects (the `int` result of `atoi`, the `for` loop at `INT_MAX`, a `size_t` counter going below 0, the saturation of `strtoul`, the `(int)` cast of `time`) are listed under "## Left out".
- Values the C code draws from the environment are parameters: the wall clock `time()`, process-wide static counters, and the external `bc` calculator.
  The `bc` calculator becomes the parameter `Calc` of `L3Eval`: a function from the text given to `bc` to what it prints, and a number of rounds after which the `state.` substitution loop counts as never ending.
- `atof` becomes an exact parse of plain decimals into `real` (`L3Eval.Atof`); the forms it does not read are listed under "## Left out".

Where the design notes and the code disagree, the model follows the code:
- The design notes say a handler body is an indentation-scoped block tree. But `l3_parse_actor` trims every body line (`src/l3_turchin.c:632-643`), so a parsed body is flat. A block therefore runs to the end of the handler, and a false `if` skips every remaining line (`L3Exec.FalseIfEndsParsedHandler`).
- The design notes say a message sent during a tick is seen only on a later tick. But `l3_tick` visits actors in spawn order, so a message sent to an actor spawned later is handled in the same tick (`L3Runtime.LaterActorHandlesSameTick`).
- Assignments written with `=` instead of `->` change nothing (`L3Exec.ExecLineNoArrow`).

## Model

Functions that only compute a value have no row of their own. The rows of the lemmas and methods about them state what they compute:
- `L3Eval.EvalExpr`: `EvalQuoted`, `EvalIntLiteral`, `EvalStateReference`, `CalcTextInert`, `CalcTextSelfReference`. `L3Eval.EvalCond` and `L3Eval.Compare`: `CondWithoutOperator`, `TruthOfLiteral`, `FirstOperator`, `CompareValues`, `CompareInts`, `NotEqualNegatesEqual`. `L3Eval.Atof`: `AtofOfInt`. `L3Eval.IsNumber`: `NumberScanMeaning`, `IntToStringIsNumber`. `L3Eval.SubstituteLocals`: `SubstituteLocalAtStart`, `CalcTextInert`.
- `L3Substitute.SubstituteState` and `L3Substitute.StateRewriteStep`: `SubstituteAgreesOneStep`, `SubstituteWithoutReference`, `StateRewriteStuck`, `L3Rewrite.StepShift`, `L3Rewrite.RewriteAgreesInert`.
- `L3Exec.ActionOf`, `Perform` and `ExecLine`: `LetAction`, `AssignAction`, `AssignmentAction`, `SendAction`, `LetSetsLocal`, `AssignSetsState`, `SendToNamedActor`, `ExecLineNoArrow`, `PerformKeeps`, `ExecutionContext.ExecuteLine`. `L3Exec.ExecBlock`, `WhileLoop`, `ForLoop` and `ExecHandler`: `ExecBlockKeeps`, `WhileLoopKeeps`, `ForLoopKeeps`, `ExecHandlerSound`, `FalseIfEndsParsedHandler` and the `ExecutionContext` methods whose loops compute them.
- `L3Parse.ParseLine` and `L3Parse.Parsed`: `Classify`, `ParseLineKeeps`, `ParsedWellFormed`, `ArrowPreferred`, `RoleUnquoted`, and `ParseActor`, whose loop computes `Parsed`.
- `HrIr.FromSendOperation`: `FromSendOperationSpec`. `HrIr.MarkExecuted`: `StepKeepsPrefix`, `StepThenUndo`, `Runtime.Step`.
- `CStrings.Atoi`: `AtoiOfDigits`, `AtoiOfNegative`, `NegativeDigits`. `CStrings.IntToString`: `IntToStringRoundTrip`, `NatToString`, `NatToStringValue`.
- `L5Moop.GenerateCell`: `GenerateCellSpec`. `L5Moop.Mark`: `MarkKeepsIds`, `MoopProgram.ExecuteStatement`. `L5Moop.Legacy`, `LegacyLine` and `Truncate`: `CompileLegacy`, `LegacyLineIffClassified`, `LegacyInheritance`, `ConcatLines`. `L5Moop.ReadLines`: `TakeThroughStops`, `TakeThroughAll`.
- `BitGates.Run` and `BitGates.Unwind`: `RunSnoc`, `UnwindSnoc`, `UnwindRun`. `BitGates.Print` and `BitGates.Parse`: `ParsePrint`, `PrintParse`, `ParseNormal`.
- `UnifiedCompiler.CanonicalText`: `CanonicalizePaths`, `CanonicalLines`. `UnifiedCompiler.ReversibleIr`: `GenerateReversibleIr`, `IrLines`. `UnifiedCompiler.MembraneLogs`: `GenerateMembraneLogs`, `MembraneNoticeIff`. `UnifiedCompiler.Validation` and `UnifiedCompiler.HasCycle`: `ValidateUnified`, `CycleIsDuplicate`, `MutuallyContainedIsEqual`.
- `RioApi.Parents`: `ParentsUpTo`, `ParentsMembers`, `ParentsMentioned`, `ParsedParents`, `GetParents`.

| member | source | states |
|---|---|---|
| BitGates.Apply | src/r_layer_minimal.c:53-82 | one gate on a row of bits keeps its length; its effect (CCNOT, CNOT, NOT, SWAP, codes above 3 ignored) is what the runtime methods and ApplyTwice state |
| BitGates.ApplyTwice | src/moop_core.c:31-51 | running a gate twice gives the bits back when its target is not one of its controls |
| BitGates.AliasedNotUndone | src/moop_core.c:31-39 | a CCNOT or CNOT whose target is one of its controls is not undone by running it again, with the controls set |
| BitGates.RunSnoc | src/r_layer_minimal.c:75-82 | running one more gate applies it to the bits the earlier gates left |
| BitGates.UnwindSnoc | src/r_layer_minimal.c:99-103 | unwinding a history whose last gate is g first re-executes g |
| BitGates.UnwindRun | src/moop_core.c:58-69 | re-executing a history from its last gate to its first restores the bits it started from when every gate is self-inverse |
| BitGates.ScanBytes | src/moop_core.c:84-91 | the "%hhu" conversions stop at the first failure, so at most k values are read |
| BitGates.Scan | src/moop_core.c:84-91 | sscanf with a literal gate name reads at most k operands |
| BitGates.ParseNormal | src/moop_core.c:84-91 | a parsed cell has a gate code below 4 and zero unused operands; a text naming no gate gives the all-zero cell |
| BitGates.Missing | src/moop_core.c:86-89 | strstr finds no pattern one of whose characters is absent from the text |
| BitGates.ScanThree | src/moop_core.c:93-98 | the three printed operands read back as the three indices |
| BitGates.ParsePrint | src/r_layer_minimal.c:115-130 | printing then parsing gives the cell with its unused operands cleared, exact precisely for cells as gate calls record them |
| BitGates.PrintParse | src/moop_core.c:84-98 | the text of a parsed cell parses to that same cell |
| ConsistencyChecker.ValidateFrom | src/consistency_checker.c:172-209 | the scan succeeds iff no cell from i on has a problem; on failure it reports the first such cell's message and counts the cells up to it; on success it counts them all |
| ConsistencyChecker.Validate | src/consistency_checker.c:155-223 | a NULL program is "Invalid program"; otherwise consistent iff no cell has a problem |
| ConsistencyChecker.EmptyIsConsistent | src/consistency_checker.c:245-255 | an empty program is consistent with nothing checked |
| ConsistencyChecker.ZeroArgumentCellFails | src/consistency_checker.c:183-187 | any cell without an argument array makes validation fail |
| ConsistencyChecker.CreatedWithoutArgumentsHasNoArray | src/hr_ir.c:32-75 | a cell created with no arguments has no argument array, so validation rejects it |
| ConsistencyChecker.AddedCellsHaveNoDuplicate | src/consistency_checker.c:196-206 | the ids hr_ir_add_cell assigns never collide, so the duplicate-id check never fires on a built program |
| ConsistencyChecker.ReversibleOutsideTableFails | src/consistency_checker.c:189-194 | a reversible cell whose opcode is outside the inverse table makes validation fail |
| ConsistencyChecker.DTermsBefore | src/consistency_checker.c:104-124 | the effect index at cell k is at most k |
| ConsistencyChecker.CheckFromInStep | src/consistency_checker.c:69-129 | driven in step, the check succeeds iff no d-term cell expects the opposite outcome of its step; success checks every cell and counts the matching effects; failure is "D-term side effect mismatch" |
| ConsistencyChecker.CheckFromStart | src/consistency_checker.c:66-137 | from a fresh runtime the check succeeds iff no d-term mismatch, with the counts above |
| ConsistencyChecker.CheckL1L0 | src/consistency_checker.c:40-150 | NULL arguments give "Invalid parameters"; otherwise the result is the drive over the program's cells, and success leaves the runtime complete |
| ConsistencyChecker.DriveCell | src/consistency_checker.c:70-128 | one iteration of the drive: step, and for a reversible cell undo and redo, changing only the program counter |
| ConsistencyChecker.RunSuite | src/consistency_checker.c:228-283 | returns 0 iff the given program validates, else 1 (the empty and the two-cell test programs always pass) |
| CStrings.FindFrom | src/l3_turchin.c:789 | strstr from an offset returns an occurrence of the pattern at or after the offset |
| CStrings.FindFromFirst | src/l3_turchin.c:789 | the occurrence found from an offset is the first one, and none found means none exists |
| CStrings.Find | src/l5_moop.c:62-66 | strstr returns an index where the pattern occurs |
| CStrings.FindFirst | src/l3_turchin.c:878 | strstr finds the first occurrence, and NULL means the pattern occurs nowhere |
| CStrings.IndexOfChar | src/l3_turchin.c:965 | strchr returns the first index holding the character, and none means the character is absent |
| CStrings.LastIndexOfChar | src/l5_moop.c:146 | strrchr returns the last index holding the character, and none means the character is absent |
| CStrings.SplitAtFirst | src/l5_moop.c:88-100 | a text containing the pattern is the part before its first occurrence, the pattern and the rest, and the part before does not contain the pattern |
| CStrings.Substring | src/l3_turchin.c:50-63 | l3_substring is empty from a start at or past the end; otherwise it is the text from start, cut to len or to the end |
| CStrings.TrimLeft | src/l3_turchin.c:27-28 | skipping leading white space leaves a suffix that does not start with white space |
| CStrings.TrimLeftShape | src/l3_turchin.c:27-28 | the dropped prefix is all white space |
| CStrings.TrimRight | src/l3_turchin.c:33-36 | dropping trailing white space leaves a prefix that does not end with white space |
| CStrings.TrimRightShape | src/l3_turchin.c:33-36 | the dropped suffix is all white space |
| CStrings.Trim | src/l3_turchin.c:24-43 | l3_trim's result neither starts nor ends with white space |
| CStrings.TrimShape | src/l3_turchin.c:24-43 | l3_trim's result is a slice of the input with only white space around it |
| CStrings.TrimIdempotent | src/l3_turchin.c:24-43 | trimming twice is trimming once |
| CStrings.TrimOfUnpadded | src/l3_turchin.c:24-43 | a text without white space at either end is left as it is |
| CStrings.TrimPadded | src/l3_turchin.c:24-43 | trimming white space around an unpadded text gives that text |
| CStrings.DigitChar | src/l3_turchin.c:1223 | the digit printed for a value below 10 reads back as that value |
| CStrings.LeadingDigits | src/l3_turchin.c:1190 | the digits atoi reads are a prefix of the text that stops before a non-digit |
| CStrings.SkipSpace | src/l3_turchin.c:891 | atoi/atof skip leading white space and keep the rest of the text |
| CStrings.NatToString | src/l3_turchin.c:1223 | "%u" of a natural number is a non-empty run of digits without a leading zero |
| CStrings.NatToStringValue | src/l3_turchin.c:1223 | the printed digits read back as the number |
| CStrings.LeadingDigitsOfDigits | src/l3_turchin.c:1190 | the leading digits of digits followed by a non-digit are those digits |
| CStrings.SkipSpaceNoSpace | src/l3_turchin.c:1190 | a text not starting with white space is not skipped |
| CStrings.AtoiOfDigits | src/l3_turchin.c:1190 | atoi of digits followed by a non-digit is their value |
| CStrings.AtoiOfNegative | src/l3_turchin.c:1191 | atoi of "-" and digits followed by a non-digit is minus their value |
| CStrings.NegativeDigits | src/l3_turchin.c:1191 | atoi of "-" and any text is minus the value of the text's leading digits |
| CStrings.IntToStringRoundTrip | src/l3_turchin.c:1223 | atoi reads back an integer printed with "%d" and followed by a non-digit |
| CStrings.Split | src/l3_turchin.c:1267-1270 | splitting at a separator gives at least one piece, and no piece contains the separator |
| CStrings.JoinSplit | src/l3_turchin.c:1267-1270 | joining the pieces with the separator gives the text back |
| CStrings.SplitJoin | src/l3_turchin.c:1267-1270 | splitting pieces free of the separator, joined with it, gives the pieces back |
| CStrings.Tokens | src/l3_turchin.c:1267-1270 | strtok's tokens are non-empty and free of the delimiter |
| CStrings.NonEmpty | src/l3_turchin.c:511-525 | dropping empty pieces leaves only non-empty pieces of the input |
| CStrings.NonEmptyKeeps | src/l3_turchin.c:511-525 | pieces that are all non-empty are kept as they are |
| CStrings.TokensJoin | src/l3_turchin.c:1267-1270 | strtok over non-empty, delimiter-free pieces joined by the delimiter gives the pieces back |
| HrIr.CreateCell | src/hr_ir.c:32-75 | no cell without an opcode; otherwise the cell carries the opcode and the arguments, has no argument array when there are none, and starts reversible, unexecuted, without result, inverse or id |
| HrIr.LookupAt | src/hr_ir.c:80-93 | the inverse table answers with the entry of the first matching key |
| HrIr.LookupMissing | src/hr_ir.c:90-93 | a key missing from the inverse table has no entry |
| HrIr.InverseOpcodeTable | src/hr_ir.c:80-93 | add and subtract are each other's inverse, so are multiply and divide, and every other opcode has none |
| HrIr.CreateInverse | src/hr_ir.c:77-96 | an inverse exists exactly for a present reversible cell with an arithmetic opcode; it has the inverse opcode and the same arguments |
| HrIr.InverseOpcodeInvolutive | src/hr_ir.c:80-93 | inverting an opcode twice gives it back, and no opcode is its own inverse |
| HrIr.InverseOfInverse | src/hr_ir.c:77-96 | the inverse of an invertible cell's inverse has the cell's opcode and arguments |
| HrIr.FromSendOperationSpec | src/hr_ir.c:386-400 | a send becomes a cell exactly when target and selector are given and the selector is add, subtract, multiply, divide or output; output becomes the print opcode, and the cell is the one hr_ir_create_cell builds |
| HrIr.FromDTermOperation | src/hr_ir.c:402-411 | a D-term operation becomes a cell exactly when it is given; the cell is irreversible and otherwise the one hr_ir_create_cell builds |
| HrIr.DTermHasNoInverse | src/hr_ir.c:78 | a D-term cell never has an inverse |
| HrIr.Attach | src/hr_ir.c:177-188 | adding a cell gives it the id and, when it is reversible without an inverse, attaches its inverse, whose own inverse stays unset; nothing else changes |
| HrIr.StepKeepsPrefix | src/hr_ir.c:297-315 | a step keeps "exactly the cells before pc are executed" |
| HrIr.UndoKeepsPrefix | src/hr_ir.c:327-346 | an undo keeps that invariant with pc one lower |
| HrIr.RunEstablishesPrefix | src/hr_ir.c:317-325 | after a run every cell is executed |
| HrIr.RollbackKeepsPrefix | src/hr_ir.c:355-363 | a rollback to a checkpoint below pc keeps the invariant at the checkpoint |
| HrIr.StepThenUndo | src/hr_ir.c:297-346 | undoing a step on a pristine cell restores the cell list exactly |
| HrIr.GetStats | src/hr_ir.c:417-437 | the statistics count every cell once, as R-term or D-term, and no more executed cells than cells |
| HrIr.ExecutedCountIsPc | src/hr_ir.c:417-437 | under the execution invariant the executed count equals pc |
| HrIr.FindById | src/hr_ir.c:193-202 | the search by id returns a cell of the list with that id, and none means no cell has it |
| HrIr.FindByIdUnique | src/hr_ir.c:193-202 | with strictly increasing ids the search finds exactly the cell holding the id |
| HrIr.Program.constructor | src/hr_ir.c:141-163 | a new program is empty, at pc 0, with next id 1 |
| HrIr.Program.AddCell | src/hr_ir.c:165-191 | a missing cell is refused and changes nothing; otherwise the cell is appended with the next id and its inverse, and the id counter advances |
| HrIr.Program.GetCell | src/hr_ir.c:204-207 | a cell is returned exactly for an index inside the list, and it is the cell at that index |
| HrIr.Program.GetCellById | src/hr_ir.c:193-202 | nothing is returned exactly when no cell has the id; in a valid program the returned cell is the one with the id |
| HrIr.Runtime.constructor | src/hr_ir.c:282-295 | a new runtime is over the program with checkpoint and counters at 0 |
| HrIr.Runtime.IsComplete | src/hr_ir.c:369-372 | the runtime is complete exactly when pc has reached the end of the cells |
| HrIr.Runtime.Step | src/hr_ir.c:297-315 | a step succeeds exactly when pc is inside the cells; it marks that cell executed, advances pc and the step counter, and leaves everything else |
| HrIr.Runtime.Run | src/hr_ir.c:317-325 | a run marks every cell from pc to the end executed, ends at the end and counts each step |
| HrIr.Runtime.Undo | src/hr_ir.c:327-346 | an undo succeeds exactly when pc is above 0; it moves pc back, unmarks that cell, and counts one fewer step and one more rollback |
| HrIr.Runtime.Checkpoint | src/hr_ir.c:348-353 | the checkpoint records the current pc |
| HrIr.Runtime.Rollback | src/hr_ir.c:355-363 | with pc above the checkpoint, pc returns to it, the cells in between are unmarked and the counters move by the distance; otherwise nothing changes |
| L3Store.KeyIndexFrom | src/l3_turchin.c:91-97 | the scan from an index finds the first entry at or after it holding the key, and none means no such entry |
| L3Store.KeyIndex | src/l3_turchin.c:91-97 | the scan finds the first entry holding the key, and none means the key is absent |
| L3Store.Lookup | src/l3_turchin.c:122-132 | l3_state_get answers exactly for a key that some entry holds |
| L3Store.Put | src/l3_turchin.c:88-119 | l3_state_set adds an entry exactly when the key is new and never changes the keys already there or their order |
| L3Store.LookupPutSame | src/l3_turchin.c:88-132 | reading a key just set gives the value set |
| L3Store.LookupPutOther | src/l3_turchin.c:88-132 | setting a key leaves every other key's value as it was |
| L3Store.PutKeepsUnique | src/l3_turchin.c:88-119 | setting keeps every key held by one entry only |
| L3Store.PutAllSnoc | src/l3_turchin.c:302-307 | copying entries one more is setting that entry after copying the rest |
| L3Store.CopyIsIdentity | src/l3_turchin.c:302-307 | copying a store with unique keys into an empty one reproduces it, in order |
| L3Store.CopyPrefix | src/l3_turchin.c:302-307 | copying the remaining entries onto a prefix of a unique-key store gives the whole store |
| L3Store.KeyIndexSkips | src/l3_turchin.c:91-97 | entries without the key before the scan position do not change what the scan finds |
| L3Store.StateStore.constructor | src/l3_turchin.c:69-86 | a new state store is empty |
| L3Store.StateStore.Set | src/l3_turchin.c:88-119 | a missing key is refused and changes nothing; otherwise the entry is updated in place or appended |
| L3Store.StateStore.Get | src/l3_turchin.c:122-132 | a missing key gives nothing; otherwise the value of the key's entry, or nothing when there is none |
| L3Queue.ModSlot | src/l3_turchin.c:198 | advancing a ring index by one modulo the capacity wraps exactly at the end |
| L3Queue.Mailbox.constructor | src/l3_turchin.c:151-167 | a new mailbox is empty with room for 64 messages |
| L3Queue.Mailbox.Push | src/l3_turchin.c:169-202 | a push appends the message with its data, "{}" when absent, and the clock reading; a full ring doubles and is laid out from slot 0 |
| L3Queue.Mailbox.Grow | src/l3_turchin.c:172-188 | growing doubles the capacity, copies the messages in order from slot 0 and keeps the contents |
| L3Queue.Mailbox.Pop | src/l3_turchin.c:204-212 | popping an empty mailbox gives nothing; otherwise it gives the oldest message and removes it |
| L3Queue.FifoOrder | src/l3_turchin.c:169-212 | two messages pushed into a new mailbox come out in the order they went in |
| L3Parse.Classify | src/l3_turchin.c:529-643 | a line counts as a state entry only when it holds its separator ("->" or " is "), and as handler body only while a handler is open |
| L3Parse.ParseActor | src/l3_turchin.c:497-670 | the strtok loop over the lines computes the line-by-line definition parse; no code gives no definition |
| L3Parse.AppendKeepsUnindented | src/l3_turchin.c:632-643 | appending a trimmed line to a handler body with a newline keeps every body line unindented |
| L3Parse.ParseLineKeeps | src/l3_turchin.c:520-647 | parsing one line keeps the initial-state keys unique and the handler bodies unindented |
| L3Parse.TrimKeepsNoNewline | src/l3_turchin.c:521 | trimming a strtok line never brings a newline into it |
| L3Parse.ParseLinesKeeps | src/l3_turchin.c:520-660 | parsing all lines keeps those two invariants |
| L3Parse.ParsedWellFormed | src/l3_turchin.c:497-670 | a parsed definition has unique state keys and handler bodies whose lines start unindented |
| L3Parse.ArrowPreferred | src/l3_turchin.c:577-583 | when a state line holds "->", the key is the trimmed text before it, even if " is " occurs too |
| L3Parse.RoleUnquoted | src/l3_turchin.c:542-546 | a quoted role loses its first and last character |
| L3Eval.NumberScanMeaning | src/l3_turchin.c:676-696 | the digit scan accepts exactly digits with at most one dot and at least one digit |
| L3Eval.IntToStringIsNumber | src/l3_turchin.c:676-696 | every printed integer counts as a number |
| L3Eval.DigitsHaveNoDot | src/l3_turchin.c:684-693 | a run of digits holds no dot |
| L3Eval.AtofOfInt | src/l3_turchin.c:891-892 | atof reads a printed integer back as its value |
| L3Eval.SubstituteLocalAtStart | src/l3_turchin.c:792-817 | a local name at the start of the text is replaced by its value exactly when no letter or digit follows it |
| L3Substitute.LeadingName | src/l3_turchin.c:765-767 | the name after "state." is the longest prefix of letters, digits and '_' |
| L3Substitute.FirstReference | src/l3_turchin.c:762-770 | a "state." reference found leaves a strictly shorter text after it |
| L3Substitute.StateRewriteStuck | src/l3_turchin.c:762-790 | a state value that is its own reference ("state.n") survives the rewrite step, so the C loop finds it again and never ends |
| L3Substitute.LeadingReference | src/l3_turchin.c:762-770 | a text that starts with "state.", a name and a non-name character has its first reference right there |
| L3Substitute.LeadingNameOf | src/l3_turchin.c:767 | the name scan stops exactly at the first non-name character |
| L3Substitute.NotInSuffix | src/l3_turchin.c:789 | a pattern absent from a text is absent from every suffix of it |
| L3Substitute.SubstituteAgreesOneStep | src/l3_turchin.c:762-790 | when one rewrite step leaves no reference, the terminating substitution gives the same text |
| L3Substitute.SubstituteWithoutReference | src/l3_turchin.c:762-763 | a text without "state." is left unchanged |
| L3Substitute.ReferenceFrom | src/l3_turchin.c:762-770 | the reference at a "state." occurrence leaves a strictly shorter text after it |
| L3Substitute.RewriteStates | src/l3_turchin.c:762-790 | the rescanning loop as written, run for a number of rounds: when it ends, its text holds no "state." |
| L3Substitute.RewriteStatesMore | src/l3_turchin.c:762-790 | a loop that ends within n rounds ends with the same text within any more rounds |
| L3Substitute.RewriteNeverEnds | src/l3_turchin.c:762-790 | with a state value that is its own reference the loop ends within no number of rounds |
| L3Rewrite.NoStraddle | src/l3_turchin.c:789 | two texts without the pattern, joined where one of the two touching characters is not in the pattern, have no occurrence in their join |
| L3Rewrite.FindShift | src/l3_turchin.c:789 | behind a settled prefix, strstr finds "state." exactly where it finds it in the rest, shifted by the prefix |
| L3Rewrite.StepShift | src/l3_turchin.c:762-790 | one rewrite step behind a settled prefix rewrites only the rest |
| L3Rewrite.PrefixRewrite | src/l3_turchin.c:762-790 | the rescanning loop behind a settled prefix runs on the rest, round for round |
| L3Rewrite.RewriteAgreesInert | src/l3_turchin.c:762-790 | when no state value can form a reference, the loop as written ends within the text's length in rounds and gives the left-to-right substitution |
| L3Eval.CalcTextInert | src/l3_turchin.c:757-797 | with state values that cannot form references, given at least the text's length in rounds, the calculator gets the left-to-right substitution followed by the locals |
| L3Eval.CalcTextSelfReference | src/l3_turchin.c:757-797 | with a self-referencing state value the calculator is never reached |
| L3Eval.EvalQuoted | src/l3_turchin.c:739-744 | a quoted literal evaluates to its inside |
| L3Eval.QuotedShape | src/l3_turchin.c:740-741 | a quoted text is already trimmed, starts with a quote and unquotes to its inside |
| L3Eval.EvalIntLiteral | src/l3_turchin.c:746-749 | an integer literal evaluates to itself |
| L3Eval.EvalStateReference | src/l3_turchin.c:850-855 | "state.k" evaluates to the state value of k, or "0" when k is unset |
| L3Eval.StateReferenceShape | src/l3_turchin.c:850-851 | "state.k" is trimmed, unquoted, no boolean and starts with "state." followed by k |
| L3Eval.StateReferenceNoOperator | src/l3_turchin.c:757 | "state.k" holds none of the characters that send an expression to bc |
| L3Eval.StateReferenceNotNumber | src/l3_turchin.c:747 | "state.k" is never a number literal |
| L3Eval.FirstOperator | src/l3_turchin.c:875-879 | the operator the condition splits at is one of the six comparison operators and occurs in it |
| L3Eval.NotEqualNegatesEqual | src/l3_turchin.c:899-900 | "!=" is exactly the negation of "==" |
| L3Eval.CompareValues | src/l3_turchin.c:891-900 | each comparison compares the numeric values of its sides when equal texts have equal values |
| L3Eval.CompareInts | src/l3_turchin.c:891-900 | comparing printed integers is comparing the integers |
| L3Eval.NoFirstOperator | src/l3_turchin.c:877-910 | with none of the remaining operators present no split happens |
| L3Eval.NoOperatorInDigits | src/l3_turchin.c:875-878 | a run of digits holds no comparison operator |
| L3Eval.CondWithoutOperator | src/l3_turchin.c:912-914 | a condition without an operator is true exactly when its value is "true" or atoi of it is not 0 |
| L3Eval.TruthOfInt | src/l3_turchin.c:912-914 | a non-negative integer literal is true exactly when it is not 0 |
| L3Eval.TruthOfLiteral | src/l3_turchin.c:912-914 | a trimmed literal without operators that evaluates to itself is true exactly when atoi of it is not 0 |
| L3Eval.NaturalLiteral | src/l3_turchin.c:912-914 | a printed natural number is trimmed, not "true", free of operators and read back by atoi |
| L3Exec.HandlerEnv | src/l3_turchin.c:1254-1282 | a handler runs with the message data, the actors it can address, and the expression and condition evaluators over the bc stand-in |
| L3Exec.ActorIdByName | src/l3_turchin.c:365-375 | a name resolves to the id of an actor with that name, and to -1 when no actor has it |
| L3Exec.FirstWord | src/l3_turchin.c:964-972 | the message name is the prefix before the first space, or the whole message without one |
| L3Exec.ArrowSplit | src/l3_turchin.c:956-962 | a line splits into target and value exactly when it holds "->" |
| L3Exec.Indent | src/l3_turchin.c:929-933 | the indent counts the leading spaces, stopping at the first non-space |
| L3Exec.BodyLines | src/l3_turchin.c:1257-1271 | the handler's lines are the strtok pieces of its body, one line per piece, in order |
| L3Exec.Collect | src/l3_turchin.c:1081-1103 | the block body ends at the first non-blank line indented less than the first non-blank line; every non-blank line before it is indented at least that much, and a body with no non-blank line has no indent and runs to the end |
| L3Exec.Next | src/l3_turchin.c:1053-1251 | each statement moves the line index strictly forward, never past the end |
| L3Exec.ExecLineNoArrow | src/l3_turchin.c:935-1051 | a line without "->" changes no state, local or outbox (self-log and log only print) |
| L3Exec.ArrowAt | src/l3_turchin.c:956 | the arrow of "x -> y" is found just after x when x holds none |
| L3Exec.ArrowParts | src/l3_turchin.c:957-962 | trimming around the arrow of "x -> e" gives back x and e |
| L3Exec.ArrowSplitOf | src/l3_turchin.c:956-962 | "x -> e" splits into x and e |
| L3Exec.LetAction | src/l3_turchin.c:988-1008 | "let x -> e" is the local assignment of e to x |
| L3Exec.LetSetsLocal | src/l3_turchin.c:988-1008 | running "let x -> e" sets local x to the value of e and changes nothing else |
| L3Exec.StateTargetHasNoArrow | src/l3_turchin.c:1012 | a target "state.k" holds no arrow |
| L3Exec.AssignmentAction | src/l3_turchin.c:1009-1033 | "x -> e" with a lower-case target assigns e to state key x[6..] when x starts with "state." and to local x otherwise |
| L3Exec.AssignAction | src/l3_turchin.c:1021-1024 | "state.k -> e" assigns e to state key k |
| L3Exec.AssignSetsState | src/l3_turchin.c:1021-1024 | running "state.k -> e" sets state key k to the value of e and changes nothing else |
| L3Exec.SendAction | src/l3_turchin.c:955-986 | "Name -> msg" with a capitalised name sends the first word of msg to Name |
| L3Exec.SendToNamedActor | src/l3_turchin.c:974-981 | the send appends a message with the handler's data to the outbox when the name resolves, and does nothing when it does not |
| L3Exec.SplitUnindented | src/l3_turchin.c:1267-1270 | the pieces of a body whose lines all start unindented start with a non-space |
| L3Exec.TokensUnindented | src/l3_turchin.c:1267-1270 | such a body's strtok lines all have indent 0 |
| L3Exec.CollectFlat | src/l3_turchin.c:1081-1103 | in lines all at indent 0 a block body runs to the end |
| L3Exec.FalseIfEndsFlatBlock | src/l3_turchin.c:1074-1113 | in a flat handler a false "if" swallows every later line, so nothing more runs |
| L3Exec.WhileSpansFlatBlock | src/l3_turchin.c:1116-1166 | in a flat handler a "while" loops over every later line |
| L3Exec.IfLine | src/l3_turchin.c:1074-1075 | a line starting with "if " is an if statement over the trimmed rest |
| L3Exec.ParsedBodyFlat | src/l3_turchin.c:632-643 | every line of a parsed handler body has indent 0, since the parser stores trimmed lines |
| L3Exec.FalseIfEndsParsedHandler | src/l3_turchin.c:1074-1113 | so in any parsed handler a false "if" ends the handler: its would-be body is everything after it |
| L3Exec.PerformKeeps | src/l3_turchin.c:935-1051 | a line keeps the state keys unique, only sends to known actors and only appends to the outbox |
| L3Exec.ExecBlockKeeps | src/l3_turchin.c:1053-1252 | a block keeps those invariants |
| L3Exec.StmtEffectKeeps | src/l3_turchin.c:1053-1252 | one statement of a block keeps them |
| L3Exec.IfEffectKeeps | src/l3_turchin.c:1074-1113 | an if statement keeps them |
| L3Exec.WhileEffectKeeps | src/l3_turchin.c:1116-1166 | a while statement keeps them |
| L3Exec.ForEffectKeeps | src/l3_turchin.c:1169-1242 | a for statement keeps them |
| L3Exec.WhileLoopKeeps | src/l3_turchin.c:1150-1156 | every iteration of the bounded while loop keeps them |
| L3Exec.ForLoopKeeps | src/l3_turchin.c:1221-1230 | every iteration of the for loop keeps them |
| L3Exec.ExecHandlerSound | src/l3_turchin.c:1254-1282 | running a handler keeps unique state keys and queues messages only for existing actors |
| L3Exec.ExecutionContext.constructor | src/l3_turchin.c:404-412 | a new context holds the actor's state, no locals and an empty outbox |
| L3Exec.ExecutionContext.ExecuteLine | src/l3_turchin.c:935-1051 | a line changes the context exactly as its action prescribes |
| L3Exec.ExecutionContext.ExecuteBlock | src/l3_turchin.c:1053-1252 | the block loop changes the context as the block semantics prescribes |
| L3Exec.ExecutionContext.ExecuteStatement | src/l3_turchin.c:1058-1250 | one pass of the block loop runs one statement and returns the index of the next |
| L3Exec.ExecutionContext.ExecuteIf | src/l3_turchin.c:1074-1113 | the if statement runs its body once when the condition holds, and continues after the body |
| L3Exec.ExecutionContext.ExecuteWhileStatement | src/l3_turchin.c:1116-1166 | the while statement runs its loop and continues after the body |
| L3Exec.ExecutionContext.ExecuteForStatement | src/l3_turchin.c:1169-1242 | the for statement reads its bounds with atoi, runs its loop and continues after the body |
| L3Exec.ExecutionContext.ExecuteWhile | src/l3_turchin.c:1147-1156 | the while loop runs the body while the condition holds, at most 10000 times |
| L3Exec.ExecutionContext.ExecuteFor | src/l3_turchin.c:1221-1230 | the for loop sets the variable to each value from start to end inclusive and runs the body for each |
| L3Exec.CollectBody | src/l3_turchin.c:1081-1103 | the collecting loop finds the end and indent of a block body |
| L3Exec.ExecuteHandler | src/l3_turchin.c:1254-1282 | a handler runs its strtok lines as one block at indent 0 |
| L3Runtime.PeersOf | src/l3_turchin.c:365-375 | the actors a handler can address are the runtime's actors, with their ids and names, in order |
| L3Runtime.IndexOfId | src/l3_turchin.c:341-348 | the index found holds the first actor with the id, and none means no actor has it |
| L3Runtime.Deliver | src/l3_turchin.c:338-363 | delivering a message keeps every actor and keeps one queue per actor |
| L3Runtime.DeliverAll | src/l3_turchin.c:974-981 | delivering a handler's sends keeps every actor and one queue per actor |
| L3Runtime.HandlerFor | src/l3_turchin.c:391-398 | the handler chosen is the first one for the event, and none means no handler has that event |
| L3Runtime.Turn | src/l3_turchin.c:384-433 | one actor's turn keeps the number of actors and one queue per actor |
| L3Runtime.TickFrom | src/l3_turchin.c:381-435 | the turns from an actor onward keep the number of actors and one queue per actor |
| L3Runtime.ActorRuntime.constructor | src/l3_turchin.c:234-258 | a new runtime has no actors, next id 1 and is not running |
| L3Runtime.ActorRuntime.Start | src/l3_turchin.c:260-265 | starting sets the running flag and nothing else |
| L3Runtime.ActorRuntime.Stop | src/l3_turchin.c:267-272 | stopping clears the running flag and nothing else |
| L3Runtime.ActorRuntime.Spawn | src/l3_turchin.c:278-332 | no definition gives -1 and changes nothing; otherwise a new actor gets the next id, the definition's name, role, copied state and handlers, and an empty queue |
| L3Runtime.ActorRuntime.Send | src/l3_turchin.c:338-363 | a send succeeds exactly when the event is given and the id belongs to an actor; the message joins that actor's queue and nothing else changes |
| L3Runtime.ActorRuntime.IdIndex | src/l3_turchin.c:341-348 | the loop finds the index of the id |
| L3Runtime.ActorRuntime.GetActorByName | src/l3_turchin.c:365-375 | no name gives -1; otherwise the id of the first actor with the name, or -1 |
| L3Runtime.ActorRuntime.Tick | src/l3_turchin.c:381-435 | a tick gives every actor in order one turn, and later actors see messages sent earlier in the same tick |
| L3Runtime.ActorRuntime.TakeTurn | src/l3_turchin.c:385-433 | an actor's turn pops its oldest message, runs the first matching handler on its state and delivers what the handler sends |
| L3Runtime.ActorRuntime.DeliverOutbox | src/l3_turchin.c:974-981 | the handler's sends reach the target queues in the order they were made |
| L3Runtime.FindHandler | src/l3_turchin.c:391-398 | the handler loop finds the first handler for the event |
| L3Runtime.SpawnCopiesParsedState | src/l3_turchin.c:302-308 | a spawned actor's state equals its parsed definition's initial state, in order |
| L3Runtime.TotalUpdate | src/l3_turchin.c:355-356 | replacing one queue changes the total message count by the difference in its length |
| L3Runtime.KnownIsFound | src/l3_turchin.c:975-978 | a target id that resolved by name is found by id |
| L3Runtime.DeliverAllCount | src/l3_turchin.c:974-981 | delivering sends to known actors adds exactly one message per send |
| L3Runtime.TurnKeeps | src/l3_turchin.c:384-433 | a turn keeps state keys unique, the actors' ids, names, roles and handlers, leaves the world alone on an empty queue, and otherwise removes at most one message overall |
| L3Runtime.TurnConservesMessages | src/l3_turchin.c:384-433 | a handled turn removes one message and adds one per send |
| L3Runtime.TickKeeps | src/l3_turchin.c:381-435 | a tick keeps state keys unique and changes only the actors' states |
| L3Runtime.LaterActorHandlesSameTick | src/l3_turchin.c:384-415 | a message sent by the first actor to the second is handled by the second in the same tick |
| L3Runtime.FirstTurnSends | src/l3_turchin.c:384-415 | the first actor's turn consumes its message, updates its state and queues the send for the second |
| L3Runtime.SecondTurnHandles | src/l3_turchin.c:384-415 | the second actor's turn consumes that message and runs its handler |
| L5Moop.TypeOf | src/l5_moop.c:61-70 | a statement is an inheritance exactly when it holds " <- ", a send exactly when it holds " -> " but not " <- ", an output exactly when it holds "output " but neither arrow |
| L5Moop.ParseStatement | src/l5_moop.c:72-160 | the statement keeps its id, text and type; only an output is irreversible; it starts unexecuted and without a cell; an inheritance splits at its first " <- ", a send at its first " -> " with the selector ending before the first '(' |
| L5Moop.SplitsAtArrow | src/l5_moop.c:88-133 | the text is child, " <- " and parent, or target, " -> ", selector and an argument part that is empty or starts with '(' |
| L5Moop.OutputUnquotes | src/l5_moop.c:139-150 | the content of output "c" is c without its quotes |
| L5Moop.GenerateCellSpec | src/l5_moop.c:166-206 | a cell is generated exactly for a send whose selector hr_ir_from_send_operation accepts and for an output; a send cell is reversible with the selector's opcode (output as print) and no arguments; an output cell is an irreversible print of the content; every new cell is unexecuted, without result or inverse |
| L5Moop.Indices | src/l5_moop.c:290-301 | the history of a full run lists 0, 1, ..., n-1 |
| L5Moop.ExecutedUpTo | src/l5_moop.c:290-316 | after i iterations of the execution loop statements 0..i-1 are executed, the indices 0..i-1 are pushed on the history and nothing else in the program changes |
| L5Moop.UndoOne | src/l5_moop.c:324-339 | one undo iteration keeps the program's links and pops one history entry |
| L5Moop.UndoSteps | src/l5_moop.c:321-342 | undoing any number of steps keeps the program's links |
| L5Moop.RolledBack | src/l5_moop.c:351-364 | a rollback unmarks every statement, empties the history, and keeps the checkpoints and the numbers of statements and cells |
| L5Moop.GenStepWith | src/l5_moop.c:263-271 | one generation iteration keeps the number of statements |
| L5Moop.GenerateFromWith | src/l5_moop.c:259-275 | the generation loop keeps the number of statements |
| L5Moop.CellsBetweenSame | src/l5_moop.c:262-272 | statements that agree over a range yield the same number of cells there |
| L5Moop.MoopProgram.constructor | src/l5_moop.c:212-241 | a new program has no statements, no cells, history or checkpoints, and HRIR ids from 1 |
| L5Moop.MoopProgram.AddStatement | src/l5_moop.c:243-257 | a missing text is refused and changes nothing; otherwise the parsed statement is appended with the next index as id |
| L5Moop.MoopProgram.GenerateHrirCells | src/l5_moop.c:259-275 | the loop links every statement that yields a cell to a new HRIR cell, in order |
| L5Moop.MoopProgram.CreateCheckpoint | src/l5_moop.c:374-393 | the checkpoint "checkpoint_<count>_<time>" is returned and appended to the list |
| L5Moop.MoopProgram.ExecuteProgram | src/l5_moop.c:281-319 | execution takes one checkpoint, then runs every statement in order, recording each on the history |
| L5Moop.MoopProgram.ExecuteStatement | src/l5_moop.c:291-315 | one statement is marked executed, its cell marked with the result "executed_<opcode>_<time>" and its index pushed on the history |
| L5Moop.MoopProgram.UndoProgram | src/l5_moop.c:321-342 | undo refuses a non-positive count and otherwise pops that many history entries, as far as there are any |
| L5Moop.MoopProgram.PopHistory | src/l5_moop.c:325-336 | one undo iteration pops the last entry and unmarks that statement and its cell |
| L5Moop.MoopProgram.Unexecute | src/l5_moop.c:326-336 | unmarking a statement clears its executed flag and its cell's flag and result, and nothing else |
| L5Moop.MoopProgram.RollbackProgram | src/l5_moop.c:344-372 | a rollback succeeds exactly for a known checkpoint id and then resets every statement and cell and empties the history; otherwise nothing changes |
| L5Moop.MoopProgram.ResetStatements | src/l5_moop.c:351-364 | the reset loop unmarks every statement and cell and empties the history |
| L5Moop.UnmarkKeepsIds | src/l5_moop.c:331-335 | unmarking a cell keeps every id, so ids stay strictly increasing |
| L5Moop.MarkKeepsIds | src/l5_moop.c:307-313 | marking a cell keeps every id, so ids stay strictly increasing |
| L5Moop.LinkFreshKeepsLinked | src/l5_moop.c:264-270 | linking a statement to a newly added cell keeps every statement on its own cell |
| L5Moop.ExecutedNone | src/l5_moop.c:290 | before the first iteration nothing has changed |
| L5Moop.ExecutedStep | src/l5_moop.c:290-316 | each iteration of the execution loop executes one more statement, as ExecuteStatement does |
| L5Moop.ResetStep | src/l5_moop.c:351-361 | each iteration of the reset loop unmarks one more statement and its cell |
| L5Moop.ResetNone | src/l5_moop.c:351 | before the first reset iteration nothing has changed |
| L5Moop.ResetAll | src/l5_moop.c:351-364 | the full reset loop, with the history emptied, is the rollback |
| L5Moop.UndoPopsLifo | src/l5_moop.c:324-325 | undoing n steps removes the last min(n, history length) entries of the history |
| L5Moop.ExecutedLinked | src/l5_moop.c:290-316 | executing keeps the program's links |
| L5Moop.UndoOneExecuted | src/l5_moop.c:321-342 | undoing once after i+1 statements ran gives the state after i ran |
| L5Moop.UndoOneCell | src/l5_moop.c:329-336 | that undo restores every cell |
| L5Moop.UndoExecutedPrefix | src/l5_moop.c:321-342 | undoing i steps after i statements ran restores the program |
| L5Moop.UndoAllAfterExecute | src/l5_moop.c:281-342 | undoing as many steps as there are statements after a run restores the program, up to the checkpoint the run took |
| L5Moop.RollbackAfterExecute | src/l5_moop.c:344-372 | rolling back after a run restores the program, with the run's checkpoint kept and the history empty |
| L5Moop.CheckpointIdsDistinct | src/l5_moop.c:385-389 | checkpoints taken at different counts get different ids, whatever the clock reads |
| L5Moop.DigitFieldsDiffer | src/l5_moop.c:385-389 | two texts differing in a digit field closed by '_' differ |
| L5Moop.GenerateKeeps | src/l5_moop.c:259-275 | generation keeps existing cells, history and checkpoints, and adds one cell and one id per statement yielding a cell |
| L5Moop.GenerateLinks | src/l5_moop.c:262-272 | generation changes nothing in a statement but its cell link |
| L5Moop.GenerateLinkOrder | src/l5_moop.c:264-268 | statement k is linked to the cell after those of the statements before it that yield one |
| L5Moop.GenerateCellOrder | src/l5_moop.c:264-268 | that cell is the statement's generated cell with the next id and its inverse |
| L5Moop.SkipBlanks | src/l5_moop.c:433 | skipping spaces drops a prefix and leaves a text that does not start with a space |
| L5Moop.StatementLines | src/l5_moop.c:429-442 | the lines kept are non-empty, do not start with '/', and start with a non-space |
| L5Moop.ParseAll | src/l5_moop.c:431-442 | one statement is parsed per kept line |
| L5Moop.CountReversible | src/l5_moop.c:459-463 | the reversible count is at most the number of statements |
| L5Moop.StatementLinesSnoc | src/l5_moop.c:431-442 | one more line adds its space-skipped text exactly when it is kept |
| L5Moop.ConcatSnoc | src/l5_moop.c:506-542 | one more kept line appends its output |
| L5Moop.CompileLegacy | src/l5_moop.c:482-551 | the legacy compiler writes the header and, for each kept line, its L4 text cut to 511 characters |
| L5Moop.ConcatStep | src/l5_moop.c:495-547 | one iteration of the legacy loop appends the line's text exactly when the line is kept |
| L5Moop.ConcatGrow | src/l5_moop.c:495-547 | appending a kept line appends its text |
| L5Moop.ConcatLines | src/l5_moop.c:492-547 | the legacy loop writes the texts of all kept lines in order |
| L5Moop.Compile | src/l5_moop.c:399-476 | without enhancement only the legacy text is produced; with it, a program of the statements of the kept lines the strtok loop reads (up to the first send with a closed argument list), its cells when requested, the program id, the statement, cell and reversible counts and the time-travel flag, plus the legacy text |
| L5Moop.AddLines | src/l5_moop.c:428-443 | the line loop adds one statement per kept line, in order, with ids from 0 |
| L5Moop.TakeThrough | src/l5_moop.c:429-442 | the lines read are a prefix of the lines |
| L5Moop.TakeThroughStops | src/l5_moop.c:112-130 | reading stops at the first line that stops it and only there: no line before the last one read stops it, and a short read ends on one that does |
| L5Moop.TakeThroughAll | src/l5_moop.c:429-442 | when no line stops reading, every line is read |
| L5Moop.AddStep | src/l5_moop.c:431-442 | one iteration adds the line's statement exactly when the line is kept |
| L5Moop.ParseAllGrow | src/l5_moop.c:435 | adding a kept line parses it with the next id |
| L5Moop.ParseAllSnoc | src/l5_moop.c:253-254 | statements are parsed with their position as id |
| L5Moop.ReversibleOperations | src/l5_moop.c:459-463 | the loop counts the reversible statements |
| L5Moop.ReversibleCount | src/l5_moop.c:456-463 | reversible operations plus outputs make up all statements |
| L5Moop.ReversibleAgainstOutputs | src/l5_moop.c:81 | a statement is reversible exactly when it is not an output, so the two counts add up to the total |
| L5Moop.CompiledCellCount | src/l5_moop.c:446-455 | the cell count reported is the number of statements that yield a cell |
| L5Moop.LegacyLineIffClassified | src/l5_moop.c:499-543 | the legacy compiler writes nothing for a line exactly when the line is of unknown type |
| L5Moop.LegacyInheritance | src/l5_moop.c:499-507 | an inheritance line of fewer than 499 characters becomes "root_proto " followed by the line |
| MoopCore.RRuntime.constructor | src/moop_core.c:13-22 | a new R runtime has the requested number of cleared qubits and an empty history of capacity 4096 |
| MoopCore.RRuntime.Push | src/moop_core.c:33 | recording a gate appends it to the history |
| MoopCore.RRuntime.CCNOTGate | src/moop_core.c:31-34 | CCNOT flips c when a and b are set, and is recorded |
| MoopCore.RRuntime.CNOTGate | src/moop_core.c:36-39 | CNOT flips b when a is set, and is recorded |
| MoopCore.RRuntime.NOTGate | src/moop_core.c:41-44 | NOT flips a, and is recorded |
| MoopCore.RRuntime.SWAPGate | src/moop_core.c:46-51 | SWAP exchanges a and b, and is recorded |
| MoopCore.RRuntime.Checkpoint | src/moop_core.c:54-56 | a checkpoint is the current history length |
| MoopCore.RRuntime.Restore | src/moop_core.c:58-69 | restoring to a checkpoint below the history length cuts the history to it and re-applies the removed gates newest first, which undoes them |
| MoopCore.RRuntime.PopAndExecute | src/moop_core.c:61-66 | one restore iteration removes the newest gate and applies it again |
| MoopCore.RRuntime.StepBack | src/moop_core.c:71-81 | stepping back with an empty history does nothing; otherwise the newest gate is removed and applied once more |
| MoopCore.LoggedStart | src/moop_core.c:195-231 | a D operation starts from the runtime's current bits and history |
| MoopCore.LoggedStep | src/moop_core.c:195-231 | one more recorded gate extends the log and the run of the bits by that gate |
| MoopCore.LoggedNot | src/moop_core.c:41-44 | inside a D operation NOT flips a bit and extends the log |
| MoopCore.LoggedCnot | src/moop_core.c:36-39 | inside a D operation CNOT acts as the gate and extends the log |
| MoopCore.LoggedCcnot | src/moop_core.c:31-34 | inside a D operation CCNOT acts as the gate and extends the log |
| MoopCore.And | src/moop_core.c:195-200 | AND sets result to a and b, or clears it when result is a or b, and logs at most two gates |
| MoopCore.Xor | src/moop_core.c:215-219 | XOR with a result distinct from a and b sets it to a xor b, logging at most three gates |
| MoopCore.Or | src/moop_core.c:203-212 | OR with distinct a, b and result sets result to a or b; with a equal to b it sets result to not a; a and b come back restored |
| MoopCore.OrSteps | src/moop_core.c:206-211 | the six bit updates of d_OR compose to that effect |
| MoopCore.Nand | src/moop_core.c:222-225 | NAND with a result distinct from a and b sets it to not (a and b) |
| MoopCore.Nor | src/moop_core.c:228-231 | NOR with distinct a, b and result sets result to not (a or b) |
| MoopCore.Maybe.constructor | src/moop_core.c:234-236 | a new maybe is unresolved and false |
| MoopCore.Maybe.Resolve | src/moop_core.c:238-241 | resolving sets the value and marks the maybe resolved |
| MoopCore.SProto.constructor | src/moop_core.c:180-184 | a proto gets its name and parent |
| MoopCore.SActor.constructor | src/moop_core.c:160-167 | an actor gets its name, role and prototype |
| MoopCore.SRuntime.constructor | src/moop_core.c:104-136 | a new S runtime holds one root actor, the "Bootstrap coordinator", and one root proto, over a new R runtime |
| MoopCore.SRuntime.CreateActor | src/moop_core.c:159-171 | a new actor inherits from the root proto and is appended to the actors |
| MoopCore.SRuntime.CreateProto | src/moop_core.c:179-188 | a new proto has the given parent, or the root proto when none is given, and is appended to the protos |
| RLayerMinimal.ExecOn | src/r_layer_minimal.c:75-82 | executing a cell keeps the number of qubits |
| RLayerMinimal.StepBackOn | src/r_layer_minimal.c:99-103 | stepping back keeps the machine well formed and the number of qubits |
| RLayerMinimal.Passes | src/r_layer_minimal.c:94-96 | any number of passes of restore's loop keeps the machine well formed and the history length unchanged |
| RLayerMinimal.StepBackKeepsHistory | src/r_layer_minimal.c:99-103 | step_back pops the newest cell but exec_cell records it again, so the history is unchanged and the bits have the gate applied |
| RLayerMinimal.RestoreNeverEnds | src/r_layer_minimal.c:92-97 | as written, restore's loop never brings the history down to a lower checkpoint, whatever the number of passes |
| RLayerMinimal.StepBackTwice | src/r_layer_minimal.c:99-103 | stepping back twice over a self-inverse cell gives the machine back |
| RLayerMinimal.Runtime.State | src/r_layer_minimal.c:21-27 | the runtime's state is a well-formed machine over its qubits |
| RLayerMinimal.Runtime.constructor | src/r_layer_minimal.c:33-41 | a new runtime has the requested number of cleared qubits and no cells |
| RLayerMinimal.Runtime.ExecCCNOT | src/r_layer_minimal.c:53-56 | CCNOT flips c when a and b are set, and records the cell at the next slot |
| RLayerMinimal.Runtime.ExecCNOT | src/r_layer_minimal.c:58-61 | CNOT flips b when a is set, and records the cell |
| RLayerMinimal.Runtime.ExecNOT | src/r_layer_minimal.c:63-66 | NOT flips a, and records the cell |
| RLayerMinimal.Runtime.ExecSWAP | src/r_layer_minimal.c:68-73 | SWAP exchanges a and b, and records the cell |
| RLayerMinimal.Runtime.ExecCell | src/r_layer_minimal.c:75-82 | a cell with gate 0-3 is applied and recorded; any other gate does nothing |
| RLayerMinimal.Runtime.Checkpoint | src/r_layer_minimal.c:88-90 | a checkpoint is the current cell count |
| RLayerMinimal.Runtime.RestorePass | src/r_layer_minimal.c:94-96 | one pass of restore's loop as written applies the newest cell and leaves the cell count and cells unchanged |
| RLayerMinimal.Runtime.Restore | src/r_layer_minimal.c:92-97 | the corrected restore cuts the count to the checkpoint and undoes the removed cells newest first, without recording them |
| RLayerMinimal.Runtime.RestoreOne | src/r_layer_minimal.c:94-96 | one corrected iteration undoes one more cell |
| RLayerMinimal.Runtime.StepBack | src/r_layer_minimal.c:99-103 | stepping back with no cells does nothing; otherwise it acts as the as-written step back |
| RLayerMinimal.Runtime.StepForward | src/r_layer_minimal.c:105-109 | below capacity the cell at the count is executed again; at capacity nothing changes |
| RLayer.U32Wraps | src/r_layer.c:227 | the cast of atoi's result to uint32_t keeps values in range and wraps negatives by 2^32 |
| RLayer.Fire | src/r_layer.c:161-213 | a gate on fitting indices keeps the number of qubits |
| RLayer.FireTwice | src/r_layer.c:335-340 | a gate whose target is not one of its controls (every NOT and SWAP, and CCNOT and CNOT without aliasing) is its own inverse: firing it twice gives the bits back |
| RLayer.AliasedNotUndone | src/r_layer.c:335-345 | a CCNOT or CNOT whose target is one of its controls is not undone by firing it again when the controls are set, so replaying it as its own inverse does not rewind it |
| RLayer.Forward | src/r_layer.c:219-256 | executing gates in order keeps the number of qubits |
| RLayer.Backward | src/r_layer.c:357-360 | executing gates newest first keeps the number of qubits |
| RLayer.BackwardSnoc | src/r_layer.c:357-360 | undoing one more gate fires the newest one first |
| RLayer.BackwardForward | src/r_layer.c:342-364 | executing self-inverse gates in reverse order undoes executing them forwards |
| RLayer.DecodeAccepts | src/r_layer.c:225-239 | a cell is dispatched exactly for CCNOT with 3 arguments, CNOT or SWAP with 2 and NOT with 1, with the arguments read by atoi as operands |
| RLayer.Cell.constructor | src/r_layer.c:97-125 | a new cell holds its id, opcode, arguments and path, is reversible, unexecuted, without inverse and without dependencies |
| RLayer.Gates | src/r_layer.c:219-256 | the gates of runnable cells fit the qubits, one per cell |
| RLayer.Step | src/r_layer.c:219-256 | executing a cell keeps the number of qubits |
| RLayer.Replay | src/r_layer.c:357-360 | replaying a stretch of the trail newest first keeps the number of qubits |
| RLayer.ReplayBackward | src/r_layer.c:357-360 | replaying runnable cells newest first is undoing their gates |
| RLayer.InverseUndoes | src/r_layer.c:335-345 | a cell's inverse is the cell itself, and firing it after the cell gives the bits back |
| RLayer.Put | src/r_layer.c:252 | recording an execution writes the cell at the execution count and nothing else |
| RLayer.Runtime.constructor | src/r_layer.c:13-56 | a new runtime has cleared qubits, no cells, checkpoints or executions, and cell ids from 0 |
| RLayer.Runtime.CreateCell | src/r_layer.c:90-140 | a new cell gets the next id and the given opcode, arguments and path, and is appended to the cells |
| RLayer.Runtime.ExecuteCCNOT | src/r_layer.c:161-174 | CCNOT succeeds exactly when every index is in range and then flips c when a and b are set; otherwise nothing changes |
| RLayer.Runtime.ExecuteCNOT | src/r_layer.c:176-188 | CNOT succeeds exactly when both indices are in range and then flips b when a is set |
| RLayer.Runtime.ExecuteNOT | src/r_layer.c:190-199 | NOT succeeds exactly when the index is in range and then flips it |
| RLayer.Runtime.ExecuteSWAP | src/r_layer.c:201-213 | SWAP succeeds exactly when both indices are in range and then exchanges them |
| RLayer.Runtime.Dispatch | src/r_layer.c:225-239 | the opcode dispatch succeeds exactly for a decodable cell whose gate fits, and then fires that gate |
| RLayer.Runtime.ExecuteCell | src/r_layer.c:219-256 | a cell runs exactly when it is present, not yet executed and runnable; it is then fired, marked executed and recorded at the execution count; otherwise nothing changes |
| RLayer.Runtime.SaveCheckpoint | src/r_layer.c:262-293 | a checkpoint records its number, label, time, a copy of the qubits and the execution count, and is appended |
| RLayer.Runtime.RestoreCheckpoint | src/r_layer.c:295-322 | a restore succeeds exactly for a present checkpoint of the same width; it copies the qubits back, resets the execution count and marks the cells from that index on unexecuted; otherwise nothing changes |
| RLayer.Runtime.RewindToIndex | src/r_layer.c:342-364 | as written, rewinding succeeds exactly for an index at most the execution count and sets the count to it, but when the undone cells are marked executed, as executed cells are, it changes no qubit |
| RLayer.Runtime.UndoToIndex | src/r_layer.c:351-364 | the corrected rewind undoes the gates after the index newest first, marks those cells unexecuted and sets the count to the index |
| RLayer.Runtime.RunCell | src/r_layer.c:342-345 | re-executing one cell of the trail applies its step |
| RLayer.Runtime.UndoGates | src/r_layer.c:357-360 | the corrected rewind loop replays the trail newest first and marks each cell unexecuted |
| RLayer.Runtime.StepForward | src/r_layer.c:366-373 | at the end of the cells nothing happens; otherwise the next cell is executed when it can be |
| RLayer.Runtime.StepBackward | src/r_layer.c:375-381 | corrected: stepping back succeeds exactly with at least one execution, undoes the newest gate and unmarks its cell |
| RLayer.Runtime.StepBackwardAsWritten | src/r_layer.c:375-381 | as written: stepping back succeeds exactly with at least one execution and lowers the count by one, but when the newest cell is marked executed, as executed cells are, no qubit and no cell changes |
| RLayer.Runtime.ReadQubit | src/r_layer.c:412-415 | reading gives 1 exactly for a set qubit in range, else 0 |
| RLayer.Runtime.WriteQubit | src/r_layer.c:417-421 | writing succeeds exactly in range and stores the value's low bit |
| SimpleParser.TokenStart | src/simple_parser.c:21-30 | skipping whitespace and "//" comments stops at the end of the text or at an arrow or an identifier start |
| SimpleParser.NextSimple | src/simple_parser.c:16-75 | the lexer yields only arrows, identifiers or EOF; EOF comes exactly at the end of the text with an empty lexeme, and every other token advances the cursor |
| SimpleParser.NextSimpleSpec | src/simple_parser.c:16-75 | EOF is returned exactly when only blanks and comments remain; any other token's lexeme is the source text it spans, and an identifier is maximal |
| SimpleParser.ArrowLexemes | src/simple_parser.c:33-48 | a message arrow's lexeme is "->" and an inheritance arrow's is "<-" |
| SimpleParser.SkipToNewline | src/simple_parser.c:27-30 | the comment loop stops at the next newline or the end of the text |
| SimpleParser.ReadIdentifier | src/simple_parser.c:51-64 | the identifier loop reads the longest run of letters, digits and underscores from its start |
| SimpleParser.SimpleNextToken | src/simple_parser.c:16-75 | the imperative lexer returns the token and cursor of the lexer specification |
| SimpleParser.RelationOverflows | src/simple_parser.c:127-128 | as written, the relation text and its NUL need one byte more than the buffer allocated for it |
| SimpleParser.FormatRelation | src/simple_parser.c:127-128 | the corrected buffer is one byte larger and holds "child <- parent" followed by NUL |
| SimpleParser.ConcatAssociative | src/simple_parser.c:96-144 | appending statements and relations to the AST is associative |
| SimpleParser.RelationsOfAppend | src/simple_parser.c:119-144 | the relations of concatenated statement lists are the concatenated relations |
| SimpleParser.RelationsOfBound | src/simple_parser.c:119-144 | there are never more relations than statements |
| SimpleParser.ParseShape | src/simple_parser.c:78-153 | the parsed relations are exactly the "child <- parent" texts of the inheritance statements, in order, and every statement is well built |
| SimpleParser.ReadStatement | src/simple_parser.c:83-149 | one loop round reports EOF exactly when the next token is EOF, and otherwise advances the cursor and yields the prefix of the whole parse |
| SimpleParser.ParseSurfaceSimple | src/simple_parser.c:78-153 | the parser's result is the parse of the whole text |
| SimpleParser.ParseSurface | src/surface_parser.c:210-214 | the public parser delegates to the simple parser and returns the same AST |
| SurfaceParser.LineEnd | src/surface_parser.c:73-75 | the comment loop stops at the first newline or the end of the text, passing no newline |
| SurfaceParser.IdentEnd | src/surface_parser.c:175-178 | the identifier loop stops at the first character that cannot continue an identifier |
| SurfaceParser.LayoutEnd | src/surface_parser.c:55-80 | skipping layout stops at the end of the text or at a character that is neither blank, newline nor the start of a "//" comment |
| SurfaceParser.LiteralEnd | src/surface_parser.c:146-155 | a string literal ends after its closing quote, or at the end of the text when it is unterminated |
| SurfaceParser.Scan | src/surface_parser.c:91-202 | the token kind is decided by the first character: "->" and "<-" take two characters, '@' a tag and '"' a literal, an identifier start a maximal identifier, and anything else one character of error |
| SurfaceParser.CursorCounts | src/surface_parser.c:55-80 | the line advances once per newline skipped, and after a newline the column restarts so that it counts the characters since it |
| SurfaceParser.CursorSnoc | src/surface_parser.c:55-80 | the position after one more character is one step of the position update |
| SurfaceParser.Lexer.constructor | src/surface_parser.c:15-23 | a new lexer starts at offset 0, line 1, column 1 |
| SurfaceParser.Lexer.NextToken | src/surface_parser.c:53-203 | the token returned is the scanned kind with the source text it spans; EOF has an empty lexeme; arrows and error tokens carry the column where they start, while tags, literals and identifiers carry the column after them; the cursor moves to the token's end |
| SurfaceParser.Lexer.SkipLayout | src/surface_parser.c:55-80 | the layout loop moves to the end of the layout and updates line and column by the characters skipped |
| SurfaceParser.Lexer.SkipComment | src/surface_parser.c:70-77 | a comment is skipped up to the newline that ends it, with the column following |
| SurfaceParser.Lexer.ReadIdentRest | src/surface_parser.c:123-126 | after the first character, the identifier or tag loop consumes the longest run of identifier characters on the same line |
| SurfaceParser.Lexer.ReadLiteral | src/surface_parser.c:144-155 | the literal loop stops after the closing quote, stepping over escaped characters, on the same line |
| SurfaceParser.OperationCode | src/surface_parser.c:255-269 | the three operation types get distinct codes, and R-term is code 0 |
| SurfaceParser.KnownDTermIsMembership | src/surface_parser.c:272-286 | an operation is a known D-term exactly when its target is io, file, network or system or its selector is fork, spawn, kill or exit |
| SurfaceParser.ClassifyOperation | src/surface_parser.c:255-269 | classification never yields S-term |
| SurfaceParser.ClassifyDTerm | src/surface_parser.c:255-269 | an operation is D-term exactly when it is tagged or a known D-term, and R-term exactly otherwise |
| SurfaceParser.ParseOperationTag | src/surface_parser.c:289-294 | the tag parser always returns an untagged tag with no type |
| SurfaceParser.UntaggedClassification | src/surface_parser.c:255-294 | with the parsed tag, an operation is D-term exactly when it is a known D-term |
| SurfaceParser.ToUpper | src/surface_parser.c:313-315 | upper-casing never leaves a lower-case letter |
| SurfaceParser.ToPascalCase | src/surface_parser.c:304-318 | no input gives the empty string, and otherwise the result has the input's length |
| SurfaceParser.PascalCaseShape | src/surface_parser.c:313-315 | only the first character changes, it ends up not lower-case, and input already starting with a non-lower-case character comes back unchanged |
| SurfaceParser.PascalCaseIdempotent | src/surface_parser.c:304-318 | converting to PascalCase twice is the same as converting once |
| UnifiedCompiler.Lines | src/unified_compiler.c:287-288 | text built from newline-terminated entries ends in a newline whenever there is an entry |
| UnifiedCompiler.LinesAppend | src/unified_compiler.c:287-288 | writing two runs of entries one after the other gives the two texts concatenated |
| UnifiedCompiler.ReadLines | src/unified_compiler.c:287-288 | splitting newline-terminated entries at newlines gives the entries back, followed by an empty remainder |
| UnifiedCompiler.ReadHeadedLines | src/unified_compiler.c:313-356 | a header line followed by entries reads back as the header, the entries and an empty remainder |
| UnifiedCompiler.Sends | src/unified_compiler.c:96-106 | selecting the sends of given operation types keeps only such sends and never yields more than the statements |
| UnifiedCompiler.SendsComplete | src/unified_compiler.c:96-106 | the selection is empty exactly when no statement is a send of those types |
| UnifiedCompiler.Clip | src/unified_compiler.c:256-267 | snprintf into a 256-byte buffer keeps a prefix of at most 255 characters, and the whole text when it fits |
| UnifiedCompiler.PathOf | src/unified_compiler.c:198-207 | a canonical path is "Target.selector", or "TargetProto.TargetActor.selector" when hoisting, whenever it fits the 256-byte buffer, and is always shorter than it |
| UnifiedCompiler.PathNoNewline | src/unified_compiler.c:256-267 | a path built from names without newlines holds no newline |
| UnifiedCompiler.CanonicalEntries | src/unified_compiler.c:242-292 | there is one canonical entry per send |
| UnifiedCompiler.CanonicalEntriesAt | src/unified_compiler.c:251-287 | each entry is the PascalCase path of its send followed by its [R], [D] or [S] annotation |
| UnifiedCompiler.CanonicalizePaths | src/unified_compiler.c:234-295 | the canonicalization loop produces one annotated line per send, in statement order |
| UnifiedCompiler.CanonicalStep | src/unified_compiler.c:242-292 | one loop round appends the send's entry and skips an inheritance statement |
| UnifiedCompiler.CanonicalLines | src/unified_compiler.c:234-295 | read back line by line, the canonical code is exactly the entries of all sends and an empty remainder |
| UnifiedCompiler.IrEntry | src/unified_compiler.c:343-356 | a reversible IR line is 31 characters of formatting plus the target, the selector twice and the argument list |
| UnifiedCompiler.IrEntries | src/unified_compiler.c:316-358 | there is one IR line per R-term send, each the send's entry |
| UnifiedCompiler.WriteArguments | src/unified_compiler.c:347-353 | the corrected argument loop writes the arguments separated by ", " |
| UnifiedCompiler.WriteArgumentsAsWritten | src/unified_compiler.c:347-353 | as written, the cursor advances one byte past ", ", so the next argument overwrites the space and the separator is "," |
| UnifiedCompiler.ArgumentSpaceLost | src/unified_compiler.c:348 | arguments a and b come out as "a,b" as written, not "a, b" |
| UnifiedCompiler.ArgumentsReadBack | src/unified_compiler.c:347-353 | arguments free of commas are recovered from the corrected list by splitting at commas and dropping the leading space |
| UnifiedCompiler.Repeat | src/unified_compiler.c:316-358 | k copies of one statement |
| UnifiedCompiler.RepeatedBookkeeping | src/unified_compiler.c:324-340 | as written, after k sends "a.bc" with no arguments the cursor stands at 51 + 37k and the buffer has never grown, because each line's estimate is 23 bytes |
| UnifiedCompiler.IrReserveOverflows | src/unified_compiler.c:324-356 | as written, the 54th such send writes past the 2048-byte buffer: the estimate leaves out the second selector and eleven bytes of formatting |
| UnifiedCompiler.GenerateReversibleIr | src/unified_compiler.c:301-361 | the corrected generator writes the disabled notice, or the header and one line per R-term send, and its buffer always holds the text |
| UnifiedCompiler.AppendIrLine | src/unified_compiler.c:316-358 | one corrected loop round appends the send's line and keeps the text inside the buffer |
| UnifiedCompiler.IrStep | src/unified_compiler.c:316-358 | a loop round appends a line only for an R-term send |
| UnifiedCompiler.IrLines | src/unified_compiler.c:301-361 | read back line by line, the reversible IR is the header, one entry per R-term send and an empty remainder |
| UnifiedCompiler.MembraneLines | src/unified_compiler.c:404-413 | a D-term send's log starts with its MEMBRANE line |
| UnifiedCompiler.GenerateMembraneLogs | src/unified_compiler.c:367-434 | the generator writes the header, the log lines of every D-term send and the fully-reversible notice when there is none |
| UnifiedCompiler.AppendMembraneEntry | src/unified_compiler.c:378-415 | one loop round appends the send's log lines when it is D-term and keeps has_d_term true exactly when a D-term send has been seen |
| UnifiedCompiler.MembraneLogsText | src/unified_compiler.c:417-431 | the fully-reversible notice is appended exactly when there is no D-term send |
| UnifiedCompiler.MembraneStep | src/unified_compiler.c:378-415 | a loop round adds text only for a D-term send |
| UnifiedCompiler.MembraneNoticeIff | src/unified_compiler.c:367-434 | the logs contain the fully-reversible line if and only if no statement is a D-term send |
| UnifiedCompiler.MembraneEntriesShape | src/unified_compiler.c:404-413 | each D-term send gives one log line, or three with timestamp and compensation in debug mode |
| UnifiedCompiler.FindPartner | src/unified_compiler.c:445-452 | the inner loop finds a later relation contained in relation i and containing it exactly when one exists |
| UnifiedCompiler.ValidateUnified | src/unified_compiler.c:440-482 | validation fails with the cycle message when two relations contain each other, else in strict mode with the tagging message when a D-term send is untagged, and succeeds otherwise |
| UnifiedCompiler.MutuallyContainedIsEqual | src/unified_compiler.c:447-448 | two strings each containing the other are equal |
| UnifiedCompiler.CycleIsDuplicate | src/unified_compiler.c:443-453 | the cycle check fires exactly when some relation appears twice |
| UnifiedCompiler.SomeArgs | src/unified_compiler.c:191-194 | every argument is passed on as present |
| UnifiedCompiler.SendCell | src/unified_compiler.c:191-214 | corrected marking: a lowered cell is reversible exactly when its send is not D-term, starts with no inverse and is not executed |
| UnifiedCompiler.SendCellAsWritten | src/unified_compiler.c:191-214 | as written, `!send->type` makes a lowered cell reversible exactly when its send is not R-term; it has no inverse and is not executed |
| UnifiedCompiler.MarkingsDiffer | src/unified_compiler.c:211-214 | for every send, the two lowerings give a cell for the same sends, and the cells differ only in the reversible flag |
| UnifiedCompiler.ParsedSendsIrreversibleAsWritten | src/unified_compiler.c:211-214 | as written, every cell lowered from parsed source is irreversible, since the parser makes only R-term sends |
| UnifiedCompiler.SendCellAccepts | src/hr_ir.c:386-400 | a send becomes a cell exactly when its selector is add, subtract, multiply, divide or output, with output becoming print |
| UnifiedCompiler.RTermLosesInverse | src/unified_compiler.c:211-214 | as written, !send->type holds for R-term, so an R-term add is stored irreversible with no inverse; corrected, it gets subtract as its inverse |
| UnifiedCompiler.LoweringOf | src/unified_compiler.c:185-218 | a statement lowers to at most one cell |
| UnifiedCompiler.Lowered | src/unified_compiler.c:184-219 | there are never more cells than statements |
| UnifiedCompiler.LoweredShape | src/unified_compiler.c:196-209 | each lowered cell carries source location "surface_compilation", a line number between 1 and the statement count, and no inverse yet |
| UnifiedCompiler.Stored | src/hr_ir.c:165-191 | adding cells keeps one stored cell per lowered cell |
| UnifiedCompiler.StoredAt | src/hr_ir.c:165-191 | the k-th stored cell is the k-th lowered cell given id k + 1 and its inverse |
| UnifiedCompiler.StoredInverses | src/hr_ir.c:165-191 | a stored cell has an inverse exactly when it is reversible and its opcode has an inverse |
| UnifiedCompiler.AddLowered | src/hr_ir.c:165-191 | adding a cell appends it with the next id and advances the id counter |
| UnifiedCompiler.LowerInto | src/unified_compiler.c:184-219 | one loop round stores the statement's cell, if any, with its metadata |
| UnifiedCompiler.GenerateHrir | src/unified_compiler.c:176-228 | the HRIR program holds exactly the stored lowered cells of the statements, in order, with their metadata |
| UnifiedCompiler.NoDTermAllReversible | src/unified_compiler.c:184-219 | with no D-term send, every lowered cell is reversible |
| UnifiedCompiler.CountOperations | src/unified_compiler.c:96-106 | the counters are the numbers of R-term and D-term sends, which together never exceed the statements |
| UnifiedCompiler.Compile | src/unified_compiler.c:27-170 | compilation succeeds exactly when validation passes, with one error and its message otherwise; the statistics count paths, edges, R-term and D-term sends, crossings equal to D-term sends; and every output is the generator's function of the parsed AST |
| UnifiedCompiler.CompileOfParsed | src/unified_compiler.c:27-170 | for parsed source there are no D-term sends, R-term sends and relations together make up the statements, the logs say fully reversible, every HRIR cell is reversible, and validation fails exactly when a relation is repeated |
| UnifiedCompiler.ParsedCounts | src/simple_parser.c:96-144 | each parsed statement is either an R-term send or an inheritance with its relation |
| RioApi.Vm.constructor | src/rio_api.c:49-57 | a new VM is quiet and has no last error |
| RioApi.CompileString | src/rio_api.c:84-167 | a missing VM or source gives no result, and a missing source records the invalid-parameters error; otherwise the result is the compiled record of the parsed source and the VM is unchanged |
| RioApi.CopyRelations | src/rio_api.c:128-135 | the inheritance map receives a copy of every relation, in order |
| RioApi.AccessorsOfNothing | src/rio_api.c:213-264 | with no result every accessor returns its empty value, success is false and the error code is SUCCESS; a relation index past the count gives nothing |
| RioApi.CompiledAccessors | src/rio_api.c:84-264 | a compiled result reports success, the placeholder canonical code, the relations of the parse by index, statement and edge counts, zero R/D/membrane counts, JSON only when requested, and no IR, logs or HRIR |
| RioApi.CompiledRelationsBounded | src/rio_api.c:245-260 | a compiled result never has more relations than statements |
| RioApi.GetNode | src/rio_api.c:278-311 | an index past the node count gives the empty node |
| RioApi.NodeRoundTrip | src/rio_api.c:278-311 | a send or inheritance node carries every field of its statement, so the statement can be rebuilt from it, and any other statement gives the empty node |
| RioApi.ParsedNodesPresent | src/rio_api.c:274-311 | every node of a parsed AST within the count is a real send or inheritance node |
| RioApi.HasParent | src/rio_api.c:321-333 | the check holds exactly when map, child and parent are present and some relation contains both names as substrings |
| RioApi.ParentsUpTo | src/rio_api.c:342-353 | scanning n relations finds at most n parents |
| RioApi.Limit | src/rio_api.c:342 | the search keeps a prefix of at most max_parents of the parents |
| RioApi.GetParents | src/rio_api.c:335-356 | a missing map, child or array, or max_parents 0, finds nothing; otherwise the array starts with the first max_parents parents the relations name for the child, in order, and the rest of the array is untouched |
| RioApi.Collect | src/rio_api.c:342-353 | the search loop fills the array with the first max_parents parents and leaves the rest alone |
| RioApi.Place | src/rio_api.c:350 | a found parent is stored at the next free slot |
| RioApi.ParentsMembers | src/rio_api.c:342-353 | a name is among the parents exactly when some scanned relation names it as the child's parent |
| RioApi.ParentOfRelation | src/rio_api.c:345-351 | a relation written by the parser names its parent for its own child and for no other name |
| RioApi.ParentsMentioned | src/rio_api.c:321-356 | every parent get_parents finds also satisfies has_parent |
| RioApi.HasParentLooser | src/rio_api.c:321-333 | has_parent's substring test is looser than the parents search: "Ab <- C" counts for child b though b has no parent |
| RioApi.ParsedParents | src/rio_api.c:335-356 | for parsed source, p is a parent of a child exactly when the source has the inheritance statement child <- p |
| RioApi.SplitAtDot | src/rio_api.c:371-376 | splitting at the first dot gives a dot-free head and, when there is a dot, the rest after it |
| RioApi.ParseCanonicalPath | src/rio_api.c:362-389 | the full path is kept; a present path always has a dot-free prototype, an actor only after a dot, and a function only with an actor |
| RioApi.PathReassembles | src/rio_api.c:362-389 | the parsed parts joined with dots give back the path |
| RioApi.ParseJoined | src/rio_api.c:362-389 | parsing "P.A.F" or "P.F" with dot-free parts gives exactly those parts |
| RioApi.CompilerPathsParse | src/rio_api.c:362-389 | a hoisted compiler path parses as prototype TargetProto, actor TargetActor and function selector, and a direct path as prototype and actor |
| RioApi.IsCanonicalPath | src/rio_api.c:391-401 | a path is canonical exactly when it is present and holds one or two dots |
| RioApi.CanonicalIffSplits | src/rio_api.c:362-401 | a path is canonical exactly when parsing it finds an actor and a function without further dots |
| DLayer.DRuntime.constructor | src/d_layer.c:12-27 | a D runtime owns an R runtime of qubit_count + ancilla_count zero qubits, with the ancillas starting after the data qubits |
| DLayer.DRuntime.And | src/d_layer.c:41-53 | AND clears the result qubit then applies Toffoli, so the result is a and b read after the clear; it succeeds exactly when all three indices are in range |
| DLayer.DRuntime.Or | src/d_layer.c:57-77 | with at least two ancillas, OR leaves the negated inputs in the two ancillas and a or b in the result, and touches no other qubit; with fewer it fails and changes nothing |
| DLayer.Truth | src/d_layer.c:56-57 | De Morgan's law, on which OR and NOR rest |
| DLayer.DRuntime.Nand | src/d_layer.c:80-84 | NAND writes the negation of AND's result and always reports success |
| DLayer.DRuntime.Nor | src/d_layer.c:87-91 | NOR writes the negation of OR's result; without two ancillas OR does nothing and NOR only flips the result qubit; it always reports success |
| DLayer.DRuntime.Xor | src/d_layer.c:95-107 | XOR clears the result then applies two CNOTs, so the result is a xor b as read after the clear |
| DLayer.Maybe.constructor | src/d_layer.c:113-122 | a new maybe is unresolved and false |
| DLayer.ResolveMaybe | src/d_layer.c:124-131 | resolving succeeds exactly once, on a present unresolved maybe, and stores the value; otherwise nothing changes |
| DLayer.ActorIds.constructor | src/d_layer.c:153 | the actor id counter starts at 0 |
| DLayer.Actor.constructor | src/d_layer.c:147-171 | a new actor takes the next id, keeps name and role, and starts with an empty queue of capacity 16 and no handlers |
| DLayer.Made | src/d_layer.c:203-213 | a message keeps its name and size and copies the first size bytes of the payload only when a payload is given and size is positive |
| DLayer.SendMessage | src/d_layer.c:199-227 | sending succeeds exactly when actor and name are present, appends the message to the queue, and doubles the capacity when the queue is full |
| DLayer.FirstHandler | src/d_layer.c:236-241 | the chosen handler is the first one registered for the message's name, or none when no handler matches |
| DLayer.ProcessMessages | src/d_layer.c:229-255 | processing succeeds exactly when the queue is non-empty, invokes the first matching handler for the head message and removes that message, keeping the order of the rest |
| DLayer.FirstHandlerIs | src/d_layer.c:236-241 | the first matching handler is uniquely determined by its characterisation |

## Left out

- Memory release is not modelled: `hr_ir_free_*`, `l3_*_free`, `r_free`, `s_free`, `cleanup`, `r_runtime_free`, `d_*_free`, `free_surface_ast`, `rio_destroy_vm` and the `rio_free_*` functions. Dafny manages memory itself.
- `malloc`, `calloc`, `realloc` and `strdup` failures are not modelled. Every allocation is taken to succeed.
- Diagnostics that only print are not modelled: `printf` throughout, `hr_ir_dump_program`, `hr_ir_dump_runtime`, `r_print_cell`, `r_print_memory_state`, `r_print_execution_history`, and `s_send_message`, whose only effect is a print.
- `hr_ir_serialize_program` and the JSON text of `generate_hrir_json` are not modelled. The model keeps the cells and metadata that would be serialized (`UnifiedCompiler.GenerateHrir`).
- `hr_ir_get_last_error`, `hr_ir_get_error_message`, `rio_get_last_error` and `r_cell_to_string` are not modelled. They only format text.
- `l5_get_program_data` (a JSON summary) and `l5_get_time_travel_api` (a table of function pointers) are not modelled.
- `l5_should_expand_statements` and `l5_expand_statements` are not modelled. The statements are a Dafny sequence, so there is no capacity to double.
- File and environment input is not modelled: `rio_compile_file`, `l5_should_use_enhanced_mode` (`getenv`), and `src/main.c`.
- Timings are not modelled. `clock()` differences in `compile` are floating point. `rio_compile_string`'s constant timings are left out too.
- `time(NULL)` becomes the parameter `now`. Static counters become explicit fields or parameters: `next_id` in `d_create_actor`, and the program id counter in `l5_generate_program_id`.
- Evaluation through the external `bc` calculator is a foreign process call. It is the oracle parameter `Calc`, and only the `state.`/local substitution before it is modelled.
- L3Eval.Atof: reads only an optional sign, digits and at most one '.', as an exact `real`. C's `atof` also reads exponents, hexadecimal floats, `inf`, `infinity` and `nan`, so the condition "1e3 > 100" is true in C (1000 > 100) and false in the model (1 > 100). Rounding of long decimals to `double` is not captured either.
- L3Eval.CompareValues: compares the exact values `L3Eval.Atof` gives, so it inherits each gap of `Atof` listed on the line above.
- L3Eval.EvalExpr: the rescanning `state.` loop (`L3Substitute.RewriteStates`) is followed for `bc.rounds` rounds. Any loop not ended by then is taken as `bc` printing nothing, whether C's loop never ends or ends in more rounds. The model agrees with C only when `bc.rounds` is at least the number of rounds C's loop takes; `L3Eval.CalcTextInert` shows that the text's length suffices when no state value can form a reference.
- L3Eval.CondWithoutOperator: `atoi` returns an `int`. glibc's `atoi` of a numeral outside the 32-bit range gives a different number (`atoi("4294967296")` is 0), while `CStrings.Atoi` gives the unbounded value.
- L3Eval.TruthOfInt: holds for every natural number in the model; in C a literal whose `atoi` value leaves the 32-bit range, such as "4294967296", is false.
- CStrings.AtoiOfDigits: digits whose value does not fit a 32-bit `int` are read as their unbounded value, where C's `atoi` gives another number.
- L3Exec.ExecutionContext.ExecuteFor: the bounds are read by the unbounded `CStrings.Atoi`, without the `int` truncation above. With an end of 2147483647, C's `i <= end` never fails and `i++` overflows; the model's loop stops after that value.
- HrIr.Runtime.Undo: `steps_executed` is a `size_t` that C decrements without a check, so it wraps to `SIZE_MAX` where the model's counter goes to -1. This takes a program whose pc was advanced before the runtime was created.
- BitGates.ScanBytes: each "%hhu" conversion is the numeral's value modulo 256 (`BitGates.Wrap`). C's `strtoul` first saturates at `ULONG_MAX`, so a numeral above 2^64 - 1 gives 255 in C and its value modulo 256 in the model.
- L5Moop.Mark: the time is an unbounded `now`. C casts `time(NULL)` to `int`, which wraps after January 2038.
- L3Runtime.ActorRuntime.GetActorByName: an actor spawned from a definition without a name is skipped. C's `l3_get_actor_by_name` passes its NULL name to `strcmp` and crashes.
- L3Exec.ActorIdByName: skips actors without a name, for the same reason; in C a name lookup that reaches such an actor crashes.
- RLayer.FireTwice: holds only for a gate whose target is not one of its controls, although the C comments call every R gate self-inverse. `RLayer.AliasedNotUndone` shows that an aliased CCNOT or CNOT is not undone by firing it again.
- RLayer.Runtime.StepBackward: is the corrected step back, which undoes the newest gate. C's `r_step_backward` goes through `r_rewind_to_index` and changes no qubit; that behaviour is `RLayer.Runtime.StepBackwardAsWritten` (see "## Findings").
- UnifiedCompiler.GenerateHrir: stores cells with the corrected marking (`UnifiedCompiler.SendCell`), so a parsed R-term send becomes a reversible cell with an inverse. In C `!send->type` makes every cell of parsed source irreversible, with no inverse (`UnifiedCompiler.ParsedSendsIrreversibleAsWritten`). `UnifiedCompiler.MarkingsDiffer` states that the two cells differ only in this flag.
- UnifiedCompiler.LoweringOf: lowers with the corrected marking, as `GenerateHrir` above.
- UnifiedCompiler.Lowered: is built from `LoweringOf`, so it has the corrected marking too.
- UnifiedCompiler.LowerInto: stores the cell with the corrected marking, so an R-term cell gets its inverse attached.
- UnifiedCompiler.NoDTermAllReversible: is about the corrected marking. As written, with no D-term send every lowered cell is irreversible instead.
- UnifiedCompiler.CompileOfParsed: its statement that every HRIR cell is reversible is about the corrected marking. As written, no HRIR cell of parsed source is reversible.
- The D-layer's `handler_func` pointers are foreign code. `DLayer.ProcessMessages` reports which handler would be invoked (`invoked`) instead of running it.
- `rio_compile_string`'s parse-failure branch is not modelled, because `parse_surface_simple` never returns NULL.
- The `RioApi` node type gives arguments and tag type as values, where C hands out pointers into the AST. Aliasing between a node and the AST is not captured.
- `RioApi.GetParents` gives the parent names themselves, where C stores pointers into the relation strings.
- `free_token` in `src/surface_parser.c` recurses into itself without end. It frees memory only and is not modelled.
- `compile` hands the AST's relation array to the result and then frees it with the AST. The model keeps an independent copy of the relations.
- SimpleParser.NextSimple: identifiers are not limited to the 255 characters that fit `lexeme[256]`. C writes past that buffer for longer identifiers.
- L5Moop.MoopProgram.AddStatement: does not accept a send line with an argument list (`WritesArguments`). For those lines `l5_parse_statement` writes through an array it never allocated.
- L5Moop.Compile: the line loop stops after the first send whose argument list is closed by ')', because `l5_parse_statement`'s `strtok` over the arguments takes over the cursor of the outer `strtok` (`L5Moop.ReadLines`). Among the lines read, it requires sends with arguments other than commas to be absent (`Compilable`). It also requires the legacy output to fit the 4096-byte buffer of `l5_compile_moop_legacy`, which C overruns otherwise.
- L5Moop.CompileLegacy: requires its output to fit the 4096-byte buffer, for the same reason.
- MoopCore.RRuntime.CCNOTGate: requires a free slot in the 4096-record history and operands inside the qubit array. C writes out of bounds otherwise.
- MoopCore.RRuntime.CNOTGate: requires a free history slot and operands inside the qubit array, for the same reason.
- MoopCore.RRuntime.NOTGate: requires a free history slot and an operand inside the qubit array, for the same reason.
- MoopCore.RRuntime.SWAPGate: requires a free history slot and operands inside the qubit array, for the same reason.
- MoopCore.And: requires room in the history for its two gates and operands inside the qubit array, since it is built on the R gates above.
- MoopCore.Xor: requires room in the history for its three gates and operands inside the qubit array, for the same reason.
- MoopCore.Or: requires room in the history for its gates and operands inside the qubit array, for the same reason.
- MoopCore.Nand: requires room in the history for its gates and operands inside the qubit array, for the same reason.
- MoopCore.Nor: requires room in the history for its gates and operands inside the qubit array, for the same reason.
- RLayerMinimal.Runtime.ExecCCNOT: requires a free history slot and operands in range, for the same reason as `MoopCore`.
- RLayerMinimal.Runtime.ExecCNOT: requires a free history slot and operands in range, for the same reason.
- RLayerMinimal.Runtime.ExecNOT: requires a free history slot and an operand in range, for the same reason.
- RLayerMinimal.Runtime.ExecSWAP: requires a free history slot and operands in range, for the same reason.
- RLayerMinimal.Runtime.ExecCell: requires a free history slot and the cell's operands in range, for the same reason.
- MoopCore.SRuntime.CreateActor: requires room in the 256-entry actor array, which C does not check.
- MoopCore.SRuntime.CreateProto: requires room in the 256-entry prototype array, which C does not check.
- The `while` cap of 10000 iterations is modelled. Its diagnostic on reaching the cap is not.
- UnifiedCompiler.Compile: the `hrir_json` output is modelled by the cells and metadata it would serialize, not by the JSON text. Those cells carry the corrected marking, as on the `UnifiedCompiler.GenerateHrir` line above.

## Findings

| source | as written | input that shows it | evidently intended | confidence | as-written member | corrected member |
|---|---|---|---|---|---|---|
| src/r_layer_minimal.c:92-97 | each `restore` pass pops a record and `exec_cell` pushes it back, so `cell_count` never decreases | any history longer than the checkpoint, e.g. one NOT and `restore(0)` | pop records down to the checkpoint, undoing each gate | not executed | RLayerMinimal.RestoreNeverEnds | RLayerMinimal.Runtime.Restore |
| src/r_layer.c:342-364 | `r_rewind_to_index` replays inverses through `r_execute_cell`, which refuses cells still marked executed, so no qubit changes | execute one NOT cell, then rewind to index 0 | undo the gates after the index and unmark their cells | not executed | RLayer.Runtime.RewindToIndex | RLayer.Runtime.UndoToIndex |
| src/r_layer.c:375-381 | `r_step_backward` calls `r_rewind_to_index`, so it inherits the refusal above and only lowers the count | execute one NOT cell, then step backward | undo the newest gate and unmark its cell | not executed | RLayer.Runtime.StepBackwardAsWritten | RLayer.Runtime.StepBackward |
| src/simple_parser.c:127-128 | the relation buffer has room for the two names and four bytes, and `sprintf` writes five more bytes plus the names | `a <- b`: 6 bytes allocated, 7 written | allocate one more byte for the terminating NUL | not executed | SimpleParser.RelationOverflows | SimpleParser.FormatRelation |
| src/unified_compiler.c:211-214 | `!send->type` is true for `OP_R_TERM` (0), so R-term cells are made irreversible and get no inverse | `x -> add` | mark D-term cells irreversible | not executed | UnifiedCompiler.RTermLosesInverse | UnifiedCompiler.SendCell |
| src/l3_turchin.c:762-790 | each round replaces the first `state.X` and searches the new text from its start, so a value containing its own reference is replaced forever | state entry `n` with value `state.n`, expression `state.n + 1` | replace each reference once, left to right | not executed | L3Substitute.RewriteNeverEnds | L3Substitute.SubstituteState, L3Rewrite.RewriteAgreesInert |
| src/unified_compiler.c:347-353 | the cursor moves one byte past the two-byte separator, so the next argument overwrites the space | arguments `a` and `b` give `a,b` (`UnifiedCompiler.ArgumentSpaceLost`) | `a, b` | not executed | UnifiedCompiler.WriteArgumentsAsWritten | UnifiedCompiler.ArgumentsReadBack |
| src/unified_compiler.c:324-356 | each line's size estimate leaves out the second selector and 11 bytes of formatting, and the buffer grows only on the estimate | 54 R-term sends `a -> bc` | reserve the full line length before writing it | not executed | UnifiedCompiler.IrReserveOverflows | UnifiedCompiler.GenerateReversibleIr |
