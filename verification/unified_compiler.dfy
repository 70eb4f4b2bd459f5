// The unified compiler: canonical Proto.Actor.Func paths, the reversible IR,
// the membrane logs, validation, the HRIR cells and the compile driver that
// counts R- and D-term sends. Every text generator appends to a growing
// buffer in the source; here the buffer is a string that the loop extends.

module UnifiedCompiler {
  import opened CStrings
  import opened SurfaceParser
  import HrIr
  import SimpleParser

  datatype CompilerOptions = CompilerOptions(
    strictMode: bool,
    autoHoist: bool,
    debugMode: bool,
    reversibleDefault: bool)

  // ---------------------------------------------------------------------------
  // Lines of text
  // ---------------------------------------------------------------------------

  /** Each entry followed by a newline. */
  function Lines(ls: seq<string>): (r: string)
    ensures |ls| > 0 ==> |r| > 0 && r[|r| - 1] == '\n'
  {
    if |ls| == 0 then "" else Lines(ls[..|ls| - 1]) + (ls[|ls| - 1] + "\n")
  }


  lemma LinesSnoc(ls: seq<string>, e: string)
    ensures Lines(ls + [e]) == Lines(ls) + (e + "\n")
  {
    assert (ls + [e])[..|ls|] == ls;
  }

  lemma {:induction false} LinesAppend(a: seq<string>, b: seq<string>)
    ensures Lines(a + b) == Lines(a) + Lines(b)
    decreases |b|
  {
    if |b| > 0 {
      var b' := b[..|b| - 1];
      assert a + b == (a + b') + [b[|b| - 1]];
      assert b == b' + [b[|b| - 1]];
      LinesSnoc(a + b', b[|b| - 1]);
      LinesSnoc(b', b[|b| - 1]);
      LinesAppend(a, b');
    } else {
      assert a + b == a;
    }
  }

  lemma JoinSnoc(ls: seq<string>, e: string, sep: string)
    requires |ls| > 0
    ensures Join(ls + [e], sep) == Join(ls, sep) + sep + e
  {
    assert (ls + [e])[..|ls|] == ls;
  }

  /** The text of newline-terminated lines is the lines joined by newlines
      with an empty remainder. */
  lemma {:induction false} LinesAsJoin(ls: seq<string>)
    ensures Lines(ls) == Join(ls + [""], "\n")
    decreases |ls|
  {
    if |ls| > 0 {
      var p, e := ls[..|ls| - 1], ls[|ls| - 1];
      assert ls == p + [e];
      LinesAsJoin(p);
      JoinSnoc(ls, "", "\n");
      if |p| > 0 {
        JoinSnoc(p, e, "\n");
        JoinSnoc(p, "", "\n");
      } else {
        assert ls == [e];
      }
    }
  }

  predicate NoNewline(s: string) { '\n' !in s }

  /** Reading newline-terminated lines back gives the lines and an empty
      remainder, when no line holds a newline of its own. */
  lemma ReadLines(ls: seq<string>)
    requires forall k :: 0 <= k < |ls| ==> NoNewline(ls[k])
    ensures Split(Lines(ls), '\n') == ls + [""]
  {
    var parts := ls + [""];
    forall k | 0 <= k < |parts|
      ensures '\n' !in parts[k]
    {
      if k < |ls| {
        assert parts[k] == ls[k];
      }
    }
    LinesAsJoin(ls);
    SplitJoin(parts, '\n');
  }

  /** The same, for a header line followed by entries. */
  lemma ReadHeadedLines(h: string, ls: seq<string>)
    requires NoNewline(h)
    requires forall k :: 0 <= k < |ls| ==> NoNewline(ls[k])
    ensures Split(Lines([h] + ls), '\n') == [h] + ls + [""]
  {
    var es := [h] + ls;
    forall k | 0 <= k < |es|
      ensures NoNewline(es[k])
    {
      if k > 0 {
        assert es[k] == ls[k - 1];
      }
    }
    ReadLines(es);
  }

  // ---------------------------------------------------------------------------
  // Selecting the sends
  // ---------------------------------------------------------------------------

  const AllKinds: set<OperationType> := {RTerm, DTerm, STerm}

  /** The send statements whose operation type is in `kinds`, in order. */
  function Sends(sts: seq<Statement>, kinds: set<OperationType>): (r: seq<Statement>)
    ensures |r| <= |sts|
    ensures forall k :: 0 <= k < |r| ==> r[k].Send? && r[k].kind in kinds
  {
    if |sts| == 0 then []
    else
      var last := sts[|sts| - 1];
      Sends(sts[..|sts| - 1], kinds) + (if last.Send? && last.kind in kinds then [last] else [])
  }

  /** No send of a selected kind is passed over. */
  lemma {:induction false} SendsComplete(sts: seq<Statement>, kinds: set<OperationType>)
    ensures |Sends(sts, kinds)| == 0 <==>
      forall k :: 0 <= k < |sts| ==> !(sts[k].Send? && sts[k].kind in kinds)
  {
    if |sts| > 0 {
      var p := sts[..|sts| - 1];
      SendsComplete(p, kinds);
      assert forall k :: 0 <= k < |p| ==> p[k] == sts[k];
    }
  }

  /** The sends of printable statements are printable. */
  lemma {:induction false} SendsPrintable(sts: seq<Statement>, kinds: set<OperationType>)
    requires forall k :: 0 <= k < |sts| ==> Printable(sts[k])
    ensures forall k :: 0 <= k < |Sends(sts, kinds)| ==> Printable(Sends(sts, kinds)[k])
  {
    if |sts| > 0 {
      SendsPrintable(sts[..|sts| - 1], kinds);
    }
  }

  lemma SendsSnoc(sts: seq<Statement>, i: nat, kinds: set<OperationType>)
    requires i < |sts|
    ensures Sends(sts[..i + 1], kinds) ==
      Sends(sts[..i], kinds) + (if sts[i].Send? && sts[i].kind in kinds then [sts[i]] else [])
  {
    assert sts[..i + 1][..i] == sts[..i];
  }

  // ---------------------------------------------------------------------------
  // Canonical paths
  // ---------------------------------------------------------------------------

  /** snprintf into a 256-byte buffer keeps at most 255 characters. */
  const PathBuffer: nat := 256

  function Clip(s: string): (r: string)
    ensures |r| < PathBuffer && r <= s
    ensures |s| < PathBuffer ==> r == s
  {
    if |s| < PathBuffer then s else s[..PathBuffer - 1]
  }

  /** The path of a send: `<t>Proto.<t>Actor.<sel>` when auto-hoisting, else
      `<t>.<sel>`, with the synthetic actor name and the path each cut to 255
      characters as the fixed buffers do. */
  function PathOf(target: string, selector: string, autoHoist: bool): (p: string)
    ensures |p| < PathBuffer
    ensures !autoHoist && |target| + |selector| + 1 < PathBuffer ==> p == target + "." + selector
    ensures autoHoist && 2 * |target| + |selector| + 12 < PathBuffer ==>
      p == target + "Proto." + target + "Actor." + selector
  {
    if autoHoist then
      assert target + "Proto." + (target + "Actor") + "." + selector == target + "Proto." + target + "Actor." + selector;
      Clip(target + "Proto." + Clip(target + "Actor") + "." + selector)
    else Clip(target + "." + selector)
  }

  lemma PrefixKeepsNoNewline(s: string, r: string)
    requires r <= s && NoNewline(s)
    ensures NoNewline(r)
  {
  }

  lemma PathNoNewline(target: string, selector: string, autoHoist: bool)
    requires NoNewline(target) && NoNewline(selector)
    ensures NoNewline(PathOf(target, selector, autoHoist))
  {
    var a := target + "Actor";
    PrefixKeepsNoNewline(a, Clip(a));
    if autoHoist {
      var full := target + "Proto." + Clip(a) + "." + selector;
      PrefixKeepsNoNewline(full, Clip(full));
    } else {
      var full := target + "." + selector;
      PrefixKeepsNoNewline(full, Clip(full));
    }
  }

  lemma PascalNoNewline(s: string)
    requires NoNewline(s)
    ensures NoNewline(ToPascalCase(Some(s)))
  {
    var r := ToPascalCase(Some(s));
    if |r| > 0 {
      assert r == [r[0]] + s[1..];
      assert r[0] == ToUpper(s[0]);
    }
  }

  /** The annotation after a path. */
  function TypeTag(kind: OperationType): string {
    match kind
    case RTerm => "[R]"
    case DTerm => "[D]"
    case STerm => "[S]"
  }

  /** One line of canonical code: the path of the Pascal-cased target and the
      type tag. */
  function CanonicalEntry(st: Statement, autoHoist: bool): string
    requires st.Send?
  {
    PathOf(ToPascalCase(Some(st.target)), st.selector, autoHoist) + " " + TypeTag(st.kind)
  }

  /** The canonical entries of a list of sends, one per send. */
  function CanonicalEntries(sends: seq<Statement>, autoHoist: bool): (r: seq<string>)
    requires forall k :: 0 <= k < |sends| ==> sends[k].Send?
    ensures |r| == |sends|
  {
    if |sends| == 0 then []
    else CanonicalEntries(sends[..|sends| - 1], autoHoist) + [CanonicalEntry(sends[|sends| - 1], autoHoist)]
  }

  /** The k-th canonical entry is the entry of the k-th send. */
  lemma {:induction false} CanonicalEntriesAt(sends: seq<Statement>, autoHoist: bool)
    requires forall k :: 0 <= k < |sends| ==> sends[k].Send?
    ensures forall k :: 0 <= k < |sends| ==> CanonicalEntries(sends, autoHoist)[k] == CanonicalEntry(sends[k], autoHoist)
    decreases |sends|
  {
    if |sends| > 0 {
      var p := sends[..|sends| - 1];
      CanonicalEntriesAt(p, autoHoist);
      var before := CanonicalEntries(p, autoHoist);
      var last := CanonicalEntry(sends[|sends| - 1], autoHoist);
      assert CanonicalEntries(sends, autoHoist) == before + [last];
      forall k | 0 <= k < |sends|
        ensures CanonicalEntries(sends, autoHoist)[k] == CanonicalEntry(sends[k], autoHoist)
      {
        if k < |p| {
          assert p[k] == sends[k];
          assert (before + [last])[k] == before[k] == CanonicalEntry(p[k], autoHoist);
        }
      }
    }
  }

  /** canonicalize_paths: one line per send, in order; other statements add
      nothing. */
  method CanonicalizePaths(ast: SurfaceAst, options: CompilerOptions) returns (output: string)
    ensures output == CanonicalText(ast.statements, options.autoHoist)
  {
    var sts := ast.statements;
    output := "";
    var i := 0;
    while i < |sts|
      invariant i <= |sts|
      invariant output == CanonicalText(sts[..i], options.autoHoist)
    {
      var st := sts[i];
      CanonicalStep(sts, i, options.autoHoist);
      if st.Send? {
        var target := ToPascalCase(Some(st.target));
        var path := PathOf(target, st.selector, options.autoHoist);
        var tag := TypeTag(st.kind);
        output := output + (path + " " + tag + "\n");
      }
      i := i + 1;
    }
    assert sts[..|sts|] == sts;
  }

  /** The canonical code of a list of statements. */
  function CanonicalText(sts: seq<Statement>, autoHoist: bool): string {
    Lines(CanonicalEntries(Sends(sts, AllKinds), autoHoist))
  }

  lemma CanonicalStep(sts: seq<Statement>, i: nat, autoHoist: bool)
    requires i < |sts|
    ensures sts[i].Send? ==>
      CanonicalText(sts[..i + 1], autoHoist) == CanonicalText(sts[..i], autoHoist) + (CanonicalEntry(sts[i], autoHoist) + "\n")
    ensures !sts[i].Send? ==> CanonicalText(sts[..i + 1], autoHoist) == CanonicalText(sts[..i], autoHoist)
  {
    SendsSnoc(sts, i, AllKinds);
    var before := Sends(sts[..i], AllKinds);
    if sts[i].Send? {
      assert sts[i].kind in AllKinds by {
        match sts[i].kind
        case RTerm =>
        case DTerm =>
        case STerm =>
      }
      assert Sends(sts[..i + 1], AllKinds) == before + [sts[i]];
      CanonicalSnoc(before, sts[i], autoHoist);
    } else {
      assert before + [] == before;
    }
  }

  lemma CanonicalSnoc(sends: seq<Statement>, st: Statement, autoHoist: bool)
    requires st.Send? && forall k :: 0 <= k < |sends| ==> sends[k].Send?
    ensures Lines(CanonicalEntries(sends + [st], autoHoist)) ==
      Lines(CanonicalEntries(sends, autoHoist)) + (CanonicalEntry(st, autoHoist) + "\n")
  {
    assert (sends + [st])[..|sends|] == sends;
    LinesSnoc(CanonicalEntries(sends, autoHoist), CanonicalEntry(st, autoHoist));
  }

  /** A send whose names hold no newline. */
  predicate Printable(st: Statement) {
    st.Send? ==>
      (NoNewline(st.target) && NoNewline(st.selector) &&
       forall k :: 0 <= k < |st.arguments| ==> NoNewline(st.arguments[k]))
  }

  /** Read back line by line, the canonical code is one entry per send, in
      order, each the send's path and its type tag. */
  lemma CanonicalLines(sts: seq<Statement>, autoHoist: bool)
    requires forall k :: 0 <= k < |sts| ==> Printable(sts[k])
    ensures Split(CanonicalText(sts, autoHoist), '\n') == CanonicalEntries(Sends(sts, AllKinds), autoHoist) + [""]
  {
    var sends := Sends(sts, AllKinds);
    var es := CanonicalEntries(sends, autoHoist);
    SendsPrintable(sts, AllKinds);
    CanonicalEntriesAt(sends, autoHoist);
    forall k | 0 <= k < |es|
      ensures NoNewline(es[k])
    {
      var st := sends[k];
      assert Printable(st);
      PascalNoNewline(st.target);
      PathNoNewline(ToPascalCase(Some(st.target)), st.selector, autoHoist);
      var tag := TypeTag(st.kind);
      assert NoNewline(" " + tag);
    }
    ReadLines(es);
  }

  // ---------------------------------------------------------------------------
  // Reversible IR
  // ---------------------------------------------------------------------------

  const IrDisabled: string := "// Reversible IR disabled\n"
  const IrHeader: string := "// Reversible Intermediate Representation (L2a/L1)"
  const IrInitialSize: nat := 2048

  /** One REV_OP line without its newline: the call, its arguments separated
      by ", ", and the name of the inverse. */
  function IrEntry(st: Statement): (e: string)
    requires st.Send?
    ensures |e| == 31 + |st.target| + 2 * |st.selector| + |Join(st.arguments, ", ")|
  {
    "REV_OP: " + st.target + "." + st.selector + "(" + Join(st.arguments, ", ") + ") [INVERSE: " + st.selector + "_inverse]"
  }

  function IrEntries(sends: seq<Statement>): (r: seq<string>)
    requires forall k :: 0 <= k < |sends| ==> sends[k].Send?
    ensures |r| == |sends|
    ensures forall k :: 0 <= k < |r| ==> r[k] == IrEntry(sends[k])
  {
    if |sends| == 0 then [] else IrEntries(sends[..|sends| - 1]) + [IrEntry(sends[|sends| - 1])]
  }

  /** The reversible IR: the fixed notice when reversibility is off, else the
      header and one REV_OP line per R-term send, in order. */
  function ReversibleIr(sts: seq<Statement>, reversibleDefault: bool): string {
    if !reversibleDefault then IrDisabled else IrText(sts)
  }

  /** The argument list, written as ", " between arguments with the cursor
      moved past both characters. */
  method WriteArguments(args: seq<string>) returns (text: string)
    ensures text == Join(args, ", ")
  {
    text := "";
    var j := 0;
    while j < |args|
      invariant j <= |args| && text == Join(args[..j], ", ")
    {
      if j > 0 {
        text := text + ", ";
      }
      assert args[..j + 1] == args[..j] + [args[j]];
      if j > 0 {
        JoinSnoc(args[..j], args[j], ", ");
      }
      text := text + args[j];
      j := j + 1;
    }
    assert args[..j] == args;
  }

  /** The argument loop as written: sprintf puts ", " at the cursor but the
      cursor moves one place, so the next argument overwrites the space. The
      text is kept as the C string up to its terminator. */
  method WriteArgumentsAsWritten(args: seq<string>) returns (text: string)
    ensures text == Join(args, ",")
  {
    text := "";
    var pos := 0;
    var j := 0;
    while j < |args|
      invariant j <= |args| && text == Join(args[..j], ",") && pos == |text|
    {
      if j > 0 {
        text := text[..pos] + ", ";
        pos := pos + 1;
      }
      text := text[..pos] + args[j];
      pos := pos + |args[j]|;
      assert args[..j + 1] == args[..j] + [args[j]];
      if j > 0 {
        JoinSnoc(args[..j], args[j], ",");
      }
      j := j + 1;
    }
    assert args[..j] == args;
  }

  /** Two arguments come out as "a,b" where the format promises "a, b". */
  lemma ArgumentSpaceLost()
    ensures Join(["a", "b"], ",") == "a,b"
    ensures Join(["a", "b"], ", ") == "a, b"
  {
    JoinSnoc(["a"], "b", ",");
    JoinSnoc(["a"], "b", ", ");
  }

  /** The arguments each but the first behind a space. */
  function Spaced(args: seq<string>): (r: seq<string>)
    ensures |r| == |args|
  {
    if |args| == 0 then [] else Spaced(args[..|args| - 1]) + [(if |args| == 1 then "" else " ") + args[|args| - 1]]
  }

  /** Cutting the corrected argument list at the commas gives each argument
      back (after its separating space), when no argument holds a comma. */
  lemma {:induction false} ArgumentsReadBack(args: seq<string>)
    requires |args| > 0 && forall k :: 0 <= k < |args| ==> ',' !in args[k]
    ensures Split(Join(args, ", "), ',') == Spaced(args)
  {
    SpacedJoin(args);
    var sp := Spaced(args);
    forall k | 0 <= k < |sp|
      ensures ',' !in sp[k]
    {
      SpacedAt(args, k);
    }
    SplitJoin(sp, ',');
  }

  lemma {:induction false} SpacedAt(args: seq<string>, k: nat)
    requires k < |args|
    ensures Spaced(args)[k] == (if k == 0 then "" else " ") + args[k]
    decreases |args|
  {
    if k < |args| - 1 {
      SpacedAt(args[..|args| - 1], k);
    }
  }

  lemma {:induction false} SpacedJoin(args: seq<string>)
    requires |args| > 0
    ensures Join(Spaced(args), ",") == Join(args, ", ")
    decreases |args|
  {
    if |args| > 1 {
      var p := args[..|args| - 1];
      SpacedJoin(p);
      assert Spaced(args) == Spaced(p) + [" " + args[|args| - 1]];
      assert args == p + [args[|args| - 1]];
      JoinSnoc(Spaced(p), " " + args[|args| - 1], ",");
      JoinSnoc(p, args[|args| - 1], ", ");
    }
  }

  /** The reserve generate_reversible_ir makes for one R-term send: both
      names, 20 for the format, and 2 more per argument. */
  function ArgsReserve(args: seq<string>): nat {
    if |args| == 0 then 0 else ArgsReserve(args[..|args| - 1]) + |args[|args| - 1]| + 2
  }

  function IrReserveAsWritten(st: Statement): nat
    requires st.Send?
  {
    |st.target| + |st.selector| + 20 + ArgsReserve(st.arguments)
  }

  /** The write cursor and the buffer size after the lines of `sends`, as
      written: one doubling when cursor plus reserve reaches the size. */
  function IrBookkeepingAsWritten(sends: seq<Statement>): (r: (nat, nat))
    requires forall k :: 0 <= k < |sends| ==> sends[k].Send? && |sends[k].arguments| == 0
  {
    if |sends| == 0 then (|IrHeader| + 1, IrInitialSize)
    else
      var (pos, size) := IrBookkeepingAsWritten(sends[..|sends| - 1]);
      var st := sends[|sends| - 1];
      var size' := if pos + IrReserveAsWritten(st) >= size then 2 * size else size;
      (pos + |IrEntry(st)| + 1, size')
  }

  /** A line of `sends` runs past the buffer: its text and terminator end
      beyond the size left after its reserve check. */
  predicate IrOverflowsAsWritten(sends: seq<Statement>)
    requires forall k :: 0 <= k < |sends| ==> sends[k].Send? && |sends[k].arguments| == 0
  {
    exists n :: 0 < n <= |sends| && LineOverflowsAsWritten(sends, n)
  }

  /** The n-th line, with its terminator, ends past the buffer left after its
      reserve check. */
  predicate LineOverflowsAsWritten(sends: seq<Statement>, n: nat)
    requires 0 < n <= |sends|
    requires forall k :: 0 <= k < |sends| ==> sends[k].Send? && |sends[k].arguments| == 0
  {
    var (pos, size) := IrBookkeepingAsWritten(sends[..n - 1]);
    var st := sends[n - 1];
    var size' := if pos + IrReserveAsWritten(st) >= size then 2 * size else size;
    pos + |IrEntry(st)| + 2 > size'
  }

  function Repeat(k: nat, st: Statement): (r: seq<Statement>)
    ensures |r| == k && forall j :: 0 <= j < k ==> r[j] == st
  {
    if k == 0 then [] else Repeat(k - 1, st) + [st]
  }

  lemma {:induction false} RepeatedBookkeeping(k: nat)
    requires k <= 53
    ensures IrBookkeepingAsWritten(Repeat(k, SimpleParser.SendOf("a", "bc"))) == (51 + 37 * k, IrInitialSize)
  {
    if k > 0 {
      var r := Repeat(k, SimpleParser.SendOf("a", "bc"));
      assert r[..k - 1] == Repeat(k - 1, SimpleParser.SendOf("a", "bc"));
      RepeatedBookkeeping(k - 1);
    }
  }

  /** Fifty-four R-term sends `a -> bc` overflow the reversible IR buffer as
      written: after 53 lines the cursor is at 2012, the reserve of 23 keeps
      the size at 2048, and the 37-character line and terminator end at 2050. */
  lemma IrReserveOverflows()
    ensures IrOverflowsAsWritten(Repeat(54, SimpleParser.SendOf("a", "bc")))
  {
    var sends := Repeat(54, SimpleParser.SendOf("a", "bc"));
    RepeatedBookkeeping(53);
    assert sends[..53] == Repeat(53, SimpleParser.SendOf("a", "bc"));
    assert |IrEntry(sends[53])| == 36;
    assert LineOverflowsAsWritten(sends, 54);
  }

  /** generate_reversible_ir with the reserve it needs: the buffer is doubled
      until the line and its terminator fit, so every write stays inside it. */
  method GenerateReversibleIr(ast: SurfaceAst, options: CompilerOptions) returns (output: string, size: nat)
    ensures output == ReversibleIr(ast.statements, options.reversibleDefault)
    ensures |output| < size
  {
    if !options.reversibleDefault {
      return IrDisabled, |IrDisabled| + 1;
    }
    var sts := ast.statements;
    size := IrInitialSize;
    output := IrHeader + "\n";
    assert output == IrText(sts[..0]) by {
      assert Sends(sts[..0], {RTerm}) == [];
      assert IrEntries([]) == [];
      LinesSnoc([], IrHeader);
      assert [IrHeader] + [] == [] + [IrHeader];
    }
    var i := 0;
    while i < |sts|
      invariant i <= |sts| && |output| < size
      invariant output == IrText(sts[..i])
    {
      output, size := AppendIrLine(sts, i, output, size);
      i := i + 1;
    }
    assert sts[..|sts|] == sts;
  }

  /** One iteration of generate_reversible_ir's statement loop: an R-term
      send adds its REV_OP line, after the buffer has grown enough. */
  method AppendIrLine(sts: seq<Statement>, i: nat, output: string, size: nat) returns (output': string, size': nat)
    requires i < |sts| && |output| < size && output == IrText(sts[..i])
    ensures |output'| < size' && output' == IrText(sts[..i + 1])
  {
    var st := sts[i];
    IrStep(sts, i);
    output', size' := output, size;
    if st.Send? && st.kind == RTerm {
      var args := WriteArguments(st.arguments);
      var line := "REV_OP: " + st.target + "." + st.selector + "(" + args + ") [INVERSE: " + st.selector + "_inverse]";
      var needed := |line| + 2;
      while |output'| + needed > size'
        invariant |output'| < size'
      {
        size' := 2 * size';
      }
      output' := output' + (line + "\n");
    }
  }

  /** The enabled reversible IR of a list of statements. */
  function IrText(sts: seq<Statement>): string {
    Lines([IrHeader] + IrEntries(Sends(sts, {RTerm})))
  }

  lemma IrStep(sts: seq<Statement>, i: nat)
    requires i < |sts|
    ensures sts[i].Send? && sts[i].kind == RTerm ==>
      IrText(sts[..i + 1]) == IrText(sts[..i]) + (IrEntry(sts[i]) + "\n")
    ensures !(sts[i].Send? && sts[i].kind == RTerm) ==> IrText(sts[..i + 1]) == IrText(sts[..i])
  {
    SendsSnoc(sts, i, {RTerm});
    var before := Sends(sts[..i], {RTerm});
    if sts[i].Send? && sts[i].kind == RTerm {
      var st := sts[i];
      var e := IrEntry(st);
      var eb := [IrHeader] + IrEntries(before);
      assert Sends(sts[..i + 1], {RTerm}) == before + [st];
      assert (before + [st])[..|before|] == before;
      assert IrEntries(before + [st]) == IrEntries(before) + [e];
      assert [IrHeader] + IrEntries(before + [st]) == eb + [e];
      LinesSnoc(eb, e);
    } else {
      assert before + [] == before;
    }
  }

  /** Read back line by line, the enabled IR is the header and one REV_OP
      entry per R-term send. */
  lemma IrLines(sts: seq<Statement>)
    requires forall k :: 0 <= k < |sts| ==> Printable(sts[k])
    ensures Split(ReversibleIr(sts, true), '\n') == [IrHeader] + IrEntries(Sends(sts, {RTerm})) + [""]
  {
    var sends := Sends(sts, {RTerm});
    SendsPrintable(sts, {RTerm});
    IrEntriesNoNewline(sends);
    HeadersNoNewline();
    ReadHeadedLines(IrHeader, IrEntries(sends));
  }

  lemma IrEntriesNoNewline(sends: seq<Statement>)
    requires forall k :: 0 <= k < |sends| ==> sends[k].Send? && Printable(sends[k])
    ensures forall k :: 0 <= k < |sends| ==> NoNewline(IrEntries(sends)[k])
  {
    forall k | 0 <= k < |sends|
      ensures NoNewline(IrEntries(sends)[k])
    {
      IrEntryNoNewline(sends[k]);
    }
  }

  lemma IrEntryNoNewline(st: Statement)
    requires st.Send? && Printable(st)
    ensures NoNewline(IrEntry(st))
  {
    JoinNoNewline(st.arguments, ", ");
  }

  lemma {:induction false} JoinNoNewline(parts: seq<string>, sep: string)
    requires NoNewline(sep) && forall k :: 0 <= k < |parts| ==> NoNewline(parts[k])
    ensures NoNewline(Join(parts, sep))
    decreases |parts|
  {
    if |parts| > 1 {
      JoinNoNewline(parts[..|parts| - 1], sep);
    }
  }

  // ---------------------------------------------------------------------------
  // Membrane logs
  // ---------------------------------------------------------------------------

  const MembraneHeader: string := "// Membrane Logs - D-term Boundaries"
  const FullyReversible: string := "// No D-term operations - fully reversible"

  lemma HeadersNoNewline()
    ensures NoNewline(IrHeader) && NoNewline(MembraneHeader) && NoNewline(FullyReversible)
  {
    IrHeaderNoNewline();
    MembraneHeaderNoNewline();
    NoticeNoNewline();
  }

  lemma IrHeaderNoNewline()
    ensures NoNewline(IrHeader)
  {
    assert NoNewline("// Reversible Intermediate ");
    assert NoNewline("Representation (L2a/L1)");
  }

  lemma MembraneHeaderNoNewline()
    ensures NoNewline(MembraneHeader)
  {
    assert NoNewline("// Membrane Logs - D-term Boundaries");
  }

  lemma NoticeNoNewline()
    ensures NoNewline(FullyReversible)
  {
    assert NoNewline("// No D-term operations ");
    assert NoNewline("- fully reversible");
  }

  function MembraneLine(st: Statement): string
    requires st.Send?
  {
    "MEMBRANE: " + st.target + "." + st.selector + "() [IRREVERSIBLE]"
  }

  function TimestampLine(now: nat): string {
    "  TIMESTAMP: " + NatToString(now)
  }

  function CompensationLine(st: Statement): string
    requires st.Send?
  {
    "  COMPENSATION: rollback_" + st.selector
  }

  /** The lines of one D-term send: the MEMBRANE line and, in debug mode, its
      timestamp and compensation lines. */
  function MembraneLines(st: Statement, debugMode: bool, now: nat): (r: seq<string>)
    requires st.Send?
    ensures |r| > 0 && r[0] == MembraneLine(st)
  {
    [MembraneLine(st)] + (if debugMode then [TimestampLine(now), CompensationLine(st)] else [])
  }

  function MembraneEntries(sends: seq<Statement>, debugMode: bool, now: nat): (r: seq<string>)
    requires forall k :: 0 <= k < |sends| ==> sends[k].Send?
  {
    if |sends| == 0 then []
    else MembraneEntries(sends[..|sends| - 1], debugMode, now) + MembraneLines(sends[|sends| - 1], debugMode, now)
  }

  /** The membrane log: the header, the lines of each D-term send, and the
      fully-reversible notice when there is none. `now` stands for time(). */
  function MembraneLogs(sts: seq<Statement>, debugMode: bool, now: nat): string {
    var ds := Sends(sts, {DTerm});
    Lines([MembraneHeader] + MembraneEntries(ds, debugMode, now) + (if |ds| == 0 then [FullyReversible] else []))
  }

  method GenerateMembraneLogs(ast: SurfaceAst, options: CompilerOptions, now: nat) returns (output: string)
    ensures output == MembraneLogs(ast.statements, options.debugMode, now)
  {
    var sts := ast.statements;
    output := MembraneHeader + "\n";
    assert output == MembraneText(sts[..0], options.debugMode, now) by {
      assert Sends(sts[..0], {DTerm}) == [];
      assert MembraneEntries([], options.debugMode, now) == [];
      LinesSnoc([], MembraneHeader);
      assert [MembraneHeader] + [] == [] + [MembraneHeader];
    }
    var hasDTerm := false;
    var i := 0;
    while i < |sts|
      invariant i <= |sts|
      invariant hasDTerm <==> |Sends(sts[..i], {DTerm})| > 0
      invariant output == MembraneText(sts[..i], options.debugMode, now)
    {
      output, hasDTerm := AppendMembraneEntry(sts, i, options.debugMode, now, output, hasDTerm);
      i := i + 1;
    }
    assert sts[..|sts|] == sts;
    MembraneLogsText(sts, options.debugMode, now);
    if !hasDTerm {
      output := output + (FullyReversible + "\n");
    }
  }

  /** One iteration of the loop of generate_membrane_logs: a D-term send
      appends its entry and marks that there is one. */
  method AppendMembraneEntry(sts: seq<Statement>, i: nat, debugMode: bool, now: nat, output: string, hasDTerm: bool)
    returns (output': string, hasDTerm': bool)
    requires i < |sts|
    requires hasDTerm <==> |Sends(sts[..i], {DTerm})| > 0
    requires output == MembraneText(sts[..i], debugMode, now)
    ensures hasDTerm' <==> |Sends(sts[..i + 1], {DTerm})| > 0
    ensures output' == MembraneText(sts[..i + 1], debugMode, now)
  {
    var st := sts[i];
    SendsSnoc(sts, i, {DTerm});
    MembraneStep(sts, i, debugMode, now);
    output', hasDTerm' := output, hasDTerm;
    if st.Send? && st.kind == DTerm {
      hasDTerm' := true;
      var entry := MembraneLine(st) + "\n";
      if debugMode {
        entry := entry + (TimestampLine(now) + "\n") + (CompensationLine(st) + "\n");
      }
      output' := output + entry;
    }
  }

  lemma MembraneLogsText(sts: seq<Statement>, debugMode: bool, now: nat)
    ensures |Sends(sts, {DTerm})| == 0 ==>
      MembraneLogs(sts, debugMode, now) == MembraneText(sts, debugMode, now) + (FullyReversible + "\n")
    ensures |Sends(sts, {DTerm})| > 0 ==> MembraneLogs(sts, debugMode, now) == MembraneText(sts, debugMode, now)
  {
    var ls := [MembraneHeader] + MembraneEntries(Sends(sts, {DTerm}), debugMode, now);
    if |Sends(sts, {DTerm})| == 0 {
      LinesSnoc(ls, FullyReversible);
    } else {
      assert ls + [] == ls;
    }
  }

  /** The header and the lines of the D-term sends of a list of statements. */
  function MembraneText(sts: seq<Statement>, debugMode: bool, now: nat): string {
    Lines([MembraneHeader] + MembraneEntries(Sends(sts, {DTerm}), debugMode, now))
  }

  /** The text one D-term send adds. */
  function SendLogText(st: Statement, debugMode: bool, now: nat): string
    requires st.Send?
  {
    if debugMode then MembraneLine(st) + "\n" + (TimestampLine(now) + "\n") + (CompensationLine(st) + "\n")
    else MembraneLine(st) + "\n"
  }

  lemma MembraneLinesText(st: Statement, debugMode: bool, now: nat)
    requires st.Send?
    ensures Lines(MembraneLines(st, debugMode, now)) == SendLogText(st, debugMode, now)
  {
    if debugMode {
      var m, t, c := MembraneLine(st), TimestampLine(now), CompensationLine(st);
      assert MembraneLines(st, debugMode, now) == [m, t, c];
      ThreeLines(m, t, c);
    } else {
      LinesSnoc([], MembraneLine(st));
      assert [MembraneLine(st)] == [] + [MembraneLine(st)];
    }
  }

  lemma ThreeLines(a: string, b: string, c: string)
    ensures Lines([a, b, c]) == a + "\n" + (b + "\n") + (c + "\n")
  {
    LinesSnoc([], a);
    LinesSnoc([a], b);
    LinesSnoc([a, b], c);
    assert [a] == [] + [a];
    assert [a, b] == [a] + [b];
    assert [a, b, c] == [a, b] + [c];
  }

  lemma MembraneStep(sts: seq<Statement>, i: nat, debugMode: bool, now: nat)
    requires i < |sts|
    ensures sts[i].Send? && sts[i].kind == DTerm ==>
      MembraneText(sts[..i + 1], debugMode, now) == MembraneText(sts[..i], debugMode, now) + SendLogText(sts[i], debugMode, now)
    ensures !(sts[i].Send? && sts[i].kind == DTerm) ==>
      MembraneText(sts[..i + 1], debugMode, now) == MembraneText(sts[..i], debugMode, now)
  {
    SendsSnoc(sts, i, {DTerm});
    var before := Sends(sts[..i], {DTerm});
    if sts[i].Send? && sts[i].kind == DTerm {
      var st := sts[i];
      var es := MembraneEntries(before, debugMode, now);
      var lines := MembraneLines(st, debugMode, now);
      assert Sends(sts[..i + 1], {DTerm}) == before + [st];
      assert (before + [st])[..|before|] == before;
      assert MembraneEntries(before + [st], debugMode, now) == es + lines;
      assert [MembraneHeader] + (es + lines) == ([MembraneHeader] + es) + lines;
      LinesAppend([MembraneHeader] + es, lines);
      MembraneLinesText(st, debugMode, now);
    } else {
      assert before + [] == before;
    }
  }

  /** Read back line by line, the notice that the program is fully reversible
      is there exactly when no send is a D-term. */
  lemma MembraneNoticeIff(sts: seq<Statement>, debugMode: bool, now: nat)
    requires forall k :: 0 <= k < |sts| ==> Printable(sts[k])
    ensures FullyReversible in Split(MembraneLogs(sts, debugMode, now), '\n') <==>
      forall k :: 0 <= k < |sts| ==> !(sts[k].Send? && sts[k].kind == DTerm)
  {
    var ds := Sends(sts, {DTerm});
    var es := MembraneEntries(ds, debugMode, now);
    SendsPrintable(sts, {DTerm});
    MembraneEntriesShape(ds, debugMode, now);
    MembraneLinesRead(es, |ds| == 0);
    SendsComplete(sts, {DTerm});
  }

  /** The membrane log's lines, read back, hold the notice exactly when it was
      written: no send line starts the way the notice does. */
  lemma MembraneLinesRead(es: seq<string>, none: bool)
    requires forall k :: 0 <= k < |es| ==> LogLine(es[k])
    ensures var ls := [MembraneHeader] + es + (if none then [FullyReversible] else []);
      FullyReversible in Split(Lines(ls), '\n') <==> none
  {
    var ls := [MembraneHeader] + es + (if none then [FullyReversible] else []);
    HeadersNoNewline();
    forall k | 0 <= k < |ls|
      ensures NoNewline(ls[k])
    {
      if 0 < k <= |es| {
        assert ls[k] == es[k - 1];
      }
    }
    ReadLines(ls);
    var all := ls + [""];
    if none {
      assert all[|es| + 1] == FullyReversible;
    } else {
      assert MembraneHeader[3] != FullyReversible[3];
      forall k | 0 <= k < |all|
        ensures all[k] != FullyReversible
      {
        if 0 < k <= |es| {
          assert all[k] == es[k - 1];
          assert FullyReversible[0] == '/';
        } else if k == 0 {
          assert all[k] == MembraneHeader;
        }
      }
    }
  }

  /** Each D-term send gives one line, three in debug mode; every line starts
      with `M` or a space and, for printable sends, holds no newline. */
  lemma {:induction false} MembraneEntriesShape(sends: seq<Statement>, debugMode: bool, now: nat)
    requires forall k :: 0 <= k < |sends| ==> sends[k].Send? && Printable(sends[k])
    ensures var es := MembraneEntries(sends, debugMode, now);
      |es| == |sends| * (if debugMode then 3 else 1) &&
      forall k :: 0 <= k < |es| ==> LogLine(es[k])
    decreases |sends|
  {
    if |sends| > 0 {
      var p := sends[..|sends| - 1];
      var st := sends[|sends| - 1];
      MembraneEntriesShape(p, debugMode, now);
      MembraneLinesShape(st, debugMode, now);
      var before := MembraneEntries(p, debugMode, now);
      var lines := MembraneLines(st, debugMode, now);
      var es := MembraneEntries(sends, debugMode, now);
      assert es == before + lines;
      forall k | 0 <= k < |es|
        ensures LogLine(es[k])
      {
        if k < |before| {
          assert es[k] == before[k];
        } else {
          assert es[k] == lines[k - |before|];
        }
      }
      assert |sends| * (if debugMode then 3 else 1) == |p| * (if debugMode then 3 else 1) + (if debugMode then 3 else 1);
    }
  }

  /** A membrane log line: no newline, and it starts with `M` or a space. */
  predicate LogLine(e: string) {
    NoNewline(e) && |e| > 0 && (e[0] == 'M' || e[0] == ' ')
  }

  /** The lines of one printable D-term send are log lines. */
  lemma MembraneLinesShape(st: Statement, debugMode: bool, now: nat)
    requires st.Send? && Printable(st)
    ensures var lines := MembraneLines(st, debugMode, now);
      |lines| == (if debugMode then 3 else 1) && forall k :: 0 <= k < |lines| ==> LogLine(lines[k])
  {
    NatToStringNoNewline(now);
    var m := MembraneLine(st);
    assert m[0] == 'M';
    var t := TimestampLine(now);
    assert t[0] == ' ';
    var c := CompensationLine(st);
    assert c[0] == ' ';
  }

  lemma NatToStringNoNewline(n: nat)
    ensures NoNewline(NatToString(n))
  {
    NatToStringValue(n);
  }

  // ---------------------------------------------------------------------------
  // Validation
  // ---------------------------------------------------------------------------

  const CycleMessage: string := "Inheritance cycle detected"
  const StrictMessage: string := "D-term operation requires explicit @irreversible or @io tag in strict mode"

  /** Two relation strings, each of which occurs inside the other. */
  predicate MutuallyContained(a: string, b: string) {
    Contains(a, b) && Contains(b, a)
  }

  predicate HasCycle(rels: seq<string>) {
    exists i, j :: 0 <= i < j < |rels| && MutuallyContained(rels[i], rels[j])
  }

  predicate UntaggedDTerm(st: Statement) {
    st.Send? && st.kind == DTerm && !st.tag.isTagged
  }

  /** The message validate_unified reports, or None when it passes: a cycle
      first, then, in strict mode, an untagged D-term send. */
  function Validation(ast: SurfaceAst, strictMode: bool): Option<string> {
    if HasCycle(ast.relations) then Some(CycleMessage)
    else if strictMode && exists k :: 0 <= k < |ast.statements| && UntaggedDTerm(ast.statements[k]) then Some(StrictMessage)
    else None
  }

  /** The inner scan: is some later relation mutually contained with rels[i]? */
  method FindPartner(rels: seq<string>, i: nat) returns (found: bool)
    requires i < |rels|
    ensures found <==> exists j :: i < j < |rels| && MutuallyContained(rels[i], rels[j])
  {
    var j := i + 1;
    while j < |rels|
      invariant i < j <= |rels|
      invariant forall m :: i < m < j ==> !MutuallyContained(rels[i], rels[m])
    {
      if Contains(rels[i], rels[j]) && Contains(rels[j], rels[i]) {
        return true;
      }
      j := j + 1;
    }
    return false;
  }

  /** validate_unified: the pairwise cycle scan, then the strict-mode tag scan;
      the reversible-default pass checks nothing. */
  method ValidateUnified(ast: SurfaceAst, options: CompilerOptions) returns (ok: bool, error: Option<string>)
    ensures error == Validation(ast, options.strictMode)
    ensures ok <==> error.None?
  {
    var rels := ast.relations;
    var i := 0;
    while i < |rels|
      invariant i <= |rels|
      invariant forall a, b :: 0 <= a < i && a < b < |rels| ==> !MutuallyContained(rels[a], rels[b])
    {
      var found := FindPartner(rels, i);
      if found {
        return false, Some(CycleMessage);
      }
      i := i + 1;
    }
    if options.strictMode {
      var sts := ast.statements;
      var k := 0;
      while k < |sts|
        invariant k <= |sts|
        invariant forall m :: 0 <= m < k ==> !UntaggedDTerm(sts[m])
      {
        if sts[k].Send? && sts[k].kind == DTerm && !sts[k].tag.isTagged {
          return false, Some(StrictMessage);
        }
        k := k + 1;
      }
    }
    return true, None;
  }

  /** Mutual containment is equality: the cycle check fires exactly on a
      relation that appears twice. */
  lemma MutuallyContainedIsEqual(a: string, b: string)
    ensures MutuallyContained(a, b) <==> a == b
  {
    if a == b {
      assert OccursAt(a, a, 0);
    }
    if MutuallyContained(a, b) {
      var i := Find(a, b).value;
      var j := Find(b, a).value;
      assert |a| == |b|;
      assert i == 0;
      assert a[..|b|] == b;
    }
  }

  lemma CycleIsDuplicate(rels: seq<string>)
    ensures HasCycle(rels) <==> exists i, j :: 0 <= i < j < |rels| && rels[i] == rels[j]
  {
    if HasCycle(rels) {
      var i, j :| 0 <= i < j < |rels| && MutuallyContained(rels[i], rels[j]);
      MutuallyContainedIsEqual(rels[i], rels[j]);
    }
    if exists i, j :: 0 <= i < j < |rels| && rels[i] == rels[j] {
      var i, j :| 0 <= i < j < |rels| && rels[i] == rels[j];
      MutuallyContainedIsEqual(rels[i], rels[j]);
    }
  }

  // ---------------------------------------------------------------------------
  // HRIR cells
  // ---------------------------------------------------------------------------

  /** The metadata hr_ir_set_cell_meta gives a cell. */
  datatype CellMeta = CellMeta(sourceLocation: string, lineNumber: nat, canonicalPath: string)

  datatype Lowering = Lowering(cell: HrIr.Cell, meta: CellMeta)

  function SomeArgs(args: seq<string>): (r: seq<Option<string>>)
    ensures |r| == |args| && forall k :: 0 <= k < |r| ==> r[k] == Some(args[k])
  {
    if |args| == 0 then [] else SomeArgs(args[..|args| - 1]) + [Some(args[|args| - 1])]
  }

  /** The cell of a send before it is added, as generate_hrir_json is meant to
      mark it: irreversible exactly for a D-term. */
  function SendCell(st: Statement): (r: Option<HrIr.Cell>)
    requires st.Send?
    ensures r.Some? ==> (r.value.isReversible <==> st.kind != DTerm)
    ensures r.Some? ==> r.value.inverse.None? && !r.value.executed
  {
    match HrIr.FromSendOperation(Some(st.target), Some(st.selector), SomeArgs(st.arguments))
    case None => None
    case Some(c) => Some(if st.kind == DTerm then c.(isReversible := false) else c)
  }

  /** A send lowers to a cell exactly when hr_ir_from_send_operation knows its
      selector. */
  lemma SendCellAccepts(st: Statement)
    requires st.Send?
    ensures SendCell(st).Some? <==> st.selector in {HrIr.OpAdd, HrIr.OpSubtract, HrIr.OpMultiply, HrIr.OpDivide, "output"}
    ensures SendCell(st).Some? ==>
      SendCell(st).value.opcode == (if st.selector == "output" then HrIr.OpPrint else st.selector)
  {
    HrIr.FromSendOperationSpec(Some(st.target), Some(st.selector), SomeArgs(st.arguments));
  }

  /** The marking as written: `!send->type` holds for OP_R_TERM, whose value
      is 0, so R-term cells are the ones made irreversible. */
  function SendCellAsWritten(st: Statement): (r: Option<HrIr.Cell>)
    requires st.Send?
    ensures r.Some? ==> (r.value.isReversible <==> st.kind != RTerm)
    ensures r.Some? ==> r.value.inverse.None? && !r.value.executed
  {
    match HrIr.FromSendOperation(Some(st.target), Some(st.selector), SomeArgs(st.arguments))
    case None => None
    case Some(c) => Some(if OperationCode(st.kind) == 0 then c.(isReversible := false) else c)
  }

  /** The two markings accept the same sends and make the same cell but for
      its reversibility: as written an R-term cell is irreversible and any
      other reversible; as intended only a D-term cell is irreversible. */
  lemma MarkingsDiffer(st: Statement)
    requires st.Send?
    ensures SendCellAsWritten(st).Some? <==> SendCell(st).Some?
    ensures SendCell(st).Some? ==>
      SendCellAsWritten(st).value == SendCell(st).value.(isReversible := st.kind != RTerm)
  {
    HrIr.FromSendOperationSpec(Some(st.target), Some(st.selector), SomeArgs(st.arguments));
  }

  /** Every send the surface parser produces is an R-term, so the marking as
      written makes each of its cells irreversible. */
  lemma ParsedSendsIrreversibleAsWritten(code: string)
    ensures var sts := SimpleParser.ParseFrom(code, 0).statements;
      forall k :: 0 <= k < |sts| && sts[k].Send? && SendCellAsWritten(sts[k]).Some? ==>
        !SendCellAsWritten(sts[k]).value.isReversible
  {
    var sts := SimpleParser.ParseFrom(code, 0).statements;
    SimpleParser.ParseShape(code, 0);
    forall k | 0 <= k < |sts| && sts[k].Send? && SendCellAsWritten(sts[k]).Some?
      ensures !SendCellAsWritten(sts[k]).value.isReversible
    {
      assert SimpleParser.WellBuilt(sts[k]);
    }
  }

  /** An R-term `add` send, added to a program as written, gets no inverse and
      cannot be undone; with the intended marking it gets `subtract`. */
  lemma RTermLosesInverse(target: string)
    ensures var st := Send(target, HrIr.OpAdd, [], ParseOperationTag(), RTerm);
      HrIr.Attach(SendCellAsWritten(st).value, 1).inverse.None? &&
      !HrIr.Attach(SendCellAsWritten(st).value, 1).isReversible
    ensures var st := Send(target, HrIr.OpAdd, [], ParseOperationTag(), RTerm);
      HrIr.Attach(SendCell(st).value, 1).inverse.Some? &&
      HrIr.Attach(SendCell(st).value, 1).inverse.value.opcode == HrIr.OpSubtract
  {
    var st := Send(target, HrIr.OpAdd, [], ParseOperationTag(), RTerm);
    HrIr.FromSendOperationSpec(Some(st.target), Some(st.selector), SomeArgs(st.arguments));
    HrIr.InverseOpcodeTable(HrIr.OpAdd);
  }

  /** What one statement at 1-based line `line` adds: the cell of a send that
      hr_ir_from_send_operation accepts, with its metadata; nothing otherwise. */
  function LoweringOf(st: Statement, line: nat, autoHoist: bool): (r: seq<Lowering>)
    ensures |r| <= 1
  {
    if st.Send? && SendCell(st).Some?
    then [Lowering(SendCell(st).value, CellMeta("surface_compilation", line, PathOf(st.target, st.selector, autoHoist)))]
    else []
  }

  /** The cells generate_hrir_json adds, with their metadata, in statement
      order; line numbers count statements from 1. */
  function Lowered(sts: seq<Statement>, autoHoist: bool): (r: seq<Lowering>)
    ensures |r| <= |sts|
  {
    LoweredUpTo(sts, |sts|, autoHoist)
  }

  /** The lowerings of the first n statements. */
  function LoweredUpTo(sts: seq<Statement>, n: nat, autoHoist: bool): (r: seq<Lowering>)
    requires n <= |sts|
    ensures |r| <= n
  {
    if n == 0 then []
    else LoweredUpTo(sts, n - 1, autoHoist) + LoweringOf(sts[n - 1], n, autoHoist)
  }

  /** A lowering from one of the first n statement lines, with the source
      location tag and no inverse yet. */
  predicate ShapedAt(l: Lowering, n: nat) {
    1 <= l.meta.lineNumber <= n && l.cell.inverse.None? && l.meta.sourceLocation == "surface_compilation"
  }

  /** Every lowered cell comes from a statement line, carries the source
      location tag and has no inverse yet. */
  lemma LoweredShape(sts: seq<Statement>, autoHoist: bool)
    ensures var r := Lowered(sts, autoHoist);
      forall k :: 0 <= k < |r| ==>
        1 <= r[k].meta.lineNumber <= |sts| && r[k].cell.inverse.None? &&
        r[k].meta.sourceLocation == "surface_compilation"
  {
    LoweredUpToShape(sts, |sts|, autoHoist);
    assert Lowered(sts, autoHoist) == LoweredUpTo(sts, |sts|, autoHoist);
  }

  lemma {:induction false} LoweredUpToShape(sts: seq<Statement>, n: nat, autoHoist: bool)
    requires n <= |sts|
    ensures forall k :: 0 <= k < |LoweredUpTo(sts, n, autoHoist)| ==> ShapedAt(LoweredUpTo(sts, n, autoHoist)[k], n)
  {
    if n > 0 {
      LoweredUpToShape(sts, n - 1, autoHoist);
      var before := LoweredUpTo(sts, n - 1, autoHoist);
      var last := LoweringOf(sts[n - 1], n, autoHoist);
      var r := LoweredUpTo(sts, n, autoHoist);
      assert r == before + last;
      forall k | 0 <= k < |r|
        ensures ShapedAt(r[k], n)
      {
        if k < |before| {
          assert r[k] == before[k] && ShapedAt(before[k], n - 1);
        } else {
          assert r[k] == last[k - |before|];
        }
      }
    }
  }

  /** The cells as the program stores them: ids from 1 in order, inverses
      attached to the reversible ones. */
  function Stored(ls: seq<Lowering>): (r: seq<HrIr.Cell>)
    ensures |r| == |ls|
  {
    if |ls| == 0 then [] else Stored(ls[..|ls| - 1]) + [HrIr.Attach(ls[|ls| - 1].cell, |ls|)]
  }

  /** The k-th stored cell is the k-th lowered cell with id k + 1. */
  lemma {:induction false} StoredAt(ls: seq<Lowering>)
    ensures forall k :: 0 <= k < |ls| ==> Stored(ls)[k] == HrIr.Attach(ls[k].cell, k + 1)
  {
    if |ls| > 0 {
      StoredAt(ls[..|ls| - 1]);
    }
  }

  function Metas(ls: seq<Lowering>): (r: seq<CellMeta>)
    ensures |r| == |ls|
  {
    if |ls| == 0 then [] else Metas(ls[..|ls| - 1]) + [ls[|ls| - 1].meta]
  }

  /** The metadata list is aligned with the cells. */
  lemma {:induction false} MetasAt(ls: seq<Lowering>)
    ensures forall k :: 0 <= k < |ls| ==> Metas(ls)[k] == ls[k].meta
  {
    if |ls| > 0 {
      MetasAt(ls[..|ls| - 1]);
    }
  }

  lemma StoredSnoc(ls: seq<Lowering>, l: Lowering)
    ensures Stored(ls + [l]) == Stored(ls) + [HrIr.Attach(l.cell, |ls| + 1)]
    ensures Metas(ls + [l]) == Metas(ls) + [l.meta]
  {
    assert (ls + [l])[..|ls|] == ls;
  }

  /** hr_ir_add_cell on a lowered cell: the program's cells stay the stored
      form of the lowerings added so far. */
  method AddLowered(program: HrIr.Program, l: Lowering, ghost done: seq<Lowering>)
    requires program.cells == Stored(done) && program.nextId == |done| + 1 && program.pc == 0
    modifies program
    ensures program.cells == Stored(done + [l]) && program.nextId == |done| + 2 && program.pc == 0
  {
    StoredAt(done);
    assert program.Valid();
    StoredSnoc(done, l);
    var _ := program.AddCell(Some(l.cell));
  }

  /** One iteration of generate_hrir_json's statement loop: lower statement
      i and, when it yields a cell, add it to the program and its metadata. */
  method LowerInto(program: HrIr.Program, sts: seq<Statement>, i: nat, autoHoist: bool,
                   metas: seq<CellMeta>, ghost done: seq<Lowering>)
    returns (metas': seq<CellMeta>, ghost done': seq<Lowering>)
    requires i < |sts| && done == LoweredUpTo(sts, i, autoHoist)
    requires program.cells == Stored(done) && metas == Metas(done)
    requires program.nextId == |done| + 1 && program.pc == 0
    modifies program
    ensures done' == LoweredUpTo(sts, i + 1, autoHoist)
    ensures program.cells == Stored(done') && metas' == Metas(done')
    ensures program.nextId == |done'| + 1 && program.pc == 0
  {
    var step := LoweringOf(sts[i], i + 1, autoHoist);
    if |step| == 1 {
      var l := step[0];
      assert step == [l];
      StoredSnoc(done, l);
      AddLowered(program, l, done);
      metas' := metas + [l.meta];
      done' := done + [l];
    } else {
      assert done + step == done;
      metas', done' := metas, done;
    }
  }

  /** generate_hrir_json up to serialisation: the program's cells and their
      metadata, in statement order. */
  method GenerateHrir(ast: SurfaceAst, options: CompilerOptions) returns (cells: seq<HrIr.Cell>, metas: seq<CellMeta>)
    ensures cells == Stored(Lowered(ast.statements, options.autoHoist))
    ensures metas == Metas(Lowered(ast.statements, options.autoHoist))
  {
    var program := new HrIr.Program();
    var sts := ast.statements;
    metas := [];
    ghost var done: seq<Lowering> := [];
    var i := 0;
    while i < |sts|
      invariant i <= |sts| && program.pc == 0
      invariant done == LoweredUpTo(sts, i, options.autoHoist)
      invariant program.cells == Stored(done) && metas == Metas(done)
      invariant program.nextId == |done| + 1
    {
      metas, done := LowerInto(program, sts, i, options.autoHoist, metas, done);
      i := i + 1;
    }
    cells := program.cells;
  }

  /** With no D-term send every lowered cell is reversible. */
  lemma {:induction false} NoDTermAllReversible(sts: seq<Statement>, autoHoist: bool)
    requires forall k :: 0 <= k < |sts| ==> !(sts[k].Send? && sts[k].kind == DTerm)
    ensures forall k :: 0 <= k < |Lowered(sts, autoHoist)| ==> Lowered(sts, autoHoist)[k].cell.isReversible
  {
    NoDTermUpTo(sts, |sts|, autoHoist);
  }

  lemma {:induction false} NoDTermUpTo(sts: seq<Statement>, n: nat, autoHoist: bool)
    requires n <= |sts|
    requires forall k :: 0 <= k < |sts| ==> !(sts[k].Send? && sts[k].kind == DTerm)
    ensures forall k :: 0 <= k < |LoweredUpTo(sts, n, autoHoist)| ==> LoweredUpTo(sts, n, autoHoist)[k].cell.isReversible
  {
    if n > 0 {
      NoDTermUpTo(sts, n - 1, autoHoist);
    }
  }

  /** A stored cell carries an inverse exactly when it is reversible and its
      opcode has one in the table (add, subtract, multiply, divide). */
  lemma StoredInverses(ls: seq<Lowering>)
    requires forall k :: 0 <= k < |ls| ==> ls[k].cell.inverse.None?
    ensures forall k :: 0 <= k < |ls| ==>
      (Stored(ls)[k].inverse.Some? <==> ls[k].cell.isReversible && HrIr.InverseOpcode(ls[k].cell.opcode).Some?)
  {
    StoredAt(ls);
  }

  // ---------------------------------------------------------------------------
  // compile
  // ---------------------------------------------------------------------------

  datatype Stats = Stats(
    canonicalPaths: nat,
    inheritanceEdges: nat,
    rTermOps: nat,
    dTermOps: nat,
    membraneCrossings: nat)

  datatype CompilationResult = CompilationResult(
    success: bool,
    canonicalCode: string,
    reversibleIr: string,
    membraneLogs: string,
    hrirCells: seq<HrIr.Cell>,
    hrirMeta: seq<CellMeta>,
    inheritanceGraph: seq<string>,
    stats: Stats,
    errorCount: nat,
    firstError: Option<string>)

  /** The counting loop of compile: R-term and D-term sends. */
  method CountOperations(sts: seq<Statement>) returns (rTerms: nat, dTerms: nat)
    ensures rTerms == |Sends(sts, {RTerm})| && dTerms == |Sends(sts, {DTerm})|
    ensures rTerms + dTerms <= |sts|
  {
    rTerms, dTerms := 0, 0;
    var i := 0;
    while i < |sts|
      invariant i <= |sts|
      invariant rTerms == |Sends(sts[..i], {RTerm})| && dTerms == |Sends(sts[..i], {DTerm})|
      invariant rTerms + dTerms <= i
    {
      SendsSnoc(sts, i, {RTerm});
      SendsSnoc(sts, i, {DTerm});
      if sts[i].Send? {
        if sts[i].kind == RTerm {
          rTerms := rTerms + 1;
        } else if sts[i].kind == DTerm {
          dTerms := dTerms + 1;
        }
      }
      i := i + 1;
    }
    assert sts[..|sts|] == sts;
  }

  /** compile: parse, canonicalize, count, lower to the IR, the membrane logs
      and the HRIR cells, then validate. Success and the single error are the
      validation's; the counts come from the parsed statements. */
  method Compile(code: string, options: CompilerOptions, now: nat) returns (result: CompilationResult)
    ensures var ast := SimpleParser.ParseFrom(code, 0);
      result.success <==> Validation(ast, options.strictMode).None?
    ensures var ast := SimpleParser.ParseFrom(code, 0);
      result.firstError == Validation(ast, options.strictMode) &&
      result.errorCount == (if result.success then 0 else 1)
    ensures var ast := SimpleParser.ParseFrom(code, 0);
      result.stats.canonicalPaths == |ast.statements| &&
      result.stats.inheritanceEdges == |ast.relations| &&
      result.stats.rTermOps == |Sends(ast.statements, {RTerm})| &&
      result.stats.dTermOps == |Sends(ast.statements, {DTerm})| &&
      result.stats.membraneCrossings == result.stats.dTermOps
    ensures var ast := SimpleParser.ParseFrom(code, 0);
      result.canonicalCode == CanonicalText(ast.statements, options.autoHoist) &&
      result.reversibleIr == ReversibleIr(ast.statements, options.reversibleDefault) &&
      result.membraneLogs == MembraneLogs(ast.statements, options.debugMode, now) &&
      result.hrirCells == Stored(Lowered(ast.statements, options.autoHoist)) &&
      result.hrirMeta == Metas(Lowered(ast.statements, options.autoHoist)) &&
      result.inheritanceGraph == ast.relations
  {
    var ast := SimpleParser.ParseSurface(code);
    var canonical := CanonicalizePaths(ast, options);
    var rTerms, dTerms := CountOperations(ast.statements);
    var ir, _ := GenerateReversibleIr(ast, options);
    var logs := GenerateMembraneLogs(ast, options, now);
    var cells, metas := GenerateHrir(ast, options);
    var ok, error := ValidateUnified(ast, options);
    var stats := Stats(|ast.statements|, |ast.relations|, rTerms, dTerms, dTerms);
    result := CompilationResult(ok, canonical, ir, logs, cells, metas, ast.relations, stats,
      if ok then 0 else 1, error);
  }

  /** What compile reports for any source text: every parsed send is an
      R-term, so there are no D-term operations, the logs carry the
      fully-reversible notice, every HRIR cell is reversible, and the only
      possible error is a relation written twice. */
  lemma CompileOfParsed(code: string, options: CompilerOptions, now: nat)
    ensures var ast := SimpleParser.ParseFrom(code, 0);
      |Sends(ast.statements, {DTerm})| == 0 &&
      |Sends(ast.statements, {RTerm})| + |ast.relations| == |ast.statements|
    ensures var ast := SimpleParser.ParseFrom(code, 0);
      FullyReversible in Split(MembraneLogs(ast.statements, options.debugMode, now), '\n')
    ensures var ast := SimpleParser.ParseFrom(code, 0);
      forall k :: 0 <= k < |Lowered(ast.statements, options.autoHoist)| ==>
        Lowered(ast.statements, options.autoHoist)[k].cell.isReversible
    ensures var ast := SimpleParser.ParseFrom(code, 0);
      Validation(ast, options.strictMode).Some? <==> exists i, j :: 0 <= i < j < |ast.relations| && ast.relations[i] == ast.relations[j]
  {
    var ast := SimpleParser.ParseFrom(code, 0);
    var sts := ast.statements;
    SimpleParser.ParseShape(code, 0);
    assert forall k :: 0 <= k < |sts| ==> SimpleParser.WellBuilt(sts[k]);
    forall k | 0 <= k < |sts|
      ensures !(sts[k].Send? && sts[k].kind == DTerm) && !UntaggedDTerm(sts[k])
    {
      assert SimpleParser.WellBuilt(sts[k]);
    }
    SendsComplete(sts, {DTerm});
    ParsedCounts(sts);
    forall k | 0 <= k < |sts|
      ensures Printable(sts[k])
    {
      ParsedPrintable(sts[k]);
    }
    MembraneNoticeIff(sts, options.debugMode, now);
    NoDTermAllReversible(sts, options.autoHoist);
    CycleIsDuplicate(ast.relations);
  }

  lemma ParsedPrintable(st: Statement)
    requires SimpleParser.WellBuilt(st)
    ensures Printable(st)
  {
    if st.Send? {
      assert SimpleParser.IsIdentifier(st.target) && SimpleParser.IsIdentifier(st.selector);
      IdentifierNoNewline(st.target);
      IdentifierNoNewline(st.selector);
    }
  }

  lemma IdentifierNoNewline(x: string)
    requires SimpleParser.IsIdentifier(x)
    ensures NoNewline(x)
  {
  }

  /** In parsed statements every statement is an R-term send or an
      inheritance, and each inheritance has its relation string. */
  lemma {:induction false} ParsedCounts(sts: seq<Statement>)
    requires forall k :: 0 <= k < |sts| ==> SimpleParser.WellBuilt(sts[k])
    ensures |Sends(sts, {RTerm})| + |SimpleParser.RelationsOf(sts)| == |sts|
    ensures |Sends(sts, {DTerm})| == 0
  {
    if |sts| > 0 {
      var p := sts[..|sts| - 1];
      var last := sts[|sts| - 1];
      ParsedCounts(p);
      assert sts == p + [last];
      SimpleParser.RelationsOfAppend(p, [last]);
      assert SimpleParser.WellBuilt(last);
      assert SimpleParser.RelationsOf([last]) == (if last.Inherit? then [SimpleParser.RelationText(last.child, last.parent)] else []) by {
        assert [last][1..] == [];
      }
    }
  }
}
