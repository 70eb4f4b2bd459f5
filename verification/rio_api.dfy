// The embeddable API: compiling a string into a result record, the result
// and AST accessors, the inheritance-map queries and the canonical-path
// helpers. A C pointer that may be NULL is an Option (or a nullable
// reference); the memory the API allocates and frees is not modelled.

module RioApi {
  import opened CStrings
  import opened SurfaceParser
  import SimpleParser
  import UnifiedCompiler

  /** RioErrorCode, in declaration order. */
  datatype ErrorCode =
    | Success
    | FileNotFound
    | ParseFailed
    | CompilationFailed
    | MemoryAllocation
    | InvalidOptions
    | InvalidPath
    | InheritanceCycle
    | StrictModeViolation

  datatype CompileOptions = CompileOptions(
    strictMode: bool,
    autoHoist: bool,
    debugMode: bool,
    reversibleDefault: bool,
    jsonOutput: bool)

  /** rio_default_options. */
  const DefaultOptions := CompileOptions(false, true, false, true, false)

  /** RioStats without its two timings. */
  datatype Stats = Stats(
    canonicalPaths: nat,
    inheritanceEdges: nat,
    rTermOps: nat,
    dTermOps: nat,
    membraneCrossings: nat)

  const ZeroStats := Stats(0, 0, 0, 0, 0)

  /** The relation strings copied out of the parsed AST. */
  datatype InheritanceMap = InheritanceMap(relations: seq<string>)

  datatype CompileResult = CompileResult(
    success: bool,
    errorMessage: Option<string>,
    errorCode: ErrorCode,
    canonicalCode: Option<string>,
    reversibleIr: Option<string>,
    membraneLogs: Option<string>,
    jsonOutput: Option<string>,
    hrirJson: Option<string>,
    ast: Option<SurfaceAst>,
    inheritanceMap: Option<InheritanceMap>,
    stats: Stats)

  /** RioVM: the verbosity flag and the last error message. */
  class Vm {
    var verbose: bool
    var lastError: Option<string>

    /** rio_create_vm: quiet and without an error. */
    constructor ()
      ensures !verbose && lastError.None?
    {
      verbose := false;
      lastError := None;
    }
  }

  const InvalidParameters: string := "Invalid parameters to rio_compile_string"
  const CanonicalPlaceholder: string := "// Canonical code generation not yet implemented"

  // ---------------------------------------------------------------------------
  // Compilation
  // ---------------------------------------------------------------------------

  /** The JSON summary: the statement and relation counts in decimal. */
  function JsonSummary(statements: nat, relations: nat): string {
    "{\n  \"statement_count\": " + NatToString(statements) +
    ",\n  \"inheritance_count\": " + NatToString(relations) + "\n}"
  }

  /** The result of compiling a parsed AST: a success carrying the AST, a copy
      of its relations, the placeholder canonical code, the JSON summary when
      asked for, and the statement and relation counts; no IR, no membrane
      log and no HRIR. */
  function Compiled(ast: SurfaceAst, options: CompileOptions): CompileResult {
    CompileResult(
      true, None, Success, Some(CanonicalPlaceholder), None, None,
      if options.jsonOutput then Some(JsonSummary(|ast.statements|, |ast.relations|)) else None,
      None, Some(ast), Some(InheritanceMap(ast.relations)),
      Stats(|ast.statements|, |ast.relations|, 0, 0, 0))
  }

  /** rio_compile_string: no result without a VM and a source, and then the VM
      (if any) records why; otherwise the source is parsed by the simple
      parser and the result built from it, leaving the VM alone. */
  method CompileString(vm: Vm?, source: Option<string>, options: CompileOptions) returns (r: Option<CompileResult>)
    modifies vm
    ensures vm == null || source.None? ==> r.None?
    ensures vm != null && source.None? ==> vm.lastError == Some(InvalidParameters) && vm.verbose == old(vm.verbose)
    ensures vm != null && source.Some? ==>
      r == Some(Compiled(SimpleParser.ParseFrom(source.value, 0), options)) && unchanged(vm)
  {
    if vm == null || source.None? {
      if vm != null {
        vm.lastError := Some(InvalidParameters);
      }
      return None;
    }
    var ast := SimpleParser.ParseSurface(source.value);
    var relations := CopyRelations(ast.relations);
    var json: Option<string> := None;
    if options.jsonOutput {
      json := Some(JsonSummary(|ast.statements|, |ast.relations|));
    }
    r := Some(CompileResult(
      true, None, Success, Some(CanonicalPlaceholder), None, None, json, None,
      Some(ast), Some(InheritanceMap(relations)), Stats(|ast.statements|, |ast.relations|, 0, 0, 0)));
  }

  /** The loop that duplicates each relation string into the map, in order. */
  method CopyRelations(rels: seq<string>) returns (copy: seq<string>)
    ensures copy == rels
  {
    copy := [];
    var i := 0;
    while i < |rels|
      invariant i <= |rels| && copy == rels[..i]
    {
      copy := copy + [rels[i]];
      i := i + 1;
    }
  }

  // ---------------------------------------------------------------------------
  // Result accessors
  // ---------------------------------------------------------------------------

  function ResultSuccess(r: Option<CompileResult>): bool {
    r.Some? && r.value.success
  }

  function ResultErrorMessage(r: Option<CompileResult>): Option<string> {
    if r.None? then None else r.value.errorMessage
  }

  function ResultErrorCode(r: Option<CompileResult>): ErrorCode {
    if r.None? then Success else r.value.errorCode
  }

  function ResultCanonicalCode(r: Option<CompileResult>): Option<string> {
    if r.None? then None else r.value.canonicalCode
  }

  function ResultReversibleIr(r: Option<CompileResult>): Option<string> {
    if r.None? then None else r.value.reversibleIr
  }

  function ResultMembraneLogs(r: Option<CompileResult>): Option<string> {
    if r.None? then None else r.value.membraneLogs
  }

  function ResultJsonOutput(r: Option<CompileResult>): Option<string> {
    if r.None? then None else r.value.jsonOutput
  }

  function ResultHrirJson(r: Option<CompileResult>): Option<string> {
    if r.None? then None else r.value.hrirJson
  }

  function ResultInheritanceCount(r: Option<CompileResult>): nat {
    if r.Some? && r.value.inheritanceMap.Some? then |r.value.inheritanceMap.value.relations| else 0
  }

  function ResultInheritanceRelation(r: Option<CompileResult>, index: nat): Option<string> {
    if r.None? || r.value.inheritanceMap.None? || index >= |r.value.inheritanceMap.value.relations| then None
    else Some(r.value.inheritanceMap.value.relations[index])
  }

  function ResultStatementCount(r: Option<CompileResult>): nat {
    if r.Some? && r.value.ast.Some? then |r.value.ast.value.statements| else 0
  }

  function ResultStats(r: Option<CompileResult>): Stats {
    if r.None? then ZeroStats else r.value.stats
  }

  function ResultAst(r: Option<CompileResult>): Option<SurfaceAst> {
    if r.None? then None else r.value.ast
  }

  function ResultInheritanceMap(r: Option<CompileResult>): Option<InheritanceMap> {
    if r.None? then None else r.value.inheritanceMap
  }

  /** Every accessor answers NULL, zero, false or RIO_SUCCESS for a NULL
      result, and no relation lies at or past the count. */
  lemma AccessorsOfNothing(r: Option<CompileResult>, index: nat)
    ensures r.None? ==>
      !ResultSuccess(r) && ResultErrorMessage(r).None? && ResultErrorCode(r) == Success &&
      ResultCanonicalCode(r).None? && ResultReversibleIr(r).None? && ResultMembraneLogs(r).None? &&
      ResultJsonOutput(r).None? && ResultHrirJson(r).None? && ResultInheritanceCount(r) == 0 &&
      ResultStatementCount(r) == 0 && ResultStats(r) == ZeroStats && ResultAst(r).None? &&
      ResultInheritanceMap(r).None?
    ensures index >= ResultInheritanceCount(r) ==> ResultInheritanceRelation(r, index).None?
  {
  }

  /** Read through the accessors, a compiled string is a success that
      reports its parse: the k-th relation is the k-th relation the parser
      produced, the statement and relation counts are the parser's, every
      operation count is 0, and JSON is there exactly when asked for. */
  lemma CompiledAccessors(source: string, options: CompileOptions, index: nat)
    ensures var ast := SimpleParser.ParseFrom(source, 0);
      var r := Some(Compiled(ast, options));
      ResultSuccess(r) && ResultErrorCode(r) == Success && ResultErrorMessage(r).None? &&
      ResultCanonicalCode(r) == Some(CanonicalPlaceholder) &&
      ResultInheritanceCount(r) == |ast.relations| &&
      ResultInheritanceRelation(r, index) == (if index < |ast.relations| then Some(ast.relations[index]) else None) &&
      ResultStatementCount(r) == |ast.statements| == ResultStats(r).canonicalPaths &&
      ResultStats(r).inheritanceEdges == |ast.relations| &&
      ResultStats(r).rTermOps == 0 && ResultStats(r).dTermOps == 0 && ResultStats(r).membraneCrossings == 0 &&
      (ResultJsonOutput(r).Some? <==> options.jsonOutput) &&
      ResultReversibleIr(r).None? && ResultMembraneLogs(r).None? && ResultHrirJson(r).None?
  {
  }

  /** The parser never yields more relations than statements, so neither
      does a compiled result. */
  lemma CompiledRelationsBounded(source: string, options: CompileOptions)
    ensures var r := Some(Compiled(SimpleParser.ParseFrom(source, 0), options));
      ResultInheritanceCount(r) <= ResultStatementCount(r)
  {
    SimpleParser.ParseShape(source, 0);
  }

  // ---------------------------------------------------------------------------
  // AST access
  // ---------------------------------------------------------------------------

  /** RioASTNode: a send's fields (its argument count is the length of its
      arguments) or an inheritance's two names. */
  datatype AstNode =
    | SendNode(target: Option<string>, selector: Option<string>, arguments: seq<string>, isTagged: bool, tagType: Option<string>)
    | InheritNode(child: Option<string>, parent: Option<string>)

  /** The zeroed node: its type field is 0, which is RIO_AST_SEND, with every
      field NULL, zero or false. */
  const ZeroNode: AstNode := SendNode(None, None, [], false, None)

  function NodeCount(ast: Option<SurfaceAst>): nat {
    if ast.None? then 0 else |ast.value.statements|
  }

  /** rio_ast_get_node: sends and inheritances field by field; the zeroed
      node for a missing AST, an index out of range or any other statement. */
  function GetNode(ast: Option<SurfaceAst>, index: nat): (n: AstNode)
    ensures index >= NodeCount(ast) ==> n == ZeroNode
  {
    if ast.None? || index >= |ast.value.statements| then ZeroNode
    else match ast.value.statements[index]
      case Send(target, selector, arguments, tag, _) =>
        SendNode(Some(target), Some(selector), arguments, tag.isTagged, tag.tagType)
      case Inherit(child, parent) => InheritNode(Some(child), Some(parent))
      case Comment => ZeroNode
  }

  /** The statement a node describes, given the operation type the node does
      not carry; none for a node with a NULL name. */
  function StatementOf(n: AstNode, kind: OperationType): Option<Statement> {
    match n
    case SendNode(target, selector, arguments, isTagged, tagType) =>
      if target.Some? && selector.Some? then
        Some(Send(target.value, selector.value, arguments, OperationTag(isTagged, tagType), kind))
      else None
    case InheritNode(child, parent) =>
      if child.Some? && parent.Some? then Some(Inherit(child.value, parent.value)) else None
  }

  /** A node gives its send or inheritance back whole, except for a send's
      operation type; a comment reads as the zeroed node. */
  lemma NodeRoundTrip(ast: SurfaceAst, index: nat)
    requires index < |ast.statements|
    ensures var st := ast.statements[index];
      var n := GetNode(Some(ast), index);
      (st.Send? ==> StatementOf(n, st.kind) == Some(st)) &&
      (st.Inherit? ==> StatementOf(n, RTerm) == Some(st)) &&
      (st.Comment? ==> n == ZeroNode)
  {
  }

  /** Every node of a parsed source is a real send or inheritance: none is
      the zeroed node. */
  lemma ParsedNodesPresent(source: string, index: nat)
    requires index < NodeCount(Some(SimpleParser.ParseFrom(source, 0)))
    ensures GetNode(Some(SimpleParser.ParseFrom(source, 0)), index) != ZeroNode
  {
    SimpleParser.ParseShape(source, 0);
    assert SimpleParser.WellBuilt(SimpleParser.ParseFrom(source, 0).statements[index]);
  }

  // ---------------------------------------------------------------------------
  // Inheritance queries
  // ---------------------------------------------------------------------------

  /** Some relation contains both names as substrings. */
  predicate MentionsBoth(rels: seq<string>, child: string, parent: string) {
    exists k :: 0 <= k < |rels| && Contains(rels[k], child) && Contains(rels[k], parent)
  }

  /** rio_inheritance_has_parent: false for any NULL argument; otherwise
      whether some relation contains both the child and the parent. */
  method HasParent(links: Option<InheritanceMap>, child: Option<string>, parent: Option<string>) returns (b: bool)
    ensures b <==> (links.Some? && child.Some? && parent.Some? &&
      MentionsBoth(links.value.relations, child.value, parent.value))
  {
    if links.None? || child.None? || parent.None? {
      return false;
    }
    var rels := links.value.relations;
    var i := 0;
    while i < |rels|
      invariant i <= |rels|
      invariant forall k :: 0 <= k < i ==> !(Contains(rels[k], child.value) && Contains(rels[k], parent.value))
    {
      if Contains(rels[i], child.value) && Contains(rels[i], parent.value) {
        return true;
      }
      i := i + 1;
    }
    return false;
  }

  const ArrowText: string := " <- "

  /** The parent one relation names for `child`: the text after the first
      " <- " when the text before it is exactly `child`. */
  function ParentOf(rel: string, child: string): Option<string> {
    match Find(rel, ArrowText)
    case None => None
    case Some(p) => if rel[..p] == child then Some(rel[p + |ArrowText|..]) else None
  }

  /** What a relation names, if anything. */
  type Pick = string -> Option<string>

  /** The parent each relation names for `child`. */
  function ParentPick(child: string): Pick {
    rel => ParentOf(rel, child)
  }

  /** What the first n relations name, in relation order. */
  function ParentsUpTo(rels: seq<string>, pick: Pick, n: nat): (r: seq<string>)
    requires n <= |rels|
    ensures |r| <= n
  {
    if n == 0 then []
    else ParentsUpTo(rels, pick, n - 1) + (match pick(rels[n - 1]) case None => [] case Some(p) => [p])
  }

  function Parents(rels: seq<string>, child: string): seq<string> {
    ParentsUpTo(rels, ParentPick(child), |rels|)
  }

  /** At most `m` elements from the front. */
  function Limit(s: seq<string>, m: nat): (r: seq<string>)
    ensures |r| <= m && r <= s
  {
    if |s| <= m then s else s[..m]
  }

  /** rio_inheritance_get_parents: 0 for a NULL argument or no room;
      otherwise the parents named for `child`, in relation order and at most
      `maxParents` of them, are written to the front of `parents` and counted. */
  method GetParents(links: Option<InheritanceMap>, child: Option<string>, parents: array?<string>, maxParents: nat)
    returns (found: nat)
    requires parents != null ==> maxParents <= parents.Length
    modifies parents
    ensures links.None? || child.None? || parents == null || maxParents == 0 ==> found == 0
    ensures links.Some? && child.Some? && parents != null && maxParents > 0 ==>
      found <= maxParents && parents[..found] == Limit(Parents(links.value.relations, child.value), maxParents)
    ensures parents != null ==> forall k :: found <= k < parents.Length ==> parents[k] == old(parents[k])
  {
    found := 0;
    if links.None? || child.None? || parents == null || maxParents == 0 {
      return;
    }
    found := Collect(links.value.relations, ParentPick(child.value), parents, maxParents);
  }

  /** The loop of rio_inheritance_get_parents: what the relations name, in
      order, written to the front of the buffer until it is full. */
  method Collect(rels: seq<string>, pick: Pick, parents: array<string>, maxParents: nat) returns (found: nat)
    requires maxParents <= parents.Length
    modifies parents
    ensures found <= maxParents && parents[..found] == Limit(ParentsUpTo(rels, pick, |rels|), maxParents)
    ensures forall k :: found <= k < parents.Length ==> parents[k] == old(parents[k])
  {
    found := 0;
    var i := 0;
    while i < |rels| && found < maxParents
      invariant i <= |rels| && found <= maxParents
      invariant parents[..found] == ParentsUpTo(rels, pick, i)
      invariant forall k :: found <= k < parents.Length ==> parents[k] == old(parents[k])
    {
      found := Place(parents, found, pick(rels[i]));
      i := i + 1;
    }
    CollectedEnough(rels, pick, i, maxParents);
  }

  /** Writes the parent, if any, at `found` and counts it. */
  method Place(parents: array<string>, found: nat, p: Option<string>) returns (next: nat)
    requires found < parents.Length
    modifies parents
    ensures next == found + (if p.Some? then 1 else 0)
    ensures parents[..next] == old(parents[..found]) + (match p case None => [] case Some(x) => [x])
    ensures forall k :: next <= k < parents.Length ==> parents[k] == old(parents[k])
  {
    next := found;
    if p.Some? {
      parents[found] := p.value;
      next := found + 1;
    }
  }

  /** Stopping when the buffer is full or the relations run out leaves
      exactly the limited list of parents. */
  lemma CollectedEnough(rels: seq<string>, pick: Pick, i: nat, m: nat)
    requires i <= |rels| && |ParentsUpTo(rels, pick, i)| <= m
    requires i == |rels| || |ParentsUpTo(rels, pick, i)| == m
    ensures ParentsUpTo(rels, pick, i) == Limit(ParentsUpTo(rels, pick, |rels|), m)
  {
    ParentsPrefix(rels, pick, i, |rels|);
  }

  /** Fewer relations give a prefix of the parents. */
  lemma {:induction false} ParentsPrefix(rels: seq<string>, pick: Pick, i: nat, n: nat)
    requires i <= n <= |rels|
    ensures ParentsUpTo(rels, pick, i) <= ParentsUpTo(rels, pick, n)
    decreases n - i
  {
    if i < n {
      ParentsPrefix(rels, pick, i, n - 1);
    }
  }

  /** A parent is returned exactly when one of the relations names it for
      the child. */
  lemma {:induction false} ParentsMembers(rels: seq<string>, pick: Pick, n: nat, p: string)
    requires n <= |rels|
    ensures p in ParentsUpTo(rels, pick, n) <==> exists k :: 0 <= k < n && pick(rels[k]) == Some(p)
  {
    if n > 0 {
      ParentsMembers(rels, pick, n - 1, p);
      if pick(rels[n - 1]) == Some(p) {
        assert p in ParentsUpTo(rels, pick, n);
      }
    }
  }

  /** "child <- parent" with an identifier child names exactly that parent
      for exactly that child. */
  lemma ParentOfRelation(child: string, parent: string, who: string)
    requires SimpleParser.IsIdentifier(child)
    ensures ParentOf(SimpleParser.RelationText(child, parent), who) == if who == child then Some(parent) else None
  {
    var s := SimpleParser.RelationText(child, parent);
    assert OccursAt(s, ArrowText, |child|);
    FindFirst(s, ArrowText);
    NoArrowInside(child, parent);
    assert s[..|child|] == child;
    assert s[|child| + 4..] == parent;
  }

  /** No " <- " starts inside an identifier child of "child <- parent". */
  lemma NoArrowInside(child: string, parent: string)
    requires SimpleParser.IsIdentifier(child)
    ensures forall j :: 0 <= j < |child| ==> !OccursAt(SimpleParser.RelationText(child, parent), ArrowText, j)
  {
    var s := SimpleParser.RelationText(child, parent);
    forall j | 0 <= j < |child|
      ensures !OccursAt(s, ArrowText, j)
    {
      assert s[j] == child[j];
      assert j + 4 <= |s| ==> s[j..j + 4][0] == s[j];
    }
  }

  /** Every parent get_parents can return passes rio_inheritance_has_parent. */
  lemma ParentsMentioned(rels: seq<string>, child: string, p: string)
    requires p in Parents(rels, child)
    ensures MentionsBoth(rels, child, p)
  {
    ParentsMembers(rels, ParentPick(child), |rels|, p);
    var k :| 0 <= k < |rels| && ParentPick(child)(rels[k]) == Some(p);
    assert ParentOf(rels[k], child) == Some(p);
    var at := Find(rels[k], ArrowText).value;
    var r := rels[k];
    assert OccursAt(r, child, 0) by {
      assert r[..at] == child;
    }
    assert OccursAt(r, p, at + 4) by {
      assert r[at + 4..] == p;
    }
    Occurs(r, child, 0);
    Occurs(r, p, at + 4);
  }

  /** An occurrence means strstr finds something. */
  lemma Occurs(s: string, pat: string, j: nat)
    requires OccursAt(s, pat, j)
    ensures Contains(s, pat)
  {
    FindFirst(s, pat);
  }

  /** has_parent is looser than get_parents: it matches substrings, so in
      "Ab <- C" it finds "b" with parent "C" although "b" has no parent. */
  lemma HasParentLooser()
    ensures MentionsBoth(["Ab <- C"], "b", "C") && Parents(["Ab <- C"], "b") == []
  {
    var r := "Ab <- C";
    assert [r][0] == r;
    assert OccursAt(r, "b", 1);
    assert OccursAt(r, "C", 6);
    Occurs(r, "b", 1);
    Occurs(r, "C", 6);
    assert SimpleParser.IsIdentifier("Ab");
    assert r == SimpleParser.RelationText("Ab", "C");
    ParentOfRelation("Ab", "C", "b");
  }

  /** On a parsed source, get_parents without a limit returns exactly the
      parents the source declares for the child. */
  lemma ParsedParents(source: string, child: string, p: string)
    ensures var ast := SimpleParser.ParseFrom(source, 0);
      p in Parents(ast.relations, child) <==> Inherit(child, p) in ast.statements
  {
    var ast := SimpleParser.ParseFrom(source, 0);
    SimpleParser.ParseShape(source, 0);
    ParentsMembers(ast.relations, ParentPick(child), |ast.relations|, p);
    RelationsMembers(ast.statements, child, p);
  }

  /** Some relation names p as the parent of child. */
  predicate NamesParent(rels: seq<string>, pick: Pick, p: string) {
    exists k :: 0 <= k < |rels| && pick(rels[k]) == Some(p)
  }

  /** The relations of well-built statements name p for child exactly when
      the statements hold Inherit(child, p). */
  lemma {:induction false} RelationsMembers(sts: seq<Statement>, child: string, p: string)
    requires forall k :: 0 <= k < |sts| ==> SimpleParser.WellBuilt(sts[k])
    ensures NamesParent(SimpleParser.RelationsOf(sts), ParentPick(child), p) <==> Inherit(child, p) in sts
    decreases |sts|
  {
    if |sts| > 0 {
      var rest := sts[1..];
      RelationsMembers(rest, child, p);
      var tail := SimpleParser.RelationsOf(rest);
      assert sts == [sts[0]] + rest;
      if sts[0].Inherit? {
        var head := SimpleParser.RelationText(sts[0].child, sts[0].parent);
        ParentOfRelation(sts[0].child, sts[0].parent, child);
        NamesParentCons(head, tail, ParentPick(child), p);
      }
    }
  }

  lemma NamesParentCons(head: string, tail: seq<string>, pick: Pick, p: string)
    ensures NamesParent([head] + tail, pick, p) <==> pick(head) == Some(p) || NamesParent(tail, pick, p)
  {
    var rels := [head] + tail;
    if NamesParent(rels, pick, p) {
      var k :| 0 <= k < |rels| && pick(rels[k]) == Some(p);
      if k > 0 {
        assert rels[k] == tail[k - 1];
      }
    }
    if NamesParent(tail, pick, p) {
      var k :| 0 <= k < |tail| && pick(tail[k]) == Some(p);
      assert rels[k + 1] == tail[k];
    }
    assert rels[0] == head;
  }

  // ---------------------------------------------------------------------------
  // Canonical paths
  // ---------------------------------------------------------------------------

  /** RioCanonicalPath: the three parts of "Proto.Actor.Func" and the text. */
  datatype CanonicalPath = CanonicalPath(
    prototype: Option<string>,
    actor: Option<string>,
    func: Option<string>,
    fullPath: Option<string>)

  /** The text before the first '.' and, when there is one, the text after
      it (strchr and the cut it makes). */
  function SplitAtDot(s: string): (r: (string, Option<string>))
    ensures '.' !in r.0
    ensures r.1.None? ==> r.0 == s
    ensures r.1.Some? ==> s == r.0 + "." + r.1.value
  {
    match IndexOfChar(s, '.')
    case None => (s, None)
    case Some(d) => AroundDot(s, d); (s[..d], Some(s[d + 1..]))
  }

  /** rio_parse_canonical_path: the prototype is the text before the first
      '.', the actor the text between the first and the second, the function
      the rest; without a dot the prototype is the whole text, and the full
      path is always the input. */
  function ParseCanonicalPath(path: Option<string>): (r: CanonicalPath)
    ensures r.fullPath == path
    ensures path.Some? ==> r.prototype.Some? && '.' !in r.prototype.value
    ensures path.None? ==> r.prototype.None? && r.actor.None? && r.func.None?
    ensures r.actor.Some? ==> '.' !in r.actor.value
    ensures r.func.Some? ==> r.actor.Some?
  {
    if path.None? then CanonicalPath(None, None, None, None)
    else
      var (p, rest) := SplitAtDot(path.value);
      if rest.None? then CanonicalPath(Some(p), None, None, path)
      else
        var (a, f) := SplitAtDot(rest.value);
        CanonicalPath(Some(p), Some(a), f, path)
  }

  /** The parts put back together with dots give the path. */
  lemma PathReassembles(path: string)
    ensures var r := ParseCanonicalPath(Some(path));
      (r.func.Some? ==> path == r.prototype.value + "." + r.actor.value + "." + r.func.value) &&
      (r.func.None? && r.actor.Some? ==> path == r.prototype.value + "." + r.actor.value) &&
      (r.actor.None? ==> path == r.prototype.value)
  {
    var (p, rest) := SplitAtDot(path);
    if rest.Some? {
      var (a, f) := SplitAtDot(rest.value);
      if f.Some? {
        assert path == p + "." + a + "." + f.value;
      }
    }
  }

  /** A text is what comes before one of its dots, the dot, and the rest. */
  lemma AroundDot(s: string, d: nat)
    requires d < |s| && s[d] == '.'
    ensures s == s[..d] + "." + s[d + 1..]
  {
  }

  /** Parts without dots (but for the last) are split back out. */
  lemma ParseJoined(p: string, a: string, f: string)
    requires '.' !in p && '.' !in a
    ensures ParseCanonicalPath(Some(p + "." + a + "." + f)) ==
      CanonicalPath(Some(p), Some(a), Some(f), Some(p + "." + a + "." + f))
    ensures '.' !in f ==> ParseCanonicalPath(Some(p + "." + f)) == CanonicalPath(Some(p), Some(f), None, Some(p + "." + f))
  {
    var rest := a + "." + f;
    assert p + "." + a + "." + f == p + "." + rest;
    SplitJoined(p, rest);
    SplitJoined(a, f);
    if '.' !in f {
      SplitJoined(p, f);
      assert SplitAtDot(f) == (f, None);
    }
  }

  /** Splitting "x.y" at its first dot gives x and y back when x has none. */
  lemma SplitJoined(x: string, y: string)
    requires '.' !in x
    ensures SplitAtDot(x + "." + y) == (x, Some(y))
  {
    var s := x + "." + y;
    assert s[|x|] == '.';
    var d := IndexOfChar(s, '.').value;
    forall j | 0 <= j < |x|
      ensures s[j] != '.'
    {
      assert s[j] == x[j];
    }
    forall j | 0 <= j < d
      ensures s[j] != '.'
    {
      assert s[..d][j] == s[j];
    }
    assert s[..|x|] == x && s[|x| + 1..] == y;
  }

  /** The compiler's paths split back into their parts: with auto-hoisting
      "TProto.TActor.s" gives the prototype TProto, the actor TActor and the
      function s; without it "T.s" gives the prototype T and the actor s. */
  lemma CompilerPathsParse(target: string, selector: string)
    requires '.' !in target && '.' !in selector
    requires 2 * |target| + |selector| + 12 < UnifiedCompiler.PathBuffer
    ensures ParseCanonicalPath(Some(UnifiedCompiler.PathOf(target, selector, true))).prototype == Some(target + "Proto")
    ensures ParseCanonicalPath(Some(UnifiedCompiler.PathOf(target, selector, true))).actor == Some(target + "Actor")
    ensures ParseCanonicalPath(Some(UnifiedCompiler.PathOf(target, selector, true))).func == Some(selector)
    ensures ParseCanonicalPath(Some(UnifiedCompiler.PathOf(target, selector, false))) ==
      CanonicalPath(Some(target), Some(selector), None, Some(target + "." + selector))
  {
    var p, a := target + "Proto", target + "Actor";
    NoDotAfter(target, "Proto");
    NoDotAfter(target, "Actor");
    assert target + "Proto." + target + "Actor." + selector == p + "." + a + "." + selector;
    ParseJoined(p, a, selector);
    ParseJoined(target, "", selector);
  }

  lemma NoDotAfter(x: string, y: string)
    requires '.' !in x && '.' !in y
    ensures '.' !in x + y
  {
    var s := x + y;
    forall k | 0 <= k < |s|
      ensures s[k] != '.'
    {
      if k < |x| {
        assert s[k] == x[k];
      } else {
        assert s[k] == y[k - |x|];
      }
    }
  }

  /** How many dots the text holds. */
  function DotCount(s: string): nat {
    multiset(s)['.']
  }

  /** rio_is_canonical_path: false for NULL; otherwise whether the text holds
      one or two dots. */
  method IsCanonicalPath(path: Option<string>) returns (b: bool)
    ensures b <==> path.Some? && 1 <= DotCount(path.value) <= 2
  {
    if path.None? {
      return false;
    }
    var s := path.value;
    var dots := 0;
    var i := 0;
    while i < |s|
      invariant i <= |s| && dots == multiset(s[..i])['.']
    {
      assert s[..i + 1] == s[..i] + [s[i]];
      if s[i] == '.' {
        dots := dots + 1;
      }
      i := i + 1;
    }
    assert s[..i] == s;
    b := 1 <= dots && dots <= 2;
  }

  /** A path is canonical exactly when splitting it finds an actor and
      leaves no dot in the function. */
  lemma CanonicalIffSplits(path: string)
    ensures 1 <= DotCount(path) <= 2 <==>
      var r := ParseCanonicalPath(Some(path));
      r.actor.Some? && (r.func.None? || '.' !in r.func.value)
  {
    NoDotCount(path);
    var (p, rest) := SplitAtDot(path);
    if rest.Some? {
      DotsJoined(p, rest.value);
      NoDotCount(p);
      NoDotCount(rest.value);
      var (a, f) := SplitAtDot(rest.value);
      if f.Some? {
        DotsJoined(a, f.value);
        NoDotCount(a);
        NoDotCount(f.value);
      }
    }
  }

  /** The dots of "x.y" are those of x, the one between, and those of y. */
  lemma DotsJoined(x: string, y: string)
    ensures DotCount(x + "." + y) == DotCount(x) + 1 + DotCount(y)
  {
    assert multiset(x + "." + y) == multiset(x) + multiset{'.'} + multiset(y);
  }

  lemma NoDotCount(s: string)
    ensures DotCount(s) == 0 <==> '.' !in s
  {
    assert '.' in s <==> '.' in multiset(s);
  }
}
