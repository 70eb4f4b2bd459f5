// l3_execute_line, l3_execute_block and l3_execute_handler: running a
// handler body line by line, with `if`, `while` and `for` blocks delimited by
// indentation.

module L3Exec {
  import opened CStrings
  import opened L3Store
  import opened L3Parse
  import opened L3Eval
  import opened L3Substitute

  /** A message a handler sends with "Name -> message": the receiving actor's
      id, the message name and the data of the message being handled. */
  datatype Outgoing = Outgoing(target: int, event: string, data: string)

  /** The parts of the execution context a handler changes: the actor's state,
      the handler's locals and the messages sent so far. */
  datatype Ctx = Ctx(state: Store, locals: Store, outbox: seq<Outgoing>)

  /** An actor as seen by name lookup. */
  datatype Peer = Peer(id: int, name: Option<string>)

  /** What a handler reads but never changes: the data of the message, the
      actors of the runtime, and the evaluators of expressions and conditions
      over the state and the locals. */
  datatype Env = Env(
    data: string,
    peers: seq<Peer>,
    eval: (string, Store, Store) -> string,
    cond: (string, Store, Store) -> bool)

  /** The environment l3_execute_handler runs in: l3_evaluate_expression and
      l3_evaluate_condition with the calculator `bc`. */
  function HandlerEnv(data: string, peers: seq<Peer>, bc: Calc): (env: Env)
    ensures env.data == data && env.peers == peers
    ensures forall e, st, lo :: env.eval(e, st, lo) == EvalExpr(e, st, lo, bc)
    ensures forall e, st, lo :: env.cond(e, st, lo) == EvalCond(e, st, lo, bc)
  {
    Env(data, peers, (e, st, lo) => EvalExpr(e, st, lo, bc), (e, st, lo) => EvalCond(e, st, lo, bc))
  }

  /** l3_get_actor_by_name: the id of the first actor with that name, or -1. */
  function ActorIdByName(peers: seq<Peer>, name: string): (r: int)
    ensures r != -1 ==> exists k :: 0 <= k < |peers| && peers[k].name == Some(name) && peers[k].id == r
    ensures (forall k :: 0 <= k < |peers| ==> peers[k].name != Some(name)) ==> r == -1
  {
    if |peers| == 0 then -1
    else if peers[0].name == Some(name) then peers[0].id
    else
      var r := ActorIdByName(peers[1..], name);
      assert forall k :: 1 <= k < |peers| ==> peers[k] == peers[1..][k - 1];
      r
  }

  /** The first word of a message text: up to the first space. */
  function FirstWord(m: string): (r: string)
    ensures StartsWith(m, r) && ' ' !in r
    ensures |r| < |m| ==> m[|r|] == ' '
  {
    match IndexOfChar(m, ' ')
    case Some(k) => m[..k]
    case None => m
  }

  /** What a line of a handler does, before anything is evaluated. */
  datatype Action =
    | NoAction
    | Send(target: string, message: string)
    | SetLocal(name: string, expr: string)
    | SetState(key: string, expr: string)

  /** The cases of l3_execute_line on a trimmed line, tried in this order:
      "self -> ..." only logs; "Name -> message ..." with a capitalised first
      character sends the message's first word to the actor so named; "let
      x -> e" sets a local; "x -> e" (not an if or while) sets a local, or the
      state key k for "state.k -> e"; anything else, "log" included, changes
      nothing. */
  function ActionOf(t: string): Action {
    if StartsWith(t, "self ->") then NoAction
    else if Contains(t, "->") && IsUpper(t[0]) then
      var a := ArrowSplit(t).value;
      Send(a.left, FirstWord(a.right))
    else if StartsWith(t, "let ") then
      match ArrowSplit(t[4..])
      case None => NoAction
      case Some(a) => SetLocal(a.left, a.right)
    else if Contains(t, "->") && !StartsWith(t, "if ") && !StartsWith(t, "while ") then
      var a := ArrowSplit(t).value;
      if StartsWith(a.left, "state.") then SetState(a.left[6..], a.right)
      else SetLocal(a.left, a.right)
    else NoAction
  }

  /** The two sides of the first arrow in a text, each trimmed. */
  datatype Arrow = Arrow(left: string, right: string)

  function ArrowSplit(t: string): (r: Option<Arrow>)
    ensures r.Some? <==> Contains(t, "->")
  {
    match Find(t, "->")
    case None => None
    case Some(p) => Some(Arrow(Trim(t[..p]), Trim(t[p + 2..])))
  }

  /** The effect of an action: a send goes to the first actor with the name,
      and nowhere when there is none; an assignment stores the value of its
      expression, evaluated in the context before the line. */
  function Perform(a: Action, c: Ctx, env: Env): Ctx {
    match a
    case NoAction => c
    case Send(target, message) =>
      var id := ActorIdByName(env.peers, target);
      if id == -1 then c else c.(outbox := c.outbox + [Outgoing(id, message, env.data)])
    case SetLocal(name, expr) => c.(locals := Put(c.locals, name, env.eval(expr, c.state, c.locals)))
    case SetState(key, expr) => c.(state := Put(c.state, key, env.eval(expr, c.state, c.locals)))
  }

  /** l3_execute_line. */
  function ExecLine(t: string, c: Ctx, env: Env): Ctx {
    Perform(ActionOf(t), c, env)
  }

  /** l3_get_indent: the number of leading spaces. */
  function Indent(line: string): (r: nat)
    ensures r <= |line|
    ensures forall k :: 0 <= k < r ==> line[k] == ' '
    ensures r < |line| ==> line[r] != ' '
  {
    if |line| > 0 && line[0] == ' ' then 1 + Indent(line[1..]) else 0
  }

  /** What a line of a block is, read from its trimmed text: blank, a comment,
      the head of an `if`, `while` or `for` block, or a line for
      l3_execute_line. A `for` line without both " in " and " to " is a plain
      line. */
  datatype Stmt =
    | Blank
    | Comment
    | IfStmt(cond: string)
    | WhileStmt(cond: string)
    | ForStmt(name: string, first: string, last: string)
    | Plain(action: Action)

  /** A line of a block: its indentation and what it is. */
  datatype Line = Line(indent: nat, stmt: Stmt)

  /** "v in a to b" split into the trimmed variable, start text and end text.
      When " to " comes before the text after " in ", the start text runs to
      the end of the line (the length passed to l3_substring wraps around and
      is clamped). */
  function ForHeader(rest: string): (string, string, string)
    requires Contains(rest, " in ") && Contains(rest, " to ")
  {
    var ip := Find(rest, " in ").value;
    var tp := Find(rest, " to ").value;
    var startText := if tp >= ip + 4 then rest[ip + 4..tp] else rest[ip + 4..];
    (Trim(rest[..ip]), Trim(startText), Trim(rest[tp + 4..]))
  }

  /** The tests l3_execute_block makes on a trimmed line, in its order. */
  function StmtOf(t: string): Stmt {
    if |t| == 0 then Blank
    else if StartsWith(t, "//") then Comment
    else if StartsWith(t, "if ") then IfStmt(Trim(t[3..]))
    else if StartsWith(t, "while ") then WhileStmt(Trim(t[6..]))
    else if StartsWith(t, "for ") && Contains(t[4..], " in ") && Contains(t[4..], " to ") then
      var f := ForHeader(t[4..]);
      ForStmt(f.0, f.1, f.2)
    else Plain(ActionOf(t))
  }

  function LineOf(raw: string): Line {
    Line(Indent(raw), StmtOf(Trim(raw)))
  }

  /** The lines of a handler body as l3_execute_handler splits them, each
      read as a block line. The C code reads a line again each time the
      block walker reaches it; the reading depends on the text alone. */
  function BodyLines(body: string): (r: seq<Line>)
    ensures |r| == |Tokens(body, '\n')|
    ensures forall k :: 0 <= k < |r| ==> r[k] == LineOf(Tokens(body, '\n')[k])
  {
    var raw := Tokens(body, '\n');
    seq(|raw|, k requires 0 <= k < |raw| => LineOf(raw[k]))
  }

  /** The body-collecting loop shared by if, while and for, from line j with
      the block's indent so far: the block's indent is that of its first
      non-blank line, and the block ends before the first non-blank line
      indented less, or at `end`. Comment lines count as non-blank here. */
  function Collect(lines: seq<Line>, j: nat, end: nat, ind: Option<nat>): (r: (nat, Option<nat>))
    requires j <= end <= |lines|
    decreases end - j
    ensures j <= r.0 <= end
    ensures ind.Some? ==> r.1 == ind
    ensures r.1.Some? ==> forall m :: j <= m < r.0 && !lines[m].stmt.Blank? ==> lines[m].indent >= r.1.value
    ensures r.0 < end ==> r.1.Some? && !lines[r.0].stmt.Blank? && lines[r.0].indent < r.1.value
    ensures r.1.None? ==> r.0 == end && forall m :: j <= m < end ==> lines[m].stmt.Blank?
  {
    if j == end then (j, ind)
    else if !lines[j].stmt.Blank? then
      var ind' := if ind.None? then Some(lines[j].indent) else ind;
      if lines[j].indent < ind'.value then (j, ind') else Collect(lines, j + 1, end, ind')
    else Collect(lines, j + 1, end, ind)
  }

  /** The bound l3_execute_block puts on the iterations of a while loop. */
  const MaxIterations := 10000

  /** l3_execute_block over lines [i, end) with base indent `base`: blank and
      comment lines are passed over, a line indented below `base` ends the
      block, and any other line is run as a statement, the walk going on at
      the line after it. */
  function ExecBlock(lines: seq<Line>, i: nat, end: nat, base: nat, c: Ctx, env: Env): Ctx
    requires i <= end <= |lines|
    decreases end - i, 3, 0
  {
    if i == end then c
    else if lines[i].stmt.Blank? || lines[i].stmt.Comment? then ExecBlock(lines, i + 1, end, base, c, env)
    else if lines[i].indent < base then c
    else ExecBlock(lines, Next(lines, i, end), end, base, StmtEffect(lines, i, end, c, env), env)
  }

  /** The line after the statement at line i: after its body for the head of
      a block, the next line otherwise. */
  function Next(lines: seq<Line>, i: nat, end: nat): (r: nat)
    requires i < end <= |lines|
    ensures i < r <= end
  {
    match lines[i].stmt
    case IfStmt(_) => Collect(lines, i + 1, end, None).0
    case WhileStmt(_) => Collect(lines, i + 1, end, None).0
    case ForStmt(_, _, _) => Collect(lines, i + 1, end, None).0
    case _ => i + 1
  }

  /** The context after the statement at line i. An `if` evaluates its
      condition and runs its body when the condition holds and the body has
      a line; `while` and `for` loop over their body, the bounds of a `for`
      being evaluated once and read by atoi; a plain line is performed. */
  function StmtEffect(lines: seq<Line>, i: nat, end: nat, c: Ctx, env: Env): Ctx
    requires i < end <= |lines|
    decreases end - i, 2, 0
  {
    match lines[i].stmt
    case IfStmt(cond) => IfEffect(lines, i, end, cond, c, env)
    case WhileStmt(cond) => WhileEffect(lines, i, end, cond, c, env)
    case ForStmt(name, first, last) => ForEffect(lines, i, end, name, first, last, c, env)
    case Plain(a) => Perform(a, c, env)
    case _ => c
  }

  /** An `if` at line i: its body runs when the condition holds and the body
      has a line. */
  function IfEffect(lines: seq<Line>, i: nat, end: nat, cond: string, c: Ctx, env: Env): Ctx
    requires i < end <= |lines|
    decreases end - i, 1, 0
  {
    var body := Collect(lines, i + 1, end, None);
    if env.cond(cond, c.state, c.locals) && body.1.Some? then ExecBlock(lines, i + 1, body.0, body.1.value, c, env) else c
  }

  /** A `while` at line i loops over its body. */
  function WhileEffect(lines: seq<Line>, i: nat, end: nat, cond: string, c: Ctx, env: Env): Ctx
    requires i < end <= |lines|
    decreases end - i, 1, 0
  {
    var body := Collect(lines, i + 1, end, None);
    WhileLoop(lines, i + 1, body.0, body.1, cond, 0, c, env)
  }

  /** A `for` at line i: its bounds are evaluated once and read by atoi, then
      it loops over its body. */
  function ForEffect(lines: seq<Line>, i: nat, end: nat, name: string, first: string, last: string, c: Ctx, env: Env): Ctx
    requires i < end <= |lines|
    decreases end - i, 1, 0
  {
    var body := Collect(lines, i + 1, end, None);
    var lo := Atoi(env.eval(first, c.state, c.locals));
    var hi := Atoi(env.eval(last, c.state, c.locals));
    ForLoop(lines, i + 1, body.0, body.1, name, lo, hi, c, env)
  }

  /** The while loop: while the condition holds and fewer than MaxIterations
      rounds have run, the body [s, e) runs (when it has a line). */
  function WhileLoop(lines: seq<Line>, s: nat, e: nat, ind: Option<nat>, cond: string, iter: nat, c: Ctx, env: Env): Ctx
    requires s <= e <= |lines|
    decreases e - s + 1, 0, MaxIterations - iter
  {
    if iter < MaxIterations && env.cond(cond, c.state, c.locals) then
      var c' := if ind.Some? then ExecBlock(lines, s, e, ind.value, c, env) else c;
      WhileLoop(lines, s, e, ind, cond, iter + 1, c', env)
    else c
  }

  /** The for loop from k up to hi inclusive: the local is set to "%d" of k,
      then the body [s, e) runs (when it has a line). */
  function ForLoop(lines: seq<Line>, s: nat, e: nat, ind: Option<nat>, name: string, k: int, hi: int, c: Ctx, env: Env): Ctx
    requires s <= e <= |lines|
    decreases e - s + 1, 0, if k <= hi then hi - k + 1 else 0
  {
    if k > hi then c
    else
      var c1 := c.(locals := Put(c.locals, name, IntToString(k)));
      var c2 := if ind.Some? then ExecBlock(lines, s, e, ind.value, c1, env) else c1;
      ForLoop(lines, s, e, ind, name, k + 1, hi, c2, env)
  }

  /** l3_execute_handler: the lines of the body, run as one block at indent 0
      with no locals. */
  function ExecHandler(body: string, state: Store, env: Env): Ctx {
    var lines := BodyLines(body);
    ExecBlock(lines, 0, |lines|, 0, Ctx(state, [], []), env)
  }

  // ---------------------------------------------------------------------------
  // Single lines
  // ---------------------------------------------------------------------------

  /** A line without an arrow changes nothing: only arrows assign or send. */
  lemma ExecLineNoArrow(t: string, c: Ctx, env: Env)
    requires !Contains(t, "->")
    ensures ActionOf(t) == NoAction && ExecLine(t, c, env) == c
  {
    if StartsWith(t, "let ") {
      assert t == t[..4] + t[4..];
      NotInSuffix(t[..4], t[4..], "->");
    }
  }

  /** In "x -> y" with no arrow in x, the first arrow is the one after x. */
  lemma ArrowAt(x: string, y: string)
    requires !Contains(x, "->")
    ensures Find(x + " -> " + y, "->") == Some(|x| + 1)
  {
    var s := x + " -> " + y;
    assert OccursAt(s, "->", |x| + 1);
    FindFirst(s, "->");
    FindFirst(x, "->");
    forall j: nat | j < |x| + 1 ensures !OccursAt(s, "->", j) {
      if j + 2 <= |x| {
        assert s[j..j + 2] == x[j..j + 2];
        assert !OccursAt(x, "->", j);
      } else if j == |x| {
        assert s[j..j + 2][0] == s[j] == ' ';
      } else {
        assert s[j..j + 2][1] == s[j + 1] == ' ';
      }
    }
  }

  predicate Unpadded(s: string) {
    |s| > 0 && !IsSpace(s[0]) && !IsSpace(s[|s| - 1])
  }

  /** The target and the value text of "x -> e". */
  lemma ArrowParts(x: string, e: string)
    requires Unpadded(x) && Unpadded(e) && !Contains(x, "->")
    ensures var s := x + " -> " + e;
      Trim(s[..|x| + 1]) == x && Trim(s[|x| + 3..]) == e
  {
    var s := x + " -> " + e;
    assert s[..|x| + 1] == "" + x + " ";
    TrimPadded("", x, " ");
    assert s[|x| + 3..] == " " + e + "";
    TrimPadded(" ", e, "");
  }

  /** "x -> e" splits at its arrow into x and e. */
  lemma ArrowSplitOf(x: string, e: string)
    requires Unpadded(x) && Unpadded(e) && !Contains(x, "->")
    ensures ArrowSplit(x + " -> " + e) == Some(Arrow(x, e))
  {
    ArrowAt(x, e);
    ArrowParts(x, e);
  }

  /** "let x -> e" is read as setting the local x to e. */
  lemma LetAction(x: string, e: string)
    requires Unpadded(x) && Unpadded(e) && !Contains(x, "->")
    ensures ActionOf("let " + x + " -> " + e) == SetLocal(x, e)
  {
    var t := "let " + x + " -> " + e;
    assert !StartsWith(t, "self ->") by { assert t[0] != 's'; }
    assert StartsWith(t, "let ");
    assert t[4..] == x + " -> " + e;
    ArrowSplitOf(x, e);
  }

  /** "let x -> e" sets the local x to the value of e, and nothing else. */
  lemma LetSetsLocal(x: string, e: string, c: Ctx, env: Env)
    requires Unpadded(x) && Unpadded(e) && !Contains(x, "->")
    ensures var r := ExecLine("let " + x + " -> " + e, c, env);
      r == c.(locals := Put(c.locals, x, env.eval(e, c.state, c.locals))) &&
      Lookup(r.locals, x) == Some(env.eval(e, c.state, c.locals))
  {
    LetAction(x, e);
    LookupPutSame(c.locals, x, env.eval(e, c.state, c.locals));
  }

  /** "state." followed by a name has no arrow and no space at either end. */
  lemma StateTargetHasNoArrow(k: string)
    requires |k| > 0 && forall i :: 0 <= i < |k| ==> IsNameChar(k[i])
    ensures !Contains("state." + k, "->")
  {
    var x := "state." + k;
    forall j: nat | j + 2 <= |x| ensures !OccursAt(x, "->", j) {
      if j < 6 { assert x[j] == "state."[j]; } else { assert x[j] == k[j - 6]; }
      assert x[j..j + 2][0] == x[j];
    }
  }

  /** "x -> e" for a target x that does not start like "self", "let", "if",
      "while" or a capital: an assignment to x. */
  lemma AssignmentAction(x: string, e: string)
    requires Unpadded(x) && Unpadded(e) && !Contains(x, "->") && !IsUpper(x[0])
    requires var t := x + " -> " + e;
      !StartsWith(t, "self ->") && !StartsWith(t, "let ") && !StartsWith(t, "if ") && !StartsWith(t, "while ")
    ensures ActionOf(x + " -> " + e) ==
      if StartsWith(x, "state.") then SetState(x[6..], e) else SetLocal(x, e)
  {
    var t := x + " -> " + e;
    ArrowSplitOf(x, e);
    assert Contains(t, "->") && t[0] == x[0];
  }

  /** "state.k -> e" is read as setting the state key k to e. */
  lemma AssignAction(k: string, e: string)
    requires |k| > 0 && forall i :: 0 <= i < |k| ==> IsNameChar(k[i])
    requires Unpadded(e)
    ensures ActionOf("state." + k + " -> " + e) == SetState(k, e)
  {
    var x := "state." + k;
    var t := x + " -> " + e;
    StateTargetHasNoArrow(k);
    assert t[0] == 's' && t[1] == 't';
    assert !StartsWith(t, "self ->") by { assert t[1] != "self ->"[1]; }
    assert Unpadded(x) by { assert x[|x| - 1] == k[|k| - 1]; }
    assert StartsWith(x, "state.") && x[6..] == k;
    AssignmentAction(x, e);
  }

  /** "state.k -> e" sets the state key k to the value of e, and nothing else. */
  lemma AssignSetsState(k: string, e: string, c: Ctx, env: Env)
    requires |k| > 0 && forall i :: 0 <= i < |k| ==> IsNameChar(k[i])
    requires Unpadded(e)
    ensures var r := ExecLine("state." + k + " -> " + e, c, env);
      r == c.(state := Put(c.state, k, env.eval(e, c.state, c.locals))) &&
      Lookup(r.state, k) == Some(env.eval(e, c.state, c.locals))
  {
    AssignAction(k, e);
    LookupPutSame(c.state, k, env.eval(e, c.state, c.locals));
  }

  /** "Name -> message ..." is read as a send of the message's first word to Name. */
  lemma SendAction(name: string, msg: string)
    requires Unpadded(name) && IsUpper(name[0]) && !Contains(name, "->") && Unpadded(msg)
    ensures ActionOf(name + " -> " + msg) == Send(name, FirstWord(msg))
  {
    var t := name + " -> " + msg;
    assert !StartsWith(t, "self ->") by { assert t[0] == name[0]; }
    ArrowSplitOf(name, msg);
  }

  /** "Name -> message ..." sends the first word of the message, with the data
      being handled, to the first actor called Name; with no such actor it
      does nothing. */
  lemma SendToNamedActor(name: string, msg: string, c: Ctx, env: Env)
    requires Unpadded(name) && IsUpper(name[0]) && !Contains(name, "->") && Unpadded(msg)
    ensures var id := ActorIdByName(env.peers, name);
      ExecLine(name + " -> " + msg, c, env) ==
        if id == -1 then c else c.(outbox := c.outbox + [Outgoing(id, FirstWord(msg), env.data)])
  {
    SendAction(name, msg);
  }

  // ---------------------------------------------------------------------------
  // Blocks in parsed handlers
  // ---------------------------------------------------------------------------

  /** Every segment of an unindented text starts with a character other than a space. */
  lemma {:induction false} SplitUnindented(s: string)
    requires Unindented(s)
    ensures forall k :: 0 <= k < |Split(s, '\n')| && |Split(s, '\n')[k]| > 0 ==> Split(s, '\n')[k][0] != ' '
    decreases |s|
  {
    match IndexOfChar(s, '\n')
    case None =>
    case Some(i) =>
      var rest := s[i + 1..];
      assert Unindented(rest) by {
        assert |rest| > 0 ==> rest[0] == s[i + 1];
        forall j | 0 < j < |rest| && rest[j - 1] == '\n' ensures rest[j] != ' ' {
          assert s[i + j] == '\n';
        }
      }
      SplitUnindented(rest);
      var parts := Split(s, '\n');
      assert parts == [s[..i]] + Split(rest, '\n');
      assert forall k :: 1 <= k < |parts| ==> parts[k] == Split(rest, '\n')[k - 1];
  }

  /** The lines of an unindented body are all at indent 0. */
  lemma TokensUnindented(s: string)
    requires Unindented(s)
    ensures forall k :: 0 <= k < |Tokens(s, '\n')| ==> Indent(Tokens(s, '\n')[k]) == 0
  {
    SplitUnindented(s);
  }

  /** Lines all at indent 0 form one block running to the end. */
  lemma {:induction false} CollectFlat(lines: seq<Line>, j: nat, end: nat, ind: Option<nat>)
    requires j <= end <= |lines|
    requires forall m :: j <= m < end ==> lines[m].indent == 0
    requires ind == None || ind == Some(0)
    ensures Collect(lines, j, end, ind).0 == end
    decreases end - j
  {
    if j < end {
      var ind' := if !lines[j].stmt.Blank? && ind.None? then Some(0) else ind;
      CollectFlat(lines, j + 1, end, ind');
    }
  }

  /** Among lines all at indent 0, a false `if` skips every line after it. */
  lemma FalseIfEndsFlatBlock(lines: seq<Line>, i: nat, end: nat, c: Ctx, env: Env)
    requires i < end <= |lines|
    requires forall m :: i <= m < end ==> lines[m].indent == 0
    requires lines[i].stmt.IfStmt? && !env.cond(lines[i].stmt.cond, c.state, c.locals)
    ensures ExecBlock(lines, i, end, 0, c, env) == c
  {
    CollectFlat(lines, i + 1, end, None);
    assert IfEffect(lines, i, end, lines[i].stmt.cond, c, env) == c;
  }

  /** Among lines all at indent 0, a `while` loop's body is every line after it. */
  lemma WhileSpansFlatBlock(lines: seq<Line>, i: nat, end: nat, c: Ctx, env: Env)
    requires i < end <= |lines|
    requires forall m :: i <= m < end ==> lines[m].indent == 0
    requires lines[i].stmt.WhileStmt?
    ensures ExecBlock(lines, i, end, 0, c, env) ==
      WhileLoop(lines, i + 1, end, Collect(lines, i + 1, end, None).1, lines[i].stmt.cond, 0, c, env)
  {
    CollectFlat(lines, i + 1, end, None);
    assert StmtEffect(lines, i, end, c, env) == WhileEffect(lines, i, end, lines[i].stmt.cond, c, env);
  }

  /** A line whose trimmed text starts with "if " is the head of an `if`
      block on the rest of the text. */
  lemma IfLine(raw: string)
    requires StartsWith(Trim(raw), "if ")
    ensures LineOf(raw).stmt == IfStmt(Trim(Trim(raw)[3..]))
  {
    var t := Trim(raw);
    assert !StartsWith(t, "//") by { assert t[0] == 'i'; }
  }

  /** Every line of a parsed handler's body is at indent 0. */
  lemma ParsedBodyFlat(code: string, h: Handler)
    requires h in Parsed(Some(code)).value.handlers
    ensures forall m :: 0 <= m < |BodyLines(h.body)| ==> BodyLines(h.body)[m].indent == 0
  {
    ParsedWellFormed(code);
    TokensUnindented(h.body);
  }

  /** The parser stores body lines trimmed, so in a parsed handler a false
      `if` ends the handler: the lines after it never run, whatever their
      indentation in the actor's text. */
  lemma FalseIfEndsParsedHandler(code: string, h: Handler, i: nat, c: Ctx, env: Env)
    requires h in Parsed(Some(code)).value.handlers
    requires i < |Tokens(h.body, '\n')|
    requires StartsWith(Trim(Tokens(h.body, '\n')[i]), "if ")
    requires !env.cond(Trim(Trim(Tokens(h.body, '\n')[i])[3..]), c.state, c.locals)
    ensures ExecBlock(BodyLines(h.body), i, |Tokens(h.body, '\n')|, 0, c, env) == c
  {
    ParsedBodyFlat(code, h);
    IfLine(Tokens(h.body, '\n')[i]);
    var lines := BodyLines(h.body);
    FalseIfEndsFlatBlock(lines, i, |lines|, c, env);
  }

  // ---------------------------------------------------------------------------
  // What running a handler keeps
  // ---------------------------------------------------------------------------

  /** An id some actor of the runtime carries. */
  predicate Known(peers: seq<Peer>, id: int) {
    exists j :: 0 <= j < |peers| && peers[j].id == id
  }

  /** No key twice in the state or the locals, and every message sent goes to
      an existing actor. */
  ghost predicate Sound(c: Ctx, env: Env) {
    UniqueKeys(c.state) && UniqueKeys(c.locals) &&
    forall k :: 0 <= k < |c.outbox| ==> Known(env.peers, c.outbox[k].target)
  }

  /** An action keeps the context sound and only adds to the messages sent. */
  lemma PerformKeeps(a: Action, c: Ctx, env: Env)
    requires Sound(c, env)
    ensures Sound(Perform(a, c, env), env) && c.outbox <= Perform(a, c, env).outbox
  {
    match a
    case NoAction =>
    case Send(target, message) =>
    case SetLocal(name, expr) =>
      PutKeepsUnique(c.locals, name, env.eval(expr, c.state, c.locals));
    case SetState(key, expr) =>
      PutKeepsUnique(c.state, key, env.eval(expr, c.state, c.locals));
  }

  /** A block keeps the context sound and only adds to the messages sent. */
  lemma {:induction false} ExecBlockKeeps(lines: seq<Line>, i: nat, end: nat, base: nat, c: Ctx, env: Env)
    requires i <= end <= |lines| && Sound(c, env)
    ensures Sound(ExecBlock(lines, i, end, base, c, env), env)
    ensures c.outbox <= ExecBlock(lines, i, end, base, c, env).outbox
    decreases end - i, 3, 0
  {
    if i < end {
      if lines[i].stmt.Blank? || lines[i].stmt.Comment? {
        ExecBlockKeeps(lines, i + 1, end, base, c, env);
      } else if lines[i].indent >= base {
        StmtEffectKeeps(lines, i, end, c, env);
        ExecBlockKeeps(lines, Next(lines, i, end), end, base, StmtEffect(lines, i, end, c, env), env);
      }
    }
  }

  lemma {:induction false} StmtEffectKeeps(lines: seq<Line>, i: nat, end: nat, c: Ctx, env: Env)
    requires i < end <= |lines| && Sound(c, env)
    ensures Sound(StmtEffect(lines, i, end, c, env), env)
    ensures c.outbox <= StmtEffect(lines, i, end, c, env).outbox
    decreases end - i, 2, 0
  {
    match lines[i].stmt
    case IfStmt(cond) => IfEffectKeeps(lines, i, end, cond, c, env);
    case WhileStmt(cond) => WhileEffectKeeps(lines, i, end, cond, c, env);
    case ForStmt(name, first, last) => ForEffectKeeps(lines, i, end, name, first, last, c, env);
    case Plain(a) => PerformKeeps(a, c, env);
    case _ =>
  }

  lemma {:induction false} IfEffectKeeps(lines: seq<Line>, i: nat, end: nat, cond: string, c: Ctx, env: Env)
    requires i < end <= |lines| && Sound(c, env)
    ensures Sound(IfEffect(lines, i, end, cond, c, env), env)
    ensures c.outbox <= IfEffect(lines, i, end, cond, c, env).outbox
    decreases end - i, 1, 0
  {
    var body := Collect(lines, i + 1, end, None);
    if env.cond(cond, c.state, c.locals) && body.1.Some? {
      ExecBlockKeeps(lines, i + 1, body.0, body.1.value, c, env);
    }
  }

  lemma {:induction false} WhileEffectKeeps(lines: seq<Line>, i: nat, end: nat, cond: string, c: Ctx, env: Env)
    requires i < end <= |lines| && Sound(c, env)
    ensures Sound(WhileEffect(lines, i, end, cond, c, env), env)
    ensures c.outbox <= WhileEffect(lines, i, end, cond, c, env).outbox
    decreases end - i, 1, 0
  {
    var body := Collect(lines, i + 1, end, None);
    WhileLoopKeeps(lines, i + 1, body.0, body.1, cond, 0, c, env);
  }

  lemma {:induction false} ForEffectKeeps(lines: seq<Line>, i: nat, end: nat, name: string, first: string, last: string, c: Ctx, env: Env)
    requires i < end <= |lines| && Sound(c, env)
    ensures Sound(ForEffect(lines, i, end, name, first, last, c, env), env)
    ensures c.outbox <= ForEffect(lines, i, end, name, first, last, c, env).outbox
    decreases end - i, 1, 0
  {
    var body := Collect(lines, i + 1, end, None);
    var lo := Atoi(env.eval(first, c.state, c.locals));
    var hi := Atoi(env.eval(last, c.state, c.locals));
    ForLoopKeeps(lines, i + 1, body.0, body.1, name, lo, hi, c, env);
  }

  lemma {:induction false} WhileLoopKeeps(lines: seq<Line>, s: nat, e: nat, ind: Option<nat>, cond: string, iter: nat, c: Ctx, env: Env)
    requires s <= e <= |lines| && Sound(c, env)
    ensures Sound(WhileLoop(lines, s, e, ind, cond, iter, c, env), env)
    ensures c.outbox <= WhileLoop(lines, s, e, ind, cond, iter, c, env).outbox
    decreases e - s + 1, 0, MaxIterations - iter
  {
    if iter < MaxIterations && env.cond(cond, c.state, c.locals) {
      if ind.Some? {
        ExecBlockKeeps(lines, s, e, ind.value, c, env);
      }
      var c' := if ind.Some? then ExecBlock(lines, s, e, ind.value, c, env) else c;
      WhileLoopKeeps(lines, s, e, ind, cond, iter + 1, c', env);
    }
  }

  lemma {:induction false} ForLoopKeeps(lines: seq<Line>, s: nat, e: nat, ind: Option<nat>, name: string, k: int, hi: int, c: Ctx, env: Env)
    requires s <= e <= |lines| && Sound(c, env)
    ensures Sound(ForLoop(lines, s, e, ind, name, k, hi, c, env), env)
    ensures c.outbox <= ForLoop(lines, s, e, ind, name, k, hi, c, env).outbox
    decreases e - s + 1, 0, if k <= hi then hi - k + 1 else 0
  {
    if k <= hi {
      var c1 := c.(locals := Put(c.locals, name, IntToString(k)));
      PutKeepsUnique(c.locals, name, IntToString(k));
      if ind.Some? {
        ExecBlockKeeps(lines, s, e, ind.value, c1, env);
      }
      var c2 := if ind.Some? then ExecBlock(lines, s, e, ind.value, c1, env) else c1;
      ForLoopKeeps(lines, s, e, ind, name, k + 1, hi, c2, env);
    }
  }

  /** A handler run from a state without duplicate keys leaves none, and every
      message it sends goes to an existing actor. */
  lemma ExecHandlerSound(body: string, state: Store, env: Env)
    requires UniqueKeys(state)
    ensures var r := ExecHandler(body, state, env);
      UniqueKeys(r.state) && forall k :: 0 <= k < |r.outbox| ==> Known(env.peers, r.outbox[k].target)
  {
    var lines := BodyLines(body);
    ExecBlockKeeps(lines, 0, |lines|, 0, Ctx(state, [], []), env);
  }

  // ---------------------------------------------------------------------------
  // The block walker
  // ---------------------------------------------------------------------------

  /** The parts of L3_ExecutionContext a handler updates in place: the actor's
      state, the handler's locals, and the messages it has sent. */
  class ExecutionContext {
    var state: Store
    var locals: Store
    var outbox: seq<Outgoing>

    function Snapshot(): Ctx
      reads this
    {
      Ctx(state, locals, outbox)
    }

    /** The context l3_tick builds for a handler: the actor's state and no locals. */
    constructor (state: Store)
      ensures Snapshot() == Ctx(state, [], [])
    {
      this.state := state;
      locals := [];
      outbox := [];
    }

    /** l3_execute_line on a line already read as an action. */
    method ExecuteLine(a: Action, env: Env)
      modifies this
      ensures Snapshot() == Perform(a, old(Snapshot()), env)
    {
      match a
      case NoAction =>
      case Send(target, message) =>
        var id := ActorIdByName(env.peers, target);
        if id != -1 {
          outbox := outbox + [Outgoing(id, message, env.data)];
        }
      case SetLocal(name, expr) =>
        locals := Put(locals, name, env.eval(expr, state, locals));
      case SetState(key, expr) =>
        state := Put(state, key, env.eval(expr, state, locals));
    }

    /** l3_execute_block: walks the lines from i, running each statement, until
        a line indented below `base` or the end. */
    method ExecuteBlock(lines: seq<Line>, i: nat, end: nat, base: nat, env: Env)
      requires i <= end <= |lines|
      modifies this
      ensures Snapshot() == ExecBlock(lines, i, end, base, old(Snapshot()), env)
      decreases end - i, 3
    {
      var k := i;
      while k < end
        invariant i <= k <= end
        invariant ExecBlock(lines, k, end, base, Snapshot(), env) == ExecBlock(lines, i, end, base, old(Snapshot()), env)
        decreases end - k
      {
        if lines[k].stmt.Blank? || lines[k].stmt.Comment? {
          k := k + 1;
        } else if lines[k].indent < base {
          break;
        } else {
          k := ExecuteStatement(lines, k, end, env);
        }
      }
    }

    /** One statement of l3_execute_block at line k; returns the line after it. */
    method ExecuteStatement(lines: seq<Line>, k: nat, end: nat, env: Env) returns (next: nat)
      requires k < end <= |lines|
      modifies this
      ensures next == Next(lines, k, end)
      ensures Snapshot() == StmtEffect(lines, k, end, old(Snapshot()), env)
      decreases end - k, 2
    {
      match lines[k].stmt
      case IfStmt(cond) =>
        next := ExecuteIf(lines, k, end, cond, env);
      case WhileStmt(cond) =>
        next := ExecuteWhileStatement(lines, k, end, cond, env);
      case ForStmt(name, first, last) =>
        next := ExecuteForStatement(lines, k, end, name, first, last, env);
      case Plain(a) =>
        ExecuteLine(a, env);
        next := k + 1;
      case _ =>
        next := k + 1;
    }

    /** An `if` at line k: collects its body and runs it when the condition holds. */
    method ExecuteIf(lines: seq<Line>, k: nat, end: nat, cond: string, env: Env) returns (next: nat)
      requires k < end <= |lines|
      modifies this
      ensures next == Collect(lines, k + 1, end, None).0
      ensures Snapshot() == IfEffect(lines, k, end, cond, old(Snapshot()), env)
      decreases end - k, 1
    {
      var holds := env.cond(cond, state, locals);
      var e, ind := CollectBody(lines, k + 1, end);
      if holds && ind.Some? {
        ExecuteBlock(lines, k + 1, e, ind.value, env);
      }
      next := e;
    }

    /** A `while` at line k: collects its body and loops over it. */
    method ExecuteWhileStatement(lines: seq<Line>, k: nat, end: nat, cond: string, env: Env) returns (next: nat)
      requires k < end <= |lines|
      modifies this
      ensures next == Collect(lines, k + 1, end, None).0
      ensures Snapshot() == WhileEffect(lines, k, end, cond, old(Snapshot()), env)
      decreases end - k, 1
    {
      var e, ind := CollectBody(lines, k + 1, end);
      ExecuteWhile(lines, k + 1, e, ind, cond, env);
      next := e;
    }

    /** A `for` at line k: evaluates its bounds once, collects its body and
        loops over it. */
    method ExecuteForStatement(lines: seq<Line>, k: nat, end: nat, name: string, first: string, last: string, env: Env) returns (next: nat)
      requires k < end <= |lines|
      modifies this
      ensures next == Collect(lines, k + 1, end, None).0
      ensures Snapshot() == ForEffect(lines, k, end, name, first, last, old(Snapshot()), env)
      decreases end - k, 1
    {
      var lo := Atoi(env.eval(first, state, locals));
      var hi := Atoi(env.eval(last, state, locals));
      var e, ind := CollectBody(lines, k + 1, end);
      assert ForEffect(lines, k, end, name, first, last, Snapshot(), env) == ForLoop(lines, k + 1, e, ind, name, lo, hi, Snapshot(), env);
      ExecuteFor(lines, k + 1, e, ind, name, lo, hi, env);
      next := e;
    }

    /** The while loop of l3_execute_block over the body [s, e). */
    method ExecuteWhile(lines: seq<Line>, s: nat, e: nat, ind: Option<nat>, cond: string, env: Env)
      requires s <= e <= |lines|
      modifies this
      ensures Snapshot() == WhileLoop(lines, s, e, ind, cond, 0, old(Snapshot()), env)
      decreases e - s + 1, 0
    {
      var iterations := 0;
      while env.cond(cond, state, locals) && iterations < MaxIterations
        invariant iterations <= MaxIterations
        invariant WhileLoop(lines, s, e, ind, cond, iterations, Snapshot(), env) == WhileLoop(lines, s, e, ind, cond, 0, old(Snapshot()), env)
        decreases MaxIterations - iterations
      {
        if ind.Some? {
          ExecuteBlock(lines, s, e, ind.value, env);
        }
        iterations := iterations + 1;
      }
    }

    /** The for loop of l3_execute_block over the body [s, e), from lo up to hi. */
    method ExecuteFor(lines: seq<Line>, s: nat, e: nat, ind: Option<nat>, name: string, lo: int, hi: int, env: Env)
      requires s <= e <= |lines|
      modifies this
      ensures Snapshot() == ForLoop(lines, s, e, ind, name, lo, hi, old(Snapshot()), env)
      decreases e - s + 1, 0
    {
      var k := lo;
      while k <= hi
        invariant k <= hi + 1 || k == lo
        invariant ForLoop(lines, s, e, ind, name, k, hi, Snapshot(), env) == ForLoop(lines, s, e, ind, name, lo, hi, old(Snapshot()), env)
        decreases hi - k + 1
      {
        locals := Put(locals, name, IntToString(k));
        if ind.Some? {
          ExecuteBlock(lines, s, e, ind.value, env);
        }
        k := k + 1;
      }
    }
  }

  /** The body-collecting loop of l3_execute_block from line j: the end of
      the body and its indent (None for the C code's -1). */
  method CollectBody(lines: seq<Line>, j: nat, end: nat) returns (e: nat, ind: Option<nat>)
    requires j <= end <= |lines|
    ensures (e, ind) == Collect(lines, j, end, None)
  {
    e, ind := j, None;
    while e < end
      invariant j <= e <= end
      invariant Collect(lines, e, end, ind) == Collect(lines, j, end, None)
      decreases end - e
    {
      if !lines[e].stmt.Blank? {
        if ind.None? {
          ind := Some(lines[e].indent);
        }
        if lines[e].indent < ind.value {
          break;
        }
      }
      e := e + 1;
    }
  }

  /** l3_execute_handler on a context: the lines of the body walked as one
      block at indent 0. */
  method ExecuteHandler(body: string, ctx: ExecutionContext, env: Env)
    modifies ctx
    ensures ctx.Snapshot() == ExecBlock(BodyLines(body), 0, |BodyLines(body)|, 0, old(ctx.Snapshot()), env)
  {
    var lines := BodyLines(body);
    ctx.ExecuteBlock(lines, 0, |lines|, 0, env);
  }
}
