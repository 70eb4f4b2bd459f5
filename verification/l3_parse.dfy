// l3_parse_actor: the line-based reader of actor definitions
//
//   actor Counter
//     role is "Counts things"
//     state has
//       count -> 0
//     handlers
//     on increment
//       state.count -> state.count + 1

module L3Parse {
  import opened CStrings
  import opened L3Store

  datatype Handler = Handler(eventName: string, body: string)

  datatype ActorDefinition = ActorDefinition(
    name: Option<string>,
    role: Option<string>,
    initialState: Store,
    handlers: seq<Handler>)

  datatype Mode = ModeNone | ModeState | ModeHandlers

  /** The reader's state between lines: the definition so far, the section it
      is in, and the handler being collected. */
  datatype ParseState = ParseState(def: ActorDefinition, mode: Mode, current: Option<Handler>)

  const Empty := ActorDefinition(None, None, [], [])

  predicate IsQuote(c: char) { c == '"' || c == '\'' }

  /** l3_substring(s, 1, strlen(s) - 2): the text between the first and the
      last character; "" when there is no such text. */
  function Unquote(s: string): string {
    if |s| < 2 then "" else s[1..|s| - 1]
  }

  /** Stores the handler being collected, if any. */
  function Flush(d: ActorDefinition, current: Option<Handler>): ActorDefinition {
    if current.Some? then d.(handlers := d.handlers + [current.value]) else d
  }

  /** The separator of a state line: "->" when it occurs, otherwise " is ". */
  function StateSeparator(t: string): string {
    if Contains(t, "->") then "->" else " is "
  }

  /** A state line split at its separator: the trimmed key, and the trimmed
      value with its quotes removed when it is quoted and longer than one character. */
  function StateEntry(t: string): Entry
    requires Contains(t, StateSeparator(t))
  {
    var sep := StateSeparator(t);
    var p := Find(t, sep).value;
    var v := Trim(t[p + |sep|..]);
    Entry(Trim(t[..p]), if |v| > 1 && IsQuote(v[0]) then Unquote(v) else v)
  }

  datatype LineKind = ActorLine | RoleLine | StateHasLine | HandlersLine | StateLine | OnLine | BodyLine | OtherLine

  /** What a trimmed, non-empty, non-comment line is. The tests are made in this
      order; "actor", "role is", "state has", "handlers" and "on" are recognised
      in any section, a state entry only after "state has", a body line only
      after "handlers" and inside a handler. */
  function Classify(st: ParseState, t: string): (k: LineKind)
    ensures k == StateLine ==> Contains(t, StateSeparator(t))
    ensures k == BodyLine ==> st.current.Some?
  {
    if StartsWith(t, "actor ") then ActorLine
    else if StartsWith(t, "role is ") then RoleLine
    else if t == "state has" then StateHasLine
    else if t == "handlers" then HandlersLine
    else if st.mode == ModeState && (Contains(t, " is ") || Contains(t, "->")) then StateLine
    else if StartsWith(t, "on ") then OnLine
    else if st.mode == ModeHandlers && st.current.Some? then BodyLine
    else OtherLine
  }

  /** The effect of one line; a line of no kind is ignored. */
  function ParseLine(st: ParseState, t: string): ParseState {
    match Classify(st, t)
    case ActorLine => st.(def := st.def.(name := Some(Trim(t[6..]))))
    case RoleLine =>
      var r := Trim(t[8..]);
      st.(def := st.def.(role := Some(if |r| > 0 && IsQuote(r[0]) then Unquote(r) else r)))
    case StateHasLine => st.(mode := ModeState)
    case HandlersLine => ParseState(Flush(st.def, st.current), ModeHandlers, None)
    case StateLine =>
      var e := StateEntry(t);
      st.(def := st.def.(initialState := Put(st.def.initialState, e.key, e.value)))
    case OnLine => ParseState(Flush(st.def, st.current), st.mode, Some(Handler(Trim(t[3..]), "")))
    case BodyLine =>
      var h := st.current.value;
      st.(current := Some(h.(body := if |h.body| > 0 then h.body + "\n" + t else t)))
    case OtherLine => st
  }

  /** Blank lines and lines starting with "//" (after trimming) are skipped. */
  predicate Skipped(t: string) {
    |t| == 0 || StartsWith(t, "//")
  }

  /** The reader over the strtok lines from index i on. */
  function ParseLines(st: ParseState, lines: seq<string>, i: nat): ParseState
    requires i <= |lines|
    decreases |lines| - i
  {
    if i == |lines| then st
    else
      var t := Trim(lines[i]);
      ParseLines(if Skipped(t) then st else ParseLine(st, t), lines, i + 1)
  }

  /** The definition l3_parse_actor returns: NULL for NULL text, otherwise
      the lines read in order and the last handler stored. */
  function Parsed(code: Option<string>): Option<ActorDefinition> {
    if code.None? then None
    else
      var st := ParseLines(ParseState(Empty, ModeNone, None), Tokens(code.value, '\n'), 0);
      Some(Flush(st.def, st.current))
  }

  /** l3_parse_actor: the strtok loop over the lines of the text. */
  method ParseActor(code: Option<string>) returns (def: Option<ActorDefinition>)
    ensures def == Parsed(code)
  {
    if code.None? {
      return None;
    }
    var lines := Tokens(code.value, '\n');
    var st := ParseState(Empty, ModeNone, None);
    var i := 0;
    while i < |lines|
      invariant i <= |lines|
      invariant ParseLines(st, lines, i) == ParseLines(ParseState(Empty, ModeNone, None), lines, 0)
    {
      var t := Trim(lines[i]);
      if !Skipped(t) {
        st := ParseLine(st, t);
      }
      i := i + 1;
    }
    def := Some(Flush(st.def, st.current));
  }

  // ---------------------------------------------------------------------------
  // What the reader guarantees
  // ---------------------------------------------------------------------------

  /** No key appears twice in a parsed initial state. */
  ghost predicate StateUnique(st: ParseState) {
    UniqueKeys(st.def.initialState)
  }

  /** Every line of a body starts with a character other than a space: the
      first character, and each character after a newline. */
  ghost predicate Unindented(b: string) {
    (|b| > 0 ==> b[0] != ' ') && forall i :: 0 < i < |b| && b[i - 1] == '\n' ==> b[i] != ' '
  }

  ghost predicate BodiesUnindented(st: ParseState) {
    (forall k :: 0 <= k < |st.def.handlers| ==> Unindented(st.def.handlers[k].body)) &&
    (st.current.Some? ==> Unindented(st.current.value.body))
  }

  /** Appending a line that starts with a non-space character keeps a body unindented. */
  lemma AppendKeepsUnindented(b: string, t: string)
    requires Unindented(b) && |t| > 0 && !IsSpace(t[0]) && '\n' !in t
    ensures Unindented(if |b| > 0 then b + "\n" + t else t)
  {
    var r := if |b| > 0 then b + "\n" + t else t;
    if |b| > 0 {
      assert forall i :: |b| + 1 <= i < |r| ==> r[i] == t[i - |b| - 1];
    }
  }

  /** One line keeps both guarantees. */
  lemma ParseLineKeeps(st: ParseState, t: string)
    requires StateUnique(st) && BodiesUnindented(st)
    requires |t| > 0 && !IsSpace(t[0]) && '\n' !in t
    ensures StateUnique(ParseLine(st, t)) && BodiesUnindented(ParseLine(st, t))
  {
    match Classify(st, t)
    case StateLine =>
      var e := StateEntry(t);
      PutKeepsUnique(st.def.initialState, e.key, e.value);
    case BodyLine =>
      AppendKeepsUnindented(st.current.value.body, t);
    case _ =>
  }

  /** Trimming a line without a newline gives a line without a newline. */
  lemma TrimKeepsNoNewline(s: string)
    requires '\n' !in s
    ensures '\n' !in Trim(s)
  {
    var r := Trim(s);
    TrimShape(s);
    var k :| 0 <= k <= |s| - |r| && r == s[k..k + |r|] && AllSpace(s[..k]) && AllSpace(s[k + |r|..]);
    assert forall j :: 0 <= j < |r| ==> r[j] == s[k + j];
  }

  lemma {:induction false} ParseLinesKeeps(st: ParseState, lines: seq<string>, i: nat)
    requires i <= |lines| && StateUnique(st) && BodiesUnindented(st)
    requires forall j :: 0 <= j < |lines| ==> '\n' !in lines[j]
    ensures StateUnique(ParseLines(st, lines, i)) && BodiesUnindented(ParseLines(st, lines, i))
    decreases |lines| - i
  {
    if i < |lines| {
      var t := Trim(lines[i]);
      if !Skipped(t) {
        TrimKeepsNoNewline(lines[i]);
        ParseLineKeeps(st, t);
      }
      ParseLinesKeeps(if Skipped(t) then st else ParseLine(st, t), lines, i + 1);
    }
  }

  /** A parsed definition has no duplicate state key, and every line of every
      handler body is stored trimmed, so none is indented. */
  lemma ParsedWellFormed(code: string)
    ensures var d := Parsed(Some(code)).value;
      UniqueKeys(d.initialState) &&
      forall k :: 0 <= k < |d.handlers| ==> Unindented(d.handlers[k].body)
  {
    ParseLinesKeeps(ParseState(Empty, ModeNone, None), Tokens(code, '\n'), 0);
  }

  /** "->" wins over " is " in a state line: the key is the text before the first arrow. */
  lemma ArrowPreferred(k: string, v: string)
    requires !Contains(k, "->") && |k| > 0 && k[|k| - 1] != '-'
    ensures Contains(k + "->" + v, "->") && StateEntry(k + "->" + v).key == Trim(k)
  {
    var t := k + "->" + v;
    assert OccursAt(t, "->", |k|);
    FindFirst(t, "->");
    FindFirst(k, "->");
    var p := Find(t, "->").value;
    if p + 2 <= |k| {
      assert t[p..p + 2] == k[p..p + 2];
      assert OccursAt(k, "->", p);
    }
    assert t[..p] == k;
  }

  /** A role written in quotes is stored without them. */
  lemma RoleUnquoted(st: ParseState, role: string)
    requires |role| >= 2 && IsQuote(role[0]) && !IsSpace(role[0]) && !IsSpace(role[|role| - 1])
    ensures ParseLine(st, "role is " + role).def.role == Some(role[1..|role| - 1])
  {
    var t := "role is " + role;
    assert StartsWith(t, "role is ");
    assert !StartsWith(t, "actor ") by { assert t[1] != "actor "[1]; }
    assert t[8..] == role;
    TrimOfUnpadded(role);
  }
}
