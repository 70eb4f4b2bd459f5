// The surface language of two arrows: its token scanner, the syntax tree the
// parsers build, the R/D classification of a message send and the PascalCase
// helper used to name canonical paths.

module SurfaceParser {
  import opened CStrings

  datatype TokenType = MessageArrow | InheritArrow | Identifier | Tag | Literal | Eof | Error

  datatype Token = Token(kind: TokenType, lexeme: string, line: int, column: int)

  /** A line and a column of the scanner. */
  datatype Position = Position(line: int, column: int)

  predicate IsIdentStart(c: char) { IsAlpha(c) || c == '_' }

  predicate IsIdentContinue(c: char) { IsAlnum(c) || c == '_' }

  predicate IsBlank(c: char) { c == ' ' || c == '\t' || c == '\n' }

  /** "//" starts at i. */
  predicate CommentAt(s: string, i: nat) {
    i + 1 < |s| && s[i] == '/' && s[i + 1] == '/'
  }

  predicate MessageArrowAt(s: string, i: nat) {
    i + 1 < |s| && s[i] == '-' && s[i + 1] == '>'
  }

  predicate InheritArrowAt(s: string, i: nat) {
    i + 1 < |s| && s[i] == '<' && s[i + 1] == '-'
  }

  /** The first newline at or after i, or the end. */
  function LineEnd(s: string, i: nat): (j: nat)
    requires i <= |s|
    ensures i <= j <= |s| && (j == |s| || s[j] == '\n')
    ensures forall k :: i <= k < j ==> s[k] != '\n'
    decreases |s| - i
  {
    if i == |s| || s[i] == '\n' then i else LineEnd(s, i + 1)
  }

  /** The end of the run of identifier characters that starts at i. */
  function IdentEnd(s: string, i: nat): (j: nat)
    requires i <= |s|
    ensures i <= j <= |s| && (j == |s| || !IsIdentContinue(s[j]))
    ensures forall k :: i <= k < j ==> IsIdentContinue(s[k])
    decreases |s| - i
  {
    if i == |s| || !IsIdentContinue(s[i]) then i else IdentEnd(s, i + 1)
  }

  /** Where the layout (blanks and "//" comments) that starts at i ends. */
  function LayoutEnd(s: string, i: nat): (j: nat)
    requires i <= |s|
    ensures i <= j <= |s|
    ensures j == |s| || (!IsBlank(s[j]) && !CommentAt(s, j))
    decreases |s| - i
  {
    if i == |s| then i
    else if IsBlank(s[i]) then LayoutEnd(s, i + 1)
    else if CommentAt(s, i) then LayoutEnd(s, LineEnd(s, i))
    else i
  }

  /** The end of a string literal whose opening quote is just before i: past
      the closing quote, or the end of the text when it never closes; a
      backslash hides the character after it. */
  function LiteralEnd(s: string, i: nat): (j: nat)
    requires i <= |s|
    ensures i <= j <= |s|
    ensures j == |s| || (i < j && s[j - 1] == '"')
    decreases |s| - i
  {
    if i == |s| then i
    else if s[i] == '"' then i + 1
    else if s[i] == '\\' && i + 1 < |s| then LiteralEnd(s, i + 2)
    else LiteralEnd(s, i + 1)
  }

  /** The kind and the end of the token that starts at a significant
      position i. */
  function Scan(s: string, i: nat): (r: (TokenType, nat))
    requires i < |s|
    ensures i < r.1 <= |s| && r.0 != Eof
    ensures r.0 == MessageArrow <==> MessageArrowAt(s, i)
    ensures r.0 == InheritArrow <==> InheritArrowAt(s, i)
    ensures r.0 == MessageArrow || r.0 == InheritArrow ==> r.1 == i + 2
    ensures r.0 == Identifier ==> IsIdentStart(s[i])
    ensures r.0 == Identifier || r.0 == Tag ==>
      (forall k :: i < k < r.1 ==> IsIdentContinue(s[k])) && (r.1 == |s| || !IsIdentContinue(s[r.1]))
    ensures r.0 == Tag <==> s[i] == '@'
    ensures r.0 == Literal <==> s[i] == '"'
    ensures r.0 == Literal ==> r.1 == |s| || (r.1 >= i + 2 && s[r.1 - 1] == '"')
    ensures r.0 == Error ==> r.1 == i + 1 && !IsIdentStart(s[i]) && !MessageArrowAt(s, i) && !InheritArrowAt(s, i)
  {
    if MessageArrowAt(s, i) then (MessageArrow, i + 2)
    else if InheritArrowAt(s, i) then (InheritArrow, i + 2)
    else if s[i] == '@' then (Tag, IdentEnd(s, i + 1))
    else if s[i] == '"' then (Literal, LiteralEnd(s, i + 1))
    else if IsIdentStart(s[i]) then (Identifier, IdentEnd(s, i + 1))
    else (Error, i + 1)
  }

  /** The scanner's position after reading one character. A newline sets the
      column to 1 and then advances it like any other character, so the first
      character of every line after the first is at column 2. */
  function Tick(p: Position, c: char): Position {
    if c == '\n' then Position(p.line + 1, 2) else Position(p.line, p.column + 1)
  }

  /** The scanner's position after reading `text`. */
  function Cursor(p: Position, text: string): (q: Position)
    decreases |text|
  {
    if |text| == 0 then p else Tick(Cursor(p, text[..|text| - 1]), text[|text| - 1])
  }

  function Newlines(text: string): (n: nat)
    ensures n <= |text|
    decreases |text|
  {
    if |text| == 0 then 0
    else Newlines(text[..|text| - 1]) + (if text[|text| - 1] == '\n' then 1 else 0)
  }

  /** How many characters follow the last newline of `text` (all of them when
      there is none). */
  function SinceNewline(text: string): (n: nat)
    ensures n <= |text|
    decreases |text|
  {
    if |text| == 0 then 0
    else if text[|text| - 1] == '\n' then 0
    else SinceNewline(text[..|text| - 1]) + 1
  }

  /** The line advances by the newlines read; the column counts the
      characters since the last of them, starting from 2 on every later
      line. */
  lemma {:induction false} CursorCounts(p: Position, text: string)
    ensures Cursor(p, text).line == p.line + Newlines(text)
    ensures Cursor(p, text).column == (if '\n' in text then 2 else p.column) + SinceNewline(text)
    decreases |text|
  {
    if |text| > 0 {
      var front := text[..|text| - 1];
      CursorCounts(p, front);
      assert text == front + [text[|text| - 1]];
      assert '\n' in text <==> '\n' in front || text[|text| - 1] == '\n';
    }
  }

  lemma CursorSnoc(p: Position, s: string, lo: nat, hi: nat)
    requires lo <= hi < |s|
    ensures Cursor(p, s[lo..hi + 1]) == Tick(Cursor(p, s[lo..hi]), s[hi])
  {
    assert s[lo..hi + 1][..hi - lo] == s[lo..hi];
  }

  class Lexer {
    const source: string
    var pos: nat
    var line: int
    var column: int

    /** create_lexer: at the first character, line 1, column 1. */
    constructor (source: string)
      ensures this.source == source && pos == 0 && line == 1 && column == 1
    {
      this.source := source;
      pos := 0;
      line := 1;
      column := 1;
    }

    /** next_token: skips the layout, then reads one token. At the end of the
        text the token is EOF with an empty lexeme and nothing moves. Any other
        token's lexeme is exactly the text it consumed, and at least one
        character is consumed. Arrows, errors and EOF carry the position of
        their first character; tags, literals and identifiers carry the
        position just past their last one. */
    method NextToken() returns (tok: Token)
      requires pos <= |source|
      modifies this
      ensures pos <= |source|
      ensures var start := LayoutEnd(source, old(pos));
        var at := Cursor(Position(old(line), old(column)), source[old(pos)..start]);
        if start == |source| then
          tok == Token(Eof, "", at.line, at.column) && pos == start && line == at.line && column == at.column
        else
          var (kind, end) := Scan(source, start);
          var moved := at.column + (end - start);
          tok.kind == kind && tok.lexeme == source[start..end] && tok.line == at.line &&
          tok.column == (if kind == Tag || kind == Literal || kind == Identifier then moved else at.column) &&
          pos == end && line == at.line && column == moved
    {
      SkipLayout();
      if pos >= |source| {
        return Token(Eof, "", line, column);
      }
      var c := source[pos];
      if c == '-' && pos + 1 < |source| && source[pos + 1] == '>' {
        assert source[pos..pos + 2] == "->";
        tok := Token(MessageArrow, "->", line, column);
        pos, column := pos + 2, column + 2;
      } else if c == '<' && pos + 1 < |source| && source[pos + 1] == '-' {
        assert source[pos..pos + 2] == "<-";
        tok := Token(InheritArrow, "<-", line, column);
        pos, column := pos + 2, column + 2;
      } else if c == '@' {
        var first := pos;
        ReadIdentRest();
        tok := Token(Tag, source[first..pos], line, column);
      } else if c == '"' {
        var first := pos;
        ReadLiteral();
        tok := Token(Literal, source[first..pos], line, column);
      } else if IsIdentStart(c) {
        var first := pos;
        ReadIdentRest();
        tok := Token(Identifier, source[first..pos], line, column);
      } else {
        tok := Token(Error, [c], line, column);
        pos, column := pos + 1, column + 1;
      }
    }

    /** The layout loop of next_token: blanks and "//" comments up to their
        newline, keeping line and column. */
    method SkipLayout()
      requires pos <= |source|
      modifies this
      ensures pos == LayoutEnd(source, old(pos))
      ensures Position(line, column) == Cursor(Position(old(line), old(column)), source[old(pos)..pos])
    {
      ghost var p0 := pos;
      ghost var start := LayoutEnd(source, pos);
      ghost var from := Position(line, column);
      while pos < |source|
        invariant p0 <= pos <= |source| && start == LayoutEnd(source, pos)
        invariant Position(line, column) == Cursor(from, source[p0..pos])
        decreases |source| - pos
      {
        var c := source[pos];
        if c == ' ' || c == '\t' || c == '\n' {
          CursorSnoc(from, source, p0, pos);
          if c == '\n' {
            line := line + 1;
            column := 1;
          }
          pos, column := pos + 1, column + 1;
          continue;
        }
        if c == '/' && pos + 1 < |source| && source[pos + 1] == '/' {
          SkipComment(p0, from);
          continue;
        }
        break;
      }
    }

    /** The comment loop of next_token: up to the newline or the end. */
    method SkipComment(ghost p0: nat, ghost from: Position)
      requires p0 <= pos < |source| && source[pos] != '\n'
      requires Position(line, column) == Cursor(from, source[p0..pos])
      modifies this
      ensures pos == LineEnd(source, old(pos)) && pos > old(pos)
      ensures Position(line, column) == Cursor(from, source[p0..pos])
    {
      while pos < |source| && source[pos] != '\n'
        invariant old(pos) <= pos <= |source| && LineEnd(source, pos) == LineEnd(source, old(pos))
        invariant Position(line, column) == Cursor(from, source[p0..pos])
        decreases |source| - pos
      {
        CursorSnoc(from, source, p0, pos);
        pos, column := pos + 1, column + 1;
      }
    }

    /** The first character (the '@' of a tag or an identifier's first
        letter), then every identifier character after it. */
    method ReadIdentRest()
      requires pos < |source|
      modifies this
      ensures pos == IdentEnd(source, old(pos) + 1)
      ensures line == old(line) && column == old(column) + (pos - old(pos))
    {
      pos, column := pos + 1, column + 1;
      while pos < |source| && IsIdentContinue(source[pos])
        invariant old(pos) < pos <= |source| && IdentEnd(source, pos) == IdentEnd(source, old(pos) + 1)
        invariant line == old(line) && column == old(column) + (pos - old(pos))
        decreases |source| - pos
      {
        pos, column := pos + 1, column + 1;
      }
    }

    /** The opening quote, the characters up to the closing quote with a
        backslash hiding the next one, and the closing quote if there is one. */
    method ReadLiteral()
      requires pos < |source|
      modifies this
      ensures pos == LiteralEnd(source, old(pos) + 1)
      ensures line == old(line) && column == old(column) + (pos - old(pos))
    {
      pos, column := pos + 1, column + 1;
      while pos < |source| && source[pos] != '"'
        invariant old(pos) < pos <= |source| && LiteralEnd(source, pos) == LiteralEnd(source, old(pos) + 1)
        invariant line == old(line) && column == old(column) + (pos - old(pos))
        decreases |source| - pos
      {
        if source[pos] == '\\' && pos + 1 < |source| {
          pos, column := pos + 1, column + 1;
        }
        pos, column := pos + 1, column + 1;
      }
      if pos < |source| {
        pos, column := pos + 1, column + 1;
      }
    }
  }

  // ---------------------------------------------------------------------------
  // The syntax tree shared by the parsers and the compiler
  // ---------------------------------------------------------------------------

  datatype OperationType = RTerm | DTerm | STerm

  /** The enumeration value of an operation type: R_TERM is 0. */
  function OperationCode(t: OperationType): (n: nat)
    ensures n < 3 && (n == 0 <==> t == RTerm)
  {
    match t
    case RTerm => 0
    case DTerm => 1
    case STerm => 2
  }

  datatype OperationTag = OperationTag(isTagged: bool, tagType: Option<string>)

  datatype Statement =
    | Send(target: string, selector: string, arguments: seq<string>, tag: OperationTag, kind: OperationType)
    | Inherit(child: string, parent: string)
    | Comment

  /** The statements in source order and the "child <- parent" relation
      strings. */
  datatype SurfaceAst = SurfaceAst(statements: seq<Statement>, relations: seq<string>)

  // ---------------------------------------------------------------------------
  // Classification
  // ---------------------------------------------------------------------------

  const IoTargets: set<string> := {"io", "file", "network", "system"}
  const CoordinationSelectors: set<string> := {"fork", "spawn", "kill", "exit"}

  /** is_known_d_term_operation: four I/O targets and four coordination
      selectors, compared one by one. */
  function IsKnownDTermOperation(target: string, selector: string): bool {
    target == "io" || target == "file" || target == "network" || target == "system" ||
    selector == "fork" || selector == "spawn" || selector == "kill" || selector == "exit"
  }

  lemma KnownDTermIsMembership(target: string, selector: string)
    ensures IsKnownDTermOperation(target, selector) <==> target in IoTargets || selector in CoordinationSelectors
  {
  }

  /** classify_operation: a tag or a known D-term target or selector makes a
      D-term; everything else is an R-term. */
  function ClassifyOperation(target: string, selector: string, tag: OperationTag): (t: OperationType)
    ensures t != STerm
  {
    if tag.isTagged then DTerm
    else if IsKnownDTermOperation(target, selector) then DTerm
    else RTerm
  }

  lemma ClassifyDTerm(target: string, selector: string, tag: OperationTag)
    ensures ClassifyOperation(target, selector, tag) == DTerm <==>
      tag.isTagged || target in IoTargets || selector in CoordinationSelectors
    ensures ClassifyOperation(target, selector, tag) == RTerm <==>
      !tag.isTagged && target !in IoTargets && selector !in CoordinationSelectors
  {
  }

  /** parse_operation_tag: never a tag, whatever the scanner holds. */
  function ParseOperationTag(): (tag: OperationTag)
    ensures !tag.isTagged && tag.tagType.None?
  {
    OperationTag(false, None)
  }

  /** With the tag parse_operation_tag gives, only the known names make a
      D-term. */
  lemma UntaggedClassification(target: string, selector: string)
    ensures ClassifyOperation(target, selector, ParseOperationTag()) == DTerm <==>
      target in IoTargets || selector in CoordinationSelectors
  {
  }

  function ToUpper(c: char): (u: char)
    ensures !IsLower(u)
  {
    if IsLower(c) then (c as int - 'a' as int + 'A' as int) as char else c
  }

  /** to_pascal_case: a copy with a lower-case first letter made upper case;
      the empty text for a missing or empty input. */
  function ToPascalCase(input: Option<string>): (r: string)
    ensures input.None? ==> r == ""
    ensures input.Some? ==> |r| == |input.value|
  {
    if input.None? || |input.value| == 0 then ""
    else [ToUpper(input.value[0])] + input.value[1..]
  }

  /** Only the first letter can change, it is never lower case afterwards,
      and a text not starting in lower case is left as it is. */
  lemma PascalCaseShape(input: Option<string>)
    ensures var r := ToPascalCase(input);
      (input.Some? && |r| > 0 ==> r[1..] == input.value[1..] && !IsLower(r[0])) &&
      (input.Some? && |r| > 0 && !IsLower(input.value[0]) ==> r == input.value)
  {
    if input.Some? && |input.value| > 0 {
      var r := ToPascalCase(input);
      assert r[1..] == input.value[1..];
    }
  }

  /** PascalCase twice is PascalCase once. */
  lemma PascalCaseIdempotent(input: Option<string>)
    ensures ToPascalCase(Some(ToPascalCase(input))) == ToPascalCase(input)
  {
    PascalCaseShape(input);
    PascalCaseShape(Some(ToPascalCase(input)));
  }
}
