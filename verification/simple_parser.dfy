// The parser the surface language actually goes through: a scanner that only
// knows the two arrows and identifiers, and a loop that turns "a -> b" into a
// send and "a <- b" into an inheritance declaration.

module SimpleParser {
  import opened CStrings
  import opened SurfaceParser

  datatype SimpleToken = SimpleToken(kind: TokenType, lexeme: string)

  predicate IsIdentifier(x: string) {
    |x| > 0 && IsIdentStart(x[0]) && forall k :: 0 < k < |x| ==> IsIdentContinue(x[k])
  }

  /** Where the skipping loop of simple_next_token stops: blanks, "//"
      comments and every character that starts no token are passed over. */
  function TokenStart(s: string, i: nat): (j: nat)
    requires i <= |s|
    ensures i <= j <= |s|
    ensures j < |s| ==> MessageArrowAt(s, j) || InheritArrowAt(s, j) || IsIdentStart(s[j])
    decreases |s| - i
  {
    if i == |s| then i
    else if IsBlank(s[i]) then TokenStart(s, i + 1)
    else if CommentAt(s, i) then TokenStart(s, LineEnd(s, i))
    else if MessageArrowAt(s, i) || InheritArrowAt(s, i) || IsIdentStart(s[i]) then i
    else TokenStart(s, i + 1)
  }

  /** The token simple_next_token returns from cursor i, and where it leaves
      the cursor. */
  function NextSimple(s: string, i: nat): (r: (SimpleToken, nat))
    requires i <= |s|
    ensures i <= r.1 <= |s|
    ensures r.0.kind in {MessageArrow, InheritArrow, Identifier, Eof}
    ensures r.0.kind == Eof ==> r.1 == |s| && r.0.lexeme == ""
    ensures r.0.kind != Eof ==> i < r.1
  {
    var j := TokenStart(s, i);
    if j == |s| then (SimpleToken(Eof, ""), j)
    else if MessageArrowAt(s, j) then (SimpleToken(MessageArrow, s[j..j + 2]), j + 2)
    else if InheritArrowAt(s, j) then (SimpleToken(InheritArrow, s[j..j + 2]), j + 2)
    else
      var e := IdentEnd(s, j);
      assert IsIdentContinue(s[j]) && j < e;
      (SimpleToken(Identifier, s[j..e]), e)
  }

  /** The token starts where the skipping stops, its lexeme is the text it
      spans, and an identifier is read to its last identifier character. */
  lemma NextSimpleSpec(s: string, i: nat)
    requires i <= |s|
    ensures var r := NextSimple(s, i);
      (r.0.kind == Eof <==> TokenStart(s, i) == |s|) &&
      (r.0.kind != Eof ==> TokenStart(s, i) < r.1 && r.0.lexeme == s[TokenStart(s, i)..r.1]) &&
      (r.0.kind == Identifier ==> IsIdentifier(r.0.lexeme) && (r.1 == |s| || !IsIdentContinue(s[r.1])))
  {
    var j := TokenStart(s, i);
    if j < |s| && !MessageArrowAt(s, j) && !InheritArrowAt(s, j) {
      var e := IdentEnd(s, j);
      assert IsIdentContinue(s[j]) && j < e;
      assert forall k :: 0 < k < e - j ==> s[j..e][k] == s[j + k];
    }
  }

  /** Arrow tokens spell their arrow. */
  lemma ArrowLexemes(s: string, i: nat)
    requires i <= |s|
    ensures NextSimple(s, i).0.kind == MessageArrow ==> NextSimple(s, i).0.lexeme == "->"
    ensures NextSimple(s, i).0.kind == InheritArrow ==> NextSimple(s, i).0.lexeme == "<-"
  {
    var j := TokenStart(s, i);
    if MessageArrowAt(s, j) {
      assert s[j..j + 2] == "->";
    } else if j < |s| && InheritArrowAt(s, j) {
      assert s[j..j + 2] == "<-";
    }
  }

  /** The comment loop of simple_next_token: up to the newline or the end. */
  method SkipToNewline(s: string, i: nat) returns (j: nat)
    requires i <= |s|
    ensures j == LineEnd(s, i)
  {
    j := i;
    while j < |s| && s[j] != '\n'
      invariant i <= j <= |s| && LineEnd(s, j) == LineEnd(s, i)
      decreases |s| - j
    {
      j := j + 1;
    }
  }

  /** The identifier loop of simple_next_token: each identifier character is
      copied into the lexeme. */
  method ReadIdentifier(s: string, first: nat) returns (lexeme: string, next: nat)
    requires first <= |s|
    ensures next == IdentEnd(s, first) && lexeme == s[first..next]
  {
    next := first;
    lexeme := "";
    while next < |s| && IsIdentContinue(s[next])
      invariant first <= next <= |s| && IdentEnd(s, next) == IdentEnd(s, first)
      invariant lexeme == s[first..next]
      decreases |s| - next
    {
      lexeme := lexeme + [s[next]];
      next := next + 1;
    }
  }

  /** simple_next_token: the cursor is advanced past what was skipped and
      past the token. */
  method SimpleNextToken(s: string, cursor: nat) returns (tok: SimpleToken, next: nat)
    requires cursor <= |s|
    ensures (tok, next) == NextSimple(s, cursor)
  {
    next := cursor;
    while next < |s|
      invariant cursor <= next <= |s| && TokenStart(s, next) == TokenStart(s, cursor)
      decreases |s| - next
    {
      var c := s[next];
      if c == ' ' || c == '\t' || c == '\n' {
        next := next + 1;
        continue;
      }
      if c == '/' && next + 1 < |s| && s[next + 1] == '/' {
        next := SkipToNewline(s, next);
        continue;
      }
      if c == '-' && next + 1 < |s| && s[next + 1] == '>' {
        tok := SimpleToken(MessageArrow, "->");
        assert s[next..next + 2] == "->";
        next := next + 2;
        return;
      }
      if c == '<' && next + 1 < |s| && s[next + 1] == '-' {
        tok := SimpleToken(InheritArrow, "<-");
        assert s[next..next + 2] == "<-";
        next := next + 2;
        return;
      }
      if IsIdentStart(c) {
        var lexeme;
        lexeme, next := ReadIdentifier(s, next);
        tok := SimpleToken(Identifier, lexeme);
        return;
      }
      next := next + 1;
    }
    tok := SimpleToken(Eof, "");
  }

  /** The text of an inheritance relation. */
  function RelationText(child: string, parent: string): string {
    child + " <- " + parent
  }

  /** The bytes parse_surface_simple allocates for a relation, as written:
      the two names and four more, which is the arrow with its spaces and
      leaves nothing for the terminating NUL. */
  function RelationBytesAsWritten(child: string, parent: string): nat {
    |child| + |parent| + 4
  }

  /** The relation text and its terminator never fit the buffer as written:
      sprintf writes one byte past its end, for every child and parent. */
  lemma RelationOverflows(child: string, parent: string)
    ensures |RelationText(child, parent)| + 1 == RelationBytesAsWritten(child, parent) + 1
    ensures |RelationText(child, parent)| + 1 > RelationBytesAsWritten(child, parent)
  {
  }

  /** The relation written into a buffer that holds it with its terminator:
      one byte more than parse_surface_simple allocates. */
  method FormatRelation(child: string, parent: string) returns (buf: array<char>)
    ensures fresh(buf) && buf.Length == RelationBytesAsWritten(child, parent) + 1
    ensures buf[..buf.Length - 1] == RelationText(child, parent) && buf[buf.Length - 1] == '\0'
  {
    var text := child + " <- " + parent;
    buf := new char[|child| + |parent| + 5];
    var k := 0;
    while k < |text|
      invariant k <= |text| && buf[..k] == text[..k]
      modifies buf
    {
      buf[k] := text[k];
      k := k + 1;
    }
    buf[|text|] := '\0';
  }

  /** A send as parse_surface_simple builds it: no arguments, no tag, and the
      R-term type by default. */
  function SendOf(target: string, selector: string): Statement {
    Send(target, selector, [], OperationTag(false, None), RTerm)
  }

  function Concat(a: SurfaceAst, b: SurfaceAst): SurfaceAst {
    SurfaceAst(a.statements + b.statements, a.relations + b.relations)
  }

  const Empty := SurfaceAst([], [])

  lemma ConcatAssociative(a: SurfaceAst, b: SurfaceAst, c: SurfaceAst)
    ensures Concat(Concat(a, b), c) == Concat(a, Concat(b, c))
  {
    assert (a.statements + b.statements) + c.statements == a.statements + (b.statements + c.statements);
    assert (a.relations + b.relations) + c.relations == a.relations + (b.relations + c.relations);
  }

  /** What parse_surface_simple's loop makes of the text from cursor i. An
      identifier is read with the token after it; an arrow then reads one
      more token, and a statement is added only when that token is an
      identifier. A token that is not an identifier where a statement would
      start is dropped, and so is the token after an identifier that is not
      an arrow. */
  function ParseFrom(s: string, i: nat): (ast: SurfaceAst)
    requires i <= |s|
    decreases |s| - i
  {
    var (t1, n1) := NextSimple(s, i);
    if t1.kind == Eof then Empty
    else if t1.kind != Identifier then ParseFrom(s, n1)
    else
      var (t2, n2) := NextSimple(s, n1);
      if t2.kind == MessageArrow || t2.kind == InheritArrow then
        var (t3, n3) := NextSimple(s, n2);
        if t3.kind != Identifier then ParseFrom(s, n3)
        else if t2.kind == MessageArrow then
          Concat(SurfaceAst([SendOf(t1.lexeme, t3.lexeme)], []), ParseFrom(s, n3))
        else
          Concat(SurfaceAst([Inherit(t1.lexeme, t3.lexeme)], [RelationText(t1.lexeme, t3.lexeme)]), ParseFrom(s, n3))
      else ParseFrom(s, n2)
  }

  /** The relation texts of the inheritance statements, in order. */
  function RelationsOf(sts: seq<Statement>): seq<string>
    decreases |sts|
  {
    if |sts| == 0 then []
    else if sts[0].Inherit? then [RelationText(sts[0].child, sts[0].parent)] + RelationsOf(sts[1..])
    else RelationsOf(sts[1..])
  }

  lemma {:induction false} RelationsOfAppend(a: seq<Statement>, b: seq<Statement>)
    ensures RelationsOf(a + b) == RelationsOf(a) + RelationsOf(b)
    decreases |a|
  {
    if |a| == 0 {
      assert a + b == b;
    } else {
      var ab := a + b;
      assert ab[0] == a[0] && ab[1..] == a[1..] + b;
      RelationsOfAppend(a[1..], b);
    }
  }

  lemma {:induction false} RelationsOfBound(sts: seq<Statement>)
    ensures |RelationsOf(sts)| <= |sts|
    decreases |sts|
  {
    if |sts| > 0 {
      RelationsOfBound(sts[1..]);
    }
  }

  /** Only sends and inheritance declarations are built; every send is an
      untagged R-term send without arguments between two identifiers. */
  predicate WellBuilt(st: Statement) {
    match st
    case Send(target, selector, arguments, tag, kind) =>
      IsIdentifier(target) && IsIdentifier(selector) && arguments == [] && !tag.isTagged && kind == RTerm
    case Inherit(child, parent) => IsIdentifier(child) && IsIdentifier(parent)
    case Comment => false
  }

  /** The relations are exactly the texts of the inheritance statements, in
      order, so there are never more relations than statements; and every
      statement is well built. */
  lemma {:induction false} ParseShape(s: string, i: nat)
    requires i <= |s|
    ensures ParseFrom(s, i).relations == RelationsOf(ParseFrom(s, i).statements)
    ensures |ParseFrom(s, i).relations| <= |ParseFrom(s, i).statements|
    ensures forall k :: 0 <= k < |ParseFrom(s, i).statements| ==> WellBuilt(ParseFrom(s, i).statements[k])
    decreases |s| - i
  {
    var (t1, n1) := NextSimple(s, i);
    if t1.kind == Eof {
    } else if t1.kind != Identifier {
      ParseShape(s, n1);
    } else {
      NextSimpleSpec(s, i);
      var (t2, n2) := NextSimple(s, n1);
      if t2.kind == MessageArrow || t2.kind == InheritArrow {
        var (t3, n3) := NextSimple(s, n2);
        NextSimpleSpec(s, n2);
        ParseShape(s, n3);
        if t3.kind == Identifier {
          var rest := ParseFrom(s, n3);
          var head := if t2.kind == MessageArrow then SendOf(t1.lexeme, t3.lexeme) else Inherit(t1.lexeme, t3.lexeme);
          assert ParseFrom(s, i).statements == [head] + rest.statements;
          RelationsOfAppend([head], rest.statements);
          RelationsOfBound(ParseFrom(s, i).statements);
        }
      } else {
        ParseShape(s, n2);
      }
    }
  }

  /** One pass of parse_surface_simple's loop from cursor i: EOF ends the
      loop; otherwise up to three tokens are read and at most one statement
      (and, for an inheritance, its relation) is produced. */
  method ReadStatement(source: string, current: nat)
    returns (eof: bool, statements: seq<Statement>, relations: seq<string>, next: nat)
    requires current <= |source|
    ensures eof <==> NextSimple(source, current).0.kind == Eof
    ensures eof ==> ParseFrom(source, current) == Empty
    ensures !eof ==> current < next <= |source|
    ensures !eof ==> ParseFrom(source, current) == Concat(SurfaceAst(statements, relations), ParseFrom(source, next))
  {
    statements, relations := [], [];
    var token, after := SimpleNextToken(source, current);
    eof := token.kind == Eof;
    next := after;
    if eof || token.kind != Identifier {
      return;
    }
    var identifier := token.lexeme;
    var second, after2 := SimpleNextToken(source, after);
    next := after2;
    if second.kind == MessageArrow || second.kind == InheritArrow {
      var third, after3 := SimpleNextToken(source, after2);
      next := after3;
      if third.kind == Identifier {
        if second.kind == MessageArrow {
          statements := [SendOf(identifier, third.lexeme)];
        } else {
          var buf := FormatRelation(identifier, third.lexeme);
          relations := [buf[..buf.Length - 1]];
          statements := [Inherit(identifier, third.lexeme)];
        }
      }
    }
  }

  /** parse_surface_simple: reads statements until EOF and appends each
      statement, and each relation, in source order. */
  method ParseSurfaceSimple(source: string) returns (ast: SurfaceAst)
    ensures ast == ParseFrom(source, 0)
  {
    ast := Empty;
    var current := 0;
    while true
      invariant current <= |source|
      invariant ParseFrom(source, 0) == Concat(ast, ParseFrom(source, current))
      decreases |source| - current
    {
      var eof, statements, relations, next := ReadStatement(source, current);
      if eof {
        break;
      }
      ConcatAssociative(ast, SurfaceAst(statements, relations), ParseFrom(source, next));
      ast := Concat(ast, SurfaceAst(statements, relations));
      current := next;
    }
  }

  /** parse_surface hands the text to parse_surface_simple. */
  method ParseSurface(source: string) returns (ast: SurfaceAst)
    ensures ast == ParseFrom(source, 0)
  {
    ast := ParseSurfaceSimple(source);
  }
}
