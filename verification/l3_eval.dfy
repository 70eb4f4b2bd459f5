// l3_evaluate_expression and l3_evaluate_condition: the values of handler
// expressions, given the actor's state, the handler's locals and the external
// calculator that arithmetic is handed to.

module L3Eval {
  import opened CStrings
  import opened L3Store
  import opened L3Parse
  import opened L3Substitute
  import opened L3Rewrite

  /** What expression evaluation draws on beyond the actor: `run` is the
      external `bc` calculator (the first line it prints for a text, or None
      when it prints nothing or cannot be started), and `rounds` is how many
      rounds of the state-substitution loop the model follows. A loop not
      ended within them is treated as `bc` printing nothing, so the model
      agrees with the C code only when `rounds` is at least the number of
      rounds the loop takes. */
  datatype Calc = Calc(run: string -> Option<string>, rounds: nat)

  // ---------------------------------------------------------------------------
  // l3_is_number
  // ---------------------------------------------------------------------------

  /** The scan after the optional sign: digits, at most one '.', at least one digit. */
  function NumberScan(u: string, hasDot: bool, hasDigit: bool): bool
    decreases |u|
  {
    if |u| == 0 then hasDigit
    else if IsDigit(u[0]) then NumberScan(u[1..], hasDot, true)
    else if u[0] == '.' && !hasDot then NumberScan(u[1..], true, hasDigit)
    else false
  }

  function Unsigned(s: string): string {
    if |s| > 0 && (s[0] == '-' || s[0] == '+') then s[1..] else s
  }

  /** l3_is_number. */
  predicate IsNumber(s: string) {
    |s| > 0 && NumberScan(Unsigned(s), false, false)
  }

  function Dots(u: string): nat {
    if |u| == 0 then 0 else (if u[0] == '.' then 1 else 0) + Dots(u[1..])
  }

  predicate DigitsAndDots(u: string) {
    forall i :: 0 <= i < |u| ==> IsDigit(u[i]) || u[i] == '.'
  }

  predicate HasDigit(u: string) {
    exists i :: 0 <= i < |u| && IsDigit(u[i])
  }

  /** The scan accepts exactly the texts of digits and dots with at most one
      dot (counting one already seen) and a digit (counting one already seen). */
  lemma {:induction false} NumberScanMeaning(u: string, hasDot: bool, hasDigit: bool)
    ensures NumberScan(u, hasDot, hasDigit) <==>
      DigitsAndDots(u) && Dots(u) + (if hasDot then 1 else 0) <= 1 && (hasDigit || HasDigit(u))
    decreases |u|
  {
    if |u| > 0 {
      NumberScanMeaning(u[1..], hasDot || u[0] == '.', hasDigit || IsDigit(u[0]));
      assert forall i :: 0 < i < |u| ==> u[i] == u[1..][i - 1];
      if HasDigit(u[1..]) {
        var i :| 0 <= i < |u[1..]| && IsDigit(u[1..][i]);
        assert IsDigit(u[i + 1]);
      }
      if HasDigit(u) && !IsDigit(u[0]) {
        var i :| 0 <= i < |u| && IsDigit(u[i]);
        assert IsDigit(u[1..][i - 1]);
      }
    }
  }

  /** What "%d" prints is a number to l3_is_number. */
  lemma IntToStringIsNumber(i: int)
    ensures IsNumber(IntToString(i))
  {
    var d := NatToString(if i < 0 then -i else i);
    assert Unsigned(IntToString(i)) == d;
    NumberScanMeaning(d, false, false);
    DigitsHaveNoDot(d);
    assert IsDigit(d[0]);
  }

  lemma {:induction false} DigitsHaveNoDot(d: string)
    requires AllDigits(d)
    ensures Dots(d) == 0
    decreases |d|
  {
    if |d| > 0 {
      DigitsHaveNoDot(d[1..]);
    }
  }

  // ---------------------------------------------------------------------------
  // atof on decimal text
  // ---------------------------------------------------------------------------

  /** The value of the digits after a decimal point. */
  function FracValue(d: string): real
    requires AllDigits(d)
  {
    if |d| == 0 then 0.0 else (DigitValue(d[0]) as real + FracValue(d[1..])) / 10.0
  }

  /** atof on decimal text: leading white space, a sign, digits, and an optional
      fraction after a '.'. */
  function Atof(s: string): real {
    var t := SkipSpace(s);
    var u := Unsigned(t);
    var ip := LeadingDigits(u);
    var rest := u[|ip|..];
    var frac := if |rest| > 0 && rest[0] == '.' then FracValue(LeadingDigits(rest[1..])) else 0.0;
    var m := DigitsValue(ip) as real + frac;
    if |t| > 0 && t[0] == '-' then -m else m
  }

  /** atof reads back what "%d" printed. */
  lemma AtofOfInt(i: int)
    ensures Atof(IntToString(i)) == i as real
  {
    var n: nat := if i < 0 then -i else i;
    var d := NatToString(n);
    var s := IntToString(i);
    SkipSpaceNoSpace(s);
    assert Unsigned(s) == d;
    LeadingDigitsOfDigits(d, "");
    assert d + "" == d;
    NatToStringValue(n);
  }

  // ---------------------------------------------------------------------------
  // Substitution of locals
  // ---------------------------------------------------------------------------

  /** snprintf into a 256-byte buffer keeps at most 255 characters of a name. */
  function SearchKey(key: string): string {
    if |key| > 255 then key[..255] else key
  }

  /** One local of the replacement loop: its first occurrence is replaced when
      no letter or digit touches it on either side; otherwise nothing changes. */
  function SubstituteLocal(s: string, key: string, value: string): string {
    var k := SearchKey(key);
    match Find(s, k)
    case None => s
    case Some(p) =>
      var startOk := p == 0 || !IsAlnum(s[p - 1]);
      var endOk := p + |k| >= |s| || !IsAlnum(s[p + |k|]);
      if startOk && endOk then s[..p] + value + s[p + |k|..] else s
  }

  /** A local name at the start of the text is replaced exactly when no
      letter or digit follows it. */
  lemma SubstituteLocalAtStart(key: string, value: string, rest: string)
    requires |key| <= 255
    ensures SubstituteLocal(key + rest, key, value) ==
      (if |rest| > 0 && IsAlnum(rest[0]) then key + rest else value + rest)
  {
    var s := key + rest;
    assert s[0..|key|] == key;
    assert s[|key|..] == rest;
  }

  /** The locals in slot order, from slot i on. */
  function SubstituteLocals(s: string, locals: Store, i: nat): string
    requires i <= |locals|
    decreases |locals| - i
  {
    if i == |locals| then s
    else SubstituteLocals(SubstituteLocal(s, locals[i].key, locals[i].value), locals, i + 1)
  }

  // ---------------------------------------------------------------------------
  // l3_evaluate_expression
  // ---------------------------------------------------------------------------

  predicate IsOperatorChar(c: char) {
    c == '+' || c == '-' || c == '*' || c == '/' || c == '(' || c == ')'
  }

  // strpbrk(t, "+-*/()")
  predicate HasOperator(t: string) {
    exists i :: 0 <= i < |t| && IsOperatorChar(t[i])
  }

  /** The text the calculator is given for an arithmetic expression: the
      state references replaced by the loop as written, then the locals; None
      when the loop has not ended within `rounds` rounds. */
  function CalcText(t: string, st: Store, locals: Store, rounds: nat): Option<string> {
    match RewriteStates(t, st, rounds)
    case None => None
    case Some(r) => Some(SubstituteLocals(r, locals, 0))
  }

  /** With state values that cannot form references and enough rounds, the
      calculator gets the left-to-right substitution followed by the locals. */
  lemma CalcTextInert(t: string, st: Store, locals: Store, rounds: nat)
    requires InertValues(st) && |t| <= rounds
    ensures CalcText(t, st, locals, rounds) == Some(SubstituteLocals(SubstituteState(t, st), locals, 0))
  {
    RewriteAgreesInert(t, st, rounds);
  }

  /** With a self-referencing state value the calculator is never reached. */
  lemma CalcTextSelfReference(st: Store, locals: Store, n: string, rest: string, rounds: nat)
    requires |n| > 0 && forall i :: 0 <= i < |n| ==> IsNameChar(n[i])
    requires |rest| > 0 ==> !IsNameChar(rest[0])
    requires Lookup(st, n) == Some("state." + n)
    ensures CalcText("state." + n + rest, st, locals, rounds) == None
  {
    RewriteNeverEnds(st, n, rest, rounds);
  }

  /** l3_evaluate_expression on the trimmed text: a quoted text gives its inside;
      a number, true and false give themselves; a text with an operator goes,
      after substitution, to the calculator; then "state.k" gives k's value or
      "0", a local gives its value, and anything else gives the original text.
      A substitution loop not ended within `bc.rounds` rounds is taken as a
      calculator that printed nothing, whether or not the C loop would end
      later; for inert state values the text's length in rounds suffices. */
  function EvalExpr(expr: string, st: Store, locals: Store, bc: Calc): string {
    var t := Trim(expr);
    if |t| > 0 && IsQuote(t[0]) then Unquote(t)
    else if IsNumber(t) || t == "true" || t == "false" then t
    else
      var computed := if HasOperator(t) then
        match CalcText(t, st, locals, bc.rounds)
        case None => None
        case Some(x) => bc.run(x)
      else None;
      if computed.Some? then computed.value
      else if StartsWith(t, "state.") then ValueOr0(st, t[6..])
      else match Lookup(locals, t)
        case Some(v) => v
        case None => expr
  }

  /** A quoted text evaluates to what is between the quotes. */
  lemma EvalQuoted(inner: string, st: Store, locals: Store, bc: Calc)
    ensures EvalExpr("\"" + inner + "\"", st, locals, bc) == inner
  {
    QuotedShape(inner);
    TrimOfUnpadded("\"" + inner + "\"");
  }

  lemma QuotedShape(inner: string)
    ensures var q := "\"" + inner + "\"";
      !IsSpace(q[0]) && !IsSpace(q[|q| - 1]) && IsQuote(q[0]) && Unquote(q) == inner
  {
    var q := "\"" + inner + "\"";
    assert q[1..|q| - 1] == inner;
  }

  /** An integer literal evaluates to itself. */
  lemma EvalIntLiteral(i: int, st: Store, locals: Store, bc: Calc)
    ensures EvalExpr(IntToString(i), st, locals, bc) == IntToString(i)
  {
    var s := IntToString(i);
    IntToStringIsNumber(i);
    var d := NatToString(if i < 0 then -i else i);
    assert !IsSpace(d[0]) && !IsSpace(d[|d| - 1]);
    TrimOfUnpadded(s);
  }

  /** "state.k", for a name k of letters, digits and '_', reads k's value, or "0"
      when the actor has no such key. */
  lemma EvalStateReference(k: string, st: Store, locals: Store, bc: Calc)
    requires |k| > 0 && forall i :: 0 <= i < |k| ==> IsNameChar(k[i])
    ensures EvalExpr("state." + k, st, locals, bc) == ValueOr0(st, k)
  {
    var t := "state." + k;
    StateReferenceShape(k);
    TrimOfUnpadded(t);
    StateReferenceNoOperator(k);
    StateReferenceNotNumber(k);
  }

  lemma StateReferenceShape(k: string)
    requires |k| > 0 && forall i :: 0 <= i < |k| ==> IsNameChar(k[i])
    ensures var t := "state." + k;
      !IsSpace(t[0]) && !IsSpace(t[|t| - 1]) && !IsQuote(t[0]) &&
      t != "true" && t != "false" && StartsWith(t, "state.") && t[6..] == k
  {
    var t := "state." + k;
    assert t[|t| - 1] == k[|k| - 1];
    assert t[0] == 's';
    assert t[..6] == "state.";
  }

  /** A state reference holds none of the characters strpbrk looks for. */
  lemma StateReferenceNoOperator(k: string)
    requires forall i :: 0 <= i < |k| ==> IsNameChar(k[i])
    ensures !HasOperator("state." + k)
  {
    var t := "state." + k;
    forall i | 0 <= i < |t| ensures !IsOperatorChar(t[i]) {
      if i >= 6 {
        assert t[i] == k[i - 6];
      } else {
        assert t[i] == "state."[i];
        assert i == 0 || i == 1 || i == 2 || i == 3 || i == 4 || i == 5;
      }
    }
  }

  lemma StateReferenceNotNumber(k: string)
    ensures !IsNumber("state." + k)
  {
    var t := "state." + k;
    assert Unsigned(t) == t;
    NumberScanMeaning(t, false, false);
    assert !IsDigit(t[0]) && t[0] != '.';
  }

  // ---------------------------------------------------------------------------
  // l3_evaluate_condition
  // ---------------------------------------------------------------------------

  const Operators: seq<string> := ["<=", ">=", "==", "!=", "<", ">"]

  /** The first operator of the list, from index k on, that occurs in t. */
  function FirstOperator(t: string, k: nat): (r: Option<string>)
    requires k <= |Operators|
    decreases |Operators| - k
    ensures r.Some? ==> r.value in Operators && Contains(t, r.value)
  {
    if k == |Operators| then None
    else if Contains(t, Operators[k]) then Some(Operators[k])
    else FirstOperator(t, k + 1)
  }

  /** The comparison of two evaluated sides: numeric for the orderings; "=="
      holds when the numbers or the texts agree, "!=" when both differ. */
  function Compare(op: string, l: string, r: string): bool {
    var a, b := Atof(l), Atof(r);
    if op == "<" then a < b
    else if op == ">" then a > b
    else if op == "<=" then a <= b
    else if op == ">=" then a >= b
    else if op == "==" then a == b || l == r
    else if op == "!=" then a != b && l != r
    else false
  }

  /** l3_evaluate_condition: split at the first listed operator that occurs,
      evaluate both trimmed sides and compare; with no operator, the value is
      true when it is "true" or atoi reads a non-zero number from it. */
  function EvalCond(cond: string, st: Store, locals: Store, bc: Calc): bool {
    var t := Trim(cond);
    match FirstOperator(t, 0)
    case Some(op) =>
      var p := Find(t, op).value;
      Compare(op, EvalExpr(Trim(t[..p]), st, locals, bc), EvalExpr(Trim(t[p + |op|..]), st, locals, bc))
    case None =>
      var v := EvalExpr(t, st, locals, bc);
      v == "true" || Atoi(v) != 0
  }

  /** "!=" is exactly the negation of "==". */
  lemma NotEqualNegatesEqual(l: string, r: string)
    ensures Compare("!=", l, r) == !Compare("==", l, r)
  {
  }

  /** The comparison of two texts whose atof values are known. */
  lemma CompareValues(op: string, l: string, r: string, a: real, b: real)
    requires Atof(l) == a && Atof(r) == b && (l == r ==> a == b)
    ensures op == "<" ==> Compare(op, l, r) == (a < b)
    ensures op == "<=" ==> Compare(op, l, r) == (a <= b)
    ensures op == ">" ==> Compare(op, l, r) == (a > b)
    ensures op == ">=" ==> Compare(op, l, r) == (a >= b)
    ensures op == "==" ==> Compare(op, l, r) == (a == b)
    ensures op == "!=" ==> Compare(op, l, r) == (a != b)
  {
  }

  /** Integers printed by "%d" compare as the integers they spell. */
  lemma CompareInts(op: string, x: int, y: int)
    requires op in Operators
    ensures op == "<" ==> Compare(op, IntToString(x), IntToString(y)) == (x < y)
    ensures op == "<=" ==> Compare(op, IntToString(x), IntToString(y)) == (x <= y)
    ensures op == ">" ==> Compare(op, IntToString(x), IntToString(y)) == (x > y)
    ensures op == ">=" ==> Compare(op, IntToString(x), IntToString(y)) == (x >= y)
    ensures op == "==" ==> Compare(op, IntToString(x), IntToString(y)) == (x == y)
    ensures op == "!=" ==> Compare(op, IntToString(x), IntToString(y)) == (x != y)
  {
    AtofOfInt(x);
    AtofOfInt(y);
    CompareValues(op, IntToString(x), IntToString(y), x as real, y as real);
  }

  /** No listed operator from index k on occurs: there is no operator. */
  lemma {:induction false} NoFirstOperator(t: string, k: nat)
    requires k <= |Operators|
    requires forall j :: k <= j < |Operators| ==> !Contains(t, Operators[j])
    ensures FirstOperator(t, k) == None
    decreases |Operators| - k
  {
    if k < |Operators| {
      NoFirstOperator(t, k + 1);
    }
  }

  /** A run of digits holds none of the comparison operators. */
  lemma NoOperatorInDigits(d: string)
    requires AllDigits(d)
    ensures forall k :: 0 <= k < |Operators| ==> !Contains(d, Operators[k])
  {
    forall k, j: nat | 0 <= k < |Operators| && j + |Operators[k]| <= |d|
      ensures !OccursAt(d, Operators[k], j)
    {
      assert d[j..j + |Operators[k]|][0] == d[j];
    }
  }

  /** A trimmed condition with no operator is decided by its value alone. */
  lemma CondWithoutOperator(t: string, st: Store, locals: Store, bc: Calc)
    requires Trim(t) == t
    requires forall k :: 0 <= k < |Operators| ==> !Contains(t, Operators[k])
    ensures EvalCond(t, st, locals, bc) ==
      (EvalExpr(t, st, locals, bc) == "true" || Atoi(EvalExpr(t, st, locals, bc)) != 0)
  {
    NoFirstOperator(t, 0);
  }

  /** With no operator, an integer literal is true exactly when it is not zero. */
  lemma TruthOfInt(i: int, st: Store, locals: Store, bc: Calc)
    requires i >= 0
    ensures EvalCond(IntToString(i), st, locals, bc) == (i != 0)
  {
    NaturalLiteral(i);
    EvalIntLiteral(i, st, locals, bc);
    TruthOfLiteral(IntToString(i), i, st, locals, bc);
  }

  /** A trimmed text with no operator that evaluates to itself and that atoi
      reads as i is true exactly when i is not zero. */
  lemma TruthOfLiteral(s: string, i: int, st: Store, locals: Store, bc: Calc)
    requires Trim(s) == s && s != "true" && Atoi(s) == i
    requires forall k :: 0 <= k < |Operators| ==> !Contains(s, Operators[k])
    requires EvalExpr(s, st, locals, bc) == s
    ensures EvalCond(s, st, locals, bc) == (i != 0)
  {
    CondWithoutOperator(s, st, locals, bc);
  }

  /** The text "%d" prints for a natural number: unpadded digits, no
      comparison operator, not "true", and atoi reads the number back. */
  lemma NaturalLiteral(i: int)
    requires i >= 0
    ensures var s := IntToString(i);
      Trim(s) == s && s != "true" && Atoi(s) == i &&
      forall k :: 0 <= k < |Operators| ==> !Contains(s, Operators[k])
  {
    var s := IntToString(i);
    assert s == NatToString(i);
    assert !IsSpace(s[0]) && !IsSpace(s[|s| - 1]);
    TrimOfUnpadded(s);
    NoOperatorInDigits(s);
    IntToStringRoundTrip(i, "");
    assert s + "" == s;
    assert s != "true" by { assert IsDigit(s[0]); }
  }
}
