// The four-byte gate record shared by the minimal reversible runtimes, the
// meaning of each gate on a row of classical bits, and the text form
// "CCNOT 0 1 2" that the records are printed to and parsed from.

module BitGates {
  import opened CStrings

  /** An unsigned char. */
  type Byte = x: nat | x < 256

  /** Gate code 0 = CCNOT, 1 = CNOT, 2 = NOT, 3 = SWAP, and three operand indices. */
  datatype GateCell = GateCell(gate: Byte, a: Byte, b: Byte, c: Byte)

  const CCNOT: Byte := 0
  const CNOT: Byte := 1
  const NOT: Byte := 2
  const SWAP: Byte := 3

  /** The record a gate call stores: the operands the gate does not use are zero. */
  function Record(g: GateCell): GateCell {
    match g.gate
    case 0 => g
    case 1 => GateCell(CNOT, g.a, g.b, 0)
    case 2 => GateCell(NOT, g.a, 0, 0)
    case 3 => GateCell(SWAP, g.a, g.b, 0)
    case _ => g
  }

  /** A cell as a gate call records it. */
  predicate Normal(g: GateCell) { Record(g) == g }

  /** The operands the gate reads and writes index a row of `n` bits. */
  predicate InRange(g: GateCell, n: nat) {
    match g.gate
    case 0 => g.a < n && g.b < n && g.c < n
    case 1 | 3 => g.a < n && g.b < n
    case 2 => g.a < n
    case _ => true
  }

  predicate AllInRange(gs: seq<GateCell>, n: nat) {
    forall i :: 0 <= i < |gs| ==> InRange(gs[i], n)
  }

  /** The effect of one gate on the bits; a code above 3 does nothing. CCNOT
      flips c when a and b are set, CNOT flips b when a is set, NOT flips a and
      SWAP exchanges a and b. Each test reads the bits before the flip. */
  function Apply(bits: seq<bool>, g: GateCell): (r: seq<bool>)
    requires InRange(g, |bits|)
    ensures |r| == |bits|
  {
    match g.gate
    case 0 => if bits[g.a] && bits[g.b] then bits[g.c := !bits[g.c]] else bits
    case 1 => if bits[g.a] then bits[g.b := !bits[g.b]] else bits
    case 2 => bits[g.a := !bits[g.a]]
    case 3 => bits[g.a := bits[g.b]][g.b := bits[g.a]]
    case _ => bits
  }

  /** The operands for which a gate undoes itself: the target of CCNOT is
      neither control, and the control of CNOT is not its target. */
  predicate SelfInverse(g: GateCell) {
    (g.gate == CCNOT ==> g.c != g.a && g.c != g.b) &&
    (g.gate == CNOT ==> g.a != g.b)
  }

  /** Executing a gate again undoes it when its operands are self-inverse. */
  lemma ApplyTwice(bits: seq<bool>, g: GateCell)
    requires InRange(g, |bits|) && SelfInverse(g)
    ensures Apply(Apply(bits, g), g) == bits
  {
    if g.gate == SWAP {
      assert forall i :: 0 <= i < |bits| ==> Apply(Apply(bits, g), g)[i] == bits[i];
    }
  }

  /** A gate whose target is one of its controls is not undone by running it
      again: with the controls set, the second run no longer sees them set. */
  lemma AliasedNotUndone(bits: seq<bool>, g: GateCell)
    requires InRange(g, |bits|) && !SelfInverse(g)
    requires bits[g.a] && bits[g.b]
    ensures Apply(Apply(bits, g), g) != bits
  {
    var once := Apply(bits, g);
    if g.gate == CCNOT {
      assert !once[g.c];
      assert Apply(once, g)[g.c] != bits[g.c];
    } else {
      assert !once[g.b];
      assert Apply(once, g)[g.b] != bits[g.b];
    }
  }

  // ---------------------------------------------------------------------------
  // Running a history forwards and unwinding it backwards
  // ---------------------------------------------------------------------------

  /** The bits after executing the gates in order. */
  function Run(bits: seq<bool>, gs: seq<GateCell>): (r: seq<bool>)
    requires AllInRange(gs, |bits|)
    ensures |r| == |bits|
    decreases |gs|
  {
    if |gs| == 0 then bits else Apply(Run(bits, gs[..|gs| - 1]), gs[|gs| - 1])
  }

  /** The bits after re-executing the gates from the last to the first, as
      popping a history does. */
  function Unwind(bits: seq<bool>, gs: seq<GateCell>): (r: seq<bool>)
    requires AllInRange(gs, |bits|)
    ensures |r| == |bits|
    decreases |gs|
  {
    if |gs| == 0 then bits else Apply(Unwind(bits, gs[1..]), gs[0])
  }

  lemma RunSnoc(bits: seq<bool>, gs: seq<GateCell>, g: GateCell)
    requires AllInRange(gs, |bits|) && InRange(g, |bits|)
    ensures AllInRange(gs + [g], |bits|)
    ensures Run(bits, gs + [g]) == Apply(Run(bits, gs), g)
  {
    assert (gs + [g])[..|gs|] == gs;
  }

  /** Unwinding a history whose last gate is `g` starts by executing `g`. */
  lemma {:induction false} UnwindSnoc(bits: seq<bool>, gs: seq<GateCell>, g: GateCell)
    requires AllInRange(gs, |bits|) && InRange(g, |bits|)
    ensures AllInRange(gs + [g], |bits|)
    ensures Unwind(bits, gs + [g]) == Unwind(Apply(bits, g), gs)
    decreases |gs|
  {
    if |gs| > 0 {
      assert (gs + [g])[1..] == gs[1..] + [g];
      UnwindSnoc(bits, gs[1..], g);
    } else {
      assert (gs + [g])[1..] == [];
    }
  }

  /** Unwinding what was run gives back the bits it started from, when every
      gate in the history undoes itself. */
  lemma {:induction false} UnwindRun(bits: seq<bool>, gs: seq<GateCell>)
    requires AllInRange(gs, |bits|)
    requires forall i :: 0 <= i < |gs| ==> SelfInverse(gs[i])
    ensures Unwind(Run(bits, gs), gs) == bits
    decreases |gs|
  {
    if |gs| > 0 {
      var p := gs[..|gs| - 1];
      var g := gs[|gs| - 1];
      assert gs == p + [g];
      var before := Run(bits, p);
      UnwindSnoc(Apply(before, g), p, g);
      ApplyTwice(before, g);
      UnwindRun(bits, p);
    }
  }

  // ---------------------------------------------------------------------------
  // Text form: "%s %d %d %d" and sscanf with "%hhu"
  // ---------------------------------------------------------------------------

  function GateName(code: Byte): (s: string)
    requires code < 4
  {
    if code == CCNOT then "CCNOT" else if code == CNOT then "CNOT" else if code == NOT then "NOT" else "SWAP"
  }

  /** One printed operand: a space, then the index in decimal. */
  function Spaced(x: Byte): (r: string)
    ensures |r| > 1 && r[0] == ' '
  {
    " " + NatToString(x)
  }

  /** The three printed operands. */
  function Operands(g: GateCell): string {
    Spaced(g.a) + (Spaced(g.b) + Spaced(g.c))
  }

  /** The text of a cell: its gate name and all three indices. A code above 3
      indexes past the name table, so the printer is only given codes 0..3. */
  function Print(g: GateCell): string
    requires g.gate < 4
  {
    GateName(g.gate) + Operands(g)
  }

  /** One "%hhu" conversion: white space, an optional sign, then at least one
      digit; the value is reduced modulo 256 by the store into an unsigned char.
      None is a matching failure, which ends the scan. */
  function ScanByte(s: string): Option<(Byte, string)> {
    ScanNumber(SkipSpace(s))
  }

  /** The conversion after the white space. */
  function ScanNumber(t: string): Option<(Byte, string)> {
    var u := Unsigned(t);
    var d := LeadingDigits(u);
    if |d| == 0 then None
    else Some((Wrap(|t| > 0 && t[0] == '-', DigitsValue(d)), u[|d|..]))
  }

  /** The text after an optional sign. */
  function Unsigned(t: string): string {
    if |t| > 0 && (t[0] == '-' || t[0] == '+') then t[1..] else t
  }

  /** A converted value stored into an unsigned char. */
  function Wrap(negative: bool, v: nat): Byte {
    (if negative then -(v as int) else v as int) % 256
  }

  /** Up to `k` conversions, stopping at the first failure. */
  function ScanBytes(s: string, k: nat): (r: seq<Byte>)
    ensures |r| <= k
    decreases k
  {
    if k == 0 then []
    else match ScanByte(s)
      case None => []
      case Some((v, rest)) => [v] + ScanBytes(rest, k - 1)
  }

  /** sscanf(s, "<name> %hhu ...", ...): the name must stand at the very start. */
  function Scan(s: string, name: string, k: nat): (r: seq<Byte>)
    ensures |r| <= k
  {
    if StartsWith(s, name) then ScanBytes(s[|name|..], k) else []
  }

  /** The i-th converted value, or the 0 the cell was initialised with. */
  function Field(f: seq<Byte>, i: nat): Byte {
    if i < |f| then f[i] else 0
  }

  /** The parser: it looks for CCNOT, CNOT, NOT and SWAP anywhere in the text,
      in that order, and reads as many operands as that gate has; a text
      naming none of them gives the all-zero cell. */
  function Parse(s: string): GateCell {
    if Contains(s, "CCNOT") then
      var f := Scan(s, "CCNOT", 3);
      GateCell(CCNOT, Field(f, 0), Field(f, 1), Field(f, 2))
    else if Contains(s, "CNOT") then
      var f := Scan(s, "CNOT", 2);
      GateCell(CNOT, Field(f, 0), Field(f, 1), 0)
    else if Contains(s, "NOT") then
      var f := Scan(s, "NOT", 1);
      GateCell(NOT, Field(f, 0), 0, 0)
    else if Contains(s, "SWAP") then
      var f := Scan(s, "SWAP", 2);
      GateCell(SWAP, Field(f, 0), Field(f, 1), 0)
    else GateCell(0, 0, 0, 0)
  }

  /** The parser gives a cell as a gate call records it, and the all-zero
      cell for a text naming no gate. */
  lemma ParseNormal(s: string)
    ensures var g := Parse(s); g.gate < 4 && Normal(g)
    ensures !Contains(s, "CCNOT") && !Contains(s, "CNOT") && !Contains(s, "NOT") && !Contains(s, "SWAP") ==>
      Parse(s) == GateCell(0, 0, 0, 0)
  {
  }

  /** A pattern one of whose characters never appears at or after its own
      offset in the text does not occur in the text. */
  lemma Missing(s: string, pat: string, k: nat)
    requires k < |pat|
    requires forall i :: k <= i < |s| ==> s[i] != pat[k]
    ensures !Contains(s, pat)
  {
    forall j | 0 <= j ensures !OccursAt(s, pat, j) {
      if j + |pat| <= |s| {
        assert s[j..j + |pat|][k] == s[j + k];
      }
    }
  }

  predicate SpaceOrDigit(s: string) {
    forall i :: 0 <= i < |s| ==> s[i] == ' ' || IsDigit(s[i])
  }

  lemma OperandsSpaceOrDigit(g: GateCell)
    ensures SpaceOrDigit(Operands(g))
  {
    var sa, sb, sc := Spaced(g.a), Spaced(g.b), Spaced(g.c);
    assert SpaceOrDigit(sa) && SpaceOrDigit(sb) && SpaceOrDigit(sc);
    assert SpaceOrDigit(sb + sc);
  }

  lemma WrapSmall(v: nat)
    requires v < 256
    ensures Wrap(false, v) == v
  {
  }

  /** Converting a run of digits followed by a space or the end. */
  lemma ScanNumberDigits(d: string, rest: string)
    requires |d| > 0 && AllDigits(d) && DigitsValue(d) < 256
    requires |rest| > 0 ==> rest[0] == ' '
    ensures ScanNumber(d + rest) == Some((DigitsValue(d), rest))
  {
    var t := d + rest;
    assert t[0] == d[0] && IsDigit(d[0]);
    assert Unsigned(t) == t;
    LeadingDigitsOfDigits(d, rest);
    assert t[|d|..] == rest;
    WrapSmall(DigitsValue(d));
  }

  /** Reading back one printed operand. */
  lemma ScanStep(x: Byte, rest: string, k: nat)
    requires |rest| > 0 ==> rest[0] == ' '
    ensures ScanBytes(Spaced(x) + rest, k + 1) == [x] + ScanBytes(rest, k)
  {
    var d := NatToString(x);
    assert Spaced(x) + rest == " " + (d + rest);
    TrimLeftSpaces(" ", d + rest);
    NatToStringValue(x);
    ScanNumberDigits(d, rest);
  }

  lemma ScanLast(x: Byte)
    ensures ScanBytes(Spaced(x), 1) == [x]
  {
    ScanStep(x, "", 0);
    assert Spaced(x) + "" == Spaced(x);
  }

  lemma ScanTail(g: GateCell)
    ensures ScanBytes(Spaced(g.b) + Spaced(g.c), 2) == [g.b, g.c]
  {
    ScanStep(g.b, Spaced(g.c), 1);
    ScanLast(g.c);
  }

  /** Reading back the first printed operand. */
  lemma ScanOne(g: GateCell)
    ensures ScanBytes(Operands(g), 1) == [g.a]
  {
    ScanStep(g.a, Spaced(g.b) + Spaced(g.c), 0);
  }

  /** Reading back the first two printed operands. */
  lemma ScanTwo(g: GateCell)
    ensures ScanBytes(Operands(g), 2) == [g.a, g.b]
  {
    var tail := Spaced(g.b) + Spaced(g.c);
    ScanStep(g.a, tail, 1);
    ScanStep(g.b, Spaced(g.c), 0);
    assert ScanBytes(Spaced(g.c), 0) == [];
    assert ScanBytes(tail, 1) == [g.b];
  }

  /** Reading back all three printed operands. */
  lemma ScanThree(g: GateCell)
    ensures ScanBytes(Operands(g), 3) == [g.a, g.b, g.c]
  {
    var tail := Spaced(g.b) + Spaced(g.c);
    ScanStep(g.a, tail, 2);
    ScanTail(g);
    assert ScanBytes(Operands(g), 3) == [g.a] + ScanBytes(tail, 2);
  }

  lemma StartsWithName(name: string, rest: string)
    ensures StartsWith(name + rest, name) && Contains(name + rest, name)
    ensures (name + rest)[|name|..] == rest
  {
    assert OccursAt(name + rest, name, 0);
  }

  /** Printing then parsing gives back the cell with its unused operands
      cleared, so the round trip is exact precisely for the cells a gate call
      records. */
  lemma ParsePrint(g: GateCell)
    requires g.gate < 4
    ensures Parse(Print(g)) == Record(g)
    ensures Parse(Print(g)) == g <==> Normal(g)
  {
    var ops := Operands(g);
    var s := Print(g);
    OperandsSpaceOrDigit(g);
    StartsWithName(GateName(g.gate), ops);
    if g.gate == CCNOT {
      ScanThree(g);
    } else if g.gate == CNOT {
      Missing(s, "CCNOT", 1);
      ScanTwo(g);
    } else if g.gate == NOT {
      Missing(s, "CCNOT", 0);
      Missing(s, "CNOT", 0);
      ScanOne(g);
    } else {
      Missing(s, "CCNOT", 0);
      Missing(s, "CNOT", 0);
      Missing(s, "NOT", 0);
      ScanTwo(g);
    }
  }

  /** The text of a parsed cell parses to the same cell. */
  lemma PrintParse(s: string)
    ensures Parse(Print(Parse(s))) == Parse(s)
  {
    ParseNormal(s);
    ParsePrint(Parse(s));
  }
}
