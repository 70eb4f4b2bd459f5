// The "state.X" substitution of l3_evaluate_expression: the reference a
// text holds first, the loop as written that replaces one reference per round
// and searches again from the start, and the left-to-right substitution that
// replaces each reference once.

module L3Substitute {
  import opened CStrings
  import opened L3Store

  predicate IsNameChar(c: char) { IsAlnum(c) || c == '_' }

  /** The longest prefix of letters, digits and '_' (the name after "state."). */
  function LeadingName(s: string): (r: string)
    ensures |r| <= |s| && r == s[..|r|]
    ensures forall i :: 0 <= i < |r| ==> IsNameChar(r[i])
    ensures |r| < |s| ==> !IsNameChar(s[|r|])
  {
    if |s| > 0 && IsNameChar(s[0]) then
      var r := [s[0]] + LeadingName(s[1..]);
      assert s[..|r|] == [s[0]] + s[1..][..|r| - 1];
      r
    else ""
  }

  /** A state value, or "0" for a key that is not there. */
  function ValueOr0(st: Store, key: string): string {
    match Lookup(st, key)
    case Some(v) => v
    case None => "0"
  }

  /** The first "state.X" of a text: what comes before it, the name X and
      what follows the name. */
  datatype Reference = Reference(before: string, name: string, after: string)

  /** The reference whose "state." starts at index k. */
  function ReferenceFrom(s: string, k: nat): (r: Reference)
    requires k + 6 <= |s|
    ensures |r.after| < |s|
  {
    var n := LeadingName(s[k + 6..]);
    Reference(s[..k], n, s[k + 6 + |n|..])
  }

  function FirstReference(s: string): (r: Option<Reference>)
    ensures r.Some? ==> |r.value.after| < |s|
  {
    match Find(s, "state.")
    case None => None
    case Some(p) => Some(ReferenceFrom(s, p))
  }

  /** One round of the substitution loop as written: the first "state.X" is
      replaced by X's value, and the loop searches the new text from its start. */
  function StateRewriteStep(s: string, st: Store): string {
    match FirstReference(s)
    case None => s
    case Some(x) => x.before + ValueOr0(st, x.name) + x.after
  }

  /** The substitution evidently intended: every "state.X" of the text is
      replaced by X's value, left to right, and a value put in is not scanned again. */
  function SubstituteState(s: string, st: Store): string
    decreases |s|
  {
    match FirstReference(s)
    case None => s
    case Some(x) => x.before + ValueOr0(st, x.name) + SubstituteState(x.after, st)
  }

  /** The substitution loop as written, followed for at most `rounds` rounds:
      the text once no "state." is left in it, or None when a reference is
      still there after `rounds` rounds. */
  function RewriteStates(s: string, st: Store, rounds: nat): (r: Option<string>)
    decreases rounds
    ensures r.Some? ==> !Contains(r.value, "state.")
    ensures !Contains(s, "state.") ==> r == Some(s)
  {
    if !Contains(s, "state.") then Some(s)
    else if rounds == 0 then None
    else RewriteStates(StateRewriteStep(s, st), st, rounds - 1)
  }

  /** Once the loop has ended within some number of rounds, allowing more
      rounds changes nothing: the bound only cuts off loops that never end. */
  lemma RewriteStatesMore(s: string, st: Store, n: nat, m: nat)
    requires n <= m && RewriteStates(s, st, n).Some?
    ensures RewriteStates(s, st, m) == RewriteStates(s, st, n)
    decreases n
  {
    if Contains(s, "state.") {
      RewriteStatesMore(StateRewriteStep(s, st), st, n - 1, m - 1);
    }
  }

  /** A state value that spells its own reference leaves the text as it was,
      so the loop `while (strstr(replaced, "state."))` runs forever. */
  lemma StateRewriteStuck(st: Store, n: string, rest: string)
    requires |n| > 0 && forall i :: 0 <= i < |n| ==> IsNameChar(n[i])
    requires |rest| > 0 ==> !IsNameChar(rest[0])
    requires Lookup(st, n) == Some("state." + n)
    ensures StateRewriteStep("state." + n + rest, st) == "state." + n + rest
  {
    LeadingReference(n, rest);
    assert "" + ValueOr0(st, n) + rest == "state." + n + rest;
  }

  /** However many rounds are allowed, the loop as written does not end on a
      self-referencing value. */
  lemma {:induction false} RewriteNeverEnds(st: Store, n: string, rest: string, rounds: nat)
    requires |n| > 0 && forall i :: 0 <= i < |n| ==> IsNameChar(n[i])
    requires |rest| > 0 ==> !IsNameChar(rest[0])
    requires Lookup(st, n) == Some("state." + n)
    ensures RewriteStates("state." + n + rest, st, rounds) == None
    decreases rounds
  {
    var s := "state." + n + rest;
    assert OccursAt(s, "state.", 0);
    StateRewriteStuck(st, n, rest);
    if rounds > 0 {
      RewriteNeverEnds(st, n, rest, rounds - 1);
    }
  }

  /** A text that starts with a reference has it as its first one. */
  lemma LeadingReference(n: string, rest: string)
    requires forall i :: 0 <= i < |n| ==> IsNameChar(n[i])
    requires |rest| > 0 ==> !IsNameChar(rest[0])
    ensures FirstReference("state." + n + rest) == Some(Reference("", n, rest))
  {
    var s := "state." + n + rest;
    assert OccursAt(s, "state.", 0);
    assert Find(s, "state.") == Some(0);
    assert s[6..] == n + rest;
    LeadingNameOf(n, rest);
    assert s[6 + |n|..] == rest;
  }

  lemma {:induction false} LeadingNameOf(n: string, rest: string)
    requires forall i :: 0 <= i < |n| ==> IsNameChar(n[i])
    requires |rest| > 0 ==> !IsNameChar(rest[0])
    ensures LeadingName(n + rest) == n
    decreases |n|
  {
    if |n| > 0 {
      assert (n + rest)[1..] == n[1..] + rest;
      LeadingNameOf(n[1..], rest);
    } else {
      assert n + rest == rest;
    }
  }

  /** A text without the pattern has no occurrence in its tail either. */
  lemma NotInSuffix(a: string, b: string, pat: string)
    requires !Contains(a + b, pat)
    ensures !Contains(b, pat)
  {
    if Contains(b, pat) {
      FindFirst(a + b, pat);
      var j := Find(b, pat).value;
      assert (a + b)[|a| + j..|a| + j + |pat|] == b[j..j + |pat|];
      assert OccursAt(a + b, pat, |a| + j);
    }
  }

  /** Where the loop as written stops after one round, the intended
      substitution gives the same text. */
  lemma SubstituteAgreesOneStep(s: string, st: Store)
    requires !Contains(StateRewriteStep(s, st), "state.")
    ensures SubstituteState(s, st) == StateRewriteStep(s, st)
  {
    match FirstReference(s)
    case None =>
    case Some(x) =>
      NotInSuffix(x.before + ValueOr0(st, x.name), x.after, "state.");
      SubstituteWithoutReference(x.after, st);
  }

  /** A text with no "state." is left as it is. */
  lemma SubstituteWithoutReference(s: string, st: Store)
    requires !Contains(s, "state.")
    ensures SubstituteState(s, st) == s
  {
  }
}
