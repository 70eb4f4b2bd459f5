// When the substitution loop as written agrees with the left-to-right
// substitution: after a prefix in which no reference can start, the loop
// works on the rest alone, so with state values that cannot help to form a
// reference it ends and replaces each reference once.

module L3Rewrite {
  import opened CStrings
  import opened L3Store
  import opened L3Substitute

  /** A text that holds no "state." and does not end in one of its
      characters: no reference can start inside it, whatever follows it. */
  predicate Settled(p: string) {
    !Contains(p, "state.") && (|p| == 0 || p[|p| - 1] !in "state.")
  }

  /** A state value that cannot help to form a reference: not empty, holding
      no "state.", and neither starting nor ending with one of its characters.
      Integers printed by "%d", decimals such as "2.5" and words such as "on"
      are such values. */
  predicate Inert(v: string) {
    |v| > 0 && v[0] !in "state." && v[|v| - 1] !in "state." && !Contains(v, "state.")
  }

  predicate InertValues(st: Store) {
    forall j :: 0 <= j < |st| ==> Inert(st[j].value)
  }

  lemma InertValueOr0(st: Store, key: string)
    requires InertValues(st)
    ensures Inert(ValueOr0(st, key))
  {
    match KeyIndex(st, key)
    case Some(i) =>
      assert ValueOr0(st, key) == st[i].value;
    case None =>
      assert ValueOr0(st, key) == "0";
      assert Find("0", "state.") == None;
  }

  /** An occurrence found by position is found by strstr. */
  lemma OccursContains(s: string, pat: string, i: nat)
    requires OccursAt(s, pat, i)
    ensures Contains(s, pat)
  {
    FindFirst(s, pat);
  }

  /** strstr's answer from its characterisation: the first occurrence. */
  lemma FindIs(s: string, pat: string, k: nat)
    requires OccursAt(s, pat, k) && forall j :: 0 <= j < k ==> !OccursAt(s, pat, j)
    ensures Find(s, pat) == Some(k)
  {
    FindFirst(s, pat);
  }

  lemma FindNone(s: string, pat: string)
    requires forall j :: 0 <= j ==> !OccursAt(s, pat, j)
    ensures Find(s, pat) == None
  {
    FindFirst(s, pat);
  }

  /** Every character an occurrence covers is a character of the pattern. */
  lemma CrossingChar(s: string, pat: string, i: nat, k: nat)
    requires OccursAt(s, pat, i) && i <= k < i + |pat|
    ensures s[k] in pat
  {
    assert s[k] == s[i..i + |pat|][k - i];
  }

  /** No occurrence of the pattern starts inside a prefix that holds none and
      whose last character is not in it. */
  lemma NoEarlyOccurrence(p: string, a: string, pat: string, i: nat)
    requires !Contains(p, pat) && (|p| == 0 || p[|p| - 1] !in pat) && i < |p|
    ensures !OccursAt(p + a, pat, i)
  {
    var s := p + a;
    if OccursAt(s, pat, i) {
      if i + |pat| <= |p| {
        assert s[i..i + |pat|] == p[i..i + |pat|];
        OccursContains(p, pat, i);
      } else {
        CrossingChar(s, pat, i, |p| - 1);
      }
    }
  }

  /** Occurrences past the prefix are the rest's occurrences, shifted. */
  lemma ShiftedOccurrence(p: string, a: string, pat: string, i: nat)
    requires |p| <= i
    ensures OccursAt(p + a, pat, i) <==> OccursAt(a, pat, i - |p|)
  {
    if i + |pat| <= |p + a| {
      assert (p + a)[i..i + |pat|] == a[i - |p|..i - |p| + |pat|];
    }
  }

  /** Two texts without the pattern joined where one of the two touching
      characters is not in it: the join has no occurrence either. */
  lemma NoStraddle(a: string, b: string, pat: string)
    requires !Contains(a, pat) && !Contains(b, pat)
    requires |a| == 0 || |b| == 0 || a[|a| - 1] !in pat || b[0] !in pat
    ensures !Contains(a + b, pat)
  {
    var s := a + b;
    FindFirst(b, pat);
    forall i: nat ensures !OccursAt(s, pat, i) {
      if i + |pat| <= |a| {
        if OccursAt(s, pat, i) {
          assert s[i..i + |pat|] == a[i..i + |pat|];
          OccursContains(a, pat, i);
        }
      } else if i >= |a| {
        ShiftedOccurrence(a, b, pat, i);
      } else if OccursAt(s, pat, i) {
        CrossingChar(s, pat, i, |a| - 1);
        CrossingChar(s, pat, i, |a|);
      }
    }
    FindNone(s, pat);
  }

  /** Behind a settled prefix, strstr finds what it finds in the rest, shifted
      by the prefix's length. */
  lemma FindShift(p: string, a: string, pat: string)
    requires !Contains(p, pat) && (|p| == 0 || p[|p| - 1] !in pat)
    ensures Find(p + a, pat) == (match Find(a, pat) case None => None case Some(j) => Some(|p| + j))
  {
    var s := p + a;
    FindFirst(a, pat);
    forall i: nat | i < |p| ensures !OccursAt(s, pat, i) {
      NoEarlyOccurrence(p, a, pat, i);
    }
    forall i: nat | |p| <= i ensures OccursAt(s, pat, i) <==> OccursAt(a, pat, i - |p|) {
      ShiftedOccurrence(p, a, pat, i);
    }
    match Find(a, pat)
    case None =>
      FindNone(s, pat);
    case Some(j) =>
      FindIs(s, pat, |p| + j);
  }

  lemma SliceShift(p: string, a: string, k: nat)
    requires k <= |a|
    ensures (p + a)[|p| + k..] == a[k..] && (p + a)[..|p| + k] == p + a[..k]
  {
  }

  /** A reference at index j of the rest is, behind a prefix, the same
      reference with the prefix put before it. */
  lemma ReferenceFromShift(p: string, a: string, j: nat)
    requires j + 6 <= |a|
    ensures var x := ReferenceFrom(a, j);
      ReferenceFrom(p + a, |p| + j) == Reference(p + x.before, x.name, x.after)
  {
    var n := LeadingName(a[j + 6..]);
    SliceShift(p, a, j + 6);
    assert LeadingName((p + a)[|p| + j + 6..]) == n;
    SliceShift(p, a, j + 6 + |n|);
    SliceShift(p, a, j);
  }

  /** The reference strstr finds at index j of the rest, found at the
      shifted index of the whole. */
  lemma ShiftFound(p: string, a: string, j: nat)
    requires Find(a, "state.") == Some(j) && Find(p + a, "state.") == Some(|p| + j)
    ensures FirstReference(p + a) ==
      Some(Reference(p + FirstReference(a).value.before, FirstReference(a).value.name, FirstReference(a).value.after))
  {
    assert FirstReference(a) == Some(ReferenceFrom(a, j));
    assert FirstReference(p + a) == Some(ReferenceFrom(p + a, |p| + j));
    ReferenceFromShift(p, a, j);
  }

  /** Behind a settled prefix, the first reference is the rest's first one. */
  lemma ShiftReference(p: string, a: string)
    requires Settled(p)
    ensures FirstReference(p + a) ==
      (match FirstReference(a) case None => None case Some(x) => Some(Reference(p + x.before, x.name, x.after)))
  {
    FindShift(p, a, "state.");
    match Find(a, "state.")
    case None =>
    case Some(j) =>
      ShiftFound(p, a, j);
  }

  lemma Regroup(p: string, b: string, v: string, c: string)
    ensures (p + b) + v + c == p + (b + v + c)
  {
  }

  /** Behind a settled prefix, one round of the loop as written rewrites the
      rest alone. */
  lemma StepShift(p: string, a: string, st: Store)
    requires Settled(p)
    ensures Contains(p + a, "state.") <==> Contains(a, "state.")
    ensures StateRewriteStep(p + a, st) == p + StateRewriteStep(a, st)
  {
    FindShift(p, a, "state.");
    ShiftReference(p, a);
    match FirstReference(a)
    case None =>
    case Some(x) =>
      Regroup(p, x.before, ValueOr0(st, x.name), x.after);
  }

  /** Behind a settled prefix, the loop as written works on the rest alone. */
  lemma PrefixRewrite(p: string, a: string, st: Store, rounds: nat)
    requires Settled(p)
    ensures RewriteStates(p + a, st, rounds) ==
      (match RewriteStates(a, st, rounds) case None => None case Some(r) => Some(p + r))
    decreases rounds
  {
    StepShift(p, a, st);
    if Contains(a, "state.") && rounds > 0 {
      PrefixRewrite(p, StateRewriteStep(a, st), st, rounds - 1);
    }
  }

  /** Behind a settled prefix, a loop that ends on the rest ends on the whole
      with the prefix in front. */
  lemma PrefixFinished(p: string, a: string, st: Store, rounds: nat, r: string)
    requires Settled(p) && RewriteStates(a, st, rounds) == Some(r)
    ensures RewriteStates(p + a, st, rounds) == Some(p + r)
  {
    PrefixRewrite(p, a, st, rounds);
  }

  /** With inert values, one round of the loop as written leaves a settled
      text followed by the rest after the first reference, and the
      left-to-right substitution does the same before going on. */
  lemma OneRound(s: string, st: Store, n: nat)
    requires InertValues(st) && FirstReference(s).Some?
    ensures var x := FirstReference(s).value;
      var p := x.before + ValueOr0(st, x.name);
      Settled(p) && RewriteStates(s, st, n + 1) == RewriteStates(p + x.after, st, n) &&
      SubstituteState(s, st) == p + SubstituteState(x.after, st)
  {
    var x := FirstReference(s).value;
    var v := ValueOr0(st, x.name);
    SplitAtFirst(s, "state.");
    InertValueOr0(st, x.name);
    NoStraddle(x.before, v, "state.");
    assert StateRewriteStep(s, st) == x.before + v + x.after;
  }

  /** A text without a reference is left as it is by both. */
  lemma NothingToRewrite(s: string, st: Store, rounds: nat)
    requires FirstReference(s).None?
    ensures RewriteStates(s, st, rounds) == Some(s) && SubstituteState(s, st) == s
  {
  }

  /** With inert values, a loop that ends on the rest after the first
      reference with its left-to-right substitution ends on the whole text
      one round later with the whole text's. */
  lemma RoundAgrees(s: string, st: Store, n: nat, rounds: nat)
    requires InertValues(st) && FirstReference(s).Some? && rounds == n + 1
    requires var after := FirstReference(s).value.after;
      RewriteStates(after, st, n) == Some(SubstituteState(after, st))
    ensures RewriteStates(s, st, rounds) == Some(SubstituteState(s, st))
  {
    var x := FirstReference(s).value;
    OneRound(s, st, n);
    PrefixFinished(x.before + ValueOr0(st, x.name), x.after, st, n, SubstituteState(x.after, st));
  }

  /** When no state value can help to form a reference, the loop as written
      ends within as many rounds as the text is long, and gives the
      left-to-right substitution. */
  lemma {:induction false} RewriteAgreesInert(s: string, st: Store, rounds: nat)
    requires InertValues(st) && |s| <= rounds
    ensures RewriteStates(s, st, rounds) == Some(SubstituteState(s, st))
    decreases |s|
  {
    match FirstReference(s)
    case None =>
      NothingToRewrite(s, st, rounds);
    case Some(x) =>
      var n: nat := rounds - 1;
      RewriteAgreesInert(x.after, st, n);
      RoundAgrees(s, st, n, rounds);
  }
}
