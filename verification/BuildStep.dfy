/** Custom build steps, `target : deps` and rules, taken apart and put together. */
module BuildStep {
  import opened CText

  datatype Step = Step(target: string, deps: string, rules: string)

  datatype Problem = NoData | NoColon(target: string) | NoDeps(target: string) | NoRulesBehind | NoRules

  datatype Outcome = Ok(step: Step) | Error(problem: Problem)

  // Kinds of characters

  datatype Kind = Space | Blank | TargetChar | DepsChar | LineChar

  predicate Is(k: Kind, c: char) {
    match k
    case Space => c == ' ' || 9 as char <= c <= 13 as char
    case Blank => c == ' ' || c == '\t'
    case TargetChar => c != NUL && c != ':' && c != ' ' && c != '\t'
    case DepsChar => c != NUL && c != '\n' && c != ';'
    case LineChar => c != NUL && c != '\n'
  }

  ghost predicate All(k: Kind, s: string) {
    forall i | 0 <= i < |s| :: Is(k, s[i])
  }

  // The specification

  /** How many characters of a kind a text begins with. */
  function Span(s: string, k: Kind): (n: nat)
    ensures n <= |s|
  {
    if s == "" || !Is(k, s[0]) then 0 else 1 + Span(s[1..], k)
  }

  function Take(s: string, k: Kind): string {
    s[..Span(s, k)]
  }

  function Skip(s: string, k: Kind): string {
    s[Span(s, k)..]
  }

  lemma {:induction false} SpanEnds(s: string, k: Kind)
    ensures All(k, Take(s, k)) && (Skip(s, k) == "" || !Is(k, Skip(s, k)[0]))
    decreases |s|
  {
    if s != "" && Is(k, s[0]) {
      SpanEnds(s[1..], k);
      assert Skip(s, k) == Skip(s[1..], k);
      assert Take(s, k) == [s[0]] + Take(s[1..], k);
    }
  }

  lemma {:induction false} SpanUnique(s: string, k: Kind, n: nat)
    requires n <= |s| && All(k, s[..n]) && (n < |s| ==> !Is(k, s[n]))
    ensures Span(s, k) == n
    decreases n
  {
    if n > 0 {
      assert s[..n][0] == s[0];
      assert s[1..][..n - 1] == s[..n][1..];
      SpanUnique(s[1..], k, n - 1);
    }
  }

  lemma SpanOf(a: string, b: string, k: Kind)
    requires All(k, a) && (b == "" || !Is(k, b[0]))
    ensures Take(a + b, k) == a && Skip(a + b, k) == b
  {
    assert (a + b)[..|a|] == a;
    SpanUnique(a + b, k, |a|);
  }

  /** All rule lines, without blanks in front, each with a newline behind it. */
  function Rules(s: string): string
    decreases |s|
  {
    if At(s, 0) == NUL then ""
    else
      var t := Skip(s, Blank);
      var rest := Skip(t, LineChar);
      Take(t, LineChar) + ("\n" + Rules(if At(rest, 0) == '\n' then rest[1..] else rest))
  }

  /** From behind the separator on. */
  function SplitRules(target: string, deps: string, s: string): Outcome {
    if Rules(s) == "" then Error(NoRules) else Ok(Step(target, deps, Rules(s)))
  }

  /** From behind the colon on. */
  function SplitDeps(target: string, s: string): Outcome {
    var t := Skip(s, Blank);
    var deps, rest := Take(t, DepsChar), Skip(t, DepsChar);
    if deps == "" then Error(NoDeps(target))
    else if At(rest, 0) == NUL then Error(NoRulesBehind)
    else SplitRules(target, deps, rest[1..])
  }

  function Split(s: string): Outcome {
    var t := Skip(s, Space);
    if At(t, 0) == NUL then Error(NoData)
    else
      var target, rest := Take(t, TargetChar), Skip(Skip(t, TargetChar), Blank);
      if At(rest, 0) != ':' then Error(NoColon(target)) else SplitDeps(target, rest[1..])
  }

  function Render(step: Step): string {
    step.target + ":" + step.deps + "\n" + step.rules
  }

  // The normal form

  /** Newline-terminated lines without blanks in front. */
  ghost predicate Tidy(r: string)
    decreases |r|
  {
    r == "" ||
    (var n := Span(r, LineChar);
     !Is(Blank, r[0]) && At(r, n) == '\n' && Tidy(r[n + 1..]))
  }

  ghost predicate Normal(step: Step) {
    && All(TargetChar, step.target)
    && (step.target != "" ==> !Is(Space, step.target[0]))
    && step.deps != "" && !Is(Blank, step.deps[0]) && All(DepsChar, step.deps)
    && step.rules != "" && Tidy(step.rules)
  }

  lemma TidyLine(line: string, rest: string)
    requires All(LineChar, line) && (line != "" ==> !Is(Blank, line[0])) && Tidy(rest)
    ensures Tidy(line + ("\n" + rest))
  {
    var r := line + ("\n" + rest);
    SpanOf(line, "\n" + rest, LineChar);
    SpanUnique(r, LineChar, |line|) by {
      assert r[..|line|] == line;
    }
    assert r[|line| + 1..] == rest;
  }

  lemma {:induction false} RulesAreTidy(s: string)
    ensures Tidy(Rules(s))
    decreases |s|
  {
    if At(s, 0) != NUL {
      var t := Skip(s, Blank);
      var rest := Skip(t, LineChar);
      var more := if At(rest, 0) == '\n' then rest[1..] else rest;
      RulesAreTidy(more);
      SpanEnds(s, Blank);
      SpanEnds(t, LineChar);
      TidyLine(Take(t, LineChar), Rules(more));
    }
  }

  lemma RulesOfLine(line: string, more: string)
    requires All(LineChar, line) && (line != "" ==> !Is(Blank, line[0]))
    ensures Rules(line + ("\n" + more)) == line + ("\n" + Rules(more))
  {
    var end := "\n" + more;
    var r := line + end;
    assert r[0] == if line == "" then '\n' else line[0];
    SpanUnique(r, Blank, 0);
    assert Skip(r, Blank) == r;
    SpanOf(line, end, LineChar);
    assert end[1..] == more;
  }

  lemma TidyParts(r: string) returns (line: string, more: string)
    requires Tidy(r) && r != ""
    ensures r == line + ("\n" + more) && Tidy(more) && |more| < |r|
    ensures All(LineChar, line) && (line != "" ==> !Is(Blank, line[0]))
  {
    var n := Span(r, LineChar);
    SpanEnds(r, LineChar);
    line, more := Take(r, LineChar), r[n + 1..];
  }

  lemma {:induction false} TidyIsFixed(r: string)
    requires Tidy(r)
    ensures Rules(r) == r
    decreases |r|
  {
    if r != "" {
      var line, more := TidyParts(r);
      TidyIsFixed(more);
      RulesOfLine(line, more);
    }
  }

  /** The last check only fires when nothing at all follows the separator; blanks alone make an empty rule. */
  lemma NoRulesExactly(s: string)
    ensures Rules(s) == "" <==> At(s, 0) == NUL
  {
  }

  /** The part of the normal form that comes from behind the colon. */
  ghost predicate NormalTail(step: Step) {
    && step.deps != "" && !Is(Blank, step.deps[0]) && All(DepsChar, step.deps)
    && step.rules != "" && Tidy(step.rules)
  }

  lemma DepsAreNormal(target: string, s: string)
    requires SplitDeps(target, s).Ok?
    ensures SplitDeps(target, s).step.target == target && NormalTail(SplitDeps(target, s).step)
  {
    var t := Skip(s, Blank);
    SpanEnds(s, Blank);
    SpanEnds(t, DepsChar);
    RulesAreTidy(Skip(t, DepsChar)[1..]);
  }

  lemma SplitIsNormal(s: string)
    requires Split(s).Ok?
    ensures Normal(Split(s).step)
  {
    var t := Skip(s, Space);
    var target, rest := Take(t, TargetChar), Skip(Skip(t, TargetChar), Blank);
    SpanEnds(s, Space);
    SpanEnds(t, TargetChar);
    DepsAreNormal(target, rest[1..]);
    assert target != "" ==> target[0] == t[0];
  }

  lemma DepsRead(step: Step)
    requires NormalTail(step)
    ensures SplitDeps(step.target, step.deps + ("\n" + step.rules)) == Ok(step)
  {
    var behind := "\n" + step.rules;
    var tail := step.deps + behind;
    SpanUnique(tail, Blank, 0);
    assert Skip(tail, Blank) == tail;
    SpanOf(step.deps, behind, DepsChar);
    assert behind[1..] == step.rules;
    TidyIsFixed(step.rules);
  }

  lemma NoneSkipped(s: string, k: Kind)
    requires s == "" || !Is(k, s[0])
    ensures Skip(s, k) == s
  {
  }

  lemma SplitFrom(s: string, target: string, colon: string)
    requires Skip(s, Space) == s && At(s, 0) != NUL && Take(s, TargetChar) == target && Skip(s, TargetChar) == colon
    requires Skip(colon, Blank) == colon && At(colon, 0) == ':'
    ensures Split(s) == SplitDeps(target, colon[1..])
  {
  }

  lemma TargetRead(target: string, colon: string)
    requires All(TargetChar, target) && (target != "" ==> !Is(Space, target[0])) && At(colon, 0) == ':'
    ensures Split(target + colon) == SplitDeps(target, colon[1..])
  {
    var s := target + colon;
    assert target != "" ==> s[0] == target[0];
    NoneSkipped(s, Space);
    SpanOf(target, colon, TargetChar);
    NoneSkipped(colon, Blank);
    SplitFrom(s, target, colon);
  }

  lemma NormalSplits(step: Step)
    requires Normal(step)
    ensures Split(Render(step)) == Ok(step)
  {
    var tail := step.deps + ("\n" + step.rules);
    var colon := ":" + tail;
    DepsRead(step);
    TargetRead(step.target, colon);
    assert colon[1..] == tail;
    RenderParts(step);
  }

  lemma RenderParts(step: Step)
    ensures Render(step) == step.target + (":" + (step.deps + ("\n" + step.rules)))
  {
  }

  /** A step comes back from its rendering exactly when it is in normal form. */
  lemma RoundTrip(step: Step)
    ensures Split(Render(step)) == Ok(step) <==> Normal(step)
  {
    if Normal(step) {
      NormalSplits(step);
    } else if Split(Render(step)) == Ok(step) {
      SplitIsNormal(Render(step));
    }
  }

  /** Whatever is accepted can be rendered and split again without a change. */
  lemma SplitIsStable(s: string)
    requires Split(s).Ok?
    ensures Split(Render(Split(s).step)) == Split(s)
  {
    SplitIsNormal(s);
    NormalSplits(Split(s).step);
  }

  // The parser

  lemma SpanFrom(s: string, i: nat, k: Kind)
    requires i < |s| && Is(k, s[i])
    ensures Span(s[i..], k) == 1 + Span(s[i + 1..], k)
  {
    assert s[i..][1..] == s[i + 1..];
  }

  lemma PassedAll(s: string, i: nat, j: nat, k: Kind)
    requires i <= j <= |s| && Span(s[i..], k) == j - i
    ensures Take(s[i..], k) == s[i..j] && Skip(s[i..], k) == s[j..]
  {
  }

  /** A loop that moves the data pointer and may append what it passes. */
  method Pass(s: string, i: nat, k: Kind) returns (passed: string, j: nat)
    requires i <= |s|
    ensures passed == Take(s[i..], k) && i <= j <= |s| && s[j..] == Skip(s[i..], k)
  {
    passed, j := "", i;
    while j < |s| && Is(k, s[j])
      invariant i <= j <= |s| && passed == s[i..j]
      invariant Span(s[i..], k) == j - i + Span(s[j..], k)
    {
      SpanFrom(s, j, k);
      passed := passed + [s[j]];
      j := j + 1;
    }
    assert Span(s[j..], k) == 0;
    PassedAll(s, i, j, k);
  }

  /** One line of the rules. */
  method PassLine(s: string, i: nat) returns (line: string, j: nat)
    requires i <= |s| && At(s, i) != NUL
    ensures i < j <= |s| && Rules(s[i..]) == line + ("\n" + Rules(s[j..]))
  {
    var blanks;
    blanks, j := Pass(s, i, Blank);
    line, j := Pass(s, j, LineChar);
    ghost var rest := s[j..];
    if At(s, j) == '\n' {
      j := j + 1;
    }
    RulesStep(s[i..], rest, line, s[j..]);
  }

  /** The loop over the rule lines. */
  method PassRules(s: string, i: nat) returns (rules: string)
    requires i <= |s|
    ensures rules == Rules(s[i..])
  {
    rules := "";
    var j := i;
    ghost var all := Rules(s[i..]);
    while At(s, j) != NUL
      invariant i <= j <= |s| && rules + Rules(s[j..]) == all
      decreases |s| - j
    {
      var line;
      ghost var before, here := rules, j;
      line, j := PassLine(s, j);
      rules := rules + line + "\n";
      Assoc(before, line, Rules(s[j..]));
    }
    assert At(s[j..], 0) == NUL;
  }

  lemma Assoc(a: string, b: string, c: string)
    ensures a + (b + ("\n" + c)) == (a + b + "\n") + c
  {
  }

  lemma RulesStep(s: string, rest: string, line: string, more: string)
    requires At(s, 0) != NUL && line == Take(Skip(s, Blank), LineChar) && rest == Skip(Skip(s, Blank), LineChar)
    requires more == if At(rest, 0) == '\n' then rest[1..] else rest
    ensures Rules(s) == line + ("\n" + Rules(more)) && |more| < |s|
  {
  }

  /** `split_custom_build_step`. */
  method SplitCustomBuildStep(data: string) returns (outcome: Outcome)
    ensures outcome == Split(data)
  {
    var skipped, target, i;
    assert data[0..] == data;
    skipped, i := Pass(data, 0, Space);
    ghost var t := data[i..];
    assert t == Skip(data, Space) && At(t, 0) == At(data, i);
    if At(data, i) == NUL {
      return Error(NoData);
    }
    target, i := Pass(data, i, TargetChar);
    skipped, i := Pass(data, i, Blank);
    ghost var rest := data[i..];
    assert rest == Skip(Skip(t, TargetChar), Blank) && At(rest, 0) == At(data, i);
    if At(data, i) != ':' {
      return Error(NoColon(target));
    }
    i := i + 1;
    assert data[i..] == rest[1..];
    outcome := SplitBehindColon(target, data, i);
  }

  method SplitBehindColon(target: string, data: string, from: nat) returns (outcome: Outcome)
    requires from <= |data|
    ensures outcome == SplitDeps(target, data[from..])
  {
    var skipped, deps, i;
    skipped, i := Pass(data, from, Blank);
    deps, i := Pass(data, i, DepsChar);
    if deps == "" {
      return Error(NoDeps(target));
    }
    if At(data, i) == NUL {
      return Error(NoRulesBehind);
    }
    i := i + 1;
    var rules := PassRules(data, i);
    if rules == "" {
      return Error(NoRules);
    }
    outcome := Ok(Step(target, deps, rules));
  }
}
