/** Which texts the custom build step parser takes apart, and into what, character by character. */
module BuildStepText {
  import opened CText
  import opened BuildStep

  predicate IsBlank(c: char) {
    c == ' ' || c == '\t'
  }

  predicate IsSpace(c: char) {
    c == ' ' || 9 <= c as int <= 13
  }

  /** A target without the characters that end it, and without white space in front. */
  ghost predicate IsTarget(target: string) {
    && (forall i | 0 <= i < |target| :: target[i] != NUL && target[i] != ':' && !IsBlank(target[i]))
    && (target != "" ==> !IsSpace(target[0]))
  }

  /** Dependencies up to a semicolon or the end of the line, without blanks in front. */
  ghost predicate AreDeps(deps: string) {
    && (forall i | 0 <= i < |deps| :: deps[i] != NUL && deps[i] != '\n' && deps[i] != ';')
    && deps != "" && !IsBlank(deps[0])
  }

  ghost predicate Blanks(s: string) {
    forall i | 0 <= i < |s| :: IsBlank(s[i])
  }

  ghost predicate Spaces(s: string) {
    forall i | 0 <= i < |s| :: IsSpace(s[i])
  }

  /** The end of a C string. */
  predicate Ends(s: string) {
    s == "" || s[0] == NUL
  }

  // From the back to the front

  lemma DepsText(target: string, blanks: string, deps: string, behind: string)
    requires Blanks(blanks) && AreDeps(deps) && (Ends(behind) || behind[0] == ';' || behind[0] == '\n')
    ensures SplitDeps(target, blanks + (deps + behind)) ==
            if Ends(behind) then Error(NoRulesBehind)
            else if Ends(behind[1..]) then Error(NoRules)
            else Ok(Step(target, deps, Rules(behind[1..])))
  {
    SpanOf(blanks, deps + behind, Blank);
    SpanOf(deps, behind, DepsChar);
    if behind != "" {
      NoRulesExactly(behind[1..]);
    }
  }

  lemma NoDepsText(target: string, blanks: string, behind: string)
    requires Blanks(blanks) && (Ends(behind) || behind[0] == ';' || behind[0] == '\n')
    ensures SplitDeps(target, blanks + behind) == Error(NoDeps(target))
  {
    SpanOf(blanks, behind, Blank);
    assert Span(behind, DepsChar) == 0;
  }

  /** What precedes the colon, or what is there instead of it. */
  lemma TargetText(lead: string, target: string, gap: string, behind: string)
    requires Spaces(lead) && IsTarget(target) && Blanks(gap) && (target == "" ==> gap == "")
    requires Ends(behind) || behind[0] == ':' || (gap != "" && !IsBlank(behind[0]))
    ensures Split(lead + (target + (gap + behind))) ==
            if target == "" && Ends(behind) then Error(NoData)
            else if Ends(behind) || behind[0] != ':' then Error(NoColon(target))
            else SplitDeps(target, behind[1..])
  {
    var u := gap + behind;
    assert gap != "" ==> u[0] == gap[0];
    assert target != "" ==> (target + u)[0] == target[0];
    SpanOf(lead, target + u, Space);
    SpanOf(target, u, TargetChar);
    SpanOf(gap, behind, Blank);
  }

  // The whole text

  /** White space, a target, a colon, dependencies, a semicolon or the end of the line, and rules: blanks around the
      parts and white space in front of all do not matter. */
  lemma StepText(lead: string, target: string, gap: string, blanks: string, deps: string, separator: char,
                 rules: string)
    requires Spaces(lead) && IsTarget(target) && Blanks(gap) && (target == "" ==> gap == "")
    requires Blanks(blanks) && AreDeps(deps) && (separator == ';' || separator == '\n') && !Ends(rules)
    ensures Split(lead + (target + (gap + (":" + (blanks + (deps + ([separator] + rules))))))) ==
            Ok(Step(target, deps, Rules(rules)))
  {
    var behind := blanks + (deps + ([separator] + rules));
    assert (":" + behind)[1..] == behind;
    TargetText(lead, target, gap, ":" + behind);
    assert ([separator] + rules)[1..] == rules;
    DepsText(target, blanks, deps, [separator] + rules);
  }

  // Rules

  lemma BlanksSkipped(blanks: string, text: string)
    requires Blanks(blanks) && (text != "" ==> !IsBlank(text[0]))
    ensures Skip(blanks + text, Blank) == text
  {
    SpanOf(blanks, text, Blank);
  }

  lemma LineTaken(line: string, end: string)
    requires forall i | 0 <= i < |line| :: line[i] != NUL && line[i] != '\n'
    requires end == "" || end[0] == '\n'
    ensures Take(line + end, LineChar) == line && Skip(line + end, LineChar) == end
  {
    SpanOf(line, end, LineChar);
  }

  /** A line of rules, whatever blanks stand in front of it. */
  lemma RuleText(blanks: string, line: string, more: string)
    requires Blanks(blanks) && (line != "" ==> !IsBlank(line[0]))
    requires forall i | 0 <= i < |line| :: line[i] != NUL && line[i] != '\n'
    ensures Rules(blanks + (line + ("\n" + more))) == line + ("\n" + Rules(more))
  {
    var end := "\n" + more;
    var text := line + end;
    assert text[0] == if line == "" then '\n' else line[0];
    assert (blanks + text)[0] == if blanks == "" then text[0] else blanks[0];
    BlanksSkipped(blanks, text);
    LineTaken(line, end);
    RulesStep(blanks + text, end, line, more);
  }

  /** The last line gets its end, if there is anything in it. */
  lemma LastRuleText(blanks: string, line: string)
    requires Blanks(blanks) && (line != "" ==> !IsBlank(line[0])) && blanks + line != ""
    requires forall i | 0 <= i < |line| :: line[i] != NUL && line[i] != '\n'
    ensures Rules(blanks + line) == line + "\n"
  {
    assert blanks != "" ==> (blanks + line)[0] == blanks[0];
    BlanksSkipped(blanks, line);
    assert line + "" == line;
    LineTaken(line, "");
    assert Rules("") == "";
    assert line + ("\n" + "") == line + "\n";
  }
}
