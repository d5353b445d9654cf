/** Several lines one after the other: every one begins empty, with the history of those before it. */
module Lines {
  import opened CText
  import opened Terminal
  import opened EditLine
  import opened Recall
  import opened Session
  import opened Strokes

  const EMPTY := Line([], 0, true)

  /** The editor has been called for a new line. */
  ghost predicate AtStart(s: Session) {
    s.line == EMPTY && s.esc == []
  }

  /** The end of a line, and the next call of the editor. */
  function NextLine(s: Session): Session {
    Session(EMPTY, [], Enter(s).past)
  }

  /** A line that is recorded, or nothing. */
  function Kept(line: seq<char>): seq<seq<char>> {
    if line != "" && line[0] != '!' then [line] else []
  }

  ghost predicate AreStrokes(ks: seq<Stroke>) {
    forall i | 0 <= i < |ks| :: IsStroke(ks[i])
  }

  /** Each of the given lines is typed and ended. */
  function After(s: Session, lines: seq<seq<Stroke>>, len: nat): (r: Session)
    requires Sound(s, len) && AtStart(s) && forall i | 0 <= i < |lines| :: AreStrokes(lines[i])
    ensures Sound(r, len) && AtStart(r)
    decreases |lines|
  {
    if lines == [] then s
    else
      var m := |lines| - 1;
      var last := Type(After(s, lines[..m], len), AllBytes(lines[m]), len).s;
      EnterStaysSound(last, len);
      NextLine(last)
  }

  lemma {:induction false} PrintableContents(text: seq<char>)
    requires AllPrintable(text)
    ensures Contents(text) == text
    decreases |text|
  {
    if text != [] {
      assert Printable(text[0]);
      PrintableContents(text[1..]);
      assert text == [text[0]] + text[1..];
    }
  }

  /** A printable line is recorded as it stands, unless it is empty or begins with an exclamation mark. */
  lemma NextLineKeeps(s: Session, len: nat)
    requires Sound(s, len) && Clean(s)
    ensures Sound(NextLine(s), len) && AtStart(NextLine(s)) && Clean(NextLine(s))
    ensures NextLine(s).past == s.past.(log := s.past.log + Kept(s.line.text), back := 0)
  {
    EnterStaysSound(s, len);
    PrintableContents(s.line.text);
  }

  lemma {:induction false} StaysClean(s: Session, lines: seq<seq<Stroke>>, len: nat)
    requires Sound(s, len) && AtStart(s) && Clean(s) && forall i | 0 <= i < |lines| :: AreStrokes(lines[i])
    ensures Clean(After(s, lines, len))
    decreases |lines|
  {
    if lines != [] {
      var m := |lines| - 1;
      var now, ks := After(s, lines[..m], len), lines[m];
      StaysClean(s, lines[..m], len);
      FreshLine(now, ks, len, Term(Blanks(len), 0));
      NextLineKeeps(Type(now, AllBytes(ks), len).s, len);
    }
  }

  /** A line typed from its beginning. */
  lemma FreshLine(now: Session, ks: seq<Stroke>, len: nat, t: Term)
    requires Sound(now, len) && AtStart(now) && Clean(now) && AreStrokes(ks)
    requires t.cursor == 0 && t.cells == Blanks(|t.cells|) && len <= |t.cells|
    ensures var r := Type(now, AllBytes(ks), len);
            Clean(r.s) && InStep(Show(t, r.echo), r.s.line)
  {
    assert [] + Blanks(|t.cells|) == Blanks(|t.cells|);
    StrokesInStep(now, ks, len, t);
  }

  /** However many lines have been typed and ended, while the next one is typed all bounds hold, its text and the
      history are printable, and a fresh line of the terminal shows it; when it ends, it joins the
      history unless it is empty or begins with an exclamation mark. */
  lemma LinesInStep(s: Session, lines: seq<seq<Stroke>>, ks: seq<Stroke>, len: nat, t: Term)
    requires Sound(s, len) && AtStart(s) && Clean(s) && AreStrokes(ks) && forall i | 0 <= i < |lines| :: AreStrokes(lines[i])
    requires t.cursor == 0 && t.cells == Blanks(|t.cells|) && len <= |t.cells|
    ensures var now := After(s, lines, len);
            var r := Type(now, AllBytes(ks), len);
            && Sound(r.s, len) && Clean(r.s) && InStep(Show(t, r.echo), r.s.line)
            && (forall i | 0 <= i < |lines + [ks]| :: AreStrokes((lines + [ks])[i]))
            && After(s, lines + [ks], len).past == now.past.(log := now.past.log + Kept(r.s.line.text), back := 0)
  {
    var all, now := lines + [ks], After(s, lines, len);
    StaysClean(s, lines, len);
    FreshLine(now, ks, len, t);
    assert all[..|lines|] == lines && all[|lines|] == ks;
    NextLineKeeps(Type(now, AllBytes(ks), len).s, len);
    TypeKeepsLog(now, AllBytes(ks), len);
  }
}
