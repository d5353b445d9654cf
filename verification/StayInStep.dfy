/** Every run of keys keeps the terminal in step with the edited line. */
module StayInStep {
  import opened CText
  import opened Terminal
  import opened EditLine
  import opened Escape
  import opened Recall
  import opened Session

  /** The text is printable, and stays so while the characters are added. */
  ghost predicate CleanAdds(l: Line, s: seq<char>, len: nat)
    requires l.Fits(len)
    decreases |s|
  {
    AllPrintable(l.text) && (s != [] ==> CleanAdds(Add(l, s[0], len).line, s[1..], len))
  }

  /** The text is printable behind a byte, too. */
  ghost predicate CleanByte(s: Session, c: char, len: nat)
    requires Sound(s, len)
  {
    && AllPrintable(s.line.text) && AllPrintable(Receive(s, c, len).s.line.text)
    && (s.esc != [] && Decode(s.esc, c).Overflow? ==> CleanAdds(s.line, Decode(s.esc, c).esc, len))
  }

  ghost predicate CleanRun(s: Session, input: seq<char>, len: nat)
    requires Sound(s, len)
    decreases |input|
  {
    input != [] ==>
      && CleanByte(s, input[0], len)
      && (ReceiveStaysSound(s, input[0], len); CleanRun(Receive(s, input[0], len).s, input[1..], len))
  }

  lemma {:induction false} AddsInStep(l: Line, s: seq<char>, len: nat, t: Term)
    requires l.Fits(len) && CleanAdds(l, s, len) && InStep(t, l) && len <= |t.cells|
    ensures InStep(Show(t, AddAll(l, s, len).echo), AddAll(l, s, len).line) && AllPrintable(AddAll(l, s, len).line.text)
    decreases |s|
  {
    if s != [] {
      var e := Add(l, s[0], len);
      AddKeeps(l, s[0], len);
      AddsInStep(e.line, s[1..], len, Show(t, e.echo));
      ShowBoth(t, e.echo, AddAll(e.line, s[1..], len).echo);
    }
  }

  lemma RecallInStep(s: Session, c: char, len: nat, t: Term)
    requires Sound(s, len) && IsRecall(c) && InStep(t, s.line) && len <= |t.cells|
    requires AllPrintable(RecallLine(s, c).s.line.text) && RecallLine(s, c).s.line.Fits(len)
    ensures InStep(Show(t, RecallLine(s, c).echo), RecallLine(s, c).s.line)
  {
    var found := (if c == CTL_P then s.past.Older() else s.past.Newer()).1;
    if found.To? {
      ReplaceKeeps(s.line, found.text);
    } else {
      assert [BELL][1..] == [];
    }
  }

  lemma ActInStep(s: Session, c: char, len: nat, t: Term)
    requires Sound(s, len) && InStep(t, s.line) && len <= |t.cells|
    requires AllPrintable(s.line.text) && AllPrintable(Act(s, c, len).s.line.text)
    ensures InStep(Show(t, Act(s, c, len).echo), Act(s, c, len).s.line)
  {
    ActStaysSound(s, c, len);
    if c != ESC {
      if IsRecall(c) {
        RecallInStep(s, c, len, t);
      } else {
        PressKeeps(s.line, c, len);
      }
    }
  }

  lemma ReceiveInStep(s: Session, c: char, len: nat, t: Term)
    requires Sound(s, len) && CleanByte(s, c, len) && InStep(t, s.line) && len <= |t.cells|
    ensures InStep(Show(t, Receive(s, c, len).echo), Receive(s, c, len).s.line)
  {
    if s.esc == [] {
      ActInStep(s, c, len, t);
    } else {
      var idle := s.(esc := []);
      match Decode(s.esc, c) {
        case More(_) =>
        case Key(k) => ActInStep(idle, k, len, t);
        case Ignored =>
        case Overflow(esc, k) =>
          var e := AddAll(s.line, esc, len);
          AddsInStep(s.line, esc, len, t);
          ActInStep(idle.(line := e.line), k, len, Show(t, e.echo));
          ShowBoth(t, e.echo, Act(idle.(line := e.line), k, len).echo);
      }
    }
  }

  /** What the terminal shows is the edit buffer, after any bytes with which the text stays printable. */
  lemma {:induction false} RunInStep(s: Session, input: seq<char>, len: nat, t: Term)
    requires Sound(s, len) && CleanRun(s, input, len) && InStep(t, s.line) && len <= |t.cells|
    ensures InStep(Show(t, Type(s, input, len).echo), Type(s, input, len).s.line)
    decreases |input|
  {
    if input != [] {
      var r := Receive(s, input[0], len);
      ReceiveStaysSound(s, input[0], len);
      ReceiveInStep(s, input[0], len, t);
      RunInStep(r.s, input[1..], len, Show(t, r.echo));
      ShowBoth(t, r.echo, Type(r.s, input[1..], len).echo);
    }
  }
}
