/** Runs of the line editor: bytes in, an edited line and echoed bytes out. */
module Session {
  import opened CText
  import opened Terminal
  import opened EditLine
  import opened Escape
  import opened Recall

  datatype Session = Session(line: Line, esc: seq<char>, past: Past)

  datatype Reply = Reply(s: Session, echo: seq<char>)

  /** What holds whenever the editor waits for a byte. */
  ghost predicate Sound(s: Session, len: nat) {
    && s.line.Fits(len) && Saved(s.esc) && s.past.Valid()
    && forall i | 0 <= i < |s.past.log| :: Recallable(s.past.log[i], len)
  }

  predicate Recallable(line: seq<char>, len: nat) {
    |line| <= len && NUL !in line
  }

  predicate IsRecall(c: char) {
    c == CTL_P || c == CTL_N
  }

  /** A line of the history, or the bell. */
  function RecallLine(s: Session, c: char): Reply
    requires s.past.Valid() && s.line.cursor <= |s.line.text|
  {
    var (past, found) := if c == CTL_P then s.past.Older() else s.past.Newer();
    if found.Null? then Reply(s.(past := past), [BELL])
    else
      var e := Replace(s.line, found.text);
      Reply(s.(line := e.line, past := past), e.echo)
  }

  /** The key switch; an escape byte is saved. */
  function Act(s: Session, c: char, len: nat): Reply
    requires s.line.Fits(len) && s.past.Valid()
  {
    if c == ESC then Reply(s.(esc := [ESC]), [])
    else if IsRecall(c) then RecallLine(s, c)
    else
      var e := Press(s.line, c, len);
      Reply(s.(line := e.line), e.echo)
  }

  /** What follows from a decoded byte. */
  function Follow(s: Session, d: Decoded, len: nat): Reply
    requires s.line.Fits(len) && s.past.Valid()
  {
    var idle := s.(esc := []);
    match d
    case More(esc) => Reply(s.(esc := esc), [])
    case Key(c) => Act(idle, c, len)
    case Ignored => Reply(idle, [])
    case Overflow(esc, c) =>
      var e := AddAll(s.line, esc, len);
      var r := Act(idle.(line := e.line), c, len);
      Reply(r.s, e.echo + r.echo)
  }

  /** One byte, not the end of the line. */
  function Receive(s: Session, c: char, len: nat): Reply
    requires Sound(s, len)
  {
    if s.esc == [] then Act(s, c, len) else Follow(s, Decode(s.esc, c), len)
  }

  lemma LineRecallable(p: Past, j: nat, len: nat)
    requires j <= |p.log| && forall i | 0 <= i < |p.log| :: Recallable(p.log[i], len)
    ensures Recallable(p.Line(j), len)
  {
  }

  lemma ActStaysSound(s: Session, c: char, len: nat)
    requires Sound(s, len)
    ensures Sound(Act(s, c, len).s, len)
  {
    if IsRecall(c) {
      if c == CTL_P && 0 <= s.past.back < s.past.Reach() {
        LineRecallable(s.past, s.past.back + 1, len);
      }
      if c == CTL_N && 0 < s.past.back {
        LineRecallable(s.past, s.past.back - 1, len);
      }
    }
  }

  /** Cursor, length and escape bytes stay in bounds, whatever bytes arrive. */
  lemma ReceiveStaysSound(s: Session, c: char, len: nat)
    requires Sound(s, len)
    ensures Sound(Receive(s, c, len).s, len)
  {
    if s.esc == [] {
      ActStaysSound(s, c, len);
    } else {
      SavedStays(s.esc, c);
      var idle := s.(esc := []);
      match Decode(s.esc, c) {
        case More(_) =>
        case Key(k) => ActStaysSound(idle, k, len);
        case Ignored =>
        case Overflow(esc, _) => ActStaysSound(idle.(line := AddAll(s.line, esc, len).line), c, len);
      }
    }
  }

  /** All bytes of an input without the end of the line. */
  function Type(s: Session, input: seq<char>, len: nat): (r: Reply)
    requires Sound(s, len)
    ensures Sound(r.s, len)
    decreases |input|
  {
    if input == [] then Reply(s, [])
    else
      ReceiveStaysSound(s, input[0], len);
      var first := Receive(s, input[0], len);
      var rest := Type(first.s, input[1..], len);
      Reply(rest.s, first.echo + rest.echo)
  }

  /** Bytes typed in two parts. */
  lemma {:induction false} TypeBoth(s: Session, a: seq<char>, b: seq<char>, len: nat)
    requires Sound(s, len)
    ensures var first := Type(s, a, len);
            var second := Type(first.s, b, len);
            Type(s, a + b, len) == Reply(second.s, first.echo + second.echo)
    decreases |a|
  {
    if a == [] {
      assert a + b == b;
    } else {
      var r := Receive(s, a[0], len);
      assert (a + b)[1..] == a[1..] + b;
      ReceiveStaysSound(s, a[0], len);
      TypeBoth(r.s, a[1..], b, len);
      var first := Type(r.s, a[1..], len);
      assert r.echo + (first.echo + Type(first.s, b, len).echo) == (r.echo + first.echo) + Type(first.s, b, len).echo;
    }
  }

  lemma TypeOne(s: Session, c: char, len: nat)
    requires Sound(s, len)
    ensures Type(s, [c], len) == Receive(s, c, len)
  {
    var r := Receive(s, c, len);
    ReceiveStaysSound(s, c, len);
    assert [c][1..] == [];
    assert Type(r.s, [], len) == Reply(r.s, []);
  }

  lemma TypeSnoc(s: Session, input: seq<char>, c: char, len: nat)
    requires Sound(s, len)
    ensures var r := Type(s, input, len);
            var next := Receive(r.s, c, len);
            Type(s, input + [c], len) == Reply(next.s, r.echo + next.echo)
  {
    TypeBoth(s, input, [c], len);
    TypeOne(Type(s, input, len).s, c, len);
  }

  predicate SamePast(p: Past, q: Past) {
    p.log == q.log && p.room == q.room
  }

  /** The bytes typed into a line do not touch what has been recorded. */
  lemma ActKeepsLog(s: Session, c: char, len: nat)
    requires s.line.Fits(len) && s.past.Valid()
    ensures SamePast(Act(s, c, len).s.past, s.past)
  {
  }

  lemma ReceiveKeepsLog(s: Session, c: char, len: nat)
    requires Sound(s, len)
    ensures SamePast(Receive(s, c, len).s.past, s.past)
  {
    if s.esc == [] {
      ActKeepsLog(s, c, len);
    } else {
      var idle := s.(esc := []);
      match Decode(s.esc, c) {
        case More(_) =>
        case Key(k) => ActKeepsLog(idle, k, len);
        case Ignored =>
        case Overflow(esc, k) => ActKeepsLog(idle.(line := AddAll(s.line, esc, len).line), k, len);
      }
    }
  }

  lemma {:induction false} TypeKeepsLog(s: Session, input: seq<char>, len: nat)
    requires Sound(s, len)
    ensures SamePast(Type(s, input, len).s.past, s.past)
    decreases |input|
  {
    if input != [] {
      ReceiveStaysSound(s, input[0], len);
      ReceiveKeepsLog(s, input[0], len);
      TypeKeepsLog(Receive(s, input[0], len).s, input[1..], len);
    }
  }

  lemma AddBehind(l: Line, c: char, len: nat)
    requires l.cursor == |l.text| < len
    ensures Add(l, c, len).line == l.(text := l.text + [c], cursor := l.cursor + 1)
  {
    assert l.text[..l.cursor] + [c] + l.text[l.cursor..] == l.text + [c];
  }

  lemma ReceivePlain(s: Session, c: char, len: nat) returns (r: Reply)
    requires Sound(s, len) && s.esc == [] && Printable(c) && s.line.cursor == |s.line.text| < len
    ensures r == Receive(s, c, len) && Sound(r.s, len) && r.s.esc == []
    ensures r.s.line.text == s.line.text + [c] && r.s.line.cursor == |r.s.line.text|
  {
    r := Receive(s, c, len);
    AddBehind(s.line, c, len);
    ReceiveStaysSound(s, c, len);
  }

  /** A line with its cursor behind its text. */
  ghost predicate Behind(s: Session, text: seq<char>, len: nat) {
    Sound(s, len) && s.esc == [] && s.line.text == text && s.line.cursor == |text|
  }

  lemma PlainStep(s: Session, text: seq<char>, c: char, len: nat)
    requires Behind(s, text, len) && Printable(c) && |text| < len
    ensures Behind(Receive(s, c, len).s, text + [c], len)
  {
    var reply := ReceivePlain(s, c, len);
  }

  /** Printable characters typed at the end of a line, as long as there is room, are its text. */
  lemma {:induction false} TypePlain(s: Session, text: seq<char>, input: seq<char>, len: nat)
    requires Behind(s, text, len) && |text| + |input| <= len && AllPrintable(input)
    ensures Behind(Type(s, input, len).s, text + input, len)
    decreases |input|
  {
    if input == [] {
      assert text + input == text;
    } else {
      var init, c := input[..|input| - 1], input[|input| - 1];
      assert input == init + [c] && Printable(c);
      TypePlain(s, text, init, len);
      PlainStep(Type(s, init, len).s, text + init, c, len);
      TypeSnoc(s, init, c, len);
      assert (text + init) + [c] == text + input;
    }
  }

  /** The end of the line: what a string function sees of it may be recorded. */
  function Enter(s: Session): Session
  {
    s.(past := s.past.End(Contents(s.line.text)), esc := [])
  }

  lemma EnterStaysSound(s: Session, len: nat)
    requires Sound(s, len)
    ensures Sound(Enter(s), len)
  {
    var line := Contents(s.line.text);
    assert Recallable(line, len);
  }
}
