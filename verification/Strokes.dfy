/** What a user types: characters, editing keys, and escape sequences as a terminal sends them. */
module Strokes {
  import opened Terminal
  import opened EditLine
  import opened Escape
  import opened Session
  import opened StayInStep

  datatype Stroke = Byte(c: char) | Sequence(params: seq<char>, final: char)

  function Bytes(k: Stroke): seq<char> {
    match k
    case Byte(c) => [c]
    case Sequence(params, final) => [ESC, '['] + params + [final]
  }

  function AllBytes(ks: seq<Stroke>): seq<char> {
    if ks == [] then [] else Bytes(ks[0]) + AllBytes(ks[1..])
  }

  /** A printable character, an editing key, or an escape sequence that fits the buffer. */
  ghost predicate IsStroke(k: Stroke) {
    match k
    case Byte(c) => Printable(c) || IsMove(c) || IsCut(c) || IsRecall(c)
    case Sequence(params, final) => IsSequence(params, final)
  }

  function Perform(s: Session, k: Stroke, len: nat): Reply
    requires s.line.Fits(len) && s.past.Valid()
  {
    match k
    case Byte(c) => Act(s, c, len)
    case Sequence(params, final) => Follow(s, Meaning(params, final), len)
  }

  lemma SavedStart(s: Session, len: nat)
    requires Sound(s, len) && s.esc == []
    ensures Type(s, [ESC, '['], len) == Reply(s.(esc := [ESC, '[']), [])
  {
    var t := s.(esc := [ESC]);
    TypeOne(s, ESC, len);
    assert [ESC] + ['['] == [ESC, '['];
    TypeSnoc(s, [ESC], '[', len);
  }

  /** The first bytes of a sequence are only saved. */
  lemma {:induction false} SavedRun(s: Session, params: seq<char>, k: nat, final: char, len: nat)
    requires Sound(s, len) && s.esc == [] && IsControl(params, final) && k <= |params| && k <= 4
    ensures Type(s, [ESC, '['] + params[..k], len) == Reply(s.(esc := [ESC, '['] + params[..k]), [])
    decreases k
  {
    if k == 0 {
      SavedStart(s, len);
      assert [ESC, '['] + params[..0] == [ESC, '['];
    } else {
      var before := [ESC, '['] + params[..k - 1];
      SavedRun(s, params, k - 1, final, len);
      Collects(params, k - 1, final);
      TypeSnoc(s, before, params[k - 1], len);
      assert before + [params[k - 1]] == [ESC, '['] + params[..k];
    }
  }

  /** A whole sequence acts as the key it stands for, or does nothing. */
  lemma SequenceRun(s: Session, params: seq<char>, final: char, len: nat)
    requires Sound(s, len) && s.esc == [] && IsSequence(params, final)
    ensures Type(s, Bytes(Sequence(params, final)), len) == Follow(s, Meaning(params, final), len)
  {
    SavedRun(s, params, |params|, final, len);
    Collects(params, |params|, final);
    assert params[..|params|] == params;
    TypeSnoc(s, [ESC, '['] + params, final, len);
  }

  /** With a fifth parameter byte the buffer is full: the bytes so far are typed, and the last one acts as a key. */
  lemma LongIsTyped(s: Session, params: seq<char>, final: char, len: nat)
    requires Sound(s, len) && s.esc == [] && IsControl(params, final) && |params| > 4
    ensures var start := [ESC, '['] + params[..5];
            var typed := AddAll(s.line, start, len);
            var pressed := Act(s.(line := typed.line), params[4], len);
            Type(s, start, len) == Reply(pressed.s, typed.echo + pressed.echo)
  {
    assert s.(esc := []) == s;
    var start := [ESC, '['] + params[..4];
    SavedRun(s, params, 4, final, len);
    Collects(params, 4, final);
    TypeSnoc(s, start, params[4], len);
    assert start + [params[4]] == [ESC, '['] + params[..5];
  }

  lemma AddEchoes(l: Line, esc: seq<char>, len: nat)
    requires l.Fits(len) && esc != []
    ensures AddAll(l, esc, len).echo != []
  {
  }

  lemma EchoGrows(s: Session, a: seq<char>, b: seq<char>, len: nat)
    requires Sound(s, len)
    ensures Type(s, a, len).echo <= Type(s, a + b, len).echo
  {
    TypeBoth(s, a, b, len);
  }

  lemma LongIsNotDropped(s: Session, params: seq<char>, final: char, len: nat)
    requires Sound(s, len) && s.esc == [] && IsControl(params, final) && |params| > 4
    ensures Type(s, Bytes(Sequence(params, final)), len).echo != []
  {
    var start, rest := [ESC, '['] + params[..5], params[5..] + [final];
    assert Bytes(Sequence(params, final)) == start + rest;
    LongIsTyped(s, params, final, len);
    AddEchoes(s.line, start, len);
    EchoGrows(s, start, rest, len);
  }

  /** The sequence stands for no editing key. */
  predicate NamesNoKey(params: seq<char>, final: char) {
    (params == [] ==> final !in "ABCDH") && !((params == "2" || params == "5") && final == '~')
  }

  /** A sequence that stands for no key is dropped if and only if it has one to four parameter bytes. */
  lemma DroppedIff(s: Session, params: seq<char>, final: char, len: nat)
    requires Sound(s, len) && s.esc == [] && NamesNoKey(params, final)
    requires 64 <= final as int <= 126 && forall i | 0 <= i < |params| :: !(64 <= params[i] as int <= 126)
    ensures Type(s, Bytes(Sequence(params, final)), len) == Reply(s, []) <==> 1 <= |params| <= 4
  {
    if |params| > 4 {
      LongIsNotDropped(s, params, final, len);
    } else {
      SequenceRun(s, params, final, len);
      if params == [] {
        FinalIsTyped(s, final, len);
      } else {
        assert Meaning(params, final) == Ignored;
        assert s.(esc := []) == s;
      }
    }
  }

  /** Without a parameter byte its final byte is typed: it is inserted, replaces a character, or is answered
      with the bell when the line is full. */
  lemma FinalIsTyped(s: Session, final: char, len: nat)
    requires Sound(s, len) && s.esc == [] && 64 <= final as int <= 126 && final !in "ABCDH"
    ensures var e := Add(s.line, final, len);
            Follow(s, Meaning([], final), len) == Reply(s.(line := e.line), e.echo) && e.echo != []
  {
    assert s.(esc := []) == s;
  }

  function PerformAll(s: Session, ks: seq<Stroke>, len: nat): (r: Reply)
    requires Sound(s, len) && s.esc == [] && (forall i | 0 <= i < |ks| :: IsStroke(ks[i]))
    decreases |ks|
  {
    if ks == [] then Reply(s, [])
    else
      PerformStaysSound(s, ks[0], len);
      var first := Perform(s, ks[0], len);
      var rest := PerformAll(first.s, ks[1..], len);
      Reply(rest.s, first.echo + rest.echo)
  }

  lemma ActLeavesEscape(s: Session, c: char, len: nat)
    requires Sound(s, len) && s.esc == [] && c != ESC
    ensures Act(s, c, len).s.esc == []
  {
  }

  lemma PerformStaysSound(s: Session, k: Stroke, len: nat)
    requires Sound(s, len) && s.esc == [] && IsStroke(k)
    ensures Sound(Perform(s, k, len).s, len) && Perform(s, k, len).s.esc == []
  {
    match k {
      case Byte(c) =>
        ActStaysSound(s, c, len);
        ActLeavesEscape(s, c, len);
      case Sequence(params, final) =>
        match Meaning(params, final) {
          case Key(c) =>
            ActStaysSound(s, c, len);
            ActLeavesEscape(s, c, len);
          case _ =>
        }
    }
  }

  /** The byte stream of some strokes does what the strokes do, one by one. */
  lemma {:induction false} StrokesRun(s: Session, ks: seq<Stroke>, len: nat)
    requires Sound(s, len) && s.esc == [] && (forall i | 0 <= i < |ks| :: IsStroke(ks[i]))
    ensures Type(s, AllBytes(ks), len) == PerformAll(s, ks, len)
    decreases |ks|
  {
    if ks != [] {
      var k := ks[0];
      PerformStaysSound(s, k, len);
      if k.Byte? {
        TypeOne(s, k.c, len);
      } else {
        SequenceRun(s, k.params, k.final, len);
      }
      TypeBoth(s, Bytes(k), AllBytes(ks[1..]), len);
      StrokesRun(Perform(s, k, len).s, ks[1..], len);
    }
  }

  /** The text and every line that could be recalled into it are printable. */
  ghost predicate Clean(s: Session) {
    AllPrintable(s.line.text) && forall i | 0 <= i < |s.past.log| :: AllPrintable(s.past.log[i])
  }

  lemma RecallStaysClean(s: Session, c: char)
    requires s.past.Valid() && s.line.cursor <= |s.line.text| && Clean(s) && IsRecall(c)
    ensures Clean(RecallLine(s, c).s)
  {
    var found := (if c == CTL_P then s.past.Older() else s.past.Newer()).1;
    if found.To? {
      assert AllPrintable(found.text);
    }
  }

  lemma RemoveStaysPrintable(l: Line, k: nat)
    requires k < |l.text| && l.cursor - 1 <= k <= l.cursor <= |l.text| && AllPrintable(l.text)
    ensures AllPrintable(Remove(l, k).line.text)
  {
  }

  lemma AddStaysPrintable(l: Line, c: char, len: nat)
    requires l.Fits(len) && AllPrintable(l.text) && Printable(c)
    ensures AllPrintable(Add(l, c, len).line.text)
  {
  }

  lemma CutStaysPrintable(l: Line, c: char)
    requires IsCut(c) && l.cursor <= |l.text| && AllPrintable(l.text)
    ensures AllPrintable(Cut(l, c).line.text)
  {
    if c == CTL_D && l.cursor < |l.text| {
      RemoveStaysPrintable(l, l.cursor);
    } else if IsErase(c) && l.cursor > 0 {
      RemoveStaysPrintable(l, l.cursor - 1);
    }
  }

  lemma PressStaysPrintable(l: Line, c: char, len: nat)
    requires l.Fits(len) && AllPrintable(l.text) && (Printable(c) || IsMove(c) || IsCut(c))
    ensures AllPrintable(Press(l, c, len).line.text)
  {
    if IsMove(c) {
    } else if IsCut(c) {
      CutStaysPrintable(l, c);
    } else {
      AddStaysPrintable(l, c, len);
    }
  }

  lemma ActStaysClean(s: Session, c: char, len: nat)
    requires Sound(s, len) && Clean(s) && (Printable(c) || IsMove(c) || IsCut(c) || IsRecall(c))
    ensures Clean(Act(s, c, len).s)
  {
    if IsRecall(c) {
      RecallStaysClean(s, c);
    } else {
      PressStaysPrintable(s.line, c, len);
    }
  }

  lemma PerformInStep(s: Session, k: Stroke, len: nat, t: Term)
    requires Sound(s, len) && s.esc == [] && IsStroke(k) && Clean(s) && InStep(t, s.line) && len <= |t.cells|
    ensures Clean(Perform(s, k, len).s) && InStep(Show(t, Perform(s, k, len).echo), Perform(s, k, len).s.line)
  {
    match k {
      case Byte(c) =>
        ActStaysClean(s, c, len);
        ActInStep(s, c, len, t);
      case Sequence(params, final) =>
        match Meaning(params, final) {
          case Key(c) =>
            ActStaysClean(s, c, len);
            ActInStep(s, c, len, t);
          case _ =>
        }
    }
  }

  /** After any strokes, from a line and a history of printable text, the terminal shows the edit buffer. */
  lemma {:induction false} StrokesInStep(s: Session, ks: seq<Stroke>, len: nat, t: Term)
    requires Sound(s, len) && s.esc == [] && (forall i | 0 <= i < |ks| :: IsStroke(ks[i]))
    requires Clean(s) && InStep(t, s.line) && len <= |t.cells|
    ensures var r := Type(s, AllBytes(ks), len);
            Clean(r.s) && InStep(Show(t, r.echo), r.s.line)
    decreases |ks|
  {
    StrokesRun(s, ks, len);
    if ks != [] {
      var r := Perform(s, ks[0], len);
      PerformStaysSound(s, ks[0], len);
      PerformInStep(s, ks[0], len, t);
      StrokesInStep(r.s, ks[1..], len, Show(t, r.echo));
      StrokesRun(r.s, ks[1..], len);
      ShowBoth(t, r.echo, PerformAll(r.s, ks[1..], len).echo);
    }
  }
}
