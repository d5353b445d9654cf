/** The line being edited, what each key makes of it, and what is sent to the terminal. */
module EditLine {
  import opened Terminal

  datatype Line = Line(text: seq<char>, cursor: nat, insert: bool) {
    predicate Fits(len: nat) {
      cursor <= |text| <= len
    }
  }

  /** A line and the bytes echoed on the way to it. */
  datatype Edit = Edit(line: Line, echo: seq<char>)

  // The control keys: the letter's place in the alphabet

  const CTL_A := 1 as char
  const CTL_B := 2 as char
  const CTL_D := 4 as char
  const CTL_E := 5 as char
  const CTL_F := 6 as char
  const CTL_K := 11 as char
  const CTL_N := 14 as char
  const CTL_O := 15 as char
  const CTL_P := 16 as char
  const CTL_U := 21 as char
  const CTL_X := 24 as char

  /** `cread_add_char`. */
  function Add(l: Line, c: char, len: nat): Edit
    requires l.Fits(len)
  {
    var before, behind := l.text[..l.cursor], l.text[l.cursor..];
    if !l.insert && behind != [] then Edit(l.(text := l.text[l.cursor := c], cursor := l.cursor + 1), [c])
    else if |l.text| == len then Edit(l, [BELL])
    else Edit(l.(text := before + [c] + behind, cursor := l.cursor + 1), [c] + behind + Back(|behind|))
  }

  /** All bytes of a string, one after the other. */
  function AddAll(l: Line, s: seq<char>, len: nat): (e: Edit)
    requires l.Fits(len)
    ensures e.line.Fits(len)
    decreases |s|
  {
    if s == [] then Edit(l, [])
    else
      var first := Add(l, s[0], len);
      var rest := AddAll(first.line, s[1..], len);
      Edit(rest.line, first.echo + rest.echo)
  }

  function EraseToEnd(l: Line): Edit
    requires l.cursor <= |l.text|
  {
    var n := |l.text| - l.cursor;
    Edit(l.(text := l.text[..l.cursor]), Blanks(n) + Back(n))
  }

  /** The whole line away, from its beginning. */
  function Wipe(l: Line): Edit
    requires l.cursor <= |l.text|
  {
    var n := |l.text|;
    Edit(l.(text := [], cursor := 0), Back(l.cursor) + (Blanks(n) + Back(n)))
  }

  /** A line of the history in place of the line. */
  function Replace(l: Line, s: seq<char>): Edit
    requires l.cursor <= |l.text|
  {
    Edit(l.(text := s, cursor := |s|), Wipe(l).echo + s)
  }

  /** Backspace and both kinds of delete. */
  predicate IsErase(c: char) {
    c == 8 as char || c == 127 as char || c == 255 as char
  }

  predicate IsMove(c: char) {
    c == CTL_A || c == CTL_B || c == CTL_E || c == CTL_F || c == CTL_O
  }

  predicate IsCut(c: char) {
    c == CTL_D || c == CTL_K || c == CTL_U || c == CTL_X || IsErase(c)
  }

  /** The keys that leave the text alone. */
  function Move(l: Line, c: char): Edit
    requires IsMove(c) && l.cursor <= |l.text|
  {
    if c == CTL_A then Edit(l.(cursor := 0), Back(l.cursor))
    else if c == CTL_F then
      if l.cursor < |l.text| then Edit(l.(cursor := l.cursor + 1), [l.text[l.cursor]]) else Edit(l, [])
    else if c == CTL_B then (if l.cursor > 0 then Edit(l.(cursor := l.cursor - 1), Back(1)) else Edit(l, []))
    else if c == CTL_E then Edit(l.(cursor := |l.text|), l.text[l.cursor..])
    else Edit(l.(insert := !l.insert), [])
  }

  /** The keys that take text away. */
  function Cut(l: Line, c: char): Edit
    requires IsCut(c) && l.cursor <= |l.text|
  {
    if c == CTL_U || c == CTL_X then Wipe(l)
    else if c == CTL_D then (if l.cursor < |l.text| then Remove(l, l.cursor) else Edit(l, []))
    else if c == CTL_K then EraseToEnd(l)
    else if l.cursor > 0 then Remove(l, l.cursor - 1) else Edit(l, [])
  }

  /** Any key but the escape key and those for the history. */
  function Press(l: Line, c: char, len: nat): (e: Edit)
    requires l.Fits(len)
    ensures e.line.Fits(len)
  {
    if IsMove(c) then Move(l, c) else if IsCut(c) then Cut(l, c) else Add(l, c, len)
  }

  /** The character at `k` away, where `k` is the cursor or just before it. */
  function Remove(l: Line, k: nat): Edit
    requires k < |l.text| && l.cursor - 1 <= k <= l.cursor <= |l.text|
  {
    var behind := l.text[k + 1..];
    Edit(l.(text := l.text[..k] + behind, cursor := k),
         Back(l.cursor - k) + (behind + " " + Back(|behind| + 1)))
  }

  // The terminal in step

  /** The cells show the text and blanks behind it, and the cursors agree. */
  ghost predicate InStep(t: Term, l: Line) {
    && l.cursor == t.cursor <= |l.text| <= |t.cells|
    && t.cells == l.text + Blanks(|t.cells| - |l.text|)
  }

  /** A key keeps the terminal in step. */
  ghost predicate Keeps(l: Line, e: Edit) {
    forall t :: InStep(t, l) && |e.line.text| <= |t.cells| ==> InStep(Show(t, e.echo), e.line)
  }

  lemma OverwriteKeeps(l: Line, c: char)
    requires l.cursor < |l.text| && Printable(c)
    ensures Keeps(l, Edit(l.(text := l.text[l.cursor := c], cursor := l.cursor + 1), [c]))
  {
    forall t | InStep(t, l) ensures InStep(Show(t, [c]), l.(text := l.text[l.cursor := c], cursor := l.cursor + 1)) {
      ShowText(t, [c]);
    }
  }

  lemma BellKeeps(l: Line)
    ensures Keeps(l, Edit(l, [BELL]))
  {
    forall t | InStep(t, l) ensures InStep(Show(t, [BELL]), l) {
      assert [BELL][1..] == [];
    }
  }

  lemma InsertKeeps(l: Line, c: char, before: seq<char>, behind: seq<char>)
    requires l.cursor == |before| && l.text == before + behind && AllPrintable([c] + behind)
    ensures Keeps(l, Edit(l.(text := before + [c] + behind, cursor := l.cursor + 1), [c] + behind + Back(|behind|)))
  {
    var e := Edit(l.(text := before + [c] + behind, cursor := l.cursor + 1), [c] + behind + Back(|behind|));
    forall t | InStep(t, l) && |e.line.text| <= |t.cells| ensures InStep(Show(t, e.echo), e.line) {
      ShowTextBack(t, [c] + behind, |behind|);
    }
  }

  lemma AddKeeps(l: Line, c: char, len: nat)
    requires l.Fits(len) && AllPrintable(Add(l, c, len).line.text)
    ensures Keeps(l, Add(l, c, len))
  {
    var before, behind := l.text[..l.cursor], l.text[l.cursor..];
    var text := Add(l, c, len).line.text;
    if !l.insert && behind != [] {
      assert text[l.cursor] == c;
      OverwriteKeeps(l, c);
    } else if |l.text| == len {
      BellKeeps(l);
    } else {
      assert text[l.cursor..] == [c] + behind;
      InsertKeeps(l, c, before, behind);
    }
  }

  lemma BackKeeps(l: Line, n: nat)
    requires n <= l.cursor <= |l.text|
    ensures Keeps(l, Edit(l.(cursor := l.cursor - n), Back(n)))
  {
    forall t | InStep(t, l) ensures InStep(Show(t, Back(n)), l.(cursor := l.cursor - n)) {
      ShowBack(t, n);
    }
  }

  /** The characters from the cursor on, sent again, move it. */
  lemma ForwardKeeps(l: Line, s: seq<char>)
    requires l.cursor + |s| <= |l.text| && s == l.text[l.cursor..l.cursor + |s|] && AllPrintable(s)
    ensures Keeps(l, Edit(l.(cursor := l.cursor + |s|), s))
  {
    forall t | InStep(t, l) ensures InStep(Show(t, s), l.(cursor := l.cursor + |s|)) {
      ShowText(t, s);
      Rewritten(t.cells, l.cursor, s);
    }
  }

  lemma Rewritten(cells: seq<char>, p: nat, s: seq<char>)
    requires p + |s| <= |cells| && s == cells[p..p + |s|]
    ensures cells[..p] + s + cells[p + |s|..] == cells
  {
  }

  lemma EraseToEndKeeps(l: Line)
    requires l.cursor <= |l.text|
    ensures Keeps(l, EraseToEnd(l))
  {
    var e, n := EraseToEnd(l), |l.text| - l.cursor;
    forall t | InStep(t, l) && |e.line.text| <= |t.cells| ensures InStep(Show(t, e.echo), e.line) {
      ShowTextBack(t, Blanks(n), n);
    }
  }

  lemma WipeKeeps(l: Line)
    requires l.cursor <= |l.text|
    ensures Keeps(l, Wipe(l))
  {
    var e, n := Wipe(l), |l.text|;
    forall t | InStep(t, l) && |e.line.text| <= |t.cells| ensures InStep(Show(t, e.echo), e.line) {
      ShowBackTextBack(t, l.cursor, Blanks(n), n);
    }
  }

  /** Two edits, one after the other, the first of them to a text that is no longer. */
  lemma BothKeep(l: Line, e: Edit, m: Edit)
    requires Keeps(l, e) && Keeps(e.line, m) && |e.line.text| <= |m.line.text|
    ensures Keeps(l, Edit(m.line, e.echo + m.echo))
  {
    forall t | InStep(t, l) && |m.line.text| <= |t.cells| ensures InStep(Show(t, e.echo + m.echo), m.line) {
      assert InStep(Show(t, e.echo), e.line);
      ShowBoth(t, e.echo, m.echo);
    }
  }

  lemma TextKeeps(insert: bool, s: seq<char>)
    requires AllPrintable(s)
    ensures Keeps(Line([], 0, insert), Edit(Line(s, |s|, insert), s))
  {
    forall t | InStep(t, Line([], 0, insert)) && |s| <= |t.cells| ensures InStep(Show(t, s), Line(s, |s|, insert)) {
      ShowText(t, s);
      assert t.cells[..0] + s == s && t.cells[|s|..] == Blanks(|t.cells| - |s|);
    }
  }

  lemma ReplaceKeeps(l: Line, s: seq<char>)
    requires l.cursor <= |l.text| && AllPrintable(s)
    ensures Keeps(l, Replace(l, s))
  {
    WipeKeeps(l);
    TextKeeps(l.insert, s);
    BothKeep(l, Wipe(l), Edit(Line(s, |s|, l.insert), s));
  }

  /** Cells that show a text, with the part behind place `k` moved over it and a blank behind that. */
  lemma GapClosed(text: seq<char>, k: nat, cells: seq<char>, behind: seq<char>)
    requires k < |text| <= |cells| && cells == text + Blanks(|cells| - |text|) && behind == text[k + 1..]
    ensures cells[..k] + (behind + " ") + cells[|text|..] == (text[..k] + behind) + Blanks(|cells| - |text| + 1)
  {
    assert cells[..k] == text[..k] && cells[|text|..] == Blanks(|cells| - |text|);
    assert " " + Blanks(|cells| - |text|) == Blanks(|cells| - |text| + 1);
  }

  lemma RemoveKeeps(l: Line, k: nat)
    requires k < |l.text| && l.cursor - 1 <= k <= l.cursor <= |l.text| && AllPrintable(l.text)
    ensures Keeps(l, Remove(l, k))
  {
    var e, behind := Remove(l, k), l.text[k + 1..];
    assert AllPrintable(behind + " ");
    forall t | InStep(t, l) && |e.line.text| <= |t.cells| ensures InStep(Show(t, e.echo), e.line) {
      ShowBackTextBack(t, l.cursor - k, behind + " ", |behind| + 1);
      GapClosed(l.text, k, t.cells, behind);
    }
  }

  lemma MoveKeeps(l: Line, c: char)
    requires IsMove(c) && l.cursor <= |l.text| && AllPrintable(l.text)
    ensures Keeps(l, Move(l, c))
  {
    if c == CTL_A {
      BackKeeps(l, l.cursor);
    } else if c == CTL_B {
      if l.cursor > 0 { BackKeeps(l, 1); }
    } else if c == CTL_F {
      if l.cursor < |l.text| {
        var s := l.text[l.cursor..l.cursor + 1];
        ForwardKeeps(l, s);
        assert s == [l.text[l.cursor]];
      }
    } else if c == CTL_E {
      var s := l.text[l.cursor..];
      assert s == l.text[l.cursor..l.cursor + |s|];
      ForwardKeeps(l, s);
    }
  }

  lemma CutKeeps(l: Line, c: char)
    requires IsCut(c) && l.cursor <= |l.text| && AllPrintable(l.text)
    ensures Keeps(l, Cut(l, c))
  {
    if c == CTL_U || c == CTL_X {
      WipeKeeps(l);
    } else if c == CTL_K {
      EraseToEndKeeps(l);
    } else if c == CTL_D {
      if l.cursor < |l.text| { RemoveKeeps(l, l.cursor); }
    } else if l.cursor > 0 {
      RemoveKeeps(l, l.cursor - 1);
    }
  }

  /** Every key keeps the terminal in step, as long as the text is printable before and after. */
  lemma PressKeeps(l: Line, c: char, len: nat)
    requires l.Fits(len) && AllPrintable(l.text) && AllPrintable(Press(l, c, len).line.text)
    ensures Keeps(l, Press(l, c, len))
  {
    if IsMove(c) {
      MoveKeeps(l, c);
    } else if IsCut(c) {
      CutKeeps(l, c);
    } else {
      AddKeeps(l, c, len);
    }
  }

  /** A character just inserted can be taken back. */
  lemma EraseUndoesInsert(l: Line, c: char, len: nat)
    requires l.Fits(len) && l.insert && |l.text| < len
    ensures Remove(Add(l, c, len).line, l.cursor).line == l
  {
    var m := Add(l, c, len).line;
    assert m.text[..l.cursor] == l.text[..l.cursor];
    assert m.text[l.cursor + 1..] == l.text[l.cursor..];
  }
}
