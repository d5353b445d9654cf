/** The keys of the line editor, by the numbers of their bytes: what each makes of the line, its cursor and its mode. */
module Keys {
  import opened EditLine
  import opened Escape
  import opened Session
  import opened Strokes

  // The keys that leave the text alone

  /** ^a to the beginning, ^b one back, ^e to the end, ^f one on, ^o to the other mode. */
  lemma MovingKeys(l: Line, len: nat)
    requires l.Fits(len)
    ensures Press(l, 1 as char, len).line == Line(l.text, 0, l.insert)
    ensures Press(l, 2 as char, len).line == Line(l.text, if l.cursor == 0 then 0 else l.cursor - 1, l.insert)
    ensures Press(l, 5 as char, len).line == Line(l.text, |l.text|, l.insert)
    ensures l.cursor < |l.text| ==> Press(l, 6 as char, len).line == Line(l.text, l.cursor + 1, l.insert)
    ensures l.cursor == |l.text| ==> Press(l, 6 as char, len).line == l
    ensures Press(l, 15 as char, len).line == Line(l.text, l.cursor, !l.insert)
  {
  }

  // The keys that take text away

  /** ^d the character at the cursor, ^k everything from there on, ^u and ^x the whole line. */
  lemma CuttingKeys(l: Line, len: nat)
    requires l.Fits(len)
    ensures l.cursor < |l.text| ==>
              Press(l, 4 as char, len).line == Line(l.text[..l.cursor] + l.text[l.cursor + 1..], l.cursor, l.insert)
    ensures l.cursor == |l.text| ==> Press(l, 4 as char, len).line == l
    ensures Press(l, 11 as char, len).line == Line(l.text[..l.cursor], l.cursor, l.insert)
    ensures Press(l, 21 as char, len).line == Line([], 0, l.insert)
    ensures Press(l, 24 as char, len).line == Line([], 0, l.insert)
  {
  }

  /** Backspace and both kinds of delete: the character before the cursor. */
  lemma ErasingKeys(l: Line, c: char, len: nat)
    requires l.Fits(len) && c as int in {8, 127, 255}
    ensures l.cursor > 0 ==>
              Press(l, c, len).line == Line(l.text[..l.cursor - 1] + l.text[l.cursor..], l.cursor - 1, l.insert)
    ensures l.cursor == 0 ==> Press(l, c, len).line == l
  {
  }

  // All other bytes

  /** Any other byte is inserted at the cursor, or in the other mode takes the place of the character there; a full line
      stays as it is. */
  lemma OtherKeys(l: Line, c: char, len: nat)
    requires l.Fits(len) && c as int !in {1, 2, 4, 5, 6, 8, 11, 15, 21, 24, 127, 255}
    ensures Press(l, c, len).line ==
            if !l.insert && l.cursor < |l.text| then
              Line(l.text[..l.cursor] + [c] + l.text[l.cursor + 1..], l.cursor + 1, l.insert)
            else if |l.text| == len then l
            else Line(l.text[..l.cursor] + [c] + l.text[l.cursor..], l.cursor + 1, l.insert)
  {
    var before, behind := l.text[..l.cursor], l.text[l.cursor..];
    if l.cursor < |l.text| {
      assert l.text[l.cursor := c] == before + [c] + l.text[l.cursor + 1..];
    }
  }

  /** The bytes of a string are added in their order. */
  lemma {:induction false} StringAdded(l: Line, s: seq<char>, len: nat)
    requires l.cursor == |l.text| && |l.text| + |s| <= len
    ensures AddAll(l, s, len).line == Line(l.text + s, |l.text + s|, l.insert)
    decreases |s|
  {
    if s == [] {
      assert l.text + s == l.text;
    } else {
      var first := Add(l, s[0], len).line;
      AddBehind(l, s[0], len);
      StringAdded(first, s[1..], len);
      assert l.text + [s[0]] + s[1..] == l.text + s;
    }
  }

  // In a session

  /** All these bytes change the line and nothing else. */
  lemma KeyTyped(s: Session, c: char, len: nat)
    requires Sound(s, len) && s.esc == [] && c as int !in {14, 16, 27}
    ensures Type(s, [c], len).s == s.(line := Press(s.line, c, len).line)
  {
    TypeOne(s, c, len);
  }

  lemma OlderRecalled(s: Session)
    requires s.past.Valid() && s.line.cursor <= |s.line.text|
    ensures var back, log := s.past.back, s.past.log;
            RecallLine(s, CTL_P).s ==
            if 0 <= back < |log| && back < s.past.room then
              s.(line := Replace(s.line, log[|log| - 1 - back]).line, past := s.past.(back := back + 1))
            else s
  {
  }

  lemma NewerRecalled(s: Session)
    requires s.past.Valid() && s.line.cursor <= |s.line.text|
    ensures var back, log := s.past.back, s.past.log;
            RecallLine(s, CTL_N).s ==
            if 1 < back <= |log| then
              s.(line := Replace(s.line, log[|log| + 1 - back]).line, past := s.past.(back := back - 1))
            else if back == 1 then s.(line := Replace(s.line, []).line, past := s.past.(back := 0))
            else s
  {
  }

  /** ^p shows the line before the one that is shown, as long as there is one within reach; the cursor is behind it. */
  lemma OlderTyped(s: Session, len: nat)
    requires Sound(s, len) && s.esc == []
    ensures var back, log := s.past.back, s.past.log;
            Type(s, [16 as char], len).s ==
            if 0 <= back < |log| && back < s.past.room then
              var text := log[|log| - 1 - back];
              s.(line := Line(text, |text|, s.line.insert), past := s.past.(back := back + 1))
            else s
  {
    OlderRecalled(s);
    TypeOne(s, 16 as char, len);
  }

  /** ^n shows the line after it, and behind the newest one an empty line. */
  lemma NewerTyped(s: Session, len: nat)
    requires Sound(s, len) && s.esc == []
    ensures var back, log := s.past.back, s.past.log;
            Type(s, [14 as char], len).s ==
            if 1 < back <= |log| then
              var text := log[|log| + 1 - back];
              s.(line := Line(text, |text|, s.line.insert), past := s.past.(back := back - 1))
            else if back == 1 then s.(line := Line([], 0, s.line.insert), past := s.past.(back := 0))
            else s
  {
    NewerRecalled(s);
    TypeOne(s, 14 as char, len);
  }

  // The sequences of a terminal

  lemma SequenceIsKey(s: Session, params: seq<char>, final: char, key: char, len: nat)
    requires Sound(s, len) && s.esc == [] && IsSequence(params, final) && Meaning(params, final) == Key(key)
    ensures Type(s, [ESC, '['] + params + [final], len) == Type(s, [key], len)
  {
    SequenceRun(s, params, final, len);
    TypeOne(s, key, len);
    assert s.(esc := []) == s;
  }

  /** The arrows up and down are ^p and ^n. */
  lemma VerticalArrows(s: Session, len: nat)
    requires Sound(s, len) && s.esc == []
    ensures Type(s, [27 as char, '[', 'A'], len) == Type(s, [16 as char], len)
    ensures Type(s, [27 as char, '[', 'B'], len) == Type(s, [14 as char], len)
  {
    LetterKey(s, 'A', 16 as char, len);
    LetterKey(s, 'B', 14 as char, len);
  }

  /** The arrows right and left are ^f and ^b. */
  lemma HorizontalArrows(s: Session, len: nat)
    requires Sound(s, len) && s.esc == []
    ensures Type(s, [27 as char, '[', 'C'], len) == Type(s, [6 as char], len)
    ensures Type(s, [27 as char, '[', 'D'], len) == Type(s, [2 as char], len)
  {
    LetterKey(s, 'C', 6 as char, len);
    LetterKey(s, 'D', 2 as char, len);
  }

  /** Home, also with the number 2, is ^a. */
  lemma HomeKeys(s: Session, len: nat)
    requires Sound(s, len) && s.esc == []
    ensures Type(s, [27 as char, '[', 'H'], len) == Type(s, [1 as char], len)
    ensures Type(s, [27 as char, '[', '2', '~'], len) == Type(s, [1 as char], len)
  {
    LetterKey(s, 'H', 1 as char, len);
    DigitKey(s, '2', 1 as char, len);
  }

  /** The sequence with the number 5 is ^e. */
  lemma EndKey(s: Session, len: nat)
    requires Sound(s, len) && s.esc == []
    ensures Type(s, [27 as char, '[', '5', '~'], len) == Type(s, [5 as char], len)
  {
    DigitKey(s, '5', 5 as char, len);
  }

  lemma LetterKey(s: Session, final: char, key: char, len: nat)
    requires Sound(s, len) && s.esc == [] && IsFinal(final) && Arrow(final) == key
    ensures Type(s, [27 as char, '[', final], len) == Type(s, [key], len)
  {
    SequenceIsKey(s, [], final, key, len);
    assert [ESC, '['] + [] + [final] == [27 as char, '[', final];
  }

  lemma DigitKey(s: Session, digit: char, key: char, len: nat)
    requires Sound(s, len) && s.esc == [] && Meaning([digit], '~') == Key(key) && !IsFinal(digit)
    ensures Type(s, [27 as char, '[', digit, '~'], len) == Type(s, [key], len)
  {
    SequenceIsKey(s, [digit], '~', key, len);
    assert [ESC, '['] + [digit] + ['~'] == [27 as char, '[', digit, '~'];
  }
}
