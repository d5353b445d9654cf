/** `cread_add_char` and `cread_line_alt`: the editor on its buffer. */
module LineEditor {
  import opened CText
  import opened Terminal
  import opened EditLine
  import opened Escape
  import opened Session
  import opened History
  import opened Recall

  /** An edit whose echo follows what was sent before. */
  function AddTo(out: seq<char>, e: Edit): Edit {
    e.(echo := out + e.echo)
  }

  /** `memmove` inside one buffer. */
  method MoveChars(buf: array<char>, dst: nat, src: nat, n: nat)
    requires dst + n <= buf.Length && src + n <= buf.Length
    modifies buf
    ensures buf[dst..dst + n] == old(buf[src..src + n])
    ensures forall i | 0 <= i < buf.Length && !(dst <= i < dst + n) :: buf[i] == old(buf[i])
  {
    var moved := buf[src..src + n];
    forall i | 0 <= i < n {
      buf[dst + i] := moved[i];
    }
    assert buf[dst..dst + n] == moved;
  }

  /** `putnstr`. */
  method PutNStr(out: seq<char>, buf: array<char>, from: nat, n: nat) returns (sent: seq<char>)
    requires from + n <= buf.Length
    ensures sent == out + buf[from..from + n]
  {
    sent := out;
    var i := 0;
    while i < n
      invariant i <= n && sent == out + buf[from..from + i]
    {
      sent := sent + [buf[from + i]];
      i := i + 1;
    }
  }

  /** The same character `n` times. */
  method PutTimes(out: seq<char>, c: char, n: nat) returns (sent: seq<char>)
    ensures sent == out + Repeat(c, n)
  {
    sent := out;
    var i := 0;
    while i < n
      invariant i <= n && sent == out + Repeat(c, i)
    {
      sent := sent + [c];
      i := i + 1;
    }
  }

  /** A character into the middle of the text, or behind it; there is room for it. */
  method InsertChar(c: char, num: nat, eol: nat, buf: array<char>, out: seq<char>) returns (sent: seq<char>)
    requires num <= eol < buf.Length
    modifies buf
    ensures buf[..eol + 1] == old(buf[..num]) + [c] + old(buf[num..eol])
    ensures sent == out + ([c] + old(buf[num..eol]) + Back(eol - num))
  {
    ghost var before, behind := buf[..num], buf[num..eol];
    var wlen := eol + 1 - num;
    if wlen > 1 {
      MoveChars(buf, num + 1, num, wlen - 1);
    }
    buf[num] := c;
    assert buf[num + 1..eol + 1] == behind;
    assert buf[num..eol + 1] == [c] + behind;
    assert buf[..num] == before;
    sent := PutNStr(out, buf, num, wlen);
    sent := PutTimes(sent, BACKSPACE, wlen - 1);
    Regroup(out, [c] + behind, Back(wlen - 1));
    assert buf[..eol + 1] == buf[..num] + buf[num..eol + 1];
  }

  lemma Regroup(a: seq<char>, b: seq<char>, c: seq<char>)
    ensures (a + b) + c == a + (b + c)
  {
  }

  /** `cread_add_char`. */
  method AddChar(c: char, insert: bool, num: nat, eol: nat, buf: array<char>, len: nat, out: seq<char>)
    returns (num': nat, eol': nat, sent: seq<char>)
    requires num <= eol <= len <= buf.Length && 0 < len
    modifies buf
    ensures num' <= eol' <= len
    ensures Edit(Line(buf[..eol'], num', insert), sent) ==
            AddTo(out, Add(Line(old(buf[..eol]), num, insert), c, len))
  {
    num', eol' := num, eol;
    ghost var text := buf[..eol];
    assert text[..num] == buf[..num] && text[num..] == buf[num..eol];
    if insert || num == eol {
      if eol > len - 1 {
        sent := out + [BELL];
        return;
      }
      eol' := eol + 1;
    }
    if insert {
      sent := InsertChar(c, num, eol, buf, out);
      num' := num + 1;
    } else {
      buf[num] := c;
      sent := PutNStr(out, buf, num, 1);
      num' := num + 1;
      assert buf[num..num + 1] == [c];
      if num == eol {
        assert text[num..] == [] && buf[..eol'] == text + [c];
        assert [c] + [] + Back(0) == [c];
      } else {
        assert buf[..eol'] == text[num := c];
      }
    }
  }

  /** `cread_add_str`. */
  method AddString(str: seq<char>, insert: bool, num: nat, eol: nat, buf: array<char>, len: nat, out: seq<char>)
    returns (num': nat, eol': nat, sent: seq<char>)
    requires num <= eol <= len <= buf.Length && 0 < len
    modifies buf
    ensures num' <= eol' <= len
    ensures Edit(Line(buf[..eol'], num', insert), sent) ==
            AddTo(out, AddAll(Line(old(buf[..eol]), num, insert), str, len))
  {
    num', eol', sent := num, eol, out;
    ghost var l := Line(buf[..eol], num, insert);
    var i := 0;
    while i < |str|
      invariant i <= |str| && num' <= eol' <= len
      invariant AddTo(sent, AddAll(Line(buf[..eol'], num', insert), str[i..], len)) == AddTo(out, AddAll(l, str, len))
    {
      AddTwice(Line(buf[..eol'], num', insert), str[i], str[i + 1..], len, sent);
      assert str[i..] == [str[i]] + str[i + 1..];
      num', eol', sent := AddChar(str[i], insert, num', eol', buf, len, sent);
      i := i + 1;
    }
  }

  lemma AddTwice(l: Line, c: char, rest: seq<char>, len: nat, out: seq<char>)
    requires l.Fits(len)
    ensures var e := Add(l, c, len);
            AddTo(out, AddAll(l, [c] + rest, len)) == AddTo(out + e.echo, AddAll(e.line, rest, len))
  {
    assert ([c] + rest)[1..] == rest;
  }

  /** `BEGINNING_OF_LINE`. */
  method GoHome(num: nat, out: seq<char>) returns (num': nat, sent: seq<char>)
    ensures num' == 0 && sent == out + Back(num)
  {
    num', sent := num, out;
    while num' > 0
      invariant num' <= num && sent == out + Back(num - num')
    {
      sent := sent + [BACKSPACE];
      num' := num' - 1;
    }
  }

  /** `ERASE_TO_EOL`. */
  method EraseLine(num: nat, eol: nat, out: seq<char>) returns (eol': nat, sent: seq<char>)
    requires num <= eol
    ensures eol' == num && sent == out + (Blanks(eol - num) + Back(eol - num))
  {
    eol', sent := eol, out;
    if num < eol {
      sent := PutTimes(sent, ' ', eol - num);
      sent := PutTimes(sent, BACKSPACE, eol - num);
      eol' := num;
    }
    assert eol == num ==> Blanks(eol - num) + Back(eol - num) == [];
  }

  /** `REFRESH_TO_EOL`. */
  method RefreshLine(num: nat, eol: nat, buf: array<char>, out: seq<char>) returns (num': nat, sent: seq<char>)
    requires num <= eol <= buf.Length
    ensures num' == eol && sent == out + buf[num..eol]
  {
    num', sent := num, out;
    if num < eol {
      sent := PutNStr(out, buf, num, eol - num);
      num' := eol;
    }
  }

  /** The characters behind place `k` one place forward, and sent with a blank behind them. */
  method CloseGap(k: nat, eol: nat, buf: array<char>, out: seq<char>) returns (sent: seq<char>)
    requires k < eol <= buf.Length
    modifies buf
    ensures buf[..eol - 1] == old(buf[..k]) + old(buf[k + 1..eol])
    ensures sent == out + (old(buf[k + 1..eol]) + " " + Back(eol - k))
  {
    ghost var before, behind := buf[..k], buf[k + 1..eol];
    var wlen := eol - k - 1;
    sent := out;
    if wlen > 0 {
      MoveChars(buf, k, k + 1, wlen);
    }
    assert buf[k..k + wlen] == behind && buf[..k] == before;
    assert buf[..eol - 1] == buf[..k] + buf[k..k + wlen];
    if wlen > 0 {
      sent := PutNStr(sent, buf, k, wlen);
    }
    sent := sent + [' '];
    sent := PutTimes(sent, BACKSPACE, wlen + 1);
    Regroup(out, behind, " ");
    Regroup(out, behind + " ", Back(wlen + 1));
    assert behind == [] ==> out + behind == out;
  }

  /** The key that removes the character at the cursor. */
  method DeleteKey(ghost insert: bool, num: nat, eol: nat, buf: array<char>, out: seq<char>) returns (eol': nat, sent: seq<char>)
    requires num < eol <= buf.Length
    modifies buf
    ensures eol' == eol - 1
    ensures Edit(Line(buf[..eol'], num, insert), sent) == AddTo(out, Remove(Line(old(buf[..eol]), num, insert), num))
  {
    ghost var text := buf[..eol];
    assert text[..num] == buf[..num] && text[num + 1..] == buf[num + 1..eol];
    RemoveAtCursor(text, num, insert, out);
    sent := CloseGap(num, eol, buf, out);
    eol' := eol - 1;
  }

  lemma RemoveAtCursor(text: seq<char>, num: nat, insert: bool, out: seq<char>)
    requires num < |text|
    ensures AddTo(out, Remove(Line(text, num, insert), num)) ==
            Edit(Line(text[..num] + text[num + 1..], num, insert), out + (text[num + 1..] + " " + Back(|text| - num)))
  {
    assert Back(0) + (text[num + 1..] + " " + Back(|text| - num)) == text[num + 1..] + " " + Back(|text| - num);
    assert text[num + 1..] + (" " + Back(|text| - num)) == text[num + 1..] + " " + Back(|text| - num);
  }

  /** The keys that remove the character before the cursor. */
  method EraseKey(ghost insert: bool, num: nat, eol: nat, buf: array<char>, out: seq<char>) returns (num': nat, eol': nat, sent: seq<char>)
    requires 0 < num <= eol <= buf.Length
    modifies buf
    ensures num' == num - 1 && eol' == eol - 1
    ensures Edit(Line(buf[..eol'], num', insert), sent) ==
            AddTo(out, Remove(Line(old(buf[..eol]), num, insert), num - 1))
  {
    ghost var text := buf[..eol];
    num' := num - 1;
    assert text[..num'] == buf[..num'] && text[num..] == buf[num..eol];
    sent := CloseGap(num', eol, buf, out + [BACKSPACE]);
    eol' := eol - 1;
    assert Back(1) == [BACKSPACE];
    Regroup(out, Back(1), text[num..] + " " + Back(eol - num'));
  }

  /** The keys that leave the text alone. */
  method MoveKey(c: char, insert: bool, num: nat, eol: nat, buf: array<char>, out: seq<char>)
    returns (insert': bool, num': nat, sent: seq<char>)
    requires num <= eol <= buf.Length && IsMove(c)
    ensures num' <= eol && Edit(Line(buf[..eol], num', insert'), sent) == AddTo(out, Move(Line(buf[..eol], num, insert), c))
  {
    insert', num', sent := insert, num, out;
    if c == CTL_A {
      num', sent := GoHome(num, sent);
    } else if c == CTL_F {
      if num < eol {
        sent := sent + [buf[num]];
        num' := num + 1;
      }
    } else if c == CTL_B {
      if num > 0 {
        sent := sent + [BACKSPACE];
        num' := num - 1;
      }
    } else if c == CTL_E {
      num', sent := RefreshLine(num, eol, buf, sent);
    } else {
      insert' := !insert;
    }
  }

  /** The line away: by going back over the cursor's part of it, and blanking all of it. */
  method WipeKey(num: nat, eol: nat, out: seq<char>) returns (num': nat, eol': nat, sent: seq<char>)
    requires num <= eol
    ensures num' == 0 && eol' == 0 && sent == out + (Back(num) + (Blanks(eol) + Back(eol)))
  {
    sent := PutTimes(out, BACKSPACE, num);
    sent := PutTimes(sent, ' ', eol);
    sent := PutTimes(sent, BACKSPACE, eol);
    num', eol' := 0, 0;
  }

  /** The same by the two macros. */
  method HomeAndErase(num: nat, eol: nat, out: seq<char>) returns (num': nat, eol': nat, sent: seq<char>)
    requires num <= eol
    ensures num' == 0 && eol' == 0 && sent == out + (Back(num) + (Blanks(eol) + Back(eol)))
  {
    num', sent := GoHome(num, out);
    eol', sent := EraseLine(num', eol, sent);
  }

  /** The keys that take text away. */
  method CutKey(c: char, ghost insert: bool, num: nat, eol: nat, buf: array<char>, out: seq<char>)
    returns (num': nat, eol': nat, sent: seq<char>)
    requires num <= eol <= buf.Length && IsCut(c)
    modifies buf
    ensures num' <= eol' <= eol
    ensures Edit(Line(buf[..eol'], num', insert), sent) == AddTo(out, Cut(Line(old(buf[..eol]), num, insert), c))
  {
    num', eol', sent := num, eol, out;
    if c == CTL_U {
      num', eol', sent := WipeKey(num, eol, sent);
    } else if c == CTL_D {
      if num < eol {
        eol', sent := DeleteKey(insert, num, eol, buf, sent);
      }
    } else if c == CTL_K {
      eol', sent := EraseLine(num, eol, sent);
    } else if c == CTL_X {
      num', eol', sent := HomeAndErase(num, eol, sent);
    } else if num > 0 {
      num', eol', sent := EraseKey(insert, num, eol, buf, sent);
    }
  }

  /** The key switch, but for the history and the escape byte. */
  method PressKey(c: char, insert: bool, num: nat, eol: nat, buf: array<char>, len: nat, out: seq<char>)
    returns (insert': bool, num': nat, eol': nat, sent: seq<char>)
    requires num <= eol <= len <= buf.Length && 0 < len
    modifies buf
    ensures num' <= eol' <= len
    ensures Edit(Line(buf[..eol'], num', insert'), sent) ==
            AddTo(out, Press(Line(old(buf[..eol]), num, insert), c, len))
  {
    insert', num', eol', sent := insert, num, eol, out;
    if IsMove(c) {
      insert', num', sent := MoveKey(c, insert, num, eol, buf, out);
    } else if IsCut(c) {
      num', eol', sent := CutKey(c, insert, num, eol, buf, out);
    } else {
      num', eol', sent := AddChar(c, insert, num, eol, buf, len, out);
    }
  }

  /** `strcpy`. */
  method StrCpy(buf: array<char>, s: seq<char>)
    requires |s| < buf.Length
    modifies buf
    ensures buf[..|s|] == s && buf[|s|] == NUL
  {
    forall i | 0 <= i < |s| {
      buf[i] := s[i];
    }
    buf[|s|] := NUL;
  }

  /** `strlen`. */
  method StrLen(buf: array<char>, ghost s: seq<char>) returns (n: nat)
    requires |s| < buf.Length && buf[..|s|] == s && buf[|s|] == NUL && NUL !in s
    ensures n == |s|
  {
    n := 0;
    while buf[n] != NUL
      invariant n <= |s|
      decreases |s| - n
    {
      assert n < |s| ==> buf[n] == s[n];
      n := n + 1;
    }
  }

  /** Every line fits a buffer of this size, with its terminator. */
  predicate Short(log: seq<seq<char>>, size: nat) {
    forall i | 0 <= i < |log| :: |log[i]| < size
  }

  /** The keys for the previous and the next line of the history. */
  method RecallKey(c: char, insert: bool, num: nat, eol: nat, buf: array<char>, len: nat, hist: History, out: seq<char>)
    returns (num': nat, eol': nat, sent: seq<char>)
    requires num <= eol <= len <= buf.Length && 0 < len && IsRecall(c) && hist.Valid()
    requires forall i | 0 <= i < |hist.View().log| :: Recallable(hist.View().log[i], len)
    requires Short(hist.View().log, buf.Length)
    modifies buf, hist`cur, hist`back
    ensures hist.Valid() && num' <= eol' <= len
    ensures var r := RecallLine(Session(Line(old(buf[..eol]), num, insert), [], old(hist.View())), c);
            && Line(buf[..eol'], num', insert) == r.s.line && hist.View() == r.s.past && sent == out + r.echo
  {
    var found;
    ghost var past := hist.View();
    if c == CTL_P {
      found := hist.Prev();
    } else {
      found := hist.Next();
    }
    num', eol', sent := num, eol, out;
    if found.Null? {
      sent := sent + [BELL];
    } else {
      FoundRecallable(past, c, len, buf.Length);
      num', eol', sent := ShowLine(found.text, insert, num, eol, buf, len, sent);
    }
  }

  /** Another line in place of the one in the buffer. */
  method ShowLine(text: seq<char>, insert: bool, num: nat, eol: nat, buf: array<char>, len: nat, out: seq<char>)
    returns (num': nat, eol': nat, sent: seq<char>)
    requires num <= eol <= len <= buf.Length && Recallable(text, len) && |text| < buf.Length
    modifies buf
    ensures num' <= eol' <= len
    ensures Edit(Line(buf[..eol'], num', insert), sent) == AddTo(out, Replace(Line(old(buf[..eol]), num, insert), text))
  {
    num', sent := GoHome(num, out);
    eol', sent := EraseLine(num', eol, sent);
    StrCpy(buf, text);
    eol' := StrLen(buf, text);
    num', sent := RefreshLine(num', eol', buf, sent);
  }

  lemma FoundRecallable(p: Recall.Past, c: char, len: nat, size: nat)
    requires p.Valid() && Short(p.log, size) && 0 < size && forall i | 0 <= i < |p.log| :: Recallable(p.log[i], len)
    ensures var found := (if c == CTL_P then p.Older() else p.Newer()).1;
            found.To? ==> Recallable(found.text, len) && |found.text| < size
  {
    if c == CTL_P {
      if 0 <= p.back < p.Reach() { LineRecallable(p, p.back + 1, len); }
    } else if p.back > 0 {
      LineRecallable(p, p.back - 1, len);
    }
  }

  /** `memcmp` of the saved bytes behind `ESC [` with a name of two bytes and its terminator. */
  method Matches(save: array<char>, n: nat, name: seq<char>) returns (same: bool)
    requires 4 <= n <= save.Length && |name| == 2 && IsFinal(name[1])
    requires forall i | 2 <= i < n - 1 :: !IsFinal(save[i])
    ensures same <==> save[2..n] == name
  {
    var i := 0;
    while i < n - 2
      invariant i <= n - 2 && i <= 2 && save[2..2 + i] == name[..i]
      invariant n > 4 ==> i <= 1
    {
      if save[2 + i] != name[i] {
        assert save[2..n][i] != name[i] || n - 2 < i;
        return false;
      }
      i := i + 1;
    }
    assert n == 4;
    return true;
  }

  /** A byte behind an escape byte: saved, then looked at. */
  method TakeEscape(save: array<char>, n: nat, c: char) returns (d: Decoded)
    requires save.Length == ESC_BUFF_SIZE && 0 < n <= 6 && Saved(save[..n])
    modifies save
    ensures d == Decode(old(save[..n]), c) && save[..n + 1] == old(save[..n]) + [c]
  {
    ghost var esc := save[..n];
    save[n] := c;
    assert save[..n + 1] == esc + [c];
    if n + 1 == 2 {
      d := if c == '[' then More(save[..2]) else Key(c);
    } else if n + 1 == 3 {
      match c {
        case 'D' => d := Key(CTL_B);
        case 'C' => d := Key(CTL_F);
        case 'H' => d := Key(CTL_A);
        case 'A' => d := Key(CTL_P);
        case 'B' => d := Key(CTL_N);
        case _ => d := if IsFinal(c) then Key(c) else More(save[..3]);
      }
    } else {
      d := LongEscape(save, n + 1, c, esc);
    }
  }

  method LongEscape(save: array<char>, n: nat, c: char, ghost esc: seq<char>) returns (d: Decoded)
    requires save.Length == ESC_BUFF_SIZE && 4 <= n <= 7 && |esc| == n - 1 && Saved(esc) && save[..n] == esc + [c]
    ensures d == Decode(esc, c)
  {
    if !IsFinal(c) && n < ESC_BUFF_SIZE - 1 {
      return More(save[..n]);
    }
    assert forall i | 2 <= i < n - 1 :: !IsFinal(save[i]) by {
      assert forall i | 2 <= i < n - 1 :: save[i] == (esc + [c])[i] == esc[i];
    }
    assert save[2..n] == (esc + [c])[2..];
    var same := Matches(save, n, "2~");
    if same {
      return Key(CTL_A);
    }
    same := Matches(save, n, "5~");
    if same {
      return Key(CTL_E);
    }
    d := if IsFinal(c) then Ignored else Overflow(save[..n], c);
  }

  /** The whole state of the editor, as a session. */
  ghost function State(buf: array<char>, num: nat, eol: nat, insert: bool, save: array<char>, n: nat, hist: History): Session
    reads buf, save, hist
    requires eol <= buf.Length && n <= save.Length
  {
    Session(Line(buf[..eol], num, insert), save[..n], hist.View())
  }

  /** A reply whose echo follows what was sent before. */
  function Extend(out: seq<char>, r: Reply): Reply {
    r.(echo := out + r.echo)
  }

  /** The key switch. It is only reached with no byte saved, so the arm that reports otherwise is dead. */
  method ActKey(c: char, insert: bool, num: nat, eol: nat, buf: array<char>, len: nat, save: array<char>, n: nat,
                hist: History, out: seq<char>)
    returns (insert': bool, num': nat, eol': nat, n': nat, sent: seq<char>)
    requires n == 0 && save != buf && save.Length == ESC_BUFF_SIZE && 0 < len <= buf.Length && eol <= len && hist.Valid()
    requires Sound(State(buf, num, eol, insert, save, 0, hist), len) && Short(hist.View().log, buf.Length)
    modifies buf, save, hist`cur, hist`back
    ensures hist.Valid() && eol' <= len && n' <= save.Length
    ensures Reply(State(buf, num', eol', insert', save, n', hist), sent) ==
            Extend(out, Act(old(State(buf, num, eol, insert, save, 0, hist)), c, len))
  {
    insert', num', eol', n', sent := insert, num, eol, n, out;
    if c == ESC {
      if n == 0 {
        save[n] := c;
        n' := 1;
      } else {
        assert false;
      }
    } else if IsRecall(c) {
      num', eol', sent := RecallKey(c, insert, num, eol, buf, len, hist, out);
    } else {
      insert', num', eol', sent := PressKey(c, insert, num, eol, buf, len, out);
    }
  }

  /** Text that was taken for an escape sequence, and the key behind it. */
  method Overflowed(esc: seq<char>, k: char, insert: bool, num: nat, eol: nat, buf: array<char>, len: nat, save: array<char>,
                    hist: History, out: seq<char>)
    returns (insert': bool, num': nat, eol': nat, n': nat, sent: seq<char>)
    requires save != buf && save.Length == ESC_BUFF_SIZE && 0 < len <= buf.Length && eol <= len && hist.Valid()
    requires Sound(State(buf, num, eol, insert, save, 0, hist), len) && Short(hist.View().log, buf.Length)
    modifies buf, save, hist`cur, hist`back
    ensures hist.Valid() && eol' <= len && n' <= save.Length
    ensures Reply(State(buf, num', eol', insert', save, n', hist), sent) ==
            Extend(out, Follow(old(State(buf, num, eol, insert, save, 0, hist)), Overflow(esc, k), len))
  {
    ghost var s := State(buf, num, eol, insert, save, 0, hist);
    ghost var e := AddAll(s.line, esc, len);
    OverflowActs(s, esc, k, len, out);
    num', eol', sent := AddString(esc, insert, num, eol, buf, len, out);
    assert State(buf, num', eol', insert, save, 0, hist) == s.(line := e.line);
    insert', num', eol', n', sent := ActKey(k, insert, num', eol', buf, len, save, 0, hist, sent);
  }

  lemma OverflowActs(s: Session, esc: seq<char>, k: char, len: nat, out: seq<char>)
    requires s.line.Fits(len) && s.past.Valid() && s.esc == []
    ensures var e := AddAll(s.line, esc, len);
            Extend(out, Follow(s, Overflow(esc, k), len)) == Extend(out + e.echo, Act(s.(line := e.line), k, len))
  {
    var e := AddAll(s.line, esc, len);
    assert s.(esc := []) == s;
    Regroup(out, e.echo, Act(s.(line := e.line), k, len).echo);
  }

  /** A byte behind an escape byte. */
  method EscapeByte(c: char, insert: bool, num: nat, eol: nat, buf: array<char>, len: nat, save: array<char>, n: nat,
                    hist: History, out: seq<char>)
    returns (insert': bool, num': nat, eol': nat, n': nat, sent: seq<char>)
    requires save != buf && save.Length == ESC_BUFF_SIZE && 0 < len <= buf.Length && eol <= len && 0 < n <= 6 && hist.Valid()
    requires Sound(State(buf, num, eol, insert, save, n, hist), len) && Short(hist.View().log, buf.Length)
    modifies buf, save, hist`cur, hist`back
    ensures hist.Valid() && eol' <= len && n' <= save.Length
    ensures var s := old(State(buf, num, eol, insert, save, n, hist));
            Reply(State(buf, num', eol', insert', save, n', hist), sent) ==
            Extend(out, Follow(s.(esc := []), Decode(s.esc, c), len))
  {
    var d := TakeEscape(save, n, c);
    assert Sound(State(buf, num, eol, insert, save, 0, hist), len);
    insert', num', eol', n', sent := insert, num, eol, 0, out;
    match d {
      case More(esc) => n' := n + 1;
      case Key(k) => insert', num', eol', n', sent := ActKey(k, insert, num, eol, buf, len, save, n', hist, out);
      case Ignored =>
      case Overflow(esc, k) =>
        insert', num', eol', n', sent := Overflowed(esc, k, insert, num, eol, buf, len, save, hist, out);
    }
  }

  lemma FollowIdle(s: Session, d: Decoded, len: nat)
    requires s.line.Fits(len) && s.past.Valid()
    ensures Follow(s, d, len) == Follow(s.(esc := []), d, len)
  {
  }

  /** One byte that is not the end of the line. */
  method ReceiveByte(c: char, insert: bool, num: nat, eol: nat, buf: array<char>, len: nat, save: array<char>, n: nat,
                     hist: History, out: seq<char>)
    returns (insert': bool, num': nat, eol': nat, n': nat, sent: seq<char>)
    requires save != buf && save.Length == ESC_BUFF_SIZE && 0 < len <= buf.Length && eol <= len && n <= 6 && hist.Valid()
    requires Sound(State(buf, num, eol, insert, save, n, hist), len) && Short(hist.View().log, buf.Length)
    modifies buf, save, hist`cur, hist`back
    ensures hist.Valid() && eol' <= len && n' <= save.Length
    ensures Reply(State(buf, num', eol', insert', save, n', hist), sent) ==
            Extend(out, Receive(old(State(buf, num, eol, insert, save, n, hist)), c, len))
  {
    ghost var s := State(buf, num, eol, insert, save, n, hist);
    if n == 0 {
      insert', num', eol', n', sent := ActKey(c, insert, num, eol, buf, len, save, n, hist, out);
    } else {
      FollowIdle(s, Decode(s.esc, c), len);
      insert', num', eol', n', sent := EscapeByte(c, insert, num, eol, buf, len, save, n, hist, out);
    }
  }

  predicate IsNewline(c: char) {
    c == '\n' || c == '\r'
  }

  /** Where the first newline character is, or the end. */
  function LineEnd(s: seq<char>): (n: nat)
    ensures n <= |s| && (n < |s| ==> s[n] == '\n' || s[n] == '\r')
    ensures forall i | 0 <= i < n :: s[i] != '\n' && s[i] != '\r'
  {
    if s == [] || IsNewline(s[0]) then 0 else 1 + LineEnd(s[1..])
  }

  lemma NextByte(start: Session, input: seq<char>, i: nat, len: nat)
    requires Sound(start, len) && i < |input|
    ensures var r := Type(start, input[..i], len);
            Type(start, input[..i + 1], len) == Extend(r.echo, Receive(r.s, input[i], len))
  {
    assert input[..i] + [input[i]] == input[..i + 1];
    TypeSnoc(start, input[..i], input[i], len);
  }

  /** One more byte of the input. */
  method TakeByte(input: seq<char>, taken: nat, insert: bool, num: nat, eol: nat, buf: array<char>, len: nat, save: array<char>,
                  n: nat, hist: History, out: seq<char>, ghost start: Session)
    returns (insert': bool, num': nat, eol': nat, n': nat, sent: seq<char>)
    requires save != buf && save.Length == ESC_BUFF_SIZE && 0 < len <= buf.Length && eol <= len && n <= 6 && hist.Valid()
    requires taken < |input| && Sound(start, len) && Short(start.past.log, buf.Length)
    requires Reply(State(buf, num, eol, insert, save, n, hist), out) == Type(start, input[..taken], len)
    modifies buf, save, hist`cur, hist`back
    ensures hist.Valid() && eol' <= len && n' <= 6
    ensures Reply(State(buf, num', eol', insert', save, n', hist), sent) == Type(start, input[..taken + 1], len)
  {
    NextByte(start, input, taken, len);
    TypeKeepsLog(start, input[..taken], len);
    insert', num', eol', n', sent := ReceiveByte(input[taken], insert, num, eol, buf, len, save, n, hist, out);
    assert Sound(State(buf, num', eol', insert', save, n', hist), len);
  }

  /** The loop over the bytes, up to a newline character or the end of what was typed. */
  method ReadBytes(input: seq<char>, buf: array<char>, len: nat, save: array<char>, hist: History, ghost start: Session)
    returns (taken: nat, num: nat, eol: nat, insert: bool, n: nat, out: seq<char>)
    requires save != buf && save.Length == ESC_BUFF_SIZE && 0 < len <= buf.Length && hist.Valid()
    requires start == State(buf, 0, 0, true, save, 0, hist) && Sound(start, len) && Short(start.past.log, buf.Length)
    modifies buf, save, hist`cur, hist`back
    ensures hist.Valid() && taken == LineEnd(input) && eol <= len && n <= save.Length
    ensures Reply(State(buf, num, eol, insert, save, n, hist), out) == Type(start, input[..taken], len)
  {
    taken, num, eol, insert, n, out := 0, 0, 0, true, 0, [];
    TypeNothing(start, input[..0], len);
    while taken < |input| && !IsNewline(input[taken])
      invariant taken <= LineEnd(input) && eol <= len && n <= 6 && hist.Valid()
      invariant Reply(State(buf, num, eol, insert, save, n, hist), out) == Type(start, input[..taken], len)
    {
      insert, num, eol, n, out := TakeByte(input, taken, insert, num, eol, buf, len, save, n, hist, out, start);
      taken := taken + 1;
    }
  }

  lemma TypeNothing(start: Session, input: seq<char>, len: nat)
    requires Sound(start, len) && input == []
    ensures Type(start, input, len) == Reply(start, [])
  {
  }

  /** `cread_line_alt`. If what was typed holds no newline character, it is still waiting. The terminator of a full
      line is stored behind `len` cells; `stored` says whether that is inside the buffer. The only call in the
      repository passes the size of the buffer as `len`, and then it is so just for lines that are not full. */
  method ReadLine(input: seq<char>, buf: array<char>, len: nat, hist: History)
    returns (taken: nat, eol: nat, out: seq<char>, ended: bool, stored: bool)
    requires 0 < len <= buf.Length && hist.Valid() && Short(hist.View().log, buf.Length)
    requires forall i | 0 <= i < |hist.View().log| :: Recallable(hist.View().log[i], len)
    modifies buf, hist, hist.lines
    ensures hist.Valid() && taken == LineEnd(input) && eol <= len && (ended <==> taken < |input|)
    ensures stored <==> ended && eol < buf.Length
    ensures buf.Length == len ==> (stored <==> ended && eol < len)
    ensures var start := Session(Line([], 0, true), [], old(hist.View()));
            && Sound(start, len)
            && var r := Type(start, input[..taken], len);
            && buf[..eol] == r.s.line.text && out == r.echo + (if ended then "\n\r" else "")
            && hist.View() == (if stored then Enter(r.s).past else r.s.past)
    ensures stored ==> Short(hist.View().log, buf.Length)
  {
    var save := new char[ESC_BUFF_SIZE];
    ghost var start := State(buf, 0, 0, true, save, 0, hist);
    assert start == Session(Line([], 0, true), [], hist.View());
    var num, insert, n;
    taken, num, eol, insert, n, out := ReadBytes(input, buf, len, save, hist, start);
    TypeKeepsLog(start, input[..taken], len);
    ended := taken < |input|;
    stored := false;
    if ended {
      out := out + "\n\r";
      stored := Finish(buf, eol, hist);
    }
  }

  /** The terminator is stored and the line recorded, if there is a cell for it. */
  method Finish(buf: array<char>, eol: nat, hist: History) returns (stored: bool)
    requires eol <= buf.Length && hist.Valid() && Short(hist.View().log, buf.Length)
    modifies buf, hist, hist.lines
    ensures hist.Valid() && buf[..eol] == old(buf[..eol]) && (stored <==> eol < buf.Length)
    ensures hist.View() == if stored then old(hist.View()).End(Contents(buf[..eol])) else old(hist.View())
    ensures Short(hist.View().log, buf.Length)
  {
    stored := false;
    if eol < buf.Length {
      stored := true;
      buf[eol] := NUL;
      var line := BufferText(buf, eol);
      hist.EndLine(line);
    }
  }

  /** A full line can be typed: as many printable characters as the line takes. */
  lemma FullLine(past: Recall.Past, input: seq<char>, len: nat)
    requires |input| == len && AllPrintable(input)
    requires Sound(Session(Line([], 0, true), [], past), len)
    ensures |Type(Session(Line([], 0, true), [], past), input, len).s.line.text| == len
  {
    TypePlain(Session(Line([], 0, true), [], past), [], input, len);
  }

  /** What a string function sees of the buffer. */
  method BufferText(buf: array<char>, eol: nat) returns (line: seq<char>)
    requires eol < buf.Length && buf[eol] == NUL
    ensures line == Contents(buf[..eol]) && NUL !in line
  {
    line := [];
    while buf[|line|] != NUL
      invariant |line| <= Length(buf[..eol]) && line == buf[..|line|]
      decreases eol - |line|
    {
      line := line + [buf[|line|]];
    }
    assert |line| == Length(buf[..eol]);
  }
}
