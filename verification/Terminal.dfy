/** One line of a terminal, as wide as needed, and what bytes sent to it do. */
module Terminal {
  import opened CText

  const BELL := 7 as char
  const BACKSPACE := 8 as char

  predicate Printable(c: char) {
    ' ' <= c <= '~'
  }

  ghost predicate AllPrintable(s: seq<char>) {
    forall i | 0 <= i < |s| :: Printable(s[i])
  }

  datatype Term = Term(cells: seq<char>, cursor: nat)

  /** A printable character replaces the cell at the cursor; a backspace only moves. */
  function Put(t: Term, c: char): Term {
    if c == BACKSPACE then t.(cursor := if t.cursor > 0 then t.cursor - 1 else 0)
    else if Printable(c) && t.cursor < |t.cells| then Term(t.cells[t.cursor := c], t.cursor + 1)
    else t
  }

  function Show(t: Term, s: seq<char>): (r: Term)
    ensures |r.cells| == |t.cells|
    decreases |s|
  {
    if s == [] then t else Show(Put(t, s[0]), s[1..])
  }

  function Blanks(n: nat): seq<char> {
    Repeat(' ', n)
  }

  function Back(n: nat): seq<char> {
    Repeat(BACKSPACE, n)
  }

  lemma {:induction false} ShowBoth(t: Term, a: seq<char>, b: seq<char>)
    ensures Show(t, a + b) == Show(Show(t, a), b)
    decreases |a|
  {
    if a == [] {
      assert a + b == b;
    } else {
      assert (a + b)[1..] == a[1..] + b;
      ShowBoth(Put(t, a[0]), a[1..], b);
    }
  }

  lemma {:induction false} ShowBack(t: Term, n: nat)
    requires n <= t.cursor
    ensures Show(t, Back(n)) == t.(cursor := t.cursor - n)
    decreases n
  {
    if n > 0 {
      assert Back(n)[1..] == Back(n - 1);
      ShowBack(Put(t, BACKSPACE), n - 1);
    }
  }

  /** Text goes into the cells from the cursor on. */
  lemma {:induction false} ShowText(t: Term, s: seq<char>)
    requires AllPrintable(s) && t.cursor + |s| <= |t.cells|
    ensures Show(t, s) == Term(t.cells[..t.cursor] + s + t.cells[t.cursor + |s|..], t.cursor + |s|)
    decreases |s|
  {
    if s == [] {
      assert t.cells[..t.cursor] + s + t.cells[t.cursor + |s|..] == t.cells;
    } else {
      assert Printable(s[0]);
      ShowText(Put(t, s[0]), s[1..]);
      assert s == [s[0]] + s[1..];
    }
  }

  /** Text, and back over part of it. */
  lemma ShowTextBack(t: Term, s: seq<char>, n: nat)
    requires AllPrintable(s) && t.cursor + |s| <= |t.cells| && n <= t.cursor + |s|
    ensures Show(t, s + Back(n)) == Term(t.cells[..t.cursor] + s + t.cells[t.cursor + |s|..], t.cursor + |s| - n)
  {
    ShowBoth(t, s, Back(n));
    ShowText(t, s);
    ShowBack(Show(t, s), n);
  }

  /** Back, text, and back over part of it. */
  lemma ShowBackTextBack(t: Term, m: nat, s: seq<char>, n: nat)
    requires m <= t.cursor && AllPrintable(s) && t.cursor - m + |s| <= |t.cells| && n <= t.cursor - m + |s|
    ensures var p := t.cursor - m;
            Show(t, Back(m) + (s + Back(n))) == Term(t.cells[..p] + s + t.cells[p + |s|..], p + |s| - n)
  {
    var home, x := t.(cursor := t.cursor - m), s + Back(n);
    assert Show(t, Back(m) + x) == Show(home, x) by {
      ShowBack(t, m);
      ShowBoth(t, Back(m), x);
    }
    ShowTextBack(home, s, n);
  }
}
