/** The ring of history buffers. */
module History {
  import opened CText
  import opened Recall
  import opened Rings

  /** Where in the ring `back` lines back is; -1 before the first line has ended. */
  function Position(addIdx: nat, maxIdx: nat, back: int): int {
    if back < 0 then -1 else if back <= addIdx then addIdx - back else addIdx - back + maxIdx + 1
  }

  /** One step around the ring is one line back, or one forward. */
  lemma Steps(addIdx: nat, maxIdx: nat, back: nat)
    requires addIdx <= maxIdx && back <= maxIdx
    ensures var c := Position(addIdx, maxIdx, back);
            && 0 <= c <= maxIdx && (c == addIdx <==> back == 0)
            && (var p := if c == 0 then maxIdx else c - 1;
                if back == maxIdx then p == addIdx else p != addIdx && p == Position(addIdx, maxIdx, back + 1))
            && (back > 0 ==> (if c == maxIdx then 0 else c + 1) == Position(addIdx, maxIdx, back - 1))
  {
  }

  class History {
    const lines: array<seq<char>>
    var maxIdx: nat
    var addIdx: nat
    var cur: int
    var count: nat
    ghost var log: seq<seq<char>>
    ghost var back: int

    /** Where the n-th recorded line is kept. */
    ghost function Slot(n: nat): nat
      requires lines.Length > 0
    {
      n % lines.Length
    }

    ghost predicate Ring()
      reads this`maxIdx, this`addIdx, this`count, this`log, lines
    {
      var k := |log|;
      && lines.Length > 0 && addIdx == Slot(k) && count == k
      && maxIdx == (if k < lines.Length then k else lines.Length - 1)
      && forall n | 0 <= n < k && k - n < lines.Length :: lines[Slot(n)] == log[n]
    }

    ghost predicate Valid()
      reads this, lines
    {
      && Ring() && -1 <= back <= maxIdx
      && cur == Position(addIdx, maxIdx, back)
    }

    ghost function View(): Past
      reads this
    {
      Past(log, if lines.Length > 0 then lines.Length - 1 else 0, back)
    }
  
    /** `hist_init`. */
    constructor (capacity: nat)
      requires capacity > 0
      ensures Valid() && fresh(lines)
      ensures View() == Past([], capacity - 1, -1)
    {
      lines := new seq<char>[capacity](_ => "");
      maxIdx, addIdx, cur, count := 0, 0, -1, 0;
      log, back := [], -1;
    }

    /** `cread_add_to_hist`. */
    method AddToHist(line: seq<char>)
      requires Ring()
      modifies this`maxIdx, this`addIdx, this`count, this`log, lines
      ensures Ring() && log == old(log) + [line]
    {
      ghost var k, m := |log|, lines.Length;
      PlacesDiffer(k, m);
      Successor(k, m);
      lines[addIdx] := line;
      addIdx := addIdx + 1;
      if addIdx >= lines.Length {
        addIdx := 0;
      }
      if addIdx > maxIdx {
        maxIdx := addIdx;
      }
      count := count + 1;
      log := log + [line];
    }

    /** What is kept where `j` lines back is. */
    lemma Kept(j: nat)
      requires Ring() && 0 < j <= maxIdx
      ensures var c := Position(addIdx, maxIdx, j);
              0 <= c < lines.Length && j <= |log| && lines[c] == log[|log| - j]
    {
      StepBack(|log|, lines.Length, j);
      Successor(|log|, lines.Length);
      assert lines[Slot(|log| - j)] == log[|log| - j];
    }

    lemma Bounds()
      requires Ring()
      ensures addIdx <= maxIdx < lines.Length && maxIdx == View().Reach()
    {
      Successor(|log|, lines.Length);
    }

    /** `hist_prev`. */
    method Prev() returns (line: Pointer)
      requires Valid()
      modifies this`cur, this`back
      ensures Valid() && (View(), line) == old(View()).Older()
    {
      if cur < 0 {
        return Null;
      }
      Bounds();
      Steps(addIdx, maxIdx, back);
      var oldCur := cur;
      cur := cur - 1;
      if cur < 0 {
        cur := maxIdx;
      }
      if cur == addIdx {
        cur := oldCur;
        line := Null;
      } else {
        back := back + 1;
        Kept(back);
        line := To(lines[cur]);
      }
    }

    /** `hist_next`. */
    method Next() returns (line: Pointer)
      requires Valid()
      modifies this`cur, this`back
      ensures Valid() && (View(), line) == old(View()).Newer()
    {
      if cur < 0 {
        return Null;
      }
      Bounds();
      Steps(addIdx, maxIdx, back);
      if cur == addIdx {
        return Null;
      }
      cur := cur + 1;
      if cur > maxIdx {
        cur := 0;
      }
      back := back - 1;
      Steps(addIdx, maxIdx, back);
      if cur == addIdx {
        line := To("");
      } else {
        Kept(back);
        line := To(lines[cur]);
      }
    }

    /** The end of a line. */
    method EndLine(line: seq<char>)
      requires Valid() && NUL !in line
      modifies this, lines
      ensures Valid() && View() == old(View()).End(line)
    {
      if line != "" && line[0] != '!' {
        AddToHist(line);
      }
      cur := addIdx;
      back := 0;
    }
  }
}
