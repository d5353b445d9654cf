/** The history of lines: what the ring of buffers stands for. */
module Recall {
  import opened CText

  /** All lines recorded so far, how many of them can be recalled, and how far back the user is;
      `back` is negative until the first line has ended. */
  datatype Past = Past(log: seq<seq<char>>, room: nat, back: int) {
    function Reach(): nat {
      if |log| < room then |log| else room
    }

    predicate Valid() {
      -1 <= back <= Reach()
    }

    /** The line that is `j` lines back; the line being typed counts as empty. */
    function Line(j: nat): seq<char>
      requires j <= |log|
    {
      if j == 0 then "" else log[|log| - j]
    }

    function Older(): (r: (Past, Pointer))
      requires Valid()
      ensures r.0.Valid()
    {
      if back < 0 || back == Reach() then (this, Null) else (this.(back := back + 1), To(Line(back + 1)))
    }

    function Newer(): (r: (Past, Pointer))
      requires Valid()
      ensures r.0.Valid()
    {
      if back <= 0 then (this, Null) else (this.(back := back - 1), To(Line(back - 1)))
    }

    /** The end of a line: it is recorded unless it is empty or begins with an exclamation mark. */
    function End(line: seq<char>): (p: Past)
      ensures p.Valid()
    {
      this.(log := if line != "" && line[0] != '!' then log + [line] else log, back := 0)
    }

    /** `j` steps back, and what the last one shows. */
    function Olders(j: nat): (r: (Past, Pointer))
      requires Valid()
      ensures r.0.Valid()
    {
      if j == 0 then (this, Null) else Olders(j - 1).0.Older()
    }

    function Newers(j: nat): (r: (Past, Pointer))
      requires Valid()
      ensures r.0.Valid()
    {
      if j == 0 then (this, Null) else Newers(j - 1).0.Newer()
    }
  }

  /** Step by step the most recent lines appear; behind the last of them nothing moves. */
  lemma {:induction false} RecallsInOrder(p: Past, j: nat)
    requires p.Valid() && p.back == 0
    ensures j <= p.Reach() ==> p.Olders(j).0 == p.(back := j)
    ensures 0 < j <= p.Reach() ==> p.Olders(j).1 == To(p.log[|p.log| - j])
    ensures j > p.Reach() ==> p.Olders(j) == (p.(back := p.Reach()), Null)
  {
    if j > 0 {
      RecallsInOrder(p, j - 1);
    }
  }

  /** Each step forward undoes a step back. */
  lemma NewerUndoesOlder(p: Past)
    requires p.Valid() && p.back >= 0
    ensures p.Older().1.To? ==> p.Older().0.Newer() == (p, To(p.Line(p.back)))
    ensures p.Newer().1.To? ==> p.Newer().0.Older() == (p, To(p.Line(p.back)))
  {
  }

  /** As many steps forward as back end at the empty line where they began. */
  lemma {:induction false} ForwardAgain(p: Past, j: nat)
    requires p.Valid() && 0 <= j <= p.back
    ensures p.Newers(j).0 == p.(back := p.back - j)
    ensures 0 < j == p.back ==> p.Newers(j).1 == To("")
  {
    if j > 0 {
      ForwardAgain(p, j - 1);
    }
  }
}
