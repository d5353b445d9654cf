/** The trace vector: a ring of entries that stands for the newest part of a log. */
module TraceRing {
  import opened CText
  import opened Rings

  /** What a trace call reports; `data` are eight words, the unused ones zero. */
  datatype Event = Event(what: nat, fn: string, file: string, line: nat, msg: Pointer, data: seq<int>)

  datatype Entry = Entry(valid: bool, event: Event)

  const TRACE := 0

  function Zeros(n: nat): (s: seq<int>)
    ensures |s| == n
  {
    seq(n, _ => 0)
  }

  /** The newest `n` events, newest first, or all if there are fewer. */
  function Newest(log: seq<Event>, n: nat): seq<Event> {
    if n == 0 || log == [] then [] else [log[|log| - 1]] + Newest(log[..|log| - 1], n - 1)
  }

  lemma {:induction false} NewestAt(log: seq<Event>, n: nat)
    ensures |Newest(log, n)| == if n < |log| then n else |log|
    ensures forall j | 0 <= j < |Newest(log, n)| :: Newest(log, n)[j] == log[|log| - 1 - j]
    decreases n
  {
    if n > 0 && log != [] {
      NewestAt(log[..|log| - 1], n - 1);
    }
  }

  lemma NewestMore(log: seq<Event>, n: nat)
    ensures Newest(log, n + 1) == Newest(log, n) + if n < |log| then [log[|log| - 1 - n]] else []
  {
    NewestAt(log, n);
    NewestAt(log, n + 1);
  }

  /** The newest events are in their places, and nothing else is valid. */
  ghost predicate Holds(cells: seq<Entry>, log: seq<Event>) {
    && |cells| > 0
    && (forall n | 0 <= n < |log| && |log| - n <= |cells| :: cells[n % |cells|] == Entry(true, log[n]))
    && (forall i | |log| <= i < |cells| :: !cells[i].valid)
  }

  lemma HoldsMore(cells: seq<Entry>, log: seq<Event>, event: Event)
    requires Holds(cells, log)
    ensures Holds(cells[|log| % |cells| := Entry(true, event)], log + [event])
  {
    var k, m := |log|, |cells|;
    var now := cells[k % m := Entry(true, event)];
    PlacesDiffer(k, m);
    Successor(k, m);
    forall n | 0 <= n < k + 1 && k + 1 - n <= m ensures now[n % m] == Entry(true, (log + [event])[n]) {
      assert n < k ==> n % m != k % m;
    }
  }

  class Trace {
    const vec: array<Entry>
    var index: nat
    ghost var log: seq<Event>

    ghost predicate Valid()
      reads this, vec
    {
      Holds(vec[..], log) && index == |log| % vec.Length
    }

    constructor (size: nat)
      requires size > 0
      ensures Valid() && fresh(vec) && vec.Length == size && log == []
    {
      vec := new Entry[size](_ => Entry(false, Event(0, "", "", 0, Null, [])));
      index, log := 0, [];
    }

    /** What every writer does: take the next place, invalidate it, fill it, make it valid. */
    method Write(event: Event)
      requires Valid()
      modifies this, vec
      ensures Valid() && log == old(log) + [event]
    {
      HoldsMore(vec[..], log, event);
      Successor(|log|, vec.Length);
      ghost var now := vec[..][index := Entry(true, event)];
      var i := index;
      vec[i] := vec[i].(valid := false);
      index := Next(index);
      vec[i] := vec[i].(event := event);
      vec[i] := vec[i].(valid := true);
      assert vec[..] == now;
      log := log + [event];
    }

    function Next(i: nat): (j: nat)
      requires i < vec.Length
      ensures j == if i + 1 == vec.Length then 0 else i + 1
    {
      (i + 1) % vec.Length
    }

    /** `cyg_tracenomsg`. */
    method TraceNoMsg(fn: string, file: string, line: nat)
      requires Valid()
      modifies this, vec
      ensures Valid() && log == old(log) + [Event(TRACE, fn, file, line, Null, Zeros(8))]
    {
      Write(Event(TRACE, fn, file, line, Null, Zeros(8)));
    }

    /** `cyg_tracemsg`, `cyg_tracemsg2`, ..., `cyg_tracemsg8`, by the number of their arguments. */
    method TraceMsg(what: nat, fn: string, file: string, line: nat, msg: Pointer, args: seq<int>)
      requires Valid() && |args| <= 8
      modifies this, vec
      ensures Valid() && log == old(log) + [Event(what, fn, file, line, msg, args + Zeros(8 - |args|))]
    {
      Write(Event(what, fn, file, line, msg, args + Zeros(8 - |args|)));
    }

    /** Where the event `j` back is kept, if there is one. */
    lemma Kept(j: nat)
      requires Valid() && 0 < j <= vec.Length
      ensures var i := if j <= index then index - j else index - j + vec.Length;
              && 0 <= i < vec.Length && (vec[i].valid <==> j <= |log|)
              && (j <= |log| ==> vec[i] == Entry(true, log[|log| - j]))
    {
      var k, m := |log|, vec.Length;
      Successor(k, m);
      if j <= k {
        if j < m {
          StepBack(k, m, j);
        } else {
          ModUnique(k - m, m, k / m - 1, k % m);
        }
        assert vec[..][(k - j) % m] == Entry(true, log[k - j]);
      }
    }

    /** One turn of either loop: the entry `j + 1` back. */
    method Visit(i: nat, out: seq<Event>, ghost j: nat) returns (more: seq<Event>)
      requires Valid() && j < vec.Length && out == Newest(log, j)
      requires i == if j < index then index - 1 - j else index + vec.Length - 1 - j
      ensures more == Newest(log, j + 1)
    {
      Kept(j + 1);
      NewestMore(log, j);
      more := out;
      if vec[i].valid {
        more := more + [vec[i].event];
      }
    }

    /** `trace_callback`: the entries as they are put out. Its check of the index never fires. */
    method Callback() returns (out: seq<Event>)
      requires Valid()
      ensures out == Newest(log, vec.Length)
    {
      out := [];
      var i: int := index - 1;
      while i >= 0
        invariant -1 <= i < index && out == Newest(log, index - 1 - i)
      {
        out := Visit(i, out, index - 1 - i);
        i := i - 1;
      }
      i := vec.Length - 1;
      while i >= index
        invariant index - 1 <= i < vec.Length && out == Newest(log, index + vec.Length - 1 - i)
      {
        out := Visit(i, out, index + vec.Length - 1 - i);
        i := i - 1;
      }
    }
  }
}
