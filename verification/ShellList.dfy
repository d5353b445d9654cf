/** The list of a shell: commands before sub-shells, each kind in the order of registration. */
module ShellList {

  datatype Entry =
    | Command(cmdstr: string, shortUsage: string, detailUsage: string, rep: nat, func: int)
    | SubShell(cmdstr: string, shortUsage: string, func: int)

  function Commands(log: seq<Entry>): seq<Entry> {
    if log == [] then [] else Commands(log[..|log| - 1]) + if log[|log| - 1].Command? then [log[|log| - 1]] else []
  }

  function SubShells(log: seq<Entry>): seq<Entry> {
    if log == [] then [] else SubShells(log[..|log| - 1]) + if log[|log| - 1].SubShell? then [log[|log| - 1]] else []
  }

  lemma {:induction false} KindsApart(log: seq<Entry>)
    ensures forall i | 0 <= i < |Commands(log)| :: Commands(log)[i].Command?
    ensures forall i | 0 <= i < |SubShells(log)| :: SubShells(log)[i].SubShell?
    decreases |log|
  {
    if log != [] {
      KindsApart(log[..|log| - 1]);
    }
  }

  lemma OneMore(log: seq<Entry>, rest: seq<Entry>, x: Entry)
    requires log == rest + [x]
    ensures Commands(log) == Commands(rest) + (if x.Command? then [x] else [])
    ensures SubShells(log) == SubShells(rest) + (if x.SubShell? then [x] else [])
  {
    assert log[..|log| - 1] == rest;
  }

  /** Nothing is lost and nothing is made up. */
  lemma {:induction false} SameEntries(log: seq<Entry>)
    ensures multiset(Commands(log)) + multiset(SubShells(log)) == multiset(log)
    decreases |log|
  {
    if log != [] {
      var rest, x := log[..|log| - 1], log[|log| - 1];
      assert log == rest + [x];
      OneMore(log, rest, x);
      SameEntries(rest);
      if x.Command? {
        assert SubShells(log) == SubShells(rest);
      } else {
        assert Commands(log) == Commands(rest);
      }
    }
  }

  class Item {
    const entry: Entry
    var next: Item?

    constructor (entry: Entry)
      ensures this.entry == entry && next == null
    {
      this.entry := entry;
      next := null;
    }
  }

  lemma Spliced<T>(was: seq<T>, now: seq<T>, x: T, k: nat)
    requires k <= |was| && now == was[..k] + [x] + was[k..]
    ensures |now| == |was| + 1 && now[k] == x
    ensures forall i | 0 <= i < k :: now[i] == was[i]
    ensures forall i | k < i < |now| :: now[i] == was[i - 1]
  {
  }

  lemma SplicedBack<T>(was: seq<T>, now: seq<T>, x: T, k: nat)
    requires k <= |was| && |now| == |was| + 1 && now[k] == x
    requires forall i | 0 <= i < k :: now[i] == was[i]
    requires forall i | k < i < |now| :: now[i] == was[i - 1]
    ensures now == was[..k] + [x] + was[k..]
  {
  }

  class Shell {
    var list: Item?
    ghost var items: seq<Item>
    ghost var log: seq<Entry>

    /** Following the pointers visits `items` and ends. */
    ghost predicate Linked()
      reads this, items
    {
      && list == Pointer(0)
      && (forall i | 0 <= i < |items| :: items[i].next == Pointer(i + 1))
      && (forall i, j | 0 <= i < j < |items| :: items[i] != items[j])
    }

    ghost function Pointer(i: nat): Item?
      reads this
    {
      if i < |items| then items[i] else null
    }

    ghost function Entries(): (s: seq<Entry>)
      reads this
      ensures |s| == |items|
    {
      seq(|items|, i requires 0 <= i < |items| reads this => items[i].entry)
    }

    ghost predicate Valid()
      reads this, items
    {
      Linked() && Entries() == Commands(log) + SubShells(log)
    }

    constructor ()
      ensures Valid() && log == []
    {
      list := null;
      items, log := [], [];
    }

    /** Put `item` behind the first `k` items, through the pointer that is there. */
    method Splice(item: Item, before: Item?, ghost k: nat)
      requires Linked() && k <= |items| && item !in items && item.next == Pointer(k)
      requires before == if k == 0 then null else items[k - 1]
      modifies this`list, this`items, before
      ensures Linked() && items == old(items[..k]) + [item] + old(items[k..])
      ensures log == old(log)
    {
      if before == null {
        list := item;
      } else {
        before.next := item;
      }
      ghost var was := items;
      items := items[..k] + [item] + items[k..];
      Spliced(was, items, item, k);
    }

    /** The place behind the commands. */
    method FindSubShell() returns (before: Item?, here: Item?, ghost k: nat)
      requires Valid()
      ensures k == |Commands(log)| <= |items| && here == Pointer(k) && before == if k == 0 then null else items[k - 1]
    {
      k, before, here := 0, null, list;
      KindsApart(log);
      while here != null && here.entry.Command?
        invariant k <= |Commands(log)| <= |items| && here == Pointer(k)
        invariant before == if k == 0 then null else items[k - 1]
        decreases |items| - k
      {
        assert Entries()[k] == here.entry;
        before, here := here, here.next;
        k := k + 1;
      }
      assert here != null ==> Entries()[k] == here.entry;
    }

    /** The place behind everything. */
    method FindEnd() returns (before: Item?)
      requires Linked()
      ensures before == if items == [] then null else items[|items| - 1]
    {
      ghost var k := 0;
      var here := list;
      before := null;
      while here != null
        invariant k <= |items| && here == Pointer(k)
        invariant before == if k == 0 then null else items[k - 1]
        decreases |items| - k
      {
        before, here := here, here.next;
        k := k + 1;
      }
    }

    /** A new item behind the first `k` ones. */
    method Insert(entry: Entry, before: Item?, here: Item?, ghost k: nat)
      requires Linked() && k <= |items| && here == Pointer(k) && before == if k == 0 then null else items[k - 1]
      modifies this`list, this`items, before
      ensures Linked() && log == old(log)
      ensures Entries() == old(Entries())[..k] + [entry] + old(Entries())[k..]
    {
      ghost var before', was := items, Entries();
      var item := new Item(entry);
      item.next := here;
      Splice(item, before, k);
      Spliced(before', items, item, k);
      SplicedBack(was, Entries(), entry, k);
    }

    /** The new entry behind those of its kind. */
    method Register(entry: Entry, before: Item?, here: Item?, ghost k: nat)
      requires Valid() && k == (if entry.Command? then |Commands(log)| else |items|) <= |items|
      requires here == Pointer(k) && before == if k == 0 then null else items[k - 1]
      modifies this, items
      ensures Valid() && log == old(log) + [entry]
    {
      ghost var all := Commands(log) + SubShells(log);
      assert |all| == |items| by {
        assert Entries() == all;
      }
      Grown(log, entry);
      Insert(entry, before, here, k);
      log := log + [entry];
    }

    /** `dyn_shell_append_command`, when there is memory for an item. */
    method AddCommand(cmdstr: string, rep: nat, shortUsage: string, detailUsage: string, func: int, memory: bool)
      requires Valid()
      modifies this, items
      ensures Valid()
      ensures log == if memory then old(log) + [Command(cmdstr, shortUsage, detailUsage, rep, func)] else old(log)
    {
      if memory {
        var before, here, k := FindSubShell();
        Register(Command(cmdstr, shortUsage, detailUsage, rep, func), before, here, k);
      }
    }

    /** `dyn_shell_append_sub_shell`, when there is memory for an item. */
    method AddSubShell(cmdstr: string, shortUsage: string, func: int, memory: bool)
      requires Valid()
      modifies this, items
      ensures Valid()
      ensures log == if memory then old(log) + [SubShell(cmdstr, shortUsage, func)] else old(log)
    {
      if memory {
        var before := FindEnd();
        Register(SubShell(cmdstr, shortUsage, func), before, null, |items|);
      }
    }
  }

  lemma Between<T>(a: seq<T>, x: T, b: seq<T>)
    ensures (a + [x]) + b == (a + b)[..|a|] + [x] + (a + b)[|a|..]
    ensures a + (b + [x]) == (a + b)[..|a + b|] + [x] + (a + b)[|a + b|..]
    ensures a + [] == a && b + [] == b
  {
    assert (a + b)[..|a|] == a && (a + b)[|a|..] == b;
  }

  /** Registering one more entry puts it behind those of its kind. */
  lemma Grown(log: seq<Entry>, entry: Entry)
    ensures var all := Commands(log) + SubShells(log);
            var k := if entry.Command? then |Commands(log)| else |all|;
            Commands(log + [entry]) + SubShells(log + [entry]) == all[..k] + [entry] + all[k..]
  {
    OneMore(log + [entry], log, entry);
    Between(Commands(log), entry, SubShells(log));
  }
}
