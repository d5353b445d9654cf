/** The savefile header: declarations of commands and subcommands, including those that the
    running application does not know. */
module Savefile {
  import opened Vectors

  /** One `cdl_savefile_command` line, with or without its list of subcommands. */
  datatype Line = Line(name: string, subcommands: Subcommands)
  datatype Subcommands = Missing | List(names: seq<string>)

  /** What the application knows. */
  datatype Known = Known(commands: seq<string>, subcommands: map<string, seq<string>>)

  /** What earlier savefiles declared beyond that. */
  datatype Unsupported = Unsupported(commands: seq<string>, subcommands: map<string, seq<string>>)

  const NOTHING := Unsupported([], map[])

  /** The subcommands that need not be remembered for `c`. */
  function KnownFor(k: Known, c: string): seq<string> {
    if c in k.commands then Get(k.subcommands, c) else []
  }

  /** `acc` followed by the new names among `xs`, in order. */
  function Extend(acc: seq<string>, known: seq<string>, xs: seq<string>): seq<string>
    decreases |xs|
  {
    if xs == [] then acc
    else Extend(if xs[0] in known || xs[0] in acc then acc else acc + [xs[0]], known, xs[1..])
  }

  function Handle(k: Known, u: Unsupported, line: Line): Unsupported {
    var commands := Extend(u.commands, k.commands, [line.name]);
    if line.subcommands.Missing? then u.(commands := commands)
    else Unsupported(commands, u.subcommands[line.name :=
                       Extend(Get(u.subcommands, line.name), KnownFor(k, line.name), line.subcommands.names)])
  }

  function Load(k: Known, u: Unsupported, file: seq<Line>): Unsupported
    decreases |file|
  {
    if file == [] then u else Handle(k, Load(k, u, file[..|file| - 1]), file[|file| - 1])
  }

  function Declaration(k: Known, u: Unsupported, c: string): Line {
    Line(c, List(KnownFor(k, c) + Get(u.subcommands, c)))
  }

  /** The header that `save_command_details` writes. */
  function Save(k: Known, u: Unsupported): seq<Line> {
    var names := k.commands + u.commands;
    seq(|names|, i requires 0 <= i < |names| => Declaration(k, u, names[i]))
  }

  /** One load and save by an application that knows `k`. */
  function Resave(k: Known, file: seq<Line>): seq<Line> {
    Save(k, Load(k, NOTHING, file))
  }

  // What a file declares

  ghost predicate Declares(file: seq<Line>, c: string) {
    exists i | 0 <= i < |file| :: file[i].name == c
  }

  ghost predicate DeclaresSub(file: seq<Line>, c: string, s: string) {
    exists i | 0 <= i < |file| :: IsSub(file[i], c, s)
  }

  ghost predicate IsSub(line: Line, c: string, s: string) {
    line.name == c && line.subcommands.List? && s in line.subcommands.names
  }

  lemma {:induction false} ExtendMembers(acc: seq<string>, known: seq<string>, xs: seq<string>, x: string)
    ensures x in Extend(acc, known, xs) <==> x in acc || (x in xs && x !in known)
    decreases |xs|
  {
    if xs != [] {
      ExtendMembers(if xs[0] in known || xs[0] in acc then acc else acc + [xs[0]], known, xs[1..], x);
      assert xs == [xs[0]] + xs[1..];
    }
  }

  lemma {:induction false} ExtendDistinct(acc: seq<string>, known: seq<string>, xs: seq<string>)
    requires Distinct(acc)
    ensures Distinct(Extend(acc, known, xs))
    decreases |xs|
  {
    if xs != [] {
      ExtendDistinct(if xs[0] in known || xs[0] in acc then acc else acc + [xs[0]], known, xs[1..]);
    }
  }

  lemma DeclaresMore(file: seq<Line>, line: Line, c: string)
    ensures Declares(file + [line], c) <==> Declares(file, c) || line.name == c
  {
    var more := file + [line];
    assert more[|file|] == line;
    if Declares(file, c) {
      var i :| 0 <= i < |file| && file[i].name == c;
      assert more[i].name == c;
    }
    if Declares(more, c) {
      var i :| 0 <= i < |more| && more[i].name == c;
      assert i < |file| ==> file[i].name == c;
    }
  }

  lemma DeclaresMoreSub(file: seq<Line>, line: Line, c: string, s: string)
    ensures DeclaresSub(file + [line], c, s) <==> DeclaresSub(file, c, s) || IsSub(line, c, s)
  {
    var more := file + [line];
    assert more[|file|] == line;
    if DeclaresSub(file, c, s) {
      var i :| 0 <= i < |file| && IsSub(file[i], c, s);
      assert IsSub(more[i], c, s);
    }
    if DeclaresSub(more, c, s) {
      var i :| 0 <= i < |more| && IsSub(more[i], c, s);
      assert i < |file| ==> IsSub(file[i], c, s);
    }
  }

  /** The names remembered from a file are exactly those it declares beyond the known ones. */
  lemma {:induction false} LoadRemembers(k: Known, file: seq<Line>, c: string, s: string)
    ensures var u := Load(k, NOTHING, file);
            && (c in u.commands <==> Declares(file, c) && c !in k.commands)
            && (s in Get(u.subcommands, c) <==> DeclaresSub(file, c, s) && s !in KnownFor(k, c))
    decreases |file|
  {
    if file != [] {
      var line, rest := file[|file| - 1], file[..|file| - 1];
      var u := Load(k, NOTHING, rest);
      LoadRemembers(k, rest, c, s);
      ExtendMembers(u.commands, k.commands, [line.name], c);
      if line.subcommands.List? {
        ExtendMembers(Get(u.subcommands, line.name), KnownFor(k, line.name), line.subcommands.names, s);
      }
      assert file == rest + [line];
      DeclaresMore(rest, line, c);
      DeclaresMoreSub(rest, line, c, s);
    }
  }

  lemma SaveDeclares(k: Known, u: Unsupported, c: string, s: string)
    ensures Declares(Save(k, u), c) <==> c in k.commands + u.commands
    ensures DeclaresSub(Save(k, u), c, s) <==> c in k.commands + u.commands && s in KnownFor(k, c) + Get(u.subcommands, c)
  {
    var names, out := k.commands + u.commands, Save(k, u);
    if c in names {
      var i :| 0 <= i < |names| && names[i] == c;
      assert out[i] == Declaration(k, u, c);
      assert s in KnownFor(k, c) + Get(u.subcommands, c) ==> IsSub(out[i], c, s);
    }
    assert forall i | 0 <= i < |out| :: out[i].name == c ==> names[i] == c;
  }

  lemma SubNeedsCommand(file: seq<Line>, c: string, s: string)
    requires DeclaresSub(file, c, s)
    ensures Declares(file, c)
  {
    var i :| 0 <= i < |file| && IsSub(file[i], c, s);
    assert file[i].name == c;
  }

  /** The header written after a load declares exactly what the application knows and what the
      file declared. */
  lemma ResaveLosesNothing(k: Known, file: seq<Line>, c: string, s: string)
    ensures Declares(Resave(k, file), c) <==> c in k.commands || Declares(file, c)
    ensures DeclaresSub(Resave(k, file), c, s) <==> s in KnownFor(k, c) || DeclaresSub(file, c, s)
  {
    LoadRemembers(k, file, c, s);
    SaveDeclares(k, Load(k, NOTHING, file), c, s);
    if DeclaresSub(file, c, s) {
      SubNeedsCommand(file, c, s);
    }
  }

  /** The file after passing through several applications in turn. */
  function ResaveAll(ks: seq<Known>, file: seq<Line>): seq<Line>
    decreases |ks|
  {
    if ks == [] then file else ResaveAll(ks[1..], Resave(ks[0], file))
  }

  ghost predicate SomeKnows(ks: seq<Known>, c: string) {
    exists i | 0 <= i < |ks| :: c in ks[i].commands
  }

  ghost predicate SomeKnowsSub(ks: seq<Known>, c: string, s: string) {
    exists i | 0 <= i < |ks| :: s in KnownFor(ks[i], c)
  }

  lemma FirstOrLater(ks: seq<Known>, c: string, s: string)
    requires ks != []
    ensures SomeKnows(ks, c) <==> c in ks[0].commands || SomeKnows(ks[1..], c)
    ensures SomeKnowsSub(ks, c, s) <==> s in KnownFor(ks[0], c) || SomeKnowsSub(ks[1..], c, s)
  {
    var rest := ks[1..];
    assert forall i | 0 < i < |ks| :: ks[i] == rest[i - 1];
    assert forall i | 0 <= i < |rest| :: rest[i] == ks[i + 1];
  }

  /** No chain of applications loses a command, nor invents one. */
  lemma {:induction false} ChainLosesNothing(ks: seq<Known>, file: seq<Line>, c: string, s: string)
    ensures Declares(ResaveAll(ks, file), c) <==> Declares(file, c) || SomeKnows(ks, c)
    ensures DeclaresSub(ResaveAll(ks, file), c, s) <==> DeclaresSub(file, c, s) || SomeKnowsSub(ks, c, s)
    decreases |ks|
  {
    if ks != [] {
      ResaveLosesNothing(ks[0], file, c, s);
      ChainLosesNothing(ks[1..], Resave(ks[0], file), c, s);
      FirstOrLater(ks, c, s);
    }
  }

  // The order in the file

  lemma {:induction false} ExtendKeeps(acc: seq<string>, known: seq<string>, xs: seq<string>)
    ensures acc <= Extend(acc, known, xs)
    decreases |xs|
  {
    if xs != [] {
      ExtendKeeps(if xs[0] in known || xs[0] in acc then acc else acc + [xs[0]], known, xs[1..]);
    }
  }

  /** Names are remembered in the order in which the file first declares them: later lines only add names behind. */
  lemma {:induction false} LoadInOrder(k: Known, file: seq<Line>, i: nat, c: string)
    requires i <= |file|
    ensures var u, v := Load(k, NOTHING, file[..i]), Load(k, NOTHING, file);
            u.commands <= v.commands && Get(u.subcommands, c) <= Get(v.subcommands, c)
    decreases |file|
  {
    if i < |file| {
      var init, line := file[..|file| - 1], file[|file| - 1];
      var u := Load(k, NOTHING, init);
      LoadInOrder(k, init, i, c);
      assert init[..i] == file[..i];
      ExtendKeeps(u.commands, k.commands, [line.name]);
      if line.subcommands.List? {
        ExtendKeeps(Get(u.subcommands, line.name), KnownFor(k, line.name), line.subcommands.names);
      }
    } else {
      assert file[..i] == file;
    }
  }

  /** The header has the known commands first and then the remembered ones, each with its known subcommands first. */
  lemma SaveInOrder(k: Known, u: Unsupported, i: nat)
    requires i < |k.commands| + |u.commands|
    ensures |Save(k, u)| == |k.commands| + |u.commands| && Save(k, u)[i].subcommands.List?
    ensures Save(k, u)[i].name == if i < |k.commands| then k.commands[i] else u.commands[i - |k.commands|]
    ensures var c := Save(k, u)[i].name;
            Save(k, u)[i].subcommands.names ==
            (if c in k.commands then Get(k.subcommands, c) else []) + Get(u.subcommands, c)
  {
  }

  // A second load and save changes nothing

  lemma {:induction false} ExtendAppend(acc: seq<string>, known: seq<string>, xs: seq<string>, ys: seq<string>)
    ensures Extend(acc, known, xs + ys) == Extend(Extend(acc, known, xs), known, ys)
    decreases |xs|
  {
    if xs == [] {
      assert xs + ys == ys;
    } else {
      assert (xs + ys)[1..] == xs[1..] + ys;
      ExtendAppend(if xs[0] in known || xs[0] in acc then acc else acc + [xs[0]], known, xs[1..], ys);
    }
  }

  lemma {:induction false} ExtendByNothing(acc: seq<string>, known: seq<string>, xs: seq<string>)
    requires forall x | x in xs :: x in known || x in acc
    ensures Extend(acc, known, xs) == acc
    decreases |xs|
  {
    if xs != [] {
      assert xs[0] in xs;
      ExtendByNothing(acc, known, xs[1..]);
    }
  }

  lemma ExtendByOne(acc: seq<string>, known: seq<string>, x: string)
    ensures Extend(acc, known, [x]) == if x in known || x in acc then acc else acc + [x]
  {
    assert [x][1..] == [];
  }

  lemma {:induction false} ExtendByAll(acc: seq<string>, known: seq<string>, xs: seq<string>)
    requires Distinct(xs) && forall x | x in xs :: x !in known && x !in acc
    ensures Extend(acc, known, xs) == acc + xs
    decreases |xs|
  {
    if xs != [] {
      assert xs[0] in xs;
      ExtendByAll(acc + [xs[0]], known, xs[1..]);
      assert acc + [xs[0]] + xs[1..] == acc + xs;
    } else {
      assert acc + xs == acc;
    }
  }

  /** Nothing known is remembered, and nothing twice. */
  ghost predicate Tidy(k: Known, u: Unsupported) {
    && Distinct(u.commands) && (forall c | c in u.commands :: c !in k.commands)
    && (forall c :: TidyFor(k, u, c))
  }

  ghost predicate TidyFor(k: Known, u: Unsupported, c: string) {
    Distinct(Get(u.subcommands, c)) && forall s | s in Get(u.subcommands, c) :: s !in KnownFor(k, c)
  }

  lemma {:induction false} LoadIsTidy(k: Known, file: seq<Line>)
    ensures Tidy(k, Load(k, NOTHING, file))
    decreases |file|
  {
    var v := Load(k, NOTHING, file);
    if file != [] {
      var line, u := file[|file| - 1], Load(k, NOTHING, file[..|file| - 1]);
      LoadIsTidy(k, file[..|file| - 1]);
      ExtendDistinct(u.commands, k.commands, [line.name]);
      forall c ensures TidyFor(k, v, c) {
        assert TidyFor(k, u, c);
        if line.subcommands.List? && c == line.name {
          ExtendDistinct(Get(u.subcommands, c), KnownFor(k, c), line.subcommands.names);
        }
        forall s | s in Get(v.subcommands, c) ensures s !in KnownFor(k, c) {
          LoadRemembers(k, file, c, s);
        }
      }
    }
    forall c | c in v.commands ensures c !in k.commands {
      LoadRemembers(k, file, c, "");
    }
  }

  /** What re-reading the first `i` lines of a written header gives. */
  ghost predicate Reread(k: Known, u: Unsupported, w: Unsupported, i: nat)
    requires i <= |k.commands| + |u.commands|
  {
    forall c :: RereadAt(k, u, w, i, c)
  }

  ghost predicate RereadAt(k: Known, u: Unsupported, w: Unsupported, i: nat, c: string)
    requires i <= |k.commands| + |u.commands|
  {
    && w.commands == (if i <= |k.commands| then [] else u.commands[..i - |k.commands|])
    && RereadFor(u, w, (k.commands + u.commands)[..i], c)
  }

  ghost predicate RereadFor(u: Unsupported, w: Unsupported, names: seq<string>, c: string) {
    Get(w.subcommands, c) == if c in names then Get(u.subcommands, c) else []
  }

  lemma RereadSub(k: Known, u: Unsupported, c: string, have: seq<string>)
    requires TidyFor(k, u, c) && (have == [] || have == Get(u.subcommands, c))
    ensures Extend(have, KnownFor(k, c), KnownFor(k, c) + Get(u.subcommands, c)) == Get(u.subcommands, c)
  {
    var known, x := KnownFor(k, c), Get(u.subcommands, c);
    ExtendAppend(have, known, known, x);
    ExtendByNothing(have, known, known);
    if have == x {
      ExtendByNothing(x, known, x);
    } else {
      ExtendByAll([], known, x);
    }
  }

  lemma RereadCommand(k: Known, u: Unsupported, w: Unsupported, i: nat)
    requires Tidy(k, u) && i < |k.commands| + |u.commands| && Reread(k, u, w, i)
    ensures Extend(w.commands, k.commands, [(k.commands + u.commands)[i]]) ==
            if i + 1 <= |k.commands| then [] else u.commands[..i + 1 - |k.commands|]
  {
    var c := (k.commands + u.commands)[i];
    assert RereadAt(k, u, w, i, c);
    if i < |k.commands| {
      ExtendByNothing(w.commands, k.commands, [c]);
    } else {
      var j := i - |k.commands|;
      assert c == u.commands[j] && c in u.commands;
      ExtendByAll(u.commands[..j], k.commands, [c]);
      assert u.commands[..j] + [c] == u.commands[..j + 1];
      if j == 0 {
        assert w.commands == u.commands[..0];
      }
    }
  }

  lemma RereadLineFor(k: Known, u: Unsupported, w: Unsupported, shown: seq<string>, c: string, d: string)
    requires TidyFor(k, u, c) && RereadFor(u, w, shown, c) && RereadFor(u, w, shown, d)
    ensures RereadFor(u, Handle(k, w, Declaration(k, u, c)), shown + [c], d)
  {
    RereadSub(k, u, c, Get(w.subcommands, c));
  }

  lemma RereadLine(k: Known, u: Unsupported, w: Unsupported, names: seq<string>, i: nat)
    requires Tidy(k, u) && names == k.commands + u.commands && i < |names| && Reread(k, u, w, i)
    ensures Reread(k, u, Handle(k, w, Declaration(k, u, names[i])), i + 1)
  {
    var c, shown := names[i], names[..i + 1];
    assert RereadAt(k, u, w, i, c);
    RereadCommand(k, u, w, i);
    assert TidyFor(k, u, c) && RereadFor(u, w, names[..i], c) && shown == names[..i] + [c];
    var w' := Handle(k, w, Declaration(k, u, c));
    var n := i + 1;
    forall d ensures RereadAt(k, u, w', n, d) {
      assert RereadAt(k, u, w, i, d);
      RereadLineFor(k, u, w, names[..i], c, d);
    }
  }

  lemma RereadFirst(k: Known, u: Unsupported)
    ensures Reread(k, u, NOTHING, 0)
  {
  }

  lemma LoadOneMore(k: Known, file: seq<Line>, i: nat)
    requires i < |file|
    ensures Load(k, NOTHING, file[..i + 1]) == Handle(k, Load(k, NOTHING, file[..i]), file[i])
  {
    assert file[..i + 1][..i] == file[..i];
  }

  lemma {:induction false} RereadAll(k: Known, u: Unsupported, names: seq<string>, out: seq<Line>, i: nat)
    requires Tidy(k, u) && names == k.commands + u.commands && |out| == |names| && i <= |out|
    requires forall j | 0 <= j < |out| :: out[j] == Declaration(k, u, names[j])
    ensures Reread(k, u, Load(k, NOTHING, out[..i]), i)
    decreases i
  {
    if i == 0 {
      RereadFirst(k, u);
    } else {
      RereadAll(k, u, names, out, i - 1);
      RereadLine(k, u, Load(k, NOTHING, out[..i - 1]), names, i - 1);
      LoadOneMore(k, out, i - 1);
    }
  }

  lemma SameDeclarations(k: Known, u: Unsupported, w: Unsupported)
    requires Reread(k, u, w, |k.commands| + |u.commands|)
    ensures Save(k, w) == Save(k, u)
  {
    var names := k.commands + u.commands;
    assert names[..|names|] == names && u.commands[..|u.commands|] == u.commands;
    assert RereadAt(k, u, w, |names|, "");
    assert w.commands == u.commands;
    forall i | 0 <= i < |names| ensures Save(k, w)[i] == Save(k, u)[i] {
      assert RereadAt(k, u, w, |names|, names[i]);
    }
  }

  lemma SaveAgain(k: Known, u: Unsupported, out: seq<Line>)
    requires Tidy(k, u) && out == Save(k, u)
    ensures Save(k, Load(k, NOTHING, out)) == out
  {
    RereadAll(k, u, k.commands + u.commands, out, |out|);
    assert out[..|out|] == out;
    SameDeclarations(k, u, Load(k, NOTHING, out));
  }

  /** A further load and save by the same application reproduces the header exactly, order included. */
  lemma ResaveIsStable(k: Known, file: seq<Line>)
    ensures Resave(k, Resave(k, file)) == Resave(k, file)
  {
    LoadIsTidy(k, file);
    SaveAgain(k, Load(k, NOTHING, file), Resave(k, file));
  }
}
