/** Which loadables share a configuration header, and which headers there are. */
module ConfigHeaders {
  import opened Vectors

  datatype Loadable = Define(id: nat, header: string) | Other(id: nat)

  /** A loadable that defines a header, and the name of the header until it has been written. */
  datatype Entry = Entry(id: nat, header: string)

  datatype File = File(name: string, members: seq<nat>)

  // The specification, entry by entry

  function Entries(ls: seq<Loadable>): seq<Entry> {
    if ls == [] then []
    else Entries(ls[..|ls| - 1]) + match ls[|ls| - 1] case Define(id, h) => [Entry(id, h)] case Other(_) => []
  }

  /** The distinct names other than the empty one, in the order of their first occurrence. */
  function Opened(es: seq<Entry>): seq<string> {
    if es == [] then []
    else
      var before, name := Opened(es[..|es| - 1]), es[|es| - 1].header;
      if name == "" || name in before then before else before + [name]
  }

  /** The loadables with a header of this name. */
  function Members(es: seq<Entry>, name: string): seq<nat> {
    if es == [] then []
    else Members(es[..|es| - 1], name) + if es[|es| - 1].header == name then [es[|es| - 1].id] else []
  }

  function Files(es: seq<Entry>, names: seq<string>): (fs: seq<File>)
    ensures |fs| == |names|
  {
    seq(|names|, i requires 0 <= i < |names| => File(names[i], Members(es, names[i])))
  }

  /** The names that the list of headers has, behind the one for the whole configuration. */
  function Listed(es: seq<Entry>): seq<string> {
    if es == [] then ["system.h"]
    else
      var before, name := Listed(es[..|es| - 1]), es[|es| - 1].header;
      if name in before then before else before + [name]
  }

  predicate Occurs(es: seq<Entry>, name: string) {
    exists i | 0 <= i < |es| :: es[i].header == name
  }

  lemma OccursLast(es: seq<Entry>, name: string)
    requires es != []
    ensures Occurs(es, name) <==> Occurs(es[..|es| - 1], name) || es[|es| - 1].header == name
  {
    var init := es[..|es| - 1];
    if Occurs(es, name) {
      var i :| 0 <= i < |es| && es[i].header == name;
      if i < |es| - 1 { assert init[i].header == name; }
    }
    if Occurs(init, name) {
      var i :| 0 <= i < |init| && init[i].header == name;
      assert es[i].header == name;
    }
  }

  // Each name is opened once

  lemma {:induction false} OpenedOnce(es: seq<Entry>)
    ensures Distinct(Opened(es)) && "" !in Opened(es)
    ensures forall name | name != "" :: name in Opened(es) <==> Occurs(es, name)
    decreases |es|
  {
    if es != [] {
      OpenedOnce(es[..|es| - 1]);
      forall name | name != "" ensures name in Opened(es) <==> Occurs(es, name) {
        OccursLast(es, name);
      }
    }
  }

  /** Headers are opened in the order of their first occurrence: more entries only add names behind. */
  lemma {:induction false} OpenedInOrder(es: seq<Entry>, k: nat)
    requires k <= |es|
    ensures Opened(es[..k]) <= Opened(es)
    decreases |es|
  {
    if k < |es| {
      var init := es[..|es| - 1];
      OpenedInOrder(init, k);
      assert init[..k] == es[..k];
    } else {
      assert es[..k] == es;
    }
  }

  // Each loadable is written once, into the header that it names

  /** The loadables whose header is one of some names. */
  function Chosen(es: seq<Entry>, names: seq<string>): seq<nat> {
    if es == [] then []
    else Chosen(es[..|es| - 1], names) + if es[|es| - 1].header in names then [es[|es| - 1].id] else []
  }

  /** The loadables that name a header. */
  function Naming(es: seq<Entry>): seq<nat> {
    if es == [] then []
    else Naming(es[..|es| - 1]) + if es[|es| - 1].header != "" then [es[|es| - 1].id] else []
  }

  function Written(fs: seq<File>): seq<nat> {
    if fs == [] then [] else Written(fs[..|fs| - 1]) + fs[|fs| - 1].members
  }

  lemma {:induction false} ChosenGrows(es: seq<Entry>, names: seq<string>, name: string)
    requires name !in names
    ensures multiset(Chosen(es, names + [name])) == multiset(Chosen(es, names)) + multiset(Members(es, name))
    decreases |es|
  {
    if es != [] {
      var init, last := es[..|es| - 1], es[|es| - 1];
      ChosenGrows(init, names, name);
      assert last.header in names + [name] <==> last.header in names || last.header == name;
      if last.header == name {
        assert multiset(Members(es, name)) == multiset(Members(init, name)) + multiset{last.id};
      } else {
        assert Members(es, name) == Members(init, name);
      }
    }
  }

  lemma {:induction false} FilesWrite(es: seq<Entry>, names: seq<string>)
    requires Distinct(names)
    ensures multiset(Written(Files(es, names))) == multiset(Chosen(es, names))
    decreases |names|
  {
    if names == [] {
      NoneChosen(es);
    } else {
      var init, last := names[..|names| - 1], names[|names| - 1];
      FilesWrite(es, init);
      assert Files(es, names)[..|names| - 1] == Files(es, init);
      ChosenGrows(es, init, last);
      assert init + [last] == names;
    }
  }

  lemma {:induction false} NoneChosen(es: seq<Entry>)
    ensures Chosen(es, []) == []
    decreases |es|
  {
    if es != [] {
      NoneChosen(es[..|es| - 1]);
    }
  }

  lemma {:induction false} AllChosen(es: seq<Entry>, names: seq<string>)
    requires "" !in names && forall i | 0 <= i < |es| && es[i].header != "" :: es[i].header in names
    ensures Chosen(es, names) == Naming(es)
    decreases |es|
  {
    if es != [] {
      AllChosen(es[..|es| - 1], names);
    }
  }

  /** The headers share out the loadables: each one that names a header is written exactly once. */
  lemma Partition(es: seq<Entry>)
    ensures multiset(Written(Files(es, Opened(es)))) == multiset(Naming(es))
  {
    OpenedOnce(es);
    FilesWrite(es, Opened(es));
    forall i | 0 <= i < |es| && es[i].header != "" ensures es[i].header in Opened(es) {
      assert Occurs(es, es[i].header);
    }
    AllChosen(es, Opened(es));
  }

  /** The vector holds the loadables that define a header, in their order. */
  lemma {:induction false} EntriesInOrder(ls: seq<Loadable>, k: nat)
    requires k <= |ls|
    ensures Entries(ls[..k]) <= Entries(ls)
    decreases |ls|
  {
    if k < |ls| {
      var init := ls[..|ls| - 1];
      EntriesInOrder(init, k);
      assert init[..k] == ls[..k];
    } else {
      assert ls[..k] == ls;
    }
  }

  lemma {:induction false} EntriesAre(ls: seq<Loadable>, e: Entry)
    ensures e in Entries(ls) <==> Define(e.id, e.header) in ls
    decreases |ls|
  {
    if ls != [] {
      var init, last := ls[..|ls| - 1], ls[|ls| - 1];
      EntriesAre(init, e);
      assert ls == init + [last];
    }
  }

  /** They are written in their order. */
  lemma {:induction false} MembersInOrder(es: seq<Entry>, name: string, k: nat)
    requires k <= |es|
    ensures Members(es[..k], name) <= Members(es, name)
    decreases |es|
  {
    if k < |es| {
      var init := es[..|es| - 1];
      MembersInOrder(init, name, k);
      assert init[..k] == es[..k];
    } else {
      assert es[..k] == es;
    }
  }

  lemma {:induction false} MembersAre(es: seq<Entry>, name: string, id: nat)
    ensures id in Members(es, name) <==> Entry(id, name) in es
    decreases |es|
  {
    if es != [] {
      var init, last := es[..|es| - 1], es[|es| - 1];
      MembersAre(init, name, id);
      assert es == init + [last];
    }
  }

  /** A header is written by exactly the loadables that name it. */
  lemma FileHolds(es: seq<Entry>, f: File, id: nat)
    requires f in Files(es, Opened(es))
    ensures f.name in Opened(es) && (id in f.members <==> Entry(id, f.name) in es)
  {
    MembersAre(es, f.name, id);
  }

  // The list of headers

  lemma {:induction false} ListedOnce(es: seq<Entry>)
    ensures Distinct(Listed(es)) && |Listed(es)| > 0 && Listed(es)[0] == "system.h"
    ensures forall name :: name in Listed(es) <==> name == "system.h" || Occurs(es, name)
    decreases |es|
  {
    if es != [] {
      ListedOnce(es[..|es| - 1]);
      forall name ensures name in Listed(es) <==> name == "system.h" || Occurs(es, name) {
        OccursLast(es, name);
      }
    }
  }

  lemma {:induction false} ListedIsOpened(es: seq<Entry>)
    requires !Occurs(es, "") && !Occurs(es, "system.h")
    ensures Listed(es) == ["system.h"] + Opened(es)
    decreases |es|
  {
    if es != [] {
      OccursLast(es, "");
      OccursLast(es, "system.h");
      ListedIsOpened(es[..|es| - 1]);
    }
  }

  /** The list names exactly the headers that are generated, in the same order, unless a loadable has
      an empty header name or one that is taken. */
  lemma ListIsRight(es: seq<Entry>)
    ensures |Listed(es)| > 0
    ensures Listed(es)[1..] == Opened(es) <==> !Occurs(es, "") && !Occurs(es, "system.h")
  {
    ListedOnce(es);
    OpenedOnce(es);
    if !Occurs(es, "") && !Occurs(es, "system.h") {
      ListedIsOpened(es);
    } else if Occurs(es, "") {
      var i :| 0 <= i < |Listed(es)| && Listed(es)[i] == "";
      assert Listed(es)[1..][i - 1] == "";
    } else {
      assert "system.h" in Opened(es);
      assert "system.h" !in Listed(es)[1..];
    }
  }

  // The loops

  /** The vector of loadables and names that both loops start from. */
  method CollectEntries(ls: seq<Loadable>) returns (headers: seq<Entry>)
    ensures headers == Entries(ls)
  {
    headers := [];
    var i := 0;
    while i < |ls|
      invariant i <= |ls| && headers == Entries(ls[..i])
    {
      assert ls[..i + 1][..i] == ls[..i];
      match ls[i] {
        case Define(id, h) => headers := headers + [Entry(id, h)];
        case Other(_) =>
      }
      i := i + 1;
    }
    assert ls[..i] == ls;
  }

  lemma ListedGrows(es: seq<Entry>, e: Entry)
    ensures Listed(es + [e]) == if e.header in Listed(es) then Listed(es) else Listed(es) + [e.header]
  {
    assert (es + [e])[..|es|] == es;
  }

  lemma EntriesGrow(ls: seq<Loadable>, i: nat)
    requires i < |ls|
    ensures Entries(ls[..i + 1]) == Entries(ls[..i]) + if ls[i].Define? then [Entry(ls[i].id, ls[i].header)] else []
  {
    assert ls[..i + 1][..i] == ls[..i];
  }

  /** One loadable: its header joins the list if it names one that is not there. */
  method AddHeader(headers: seq<string>, l: Loadable, ghost es: seq<Entry>) returns (headers': seq<string>)
    requires headers == Listed(es)
    ensures headers' == Listed(es + if l.Define? then [Entry(l.id, l.header)] else [])
  {
    headers' := headers;
    match l {
      case Define(id, file) =>
        ListedGrows(es, Entry(id, file));
        if file !in headers {
          headers' := headers + [file];
        }
      case Other(_) =>
        assert es + [] == es;
    }
  }

  /** `get_config_headers`. */
  method GetConfigHeaders(ls: seq<Loadable>) returns (headers: seq<string>)
    ensures headers == Listed(Entries(ls))
  {
    headers := ["system.h"];
    var i := 0;
    while i < |ls|
      invariant i <= |ls| && headers == Listed(Entries(ls[..i]))
    {
      EntriesGrow(ls, i);
      headers := AddHeader(headers, ls[i], Entries(ls[..i]));
      i := i + 1;
    }
    assert ls[..i] == ls;
  }

  lemma {:induction false} SameMembers(es: seq<Entry>, hs: seq<Entry>, name: string)
    requires |hs| == |es|
    requires forall i | 0 <= i < |es| :: hs[i].id == es[i].id && (hs[i].header == name <==> es[i].header == name)
    ensures Members(hs, name) == Members(es, name)
    decreases |es|
  {
    if es != [] {
      SameMembers(es[..|es| - 1], hs[..|es| - 1], name);
    }
  }

  lemma {:induction false} NoMembers(es: seq<Entry>, name: string)
    requires forall i | 0 <= i < |es| :: es[i].header != name
    ensures Members(es, name) == []
    decreases |es|
  {
    if es != [] {
      NoMembers(es[..|es| - 1], name);
    }
  }

  /** The inner loop: who belongs into the header, each then blanked. */
  method WriteMembers(headers: seq<Entry>, outer: nat, name: string) returns (members: seq<nat>, blanked: seq<Entry>)
    requires outer <= |headers| && forall i | 0 <= i < outer :: headers[i].header != name
    ensures members == Members(headers, name) && |blanked| == |headers|
    ensures forall i | 0 <= i < |headers| :: blanked[i] == if headers[i].header == name then Entry(headers[i].id, "") else headers[i]
  {
    members, blanked := [], headers;
    NoMembers(headers[..outer], name);
    var inner := outer;
    while inner < |headers|
      invariant outer <= inner <= |headers| == |blanked| && members == Members(headers[..inner], name)
      invariant forall i | 0 <= i < inner :: blanked[i] == if headers[i].header == name then Entry(headers[i].id, "") else headers[i]
      invariant forall i | inner <= i < |headers| :: blanked[i] == headers[i]
    {
      assert headers[..inner + 1][..inner] == headers[..inner];
      if blanked[inner].header == name {
        members := members + [blanked[inner].id];
        blanked := blanked[inner := Entry(blanked[inner].id, "")];
      }
      inner := inner + 1;
    }
    assert headers[..inner] == headers;
  }

  /** What the vector looks like once the headers named by `names` have been written. */
  ghost predicate Blanked(es: seq<Entry>, hs: seq<Entry>, names: seq<string>) {
    && |hs| == |es|
    && forall i | 0 <= i < |es| :: hs[i].id == es[i].id && hs[i].header == if es[i].header in names then "" else es[i].header
  }

  lemma FileAdded(es: seq<Entry>, names: seq<string>, name: string)
    ensures Files(es, names + [name]) == Files(es, names) + [File(name, Members(es, name))]
  {
  }

  /** A name still in the vector has not been opened, and all entries that had it still have it. */
  lemma NotOpened(es: seq<Entry>, headers: seq<Entry>, outer: nat, names: seq<string>, name: string)
    requires outer < |headers| == |es| && names == Opened(es[..outer]) && Blanked(es, headers, names)
    requires name == headers[outer].header && name != ""
    ensures name == es[outer].header && name !in names
    ensures forall i | 0 <= i < outer :: headers[i].header != name
    ensures forall i | 0 <= i < |es| :: headers[i].id == es[i].id && (headers[i].header == name <==> es[i].header == name)
  {
    OpenedOnce(es[..outer]);
    forall i | 0 <= i < outer ensures headers[i].header != name {
      assert es[..outer][i].header == es[i].header;
      assert es[i].header == name ==> Occurs(es[..outer], name);
    }
  }

  lemma BlankedAfter(es: seq<Entry>, headers: seq<Entry>, headers': seq<Entry>, names: seq<string>, name: string)
    requires |headers| == |es| == |headers'| && Blanked(es, headers, names) && name != "" && name !in names
    requires forall i | 0 <= i < |headers| ::
               headers'[i] == if headers[i].header == name then Entry(headers[i].id, "") else headers[i]
    ensures Blanked(es, headers', names + [name])
  {
    forall i | 0 <= i < |es|
      ensures headers'[i].id == es[i].id
      ensures headers'[i].header == if es[i].header in names + [name] then "" else es[i].header
    {
      assert headers[i].header == if es[i].header in names then "" else es[i].header;
    }
  }

  lemma NothingToOpen(es: seq<Entry>, headers: seq<Entry>, outer: nat, names: seq<string>)
    requires outer < |headers| == |es| && names == Opened(es[..outer]) && Blanked(es, headers, names)
    requires headers[outer].header == ""
    ensures Opened(es[..outer + 1]) == names
  {
    assert es[..outer + 1][..outer] == es[..outer];
  }

  /** One turn of the outer loop. */
  method WriteHeader(headers: seq<Entry>, outer: nat, files: seq<File>, ghost es: seq<Entry>)
    returns (headers': seq<Entry>, files': seq<File>)
    requires outer < |headers| == |es| && Blanked(es, headers, Opened(es[..outer])) && files == Files(es, Opened(es[..outer]))
    ensures Blanked(es, headers', Opened(es[..outer + 1])) && files' == Files(es, Opened(es[..outer + 1]))
  {
    headers', files' := headers, files;
    var name := headers[outer].header;
    ghost var before := Opened(es[..outer]);
    if name == "" {
      NothingToOpen(es, headers, outer, before);
    } else {
      NotOpened(es, headers, outer, before, name);
      var members;
      members, headers' := WriteMembers(headers, outer, name);
      SameMembers(es, headers, name);
      files' := files' + [File(name, members)];
      assert es[..outer + 1][..outer] == es[..outer];
      assert Opened(es[..outer + 1]) == before + [name];
      FileAdded(es, before, name);
      BlankedAfter(es, headers, headers', before, name);
    }
  }

  /** The grouping loops of `generate_config_headers`: the files in the order of opening, with who writes into them. */
  method GenerateConfigHeaders(ls: seq<Loadable>) returns (files: seq<File>)
    ensures files == Files(Entries(ls), Opened(Entries(ls)))
  {
    var headers := CollectEntries(ls);
    ghost var es := headers;
    files := [];
    var outer := 0;
    while outer < |headers|
      invariant outer <= |headers| == |es| && Blanked(es, headers, Opened(es[..outer])) && files == Files(es, Opened(es[..outer]))
    {
      headers, files := WriteHeader(headers, outer, files, es);
      outer := outer + 1;
    }
    assert es[..outer] == es;
  }
}
