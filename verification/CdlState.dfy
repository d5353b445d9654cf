/** The fields of all nodes of one configuration, and what the primitive steps on the
    hierarchy do to them. A missing map entry stands for a null pointer, an empty vector
    or the position -1. */
module CdlState {
  import opened Vectors

  type Node = nat

  /** What `dynamic_cast` can tell about a node. All kinds but `Plain` are containers. */
  datatype Kind = Plain | Container | Loadable | Toplevel

  /** The `parent` property, naming the wanted parent; "" names the root. */
  datatype ParentProperty = NoProperty | Parent(destination: string)

  datatype Info = Info(name: string, kind: Kind, property: ParentProperty)

  /** A pointer field of every node, and the vector that lists who points there. */
  datatype Links = Links(up: map<Node, Node>, down: map<Node, seq<Node>>)

  datatype State = State(
    top: Node,
    orphans: Node,
    info: map<Node, Info>,
    attached: set<Node>,        // nodes whose `toplevel` is set
    tree: Links,                // `parent` and `contents`
    ownership: Links,           // `owner` and `owned`
    binding: Links,             // destinations of parent properties, and `referrers`
    lookupTable: map<string, Node>,
    loadables: seq<Node>,
    containerPosition: map<Node, nat>,
    loadablesPosition: map<Node, nat>)
  {
    predicate IsLoadable(n: Node) {
      n in info && info[n].kind.Loadable?
    }

    predicate IsContainer(n: Node) {
      n in info && !info[n].kind.Plain?
    }

    predicate HasProperty(n: Node) {
      n in info && info[n].property.Parent?
    }

    predicate BelowRoot(n: Node) {
      n in info && info[n].property == Parent("")
    }

    function NameOf(n: Node): string {
      if n in info then info[n].name else ""
    }
  }

  // Vectors

  /** The first position of `x`, or the length. */
  function IndexOf(s: seq<Node>, x: Node): (i: nat)
    ensures i <= |s| && (i < |s| ==> s[i] == x)
    ensures i < |s| <==> x in s
  {
    if s == [] || s[0] == x then 0 else 1 + IndexOf(s[1..], x)
  }

  function RemoveAt(s: seq<Node>, i: nat): seq<Node> {
    if i < |s| then s[..i] + s[i + 1..] else s
  }

  function InsertAt(s: seq<Node>, i: nat, x: Node): seq<Node> {
    if i <= |s| then s[..i] + [x] + s[i..] else s
  }

  lemma SomeMember(s: seq<Node>)
    ensures s == [] || exists m :: m in s
  {
    if s != [] {
      assert s[0] in s;
    }
  }

  lemma RemoveAtMembers(s: seq<Node>, i: nat)
    requires Distinct(s) && i < |s|
    ensures Distinct(RemoveAt(s, i)) && |RemoveAt(s, i)| == |s| - 1
    ensures forall m :: m in RemoveAt(s, i) <==> m in s && m != s[i]
  {
    var r := RemoveAt(s, i);
    forall m | m in s && m != s[i] ensures m in r {
      var k :| 0 <= k < |s| && s[k] == m;
      assert r[if k < i then k else k - 1] == m;
    }
  }

  lemma InsertAtMembers(s: seq<Node>, i: nat, x: Node)
    requires Distinct(s) && i <= |s| && x !in s
    ensures Distinct(InsertAt(s, i, x)) && |InsertAt(s, i, x)| == |s| + 1
    ensures forall m :: m in InsertAt(s, i, x) <==> m in s || m == x
  {
    var r := InsertAt(s, i, x);
    assert r[i] == x;
    forall m | m in s ensures m in r {
      var k :| 0 <= k < |s| && s[k] == m;
      assert r[if k < i then k else k + 1] == m;
    }
  }

  // Redundant views of one relation

  /** `v` lists exactly the nodes `n` with `up[n] == p`, each once. */
  ghost predicate Lists(up: map<Node, Node>, v: seq<Node>, p: Node) {
    Distinct(v) && forall n :: n in v <==> n in up && up[n] == p
  }

  ghost predicate Mirrored(l: Links) {
    forall p :: Lists(l.up, Get(l.down, p), p)
  }

  function Unlink(l: Links, n: Node): Links {
    if n !in l.up then l else
    var v := Get(l.down, l.up[n]);
    Links(l.up - {n}, l.down[l.up[n] := RemoveAt(v, IndexOf(v, n))])
  }

  function LinkAt(l: Links, n: Node, p: Node, i: nat): Links {
    Links(l.up[n := p], l.down[p := InsertAt(Get(l.down, p), i, n)])
  }

  /** The place of a node put at `pos`, where -1 means the end. */
  function Place(v: seq<Node>, pos: int): nat {
    if pos < 0 then |v| else pos
  }

  function Link(l: Links, n: Node, p: Node, pos: int): Links {
    LinkAt(l, n, p, Place(Get(l.down, p), pos))
  }

  function Move(l: Links, n: Node, p: Node, pos: int): Links {
    Link(Unlink(l, n), n, p, pos)
  }

  lemma UnlinkKeepsMirror(l: Links, n: Node)
    requires Mirrored(l) && n in l.up
    ensures Mirrored(Unlink(l, n))
    ensures |Get(Unlink(l, n).down, l.up[n])| == |Get(l.down, l.up[n])| - 1
  {
    var v := Get(l.down, l.up[n]);
    assert Lists(l.up, v, l.up[n]);
    RemoveAtMembers(v, IndexOf(v, n));
    var l' := Unlink(l, n);
    forall q ensures Lists(l'.up, Get(l'.down, q), q) {
      assert Lists(l.up, Get(l.down, q), q);
    }
  }

  lemma LinkKeepsMirror(l: Links, n: Node, p: Node, pos: int)
    requires Mirrored(l) && n !in l.up && pos <= |Get(l.down, p)|
    ensures Mirrored(Link(l, n, p, pos))
  {
    assert Lists(l.up, Get(l.down, p), p);
    InsertAtMembers(Get(l.down, p), Place(Get(l.down, p), pos), n);
    var l' := Link(l, n, p, pos);
    forall q ensures Lists(l'.up, Get(l'.down, q), q) {
      assert Lists(l.up, Get(l.down, q), q);
    }
  }

  lemma MoveKeepsMirror(l: Links, n: Node, p: Node, pos: int)
    requires Mirrored(l) && n in l.up && pos <= |Get(Unlink(l, n).down, p)|
    ensures Mirrored(Move(l, n, p, pos)) && Move(l, n, p, pos).up == l.up[n := p]
  {
    UnlinkKeepsMirror(l, n);
    LinkKeepsMirror(Unlink(l, n), n, p, pos);
    assert (l.up - {n})[n := p] == l.up[n := p];
  }

  /** `add_node` of a new node with the given data. */
  function AddNode(s: State, owner: Node, p: Node, n: Node, data: Info): State {
    s.(info := s.info[n := data], attached := s.attached + {n},
       lookupTable := s.lookupTable[data.name := n],
       ownership := Link(s.ownership, n, owner, -1),
       loadables := if data.kind.Loadable? then s.loadables + [n] else s.loadables,
       tree := Link(s.tree, n, p, -1))
  }

  // Detaching from the toplevel and attaching again

  function Unregister(s: State, n: Node): State {
    s.(attached := s.attached - {n}, lookupTable := s.lookupTable - {s.NameOf(n)})
  }

  function Register(s: State, n: Node): State {
    s.(attached := s.attached + {n}, lookupTable := s.lookupTable[s.NameOf(n) := n])
  }

  /** Takes a loadable out of place `i` below the toplevel and place `j` of its loadables. */
  function DetachAt(s: State, n: Node, i: nat, j: nat): State {
    s.(containerPosition := s.containerPosition[n := i],
       tree := Links(s.tree.up - {n}, s.tree.down[s.top := RemoveAt(Get(s.tree.down, s.top), i)]),
       loadablesPosition := s.loadablesPosition[n := j],
       loadables := RemoveAt(s.loadables, j))
  }

  function AttachAt(s: State, n: Node, i: nat, j: nat): State {
    s.(tree := LinkAt(s.tree, n, s.top, i),
       containerPosition := s.containerPosition - {n},
       loadables := InsertAt(s.loadables, j, n),
       loadablesPosition := s.loadablesPosition - {n})
  }

  function RemoveNodeFromToplevel(s: State, n: Node): State {
    var t := Unregister(s, n);
    if s.IsLoadable(n) then DetachAt(t, n, IndexOf(Get(s.tree.down, s.top), n), IndexOf(s.loadables, n)) else t
  }

  function AddNodeToToplevel(s: State, n: Node): State {
    var t := Register(s, n);
    if s.IsLoadable(n) && n in s.containerPosition && n in s.loadablesPosition then
      AttachAt(t, n, s.containerPosition[n], s.loadablesPosition[n])
    else t
  }

  /** The loop of `remove_loadable_from_toplevel`: from the back, skipping nodes already detached. */
  function RemoveFromToplevel(s: State, ns: seq<Node>): State
    decreases |ns|
  {
    if ns == [] then s else
    var n := ns[|ns| - 1];
    RemoveFromToplevel(if n in s.attached then RemoveNodeFromToplevel(s, n) else s, ns[..|ns| - 1])
  }

  /** The loop of `add_loadable_to_toplevel`, from the front. */
  function AddToToplevel(s: State, ns: seq<Node>): State
    decreases |ns|
  {
    if ns == [] then s else AddNodeToToplevel(AddToToplevel(s, ns[..|ns| - 1]), ns[|ns| - 1])
  }
}
