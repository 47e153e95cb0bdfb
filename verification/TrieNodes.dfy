/**
 * The heap nodes of a trie. A Shape is a ghost picture of the nodes below one node; a
 * Context is a picture of everything around it, so that a walk down the tree can change
 * the nodes it has reached and say what that means for the whole.
 */
module TrieNodes {
  import opened Bytes
  import opened TrieModel

  lemma {:induction false} SearchAll(kids: seq<Tree>, key: Key)
    ensures Slot(kids, key) == Search(kids, key, 0, |kids|)
  {}

  lemma {:induction false} SearchStep(kids: seq<Tree>, key: Key, i: nat, j: nat)
    requires i < j <= |kids|
    ensures
      var h := (i + j) / 2;
      Search(kids, key, i, j) == if Less(kids[h].name, key) then Search(kids, key, h + 1, j) else Search(kids, key, i, h)
  {}

  lemma {:induction false} SearchDone(kids: seq<Tree>, key: Key, i: nat)
    requires i <= |kids|
    ensures Search(kids, key, i, i) == i
  {}

  class TrieNode {
    var name: Key
    var value: u64
    var children: seq<TrieNode>

    constructor (name: Key)
      ensures this.name == name && value == 0 && children == []
    {
      this.name, value, children := name, 0, [];
    }

    /** sort.Search over the children's names, then the insertion itself. */
    method Insert(t2: TrieNode, ghost kids: seq<Tree>)
      requires |kids| == |children| && forall i :: 0 <= i < |kids| ==> children[i].name == kids[i].name
      modifies this`children
      ensures var i := Slot(kids, t2.name); children == old(children)[..i] + [t2] + old(children)[i..]
    {
      hide Search, Less, Slot;
      var key := t2.name;
      var i, j := 0, |children|;
      SearchAll(kids, key);
      while i < j
        invariant 0 <= i <= j <= |children| && children == old(children)
        invariant Search(kids, key, i, j) == Slot(kids, key)
      {
        var h := (i + j) / 2;
        SearchStep(kids, key, i, j);
        if Less(children[h].name, key) {
          i := h + 1;
        } else {
          j := h;
        }
      }
      SearchDone(kids, key, i);
      children := children[..i] + [t2] + children[i..];
    }

    /** The last child whose name starts with c, or -1. A child without a name ends the scan in a panic. */
    method FindLead(c: byte, ghost kids: seq<Tree>) returns (panicked: bool, leadIndex: int)
      requires |kids| == |children|
      requires forall i :: 0 <= i < |kids| ==> children[i].name == kids[i].name
      ensures panicked <==> !Named(kids)
      ensures !panicked ==> leadIndex == Lead(kids, c)
    {
      leadIndex := -1;
      for k := 0 to |children|
        invariant Named(kids[..k]) && leadIndex == Lead(kids[..k], c)
      {
        assert kids[..k + 1][..k] == kids[..k];
        if children[k].name == [] {
          return true, leadIndex;
        }
        if children[k].name[0] == c {
          leadIndex := k;
        }
      }
      assert kids[..|children|] == kids;
      panicked := false;
    }
  }

  // ---- Shapes ----

  /** The nodes of footprint are those below node, itself among them. */
  datatype Shape = Shape(node: TrieNode, name: Key, value: u64, kids: seq<Shape>, footprint: set<TrieNode>)

  ghost function View(g: Shape): (t: Tree)
    ensures t.name == g.name && t.value == g.value && |t.kids| == |g.kids|
    ensures forall i :: 0 <= i < |g.kids| ==> t.kids[i] == View(g.kids[i])
  {
    Node(g.name, g.value, seq(|g.kids|, i requires 0 <= i < |g.kids| => View(g.kids[i])))
  }

  /** No node occurs twice. */
  ghost predicate Apart(g: Shape)
  {
    && g.node in g.footprint
    && (forall i :: 0 <= i < |g.kids| ==>
          Apart(g.kids[i]) && g.kids[i].footprint <= g.footprint && g.node !in g.kids[i].footprint)
    && (forall i, j :: 0 <= i < j < |g.kids| ==> g.kids[i].footprint !! g.kids[j].footprint)
  }

  /** The heap below g.node looks like g. */
  ghost predicate Rep(g: Shape)
    requires Apart(g)
    reads g.footprint
  {
    && g.node.name == g.name && g.node.value == g.value
    && |g.node.children| == |g.kids|
    && forall i :: 0 <= i < |g.kids| ==> g.node.children[i] == g.kids[i].node && Rep(g.kids[i])
  }

  // ---- Contexts ----

  /** What surrounds a subtree: it is child k of parent, whose picture of that child may be out of date. */
  datatype Context = Top | In(parent: Shape, k: nat, up: Context)

  /** The nodes of parent that are not below child k. */
  ghost function Level(parent: Shape, k: nat): (r: set<TrieNode>)
    requires k < |parent.kids|
  {
    parent.footprint - parent.kids[k].footprint
  }

  ghost predicate ApartAround(c: Context)
  {
    match c
    case Top => true
    case In(parent, k, up) =>
      k < |parent.kids| && Apart(parent) && ApartAround(up) && Level(parent, k) !! Around(up)
  }

  ghost function Around(c: Context): (r: set<TrieNode>)
  {
    match c
    case Top => {}
    case In(parent, k, up) => (if k < |parent.kids| then Level(parent, k) else {}) + Around(up)
  }

  /** The nodes of surroundings that can be mentioned exist already. */
  lemma {:induction false} Existing(c: Context)
    ensures forall n :: n in Around(c) ==> allocated(n)
    decreases c
  {
    if c.In? { Existing(c.up); }
  }

  /** The heap around the node hole looks like c. */
  ghost predicate RepAround(c: Context, hole: TrieNode)
    requires ApartAround(c)
    reads Around(c)
  {
    match c
    case Top => true
    case In(parent, k, up) =>
      && parent.node.name == parent.name && parent.node.value == parent.value
      && |parent.node.children| == |parent.kids| && parent.node.children[k] == hole
      && (forall i :: 0 <= i < |parent.kids| && i != k ==>
            parent.node.children[i] == parent.kids[i].node && Rep(parent.kids[i]))
      && RepAround(up, parent.node)
  }

  /** The parent in the surroundings, with the subtree g in the hole. */
  ghost function Outer(c: Context, g: Shape): (p: Shape)
    requires c.In? && ApartAround(c)
  {
    c.parent.(kids := c.parent.kids[c.k := g], footprint := Level(c.parent, c.k) + g.footprint)
  }

  ghost function Plug(c: Context, g: Shape): (r: Shape)
    requires ApartAround(c)
  {
    if c.Top? then g else Plug(c.up, Outer(c, g))
  }

  ghost function PlugView(c: Context, t: Tree): (r: Tree)
    requires ApartAround(c)
  {
    match c
    case Top => t
    case In(parent, k, up) => PlugView(up, View(parent).(kids := View(parent).kids[k := t]))
  }

  /** The root of a tree in which c surrounds the node n. */
  ghost function RootOf(c: Context, n: TrieNode): (r: TrieNode)
  {
    match c
    case Top => n
    case In(parent, _, up) => RootOf(up, parent.node)
  }

  /** g is what is below a node, c what is around it, and the two do not overlap. */
  ghost predicate Focus(c: Context, g: Shape)
    reads g.footprint, Around(c)
  {
    ApartAround(c) && Apart(g) && g.footprint !! Around(c) && Rep(g) && RepAround(c, g.node)
  }

  lemma {:induction false} ZoomOut(c: Context, g: Shape)
    requires c.In? && Focus(c, g)
    ensures Focus(c.up, Outer(c, g)) && Outer(c, g).footprint == g.footprint + Level(c.parent, c.k)
    ensures View(Outer(c, g)) == View(c.parent).(kids := View(c.parent).kids[c.k := View(g)])
  {
    assert View(Outer(c, g)).kids == View(c.parent).kids[c.k := View(g)];
  }

  /** Putting a focused subtree back into its surroundings. */
  lemma {:induction false} PlugFocus(c: Context, g: Shape)
    requires Focus(c, g)
    ensures Focus(Top, Plug(c, g)) && Plug(c, g).footprint == g.footprint + Around(c)
    ensures View(Plug(c, g)) == PlugView(c, View(g)) && Plug(c, g).node == RootOf(c, g.node)
    decreases c
  {
    if c.In? {
      ZoomOut(c, g);
      hide Rep;
      hide Apart;
      hide View;
      PlugFocus(c.up, Outer(c, g));
    }
  }

  /** Moving the focus to a child. */
  lemma {:induction false} ZoomIn(c: Context, g: Shape, k: nat)
    requires Focus(c, g) && k < |g.kids|
    ensures Focus(In(g, k, c), g.kids[k])
    ensures g.kids[k].footprint + Around(In(g, k, c)) == g.footprint + Around(c)
    ensures forall t :: PlugView(In(g, k, c), t) == PlugView(c, View(g).(kids := View(g).kids[k := t]))
    ensures View(g.kids[k]) == View(g).kids[k]
  {}
}
