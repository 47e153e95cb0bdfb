/** trieNode.findNodeAt: the walk that finds or makes the node of a key, splitting edges in place. */
module TrieFind {
  import opened Bytes
  import opened TrieModel
  import opened TrieNodes

  /** Calls fn on one node. */
  method Call(fn: Update, tn: TrieNode, ghost g: Shape) returns (ghost r: Shape)
    requires Apart(g) && Rep(g) && tn == g.node
    modifies tn`value
    ensures r == g.(value := Apply(fn, g.value))
    ensures Apart(r) && Rep(r)
  {
    tn.value := Apply(fn, tn.value);
    r := g.(value := Apply(fn, g.value));
    forall j | 0 <= j < |g.kids|
      ensures Rep(g.kids[j])
    {
      assert old(Rep(g.kids[j]));
    }
  }

  /** A node's children with one more put in at position i. */
  ghost function Wedge(kids: seq<Shape>, i: nat, leaf: Shape): (r: seq<Shape>)
    requires i <= |kids|
    ensures |r| == |kids| + 1
    ensures forall j :: 0 <= j < |r| ==> r[j] == if j < i then kids[j] else if j == i then leaf else kids[j - 1]
  {
    kids[..i] + [leaf] + kids[i..]
  }

  ghost function Adopted(g: Shape, i: nat, leaf: Shape): (r: Shape)
    requires i <= |g.kids|
  {
    g.(kids := Wedge(g.kids, i, leaf), footprint := g.footprint + leaf.footprint)
  }

  lemma {:induction false} WedgeApart(kids: seq<Shape>, i: nat, leaf: Shape)
    requires i <= |kids|
    requires forall a, b :: 0 <= a < b < |kids| ==> kids[a].footprint !! kids[b].footprint
    requires forall a :: 0 <= a < |kids| ==> leaf.footprint !! kids[a].footprint
    ensures var r := Wedge(kids, i, leaf); forall a, b :: 0 <= a < b < |r| ==> r[a].footprint !! r[b].footprint
  {}

  lemma {:induction false} AdoptedApart(g: Shape, i: nat, leaf: Shape)
    requires i <= |g.kids| && Apart(g) && Apart(leaf) && leaf.footprint !! g.footprint
    ensures Apart(Adopted(g, i, leaf))
  {
    var r := Adopted(g, i, leaf);
    WedgeApart(g.kids, i, leaf);
    forall j | 0 <= j < |r.kids|
      ensures Apart(r.kids[j]) && r.kids[j].footprint <= r.footprint && g.node !in r.kids[j].footprint
    {
      assert r.kids[j] == leaf || r.kids[j] in g.kids;
    }
  }

  lemma {:induction false} ChildNames(g: Shape)
    requires Apart(g) && Rep(g)
    ensures |View(g).kids| == |g.node.children|
    ensures forall i :: 0 <= i < |g.kids| ==> g.node.children[i].name == View(g).kids[i].name == g.kids[i].name
    ensures forall i :: 0 <= i < |g.kids| ==> g.node.children[i] == g.kids[i].node && g.kids[i].node in g.footprint
  {
    forall i | 0 <= i < |g.kids|
      ensures g.node.children[i].name == View(g).kids[i].name
    {
      assert Rep(g.kids[i]);
    }
  }

  /** Case 1: a new child takes its place among the others. */
  method AddChild(tn: TrieNode, newTn: TrieNode, ghost g: Shape, ghost leaf: Shape) returns (ghost r: Shape)
    requires Apart(g) && Rep(g) && tn == g.node
    requires Apart(leaf) && Rep(leaf) && newTn == leaf.node && leaf.footprint !! g.footprint
    modifies tn`children
    ensures r == Adopted(g, Slot(View(g).kids, leaf.name), leaf)
    ensures Apart(r) && Rep(r)
  {
    hide Less, Search, Slot, Wedge, View;
    ghost var i := Slot(View(g).kids, leaf.name);
    ChildNames(g);
    tn.Insert(newTn, View(g).kids);
    r := Adopted(g, i, leaf);
    AdoptedApart(g, i, leaf);
    assert Rep(leaf) by { assert old(Rep(leaf)); }
    forall j | 0 <= j < |g.kids|
      ensures Rep(g.kids[j])
    {
      assert old(Rep(g.kids[j]));
    }
    forall j | 0 <= j < |r.kids|
      ensures tn.children[j] == r.kids[j].node && Rep(r.kids[j])
    {
      assert r.kids[j] == if j < i then g.kids[j] else if j == i then leaf else g.kids[j - 1];
    }
  }

  /** Child kid after a new node has taken over the first i bytes of its name. */
  ghost function SplitShape(kid: Shape, i: nat, newTn: TrieNode): (r: Shape)
    requires i <= |kid.name|
    ensures View(r) == Split(View(kid), i)
  {
    var c := kid.(name := kid.name[i..]);
    var r := Shape(newTn, kid.name[..i], 0, [c], kid.footprint + {newTn});
    assert View(c) == View(kid).(name := kid.name[i..]);
    assert View(r).kids == [View(c)];
    r
  }

  ghost function SplitOff(g: Shape, k: nat, i: nat, newTn: TrieNode): (r: Shape)
    requires k < |g.kids| && i <= |g.kids[k].name|
  {
    g.(kids := g.kids[k := SplitShape(g.kids[k], i, newTn)], footprint := g.footprint + {newTn})
  }

  lemma {:induction false} SplitOffApart(g: Shape, k: nat, i: nat, newTn: TrieNode)
    requires k < |g.kids| && i <= |g.kids[k].name| && Apart(g) && newTn !in g.footprint
    ensures Apart(SplitOff(g, k, i, newTn))
  {
    assert Apart(SplitShape(g.kids[k], i, newTn).kids[0]);
    assert Apart(SplitShape(g.kids[k], i, newTn));
  }

  /** Case 3: a new node with the common part of the name is put above child k. */
  method SplitChild(tn: TrieNode, k: nat, child: TrieNode, i: nat, ghost g: Shape) returns (newTn: TrieNode, ghost r: Shape)
    requires Apart(g) && Rep(g) && tn == g.node && k < |g.kids|
    requires child == tn.children[k] && i <= |g.kids[k].name|
    modifies tn`children, child`name
    ensures fresh(newTn) && r == SplitOff(g, k, i, newTn)
    ensures Apart(r) && Rep(r)
  {
    hide View, Split;
    var a, b := child.name[..i], child.name[i..];
    ghost var kid := g.kids[k];
    newTn := new TrieNode(a);
    newTn.children := [child];
    child.name := b;
    tn.children := tn.children[k := newTn];
    r := SplitOff(g, k, i, newTn);
    SplitOffApart(g, k, i, newTn);
    forall j | 0 <= j < |kid.kids|
      ensures Rep(kid.kids[j])
    {
      assert old(Rep(kid.kids[j]));
    }
    assert Rep(kid.(name := b));
    assert Rep(r.kids[k]);
    forall j | 0 <= j < |g.kids| && j != k
      ensures Rep(g.kids[j])
    {
      assert old(Rep(g.kids[j]));
    }
  }

  lemma {:induction false} InsStep(t: Tree, key: Key, fn: Update, k: nat, i: nat)
    requires Walkable(t, key) && key != [] && Lead(t.kids, key[0]) == k && i == Common(t.kids[k].name, key)
    ensures i >= 1
    ensures i == |t.kids[k].name| ==>
      && Walkable(t.kids[k], key[i..])
      && Ins(t, key, fn) == t.(kids := t.kids[k := Ins(t.kids[k], key[i..], fn)])
    ensures i < |t.kids[k].name| ==>
      && Walkable(Split(t.kids[k], i), key[i..])
      && Ins(t, key, fn) == t.(kids := t.kids[k := Ins(Split(t.kids[k], i), key[i..], fn)])
  {
    FirstByteCommon(t.kids[k].name, key);
    if i < |t.kids[k].name| { SplitWalks(t.kids[k], key, i); }
  }

  lemma {:induction false} CommonIs(a: Key, b: Key, i: nat)
    requires i <= |a| && i <= |b| && a[..i] == b[..i]
    requires i < |a| && i < |b| ==> a[i] != b[i]
    ensures Common(a, b) == i
  {
    if i > 0 {
      assert a[..i][0] == b[..i][0];
      assert a[1..][..i - 1] == a[..i][1..] && b[1..][..i - 1] == b[..i][1..];
      CommonIs(a[1..], b[1..], i - 1);
    }
  }

  /** What is still to be done at tn, put into its surroundings, gives the whole result. */
  ghost predicate Pending(c: Context, g: Shape, key: Key, fn: Update, goal: Tree)
    reads g.footprint, Around(c)
  {
    Focus(c, g) && Walkable(View(g), key) && PlugView(c, Ins(View(g), key, fn)) == goal
  }

  /** The way is not free: nothing was changed on it, and nothing will be. */
  ghost predicate Stuck(c: Context, g: Shape, key: Key, g0: Shape)
    reads g.footprint, Around(c)
  {
    Focus(c, g) && !Walkable(View(g), key) && Plug(c, g) == g0
  }

  /** A way that is not free ends at a child without a name, here or below the child that leads on. */
  lemma {:induction false} StuckBelow(c: Context, g: Shape, key: Key, g0: Shape)
    requires Stuck(c, g, key, g0)
    ensures key != [] && Focus(c, g)
    ensures Named(View(g).kids) ==>
      (var k := Lead(View(g).kids, key[0]);
       && k >= 0 && [] < g.kids[k].name < key
       && Stuck(In(g, k, c), g.kids[k], key[|g.kids[k].name|..], g0)
       && g.kids[k].footprint + Around(In(g, k, c)) == g.footprint + Around(c)
       && RootOf(In(g, k, c), g.kids[k].node) == RootOf(c, g.node))
  {
    if Named(View(g).kids) {
      var k := Lead(View(g).kids, key[0]);
      var i := Common(g.kids[k].name, key);
      FirstByteCommon(g.kids[k].name, key);
      assert key[..i] == g.kids[k].name && !Walkable(View(g).kids[k], key[i..]);
      ZoomIn(c, g, k);
      PlugBack(c, g, k);
    }
  }

  /** Zooming in does not change the whole. */
  lemma {:induction false} PlugBack(c: Context, g: Shape, k: nat)
    requires Focus(c, g) && k < |g.kids|
    ensures ApartAround(In(g, k, c)) && Plug(In(g, k, c), g.kids[k]) == Plug(c, g)
  {
    ZoomIn(c, g, k);
    assert Outer(In(g, k, c), g.kids[k]) == g;
  }

  lemma {:induction false} StuckEnds(c: Context, g: Shape, key: Key, g0: Shape)
    requires Stuck(c, g, key, g0)
    ensures Apart(g0) && Rep(g0)
  {
    PlugFocus(c, g);
    WholeFocus(g0);
  }

  /** Case 4: the key goes on below child k. */
  lemma {:induction false} Descend(c: Context, g: Shape, key: Key, fn: Update, goal: Tree, k: nat)
    requires Pending(c, g, key, fn, goal) && key != [] && Lead(View(g).kids, key[0]) == k
    requires g.kids[k].name <= key
    ensures Pending(In(g, k, c), g.kids[k], key[|g.kids[k].name|..], fn, goal)
    ensures g.kids[k].footprint + Around(In(g, k, c)) == g.footprint + Around(c)
    ensures RootOf(In(g, k, c), g.kids[k].node) == RootOf(c, g.node) && g.kids[k].name != []
  {
    var i := |g.kids[k].name|;
    assert key[..i] == g.kids[k].name;
    CommonIs(View(g).kids[k].name, key, i);
    InsStep(View(g), key, fn, k, i);
    ZoomIn(c, g, k);
  }

  /** Case 3: the key goes on below the new node. */
  lemma {:induction false} DescendSplit(c: Context, g: Shape, key: Key, fn: Update, goal: Tree, k: nat, i: nat, newTn: TrieNode, t: Tree)
    requires Walkable(t, key) && View(g) == t && key != [] && Lead(t.kids, key[0]) == k
    requires i == Common(t.kids[k].name, key) && i < |t.kids[k].name|
    requires Focus(c, SplitOff(g, k, i, newTn)) && PlugView(c, Ins(t, key, fn)) == goal
    ensures var r := SplitOff(g, k, i, newTn);
      && Pending(In(r, k, c), r.kids[k], key[i..], fn, goal)
      && r.kids[k].footprint + Around(In(r, k, c)) == r.footprint + Around(c)
    ensures RootOf(In(SplitOff(g, k, i, newTn), k, c), newTn) == RootOf(c, g.node)
    ensures i >= 1 && SplitOff(g, k, i, newTn).kids[k].node == newTn
  {
    var r := SplitOff(g, k, i, newTn);
    InsStep(t, key, fn, k, i);
    ZoomIn(c, r, k);
    var below := Ins(Split(t.kids[k], i), key[i..], fn);
    assert View(r).(kids := View(r).kids[k := below]) == t.(kids := t.kids[k := below]);
  }

  /** Calls fn on the node reached and puts the picture of the whole tree together. */
  method Finish(tn: TrieNode, fn: Update, ghost c: Context, ghost g: Shape, ghost goal: Tree) returns (ghost r: Shape)
    requires Pending(c, g, [], fn, goal) && tn == g.node
    modifies tn`value
    ensures Apart(r) && Rep(r) && View(r) == goal
    ensures r.node == RootOf(c, tn) && r.footprint == g.footprint + Around(c)
  {
    hide *;
    Existing(c);
    PendingHere(c, g, [], fn, goal);
    FocusHere(c, g);
    InsNothing(View(g), fn);
    ghost var t := View(g);
    ghost var done := Call(fn, tn, g);
    ValueView(g, done.value);
    Refocus(c, done);
    PlugFocus(c, done);
    r := Plug(c, done);
    WholeFocus(r);
  }

  lemma {:induction false} WholeFocus(g: Shape)
    requires Focus(Top, g)
    ensures Apart(g) && Rep(g)
  {}

  lemma {:induction false} InsNothing(t: Tree, fn: Update)
    ensures Ins(t, [], fn) == t.(value := Apply(fn, t.value))
  {}

  lemma {:induction false} ValueView(g: Shape, v: u64)
    ensures View(g.(value := v)) == View(g).(value := v)
  {
    assert View(g.(value := v)).kids == View(g).kids;
  }

  /** Case 1: the new leaf is where fn will be called. */
  lemma {:induction false} LeafPending(c: Context, g: Shape, key: Key, fn: Update, goal: Tree, i: nat, leaf: Shape, t: Tree)
    requires Walkable(t, key) && View(g) == t && key != [] && Lead(t.kids, key[0]) < 0
    requires i == Slot(t.kids, key)
    requires leaf.name == key && leaf.value == 0 && leaf.kids == [] && Focus(c, Adopted(g, i, leaf))
    requires PlugView(c, Ins(t, key, fn)) == goal
    ensures Pending(In(Adopted(g, i, leaf), i, c), leaf, [], fn, goal)
    ensures leaf.footprint + Around(In(Adopted(g, i, leaf), i, c)) == Adopted(g, i, leaf).footprint + Around(c)
    ensures RootOf(In(Adopted(g, i, leaf), i, c), leaf.node) == RootOf(c, g.node)
  {
    var r := Adopted(g, i, leaf);
    ZoomIn(c, r, i);
    LeafIns(t, key, fn, i);
    LeafDone(key, fn);
    var done := Node(key, Apply(fn, 0), []);
    AdoptedView(g, i, leaf, done, t);
    hide *;
    assert PlugView(In(r, i, c), done) == goal;
    LeafIntro(In(r, i, c), leaf, fn, goal);
  }

  lemma {:induction false} LeafIntro(c: Context, leaf: Shape, fn: Update, goal: Tree)
    requires Focus(c, leaf) && leaf.kids == [] && leaf.value == 0
    requires PlugView(c, Node(leaf.name, Apply(fn, 0), [])) == goal
    ensures Pending(c, leaf, [], fn, goal)
  {
    assert View(leaf) == Node(leaf.name, 0, []);
    LeafDone(leaf.name, fn);
  }

  lemma {:induction false} AdoptedView(g: Shape, i: nat, leaf: Shape, done: Tree, t: Tree)
    requires i <= |g.kids| && View(g) == t
    ensures var r := Adopted(g, i, leaf);
      View(r).(kids := View(r).kids[i := done]) == t.(kids := t.kids[..i] + [done] + t.kids[i..])
  {
    var r := Adopted(g, i, leaf);
    assert View(r).kids[i := done] == t.kids[..i] + [done] + t.kids[i..];
  }

  lemma {:induction false} LeafDone(key: Key, fn: Update)
    ensures Ins(Node(key, 0, []), [], fn) == Node(key, Apply(fn, 0), [])
  {}

  lemma {:induction false} LeafIns(t: Tree, key: Key, fn: Update, i: nat)
    requires Walkable(t, key) && key != [] && Lead(t.kids, key[0]) < 0 && i == Slot(t.kids, key)
    ensures Ins(t, key, fn) == t.(kids := t.kids[..i] + [Node(key, Apply(fn, 0), [])] + t.kids[i..])
  {}

  lemma {:induction false} NewShape(leaf: Shape)
    requires leaf.kids == [] && leaf.footprint == {leaf.node} && leaf.node.children == []
    requires leaf.node.name == leaf.name && leaf.node.value == leaf.value
    ensures Apart(leaf) && Rep(leaf)
  {}

  /** Case 1: no child starts like the key. */
  method MakeLeaf(tn: TrieNode, key: Key, fn: Update, ghost c: Context, ghost g: Shape, ghost goal: Tree)
    returns (newTn: TrieNode, ghost c1: Context, ghost g1: Shape)
    requires Pending(c, g, key, fn, goal) && tn == g.node && key != [] && Lead(View(g).kids, key[0]) == -1
    modifies tn`children
    ensures Pending(c1, g1, [], fn, goal) && newTn == g1.node && RootOf(c1, newTn) == RootOf(c, tn)
    ensures fresh(newTn) && g1.footprint + Around(c1) == g.footprint + Around(c) + {newTn}
  {
    hide *;
    Existing(c);
    PendingHere(c, g, key, fn, goal);
    FocusHere(c, g);
    newTn := new TrieNode(key);
    ghost var t := View(g);
    g1 := Shape(newTn, key, 0, [], {newTn});
    NewShape(g1);
    ghost var i := Slot(t.kids, key);
    ghost var r := AddChild(tn, newTn, g, g1);
    AdoptedParts(g, i, g1);
    Refocus(c, r);
    LeafPending(c, g, key, fn, goal, i, g1, t);
    c1 := In(r, i, c);
  }

  lemma {:induction false} AdoptedParts(g: Shape, i: nat, leaf: Shape)
    requires i <= |g.kids|
    ensures var r := Adopted(g, i, leaf); r.node == g.node && r.footprint == g.footprint + leaf.footprint
  {}

  /** Case 3: the child agrees with the key in its first i bytes only. */
  method MakeFork(tn: TrieNode, k: nat, child: TrieNode, i: nat, key: Key, ghost fn: Update,
                  ghost c: Context, ghost g: Shape, ghost goal: Tree)
    returns (newTn: TrieNode, ghost c1: Context, ghost g1: Shape)
    requires Pending(c, g, key, fn, goal) && tn == g.node && key != [] && Lead(View(g).kids, key[0]) == k
    requires child == tn.children[k] && i == Common(g.kids[k].name, key) && i < |g.kids[k].name|
    modifies tn`children, child`name
    ensures 1 <= i <= |key| && Pending(c1, g1, key[i..], fn, goal)
    ensures newTn == g1.node && RootOf(c1, newTn) == RootOf(c, tn)
    ensures fresh(newTn) && g1.footprint + Around(c1) == g.footprint + Around(c) + {newTn}
  {
    hide *;
    Existing(c);
    PendingHere(c, g, key, fn, goal);
    FocusHere(c, g);
    ghost var t, r := View(g), g;
    newTn, r := SplitChild(tn, k, child, i, g);
    SplitOffParts(g, k, i, newTn);
    Refocus(c, r);
    DescendSplit(c, g, key, fn, goal, k, i, newTn, t);
    c1, g1 := In(r, k, c), r.kids[k];
  }

  lemma {:induction false} SplitOffParts(g: Shape, k: nat, i: nat, newTn: TrieNode)
    requires k < |g.kids| && i <= |g.kids[k].name|
    ensures var r := SplitOff(g, k, i, newTn);
      r.node == g.node && r.footprint == g.footprint + {newTn} && |r.kids| == |g.kids|
  {}

  /**
   * Finds the node of key below root, making it if need be, and calls fn with it. The tree
   * below root becomes Ins of what it was; when the way is not free it panics, before any change.
   */
  method FindNodeAt(root: TrieNode, wanted: Key, fn: Update, ghost g0: Shape) returns (panicked: bool, ghost g1: Shape)
    requires Apart(g0) && Rep(g0) && root == g0.node
    modifies g0.footprint
    ensures Apart(g1) && Rep(g1) && root == g1.node && fresh(g1.footprint - g0.footprint)
    ensures panicked <==> !Walkable(View(g0), wanted)
    ensures if panicked then g1 == g0 else View(g1) == Ins(View(g0), wanted, fn)
  {
    hide *;
    var tn, key := root, wanted;
    ghost var free := Walkable(View(g0), wanted);
    ghost var c, g, goal := Top, g0, if free then Ins(View(g0), wanted, fn) else View(g0);
    ghost var born: set<TrieNode> := {};
    Start(g0, wanted, fn);
    label OuterLoop:
    while true
      invariant tn == g.node && RootOf(c, tn) == root
      invariant if free then Pending(c, g, key, fn, goal) else Stuck(c, g, key, g0)
      invariant g.footprint + Around(c) <= g0.footprint + born && fresh(born)
      decreases |key|
    {
      if free { PendingHere(c, g, key, fn, goal); } else { StuckBelow(c, g, key, g0); }
      FocusHere(c, g);
      Existing(c);
      if |key| == 0 {
        g1 := Finish(tn, fn, c, g, goal);
        return false, g1;
      }
      var empty, leadIndex := tn.FindLead(key[0], View(g).kids);
      if empty {
        StuckEnds(c, g, key, g0);
        return true, g0;
      }
      if leadIndex == -1 { // 1
        var newTn;
        newTn, c, g := MakeLeaf(tn, key, fn, c, g, goal);
        born := born + {newTn};
        g1 := Finish(newTn, fn, c, g, goal);
        return false, g1;
      }
      var child := tn.children[leadIndex];
      var leadKey := child.name;
      var lk, llk := |key|, |leadKey|;
      for i := 0 to lk
        invariant i <= llk && key[..i] == leadKey[..i]
      {
        if i == llk { // 4
          if free { Descend(c, g, key, fn, goal, leadIndex); }
          c, g := In(g, leadIndex, c), g.kids[leadIndex];
          tn := child;
          key := key[llk..];
          continue OuterLoop;
        }
        if leadKey[i] != key[i] { // 3
          CommonIs(leadKey, key, i);
          tn, c, g := MakeFork(tn, leadIndex, child, i, key, fn, c, g, goal);
          born := born + {tn};
          key := key[i..];
          continue OuterLoop;
        }
      }
      assert key == key[..lk] == leadKey[..lk];
      if key != leadKey { // 3, the key ends inside the child's name
        CommonIs(leadKey, key, lk);
        tn, c, g := MakeFork(tn, leadIndex, child, lk, key, fn, c, g, goal);
        born := born + {tn};
        key := key[lk..];
        continue OuterLoop;
      }
      // 2
      Descend(c, g, key, fn, goal, leadIndex);
      c, g := In(g, leadIndex, c), g.kids[leadIndex];
      assert key[|leadKey|..] == [];
      g1 := Finish(child, fn, c, g, goal);
      return false, g1;
    }
  }

  lemma {:induction false} Refocus(c: Context, g: Shape)
    requires ApartAround(c) && Apart(g) && Rep(g) && RepAround(c, g.node) && g.footprint !! Around(c)
    ensures Focus(c, g)
  {}

  lemma {:induction false} Start(g: Shape, key: Key, fn: Update)
    requires Apart(g) && Rep(g)
    ensures Walkable(View(g), key) ==> Pending(Top, g, key, fn, Ins(View(g), key, fn))
    ensures !Walkable(View(g), key) ==> Stuck(Top, g, key, g)
    ensures RootOf(Top, g.node) == g.node && Around(Top) == {}
  {}

  /** What a node in focus has on the heap. */
  lemma {:induction false} FocusHere(c: Context, g: Shape)
    requires Focus(c, g)
    ensures ApartAround(c) && Apart(g) && Rep(g) && RepAround(c, g.node)
    ensures g.footprint !! Around(c) && g.node in g.footprint
    ensures |g.kids| == |View(g).kids| == |g.node.children|
    ensures forall i :: 0 <= i < |g.kids| ==> g.node.children[i].name == View(g).kids[i].name == g.kids[i].name
    ensures forall i :: 0 <= i < |g.kids| ==> g.node.children[i] == g.kids[i].node && g.kids[i].node in g.footprint
  {
    ChildNames(g);
  }

  lemma {:induction false} PendingHere(c: Context, g: Shape, key: Key, fn: Update, goal: Tree)
    requires Pending(c, g, key, fn, goal)
    ensures Focus(c, g) && Walkable(View(g), key) && PlugView(c, Ins(View(g), key, fn)) == goal
    ensures key != [] ==> Named(View(g).kids)
  {}
}
