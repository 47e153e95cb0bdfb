/** Deserialize: the tree is rebuilt node by node, with a stack of parents. */
module TrieDecode {
  import opened Bytes
  import opened Streams
  import opened TrieModel
  import opened TrieWire
  import opened TrieNodes
  import opened TrieFind
  import opened Tries
  import TrieCanon
  import TrieScale
  import V = Varint

  // ---- Finding a node in a picture ----

  ghost predicate Has(g: Shape, p: TrieNode)
  {
    g.node == p || exists i :: 0 <= i < |g.kids| && Has(g.kids[i], p)
  }

  /** The surroundings of the node p. */
  lemma {:induction false} Locate(c: Context, g: Shape, p: TrieNode) returns (c1: Context, h: Shape)
    requires Focus(c, g) && Has(g, p)
    ensures Focus(c1, h) && h.node == p && Plug(c1, h) == Plug(c, g)
    decreases g
  {
    if g.node == p {
      c1, h := c, g;
    } else {
      var i :| 0 <= i < |g.kids| && Has(g.kids[i], p);
      ZoomIn(c, g, i);
      PlugBack(c, g, i);
      c1, h := Locate(In(g, i, c), g.kids[i], p);
    }
  }

  /** Whatever was in the tree stays in it when one subtree is replaced by one that has no less. */
  lemma {:induction false} HasPlug(c: Context, g: Shape, h: Shape, p: TrieNode)
    requires ApartAround(c) && g.node == h.node && (Has(g, p) ==> Has(h, p))
    ensures Has(Plug(c, g), p) ==> Has(Plug(c, h), p)
    decreases c
  {
    if c.In? {
      var x, y := Outer(c, g), Outer(c, h);
      if Has(x, p) && x.node != p {
        var i :| 0 <= i < |x.kids| && Has(x.kids[i], p);
        assert Has(y.kids[i], p);
      }
      HasPlug(c.up, x, y, p);
    }
  }

  lemma {:induction false} HasInner(c: Context, g: Shape, p: TrieNode)
    requires ApartAround(c) && Has(g, p)
    ensures Has(Plug(c, g), p)
    decreases c
  {
    if c.In? {
      assert Has(Outer(c, g).kids[c.k], p);
      HasInner(c.up, Outer(c, g), p);
    }
  }

  lemma {:induction false} HasAdopted(g: Shape, i: nat, leaf: Shape, p: TrieNode)
    requires i <= |g.kids|
    ensures Has(g, p) ==> Has(Adopted(g, i, leaf), p)
    ensures Has(leaf, p) ==> Has(Adopted(g, i, leaf), p)
  {
    var r := Adopted(g, i, leaf);
    if Has(leaf, p) {
      assert Has(r.kids[i], p);
    } else if Has(g, p) && g.node != p {
      var j :| 0 <= j < |g.kids| && Has(g.kids[j], p);
      assert Has(r.kids[if j < i then j else j + 1], p);
    }
  }

  // ---- What a half-built tree will become ----

  /** The trees that still have to be added below n, in order. */
  ghost function Mine(n: TrieNode, parents: seq<TrieNode>, ts: seq<Tree>): (r: seq<Tree>)
    requires |parents| == |ts|
  {
    if parents == [] then []
    else (if parents[0] == n then [ts[0]] else []) + Mine(n, parents[1..], ts[1..])
  }

  /** The tree of g once each of ts has been added below the parent with the same index. */
  ghost function Fin(g: Shape, parents: seq<TrieNode>, ts: seq<Tree>): (t: Tree)
    requires |parents| == |ts|
    ensures t.name == g.name
    decreases g, 1
  {
    Node(g.name, g.value, AdoptAll(FinAll(g.kids, parents, ts), Mine(g.node, parents, ts)))
  }

  ghost function FinAll(kids: seq<Shape>, parents: seq<TrieNode>, ts: seq<Tree>): (r: seq<Tree>)
    requires |parents| == |ts|
    ensures |r| == |kids| && forall i :: 0 <= i < |kids| ==> r[i] == Fin(kids[i], parents, ts)
    decreases kids, 0
  {
    seq(|kids|, i requires 0 <= i < |kids| => Fin(kids[i], parents, ts))
  }

  lemma {:induction false} MineNone(n: TrieNode, parents: seq<TrieNode>, ts: seq<Tree>)
    requires |parents| == |ts| && n !in parents
    ensures Mine(n, parents, ts) == []
    decreases |parents|
  {
    if parents != [] { MineNone(n, parents[1..], ts[1..]); }
  }

  /** New children of tn go on the stack: nothing changes for other nodes. */
  lemma {:induction false} MinePush(n: TrieNode, tn: TrieNode, kids: seq<Tree>, parents: seq<TrieNode>, ts: seq<Tree>)
    requires |parents| == |ts|
    ensures var pushed := seq(|kids|, _ => tn);
      Mine(n, pushed + parents, kids + ts) == (if n == tn then kids else []) + Mine(n, parents, ts)
    decreases |kids|
  {
    var pushed := seq(|kids|, _ => tn);
    if kids == [] {
      assert pushed + parents == parents && kids + ts == ts;
    } else {
      var rest := seq(|kids[1..]|, _ => tn);
      assert (pushed + parents)[1..] == rest + parents;
      assert (kids + ts)[1..] == kids[1..] + ts;
      MinePush(n, tn, kids[1..], parents, ts);
      if n == tn { assert [kids[0]] + (kids[1..] + Mine(n, parents, ts)) == kids + Mine(n, parents, ts); }
    }
  }

  lemma {:induction false} FinSame(g: Shape, ps: seq<TrieNode>, ts: seq<Tree>, qs: seq<TrieNode>, us: seq<Tree>)
    requires Apart(g) && |ps| == |ts| && |qs| == |us|
    requires forall n :: n in g.footprint ==> Mine(n, ps, ts) == Mine(n, qs, us)
    ensures Fin(g, ps, ts) == Fin(g, qs, us)
    decreases g
  {
    forall i | 0 <= i < |g.kids|
      ensures Fin(g.kids[i], ps, ts) == Fin(g.kids[i], qs, us)
    {
      FinSame(g.kids[i], ps, ts, qs, us);
    }
    assert FinAll(g.kids, ps, ts) == FinAll(g.kids, qs, us);
  }

  /** What becomes of the whole depends on a subtree only through what becomes of it. */
  lemma {:induction false} FinAround(c: Context, g: Shape, h: Shape,
                                     ps: seq<TrieNode>, ts: seq<Tree>, qs: seq<TrieNode>, us: seq<Tree>)
    requires ApartAround(c) && |ps| == |ts| && |qs| == |us|
    requires Fin(g, ps, ts) == Fin(h, qs, us)
    requires forall n :: n in Around(c) ==> Mine(n, ps, ts) == Mine(n, qs, us)
    ensures Fin(Plug(c, g), ps, ts) == Fin(Plug(c, h), qs, us)
    decreases c
  {
    if c.In? {
      var x, y := Outer(c, g), Outer(c, h);
      forall i | 0 <= i < |x.kids|
        ensures Fin(x.kids[i], ps, ts) == Fin(y.kids[i], qs, us)
      {
        if i != c.k { FinSame(c.parent.kids[i], ps, ts, qs, us); }
      }
      assert FinAll(x.kids, ps, ts) == FinAll(y.kids, qs, us);
      FinAround(c.up, x, y, ps, ts, qs, us);
    }
  }

  lemma {:induction false} SearchNames(a: seq<Tree>, b: seq<Tree>, key: Key, lo: nat, hi: nat)
    requires |a| == |b| && lo <= hi <= |a| && forall i :: 0 <= i < |a| ==> a[i].name == b[i].name
    ensures Search(a, key, lo, hi) == Search(b, key, lo, hi)
    decreases hi - lo
  {
    if lo < hi {
      var h := (lo + hi) / 2;
      if Less(a[h].name, key) { SearchNames(a, b, key, h + 1, hi); } else { SearchNames(a, b, key, lo, h); }
    }
  }

  /** The new leaf will become the tree that was to be added. */
  lemma {:induction false} FinLeaf(tn: TrieNode, t: Tree, parents: seq<TrieNode>, ts: seq<Tree>)
    requires tn !in parents && |parents| == |ts|
    ensures Fin(Shape(tn, t.name, t.value, [], {tn}), seq(|t.kids|, _ => tn) + parents, t.kids + ts) == Sorted(t)
  {
    var leaf, qs, vs := Shape(tn, t.name, t.value, [], {tn}), seq(|t.kids|, _ => tn) + parents, t.kids + ts;
    MinePush(tn, tn, t.kids, parents, ts);
    MineNone(tn, parents, ts);
    assert FinAll(leaf.kids, qs, vs) == [];
    assert Mine(tn, qs, vs) == t.kids;
  }

  lemma {:induction false} MineStep(g: Shape, tn: TrieNode, t: Tree, parents: seq<TrieNode>, ts: seq<Tree>, n: TrieNode)
    requires |parents| == |ts| && n != tn
    ensures Mine(n, [g.node] + parents, [t] + ts)
      == (if n == g.node then [t] else []) + Mine(n, seq(|t.kids|, _ => tn) + parents, t.kids + ts)
  {
    assert ([g.node] + parents)[1..] == parents && ([t] + ts)[1..] == ts;
    MinePush(n, tn, t.kids, parents, ts);
  }

  lemma {:induction false} FinWedge(kids: seq<Shape>, i: nat, leaf: Shape, t: Tree, before: seq<Tree>,
                                    qs: seq<TrieNode>, vs: seq<Tree>)
    requires i <= |kids| && |qs| == |vs| && before == FinAll(kids, qs, vs) && Fin(leaf, qs, vs) == t
    ensures FinAll(Wedge(kids, i, leaf), qs, vs) == before[..i] + [t] + before[i..]
  {
    hide Fin;
    var w := Wedge(kids, i, leaf);
    var after := FinAll(w, qs, vs);
    forall j | 0 <= j < |after|
      ensures after[j] == if j < i then before[j] else if j == i then t else before[j - 1]
    {
      assert w[j] == if j < i then kids[j] else if j == i then leaf else kids[j - 1];
    }
  }

  /** Below the parent nothing changes. */
  lemma {:induction false} KidsSame(g: Shape, tn: TrieNode, t: Tree, parents: seq<TrieNode>, ts: seq<Tree>)
    requires Apart(g) && tn !in g.footprint && tn !in parents && |parents| == |ts|
    ensures FinAll(g.kids, [g.node] + parents, [t] + ts) == FinAll(g.kids, seq(|t.kids|, _ => tn) + parents, t.kids + ts)
  {
    hide Mine, Fin;
    var ps, us := [g.node] + parents, [t] + ts;
    var qs, vs := seq(|t.kids|, _ => tn) + parents, t.kids + ts;
    forall j | 0 <= j < |g.kids|
      ensures Fin(g.kids[j], ps, us) == Fin(g.kids[j], qs, vs)
    {
      forall n | n in g.kids[j].footprint
        ensures Mine(n, ps, us) == Mine(n, qs, vs)
      {
        MineStep(g, tn, t, parents, ts, n);
      }
      FinSame(g.kids[j], ps, us, qs, vs);
    }
  }

  /** Adding us below ps to g, and adding vs below qs to r, make the same tree. */
  ghost predicate SameFin(g: Shape, ps: seq<TrieNode>, us: seq<Tree>, r: Shape, qs: seq<TrieNode>, vs: seq<Tree>)
  {
    |ps| == |us| && |qs| == |vs| && Fin(g, ps, us) == Fin(r, qs, vs)
  }

  /** At the parent itself: the new leaf takes the place of the tree that was to be added. */
  lemma {:induction false} FinAdopted(g: Shape, i: nat, leaf: Shape, t: Tree, parents: seq<TrieNode>, ts: seq<Tree>)
    requires i <= |g.kids| && i == Slot(View(g).kids, t.name) && |parents| == |ts|
    requires leaf == Shape(leaf.node, t.name, t.value, [], {leaf.node})
    requires leaf.node !in g.footprint && leaf.node !in parents && Apart(g)
    ensures SameFin(g, [g.node] + parents, [t] + ts, Adopted(g, i, leaf), seq(|t.kids|, _ => leaf.node) + parents, t.kids + ts)
  {
    hide Mine, Sorted, Search, View;
    var tn := leaf.node;
    var ps, us := [g.node] + parents, [t] + ts;
    var qs, vs := seq(|t.kids|, _ => tn) + parents, t.kids + ts;
    var before := FinAll(g.kids, ps, us);
    KidsSame(g, leaf.node, t, parents, ts);
    SearchNames(View(g).kids, before, t.name, 0, |before|);
    FinLeaf(tn, t, parents, ts);
    FinWedge(g.kids, i, leaf, Sorted(t), before, qs, vs);
    MineStep(g, tn, t, parents, ts, g.node);
    AdoptFirst(before, t, Mine(g.node, qs, vs));
  }

  lemma {:induction false} AdoptFirst(kids: seq<Tree>, t: Tree, ts: seq<Tree>)
    ensures AdoptAll(kids, [t] + ts) == AdoptAll(Adopt(kids, Sorted(t)), ts)
  {
    assert ([t] + ts)[1..] == ts;
  }

  /** Nothing left to add: the tree is what the picture shows. */
  lemma {:induction false} FinNothing(g: Shape)
    ensures Fin(g, [], []) == View(g)
  {
    forall i | 0 <= i < |g.kids|
      ensures Fin(g.kids[i], [], []) == View(g.kids[i])
    {
      FinNothing(g.kids[i]);
    }
    assert FinAll(g.kids, [], []) == View(g).kids;
  }

  // ---- Parsing one node off a stack of n trees ----

  lemma {:induction false} ParseStep(s: seq<byte>, n: nat)
    requires n >= 1
    ensures match ReadHead(s)
      case NoHead(f) => ParseTrees(s, n) == Failed(f)
      case Head(name, value, count, rest) =>
        var q := ParseTrees(rest, count + (n - 1));
        ParseTrees(s, n) == if q.Failed? then q
          else Parsed([Node(name, value, q.trees[..count])] + q.trees[count..], q.rest)
  {
    hide ReadHead;
    ParseUnfoldBehind(s, n);
    var h := ReadHead(s);
    if h.Head? {
      ParseSplit(h.rest, h.count, n - 1);
      var p := ParseTrees(h.rest, h.count);
      var q := ParseTrees(h.rest, h.count + (n - 1));
      if p.Parsed? && q.Parsed? {
        assert q.trees[..h.count] == p.trees;
      }
    }
  }

  // ---- The method ----

  method TakeName(r: Reader) returns (failed: bool, failure: Failure, name: Key)
    modifies r
    ensures match ReadName(old(r.rest))
      case NoName(f) => failed && failure == f
      case Name(n, rest) => !failed && name == n && r.rest == rest
  {
    hide V.Decode;
    failed, failure, name := true, Panic, [];
    var nameLen, err := V.Read(r); // the error is overwritten by the next one
    if nameLen >= TWO_63 { return; }
    name := r.ReadUpTo(nameLen);
    failed := |name| < nameLen;
    failure := Error(if name == [] then V.Eof else V.UnexpectedEof);
  }

  method TakeCounts(r: Reader) returns (failed: bool, failure: Failure, value: u64, count: u64)
    modifies r
    ensures match ReadCounts(old(r.rest))
      case NoCounts(f) => failed && failure == f
      case Counts(v, c, rest) => !failed && value == v && count == c && r.rest == rest
  {
    hide V.Decode;
    count := 0;
    var status;
    value, status := V.Read(r);
    if status.Ok? {
      count, status := V.Read(r);
    }
    failed, failure := !status.Ok?, Error(status);
  }

  lemma {:induction false} HeadParts(s: seq<byte>)
    ensures ReadName(s).NoName? ==> ReadHead(s) == NoHead(ReadName(s).failure)
    ensures ReadName(s).Name? ==> var n, c := ReadName(s), ReadCounts(ReadName(s).rest);
      ReadHead(s) == if c.NoCounts? then NoHead(c.failure) else Head(n.name, c.value, c.count, c.rest)
  {}

  lemma {:induction false} PlugTop(g: Shape)
    ensures ApartAround(Top) && Plug(Top, g) == g
  {}

  lemma {:induction false} PlugParts(c: Context, g: Shape)
    requires ApartAround(c)
    ensures Plug(c, g).node == RootOf(c, g.node) && Plug(c, g).footprint == g.footprint + Around(c)
    decreases c
  {
    if c.In? { PlugParts(c.up, Outer(c, g)); }
  }

  /** The leaf that was put in at i, in focus. */
  lemma {:induction false} LeafFocus(c: Context, h: Shape, i: nat, leaf: Shape)
    requires i <= |h.kids| && Focus(c, Adopted(h, i, leaf))
    ensures Focus(In(Adopted(h, i, leaf), i, c), leaf)
  {
    ZoomIn(c, Adopted(h, i, leaf), i);
  }

  lemma {:induction false} LeafUnfocus(c: Context, h: Shape, i: nat, leaf: Shape, now: Shape)
    requires i <= |h.kids| && Focus(In(Adopted(h, i, leaf), i, c), now) && now.footprint == leaf.footprint
    requires leaf.footprint !! h.footprint
    ensures Focus(c, Adopted(h, i, now))
  {
    var up := In(Adopted(h, i, leaf), i, c);
    ZoomOut(up, now);
    assert Outer(up, now).kids == Wedge(h.kids, i, now);
  }

  lemma {:induction false} FootprintOf(c: Context, g: Shape, all: Shape)
    requires Focus(c, g) && Plug(c, g) == all
    ensures g.footprint <= all.footprint && Around(c) <= all.footprint
  {
    PlugFocus(c, g);
  }

  /**
   * What Deserialize reads for one node, in the order it does: the name, then the node goes to
   * its parent, then its count and the number of its children.
   */
  method ReadNode(parent: TrieNode, r: Reader, ghost g: Shape)
    returns (failed: bool, failure: Failure, tn: TrieNode, childrenLen: u64,
             ghost c: Context, ghost h: Shape, ghost leaf: Shape)
    requires Focus(Top, g) && Has(g, parent)
    modifies r, g.footprint
    ensures match ReadHead(old(r.rest))
      case NoHead(f) => failed && failure == f
      case Head(name, value, count, rest) =>
        && !failed && r.rest == rest && childrenLen == count && fresh(tn)
        && ApartAround(c) && Apart(h) && h.node == parent && h.footprint !! Around(c) && parent !in Around(c)
        && Plug(c, h) == g && h.footprint <= g.footprint && Around(c) <= g.footprint
        && leaf == Shape(tn, name, value, [], {tn}) && tn !in h.footprint && tn !in Around(c)
        && Focus(c, Adopted(h, Slot(View(h).kids, name), leaf))
  {
    hide *;
    ghost var s := r.rest;
    HeadParts(s);
    tn, childrenLen := parent, 0;
    PlugTop(g);
    c, h := Locate(Top, g, parent);
    leaf := h;
    Existing(c);
    FocusHere(c, h);
    FootprintOf(c, h, g);
    var name, value;
    failed, failure, name := TakeName(r);
    if failed { return; }
    tn := new TrieNode(name);
    leaf := Shape(tn, name, 0, [], {tn});
    NewShape(leaf);
    ghost var i := Slot(View(h).kids, name);
    ghost var whole := AddChild(parent, tn, h, leaf);
    AdoptedParts(h, i, leaf);
    Refocus(c, whole);
    failed, failure, value, childrenLen := TakeCounts(r);
    if failed { return; }
    LeafFocus(c, h, i, leaf);
    ghost var up := In(whole, i, c);
    FocusHere(up, leaf);
    Existing(up);
    ghost var empty := leaf;
    leaf := Call(Store(value), tn, leaf);
    Refocus(up, leaf);
    LeafUnfocus(c, h, i, empty, leaf);
    StoreIs(value, 0);
  }

  lemma {:induction false} StoreIs(v: u64, o: u64)
    ensures Apply(Store(v), o) == v
  {}

  // ---- The loop ----

  /**
   * All is what parsing the whole input yields. When that fails, what is left to read fails in
   * the same way; otherwise what is left completes g to goal.
   */
  ghost predicate OnTrack(all: Parse, goal: Tree, g: Shape, parents: seq<TrieNode>, rest: seq<byte>)
  {
    var q := ParseTrees(rest, |parents|);
    if all.Failed? then q == all
    else q.Parsed? && q.rest == all.rest && Fin(g, parents, q.trees) == goal
  }

  /** One node was read: its children are now to be read into it. */
  lemma {:induction false} TrackStep(all: Parse, goal: Tree, c: Context, h: Shape, i: nat, leaf: Shape,
                                     ps: seq<TrieNode>, s: seq<byte>, head: Head)
    requires head.Head? && head == ReadHead(s) && i <= |h.kids| && i == Slot(View(h).kids, head.name)
    requires leaf == Shape(leaf.node, head.name, head.value, [], {leaf.node})
    requires ApartAround(c) && Apart(h) && h.footprint !! Around(c) && h.node !in Around(c)
    requires leaf.node !in h.footprint && leaf.node !in Around(c) && leaf.node !in ps
    requires OnTrack(all, goal, Plug(c, h), [h.node] + ps, s)
    ensures OnTrack(all, goal, Plug(c, Adopted(h, i, leaf)), seq(head.count, _ => leaf.node) + ps, head.rest)
  {
    hide ReadHead, ParseTrees, Fin, Plug, Mine, Slot, View, Apart, ApartAround, Around;
    var tn, r := leaf.node, Adopted(h, i, leaf);
    ParseStep(s, 1 + |ps|);
    var q := ParseTrees(head.rest, head.count + |ps|);
    assert |seq(head.count, _ => tn) + ps| == head.count + |ps|;
    if all.Parsed? {
      var kids, ts := q.trees[..head.count], q.trees[head.count..];
      var t := Node(head.name, head.value, kids);
      assert kids + ts == q.trees;
      FinAdopted(h, i, leaf, t, ps, ts);
      forall n | n in Around(c)
        ensures Mine(n, [h.node] + ps, [t] + ts) == Mine(n, seq(|kids|, _ => tn) + ps, kids + ts)
      {
        MineStep(h, tn, t, ps, ts, n);
      }
      FinAround(c, h, r, [h.node] + ps, [t] + ts, seq(|kids|, _ => tn) + ps, kids + ts);
    }
  }

  lemma {:induction false} TrackFails(all: Parse, goal: Tree, g: Shape, parents: seq<TrieNode>, s: seq<byte>)
    requires OnTrack(all, goal, g, parents, s) && parents != [] && ReadHead(s).NoHead?
    ensures all == Failed(ReadHead(s).failure)
  {
    ParseStep(s, |parents|);
  }

  lemma {:induction false} TrackEnds(all: Parse, goal: Tree, g: Shape, s: seq<byte>)
    requires OnTrack(all, goal, g, [], s)
    ensures all.Parsed? && all.rest == s && View(g) == goal
  {
    FinNothing(g);
  }

  /** The tree below the root that New made, when the one parsed tree is its only child. */
  function Dummy(p: Parse): (t: Tree)
    requires p.Parsed? ==> |p.trees| == 1
  {
    Node([], 0, if p.Parsed? then [Sorted(p.trees[0])] else [])
  }

  lemma {:induction false} TrackStart(g: Shape, s: seq<byte>)
    requires g.kids == [] && g.name == [] && g.value == 0
    ensures var all := ParseTree(s); OnTrack(all, Dummy(all), g, [g.node], s)
  {
    hide ReadHead;
    var all := ParseTree(s);
    ParseUnfoldBehind(s, 1);
    if all.Parsed? {
      assert all.trees + [] == all.trees == [all.trees[0]];
      var t := all.trees[0];
      assert Mine(g.node, [g.node], [t]) == [t];
      assert FinAll(g.kids, [g.node], [t]) == [];
      AdoptFirst([], t, []);
      assert [t] + [] == [t];
      assert Adopt([], Sorted(t)) == [Sorted(t)];
    }
  }

  lemma {:induction false} HasStep(c: Context, h: Shape, i: nat, leaf: Shape, parents: seq<TrieNode>)
    requires ApartAround(c) && i <= |h.kids|
    requires forall p :: p in parents ==> Has(Plug(c, h), p)
    ensures forall p :: p in parents ==> Has(Plug(c, Adopted(h, i, leaf)), p)
    ensures Has(Plug(c, Adopted(h, i, leaf)), leaf.node)
  {
    forall p | p in parents
      ensures Has(Plug(c, Adopted(h, i, leaf)), p)
    {
      HasAdopted(h, i, leaf, p);
      HasPlug(c, h, Adopted(h, i, leaf), p);
    }
    HasAdopted(h, i, leaf, leaf.node);
    HasInner(c, Adopted(h, i, leaf), leaf.node);
  }

  /** The trie is the first child of the node that New made. */
  lemma {:induction false} OnlyChild(g: Shape, t: Tree)
    requires Focus(Top, g) && View(g) == Node([], 0, [t])
    ensures |g.kids| == 1 && View(g.kids[0]) == t && Apart(g.kids[0]) && Rep(g.kids[0])
    ensures |g.node.children| == 1 && g.node.children[0] == g.kids[0].node
    ensures g.kids[0].footprint <= g.footprint
  {
    assert View(g).kids[0] == View(g.kids[0]);
  }

  lemma {:induction false} DecodeIs(s: seq<byte>)
    ensures var all := ParseTree(s);
      if all.Failed? then Decode(s) == Rejected(all.failure)
      else Decode(s) == TrieWire.Trie(Sorted(all.trees[0])) && Dummy(all) == Node([], 0, [Sorted(all.trees[0])])
  {}

  lemma {:induction false} NewIsEmpty()
    ensures TrieCanon.EMPTY == Node([], 0, [])
  {}

  lemma {:induction false} NewTrie(t: Trie)
    requires t.Stores(map[]) && t.Tree() == Node([], 0, [])
    ensures var g := t.shape;
      Focus(Top, g) && g.node == t.root && g.kids == [] && g.name == [] && g.value == 0
      && Has(g, t.root) && t.root in g.footprint
  {
    assert |View(t.shape).kids| == 0;
  }

  lemma {:induction false} TrieOver(t: Trie)
    requires Apart(t.shape) && Rep(t.shape) && t.root == t.shape.node
    ensures t.Valid() && t.Tree() == View(t.shape)
  {}

  /** The new node becomes the parent of the next n nodes. */
  method Queue(tn: TrieNode, n: nat, ps: seq<TrieNode>) returns (parents: seq<TrieNode>)
    ensures parents == seq(n, _ => tn) + ps
    ensures forall p :: p in parents ==> p in [tn] + ps
  {
    parents := ps;
    for j := 0 to n
      invariant parents == seq(j, _ => tn) + ps
    {
      parents := [tn] + parents;
    }
  }

  /** One round of the loop: reads a node, puts it under the first parent, and queues it for its children. */
  method ReadChild(parents0: seq<TrieNode>, r: Reader, ghost g0: Shape, ghost all: Parse, ghost goal: Tree)
    returns (failed: bool, failure: Failure, parents: seq<TrieNode>, ghost g: Shape)
    requires parents0 != [] && Focus(Top, g0) && OnTrack(all, goal, g0, parents0, r.rest)
    requires forall p :: p in parents0 ==> Has(g0, p) && p in g0.footprint
    modifies r, g0.footprint
    ensures failed ==> all == Failed(failure)
    ensures !failed ==>
      && Focus(Top, g) && g.node == g0.node && fresh(g.footprint - g0.footprint)
      && (forall p :: p in parents ==> Has(g, p) && p in g.footprint)
      && OnTrack(all, goal, g, parents, r.rest) && |r.rest| < |old(r.rest)|
  {
    hide *;
    ghost var s := r.rest;
    var parent := parents0[0];
    parents, g := parents0[1..], g0;
    assert parents0 == [parent] + parents;
    var tn, childrenLen;
    ghost var c, h, leaf;
    failed, failure, tn, childrenLen, c, h, leaf := ReadNode(parent, r, g0);
    if failed {
      TrackFails(all, goal, g0, parents0, s);
      return;
    }
    ghost var i := Slot(View(h).kids, ReadHead(s).name);
    TrackStep(all, goal, c, h, i, leaf, parents, s, ReadHead(s));
    HasStep(c, h, i, leaf, parents0);
    PlugParts(c, h);
    PlugFocus(c, Adopted(h, i, leaf));
    AdoptedParts(h, i, leaf);
    g := Plug(c, Adopted(h, i, leaf));
    Existing(Top);
    parents := Queue(tn, childrenLen, parents);
  }

  /** Deserialize on any bytes: the tree that Decode describes, or the failure. */
  method Deserialize(r: Reader) returns (t: Trie?, failure: Failure)
    modifies r
    ensures match Decode(old(r.rest))
      case Rejected(f) => t == null && failure == f
      case Trie(tree) =>
        && t != null && fresh(t) && fresh(t.shape.footprint) && t.Valid() && t.Tree() == tree
        && t.Multiplier == 1 && t.Divider == 1 && r.rest == ParseTree(old(r.rest)).rest
  {
    hide *;
    ghost var input := r.rest;
    ghost var all := ParseTree(input);
    DecodeIs(input);
    var made := new Trie.New();
    NewIsEmpty();
    NewTrie(made);
    ghost var g, goal := made.shape, Dummy(all);
    var root := made.root;
    var parents := [root];
    failure := Panic;
    TrackStart(g, input);
    while |parents| > 0
      invariant Focus(Top, g) && g.node == root && fresh(g.footprint)
      invariant forall p :: p in parents ==> Has(g, p) && p in g.footprint
      invariant OnTrack(all, goal, g, parents, r.rest)
      decreases |r.rest|
    {
      var failed;
      failed, failure, parents, g := ReadChild(parents, r, g, all, goal);
      if failed {
        return null, failure;
      }
    }
    TrackEnds(all, goal, g, r.rest);
    OnlyChild(g, Sorted(all.trees[0]));
    t := new Trie.Around(root.children[0], 1, 1, g.kids[0]);
    TrieOver(t);
  }

  /** FromBytes drops the error: it returns nothing when there is one. */
  method FromBytes(p: seq<byte>) returns (t: Trie?)
    ensures match Decode(p)
      case Rejected(_) => t == null
      case Trie(tree) => t != null && fresh(t) && t.Valid() && t.Tree() == tree
  {
    var r := new Reader(p);
    var failure;
    t, failure := Deserialize(r);
  }

  /** Bytes and back: an equal trie, in nodes of its own, with the scale 1/1. */
  method Copy(t: Trie, ghost m: map<Key, u64>) returns (u: Trie?)
    requires t.Stores(m) && Addressable(t.Tree()) && t.Multiplier == 1 && t.Divider == 1
    ensures u != null && fresh(u) && u.Stores(m) && u.Tree() == t.Tree()
  {
    ghost var tree := t.Tree();
    var b := t.Bytes();
    TrieScale.ScaledOneOne(tree);
    RoundTrip(tree, []);
    assert Wire(tree) + [] == Wire(tree);
    u := FromBytes(b.value);
  }
}
