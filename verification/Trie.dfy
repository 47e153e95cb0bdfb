/** The Trie of pkg/util/trie/trie.go: insertion, traversal and serialization. */
module Tries {
  import opened Bytes
  import opened Options
  import opened Streams
  import opened TrieModel
  import opened TrieCanon
  import opened TrieEntries
  import opened TrieWire
  import opened TrieNodes
  import opened TrieFind
  import S = Slices
  import V = Varint

  class Trie {
    var Multiplier: i64
    var Divider: i64
    var root: TrieNode
    ghost var shape: Shape

    ghost predicate Valid()
      reads this, shape.footprint
    {
      Apart(shape) && Rep(shape) && root == shape.node
    }

    ghost function Tree(): (t: Tree)
      reads this
    {
      View(shape)
    }

    /** This trie is well-formed and stands for the map m from key to count. */
    ghost predicate Stores(m: map<Key, u64>)
      reads this, shape.footprint
    {
      Valid() && WellFormed(Tree()) && Tree().name == [] && Holds(Tree(), [], m)
    }

    constructor New()
      ensures Stores(map[]) && Tree() == EMPTY && Multiplier == 1 && Divider == 1
      ensures fresh(shape.footprint)
    {
      var node := new TrieNode([]);
      root, Multiplier, Divider := node, 1, 1;
      shape := Shape(node, [], 0, [], {node});
      new;
      NewShape(shape);
      assert View(shape) == EMPTY;
    }

    /** A trie around nodes that exist already. */
    constructor Around(root: TrieNode, m: i64, d: i64, ghost shape: Shape)
      ensures this.root == root && this.shape == shape && Multiplier == m && Divider == d
    {
      this.root, this.shape, Multiplier, Divider := root, shape, m, d;
    }

    /** The clone has its own scale but shares the nodes. */
    method Clone(m: i64, d: i64) returns (t: Trie)
      requires Valid()
      ensures fresh(t) && t.Valid() && t.shape == shape && t.Multiplier == m && t.Divider == d
      ensures forall c :: Stores(c) ==> t.Stores(c)
    {
      t := new Trie.Around(root, m, d, shape);
    }

    /**
     * A trie with the same root sees what was done through the other one: the picture of the nodes
     * is the other's, and root and scale are its own.
     */
    ghost method Follow(other: Trie)
      requires other.Valid() && other.root == root
      modifies this`shape
      ensures Valid() && shape == other.shape && Tree() == other.Tree()
      ensures forall m :: old(other.Stores(m)) ==> Stores(m)
    {
      shape := other.shape;
    }

    /**
     * Sets the count of key, or adds to it when merging; every other key keeps its count. It
     * panics when the way of the key meets a child without a name, and then changes nothing;
     * in a trie that stores counts it never does.
     */
    method Insert(key: Key, value: u64, merge: bool) returns (panicked: bool)
      requires Valid()
      modifies this`shape, shape.footprint
      ensures Valid() && fresh(shape.footprint - old(shape.footprint))
      ensures panicked <==> !Walkable(old(Tree()), key)
      ensures panicked ==> Tree() == old(Tree())
      ensures !panicked ==> Tree() == Ins(old(Tree()), key, if merge then Accumulate(value) else Store(value))
      ensures old(WellFormed(Tree())) ==> !panicked && WellFormed(Tree())
      ensures forall m :: old(Stores(m)) ==>
        Stores(m[key := if merge then (At(m, key) + value) % TWO_64 else value])
    {
      hide Apart, Rep, View, Ins, WellFormed, Holds, Walkable;
      var fn := if merge then Accumulate(value) else Store(value);
      ghost var t := Tree();
      panicked, shape := FindNodeAt(root, key, fn, shape);
      if WellFormed(t) {
        WellFormedWalks(t, key);
        InsWellFormed(t, key, fn);
      }
      forall m | WellFormed(t) && Holds(t, [], m)
        ensures Holds(Tree(), [], m[key := if merge then (At(m, key) + value) % TWO_64 else value])
      {
        InsHolds(t, [], m, key, fn);
        assert [] + key == key;
      }
    }

    predicate IsEmpty()
      requires Valid()
      reads this, shape.footprint
    {
      |root.children| == 0
    }

    /** A trie is empty exactly when it holds no key but possibly the empty one. */
    lemma {:induction false} EmptyMeans(m: map<Key, u64>)
      requires Stores(m)
      ensures IsEmpty() <==> m.Keys <= {[]}
    {
      EmptyKeys(Tree(), m);
    }

    /** Calls cb with every key that has a positive count; calls lists them. */
    method Iterate() returns (calls: seq<Entry>)
      requires Valid()
      ensures calls == Entries(Tree(), [])
      ensures forall m :: Stores(m) ==>
        && Increasing(calls)
        && forall k: Key, v: u64 :: (k, v) in calls <==> k in m && m[k] == v && v > 0
    {
      ghost var all := Tree();
      calls := Walk(root, shape);
      forall m | Stores(m)
        ensures Increasing(calls) && forall k: Key, v: u64 :: (k, v) in calls <==> k in m && m[k] == v && v > 0
      {
        TraversalExact(all, m);
      }
    }

    /**
     * Writes the trie with its counts scaled. A writer that fails is left with a proper prefix. A
     * divider of 0 panics behind the name of the root.
     */
    method Serialize(w: Writer) returns (out: Written)
      requires Valid() && Addressable(Tree())
      modifies w
      ensures WrittenAs(out, Tree(), Multiplier, Divider, w.bounded, old(w.data), w.data)
    {
      out := WriteNodes(root, Multiplier, Divider, w, shape);
    }

    /** The bytes of a trie: they depend on its tree and its scale alone. There are none exactly when the divider is 0. */
    method Bytes() returns (b: Option<seq<byte>>)
      requires Valid() && Addressable(Tree())
      ensures b == if Divider == 0 then None else Some(Wire(Scaled(Tree(), Multiplier, Divider)))
    {
      hide Wire, Scaled, WrittenAs, Apart, Rep, View, Addressable, V.Encode;
      var w := new Writer.Buffer();
      var out := Serialize(w);
      BufferWhole(out, Tree(), Multiplier, Divider, w.data);
      b := if out.Panicked? then None else Some(w.data);
    }
  }

  // ---- How a serialization ends ----

  datatype Written = Whole | Broken | Panicked

  ghost predicate WrittenAs(out: Written, t: Tree, m: i64, d: i64, bounded: bool, before: seq<byte>, after: seq<byte>)
  {
    var named := before + (V.Encode(|t.name|) + t.name);
    && (out.Broken? ==> bounded)
    && (out.Panicked? ==> d == 0 && after == named)
    && (out.Whole? ==> d != 0 && after == before + Wire(Scaled(t, m, d)))
    && (out.Broken? ==> before <= after < if d == 0 then named else before + Wire(Scaled(t, m, d)))
  }

  /** Two tries that store the same counts have the same tree and, at the same scale, the same bytes. */
  lemma {:induction false} SameCountsSameBytes(t: Trie, u: Trie, m: map<Key, u64>)
    requires t.Stores(m) && u.Stores(m)
    requires t.Multiplier == u.Multiplier && t.Divider == u.Divider != 0
    ensures t.Tree() == u.Tree()
    ensures Wire(Scaled(t.Tree(), t.Multiplier, t.Divider)) == Wire(Scaled(u.Tree(), u.Multiplier, u.Divider))
  {
    hide Holds, WellFormed, Wire, Scaled;
    Unique(t.Tree(), u.Tree(), [], m);
  }

  lemma {:induction false} EmptyKeys(t: Tree, m: map<Key, u64>)
    requires WellFormed(t) && Holds(t, [], m)
    ensures t.kids == [] <==> m.Keys <= {[]}
  {
    if t.kids == [] {
      forall s | s in m
        ensures s == []
      {
        assert s != [] ==> Covered(t.kids, [], s);
      }
    } else {
      assert Needed(t.kids[0], [], m);
      var s := KeyBelow(t.kids[0], [], m);
      assert s in m.Keys;
    }
  }

  // ---- Stacks of nodes ----

  ghost predicate Stacked(nodes: seq<TrieNode>, gs: seq<Shape>)
    reads set g, n | g in gs && n in g.footprint :: n
  {
    |nodes| == |gs| && forall i :: 0 <= i < |gs| ==> nodes[i] == gs[i].node && Apart(gs[i]) && Rep(gs[i])
  }

  ghost function Views(gs: seq<Shape>): (ts: seq<Tree>)
    ensures |ts| == |gs| && forall i :: 0 <= i < |gs| ==> ts[i] == View(gs[i])
  {
    seq(|gs|, i requires 0 <= i < |gs| => View(gs[i]))
  }

  /** Taking the top node off and putting its children on. */
  lemma {:induction false} StackedKids(nodes: seq<TrieNode>, gs: seq<Shape>)
    requires nodes != [] && Stacked(nodes, gs)
    ensures Stacked(nodes[0].children + nodes[1..], gs[0].kids + gs[1..])
    ensures nodes[0].name == gs[0].name && nodes[0].value == gs[0].value && |nodes[0].children| == |gs[0].kids|
    ensures Views(gs[0].kids + gs[1..]) == Views(gs)[0].kids + Views(gs)[1..]
    ensures Views(gs)[0] == View(gs[0])
  {
    var ns, hs := nodes[0].children + nodes[1..], gs[0].kids + gs[1..];
    forall i | 0 <= i < |hs|
      ensures ns[i] == hs[i].node && Apart(hs[i]) && Rep(hs[i])
    {
      if i >= |gs[0].kids| { assert hs[i] == gs[i - |gs[0].kids| + 1]; }
    }
  }

  lemma {:induction false} SizeSplit(a: seq<Tree>, b: seq<Tree>)
    ensures SizeAll(a + b) == SizeAll(a) + SizeAll(b)
    decreases |b|
  {
    if b == [] {
      assert a + b == a;
    } else {
      assert (a + b)[..|a + b| - 1] == a + b[..|b| - 1];
      SizeSplit(a, b[..|b| - 1]);
    }
  }

  /** The stack shrinks by the node taken off. */
  lemma {:induction false} SizeStep(ts: seq<Tree>)
    requires ts != []
    ensures SizeAll(ts[0].kids + ts[1..]) == SizeAll(ts) - 1
  {
    SizeSplit(ts[0].kids, ts[1..]);
    SizeSplit([ts[0]], ts[1..]);
    assert [ts[0]][..0] == [];
    assert ts == [ts[0]] + ts[1..];
  }

  // ---- Iterate ----

  /** What is still to be reported: each stacked node below its own prefix. */
  ghost function Remaining(ts: seq<Tree>, ps: seq<Key>): (es: seq<Entry>)
    requires |ts| == |ps|
  {
    if ts == [] then [] else Entries(ts[0], ps[0]) + Remaining(ts[1..], ps[1..])
  }

  lemma {:induction false} RemainingKids(kids: seq<Tree>, name: Key, ts: seq<Tree>, ps: seq<Key>)
    requires |ts| == |ps|
    ensures var names := seq(|kids|, _ => name);
      Remaining(kids + ts, names + ps) == EntriesAll(kids, name) + Remaining(ts, ps)
  {
    var names := seq(|kids|, _ => name);
    if kids == [] {
      assert kids + ts == ts && names + ps == ps;
    } else {
      var rest := seq(|kids[1..]|, _ => name);
      assert (kids + ts)[1..] == kids[1..] + ts;
      assert (names + ps)[1..] == rest + ps;
      RemainingKids(kids[1..], name, ts, ps);
    }
  }

  /** One turn of the loop: a node is reported, its children take its place. */
  lemma {:induction false} RemainingStep(ts: seq<Tree>, ps: seq<Key>, here: Key)
    requires |ts| == |ps| > 0 && here == ps[0] + ts[0].name
    ensures Remaining(ts, ps) ==
      (if ts[0].value > 0 then [(here, ts[0].value)] else [])
      + Remaining(ts[0].kids + ts[1..], seq(|ts[0].kids|, _ => here) + ps[1..])
  {
    RemainingKids(ts[0].kids, here, ts[1..], ps[1..]);
  }

  /** The stacked slices hold the prefixes. Where two share an array, the upper one is the longer. */
  ghost predicate Held(prefixes: seq<S.Slice>, ps: seq<Key>)
    reads set p | p in prefixes :: p.arr
  {
    && |prefixes| == |ps|
    && (forall i :: 0 <= i < |ps| ==> S.Valid(prefixes[i]) && S.Content(prefixes[i]) == ps[i])
    && (forall i, j :: 0 <= i < j < |ps| && prefixes[i].arr == prefixes[j].arr ==> prefixes[j].len <= prefixes[i].len)
  }

  /** Slices below name in the stack that share its array are no longer than it. */
  ghost predicate Shares(name: S.Slice, prefixes: seq<S.Slice>)
  {
    forall j :: 0 <= j < |prefixes| && prefixes[j].arr == name.arr ==> prefixes[j].len <= name.len
  }

  lemma {:induction false} HeldPush(name: S.Slice, p: Key, prefixes: seq<S.Slice>, ps: seq<Key>)
    requires Held(prefixes, ps) && Shares(name, prefixes) && S.Valid(name) && S.Content(name) == p
    ensures Held([name] + prefixes, [p] + ps) && Shares(name, [name] + prefixes)
  {}

  /**
   * Takes the top prefix and appends a name to it. The slices below keep their bytes although
   * the append may write to the array they share.
   */
  method Extend(prefixes: seq<S.Slice>, name: Key, ghost ps: seq<Key>) returns (r: S.Slice, rest: seq<S.Slice>)
    requires |ps| > 0 && Held(prefixes, ps)
    modifies prefixes[0].arr
    ensures rest == prefixes[1..] && Held(rest, ps[1..]) && Shares(r, rest)
    ensures S.Valid(r) && S.Content(r) == ps[0] + name
    ensures r.len <= r.arr.Length && r.arr[..r.len] == ps[0] + name
    ensures r.arr == prefixes[0].arr || fresh(r.arr)
  {
    rest := prefixes[1..];
    r := S.Append(prefixes[0], name);
    forall i | 0 <= i < |rest|
      ensures S.Valid(rest[i]) && S.Content(rest[i]) == ps[1..][i]
    {
      assert rest[i] == prefixes[i + 1] && old(S.Content(prefixes[i + 1])) == ps[i + 1];
    }
  }

  /** The names for the children of one node, each with the slice of the node's own. */
  method PushNames(name: S.Slice, n: nat, prefixes: seq<S.Slice>, ghost here: Key, ghost ps: seq<Key>) returns (r: seq<S.Slice>)
    requires Held(prefixes, ps) && Shares(name, prefixes) && S.Valid(name) && S.Content(name) == here
    ensures Held(r, seq(n, _ => here) + ps)
    ensures forall p :: p in r ==> p == name || p in prefixes
  {
    hide Held, Shares, S.Valid, S.Content;
    r := prefixes;
    ghost var qs := ps;
    assert seq(0, _ => here) + ps == ps;
    for i := 0 to n
      invariant Held(r, qs) && Shares(name, r) && qs == seq(i, _ => here) + ps
      invariant forall p :: p in r ==> p == name || p in prefixes
    {
      HeldPush(name, here, r, qs);
      assert [here] + qs == seq(i + 1, _ => here) + ps;
      r, qs := [name] + r, [here] + qs;
    }
  }

  lemma {:induction false} WalkStart(root: TrieNode, g: Shape, p: S.Slice)
    requires Apart(g) && Rep(g) && root == g.node && S.Valid(p) && S.Content(p) == []
    ensures Stacked([root], [g]) && Held([p], [[]]) && Remaining(Views([g]), [[]]) == Entries(View(g), [])
  {
    assert Views([g])[1..] == [];
    assert Views([g])[0] == View(g);
  }

  lemma {:induction false} WalkEnd(gs: seq<Shape>)
    requires gs == []
    ensures Remaining(Views(gs), []) == []
  {}

  lemma {:induction false} HeldTop(prefixes: seq<S.Slice>, ps: seq<Key>)
    requires Held(prefixes, ps)
    ensures |prefixes| == |ps|
  {}

  /** Trie.Iterate over the nodes below root, with its two stacks. */
  method Walk(root: TrieNode, ghost g: Shape) returns (calls: seq<Entry>)
    requires Apart(g) && Rep(g) && root == g.node
    ensures calls == Entries(View(g), [])
  {
    hide *;
    var nodes := [root];
    var empty := S.Make();
    var prefixes := [empty];
    ghost var gs, ps: seq<Key> := [g], [[]];
    calls := [];
    WalkStart(root, g, empty);
    while |nodes| > 0
      invariant Stacked(nodes, gs) && |nodes| == |gs| == |ps| && Held(prefixes, ps)
      invariant forall p :: p in prefixes ==> fresh(p.arr)
      invariant calls + Remaining(Views(gs), ps) == Entries(View(g), [])
      decreases SizeAll(Views(gs))
    {
      var tn := nodes[0];
      StackedKids(nodes, gs);
      SizeStep(Views(gs));
      HeldTop(prefixes, ps);
      ghost var ts, here := Views(gs), ps[0] + tn.name;
      RemainingStep(ts, ps, here);
      nodes := nodes[1..];
      var name;
      name, prefixes := Extend(prefixes, tn.name, ps);
      if tn.value > 0 {
        calls := calls + [(name.arr[..name.len], tn.value)];
      }
      nodes := tn.children + nodes;
      prefixes := PushNames(name, |tn.children|, prefixes, here, ps[1..]);
      ps := seq(|tn.children|, _ => here) + ps[1..];
      gs := gs[0].kids + gs[1..];
    }
    WalkEnd(gs);
  }

  // ---- Serialize ----

  ghost function ScaledAll(ts: seq<Tree>, m: i64, d: i64): (r: seq<Tree>)
    requires d != 0
    ensures |r| == |ts| && forall i :: 0 <= i < |ts| ==> r[i] == Scaled(ts[i], m, d)
  {
    seq(|ts|, i requires 0 <= i < |ts| => Scaled(ts[i], m, d))
  }

  /** The bytes of one node without its children. */
  lemma {:induction false} WireAllSplit(a: seq<Tree>, b: seq<Tree>)
    ensures WireAll(a + b) == WireAll(a) + WireAll(b)
  {
    if a == [] {
      assert a + b == b;
    } else {
      assert (a + b)[1..] == a[1..] + b;
      WireAllSplit(a[1..], b);
    }
  }

  /** The bytes of a stack of trees are those of its top node and of the stack after it. */
  lemma {:induction false} WireStep(ts: seq<Tree>, m: i64, d: i64)
    requires ts != [] && d != 0
    ensures WireAll(ScaledAll(ts, m, d)) ==
      HeadBytes(ts[0].name, Scale(ts[0].value, m, d), |ts[0].kids|)
      + WireAll(ScaledAll(ts[0].kids + ts[1..], m, d))
  {
    var rs := ScaledAll(ts, m, d);
    assert rs[1..] == ScaledAll(ts[1..], m, d);
    assert rs[0].kids + rs[1..] == ScaledAll(ts[0].kids + ts[1..], m, d);
    WireAllSplit(rs[0].kids, rs[1..]);
  }

  /** The writes for the name of a node, up to the first that fails. */
  method WriteName(w: Writer, name: Key) returns (ok: bool)
    requires |name| < TWO_63
    modifies w
    ensures ok ==> w.data == old(w.data) + (V.Encode(|name|) + name)
    ensures !ok ==> w.bounded && old(w.data) <= w.data < old(w.data) + (V.Encode(|name|) + name)
  {
    hide V.Encode;
    ghost var start, all := w.data, w.data + (V.Encode(|name|) + name);
    assert all == start + V.Encode(|name|) + name;
    ok := V.Write(w, |name|);
    if !ok { return; }
    ok := w.Write(name);
  }

  /** The writes for its counts. */
  method WriteCounts(w: Writer, value: u64, kids: nat) returns (ok: bool)
    requires kids < TWO_63
    modifies w
    ensures ok ==> w.data == old(w.data) + (V.Encode(value) + V.Encode(kids))
    ensures !ok ==> w.bounded && old(w.data) <= w.data < old(w.data) + (V.Encode(value) + V.Encode(kids))
  {
    hide V.Encode;
    ghost var start, all := w.data, w.data + (V.Encode(value) + V.Encode(kids));
    assert all == start + V.Encode(value) + V.Encode(kids);
    ok := V.Write(w, value);
    if !ok { return; }
    ok := V.Write(w, kids);
  }

  lemma {:induction false} HeadIs(name: Key, value: u64, kids: nat, rest: seq<byte>)
    requires |name| < TWO_63 && kids < TWO_63
    ensures HeadBytes(name, value, kids) + rest ==
      (V.Encode(|name|) + name) + ((V.Encode(value) + V.Encode(kids)) + rest)
  {
    hide V.Encode;
  }

  ghost predicate AllAddressable(ts: seq<Tree>)
  {
    forall i :: 0 <= i < |ts| ==> Addressable(ts[i])
  }

  lemma {:induction false} AddressableStep(ts: seq<Tree>)
    requires ts != [] && AllAddressable(ts)
    ensures |ts[0].name| < TWO_63 && |ts[0].kids| < TWO_63 && AllAddressable(ts[0].kids + ts[1..])
  {}

  lemma {:induction false} WriteStart(root: TrieNode, g: Shape, m: i64, d: i64)
    requires Apart(g) && Rep(g) && root == g.node && d != 0 && Addressable(View(g))
    ensures Stacked([root], [g]) && AllAddressable(Views([g]))
    ensures WireAll(ScaledAll(Views([g]), m, d)) == Wire(Scaled(View(g), m, d))
  {
    assert Views([g]) == [View(g)];
    var rs := ScaledAll([View(g)], m, d);
    assert rs[1..] == [];
  }

  lemma {:induction false} WriteEnd(gs: seq<Shape>, m: i64, d: i64)
    requires gs == [] && d != 0
    ensures WireAll(ScaledAll(Views(gs), m, d)) == []
  {}

  lemma {:induction false} PrefixOfMore(start: seq<byte>, before: seq<byte>, now: seq<byte>, head: seq<byte>, rest: seq<byte>, all: seq<byte>)
    requires start <= before <= now < before + head && before + (head + rest) == all
    ensures start <= now < all
  {
    assert before + (head + rest) == (before + head) + rest;
  }

  /** The division comes behind the name of the first node. */
  lemma {:induction false} BrokenInName(t: Tree, m: i64, bounded: bool, before: seq<byte>, after: seq<byte>)
    requires bounded && before <= after < before + (V.Encode(|t.name|) + t.name)
    ensures WrittenAs(Broken, t, m, 0, bounded, before, after)
  {}

  lemma {:induction false} PanickedBehindName(t: Tree, m: i64, bounded: bool, before: seq<byte>)
    ensures WrittenAs(Panicked, t, m, 0, bounded, before, before + (V.Encode(|t.name|) + t.name))
  {}

  lemma {:induction false} BrokenBefore(t: Tree, m: i64, d: i64, bounded: bool, before: seq<byte>, after: seq<byte>)
    requires bounded && d != 0 && before <= after < before + Wire(Scaled(t, m, d))
    ensures WrittenAs(Broken, t, m, d, bounded, before, after)
  {}

  lemma {:induction false} WrittenWhole(t: Tree, m: i64, d: i64, bounded: bool, before: seq<byte>)
    requires d != 0
    ensures WrittenAs(Whole, t, m, d, bounded, before, before + Wire(Scaled(t, m, d)))
  {}

  /** A buffer takes all that is written. */
  lemma {:induction false} BufferWhole(out: Written, t: Tree, m: i64, d: i64, after: seq<byte>)
    requires WrittenAs(out, t, m, d, false, [], after)
    ensures (out.Panicked? <==> d == 0) && (d != 0 ==> after == Wire(Scaled(t, m, d)))
  {
    hide Wire, Scaled, V.Encode;
  }

  lemma {:induction false} ViewName(g: Shape)
    requires Apart(g) && Rep(g)
    ensures View(g).name == g.node.name
  {}

  /** A divisor to speak of the bytes that would be written. */
  function Divisor(d: i64): (e: i64)
    ensures e != 0 && (d != 0 ==> e == d)
  {
    if d == 0 then 1 else d
  }

  /** Trie.Serialize over the nodes below root. */
  method WriteNodes(root: TrieNode, m: i64, d: i64, w: Writer, ghost g: Shape) returns (out: Written)
    requires Apart(g) && Rep(g) && root == g.node && Addressable(View(g))
    modifies w
    ensures WrittenAs(out, View(g), m, d, w.bounded, old(w.data), w.data)
  {
    hide *;
    var nodes := [root];
    ghost var t, e := View(g), Divisor(d);
    ghost var gs, start := [g], w.data;
    ghost var all := start + Wire(Scaled(t, m, e));
    ViewName(g);
    WriteStart(root, g, m, e);
    while |nodes| > 0
      invariant Stacked(nodes, gs) && |nodes| == |gs| && AllAddressable(Views(gs)) && start <= w.data
      invariant w.data + WireAll(ScaledAll(Views(gs), m, e)) == all
      invariant d == 0 ==> nodes == [root] && w.data == start
      decreases SizeAll(Views(gs))
    {
      var tn := nodes[0];
      ghost var ts, before := Views(gs), w.data;
      StackedKids(nodes, gs);
      nodes := nodes[1..];
      SizeStep(ts);
      AddressableStep(ts);
      WireStep(ts, m, e);
      ghost var name, rest := V.Encode(|tn.name|) + tn.name, WireAll(ScaledAll(ts[0].kids + ts[1..], m, e));
      ghost var counts := V.Encode(Scale(tn.value, m, e)) + V.Encode(|tn.children|);
      HeadIs(tn.name, Scale(tn.value, m, e), |tn.children|, rest);
      var ok := WriteName(w, tn.name);
      if !ok {
        if d == 0 {
          BrokenInName(t, m, w.bounded, start, w.data);
        } else {
          PrefixOfMore(start, before, w.data, name, counts + rest, all);
          BrokenBefore(t, m, d, w.bounded, start, w.data);
        }
        return Broken;
      }
      if (d != 1 || m != 1) && d == 0 {
        PanickedBehindName(t, m, w.bounded, start);
        return Panicked;
      }
      assert before + (name + (counts + rest)) == (before + name) + (counts + rest);
      ghost var named := w.data;
      ok := WriteCounts(w, Scale(tn.value, m, d), |tn.children|);
      if !ok {
        assert start <= named;
        PrefixOfMore(start, named, w.data, counts, rest, all);
        BrokenBefore(t, m, d, w.bounded, start, w.data);
        return Broken;
      }
      assert named + (counts + rest) == (named + counts) + rest;
      nodes := tn.children + nodes;
      gs := gs[0].kids + gs[1..];
    }
    WriteEnd(gs, m, e);
    assert w.data + [] == w.data && w.data == start + Wire(Scaled(t, m, d));
    WrittenWhole(t, m, d, w.bounded, start);
    out := Whole;
  }
}
