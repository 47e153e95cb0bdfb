/**
 * The radix trie of pkg/util/trie/trie.go as a value: its shape, the update that
 * findNodeAt performs, and the map from key to count that a trie stands for.
 */
module TrieModel {
  import opened Bytes

  type Key = seq<byte>

  datatype Tree = Node(name: Key, value: u64, kids: seq<Tree>)

  /** The callback given to findNodeAt: overwrite the count, or add to it modulo 2^64. */
  datatype Update = Store(count: u64) | Accumulate(count: u64)

  function Apply(fn: Update, old_: u64): (v: u64)
  {
    match fn
    case Store(c) => c
    case Accumulate(c) => (old_ + c) % TWO_64
  }

  /** Names below the root are not empty; siblings have increasing first bytes. */
  ghost predicate WellFormed(t: Tree)
  {
    && (forall i :: 0 <= i < |t.kids| ==> t.kids[i].name != [] && WellFormed(t.kids[i]))
    && Ordered(t.kids)
  }

  ghost predicate Named(kids: seq<Tree>)
  {
    forall i :: 0 <= i < |kids| ==> kids[i].name != []
  }

  ghost predicate Ordered(kids: seq<Tree>)
  {
    && Named(kids)
    && forall i, j :: 0 <= i < j < |kids| ==> kids[i].name[0] < kids[j].name[0]
  }

  /** Length of the longest common prefix. */
  function Common(a: Key, b: Key): (n: nat)
    ensures n <= |a| && n <= |b| && a[..n] == b[..n]
    ensures n < |a| && n < |b| ==> a[n] != b[n]
  {
    if a == [] || b == [] || a[0] != b[0] then 0
    else
      var n := Common(a[1..], b[1..]);
      assert a[..n + 1] == [a[0]] + a[1..][..n] && b[..n + 1] == [b[0]] + b[1..][..n];
      n + 1
  }

  /** The child whose name starts with c, or -1; the last one if there were several. */
  function Lead(kids: seq<Tree>, c: byte): (k: int)
    requires Named(kids)
    ensures -1 <= k < |kids|
    ensures k >= 0 ==> kids[k].name[0] == c
    ensures forall j :: k < j < |kids| ==> kids[j].name[0] != c
  {
    if kids == [] then -1
    else if kids[|kids| - 1].name[0] == c then |kids| - 1
    else Lead(kids[..|kids| - 1], c)
  }

  /** sort.Search for the first child whose name is not below key: between lo and hi. */
  function Search(kids: seq<Tree>, key: Key, lo: nat, hi: nat): (i: nat)
    requires lo <= hi <= |kids|
    ensures lo <= i <= hi
    ensures (lo > 0 ==> Less(kids[lo - 1].name, key)) ==> i > 0 ==> Less(kids[i - 1].name, key)
    ensures (hi < |kids| ==> !Less(kids[hi].name, key)) ==> i < |kids| ==> !Less(kids[i].name, key)
    decreases hi - lo
  {
    if lo == hi then lo
    else
      var h := (lo + hi) / 2;
      if Less(kids[h].name, key) then Search(kids, key, h + 1, hi) else Search(kids, key, lo, h)
  }

  /** Where a new child goes: its left neighbour is below key, its right one is not. */
  function Slot(kids: seq<Tree>, key: Key): (i: nat)
    ensures i <= |kids|
    ensures i > 0 ==> Less(kids[i - 1].name, key)
    ensures i < |kids| ==> !Less(kids[i].name, key)
  {
    Search(kids, key, 0, |kids|)
  }

  /** trieNode.insert: the new child takes its place among the sorted siblings. */
  function Adopt(kids: seq<Tree>, t: Tree): (r: seq<Tree>)
  {
    var i := Slot(kids, t.name);
    kids[..i] + [t] + kids[i..]
  }

  /** A node put above a child, taking over the first i bytes of its name. */
  function Split(kid: Tree, i: nat): (t: Tree)
    requires i <= |kid.name|
  {
    Node(kid.name[..i], 0, [kid.(name := kid.name[i..])])
  }

  /**
   * The way of key below t meets no sibling without a name, whose first byte findNodeAt would ask
   * for. A trie that was decoded from bytes may have such names.
   */
  ghost predicate Walkable(t: Tree, key: Key)
    decreases |key|
  {
    key == [] ||
    (Named(t.kids) &&
     var k := Lead(t.kids, key[0]);
     k < 0 ||
     (var i := Common(t.kids[k].name, key);
      FirstByteCommon(t.kids[k].name, key);
      i < |t.kids[k].name| || Walkable(t.kids[k], key[i..])))
  }

  lemma {:induction false} WellFormedWalks(t: Tree, key: Key)
    requires WellFormed(t)
    ensures Walkable(t, key)
    decreases |key|
  {
    if key != [] {
      var k := Lead(t.kids, key[0]);
      if k >= 0 {
        FirstByteCommon(t.kids[k].name, key);
        WellFormedWalks(t.kids[k], key[Common(t.kids[k].name, key)..]);
      }
    }
  }

  /** Below a node that was split the way is free. */
  lemma {:induction false} SplitWalks(kid: Tree, key: Key, i: nat)
    requires i == Common(kid.name, key) < |kid.name|
    ensures Walkable(Split(kid, i), key[i..])
  {
    var t := Split(kid, i);
    assert t.kids[..|t.kids| - 1] == [];
  }

  /** Applies fn at key below t, creating and splitting nodes as findNodeAt does. */
  function Ins(t: Tree, key: Key, fn: Update): (r: Tree)
    requires WellFormed(t) || Walkable(t, key)
    ensures r.name == t.name && |r.kids| >= |t.kids|
    decreases |key|
  {
    if key == [] then t.(value := Apply(fn, t.value))
    else
      assert Walkable(t, key) by { if WellFormed(t) { WellFormedWalks(t, key); } }
      var k := Lead(t.kids, key[0]);
      if k < 0 then t.(kids := Adopt(t.kids, Node(key, Apply(fn, 0), [])))
      else
        var i := Common(t.kids[k].name, key);
        FirstByteCommon(t.kids[k].name, key);
        if i == |t.kids[k].name| then t.(kids := t.kids[k := Ins(t.kids[k], key[i..], fn)])
        else
          SplitWalks(t.kids[k], key, i);
          t.(kids := t.kids[k := Ins(Split(t.kids[k], i), key[i..], fn)])
  }

  lemma {:induction false} FirstByteCommon(a: Key, b: Key)
    requires a != [] && b != [] && a[0] == b[0]
    ensures Common(a, b) >= 1
  {}

  lemma {:induction false} SplitWellFormed(kid: Tree, i: nat)
    requires WellFormed(kid) && 1 <= i < |kid.name|
    ensures WellFormed(Split(kid, i))
  {
    var c := kid.(name := kid.name[i..]);
    assert WellFormed(c);
  }

  lemma {:induction false} SlotOrdered(kids: seq<Tree>, key: Key)
    requires Ordered(kids) && key != [] && Lead(kids, key[0]) == -1
    ensures var i := Slot(kids, key);
      && (forall j :: 0 <= j < i ==> kids[j].name[0] < key[0])
      && (forall j :: i <= j < |kids| ==> key[0] < kids[j].name[0])
  {
    var i := Slot(kids, key);
    assert i > 0 ==> kids[i - 1].name[0] != key[0];
    assert i < |kids| ==> kids[i].name[0] != key[0];
  }

  lemma {:induction false} WedgeOrdered(kids: seq<Tree>, i: nat, leaf: Tree)
    requires Ordered(kids) && leaf.name != [] && i <= |kids|
    requires forall j :: 0 <= j < i ==> kids[j].name[0] < leaf.name[0]
    requires forall j :: i <= j < |kids| ==> leaf.name[0] < kids[j].name[0]
    ensures Ordered(kids[..i] + [leaf] + kids[i..])
  {
    var r := kids[..i] + [leaf] + kids[i..];
    assert forall j :: 0 <= j < |r| ==> r[j] == if j < i then kids[j] else if j == i then leaf else kids[j - 1];
  }

  lemma {:induction false} WedgeWellFormed(t: Tree, i: nat, leaf: Tree)
    requires WellFormed(t) && WellFormed(leaf) && i <= |t.kids|
    requires Ordered(t.kids[..i] + [leaf] + t.kids[i..])
    ensures WellFormed(t.(kids := t.kids[..i] + [leaf] + t.kids[i..]))
  {
    var r := t.kids[..i] + [leaf] + t.kids[i..];
    forall j | 0 <= j < |r|
      ensures r[j].name != [] && WellFormed(r[j])
    {
      assert r[j] in t.kids || r[j] == leaf;
    }
  }

  lemma {:induction false} AdoptWellFormed(t: Tree, leaf: Tree, i: nat)
    requires WellFormed(t) && WellFormed(leaf) && leaf.name != [] && Lead(t.kids, leaf.name[0]) == -1
    requires i == Slot(t.kids, leaf.name)
    ensures WellFormed(t.(kids := t.kids[..i] + [leaf] + t.kids[i..]))
  {
    SlotOrdered(t.kids, leaf.name);
    WedgeOrdered(t.kids, i, leaf);
    WedgeWellFormed(t, i, leaf);
  }

  /** Every update keeps the trie well-formed. */
  lemma {:induction false} InsWellFormed(t: Tree, key: Key, fn: Update)
    requires WellFormed(t)
    ensures WellFormed(Ins(t, key, fn))
    decreases |key|
  {
    if key == [] {
    } else {
      var k := Lead(t.kids, key[0]);
      var r := Ins(t, key, fn);
      if k < 0 {
        AdoptWellFormed(t, Node(key, Apply(fn, 0), []), Slot(t.kids, key));
      } else {
        var i := Common(t.kids[k].name, key);
        FirstByteCommon(t.kids[k].name, key);
        if i == |t.kids[k].name| {
          InsWellFormed(t.kids[k], key[i..], fn);
        } else {
          SplitWellFormed(t.kids[k], i);
          InsWellFormed(Split(t.kids[k], i), key[i..], fn);
        }
      }
    }
  }

  // ---- The map a trie stands for ----

  /** The count of a key, 0 when it was never inserted. */
  function At(m: map<Key, u64>, s: Key): (v: u64)
  {
    if s in m then m[s] else 0
  }

  function Updated(m: map<Key, u64>, key: Key, fn: Update): (r: map<Key, u64>)
  {
    m[key := Apply(fn, At(m, key))]
  }

  /** A node below the root is there for a reason: it is an inserted key, or keys part below it. */
  ghost predicate Needed(k: Tree, pre: Key, m: map<Key, u64>)
  {
    pre + k.name in m || |k.kids| >= 2
  }

  ghost predicate Covered(kids: seq<Tree>, pre: Key, s: Key)
  {
    exists i :: 0 <= i < |kids| && pre + kids[i].name <= s
  }

  /**
   * The node t, reached by the bytes pre, holds the part of m below pre: the count of pre
   * itself, every longer key below some child, and no node that is not needed.
   */
  ghost predicate Holds(t: Tree, pre: Key, m: map<Key, u64>)
  {
    && t.value == At(m, pre)
    && (forall i :: 0 <= i < |t.kids| ==>
          Needed(t.kids[i], pre, m) && Holds(t.kids[i], pre + t.kids[i].name, m))
    && (forall s {:trigger Covered(t.kids, pre, s)} :: s in m && pre < s ==> Covered(t.kids, pre, s))
  }

  /** m and n agree on the keys below pre. */
  ghost predicate Agree(pre: Key, m: map<Key, u64>, n: map<Key, u64>)
  {
    forall s :: pre <= s ==> (s in m <==> s in n) && At(m, s) == At(n, s)
  }

  lemma {:induction false} HoldsFrame(t: Tree, pre: Key, m: map<Key, u64>, n: map<Key, u64>)
    requires Holds(t, pre, m) && Agree(pre, m, n)
    ensures Holds(t, pre, n)
  {
    forall i | 0 <= i < |t.kids|
      ensures Needed(t.kids[i], pre, n) && Holds(t.kids[i], pre + t.kids[i].name, n)
    {
      assert Needed(t.kids[i], pre, m);
      HoldsFrame(t.kids[i], pre + t.kids[i].name, m, n);
    }
  }

  /** The child that covers a key has the key's next byte as its first. */
  lemma {:induction false} CoverByte(kids: seq<Tree>, pre: Key, i: nat, s: Key)
    requires Named(kids) && i < |kids| && pre + kids[i].name <= s
    ensures |pre| < |s| && pre < s && s[|pre|] == kids[i].name[0]
  {
    assert s[|pre|] == (pre + kids[i].name)[|pre|];
    assert pre <= pre + kids[i].name;
  }

  /** Children whose first byte differs from key's do not see an update at key. */
  lemma {:induction false} HoldsBeside(kid: Tree, pre: Key, m: map<Key, u64>, key: Key, fn: Update)
    requires kid.name != [] && (key == [] || kid.name[0] != key[0])
    requires Holds(kid, pre + kid.name, m)
    ensures Holds(kid, pre + kid.name, Updated(m, pre + key, fn))
  {
    var n := Updated(m, pre + key, fn);
    forall s | pre + kid.name <= s
      ensures (s in m <==> s in n) && At(m, s) == At(n, s)
    {
      assert s[|pre|] == (pre + kid.name)[|pre|] == kid.name[0];
      assert key != [] ==> (pre + key)[|pre|] == key[0];
    }
    HoldsFrame(kid, pre + kid.name, m, n);
  }

  /** The node that a split puts in the child's place holds what the child held. */
  lemma {:induction false} SplitHolds(t: Tree, pre: Key, m: map<Key, u64>, k: nat, i: nat)
    requires WellFormed(t) && Holds(t, pre, m) && k < |t.kids| && 1 <= i < |t.kids[k].name|
    ensures Holds(Split(t.kids[k], i), pre + t.kids[k].name[..i], m)
  {
    var kid := t.kids[k];
    var a, b := kid.name[..i], kid.name[i..];
    var c := kid.(name := b);
    assert a + b == kid.name;
    assert (pre + a) + b == pre + kid.name;
    assert Needed(kid, pre, m);
    assert Holds(c, pre + kid.name, m);
    forall s | s in m && pre + a <= s
      ensures pre + kid.name <= s
    {
      assert s[|pre|] == (pre + a)[|pre|] == kid.name[0];
      assert pre < s;
      assert Covered(t.kids, pre, s);
      var j :| 0 <= j < |t.kids| && pre + t.kids[j].name <= s;
      CoverByte(t.kids, pre, j, s);
      assert j == k;
    }
    assert |pre + a| < |pre + kid.name|;
    assert pre + a !in m;
    var sp := Split(kid, i);
    forall s | s in m && pre + a < s
      ensures Covered(sp.kids, pre + a, s)
    {
      assert pre + a + sp.kids[0].name <= s;
    }
  }

  /** The count of the node itself is updated. */
  lemma {:induction false} InsHere(t: Tree, pre: Key, m: map<Key, u64>, fn: Update)
    requires WellFormed(t) && Holds(t, pre, m)
    ensures Holds(t.(value := Apply(fn, t.value)), pre, Updated(m, pre, fn))
  {
    var n := Updated(m, pre, fn);
    assert pre + [] == pre;
    forall i | 0 <= i < |t.kids|
      ensures Needed(t.kids[i], pre, n) && Holds(t.kids[i], pre + t.kids[i].name, n)
    {
      assert Needed(t.kids[i], pre, m);
      HoldsBeside(t.kids[i], pre, m, [], fn);
    }
    forall s | s in n && pre < s
      ensures Covered(t.kids, pre, s)
    {}
  }

  /** Case 1: no key below pre starts like the new one. */
  lemma {:induction false} NewKeyApart(t: Tree, pre: Key, m: map<Key, u64>, key: Key, s: Key)
    requires WellFormed(t) && Holds(t, pre, m) && key != [] && Lead(t.kids, key[0]) < 0
    requires s in m
    ensures !(pre + key <= s)
  {
    assert (pre + key)[|pre|] == key[0] && pre < pre + key;
    if pre < s {
      assert Covered(t.kids, pre, s);
      var j :| 0 <= j < |t.kids| && pre + t.kids[j].name <= s;
      CoverByte(t.kids, pre, j, s);
      assert s[|pre|] != key[0];
    }
  }

  lemma {:induction false} WedgeCovers(kids: seq<Tree>, at: nat, leaf: Tree, pre: Key, s: Key)
    requires at <= |kids| && (Covered(kids, pre, s) || pre + leaf.name <= s)
    ensures Covered(kids[..at] + [leaf] + kids[at..], pre, s)
  {
    var r := kids[..at] + [leaf] + kids[at..];
    if Covered(kids, pre, s) {
      var j :| 0 <= j < |kids| && pre + kids[j].name <= s;
      assert r[if j < at then j else j + 1] == kids[j];
    } else {
      assert r[at] == leaf;
    }
  }

  lemma {:induction false} WedgeHolds(kids: seq<Tree>, at: nat, leaf: Tree, pre: Key, n: map<Key, u64>)
    requires at <= |kids|
    requires forall i :: 0 <= i < |kids| ==> Needed(kids[i], pre, n) && Holds(kids[i], pre + kids[i].name, n)
    requires Needed(leaf, pre, n) && Holds(leaf, pre + leaf.name, n)
    ensures var r := kids[..at] + [leaf] + kids[at..];
      forall i :: 0 <= i < |r| ==> Needed(r[i], pre, n) && Holds(r[i], pre + r[i].name, n)
  {
    var r := kids[..at] + [leaf] + kids[at..];
    forall i | 0 <= i < |r|
      ensures Needed(r[i], pre, n) && Holds(r[i], pre + r[i].name, n)
    {
      assert r[i] == leaf || r[i] in kids;
    }
  }

  /** Case 1: a new child for the whole remaining key. */
  lemma {:induction false} InsNew(t: Tree, pre: Key, m: map<Key, u64>, key: Key, fn: Update, at: nat)
    requires WellFormed(t) && Holds(t, pre, m) && key != [] && Lead(t.kids, key[0]) < 0 && at <= |t.kids|
    ensures Holds(t.(kids := t.kids[..at] + [Node(key, Apply(fn, 0), [])] + t.kids[at..]), pre, Updated(m, pre + key, fn))
  {
    var n := Updated(m, pre + key, fn);
    var leaf := Node(key, Apply(fn, 0), []);
    forall s | s in m
      ensures !(pre + key <= s)
    {
      NewKeyApart(t, pre, m, key, s);
    }
    assert At(m, pre + key) == 0 && Holds(leaf, pre + key, n);
    forall s | s in n && pre < s
      ensures Covered(t.kids[..at] + [leaf] + t.kids[at..], pre, s)
    {
      assert s != pre + key ==> Covered(t.kids, pre, s);
      WedgeCovers(t.kids, at, leaf, pre, s);
    }
    forall i | 0 <= i < |t.kids|
      ensures Needed(t.kids[i], pre, n) && Holds(t.kids[i], pre + t.kids[i].name, n)
    {
      assert Needed(t.kids[i], pre, m);
      HoldsBeside(t.kids[i], pre, m, key, fn);
    }
    WedgeHolds(t.kids, at, leaf, pre, n);
    assert pre + key != pre;
  }

  /** Cases 2 to 4: one child is replaced by one that holds the updated map. */
  lemma {:induction false} InsDescends(t: Tree, pre: Key, m: map<Key, u64>, key: Key, fn: Update, k: nat, kid: Tree)
    requires WellFormed(t) && Holds(t, pre, m) && key != [] && k < |t.kids|
    requires t.kids[k].name[0] == key[0]
    requires kid.name != [] && kid.name <= t.kids[k].name && kid.name <= key
    requires Needed(kid, pre, Updated(m, pre + key, fn))
    requires Holds(kid, pre + kid.name, Updated(m, pre + key, fn))
    ensures Holds(t.(kids := t.kids[k := kid]), pre, Updated(m, pre + key, fn))
  {
    var n := Updated(m, pre + key, fn);
    var r := t.(kids := t.kids[k := kid]);
    forall i | 0 <= i < |r.kids|
      ensures Needed(r.kids[i], pre, n) && Holds(r.kids[i], pre + r.kids[i].name, n)
    {
      if i != k {
        assert Needed(t.kids[i], pre, m);
        HoldsBeside(t.kids[i], pre, m, key, fn);
      }
    }
    assert pre + kid.name <= pre + key;
    forall s | s in n && pre < s
      ensures Covered(r.kids, pre, s)
    {
      if s == pre + key {
        assert pre + r.kids[k].name <= s;
      } else {
        assert Covered(t.kids, pre, s);
        var j :| 0 <= j < |t.kids| && pre + t.kids[j].name <= s;
        assert pre + kid.name <= pre + t.kids[k].name;
        assert pre + r.kids[j].name <= s;
      }
    }
    assert pre + key != pre;
  }

  lemma {:induction false} HoldsKid(t: Tree, pre: Key, m: map<Key, u64>, k: nat)
    requires Holds(t, pre, m) && k < |t.kids|
    ensures Needed(t.kids[k], pre, m) && Holds(t.kids[k], pre + t.kids[k].name, m)
  {}

  /** The replaced child is still needed. */
  lemma {:induction false} NeededAfter(kid: Tree, pre: Key, m: map<Key, u64>, key: Key, fn: Update, i: nat)
    requires WellFormed(kid) && Needed(kid, pre, m) && key != []
    requires 1 <= i <= |kid.name| && i == Common(kid.name, key)
    ensures i == |kid.name| ==> Needed(Ins(kid, key[i..], fn), pre, Updated(m, pre + key, fn))
    ensures i < |kid.name| ==> WellFormed(Split(kid, i))
    ensures i < |kid.name| ==> Needed(Ins(Split(kid, i), key[i..], fn), pre, Updated(m, pre + key, fn))
  {
    if i < |kid.name| {
      SplitWellFormed(kid, i);
      var below := Split(kid, i);
      if key[i..] == [] {
        assert kid.name[..i] == key;
      } else {
        assert below.kids[0].name[0] == kid.name[i] != key[i];
        assert Lead(below.kids, key[i..][0]) == -1;
      }
    }
  }

  /** The child k is replaced: by itself or its split form, with the rest of the key inserted. */
  lemma {:induction false} InsAt(t: Tree, key: Key, fn: Update, k: nat, i: nat)
    requires WellFormed(t) && key != [] && Lead(t.kids, key[0]) == k && i == Common(t.kids[k].name, key)
    ensures WellFormed(t.kids[k]) && 1 <= i <= |t.kids[k].name|
    ensures
      var kid := t.kids[k];
      && (i < |kid.name| ==> WellFormed(Split(kid, i)))
      && Ins(t, key, fn) == t.(kids := t.kids[k := Ins(if i == |kid.name| then kid else Split(kid, i), key[i..], fn)])
  {
    hide Less, Search;
    FirstByteCommon(t.kids[k].name, key);
    if i < |t.kids[k].name| { SplitWellFormed(t.kids[k], i); }
  }

  /** Updating a trie that holds m gives a trie that holds m with that one key updated. */
  lemma {:induction false} InsHolds(t: Tree, pre: Key, m: map<Key, u64>, key: Key, fn: Update)
    requires WellFormed(t) && Holds(t, pre, m)
    ensures Holds(Ins(t, key, fn), pre, Updated(m, pre + key, fn))
    decreases |key|
  {
    hide Search, Less, Holds, Covered, Needed, Walkable;
    if key == [] {
      InsHere(t, pre, m, fn);
      assert pre + key == pre;
    } else {
      var k := Lead(t.kids, key[0]);
      if k < 0 {
        InsNew(t, pre, m, key, fn, Slot(t.kids, key));
      } else {
        InsThrough(t, pre, m, key, fn, k);
      }
    }
  }

  lemma {:induction false} KeySplit(pre: Key, name: Key, key: Key, i: nat)
    requires i == Common(name, key)
    ensures i <= |key| && i <= |name| && name[..i] <= key && (pre + name[..i]) + key[i..] == pre + key
    ensures i == |name| ==> name[..i] == name
  {
    hide Common;
    assert key == name[..i] + key[i..];
  }

  lemma {:induction false} InsThrough(t: Tree, pre: Key, m: map<Key, u64>, key: Key, fn: Update, k: nat)
    requires WellFormed(t) && Holds(t, pre, m) && key != [] && Lead(t.kids, key[0]) == k
    ensures Holds(Ins(t, key, fn), pre, Updated(m, pre + key, fn))
    decreases |key|, 0
  {
    hide Search, Less, Holds, Covered, Needed, Walkable, Ins, WellFormed, Common, Lead;
    var kid := t.kids[k];
    var i := Common(kid.name, key);
    InsAt(t, key, fn, k, i);
    HoldsKid(t, pre, m, k);
    NeededAfter(kid, pre, m, key, fn, i);
    KeySplit(pre, kid.name, key, i);
    if i == |kid.name| {
      InsHolds(kid, pre + kid.name, m, key[i..], fn);
      InsDescends(t, pre, m, key, fn, k, Ins(kid, key[i..], fn));
    } else {
      SplitHolds(t, pre, m, k, i);
      InsHolds(Split(kid, i), pre + kid.name[..i], m, key[i..], fn);
      InsDescends(t, pre, m, key, fn, k, Ins(Split(kid, i), key[i..], fn));
    }
  }
}
