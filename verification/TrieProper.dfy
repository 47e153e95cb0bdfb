/** Which bytes decode to a well-formed trie, and in which tries every key can be inserted. */
module TrieProper {
  import opened Bytes
  import opened TrieModel
  import opened TrieWire

  // ---- Well-formed after decoding ----

  /** No node below the root is without a name, and siblings differ in their first byte, in any order. */
  ghost predicate Proper(t: Tree)
  {
    && (forall i :: 0 <= i < |t.kids| ==> t.kids[i].name != [] && Proper(t.kids[i]))
    && forall i, j :: 0 <= i < j < |t.kids| ==> Differ(t.kids[i], t.kids[j])
  }

  predicate Differ(x: Tree, y: Tree)
  {
    x.name != [] && y.name != [] && x.name[0] != y.name[0]
  }

  ghost predicate Fine(kids: seq<Tree>)
  {
    Ordered(kids) && forall i :: 0 <= i < |kids| ==> WellFormed(kids[i])
  }

  /** x has a name that starts like no other. */
  ghost predicate New(kids: seq<Tree>, x: Tree)
  {
    x.name != [] && forall t :: t in kids ==> Differ(t, x)
  }

  /** Nodes that can join kids: new ones that are proper and differ from each other. */
  ghost predicate Joins(kids: seq<Tree>, ts: seq<Tree>)
  {
    && (forall i :: 0 <= i < |ts| ==> New(kids, ts[i]) && Proper(ts[i]))
    && forall i, j :: 0 <= i < j < |ts| ==> Differ(ts[i], ts[j])
  }

  lemma {:induction false} WedgeParts(kids: seq<Tree>, i: nat, x: Tree)
    requires i <= |kids|
    ensures
      var r := kids[..i] + [x] + kids[i..];
      && (forall t :: t in r <==> t in kids || t == x)
      && (Ordered(r) ==> Ordered(kids) && New(kids, x))
  {
    var r := kids[..i] + [x] + kids[i..];
    assert r[i] == x;
    assert forall j :: 0 <= j < |kids| ==> kids[j] == r[if j < i then j else j + 1];
    assert forall j :: 0 <= j < |r| ==> r[j] == if j < i then kids[j] else if j == i then x else kids[j - 1];
  }

  lemma {:induction false} NewOrdered(kids: seq<Tree>, x: Tree)
    requires Ordered(kids) && New(kids, x)
    ensures Ordered(Adopt(kids, x))
  {
    hide Slot, Less;
    assert forall i :: 0 <= i < |kids| ==> kids[i] in kids;
    SlotOrdered(kids, x.name);
    WedgeOrdered(kids, Slot(kids, x.name), x);
  }

  lemma {:induction false} FineAdopt(kids: seq<Tree>, x: Tree)
    ensures Fine(Adopt(kids, x)) <==> Fine(kids) && New(kids, x) && WellFormed(x)
  {
    hide Search, Slot, Less, WellFormed, Ordered, New;
    WedgeParts(kids, Slot(kids, x.name), x);
    if Ordered(kids) && New(kids, x) { NewOrdered(kids, x); }
    FineIn(kids);
    FineIn(Adopt(kids, x));
  }

  lemma {:induction false} FineIn(kids: seq<Tree>)
    ensures Fine(kids) <==> Ordered(kids) && forall t :: t in kids ==> WellFormed(t)
  {
    assert forall i :: 0 <= i < |kids| ==> kids[i] in kids;
  }

  lemma {:induction false} NewAdopt(kids: seq<Tree>, x: Tree, y: Tree)
    ensures New(Adopt(kids, x), y) <==> New(kids, y) && Differ(x, y)
  {
    hide Slot, Ordered;
    WedgeParts(kids, Slot(kids, x.name), x);
  }

  lemma {:induction false} JoinsFirst(kids: seq<Tree>, ts: seq<Tree>)
    requires ts != []
    ensures Joins(kids, ts) <==> New(kids, ts[0]) && Proper(ts[0]) && Joins(Adopt(kids, Sorted(ts[0])), ts[1..])
  {
    hide Adopt, New, Proper;
    var x, more := ts[0], ts[1..];
    forall i | 0 <= i < |more|
      ensures New(Adopt(kids, Sorted(x)), more[i]) <==> New(kids, ts[i + 1]) && Differ(x, ts[i + 1])
    {
      NewAdopt(kids, Sorted(x), more[i]);
    }
    assert forall i :: 0 < i < |ts| ==> ts[i] == more[i - 1];
    assert forall i :: 0 <= i < |more| ==> more[i] == ts[i + 1];
  }

  /** Sorting makes a tree well-formed exactly when it is proper. */
  lemma {:induction false} SortedWellFormed(t: Tree)
    ensures WellFormed(Sorted(t)) <==> Proper(t)
    decreases t, 1
  {
    FineAll([], t.kids);
  }

  lemma {:induction false} FineAll(kids: seq<Tree>, ts: seq<Tree>)
    ensures Fine(AdoptAll(kids, ts)) <==> Fine(kids) && Joins(kids, ts)
    decreases ts, 0
  {
    hide Fine, New, WellFormed, Proper, Adopt, Sorted;
    if ts != [] {
      var x := ts[0];
      SortedWellFormed(x);
      FineAdopt(kids, Sorted(x));
      NewSorted(kids, x);
      JoinsFirst(kids, ts);
      FineAll(Adopt(kids, Sorted(x)), ts[1..]);
    }
  }

  lemma {:induction false} NewSorted(kids: seq<Tree>, x: Tree)
    ensures New(kids, Sorted(x)) <==> New(kids, x)
  {}

  /** The bytes that decode to a well-formed trie are those of a proper tree, in any order of siblings. */
  lemma {:induction false} DecodesWellFormed(s: seq<byte>)
    requires Decode(s).Trie?
    ensures ParseTree(s).Parsed? && (WellFormed(Decode(s).root) <==> Proper(ParseTree(s).trees[0]))
  {
    SortedWellFormed(ParseTree(s).trees[0]);
  }

  // ---- Every key can be inserted ----

  /** No node that a key can lead to has a child without a name; of siblings that start alike, the last one is led to. */
  ghost predicate Passable(t: Tree)
  {
    && Named(t.kids)
    && forall k :: 0 <= k < |t.kids| && Lead(t.kids, t.kids[k].name[0]) == k ==> Passable(t.kids[k])
  }

  lemma {:induction false} CommonWhole(a: Key, b: Key)
    ensures Common(a, a + b) == |a| && (a + b)[|a|..] == b
  {
    if a != [] {
      assert (a + b)[1..] == a[1..] + b;
      CommonWhole(a[1..], b);
    }
  }

  lemma {:induction false} PassableWalks(t: Tree, key: Key)
    requires Passable(t)
    ensures Walkable(t, key)
    decreases |key|
  {
    if key != [] {
      var k := Lead(t.kids, key[0]);
      if k >= 0 {
        FirstByteCommon(t.kids[k].name, key);
        PassableWalks(t.kids[k], key[Common(t.kids[k].name, key)..]);
      }
    }
  }

  /** No key panics. */
  ghost predicate AlwaysWalkable(t: Tree)
  {
    forall key: Key :: Walkable(t, key)
  }

  lemma {:induction false} WalksPassable(t: Tree)
    requires AlwaysWalkable(t)
    ensures Passable(t)
  {
    assert Walkable(t, [0]);
    forall k | 0 <= k < |t.kids| && Lead(t.kids, t.kids[k].name[0]) == k
      ensures Passable(t.kids[k])
    {
      forall key: Key
        ensures Walkable(t.kids[k], key)
      {
        assert Walkable(t, t.kids[k].name + key);
        WalkableBelow(t, k, key);
      }
      WalksPassable(t.kids[k]);
    }
  }

  /** Insertion panics on no key exactly in passable trees. */
  lemma {:induction false} PassableExactly(t: Tree)
    ensures AlwaysWalkable(t) <==> Passable(t)
  {
    hide Walkable, Passable;
    if Passable(t) {
      forall key: Key
        ensures Walkable(t, key)
      {
        PassableWalks(t, key);
      }
    } else if AlwaysWalkable(t) {
      WalksPassable(t);
    }
  }

  lemma {:induction false} WalkableBelow(t: Tree, k: nat, key: Key)
    requires Named(t.kids) && k < |t.kids| && Lead(t.kids, t.kids[k].name[0]) == k
    requires Walkable(t, t.kids[k].name + key)
    ensures Walkable(t.kids[k], key)
  {
    CommonWhole(t.kids[k].name, key);
  }
}
