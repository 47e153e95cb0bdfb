/** The shape of a trie is determined by the map it holds, and it is small. */
module TrieCanon {
  import opened Bytes
  import opened TrieModel

  /** Below every node there is an inserted key. */
  lemma {:induction false} KeyBelow(k: Tree, pre: Key, m: map<Key, u64>) returns (s: Key)
    requires Needed(k, pre, m) && Holds(k, pre + k.name, m)
    ensures s in m && pre + k.name <= s
  {
    s := pre + k.name;
    if s !in m {
      s := KeyBelow(k.kids[0], pre + k.name, m);
      assert pre + k.name <= pre + k.name + k.kids[0].name;
    }
  }

  /** A key of m that starts like a child lies below that child. */
  lemma {:induction false} BelowLead(t: Tree, pre: Key, m: map<Key, u64>, j: nat, s: Key)
    requires WellFormed(t) && Holds(t, pre, m) && j < |t.kids|
    requires s in m && pre < s && s[|pre|] == t.kids[j].name[0]
    ensures pre + t.kids[j].name <= s
  {
    assert Covered(t.kids, pre, s);
    var i :| 0 <= i < |t.kids| && pre + t.kids[i].name <= s;
    CoverByte(t.kids, pre, i, s);
  }

  lemma {:induction false} PrefixByte(a: Key, b: Key, s: Key)
    requires b != [] && a + b <= s
    ensures |a| < |s| && a < s && s[|a|] == b[0]
  {
    assert s[|a|] == (a + b)[|a|];
  }

  lemma {:induction false} PrefixChain(pre: Key, a: Key, b: Key, s: Key)
    requires pre + a <= s && pre + b <= s && |a| <= |b|
    ensures a <= b
  {
    forall i | 0 <= i < |a|
      ensures a[i] == b[i]
    {
      assert s[|pre| + i] == (pre + a)[|pre| + i] == (pre + b)[|pre| + i];
    }
  }

  /** A key of m below a child of t lies below the child of u that starts the same. */
  lemma {:induction false} BelowBoth(u: Tree, pre: Key, m: map<Key, u64>, name: Key, j: nat, s: Key)
    requires WellFormed(u) && Holds(u, pre, m) && j < |u.kids|
    requires name != [] && name[0] == u.kids[j].name[0]
    requires s in m && pre + name <= s
    ensures pre + u.kids[j].name <= s
  {
    PrefixByte(pre, name, s);
    BelowLead(u, pre, m, j, s);
  }

  /** An edge of u cannot be longer: t has a key at its node, or keys that part there. */
  lemma {:induction false} EdgeNotLonger(k: Tree, u: Tree, pre: Key, m: map<Key, u64>, j: nat)
    requires WellFormed(k) && k.name != [] && Needed(k, pre, m) && Holds(k, pre + k.name, m)
    requires WellFormed(u) && Holds(u, pre, m) && j < |u.kids|
    requires k.name[0] == u.kids[j].name[0]
    ensures |u.kids[j].name| <= |k.name|
  {
    var n, here := u.kids[j].name, pre + k.name;
    if here in m {
      BelowBoth(u, pre, m, k.name, j, here);
    } else if |n| > |k.name| {
      var s0 := KeyBelow(k.kids[0], here, m);
      var s1 := KeyBelow(k.kids[1], here, m);
      PrefixByte(here, k.kids[0].name, s0);
      PrefixByte(here, k.kids[1].name, s1);
      BelowBoth(u, pre, m, k.name, j, s0);
      BelowBoth(u, pre, m, k.name, j, s1);
    }
  }

  /** Two tries for one map: the edges with one first byte have one name. */
  lemma {:induction false} EdgePrefix(t: Tree, u: Tree, pre: Key, m: map<Key, u64>, i: nat, j: nat)
    requires WellFormed(t) && Holds(t, pre, m) && i < |t.kids|
    requires WellFormed(u) && Holds(u, pre, m) && j < |u.kids|
    requires t.kids[i].name[0] == u.kids[j].name[0]
    ensures u.kids[j].name <= t.kids[i].name
  {
    var k := t.kids[i];
    assert Needed(k, pre, m);
    EdgeNotLonger(k, u, pre, m, j);
    var s := KeyBelow(k, pre, m);
    BelowBoth(u, pre, m, k.name, j, s);
    PrefixChain(pre, u.kids[j].name, k.name, s);
  }

  /** The first bytes below one node are also found below the other. */
  lemma {:induction false} EdgeExists(t: Tree, u: Tree, pre: Key, m: map<Key, u64>, i: nat) returns (j: nat)
    requires WellFormed(t) && Holds(t, pre, m) && i < |t.kids|
    requires WellFormed(u) && Holds(u, pre, m)
    ensures j < |u.kids| && u.kids[j].name[0] == t.kids[i].name[0]
  {
    assert Needed(t.kids[i], pre, m);
    var s := KeyBelow(t.kids[i], pre, m);
    PrefixByte(pre, t.kids[i].name, s);
    assert Covered(u.kids, pre, s);
    j :| 0 <= j < |u.kids| && pre + u.kids[j].name <= s;
    CoverByte(u.kids, pre, j, s);
  }

  ghost predicate IncreasingBytes(a: seq<byte>)
  {
    forall i, j :: 0 <= i < j < |a| ==> a[i] < a[j]
  }

  lemma {:induction false} SameIncreasing(a: seq<byte>, b: seq<byte>)
    requires IncreasingBytes(a) && IncreasingBytes(b)
    requires forall c :: c in a <==> c in b
    ensures a == b
  {
    assert a == [] || a[0] in a;
    assert b == [] || b[0] in b;
    if a != [] && b != [] {
      assert a[0] in b && b[0] in a;
      assert a[0] == b[0];
      forall c
        ensures c in a[1..] <==> c in b[1..]
      {
        assert c in a[1..] ==> c in a && c != a[0];
        assert c in b[1..] ==> c in b && c != b[0];
        assert c in a && c != a[0] ==> c in a[1..];
        assert c in b && c != b[0] ==> c in b[1..];
      }
      SameIncreasing(a[1..], b[1..]);
      assert a == [a[0]] + a[1..] && b == [b[0]] + b[1..];
    }
  }

  ghost function FirstBytes(kids: seq<Tree>): (r: seq<byte>)
    requires Named(kids)
    ensures |r| == |kids| && forall i :: 0 <= i < |r| ==> r[i] == kids[i].name[0]
  {
    seq(|kids|, i requires 0 <= i < |kids| => kids[i].name[0])
  }

  lemma {:induction false} EdgeBytes(t: Tree, u: Tree, pre: Key, m: map<Key, u64>, c: byte)
    requires WellFormed(t) && Holds(t, pre, m)
    requires WellFormed(u) && Holds(u, pre, m)
    ensures c in FirstBytes(t.kids) ==> c in FirstBytes(u.kids)
  {
    if c in FirstBytes(t.kids) {
      var i :| 0 <= i < |t.kids| && FirstBytes(t.kids)[i] == c;
      var j := EdgeExists(t, u, pre, m, i);
      assert FirstBytes(u.kids)[j] == c;
    }
  }

  /** Two well-formed tries that hold the same map are the same tree. */
  lemma {:induction false} Unique(t: Tree, u: Tree, pre: Key, m: map<Key, u64>)
    requires WellFormed(t) && Holds(t, pre, m)
    requires WellFormed(u) && Holds(u, pre, m)
    requires t.name == u.name
    ensures t == u
    decreases t
  {
    var a, b := FirstBytes(t.kids), FirstBytes(u.kids);
    forall c
      ensures c in a <==> c in b
    {
      EdgeBytes(t, u, pre, m, c);
      EdgeBytes(u, t, pre, m, c);
    }
    SameIncreasing(a, b);
    forall i | 0 <= i < |t.kids|
      ensures t.kids[i] == u.kids[i]
    {
      assert a[i] == b[i];
      EdgePrefix(t, u, pre, m, i, i);
      EdgePrefix(u, t, pre, m, i, i);
      assert t.kids[i].name == u.kids[i].name;
      Unique(t.kids[i], u.kids[i], pre + t.kids[i].name, m);
    }
    assert t.kids == u.kids;
  }

  // ---- Sequences of insertions ----

  datatype Insertion = Insertion(key: Key, fn: Update)

  const EMPTY: Tree := Node([], 0, [])

  /** The trie built from t by the insertions, and the map they stand for. */
  function Build(t: Tree, ops: seq<Insertion>): (r: Tree)
    requires WellFormed(t)
    ensures WellFormed(r) && r.name == t.name
    decreases |ops|
  {
    if ops == [] then t
    else
      InsWellFormed(t, ops[0].key, ops[0].fn);
      Build(Ins(t, ops[0].key, ops[0].fn), ops[1..])
  }

  function Fold(m: map<Key, u64>, ops: seq<Insertion>): (r: map<Key, u64>)
    decreases |ops|
  {
    if ops == [] then m else Fold(Updated(m, ops[0].key, ops[0].fn), ops[1..])
  }

  lemma {:induction false} BuildHolds(t: Tree, m: map<Key, u64>, ops: seq<Insertion>)
    requires WellFormed(t) && Holds(t, [], m)
    ensures Holds(Build(t, ops), [], Fold(m, ops))
    decreases |ops|
  {
    if ops != [] {
      var key, fn := ops[0].key, ops[0].fn;
      InsWellFormed(t, key, fn);
      InsHolds(t, [], m, key, fn);
      assert [] + key == key;
      BuildHolds(Ins(t, key, fn), Updated(m, key, fn), ops[1..]);
    }
  }

  /** Histories of overwrites and merges that leave the same counts build the same tree. */
  lemma {:induction false} SameCountsSameTree(a: seq<Insertion>, b: seq<Insertion>)
    requires Fold(map[], a) == Fold(map[], b)
    ensures Build(EMPTY, a) == Build(EMPTY, b)
  {
    BuildHolds(EMPTY, map[], a);
    BuildHolds(EMPTY, map[], b);
    Unique(Build(EMPTY, a), Build(EMPTY, b), [], Fold(map[], a));
  }

  /** The sum of what the insertions add to key. */
  function Added(ops: seq<Insertion>, key: Key): (n: nat)
  {
    if ops == [] then 0 else (if ops[0].key == key then ops[0].fn.count else 0) + Added(ops[1..], key)
  }

  ghost predicate Merges(ops: seq<Insertion>)
  {
    forall i :: 0 <= i < |ops| ==> ops[i].fn.Accumulate?
  }

  ghost function KeysOf(ops: seq<Insertion>): (r: set<Key>)
  {
    set i | 0 <= i < |ops| :: ops[i].key
  }

  lemma {:induction false} FoldAdds(m: map<Key, u64>, ops: seq<Insertion>, k: Key)
    requires Merges(ops)
    ensures At(Fold(m, ops), k) == (At(m, k) + Added(ops, k)) % TWO_64
    decreases |ops|
  {
    if ops != [] {
      var n := Updated(m, ops[0].key, ops[0].fn);
      assert ops[0].fn.Accumulate?;
      FoldAdds(n, ops[1..], k);
      AddMod(At(m, k) + ops[0].fn.count, Added(ops[1..], k));
      assert ops[0].key != k ==> At(n, k) == At(m, k);
    }
  }

  lemma {:induction false} FoldKeys(m: map<Key, u64>, ops: seq<Insertion>)
    ensures Fold(m, ops).Keys == m.Keys + KeysOf(ops)
    decreases |ops|
  {
    if ops != [] {
      var n := Updated(m, ops[0].key, ops[0].fn);
      FoldKeys(n, ops[1..]);
      assert n.Keys == m.Keys + {ops[0].key};
      assert KeysOf(ops) == {ops[0].key} + KeysOf(ops[1..]) by {
        forall i | 1 <= i < |ops|
          ensures ops[i].key in KeysOf(ops[1..])
        {
          assert ops[i] == ops[1..][i - 1];
        }
        assert ops[0].key in KeysOf(ops);
      }
    }
  }

  /** Merging insertions add up, modulo 2^64, key by key. */
  lemma {:induction false} FoldMerges(ops: seq<Insertion>)
    requires Merges(ops)
    ensures Fold(map[], ops).Keys == KeysOf(ops)
    ensures forall k :: k in KeysOf(ops) ==> Fold(map[], ops)[k] == Added(ops, k) % TWO_64
  {
    FoldKeys(map[], ops);
    forall k | k in KeysOf(ops)
      ensures Fold(map[], ops)[k] == Added(ops, k) % TWO_64
    {
      FoldAdds(map[], ops, k);
    }
  }

  lemma {:induction false} AddedSplit(a: seq<Insertion>, b: seq<Insertion>, key: Key)
    ensures Added(a + b, key) == Added(a, key) + Added(b, key)
  {
    if a == [] {
      assert a + b == b;
    } else {
      assert (a + b)[1..] == a[1..] + b;
      AddedSplit(a[1..], b, key);
    }
  }

  lemma {:induction false} AddedPermuted(a: seq<Insertion>, b: seq<Insertion>, key: Key)
    requires multiset(a) == multiset(b)
    ensures Added(a, key) == Added(b, key)
    decreases |a|
  {
    assert |a| == |multiset(a)| == |multiset(b)| == |b|;
    if a != [] {
      var j := PartnerOf(a, b);
      AddedPermuted(a[1..], b[..j] + b[j + 1..], key);
      AddedWithout(a, 0, key);
      AddedWithout(b, j, key);
      assert a[..0] + a[1..] == a[1..];
    }
  }

  /** Where the first insertion of a is in b; without it both still have the same insertions. */
  lemma {:induction false} PartnerOf<T>(a: seq<T>, b: seq<T>) returns (j: nat)
    requires multiset(a) == multiset(b) && a != []
    ensures j < |b| && b[j] == a[0] && multiset(a[1..]) == multiset(b[..j] + b[j + 1..])
  {
    j := IndexIn(a, b);
    FirstOut(a);
    TakenOut(b, j);
  }

  lemma {:induction false} IndexIn<T>(a: seq<T>, b: seq<T>) returns (j: nat)
    requires multiset(a) == multiset(b) && a != []
    ensures j < |b| && b[j] == a[0]
  {
    assert a[0] in multiset(b);
    j :| j < |b| && b[j] == a[0];
  }

  lemma {:induction false} FirstOut<T>(a: seq<T>)
    requires a != []
    ensures multiset(a[1..]) == multiset(a) - multiset{a[0]}
  {
    assert a == [a[0]] + a[1..];
  }

  lemma {:induction false} TakenOut<T>(b: seq<T>, j: nat)
    requires j < |b|
    ensures multiset(b[..j] + b[j + 1..]) == multiset(b) - multiset{b[j]}
  {
    var c, d := b[..j], b[j + 1..];
    assert b == c + ([b[j]] + d);
    assert multiset(b) == multiset(c) + (multiset{b[j]} + multiset(d));
    assert multiset(c + d) == multiset(c) + multiset(d);
  }

  lemma {:induction false} AddedWithout(b: seq<Insertion>, j: nat, key: Key)
    requires j < |b|
    ensures Added(b, key) == Added([b[j]], key) + Added(b[..j] + b[j + 1..], key)
  {
    hide Added;
    assert b == b[..j] + ([b[j]] + b[j + 1..]);
    AddedSplit(b[..j], [b[j]] + b[j + 1..], key);
    AddedSplit([b[j]], b[j + 1..], key);
    AddedSplit(b[..j], b[j + 1..], key);
  }

  lemma {:induction false} KeysPermuted(a: seq<Insertion>, b: seq<Insertion>)
    requires multiset(a) == multiset(b)
    ensures KeysOf(a) <= KeysOf(b)
  {
    forall k | k in KeysOf(a)
      ensures k in KeysOf(b)
    {
      var i :| 0 <= i < |a| && a[i].key == k;
      assert a[i] in multiset(b);
      var j :| 0 <= j < |b| && b[j] == a[i];
    }
  }

  /** The order in which samples are merged does not matter: the tries are the same tree. */
  lemma {:induction false} InsertionOrderIrrelevant(a: seq<Insertion>, b: seq<Insertion>)
    requires Merges(a) && multiset(a) == multiset(b)
    ensures Build(EMPTY, a) == Build(EMPTY, b)
  {
    forall i | 0 <= i < |b|
      ensures b[i].fn.Accumulate?
    {
      assert b[i] in multiset(a);
    }
    FoldMerges(a);
    FoldMerges(b);
    KeysPermuted(a, b);
    KeysPermuted(b, a);
    var m, n := Fold(map[], a), Fold(map[], b);
    forall k | k in m
      ensures m[k] == n[k]
    {
      AddedPermuted(a, b, k);
    }
    assert m == n;
    SameCountsSameTree(a, b);
  }

  // ---- Size ----

  function Size(t: Tree): (n: nat)
    ensures n >= 1
  {
    1 + SizeAll(t.kids)
  }

  function SizeAll(ts: seq<Tree>): (n: nat)
    ensures n >= |ts|
  {
    if ts == [] then 0 else SizeAll(ts[..|ts| - 1]) + Size(ts[|ts| - 1])
  }

  ghost function KeysAt(m: map<Key, u64>, pre: Key): (r: set<Key>)
  {
    set s | s in m && pre <= s
  }

  /** The keys below the first j children. */
  ghost function KeysUpTo(kids: seq<Tree>, j: nat, pre: Key, m: map<Key, u64>): (r: set<Key>)
    requires j <= |kids|
  {
    set s | s in m && Covered(kids[..j], pre, s)
  }

  lemma {:induction false} KeysStep(kids: seq<Tree>, j: nat, pre: Key, m: map<Key, u64>)
    requires Ordered(kids) && j < |kids|
    ensures |KeysUpTo(kids, j + 1, pre, m)| == |KeysUpTo(kids, j, pre, m)| + |KeysAt(m, pre + kids[j].name)|
  {
    var a, b := KeysUpTo(kids, j, pre, m), KeysAt(m, pre + kids[j].name);
    var c := KeysUpTo(kids, j + 1, pre, m);
    assert kids[..j + 1] == kids[..j] + [kids[j]];
    forall s | s in c
      ensures s in a + b
    {
      var i :| 0 <= i < j + 1 && pre + kids[..j + 1][i].name <= s;
      if i < j { assert pre + kids[..j][i].name <= s; }
    }
    forall s | s in a
      ensures s in c && s !in b
    {
      var i :| 0 <= i < j && pre + kids[..j][i].name <= s;
      assert pre + kids[..j + 1][i].name <= s;
      CoverByte(kids, pre, i, s);
      if s in b { CoverByte(kids, pre, j, s); }
    }
    forall s | s in b
      ensures s in c
    {
      assert pre + kids[..j + 1][j].name <= s;
    }
    assert c == a + b && a !! b;
  }

  lemma {:induction false} SizeBelow(t: Tree, pre: Key, m: map<Key, u64>, j: nat)
    requires WellFormed(t) && Holds(t, pre, m) && j <= |t.kids|
    ensures SizeAll(t.kids[..j]) + j <= 2 * |KeysUpTo(t.kids, j, pre, m)|
    decreases t, j
  {
    if j > 0 {
      var k := t.kids[j - 1];
      assert t.kids[..j][..j - 1] == t.kids[..j - 1];
      SizeBelow(t, pre, m, j - 1);
      KeysStep(t.kids, j - 1, pre, m);
      SizeEdge(k, pre, m);
    }
  }

  lemma {:induction false} KeysOfNode(t: Tree, here: Key, m: map<Key, u64>)
    requires WellFormed(t) && Holds(t, here, m)
    ensures KeysAt(m, here) == KeysUpTo(t.kids, |t.kids|, here, m) + (if here in m then {here} else {})
    ensures here !in KeysUpTo(t.kids, |t.kids|, here, m)
  {
    assert t.kids[..|t.kids|] == t.kids;
    var strict := KeysUpTo(t.kids, |t.kids|, here, m);
    forall s | s in strict
      ensures here < s
    {
      assert Covered(t.kids, here, s);
      var i :| 0 <= i < |t.kids| && here + t.kids[i].name <= s;
      CoverByte(t.kids, here, i, s);
    }
    forall s | s in KeysAt(m, here) && s != here
      ensures s in strict
    {
      assert here < s;
    }
  }

  /** The subtree of a child has fewer than twice as many nodes as keys. */
  lemma {:induction false} SizeEdge(k: Tree, pre: Key, m: map<Key, u64>)
    requires WellFormed(k) && k.name != [] && Needed(k, pre, m) && Holds(k, pre + k.name, m)
    ensures Size(k) + 1 <= 2 * |KeysAt(m, pre + k.name)|
    decreases k, |k.kids| + 1
  {
    SizeBelow(k, pre + k.name, m, |k.kids|);
    assert k.kids[..|k.kids|] == k.kids;
    KeysOfNode(k, pre + k.name, m);
  }

  lemma {:induction false} AllKeys(m: map<Key, u64>)
    ensures KeysAt(m, []) == m.Keys && |m.Keys| == |m|
  {}

  /** A trie with n keys has at most 2n nodes, and the empty one has its root. */
  lemma {:induction false} SizeBound(t: Tree, m: map<Key, u64>)
    requires WellFormed(t) && Holds(t, [], m)
    ensures Size(t) <= if |m| == 0 then 1 else 2 * |m|
  {
    SizeBelow(t, [], m, |t.kids|);
    assert t.kids[..|t.kids|] == t.kids;
    KeysOfNode(t, [], m);
    AllKeys(m);
    var strict := KeysUpTo(t.kids, |t.kids|, [], m);
    assert |m| == |strict| + if [] in m then 1 else 0;
  }
}
