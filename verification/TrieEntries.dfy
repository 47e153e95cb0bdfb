/** The (key, count) pairs a traversal reports: the map, in increasing order of the keys. */
module TrieEntries {
  import opened Bytes
  import opened TrieModel

  type Entry = (Key, u64)

  /** Preorder below the bytes pre; only positive counts are reported. */
  function Entries(t: Tree, pre: Key): (r: seq<Entry>)
  {
    (if t.value > 0 then [(pre + t.name, t.value)] else []) + EntriesAll(t.kids, pre + t.name)
  }

  function EntriesAll(ts: seq<Tree>, pre: Key): (r: seq<Entry>)
  {
    if ts == [] then [] else Entries(ts[0], pre) + EntriesAll(ts[1..], pre)
  }

  ghost predicate Increasing(es: seq<Entry>)
  {
    forall i, j :: 0 <= i < j < |es| ==> Less(es[i].0, es[j].0)
  }

  /** Every key reported at a node extends the node's own. */
  lemma {:induction false} EntriesBelow(t: Tree, pre: Key)
    ensures forall e :: e in Entries(t, pre) ==> pre + t.name <= e.0
    decreases t
  {
    EntriesAllBelow(t.kids, pre + t.name);
  }

  lemma {:induction false} EntriesAllBelow(ts: seq<Tree>, pre: Key)
    ensures forall e :: e in EntriesAll(ts, pre) ==> exists i :: 0 <= i < |ts| && pre + ts[i].name <= e.0
    ensures forall e :: e in EntriesAll(ts, pre) ==> pre <= e.0
    decreases ts
  {
    if ts != [] {
      EntriesBelow(ts[0], pre);
      EntriesAllBelow(ts[1..], pre);
      forall e | e in EntriesAll(ts, pre)
        ensures exists i :: 0 <= i < |ts| && pre + ts[i].name <= e.0
      {
        if e in Entries(ts[0], pre) {
          assert pre + ts[0].name <= e.0;
        } else {
          var i :| 0 <= i < |ts[1..]| && pre + ts[1..][i].name <= e.0;
          assert ts[i + 1] == ts[1..][i];
        }
      }
    }
  }

  lemma {:induction false} ShorterIsLess(a: Key, s: Key)
    requires a < s
    ensures Less(a, s)
  {
    assert s == a + s[|a|..] && a == a + [];
    LessPrefix(a, [], s[|a|..]);
  }

  lemma {:induction false} PartingIsLess(pre: Key, a: Key, b: Key, s: Key, r: Key)
    requires a != [] && b != [] && a[0] < b[0]
    requires pre + a <= s && pre + b <= r
    ensures Less(s, r)
  {
    assert s[..|pre|] == pre && r[..|pre|] == pre;
    assert s == pre + s[|pre|..] && r == pre + r[|pre|..];
    assert s[|pre|] == (pre + a)[|pre|] && r[|pre|] == (pre + b)[|pre|];
    LessPrefix(pre, s[|pre|..], r[|pre|..]);
  }

  lemma {:induction false} JoinIncreasing(a: seq<Entry>, b: seq<Entry>)
    requires Increasing(a) && Increasing(b)
    requires forall x, y :: x in a && y in b ==> Less(x.0, y.0)
    ensures Increasing(a + b)
  {
    forall i, j | 0 <= i < j < |a + b|
      ensures Less((a + b)[i].0, (a + b)[j].0)
    {
      if i < |a| && |a| <= j { assert a[i] in a && b[j - |a|] in b; }
    }
  }

  /** A traversal reports keys in strictly increasing byte order, so each of them once. */
  lemma {:induction false} EntriesIncreasing(t: Tree, pre: Key)
    requires WellFormed(t)
    ensures Increasing(Entries(t, pre))
    decreases t
  {
    var here := pre + t.name;
    EntriesAllIncreasing(t.kids, here);
    EntriesAllBelow(t.kids, here);
    var own := if t.value > 0 then [(here, t.value)] else [];
    forall x, y | x in own && y in EntriesAll(t.kids, here)
      ensures Less(x.0, y.0)
    {
      var i :| 0 <= i < |t.kids| && here + t.kids[i].name <= y.0;
      assert here < here + t.kids[i].name;
      ShorterIsLess(here, y.0);
    }
    JoinIncreasing(own, EntriesAll(t.kids, here));
  }

  lemma {:induction false} EntriesAllIncreasing(ts: seq<Tree>, pre: Key)
    requires Ordered(ts) && forall i :: 0 <= i < |ts| ==> WellFormed(ts[i])
    ensures Increasing(EntriesAll(ts, pre))
    decreases ts
  {
    if ts != [] {
      EntriesIncreasing(ts[0], pre);
      EntriesAllIncreasing(ts[1..], pre);
      EntriesBelow(ts[0], pre);
      EntriesAllBelow(ts[1..], pre);
      var a, b := Entries(ts[0], pre), EntriesAll(ts[1..], pre);
      forall x, y | x in a && y in b
        ensures Less(x.0, y.0)
      {
        var i :| 0 <= i < |ts[1..]| && pre + ts[1..][i].name <= y.0;
        assert ts[1..][i] == ts[i + 1];
        PartingIsLess(pre, ts[0].name, ts[i + 1].name, x.0, y.0);
      }
      JoinIncreasing(a, b);
    }
  }

  /** A traversal reports exactly the keys with a positive count, with that count. */
  lemma {:induction false} EntriesExact(t: Tree, pre: Key, m: map<Key, u64>, k: Key, v: u64)
    requires WellFormed(t) && Holds(t, pre + t.name, m)
    ensures (k, v) in Entries(t, pre) <==> pre + t.name <= k && At(m, k) == v && v > 0
    decreases t, |t.kids| + 1
  {
    var here := pre + t.name;
    EntriesAllExact(t, here, m, k, v, 0);
    EntriesAllBelow(t.kids, here);
    assert t.kids[0..] == t.kids;
    if here <= k && k != here && k in m {
      assert here < k;
      assert Covered(t.kids, here, k);
      var i :| 0 <= i < |t.kids| && here + t.kids[i].name <= k;
    }
    if (k, v) in EntriesAll(t.kids, here) {
      assert Covered(t.kids, here, k);
      var i :| 0 <= i < |t.kids| && here + t.kids[i].name <= k;
      assert here < here + t.kids[i].name;
    }
  }

  lemma {:induction false} EntriesAllExact(t: Tree, here: Key, m: map<Key, u64>, k: Key, v: u64, j: nat)
    requires WellFormed(t) && Holds(t, here, m) && j <= |t.kids|
    ensures (k, v) in EntriesAll(t.kids[j..], here) <==>
      At(m, k) == v && v > 0 && exists i :: j <= i < |t.kids| && here + t.kids[i].name <= k
    decreases t, |t.kids| - j
  {
    if j < |t.kids| {
      assert t.kids[j..][0] == t.kids[j] && t.kids[j..][1..] == t.kids[j + 1..];
      EntriesExact(t.kids[j], here, m, k, v);
      EntriesAllExact(t, here, m, k, v, j + 1);
    }
  }

  /** A list with increasing keys has no key twice. */
  lemma {:induction false} IncreasingOnce(es: seq<Entry>, i: nat, j: nat)
    requires Increasing(es) && i < j < |es|
    ensures es[i].0 != es[j].0
  {
    LessIrreflexive(es[i].0);
  }

  /** What a traversal of the whole trie reports, for every key and count: in order, and once each. */
  lemma {:induction false} TraversalExact(t: Tree, m: map<Key, u64>)
    requires WellFormed(t) && t.name == [] && Holds(t, [], m)
    ensures Increasing(Entries(t, []))
    ensures forall i, j :: 0 <= i < j < |Entries(t, [])| ==> Entries(t, [])[i].0 != Entries(t, [])[j].0
    ensures forall k: Key, v: u64 :: (k, v) in Entries(t, []) <==> k in m && m[k] == v && v > 0
  {
    EntriesIncreasing(t, []);
    forall i, j | 0 <= i < j < |Entries(t, [])| ensures Entries(t, [])[i].0 != Entries(t, [])[j].0 {
      IncreasingOnce(Entries(t, []), i, j);
    }
    forall k: Key, v: u64
      ensures (k, v) in Entries(t, []) <==> k in m && m[k] == v && v > 0
    {
      EntriesExact(t, [], m, k, v);
    }
  }
}
