/** Scaled serialization: how far the scaled counts can fall short. */
module TrieScale {
  import opened Bytes
  import opened TrieModel
  import opened TrieWire

  function Total(t: Tree): (n: nat)
  {
    t.value + TotalAll(t.kids)
  }

  function TotalAll(ts: seq<Tree>): (n: nat)
  {
    if ts == [] then 0 else Total(ts[0]) + TotalAll(ts[1..])
  }

  /** The number of nodes with a positive count. */
  function Positive(t: Tree): (n: nat)
  {
    (if t.value > 0 then 1 else 0) + PositiveAll(t.kids)
  }

  function PositiveAll(ts: seq<Tree>): (n: nat)
  {
    if ts == [] then 0 else Positive(ts[0]) + PositiveAll(ts[1..])
  }

  /** No product overflows 64 bits. */
  ghost predicate Fits(t: Tree, m: i64)
  {
    && 0 <= t.value * m < TWO_64
    && forall i :: 0 <= i < |t.kids| ==> Fits(t.kids[i], m)
  }

  lemma {:induction false} DivMul(a: nat, d: nat)
    requires d >= 1
    ensures d * (a / d) <= a < d * (a / d) + d
  {}

  /** Without overflow a count becomes floor(v * m / d). */
  lemma {:induction false} ScaleFloor(v: u64, m: i64, d: i64)
    requires m >= 0 && d >= 1 && 0 <= v * m < TWO_64
    ensures var r := Scale(v, m, d);
      d * r <= v * m && v * m < d * r + d && (v == 0 ==> r == 0)
  {
    assert ToU64(m) == m && ToU64(d) == d;
    assert v * ToU64(m) % TWO_64 == v * m;
    DivMul(v * m, d);
    if d == 1 { assert v * m / d == v * m; }
    if v == 0 {
      assert v * m == 0;
      assert 0 / d == 0;
    }
  }

  /** m*total - d*positive < d*scaled total <= m*total, the left side strict when anything is positive. */
  lemma {:induction false} ScaledTotal(t: Tree, m: i64, d: i64)
    requires m >= 0 && d >= 1 && Fits(t, m)
    ensures d * Total(Scaled(t, m, d)) <= m * Total(t) <= d * Total(Scaled(t, m, d)) + (d - 1) * Positive(t)
    decreases t, |t.kids| + 1
  {
    ScaledTotalFrom(t, m, d, 0);
    ScaleFloor(t.value, m, d);
    var r := Scaled(t, m, d);
    assert t.kids[0..] == t.kids && r.kids[0..] == r.kids;
    Distribute(m, t.value, TotalAll(t.kids));
    Distribute(d, r.value, TotalAll(r.kids));
    Distribute(d - 1, if t.value > 0 then 1 else 0, PositiveAll(t.kids));
    assert t.value * m == m * t.value;
  }

  lemma {:induction false} Distribute(a: int, b: int, c: int)
    ensures a * (b + c) == a * b + a * c
  {}

  lemma {:induction false} ScaledTotalFrom(t: Tree, m: i64, d: i64, j: nat)
    requires m >= 0 && d >= 1 && Fits(t, m) && j <= |t.kids|
    ensures var ts, rs := t.kids[j..], Scaled(t, m, d).kids[j..];
      d * TotalAll(rs) <= m * TotalAll(ts) <= d * TotalAll(rs) + (d - 1) * PositiveAll(ts)
    decreases t, |t.kids| - j
  {
    if j < |t.kids| {
      var ts, rs := t.kids[j..], Scaled(t, m, d).kids[j..];
      assert ts[0] == t.kids[j] && ts[1..] == t.kids[j + 1..];
      assert rs[0] == Scaled(t.kids[j], m, d) && rs[1..] == Scaled(t, m, d).kids[j + 1..];
      ScaledTotal(t.kids[j], m, d);
      ScaledTotalFrom(t, m, d, j + 1);
      Distribute(m, Total(ts[0]), TotalAll(ts[1..]));
      Distribute(d, Total(rs[0]), TotalAll(rs[1..]));
      Distribute(d - 1, Positive(ts[0]), PositiveAll(ts[1..]));
    }
  }

  /** The names and children of a trie do not depend on the scale, nor does well-formedness. */
  lemma {:induction false} ScaledWellFormed(t: Tree, m: i64, d: i64)
    requires d != 0 && WellFormed(t)
    ensures WellFormed(Scaled(t, m, d))
  {
    forall i | 0 <= i < |t.kids|
      ensures WellFormed(Scaled(t, m, d).kids[i])
    {
      ScaledWellFormed(t.kids[i], m, d);
    }
  }

  lemma {:induction false} ScaledAddressable(t: Tree, m: i64, d: i64)
    requires d != 0 && Addressable(t)
    ensures Addressable(Scaled(t, m, d))
  {
    forall i | 0 <= i < |t.kids|
      ensures Addressable(Scaled(t, m, d).kids[i])
    {
      ScaledAddressable(t.kids[i], m, d);
    }
  }

  lemma {:induction false} ScaledOneOne(t: Tree)
    ensures Scaled(t, 1, 1) == t
  {
    forall i | 0 <= i < |t.kids|
      ensures Scaled(t, 1, 1).kids[i] == t.kids[i]
    {
      ScaledOneOne(t.kids[i]);
    }
    assert Scaled(t, 1, 1).kids == t.kids;
  }

  /** Decoding what a scaled trie serializes to gives the tree with every count scaled. */
  lemma {:induction false} ScaledRoundTrip(t: Tree, m: i64, d: i64, tail: seq<byte>)
    requires d != 0 && WellFormed(t) && Addressable(t)
    ensures Decode(Wire(Scaled(t, m, d)) + tail) == Trie(Scaled(t, m, d))
    ensures m == 1 && d == 1 ==> Decode(Wire(t) + tail) == Trie(t)
  {
    ScaledWellFormed(t, m, d);
    ScaledAddressable(t, m, d);
    RoundTrip(Scaled(t, m, d), tail);
    ScaledOneOne(t);
  }

  /** The map that the scaled trie stands for. */
  function ScaledMap(c: map<Key, u64>, m: i64, d: i64): (r: map<Key, u64>)
    requires d != 0
    ensures r.Keys == c.Keys && forall k :: k in c ==> r[k] == Scale(c[k], m, d)
  {
    map k | k in c :: Scale(c[k], m, d)
  }

  lemma {:induction false} ScaleZero(m: i64, d: i64)
    requires d != 0
    ensures Scale(0, m, d) == 0
  {
    assert 0 * ToU64(m) == 0;
    DivMul(0, ToU64(d));
  }

  /** Scaling the counts of a trie scales the map it stands for, key by key. */
  lemma {:induction false} ScaledHolds(t: Tree, pre: Key, c: map<Key, u64>, m: i64, d: i64)
    requires d != 0 && Holds(t, pre, c)
    ensures Holds(Scaled(t, m, d), pre, ScaledMap(c, m, d))
  {
    var r, n := Scaled(t, m, d), ScaledMap(c, m, d);
    ScaleZero(m, d);
    assert r.value == At(n, pre);
    forall i | 0 <= i < |t.kids|
      ensures Needed(r.kids[i], pre, n) && Holds(r.kids[i], pre + r.kids[i].name, n)
    {
      assert Needed(t.kids[i], pre, c);
      ScaledHolds(t.kids[i], pre + t.kids[i].name, c, m, d);
    }
    forall s | s in n && pre < s
      ensures Covered(r.kids, pre, s)
    {
      assert Covered(t.kids, pre, s);
      var i :| 0 <= i < |t.kids| && pre + t.kids[i].name <= s;
      assert pre + r.kids[i].name <= s;
    }
  }

  /** Without overflow the decoded count of every key is floor(count * m / d). */
  lemma {:induction false} ScaledCounts(t: Tree, c: map<Key, u64>, m: i64, d: i64, k: Key)
    requires m >= 0 && d >= 1 && WellFormed(t) && t.name == [] && Addressable(t) && Holds(t, [], c)
    requires k in c && c[k] * m < TWO_64
    ensures Decode(Wire(Scaled(t, m, d))) == Trie(Scaled(t, m, d))
    ensures Holds(Scaled(t, m, d), [], ScaledMap(c, m, d))
    ensures var r := ScaledMap(c, m, d)[k]; d * r <= c[k] * m < d * r + d
  {
    assert Wire(Scaled(t, m, d)) + [] == Wire(Scaled(t, m, d));
    ScaledRoundTrip(t, m, d, []);
    ScaledHolds(t, [], c, m, d);
    assert 0 <= c[k] * m;
    ScaleFloor(c[k], m, d);
  }
}
