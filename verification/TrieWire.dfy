/** The wire format of a trie: what Serialize writes and what a reader makes of any bytes. */
module TrieWire {
  import opened Bytes
  import opened TrieModel
  import V = Varint

  // ---- Writing ----

  /** One node: its name with a length prefix, its count, and its number of children. */
  function HeadBytes(name: Key, value: u64, kids: nat): (s: seq<byte>)
    ensures s != []
  {
    V.Encode(|name|) + name + V.Encode(value) + V.Encode(kids)
  }

  function HeadOf(t: Tree): (s: seq<byte>)
    ensures s != []
  {
    HeadBytes(t.name, t.value, |t.kids|)
  }

  /** Preorder. */
  function Wire(t: Tree): (s: seq<byte>)
  {
    HeadOf(t) + WireAll(t.kids)
  }

  function WireAll(ts: seq<Tree>): (s: seq<byte>)
  {
    if ts == [] then [] else Wire(ts[0]) + WireAll(ts[1..])
  }

  lemma {:induction false} DivShrinks(a: nat, b: nat)
    requires b >= 1
    ensures 0 <= a / b <= a
  {}

  /** The count that is written: scaled in 64-bit arithmetic, unless the scale is 1/1. */
  function Scale(v: u64, m: i64, d: i64): (r: u64)
    requires d != 0
  {
    if d != 1 || m != 1 then
      var scaled := v * ToU64(m) % TWO_64;
      DivShrinks(scaled, ToU64(d));
      scaled / ToU64(d)
    else v
  }

  function Scaled(t: Tree, m: i64, d: i64): (r: Tree)
    requires d != 0
    ensures r.name == t.name && |r.kids| == |t.kids|
    ensures forall i :: 0 <= i < |t.kids| ==> r.kids[i] == Scaled(t.kids[i], m, d)
  {
    Node(t.name, Scale(t.value, m, d), seq(|t.kids|, i requires 0 <= i < |t.kids| => Scaled(t.kids[i], m, d)))
  }

  /** Names and sibling lists are Go slices, so their lengths are ints. */
  ghost predicate Addressable(t: Tree)
  {
    && |t.name| < TWO_63 && |t.kids| < TWO_63
    && forall i :: 0 <= i < |t.kids| ==> Addressable(t.kids[i])
  }

  // ---- Reading ----

  datatype Failure = Error(status: V.Status) | Panic

  datatype NamePart = Name(name: Key, rest: seq<byte>) | NoName(failure: Failure)

  datatype CountPart = Counts(value: u64, count: u64, rest: seq<byte>) | NoCounts(failure: Failure)

  datatype Head = Head(name: Key, value: u64, count: u64, rest: seq<byte>) | NoHead(failure: Failure)

  datatype Parse = Parsed(trees: seq<Tree>, rest: seq<byte>) | Failed(failure: Failure)

  /**
   * The name of a node. The error of reading its length is dropped: the length read so far is
   * used. A length that is no int makes the allocation panic.
   */
  function ReadName(s: seq<byte>): (h: NamePart)
    ensures h.Name? ==> |h.rest| <= |s|
  {
    var r := V.Decode(s);
    var s1 := s[r.used..];
    if r.value >= TWO_63 then NoName(Panic)
    else if |s1| < r.value then NoName(Error(if s1 == [] then V.Eof else V.UnexpectedEof))
    else Name(s1[..r.value], s1[r.value..])
  }

  /** Its count and the number of its children. */
  function ReadCounts(s: seq<byte>): (h: CountPart)
    ensures h.Counts? ==> |h.rest| < |s|
  {
    var v := V.Decode(s);
    if !v.status.Ok? then NoCounts(Error(v.status))
    else
      var s1 := s[v.used..];
      var c := V.Decode(s1);
      if !c.status.Ok? then NoCounts(Error(c.status))
      else
        V.DecodeCanonical(s);
        V.DecodeCanonical(s1);
        Counts(v.value, c.value, s1[c.used..])
  }

  /** One node, without its children. */
  function ReadHead(s: seq<byte>): (h: Head)
    ensures h.Head? ==> |h.rest| < |s|
  {
    match ReadName(s)
    case NoName(e) => NoHead(e)
    case Name(name, rest) =>
      match ReadCounts(rest)
      case NoCounts(e) => NoHead(e)
      case Counts(value, count, rest1) => Head(name, value, count, rest1)
  }

  /** One tree: a node followed by its children. */
  function ParseTree(s: seq<byte>): (p: Parse)
    ensures p.Parsed? ==> |p.trees| == 1 && |p.rest| < |s|
    decreases |s|, 0
  {
    match ReadHead(s)
    case NoHead(e) => Failed(e)
    case Head(name, value, count, rest) =>
      match ParseTrees(rest, count)
      case Failed(e) => Failed(e)
      case Parsed(kids, rest1) => Parsed([Node(name, value, kids)], rest1)
  }

  /** n trees in a row. */
  function ParseTrees(s: seq<byte>, n: nat): (p: Parse)
    ensures p.Parsed? ==> |p.trees| == n && |p.rest| <= |s|
    decreases |s|, n
  {
    if n == 0 then Parsed([], s)
    else
      match ParseTree(s)
      case Failed(e) => Failed(e)
      case Parsed(ts, rest) =>
        match ParseTrees(rest, n - 1)
        case Failed(e) => Failed(e)
        case Parsed(us, rest1) => Parsed(ts + us, rest1)
  }

  function Then(p: Parse, n: nat): (r: Parse)
  {
    match p
    case Failed(e) => p
    case Parsed(ts, rest) =>
      match ParseTrees(rest, n)
      case Failed(e) => Failed(e)
      case Parsed(us, rest1) => Parsed(ts + us, rest1)
  }

  /** What is parsed behind the trees ts. */
  function Behind(ts: seq<Tree>, p: Parse): (r: Parse)
  {
    if p.Parsed? then p.(trees := ts + p.trees) else p
  }

  lemma {:induction false} ThenAssociates(ts: seq<Tree>, q: Parse, n: nat)
    ensures Then(Behind(ts, q), n) == Behind(ts, Then(q, n))
  {
    if q.Parsed? {
      var r := ParseTrees(q.rest, n);
      if r.Parsed? { assert ts + (q.trees + r.trees) == (ts + q.trees) + r.trees; }
    }
  }

  lemma {:induction false} ParseUnfoldBehind(s: seq<byte>, n: nat)
    requires n > 0
    ensures var one := ParseTree(s);
      ParseTrees(s, n) == if one.Failed? then one else Behind(one.trees, ParseTrees(one.rest, n - 1))
  {}

  /** Parsing a and then b trees is parsing a + b. */
  lemma {:induction false} ParseSplit(s: seq<byte>, a: nat, b: nat)
    ensures ParseTrees(s, a + b) == Then(ParseTrees(s, a), b)
    decreases |s|, a
  {
    hide ReadHead;
    if a == 0 {
      var p := ParseTrees(s, b);
      if p.Parsed? { assert [] + p.trees == p.trees; }
    } else {
      var one := ParseTree(s);
      ParseUnfoldBehind(s, a);
      ParseUnfoldBehind(s, a + b);
      if one.Parsed? {
        ParseSplit(one.rest, a - 1, b);
        ThenAssociates(one.trees, ParseTrees(one.rest, a - 1), b);
      }
    }
  }

  // ---- Round trip ----

  lemma {:induction false} HeadOfWire(t: Tree, tail: seq<byte>)
    requires |t.name| < TWO_63 && |t.kids| < TWO_63
    ensures ReadHead(Wire(t) + tail) == Head(t.name, t.value, |t.kids|, WireAll(t.kids) + tail)
  {
    var c := WireAll(t.kids) + tail;
    var b := V.Encode(|t.kids|) + c;
    var a := V.Encode(t.value) + b;
    var s := V.Encode(|t.name|) + (t.name + a);
    assert s == Wire(t) + tail;
    V.RoundTrip(|t.name|, t.name + a);
    V.RoundTrip(t.value, b);
    V.RoundTrip(|t.kids|, c);
    assert s[|V.Encode(|t.name|)|..] == t.name + a;
    assert (t.name + a)[..|t.name|] == t.name && (t.name + a)[|t.name|..] == a;
    assert a[|V.Encode(t.value)|..] == b;
    assert b[|V.Encode(|t.kids|)|..] == c;
  }

  lemma {:induction false} ParseWireOne(t: Tree, tail: seq<byte>)
    requires Addressable(t)
    ensures ParseTree(Wire(t) + tail) == Parsed([t], tail)
    decreases t, 1
  {
    HeadOfWire(t, tail);
    ParseWire(t.kids, tail);
    assert t == Node(t.name, t.value, t.kids);
  }

  /** Reading back what was written yields the same trees and stops right behind them. */
  lemma {:induction false} ParseWire(ts: seq<Tree>, tail: seq<byte>)
    requires forall i :: 0 <= i < |ts| ==> Addressable(ts[i])
    ensures ParseTrees(WireAll(ts) + tail, |ts|) == Parsed(ts, tail)
    decreases ts, 0
  {
    if ts == [] {
      assert [] + tail == tail;
    } else {
      var rest := WireAll(ts[1..]) + tail;
      assert WireAll(ts) + tail == Wire(ts[0]) + rest;
      ParseWireOne(ts[0], rest);
      ParseWire(ts[1..], tail);
      assert [ts[0]] + ts[1..] == ts;
    }
  }

  lemma {:induction false} DecodeFromExtends(s: seq<byte>, q: seq<byte>, left: nat)
    ensures var r := V.DecodeFrom(s, left);
      if r.status.UnexpectedEof? then r.used == |s| else V.DecodeFrom(s + q, left) == r
    decreases |s|
  {
    if left > 1 && s != [] && s[0] >= 128 {
      assert (s + q)[1..] == s[1..] + q;
      DecodeFromExtends(s[1..], q, left - 1);
    }
  }

  /** A varint that was read in full, or that is too long, is read the same when more follows. */
  lemma {:induction false} DecodeExtends(s: seq<byte>, q: seq<byte>)
    ensures var r := V.Decode(s);
      if r.status.Ok? || r.status.Overflow? then s != [] && V.Decode(s + q) == r && (s + q)[r.used..] == s[r.used..] + q
      else r.used == |s|
  {
    DecodeFromExtends(s, q, V.MAX_VARINT_LEN64);
    var r := V.Decode(s);
    if r.status.Ok? || r.status.Overflow? {
      assert (s + q)[r.used..] == s[r.used..] + q;
    }
  }

  lemma {:induction false} HeadExtends(s: seq<byte>, q: seq<byte>)
    requires ReadHead(s).Head?
    ensures var h := ReadHead(s); ReadHead(s + q) == h.(rest := h.rest + q)
  {
    DecodeExtends(s, q);
    var r := V.Decode(s);
    var s1 := s[r.used..];
    var s2 := s1[r.value..];
    assert (s1 + q)[..r.value] == s1[..r.value] && (s1 + q)[r.value..] == s2 + q;
    DecodeExtends(s2, q);
    DecodeExtends(s2[V.Decode(s2).used..], q);
  }

  lemma {:induction false} ParseExtendsOne(s: seq<byte>, q: seq<byte>)
    requires ParseTree(s).Parsed?
    ensures var p := ParseTree(s); ParseTree(s + q) == p.(rest := p.rest + q)
    decreases |s|, 0
  {
    HeadExtends(s, q);
    ParseExtends(ReadHead(s).rest, q, ReadHead(s).count);
  }

  lemma {:induction false} ParseExtends(s: seq<byte>, q: seq<byte>, n: nat)
    requires ParseTrees(s, n).Parsed?
    ensures var p := ParseTrees(s, n); ParseTrees(s + q, n) == p.(rest := p.rest + q)
    decreases |s|, n
  {
    hide ReadHead;
    if n > 0 {
      var one := ParseTree(s);
      ParseUnfoldBehind(s, n);
      ParseUnfoldBehind(s + q, n);
      ParseExtendsOne(s, q);
      ParseExtends(one.rest, q, n - 1);
    }
  }

  /** A truncated stream is never taken for a trie. */
  lemma {:induction false} TruncatedFails(t: Tree, k: nat)
    requires Addressable(t) && k < |Wire(t)|
    ensures ParseTree(Wire(t)[..k]).Failed?
  {
    var s, q := Wire(t)[..k], Wire(t)[k..];
    assert Wire(t) + [] == s + q;
    ParseWireOne(t, []);
    if ParseTree(s).Parsed? {
      ParseExtendsOne(s, q);
    }
  }

  // ---- Deserialize rebuilds sorted siblings ----

  /** Siblings in the order in which repeated insertion leaves them. */
  function Sorted(t: Tree): (r: Tree)
    ensures r.name == t.name
    decreases t, 1
  {
    Node(t.name, t.value, AdoptAll([], t.kids))
  }

  /** Adds the sorted forms of ts, one after the other. */
  function AdoptAll(kids: seq<Tree>, ts: seq<Tree>): (r: seq<Tree>)
    decreases ts, 0
  {
    if ts == [] then kids else AdoptAll(Adopt(kids, Sorted(ts[0])), ts[1..])
  }

  lemma {:induction false} SlotLast(kids: seq<Tree>, key: Key)
    requires forall j :: 0 <= j < |kids| ==> Less(kids[j].name, key)
    ensures Slot(kids, key) == |kids|
  {}

  /** Sorting a well-formed trie changes nothing: children arrive in order and go last. */
  lemma {:induction false} SortedId(t: Tree)
    requires WellFormed(t)
    ensures Sorted(t) == t
    decreases t, 1
  {
    AdoptAllId(t, 0);
    assert t.kids[..0] == [] && t.kids[0..] == t.kids;
  }

  lemma {:induction false} AdoptAllId(t: Tree, j: nat)
    requires WellFormed(t) && j <= |t.kids|
    ensures AdoptAll(t.kids[..j], t.kids[j..]) == t.kids
    decreases t, 0, |t.kids| - j
  {
    hide Search, Slot;
    if j == |t.kids| {
      assert t.kids[..j] == t.kids && t.kids[j..] == [];
    } else {
      SortedId(t.kids[j]);
      forall i | 0 <= i < j
        ensures Less(t.kids[..j][i].name, t.kids[j].name)
      {
        assert t.kids[i].name[0] < t.kids[j].name[0];
      }
      SlotLast(t.kids[..j], t.kids[j].name);
      assert Adopt(t.kids[..j], t.kids[j]) == t.kids[..j + 1];
      assert t.kids[j..][0] == t.kids[j] && t.kids[j..][1..] == t.kids[j + 1..];
      AdoptAllId(t, j + 1);
    }
  }

  /** What Deserialize makes of any bytes. */
  datatype Decoded = Trie(root: Tree) | Rejected(failure: Failure)

  function Decode(s: seq<byte>): (r: Decoded)
  {
    match ParseTree(s)
    case Failed(e) => Rejected(e)
    case Parsed(ts, _) => Trie(Sorted(ts[0]))
  }

  /** Every well-formed trie survives the round trip, whatever follows it in the stream. */
  lemma {:induction false} RoundTrip(t: Tree, tail: seq<byte>)
    requires WellFormed(t) && Addressable(t)
    ensures Decode(Wire(t) + tail) == Trie(t)
    ensures ParseTree(Wire(t) + tail).rest == tail
  {
    ParseWireOne(t, tail);
    SortedId(t);
  }

  /** A child without a name decodes, and stops every later insertion but the one at the root. */
  lemma {:induction false} UnnamedChildDecodes(v: u64)
    ensures var t := Node([], 0, [Node([], v, [])]);
      && Decode(Wire(t)) == Trie(t)
      && forall key :: Walkable(t, key) <==> key == []
  {
    var kid := Node([], v, []);
    var t := Node([], 0, [kid]);
    assert Addressable(kid);
    ParseWireOne(t, []);
    assert Wire(t) + [] == Wire(t);
    assert Sorted(kid) == kid && [kid][1..] == [];
    SlotLast([], []);
    assert Adopt([], kid) == [kid];
    assert AdoptAll([], [kid]) == AdoptAll([kid], []);
    assert !Named(t.kids);
  }

  /** The bytes of two well-formed tries are equal only if the tries are. */
  lemma {:induction false} WireInjective(t: Tree, u: Tree)
    requires WellFormed(t) && Addressable(t) && WellFormed(u) && Addressable(u)
    requires Wire(t) == Wire(u)
    ensures t == u
  {
    RoundTrip(t, []);
    RoundTrip(u, []);
  }
}
