/** IterateRaw: the entries of a serialized trie, read off the stream without building the trie. */
module TrieStream {
  import opened Bytes
  import opened Streams
  import opened TrieModel
  import opened TrieEntries
  import opened TrieWire
  import V = Varint

  // ---- One node of the stream ----

  /** A node as it is read here; End is the end of the stream in front of a node. */
  datatype Raw = RawNode(named: bool, name: Key, value: u64, count: u64, rest: seq<byte>) | End | Bad(status: V.Status)

  /** A name that is cut short is no error here; a length that is no int reads as an empty name. */
  function RawName(s: seq<byte>, nameLen: u64): (name: seq<byte>)
    ensures |name| <= |s| && name == s[..|name|]
  {
    var n := if nameLen < TWO_63 then nameLen else 0;
    if n <= |s| then s[..n] else s
  }

  function ReadRaw(s: seq<byte>): (h: Raw)
    ensures h.RawNode? ==> |h.rest| < |s|
  {
    var r := V.Decode(s);
    if r.status.Eof? then End
    else if !r.status.Ok? then Bad(r.status)
    else
      V.DecodeCanonical(s);
      var s1 := s[r.used..];
      var name := RawName(s1, r.value);
      match ReadCounts(s1[|name|..])
      case NoCounts(e) => if e.Error? then Bad(e.status) else Bad(V.Eof)
      case Counts(value, count, rest) => RawNode(r.value != 0, name, value, count, rest)
  }

  lemma {:induction false} RawWhole(t: Tree, tail: seq<byte>)
    requires |t.name| < TWO_63 && |t.kids| < TWO_63
    ensures ReadRaw(HeadOf(t) + tail) == RawNode(t.name != [], t.name, t.value, |t.kids|, tail)
  {
    var b := V.Encode(|t.kids|) + tail;
    var a := V.Encode(t.value) + b;
    var s := V.Encode(|t.name|) + (t.name + a);
    assert s == HeadOf(t) + tail;
    V.RoundTrip(|t.name|, t.name + a);
    V.RoundTrip(t.value, b);
    V.RoundTrip(|t.kids|, tail);
    assert s[|V.Encode(|t.name|)|..] == t.name + a;
    assert RawName(t.name + a, |t.name|) == t.name;
    assert (t.name + a)[|t.name|..] == a;
    assert a[|V.Encode(t.value)|..] == b;
    assert b[|V.Encode(|t.kids|)|..] == tail;
  }

  /** The end of the stream inside a varint. */
  lemma {:induction false} VarintCut(x: u64, k: nat)
    requires k < |V.Encode(x)|
    ensures var st := V.Decode(V.Encode(x)[..k]).status; st == if k == 0 then V.Eof else V.UnexpectedEof
  {
    V.EncodeFits(x);
    V.PrefixFails(x, V.MAX_VARINT_LEN64, k);
  }

  lemma {:induction false} CountsCut(v: u64, c: u64, k: nat)
    requires k < |V.Encode(v) + V.Encode(c)|
    ensures ReadCounts((V.Encode(v) + V.Encode(c))[..k]).NoCounts?
  {
    var a, b := V.Encode(v), V.Encode(c);
    var s := (a + b)[..k];
    if k < |a| {
      assert s == a[..k];
      VarintCut(v, k);
    } else {
      assert s == a + b[..k - |a|];
      V.RoundTrip(v, b[..k - |a|]);
      VarintCut(c, k - |a|);
      assert s[|a|..] == b[..k - |a|];
    }
  }

  /** The end of the stream inside a node is an error, wherever it is. */
  lemma {:induction false} RawCut(t: Tree, k: nat)
    requires |t.name| < TWO_63 && |t.kids| < TWO_63 && 0 < k < |HeadOf(t)|
    ensures ReadRaw(HeadOf(t)[..k]).Bad?
  {
    hide V.Encode, V.Decode, ReadCounts;
    var a, n, b := V.Encode(|t.name|), t.name, V.Encode(t.value) + V.Encode(|t.kids|);
    assert HeadOf(t) == a + (n + b);
    if k < |a| {
      assert HeadOf(t)[..k] == a[..k];
      VarintCut(|t.name|, k);
    } else {
      assert HeadOf(t)[..k] == a + (n + b)[..k - |a|];
      NameCut(n, t.value, |t.kids|, k - |a|);
    }
  }

  /** The stream ends inside the name or inside the counts. */
  lemma {:induction false} NameCut(n: Key, v: u64, c: u64, k: nat)
    requires |n| < TWO_63 && k < |n + (V.Encode(v) + V.Encode(c))|
    ensures ReadRaw(V.Encode(|n|) + (n + (V.Encode(v) + V.Encode(c)))[..k]).Bad?
  {
    hide V.Encode, V.Decode, ReadCounts;
    var a, b := V.Encode(|n|), V.Encode(v) + V.Encode(c);
    var s := (n + b)[..k];
    V.RoundTrip(|n|, s);
    assert (a + s)[|a|..] == s;
    if k < |n| {
      assert RawName(s, |n|) == s && s[|s|..] == [];
      CountsEnd();
    } else {
      assert RawName(s, |n|) == n;
      assert s[|n|..] == b[..k - |n|];
      CountsCut(v, c, k - |n|);
    }
  }

  lemma {:induction false} CountsEnd()
    ensures ReadCounts([]).NoCounts?
  {}

  // ---- The nodes of a trie in the order of the stream ----

  /** A node of the stream: the length of its name, its own length, and what is reported for it. */
  datatype Step = Step(name: nat, bytes: nat, own: seq<Entry>)

  function Steps(t: Tree, pre: Key): (r: seq<Step>)
    ensures r != []
  {
    [Step(|t.name|, |HeadOf(t)|, if t.value > 0 then [(pre + t.name, t.value)] else [])] + StepsAll(t.kids, pre + t.name)
  }

  function StepsAll(ts: seq<Tree>, pre: Key): (r: seq<Step>)
  {
    if ts == [] then [] else Steps(ts[0], pre) + StepsAll(ts[1..], pre)
  }

  function Length(steps: seq<Step>): (n: nat)
  {
    if steps == [] then 0 else steps[0].bytes + Length(steps[1..])
  }

  function Reported(steps: seq<Step>): (es: seq<Entry>)
  {
    if steps == [] then [] else steps[0].own + Reported(steps[1..])
  }

  lemma {:induction false} LengthSplit(a: seq<Step>, b: seq<Step>)
    ensures Length(a + b) == Length(a) + Length(b) && Reported(a + b) == Reported(a) + Reported(b)
  {
    if a == [] {
      assert a + b == b;
    } else {
      assert (a + b)[1..] == a[1..] + b;
      LengthSplit(a[1..], b);
    }
  }

  /** All the nodes together are the serialized trie, and report what a traversal does. */
  lemma {:induction false} StepsWhole(t: Tree, pre: Key)
    ensures Length(Steps(t, pre)) == |Wire(t)| && Reported(Steps(t, pre)) == Entries(t, pre)
    decreases t, 1
  {
    StepsAllWhole(t.kids, pre + t.name);
    var first := Steps(t, pre)[0];
    assert Steps(t, pre)[1..] == StepsAll(t.kids, pre + t.name);
    assert |Wire(t)| == first.bytes + |WireAll(t.kids)|;
  }

  lemma {:induction false} StepsAllWhole(ts: seq<Tree>, pre: Key)
    ensures Length(StepsAll(ts, pre)) == |WireAll(ts)| && Reported(StepsAll(ts, pre)) == EntriesAll(ts, pre)
    decreases ts, 0
  {
    if ts != [] {
      StepsWhole(ts[0], pre);
      StepsAllWhole(ts[1..], pre);
      LengthSplit(Steps(ts[0], pre), StepsAll(ts[1..], pre));
    }
  }

  // ---- Names that are cut twice ----

  /** The lengths of the names, in preorder. */
  function Lengths(t: Tree): (ls: seq<nat>)
  {
    [|t.name|] + LengthsAll(t.kids)
  }

  function LengthsAll(ts: seq<Tree>): (ls: seq<nat>)
  {
    if ts == [] then [] else Lengths(ts[0]) + LengthsAll(ts[1..])
  }

  /** The length that was copied last, after names of these lengths. */
  function Carry(ls: seq<nat>, c: nat): (n: nat)
  {
    if ls == [] then c else Carry(ls[1..], if ls[0] > 0 then ls[0] else c)
  }

  /** The sum, over the nodes without a name, of the length that was copied last before them. */
  function Stale(ls: seq<nat>, c: nat): (n: nat)
  {
    if ls == [] then 0
    else if ls[0] > 0 then Stale(ls[1..], ls[0])
    else c + Stale(ls[1..], c)
  }

  /** The lengths of the names of some nodes of the stream. */
  function Names(steps: seq<Step>): (ls: seq<nat>)
    ensures |ls| == |steps| && forall i :: 0 <= i < |ls| ==> ls[i] == steps[i].name
  {
    seq(|steps|, i requires 0 <= i < |steps| => steps[i].name)
  }

  lemma {:induction false} NamesWhole(t: Tree, pre: Key)
    ensures Names(Steps(t, pre)) == Lengths(t)
    decreases t, 1
  {
    NamesAllWhole(t.kids, pre + t.name);
  }

  lemma {:induction false} NamesAllWhole(ts: seq<Tree>, pre: Key)
    ensures Names(StepsAll(ts, pre)) == LengthsAll(ts)
    decreases ts, 0
  {
    if ts != [] {
      NamesWhole(ts[0], pre);
      NamesAllWhole(ts[1..], pre);
    }
  }

  /** Nothing will be cut twice from node j on: a node without a name comes only while nothing was copied. */
  ghost predicate Fresh(t: Tree, buf: Key, j: nat, copied: nat)
  {
    j <= |Steps(t, buf)| && Stale(Names(Steps(t, buf)[j..]), copied) == 0
  }

  lemma {:induction false} FreshStart(t: Tree, buf: Key)
    requires Stale(Lengths(t), 0) == 0
    ensures Fresh(t, buf, 0, 0)
  {
    NamesWhole(t, buf);
    assert Steps(t, buf)[0..] == Steps(t, buf);
  }

  lemma {:induction false} FreshNext(t: Tree, buf: Key, j: nat, copied: nat)
    requires Fresh(t, buf, j, copied) && j < |Steps(t, buf)|
    ensures var n := Steps(t, buf)[j].name;
      (n == 0 ==> copied == 0) && Fresh(t, buf, j + 1, if n > 0 then n else copied)
  {
    hide Steps;
    var steps := Steps(t, buf);
    assert Names(steps[j..])[0] == steps[j].name;
    assert Names(steps[j..])[1..] == Names(steps[j + 1..]);
  }

  // ---- The state of the loop ----

  datatype Offset = Offset(descCount: int, suffixLen: int)

  /** One child less, in the arithmetic of an int. */
  function Minus(o: Offset): (r: Offset)
  {
    o.(descCount := if o.descCount == -TWO_63 then TWO_63 - 1 else o.descCount - 1)
  }

  /** An open node: its full key and the children that are still to come. */
  datatype Frame = Frame(rest: seq<Tree>, path: Key)

  ghost function LastOf(f: seq<Frame>): (r: Frame)
    requires f != []
  {
    f[|f| - 1]
  }

  ghost function WireLeft(f: seq<Frame>): (s: seq<byte>)
  {
    if f == [] then [] else WireAll(LastOf(f).rest) + WireLeft(f[..|f| - 1])
  }

  ghost function StepsLeft(f: seq<Frame>): (r: seq<Step>)
  {
    if f == [] then [] else StepsAll(LastOf(f).rest, LastOf(f).path) + StepsLeft(f[..|f| - 1])
  }

  ghost predicate Sound(ts: seq<Tree>)
  {
    forall j :: 0 <= j < |ts| ==> Addressable(ts[j])
  }

  lemma {:induction false} SoundTail(ts: seq<Tree>)
    requires Sound(ts) && ts != []
    ensures Sound(ts[1..]) && Addressable(ts[0])
  {}

  lemma {:induction false} SoundKids(t: Tree)
    requires Addressable(t)
    ensures Sound(t.kids) && |t.kids| < TWO_63
  {}

  /**
   * How the stack of offsets pictures the open nodes: frame 0 stands for the stream itself and
   * has no offset. An offset counts the children to come, and the open one; the root's count,
   * offset 0, is not kept.
   */
  ghost predicate Mirrors(f: seq<Frame>, offsets: seq<Offset>, b: Key)
  {
    && |f| == |offsets| + 1 && b == LastOf(f).path
    && (forall i :: 0 <= i < |f| ==> Sound(f[i].rest))
    && (forall i :: 0 <= i < |offsets| ==>
          f[i].path <= f[i + 1].path && offsets[i].suffixLen == |f[i + 1].path| - |f[i].path|)
    && (forall i :: 1 <= i < |offsets| ==>
          offsets[i].descCount == |f[i + 1].rest| + if i < |offsets| - 1 then 1 else 0)
    && (offsets != [] ==> f[0].rest == [])
  }

  /** Between two nodes: no finished node is open, except the root. */
  ghost predicate Settled(f: seq<Frame>, offsets: seq<Offset>, b: Key)
  {
    && Mirrors(f, offsets, b)
    && (|offsets| > 1 ==> LastOf(f).rest != [])
    && |f[0].rest| <= 1
  }

  /** The stack after the first child of the innermost open node has been taken. */
  ghost function Taken(f: seq<Frame>): (r: seq<Frame>)
    requires f != [] && LastOf(f).rest != []
  {
    f[..|f| - 1] + [Frame(LastOf(f).rest[1..], LastOf(f).path)]
  }

  lemma {:induction false} TopTree(f: seq<Frame>, offsets: seq<Offset>, b: Key)
    requires Settled(f, offsets, b) && WireLeft(f) != []
    ensures LastOf(f).rest != []
  {
    if |offsets| <= 1 {
      var g := f[..|f| - 1];
      assert g == if |offsets| == 0 then [] else [f[0]];
      assert g != [] ==> g[..|g| - 1] == [];
      assert WireLeft(g) == [];
    }
  }

  lemma {:induction false} TakenLeft(f: seq<Frame>, pre: Key)
    requires f != [] && LastOf(f).rest != [] && pre == LastOf(f).path
    ensures var t, g := LastOf(f).rest[0], Taken(f);
      && WireLeft(f) == HeadOf(t) + (WireAll(t.kids) + WireLeft(g))
      && StepsLeft(f) == [Steps(t, pre)[0]] + (StepsAll(t.kids, pre + t.name) + StepsLeft(g))
  {
    var g := Taken(f);
    assert g[..|g| - 1] == f[..|f| - 1];
    WireFirst(LastOf(f).rest, WireLeft(f[..|f| - 1]));
    StepsFirst(LastOf(f).rest, pre, StepsLeft(f[..|f| - 1]));
  }

  lemma {:induction false} WireFirst(ts: seq<Tree>, more: seq<byte>)
    requires ts != []
    ensures WireAll(ts) + more == HeadOf(ts[0]) + (WireAll(ts[0].kids) + (WireAll(ts[1..]) + more))
  {
    hide V.Encode;
    var h, a, b := HeadOf(ts[0]), WireAll(ts[0].kids), WireAll(ts[1..]);
    assert Wire(ts[0]) == h + a;
    assert (h + a) + b + more == h + (a + (b + more));
  }

  lemma {:induction false} StepsFirst(ts: seq<Tree>, pre: Key, more: seq<Step>)
    requires ts != []
    ensures StepsAll(ts, pre) + more ==
      [Steps(ts[0], pre)[0]] + (StepsAll(ts[0].kids, pre + ts[0].name) + (StepsAll(ts[1..], pre) + more))
  {
    hide HeadOf;
    var h, a, b := [Steps(ts[0], pre)[0]], StepsAll(ts[0].kids, pre + ts[0].name), StepsAll(ts[1..], pre);
    assert Steps(ts[0], pre) == h + a;
    assert (h + a) + b + more == h + (a + (b + more));
  }

  lemma {:induction false} PushedLeft(f: seq<Frame>, top: Frame)
    ensures WireLeft(f + [top]) == WireAll(top.rest) + WireLeft(f)
    ensures StepsLeft(f + [top]) == StepsAll(top.rest, top.path) + StepsLeft(f)
  {
    assert (f + [top])[..|f + [top]| - 1] == f;
  }

  lemma {:induction false} PoppedLeft(f: seq<Frame>)
    requires f != [] && LastOf(f).rest == []
    ensures WireLeft(f[..|f| - 1]) == WireLeft(f) && StepsLeft(f[..|f| - 1]) == StepsLeft(f)
  {}

  /** A node with children is opened. */
  lemma {:induction false} Opened(f: seq<Frame>, offsets: seq<Offset>, b: Key)
    requires Settled(f, offsets, b) && LastOf(f).rest != [] && LastOf(f).rest[0].kids != []
    ensures var t := LastOf(f).rest[0];
      Settled(Taken(f) + [Frame(t.kids, b + t.name)], offsets + [Offset(|t.kids|, |t.name|)], b + t.name)
  {
    hide Sound, Addressable, Taken;
    var t := LastOf(f).rest[0];
    SoundTail(LastOf(f).rest);
    SoundKids(t);
    TakenFrames(f);
    TakenSound(f);
    var n := |offsets|;
    assert f[n] == LastOf(f);
    OpenedFrames(f, Taken(f), offsets, b, t.kids, b + t.name);
  }

  lemma {:induction false} TakenSound(f: seq<Frame>)
    requires f != [] && LastOf(f).rest != [] && forall i :: 0 <= i < |f| ==> Sound(f[i].rest)
    ensures forall i :: 0 <= i < |Taken(f)| ==> Sound(Taken(f)[i].rest)
  {
    hide Addressable;
  }

  lemma {:induction false} OpenedFrames(f: seq<Frame>, g: seq<Frame>, offsets: seq<Offset>, b: Key, kids: seq<Tree>, path: Key)
    requires Settled(f, offsets, b) && |g| == |f| && kids != [] && b <= path && Sound(kids)
    requires forall i :: 0 <= i < |f| - 1 ==> g[i] == f[i]
    requires forall i :: 0 <= i < |f| ==> g[i].path == f[i].path && Sound(g[i].rest)
    requires f[|f| - 1].rest != [] && g[|f| - 1].rest == f[|f| - 1].rest[1..]
    ensures Settled(g + [Frame(kids, path)], offsets + [Offset(|kids|, |path| - |b|)], path)
  {
    hide Sound;
    var n := |offsets|;
    var h, os := g + [Frame(kids, path)], offsets + [Offset(|kids|, |path| - |b|)];
    assert h[n + 1] == Frame(kids, path) && h[n] == g[n] && os[n] == Offset(|kids|, |path| - |b|);
    forall i | 0 <= i <= n
      ensures h[i].path <= h[i + 1].path && os[i].suffixLen == |h[i + 1].path| - |h[i].path|
    {
      assert i < n ==> f[i].path <= f[i + 1].path && h[i] == g[i] && h[i + 1] == g[i + 1] && os[i] == offsets[i];
    }
    forall i | 1 <= i <= n
      ensures os[i].descCount == |h[i + 1].rest| + if i < n then 1 else 0
    {
      assert i < n ==> os[i] == offsets[i] && h[i + 1] == g[i + 1];
    }
  }

  /** A leaf is taken; the count of its parent, unless that is the root, goes down with it. */
  lemma {:induction false} LeafTaken(f: seq<Frame>, offsets: seq<Offset>, b: Key, now: seq<Offset>)
    requires Settled(f, offsets, b) && LastOf(f).rest != []
    requires now == if offsets == [] then [] else
      var i := |offsets| - 1; offsets[i := Minus(offsets[i])]
    ensures Mirrors(Taken(f), now, b)
  {
    hide Sound, Addressable;
    SoundTail(LastOf(f).rest);
    TakenFrames(f);
    hide Taken;
    var g, n := Taken(f), |offsets|;
    forall i | 0 <= i < n ensures g[i].path <= g[i + 1].path && now[i].suffixLen == |g[i + 1].path| - |g[i].path| {
      assert f[i].path <= f[i + 1].path;
    }
    forall i | 1 <= i < n ensures now[i].descCount == |g[i + 1].rest| + if i < n - 1 then 1 else 0 {}
  }

  lemma {:induction false} TakenFrames(f: seq<Frame>)
    requires f != [] && LastOf(f).rest != []
    ensures |Taken(f)| == |f| && LastOf(Taken(f)) == Frame(LastOf(f).rest[1..], LastOf(f).path)
    ensures forall i :: 0 <= i < |f| - 1 ==> Taken(f)[i] == f[i]
    ensures forall i :: 0 <= i < |f| ==> Taken(f)[i].path == f[i].path
  {}

  /** A node without further children is closed. */
  lemma {:induction false} Closed(f: seq<Frame>, offsets: seq<Offset>, b: Key, i: nat, now: seq<Offset>)
    requires Mirrors(f, offsets, b) && i + 1 == |offsets| && i > 0 && offsets[i].descCount == 0
    requires |now| == i
    requires forall j :: 0 <= j < i - 1 ==> now[j] == offsets[j]
    requires now[i - 1] == if i > 1 then Minus(offsets[i - 1]) else offsets[i - 1]
    ensures LastOf(f).rest == [] && 0 <= offsets[i].suffixLen <= |b|
    ensures Mirrors(f[..i + 1], now, b[..|b| - offsets[i].suffixLen])
  {
    hide Sound;
    assert f[i].path <= f[i + 1].path;
    var g := f[..i + 1];
    assert forall j :: 0 <= j <= i ==> g[j] == f[j];
    assert g[i].path == b[..|b| - offsets[i].suffixLen];
  }

  // ---- The loop ----

  datatype Outcome = Done | Stopped(status: V.Status) | Panicked

  type Call = (Key, i64)

  /** What the loop ends with, and the callbacks it made. */
  datatype Result = Result(out: Outcome, calls: seq<Call>)

  /** The offsets and the buffer; not ok when the buffer was to be cut by more than it holds. */
  datatype Stack = Stack(ok: bool, offsets: seq<Offset>, b: Key)

  /** Takes away the nodes that have no child left, up to the root, each with its part of the buffer. */
  function Close(offsets: seq<Offset>, b: Key): (r: Stack)
    decreases |offsets|
  {
    var i := |offsets| - 1;
    if i <= 0 || offsets[i].descCount != 0 then Stack(true, offsets, b)
    else if !(0 <= offsets[i].suffixLen <= |b|) then Stack(false, [], b)
    else
      var fewer := if i > 1 then offsets[..i][i - 1 := Minus(offsets[i - 1])] else offsets[..i];
      Close(fewer, b[..|b| - offsets[i].suffixLen])
  }

  /** The length of the name that is to be cut after a node: that of an unnamed one is the one before it. */
  function CopiedAfter(h: Raw, copied: nat): (n: nat)
    requires h.RawNode?
  {
    if h.named then |h.name| else copied
  }

  function BufferWith(h: Raw, b: Key): (r: Key)
    requires h.RawNode?
  {
    if h.named then b + h.name else b
  }

  /** A node with children stays open; one without is taken away, and all that are done with it. */
  function AfterNode(h: Raw, offsets: seq<Offset>, b: Key, copied: nat): (r: Stack)
    requires h.RawNode?
  {
    var now, n := BufferWith(h, b), CopiedAfter(h, copied);
    if h.count != 0 then Stack(true, offsets + [Offset(ToInt(h.count), n)], now)
    else if n > |now| then Stack(false, [], now)
    else if offsets == [] then Stack(true, [], now[..|now| - n])
    else
      var i := |offsets| - 1;
      Close(offsets[i := Minus(offsets[i])], now[..|now| - n])
  }

  function CallsWith(h: Raw, b: Key, calls: seq<Call>): (r: seq<Call>)
    requires h.RawNode?
  {
    if h.value > 0 then calls + [(BufferWith(h, b), ToInt(h.value))] else calls
  }

  /** What the loop does with any bytes s, node by node. */
  function Meaning(s: seq<byte>, offsets: seq<Offset>, b: Key, copied: nat, calls: seq<Call>): (r: Result)
    decreases |s|
  {
    match ReadRaw(s)
    case End => Result(Done, calls)
    case Bad(status) => Result(Stopped(status), calls)
    case RawNode(_, _, _, _, rest) =>
      var h, told := ReadRaw(s), CallsWith(ReadRaw(s), b, calls);
      var st := AfterNode(h, offsets, b, copied);
      if !st.ok then Result(Panicked, told) else Meaning(rest, st.offsets, st.b, CopiedAfter(h, copied), told)
  }

  /** The callback gets the count as an int. */
  function Signed(es: seq<Entry>): (r: seq<Call>)
    ensures |r| == |es| && forall i :: 0 <= i < |es| ==> r[i] == (es[i].0, ToInt(es[i].1))
  {
    seq(|es|, i requires 0 <= i < |es| => (es[i].0, ToInt(es[i].1)))
  }

  lemma {:induction false} SignedStep(steps: seq<Step>, j: nat)
    requires j < |steps|
    ensures Signed(Reported(steps[..j + 1])) == Signed(Reported(steps[..j])) + Signed(steps[j].own)
    ensures Length(steps[..j + 1]) == Length(steps[..j]) + steps[j].bytes
  {
    assert steps[..j + 1] == steps[..j] + [steps[j]];
    LengthSplit(steps[..j], [steps[j]]);
    assert Reported([steps[j]]) == steps[j].own + Reported([steps[j]][1..]);
    assert [steps[j]][1..] == [];
  }

  /**
   * The loop is in front of node j of the stream of t, of which k bytes are there: the stack
   * pictures the rest, and what was reported is what the first j nodes report.
   */
  ghost predicate InFront(t: Tree, buf: Key, k: nat, j: nat, f: seq<Frame>, rest: seq<byte>, calls: seq<Call>)
  {
    var steps := Steps(t, buf);
    && j <= |steps| && StepsLeft(f) == steps[j..] && rest <= WireLeft(f)
    && Length(steps[..j]) + |rest| == k
    && calls == Signed(Reported(steps[..j]))
  }

  lemma {:induction false} FrontStart(t: Tree, buf: Key, k: nat)
    requires Addressable(t) && k <= |Wire(t)|
    ensures Settled([Frame([t], buf)], [], buf)
    ensures InFront(t, buf, k, 0, [Frame([t], buf)], Wire(t)[..k], [])
  {
    var f := [Frame([t], buf)];
    assert f[..|f| - 1] == [] && [t][1..] == [];
    assert WireAll([t]) == Wire(t) + [];
    assert StepsAll([t], buf) == Steps(t, buf) + [];
    var steps := Steps(t, buf);
    assert steps[0..] == steps && steps[..0] == [];
  }

  lemma {:induction false} RawEnd()
    ensures ReadRaw([]) == End
  {}

  lemma {:induction false} NoSteps(pre: Key)
    ensures StepsAll([], pre) == []
  {}

  lemma {:induction false} FirstStep(t: Tree, pre: Key)
    ensures Steps(t, pre)[0] == Step(|t.name|, |HeadOf(t)|, if t.value > 0 then [(pre + t.name, t.value)] else [])
  {}

  /** What the next node of the stream is: the end, a node cut short, or a whole one. */
  lemma {:induction false} FrontRead(t: Tree, buf: Key, k: nat, j: nat, f: seq<Frame>, rest: seq<byte>, calls: seq<Call>,
                                     offsets: seq<Offset>, b: Key)
    requires InFront(t, buf, k, j, f, rest, calls) && Settled(f, offsets, b)
    ensures match ReadRaw(rest)
      case End => rest == []
      case Bad(_) => rest != [] && j < |Steps(t, buf)| && |rest| < Steps(t, buf)[j].bytes
      case RawNode(named, name, value, count, more) =>
        LastOf(f).rest != [] &&
        var x, g := LastOf(f).rest[0], Taken(f);
        && Addressable(x) && j < |Steps(t, buf)| && Steps(t, buf)[j].name == |x.name| && named == (x.name != []) && name == x.name && value == x.value && count == |x.kids|
        && InFront(t, buf, k, j + 1, if x.kids == [] then g else g + [Frame(x.kids, b + x.name)], more,
                   calls + if value > 0 then [(b + name, ToInt(value))] else [])
  {
    hide V.Encode, V.Decode, HeadOf, ReadRaw, Reported, Length, Steps, StepsAll;
    RawEnd();
    if rest != [] {
      TopTree(f, offsets, b);
      TakenLeft(f, b);
      var x, g := LastOf(f).rest[0], Taken(f);
      SoundTail(LastOf(f).rest);
      var head, steps := HeadOf(x), Steps(t, buf);
      assert steps[j] == steps[j..][0] == Steps(x, b)[0];
      FirstStep(x, b);
      if |rest| < |head| {
        assert rest == head[..|rest|];
        RawCut(x, |rest|);
      } else {
        var more := rest[|head|..];
        assert rest == head + more;
        RawWhole(x, more);
        FrontNext(t, buf, k, j, f, rest, calls, b);
      }
    }
  }

  /** A whole node has been read: the loop is in front of the next. */
  lemma {:induction false} FrontNext(t: Tree, buf: Key, k: nat, j: nat, f: seq<Frame>, rest: seq<byte>, calls: seq<Call>, b: Key)
    requires InFront(t, buf, k, j, f, rest, calls) && f != [] && LastOf(f).rest != [] && b == LastOf(f).path
    requires HeadOf(LastOf(f).rest[0]) <= rest
    ensures
      var x, g := LastOf(f).rest[0], Taken(f);
      InFront(t, buf, k, j + 1, if x.kids == [] then g else g + [Frame(x.kids, b + x.name)], rest[|HeadOf(x)|..],
              calls + if x.value > 0 then [(b + x.name, ToInt(x.value))] else [])
  {
    hide V.Encode, V.Decode, HeadOf, Reported, Length, Steps, StepsAll, Taken, Signed;
    TakenLeft(f, b);
    var x, g, steps := LastOf(f).rest[0], Taken(f), Steps(t, buf);
    var head, behind := HeadOf(x), WireAll(x.kids) + WireLeft(g);
    var own := if x.value > 0 then [(b + x.name, x.value)] else [];
    assert steps[j] == steps[j..][0] == Steps(x, b)[0];
    assert steps[j + 1..] == steps[j..][1..];
    FirstStep(x, b);
    SignedStep(steps, j);
    SignedOne(b + x.name, x.value);
    assert rest == head + rest[|head|..] && rest[|head|..] <= behind;
    PushedLeft(g, Frame(x.kids, b + x.name));
    NoSteps(b + x.name);
    assert x.kids == [] ==> behind == WireLeft(g) && StepsAll(x.kids, b + x.name) + StepsLeft(g) == StepsLeft(g);
  }

  lemma {:induction false} SignedOne(k: Key, v: u64)
    ensures Signed(if v > 0 then [(k, v)] else []) == if v > 0 then [(k, ToInt(v))] else []
  {}

  /** Closing finished nodes leaves the loop where it is. */
  lemma {:induction false} FrontClosed(t: Tree, buf: Key, k: nat, j: nat, f: seq<Frame>, rest: seq<byte>, calls: seq<Call>)
    requires InFront(t, buf, k, j, f, rest, calls) && f != [] && LastOf(f).rest == []
    ensures InFront(t, buf, k, j, f[..|f| - 1], rest, calls)
  {
    PoppedLeft(f);
  }

  /** At the end of the whole stream every node has been reported. */
  lemma {:induction false} FrontWhole(t: Tree, buf: Key, j: nat)
    requires j <= |Steps(t, buf)| && Length(Steps(t, buf)[..j]) <= |Wire(t)|
    requires j < |Steps(t, buf)| ==> |Wire(t)| < Length(Steps(t, buf)[..j + 1])
    ensures j == |Steps(t, buf)| && Length(Steps(t, buf)[..j]) == |Wire(t)|
    ensures Reported(Steps(t, buf)[..j]) == Entries(t, buf)
  {
    var steps := Steps(t, buf);
    StepsWhole(t, buf);
    if j < |steps| {
      assert steps == steps[..j + 1] + steps[j + 1..];
      LengthSplit(steps[..j + 1], steps[j + 1..]);
    }
    assert steps[..|steps|] == steps;
  }

  /** One node off the stream; an error or the end otherwise. */
  method TakeRaw(r: Reader) returns (h: Raw)
    modifies r
    ensures h == ReadRaw(old(r.rest)) && (h.RawNode? ==> r.rest == h.rest)
  {
    hide V.Decode;
    ghost var s := r.rest;
    var nameLen, err := V.Read(r);
    if err.Eof? { return End; }
    if !err.Ok? { return Bad(err); }
    ghost var s1 := r.rest;
    var name := [];
    if nameLen != 0 {
      name := r.ReadUpTo(if nameLen < TWO_63 then nameLen else 0);
    }
    assert name == RawName(s1, nameLen) && r.rest == s1[|name|..];
    var value, count;
    value, err := V.Read(r);
    if !err.Ok? { return Bad(err); }
    count, err := V.Read(r);
    if !err.Ok? { return Bad(err); }
    h := RawNode(nameLen != 0, name, value, count, r.rest);
  }

  /** bytes.Buffer.Truncate(b.Len() - n); it panics when n is not between 0 and the length. */
  method Cut(b: Key, n: int) returns (ok: bool, r: Key)
    ensures ok <==> 0 <= n <= |b|
    ensures ok ==> r == b[..|b| - n]
  {
    ok := 0 <= n <= |b|;
    r := if ok then b[..|b| - n] else b;
  }

  /** Cuts the suffixes of the nodes that have no child left, up to the root. */
  method CloseNodes(offsets0: seq<Offset>, b0: Key) returns (ok: bool, offsets: seq<Offset>, b: Key)
    ensures var st := Close(offsets0, b0); ok == st.ok && (ok ==> offsets == st.offsets && b == st.b)
  {
    offsets, b, ok := offsets0, b0, true;
    var i := |offsets| - 1;
    while i > 0
      invariant i == |offsets| - 1
      invariant Close(offsets, b) == Close(offsets0, b0)
    {
      if offsets[i].descCount != 0 { break; }
      ghost var before := offsets;
      ok, b := Cut(b, offsets[i].suffixLen);
      if !ok { return; }
      offsets := offsets[..i];
      var p := |offsets| - 1;
      if p > 0 {
        offsets := offsets[p := Minus(offsets[p])];
      }
      assert offsets == if i > 1 then before[..i][i - 1 := Minus(before[i - 1])] else before[..i];
      i := i - 1;
    }
  }

  /** IterateRaw, on any bytes: end, error or panic and the callbacks that the meaning of the bytes has. */
  method IterateRaw(r: Reader, buf: Key) returns (out: Outcome, calls: seq<Call>)
    modifies r
    ensures Result(out, calls) == Meaning(old(r.rest), [], buf, 0, [])
  {
    hide V.Decode, ReadRaw, Close;
    var b, offsets, copied: nat := buf, [], 0;
    calls := [];
    while true
      invariant Meaning(r.rest, offsets, b, copied, calls) == Meaning(old(r.rest), [], buf, 0, [])
      decreases |r.rest|
    {
      var h := TakeRaw(r);
      if !h.RawNode? {
        out := if h.End? then Done else Stopped(h.status);
        return;
      }
      if h.named {
        b := b + h.name;
        copied := |h.name|;
      }
      if h.value > 0 {
        calls := calls + [(b, ToInt(h.value))];
      }
      if h.count != 0 {
        offsets := offsets + [Offset(ToInt(h.count), copied)];
        continue;
      }
      var ok;
      ok, b := Cut(b, copied);
      if !ok { return Panicked, calls; }
      var i := |offsets| - 1;
      if i < 0 { continue; }
      offsets := offsets[i := Minus(offsets[i])];
      ok, offsets, b := CloseNodes(offsets, b);
      if !ok { return Panicked, calls; }
    }
  }

  lemma {:induction false} SettledNow(f: seq<Frame>, offsets: seq<Offset>, b: Key)
    requires Mirrors(f, offsets, b) && (|offsets| > 1 ==> LastOf(f).rest != []) && f[0].rest == []
    ensures Settled(f, offsets, b)
  {}

  lemma {:induction false} SettledParts(f: seq<Frame>, offsets: seq<Offset>, b: Key)
    requires Settled(f, offsets, b)
    ensures |f| == |offsets| + 1 && (LastOf(f).rest != [] && |f| == 1 ==> |f[0].rest| == 1)
    ensures |f| > 1 ==> f[0].rest == []
  {}

  /** Where the loop stops in front of node j of the stream of t, when k bytes of it are there. */
  ghost predicate StoppedAt(t: Tree, buf: Key, k: nat, j: nat, out: Outcome, calls: seq<Call>)
  {
    var steps := Steps(t, buf);
    && j <= |steps| && Length(steps[..j]) <= k && (j < |steps| ==> k < Length(steps[..j + 1]))
    && calls == Signed(Reported(steps[..j]))
    && !out.Panicked? && (out.Done? <==> k == Length(steps[..j]))
  }

  lemma {:induction false} FrontStops(t: Tree, buf: Key, k: nat, j: nat, f: seq<Frame>, rest: seq<byte>, calls: seq<Call>, out: Outcome)
    requires InFront(t, buf, k, j, f, rest, calls) && !out.Panicked?
    requires if out.Done? then rest == [] else rest != [] && j < |Steps(t, buf)| && |rest| < Steps(t, buf)[j].bytes
    ensures StoppedAt(t, buf, k, j, out, calls)
  {
    var steps := Steps(t, buf);
    if j < |steps| {
      SignedStep(steps, j);
      StepsPositive(t, buf);
    }
  }

  lemma {:induction false} StepsPositive(t: Tree, pre: Key)
    ensures forall i :: 0 <= i < |Steps(t, pre)| ==> Steps(t, pre)[i].bytes > 0
    decreases t, 1
  {
    StepsAllPositive(t.kids, pre + t.name);
  }

  lemma {:induction false} StepsAllPositive(ts: seq<Tree>, pre: Key)
    ensures forall i :: 0 <= i < |StepsAll(ts, pre)| ==> StepsAll(ts, pre)[i].bytes > 0
    decreases ts, 0
  {
    if ts != [] {
      StepsPositive(ts[0], pre);
      StepsAllPositive(ts[1..], pre);
    }
  }

  lemma {:induction false} MirrorsTop(f: seq<Frame>, offsets: seq<Offset>, b: Key)
    requires Mirrors(f, offsets, b)
    ensures |f| == |offsets| + 1
    ensures |offsets| > 1 && offsets[|offsets| - 1].descCount != 0 ==> LastOf(f).rest != []
  {
    hide Sound;
  }

  /** Taking finished nodes away leaves the picture of the rest. */
  lemma {:induction false} CloseGood(t: Tree, buf: Key, k: nat, j: nat, f0: seq<Frame>, rest: seq<byte>, calls: seq<Call>,
                                     offsets: seq<Offset>, b: Key) returns (f: seq<Frame>)
    requires offsets != [] && Mirrors(f0, offsets, b) && InFront(t, buf, k, j, f0, rest, calls)
    ensures
      var st := Close(offsets, b);
      && st.ok && st.offsets != [] && Mirrors(f, st.offsets, st.b) && (|st.offsets| > 1 ==> LastOf(f).rest != [])
      && InFront(t, buf, k, j, f, rest, calls) && f[0] == f0[0]
    decreases |offsets|
  {
    hide InFront, Mirrors;
    f := f0;
    var i := |offsets| - 1;
    MirrorsTop(f0, offsets, b);
    if i > 0 && offsets[i].descCount == 0 {
      var fewer := if i > 1 then offsets[..i][i - 1 := Minus(offsets[i - 1])] else offsets[..i];
      Closed(f0, offsets, b, i, fewer);
      FrontClosed(t, buf, k, j, f0, rest, calls);
      f := CloseGood(t, buf, k, j, f0[..i + 1], rest, calls, fewer, b[..|b| - offsets[i].suffixLen]);
    }
  }

  /** From in front of a node of the stream of t, the meaning of what is left stops where it should. */
  lemma {:induction false} TraceWire(t: Tree, buf: Key, k: nat, j: nat, f: seq<Frame>, rest: seq<byte>, calls: seq<Call>,
                                     offsets: seq<Offset>, b: Key, copied: nat) returns (m: nat)
    requires InFront(t, buf, k, j, f, rest, calls) && Settled(f, offsets, b) && Fresh(t, buf, j, copied)
    ensures var x := Meaning(rest, offsets, b, copied, calls); StoppedAt(t, buf, k, m, x.out, x.calls)
    decreases |rest|, 0
  {
    hide InFront, Settled, Sound, StoppedAt, Close, V.Decode, ReadRaw, Taken, Addressable, Fresh, Steps;
    FrontRead(t, buf, k, j, f, rest, calls, offsets, b);
    SettledParts(f, offsets, b);
    var h := ReadRaw(rest);
    if !h.RawNode? {
      m := j;
      FrontStops(t, buf, k, j, f, rest, calls, Meaning(rest, offsets, b, copied, calls).out);
    } else {
      var x, now, told := LastOf(f).rest[0], BufferWith(h, b), CallsWith(h, b, calls);
      FreshNext(t, buf, j, copied);
      assert CopiedAfter(h, copied) == |x.name|;
      SettledPath(f, offsets, b);
      assert now == b + h.name && told == calls + if h.value > 0 then [(b + h.name, ToInt(h.value))] else [];
      if h.count != 0 {
        Opened(f, offsets, b);
        SoundKids(x);
        IntOf(h.count);
        m := TraceWire(t, buf, k, j + 1, Taken(f) + [Frame(x.kids, b + x.name)], h.rest, told,
                       offsets + [Offset(|x.kids|, |x.name|)], now, CopiedAfter(h, copied));
      } else {
        assert now[..|now| - |h.name|] == b;
        TakenFirst(f);
        m := TraceLeaf(t, buf, k, j + 1, f, h.rest, told, offsets, b, CopiedAfter(h, copied));
      }
    }
  }

  /** The same from behind a leaf. */
  lemma {:induction false} TraceLeaf(t: Tree, buf: Key, k: nat, j: nat, f: seq<Frame>, rest: seq<byte>, calls: seq<Call>,
                                     offsets: seq<Offset>, b: Key, now: nat) returns (m: nat)
    requires Settled(f, offsets, b) && LastOf(f).rest != [] && InFront(t, buf, k, j, Taken(f), rest, calls)
    requires Fresh(t, buf, j, now)
    ensures
      var st := if offsets == [] then Stack(true, [], b)
                else Close(offsets[|offsets| - 1 := Minus(offsets[|offsets| - 1])], b);
      st.ok && var x := Meaning(rest, st.offsets, st.b, now, calls); StoppedAt(t, buf, k, m, x.out, x.calls)
    decreases |rest|, 1
  {
    hide InFront, Settled, Sound, StoppedAt, Close, V.Decode, ReadRaw, Taken, Meaning, Mirrors, Fresh;
    SettledParts(f, offsets, b);
    TakenFirst(f);
    if offsets == [] {
      LeafTaken(f, offsets, b, []);
      SettledNow(Taken(f), [], b);
      m := TraceWire(t, buf, k, j, Taken(f), rest, calls, [], b, now);
    } else {
      var fewer := offsets[|offsets| - 1 := Minus(offsets[|offsets| - 1])];
      LeafTaken(f, offsets, b, fewer);
      var g := CloseGood(t, buf, k, j, Taken(f), rest, calls, fewer, b);
      var st := Close(fewer, b);
      SettledNow(g, st.offsets, st.b);
      m := TraceWire(t, buf, k, j, g, rest, calls, st.offsets, st.b, now);
    }
  }

  lemma {:induction false} SettledPath(f: seq<Frame>, offsets: seq<Offset>, b: Key)
    requires Settled(f, offsets, b)
    ensures b == LastOf(f).path
  {}

  /**
   * The bytes of a tree in which no name comes before a node without one, cut anywhere: the
   * callbacks are those of the nodes that are there in full, and there is no error exactly when
   * the cut is between two nodes.
   */
  lemma {:induction false} WireCut(t: Tree, buf: Key, k: nat) returns (j: nat)
    requires Addressable(t) && Stale(Lengths(t), 0) == 0 && k <= |Wire(t)|
    ensures var x := Meaning(Wire(t)[..k], [], buf, 0, []); StoppedAt(t, buf, k, j, x.out, x.calls)
  {
    hide *;
    FrontStart(t, buf, k);
    FreshStart(t, buf);
    j := TraceWire(t, buf, k, 0, [Frame([t], buf)], Wire(t)[..k], [], [], buf, 0);
  }

  /** The whole bytes: no error, and the callbacks of a traversal in the same order, behind the initial buffer. */
  lemma {:induction false} WireWhole(t: Tree, buf: Key)
    requires Addressable(t) && Stale(Lengths(t), 0) == 0
    ensures Meaning(Wire(t), [], buf, 0, []) == Result(Done, Signed(Entries(t, buf)))
  {
    hide Meaning, Steps, Signed, Entries, Wire, Addressable, Stale, Lengths;
    var j := WireCut(t, buf, |Wire(t)|);
    assert Wire(t)[..|Wire(t)|] == Wire(t);
    FrontWhole(t, buf, j);
  }

  // ---- Any bytes ----

  /** A node without a name comes only while nothing was copied: then its cut is of nothing. */
  ghost predicate NeverStale(s: seq<byte>, copied: nat)
    decreases |s|
  {
    var h := ReadRaw(s);
    h.RawNode? ==> (h.named || copied == 0) && NeverStale(h.rest, CopiedAfter(h, copied))
  }

  /** What is to be cut when the open nodes are done. */
  function Owed(offsets: seq<Offset>): (n: int)
  {
    if offsets == [] then 0 else Owed(offsets[..|offsets| - 1]) + offsets[|offsets| - 1].suffixLen
  }

  /** The buffer has what is owed. */
  ghost predicate Backed(offsets: seq<Offset>, b: Key)
  {
    (forall i :: 0 <= i < |offsets| ==> offsets[i].suffixLen >= 0) && Owed(offsets) <= |b|
  }

  lemma {:induction false} OwedPositive(offsets: seq<Offset>)
    requires forall i :: 0 <= i < |offsets| ==> offsets[i].suffixLen >= 0
    ensures Owed(offsets) >= 0
  {
    if offsets != [] { OwedPositive(offsets[..|offsets| - 1]); }
  }

  lemma {:induction false} OwedMinus(offsets: seq<Offset>)
    requires offsets != []
    ensures var i := |offsets| - 1; Owed(offsets[i := Minus(offsets[i])]) == Owed(offsets)
  {
    var i := |offsets| - 1;
    assert offsets[i := Minus(offsets[i])][..i] == offsets[..i];
  }

  lemma {:induction false} CloseBacked(offsets: seq<Offset>, b: Key)
    requires Backed(offsets, b)
    ensures Close(offsets, b).ok && Backed(Close(offsets, b).offsets, Close(offsets, b).b)
    decreases |offsets|
  {
    var i := |offsets| - 1;
    if i > 0 && offsets[i].descCount == 0 {
      OwedPositive(offsets[..i]);
      OwedMinus(offsets[..i]);
      var fewer := if i > 1 then offsets[..i][i - 1 := Minus(offsets[i - 1])] else offsets[..i];
      CloseBacked(fewer, b[..|b| - offsets[i].suffixLen]);
    }
  }

  lemma {:induction false} NodeBacked(h: Raw, offsets: seq<Offset>, b: Key, copied: nat)
    requires h.RawNode? && Backed(offsets, b) && (h.named || copied == 0)
    ensures var st := AfterNode(h, offsets, b, copied); st.ok && Backed(st.offsets, st.b)
  {
    hide Close;
    var now, n := BufferWith(h, b), CopiedAfter(h, copied);
    OwedPositive(offsets);
    if h.count != 0 {
      var more := offsets + [Offset(ToInt(h.count), n)];
      assert more[..|more| - 1] == offsets;
    } else if offsets != [] {
      var i := |offsets| - 1;
      OwedMinus(offsets);
      CloseBacked(offsets[i := Minus(offsets[i])], now[..|now| - n]);
    }
  }

  /** Bytes in which no node without a name follows one with a name never end in a panic. */
  lemma {:induction false} NeverPanics(s: seq<byte>, offsets: seq<Offset>, b: Key, copied: nat, calls: seq<Call>)
    requires NeverStale(s, copied) && Backed(offsets, b)
    ensures !Meaning(s, offsets, b, copied, calls).out.Panicked?
    decreases |s|
  {
    hide ReadRaw, AfterNode, Backed;
    var h := ReadRaw(s);
    if h.RawNode? {
      NodeBacked(h, offsets, b, copied);
      var st := AfterNode(h, offsets, b, copied);
      NeverPanics(h.rest, st.offsets, st.b, CopiedAfter(h, copied), CallsWith(h, b, calls));
    }
  }

  /** Any others may: a child with a name and then one without, under a root, with nothing in the buffer. */
  lemma {:induction false} UnnamedChildPanics(n: Key)
    requires 0 < |n| < TWO_63
    ensures
      var t := Node([], 0, [Node(n, 0, []), Node([], 0, [])]);
      Meaning(Wire(t), [], [], 0, []) == Result(Panicked, [])
  {
    hide ReadRaw, V.Encode;
    var x, y := Node(n, 0, []), Node([], 0, []);
    var t := Node([], 0, [x, y]);
    assert WireAll([]) == [] && [x, y][1..] == [y] && [y][1..] == [];
    assert WireAll([y]) == HeadOf(y) + [];
    assert WireAll([x, y]) == HeadOf(x) + HeadOf(y);
    RawWhole(t, HeadOf(x) + HeadOf(y));
    RawWhole(x, HeadOf(y));
    RawWhole(y, []);
    assert HeadOf(y) + [] == HeadOf(y);
    assert Wire(t) == HeadOf(t) + (HeadOf(x) + HeadOf(y));
    assert [] + n == n && n[..0] == [];
    assert [Offset(2, 0)][0 := Minus(Offset(2, 0))] == [Offset(1, 0)];
    assert AfterNode(ReadRaw(HeadOf(x) + HeadOf(y)), [Offset(2, 0)], [], 0) == Stack(true, [Offset(1, 0)], []);
    assert Meaning(HeadOf(y), [Offset(1, 0)], [], |n|, []) == Result(Panicked, []);
    assert Meaning(HeadOf(x) + HeadOf(y), [Offset(2, 0)], [], 0, []) == Result(Panicked, []);
    assert [] + [Offset(2, 0)] == [Offset(2, 0)];
    assert AfterNode(ReadRaw(Wire(t)), [], [], 0) == Stack(true, [Offset(2, 0)], []);
  }

  lemma {:induction false} IntOf(v: u64)
    requires v < TWO_63
    ensures ToInt(v) == v
  {}

  lemma {:induction false} TakenFirst(f: seq<Frame>)
    requires f != [] && LastOf(f).rest != []
    ensures |Taken(f)| == |f|
    ensures |f| > 1 ==> Taken(f)[0] == f[0]
    ensures |f| == 1 && |f[0].rest| == 1 ==> Taken(f)[0].rest == []
  {}
}
