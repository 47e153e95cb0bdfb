/** IterateRaw on the bytes of any tree, with nodes that have no name: when it panics. */
module TriePanics {
  import opened Bytes
  import opened TrieModel
  import opened TrieWire
  import opened TrieStream
  import V = Varint

  // ---- What is cut too much ----

  lemma {:induction false} StaleSplit(a: seq<nat>, b: seq<nat>, c: nat)
    ensures Stale(a + b, c) == Stale(a, c) + Stale(b, Carry(a, c))
    ensures Carry(a + b, c) == Carry(b, Carry(a, c))
  {
    if a == [] {
      assert a + b == b;
    } else {
      assert (a + b)[1..] == a[1..] + b;
      StaleSplit(a[1..], b, if a[0] > 0 then a[0] else c);
    }
  }

  /** Something is cut too much exactly when a node without a name comes after a name. */
  lemma {:induction false} StaleExactly(ls: seq<nat>, c: nat)
    ensures Stale(ls, c) > 0 <==>
      exists j :: 0 <= j < |ls| && ls[j] == 0 && (c > 0 || exists i :: 0 <= i < j && ls[i] > 0)
  {
    if ls != [] {
      var n := if ls[0] > 0 then ls[0] else c;
      StaleExactly(ls[1..], n);
      if Stale(ls[1..], n) > 0 {
        var j :| 0 <= j < |ls[1..]| && ls[1..][j] == 0 && (n > 0 || exists i :: 0 <= i < j && ls[1..][i] > 0);
        assert ls[j + 1] == 0;
        if ls[0] == 0 && c == 0 {
          var i :| 0 <= i < j && ls[1..][i] > 0;
          assert ls[i + 1] > 0;
        }
      }
      forall j | 0 <= j < |ls| && ls[j] == 0 && (c > 0 || exists i :: 0 <= i < j && ls[i] > 0)
        ensures Stale(ls, c) > 0
      {
        if j > 0 {
          assert ls[1..][j - 1] == 0;
          if n == 0 {
            var i :| 0 <= i < j && ls[i] > 0;
            assert ls[1..][i - 1] > 0;
          }
        }
      }
    }
  }

  // ---- The outcome alone ----

  function Out(s: seq<byte>, offsets: seq<Offset>, b: Key, copied: nat): (out: Outcome)
  {
    Meaning(s, offsets, b, copied, []).out
  }

  /** The outcome behind a node that left the stack st. */
  function Then(st: Stack, s: seq<byte>, copied: nat): (out: Outcome)
  {
    if !st.ok then Panicked else Out(s, st.offsets, st.b, copied)
  }

  lemma {:induction false} CallsDoNotMatter(s: seq<byte>, offsets: seq<Offset>, b: Key, copied: nat, calls: seq<Call>, told: seq<Call>)
    ensures Meaning(s, offsets, b, copied, calls).out == Meaning(s, offsets, b, copied, told).out
    decreases |s|
  {
    hide ReadRaw, AfterNode;
    var h := ReadRaw(s);
    if h.RawNode? {
      var st := AfterNode(h, offsets, b, copied);
      CallsDoNotMatter(h.rest, st.offsets, st.b, CopiedAfter(h, copied), CallsWith(h, b, calls), CallsWith(h, b, told));
    }
  }

  lemma {:induction false} OutUnfold(s: seq<byte>, offsets: seq<Offset>, b: Key, copied: nat)
    ensures var h := ReadRaw(s);
      h.RawNode? ==> Out(s, offsets, b, copied) == Then(AfterNode(h, offsets, b, copied), h.rest, CopiedAfter(h, copied))
  {
    hide ReadRaw, AfterNode;
    var h := ReadRaw(s);
    if h.RawNode? {
      var st := AfterNode(h, offsets, b, copied);
      CallsDoNotMatter(h.rest, st.offsets, st.b, CopiedAfter(h, copied), CallsWith(h, b, []), []);
    }
  }

  /** The head of a node that was written. */
  lemma {:induction false} OutHead(t: Tree, tail: seq<byte>, offsets: seq<Offset>, b: Key, copied: nat)
    requires |t.name| < TWO_63 && |t.kids| < TWO_63
    ensures
      var n := if t.name != [] then |t.name| else copied;
      Out(HeadOf(t) + tail, offsets, b, copied) ==
        if t.kids != [] then Out(tail, offsets + [Offset(|t.kids|, n)], b + t.name, n)
        else if n > |b + t.name| then Panicked
        else if offsets == [] then Out(tail, [], (b + t.name)[..|b + t.name| - n], n)
        else Then(Close(offsets[|offsets| - 1 := Minus(offsets[|offsets| - 1])], (b + t.name)[..|b + t.name| - n]), tail, n)
  {
    hide ReadRaw, Meaning, Close, V.Encode, HeadOf;
    var s := HeadOf(t) + tail;
    RawWhole(t, tail);
    OutUnfold(s, offsets, b, copied);
    assert b + t.name == if t.name != [] then b + t.name else b;
  }

  // ---- The children of a node ----

  /** The innermost open node has n children to come; those of the root are not counted. */
  predicate Awaits(offsets: seq<Offset>, n: nat)
  {
    offsets != [] && (|offsets| > 1 ==> offsets[|offsets| - 1].descCount == n)
  }

  /** The same open nodes, up to the number of children that are to come in the innermost one. */
  predicate Alike(offsets: seq<Offset>, now: seq<Offset>)
  {
    && offsets != [] && |now| == |offsets| && now[..|now| - 1] == offsets[..|offsets| - 1]
    && now[|now| - 1].suffixLen == offsets[|offsets| - 1].suffixLen
  }

  /** From in front of some nodes: the panic, or the outcome from behind them, with too much cut off the buffer. */
  predicate Past(out: Outcome, offsets: seq<Offset>, b: Key, cut: nat, tail: seq<byte>, copied: nat)
  {
    out == if |b| < cut then Panicked else Then(Close(offsets, b[..|b| - cut]), tail, copied)
  }

  lemma {:induction false} PastChild(t: Tree, tail: seq<byte>, offsets: seq<Offset>, b: Key, c: nat) returns (now: seq<Offset>)
    requires Addressable(t) && offsets != [] && (|offsets| > 1 ==> offsets[|offsets| - 1].descCount > -TWO_63)
    ensures Alike(offsets, now)
    ensures |offsets| > 1 ==> now[|now| - 1].descCount == offsets[|offsets| - 1].descCount - 1
    ensures Past(Out(Wire(t) + tail, offsets, b, c), now, b, Stale(Lengths(t), c), tail, Carry(Lengths(t), c))
    decreases t, 1
  {
    hide Out, Close, HeadOf, Wire, Stale, Carry;
    var i, n, all := |offsets| - 1, if t.name != [] then |t.name| else c, b + t.name;
    LengthsStep(t, c);
    WireHead(t, tail);
    OutHead(t, WireAll(t.kids) + tail, offsets, b, c);
    now := offsets[i := Minus(offsets[i])];
    if t.kids == [] {
      assert WireAll(t.kids) + tail == tail;
      assert n <= |all| ==> all[..|all| - n] == b[..|all| - n];
      StaleNone(n);
    } else {
      var open := offsets + [Offset(|t.kids|, n)];
      var closed := PastChildren(t.kids, tail, open, all, n);
      var cut := Stale(LengthsAll(t.kids), n);
      assert closed == offsets + [Offset(0, n)];
      if |all| >= cut {
        CloseOne(offsets, n, all[..|all| - cut]);
        if i == 0 { now := offsets; }
        if n <= |all| - cut {
          assert all[..|all| - cut][..|all| - cut - n] == b[..|all| - cut - n];
        }
      }
    }
  }

  lemma {:induction false} PastChildren(ts: seq<Tree>, tail: seq<byte>, offsets: seq<Offset>, b: Key, c: nat)
    returns (now: seq<Offset>)
    requires (forall i :: 0 <= i < |ts| ==> Addressable(ts[i])) && ts != [] && Awaits(offsets, |ts|)
    ensures Alike(offsets, now) && Awaits(now, 0)
    ensures Past(Out(WireAll(ts) + tail, offsets, b, c), now, b, Stale(LengthsAll(ts), c), tail, Carry(LengthsAll(ts), c))
    decreases ts, 0
  {
    hide Out, Close, Wire, Stale, Carry, Lengths;
    var t, more := ts[0], WireAll(ts[1..]) + tail;
    assert WireAll(ts) + tail == Wire(t) + more;
    StaleSplit(Lengths(t), LengthsAll(ts[1..]), c);
    now := PastChild(t, more, offsets, b, c);
    var cut, n := Stale(Lengths(t), c), Carry(Lengths(t), c);
    if ts[1..] == [] {
      assert more == tail;
      StaleNone(n);
    } else if |b| >= cut {
      var left := b[..|b| - cut];
      CloseNone(now, left);
      var was := now;
      now := PastChildren(ts[1..], tail, was, left, n);
      var rest := Stale(LengthsAll(ts[1..]), n);
      assert |left| >= rest ==> left[..|left| - rest] == b[..|b| - cut - rest];
    } else {
      now := PastChildren(ts[1..], tail, now, b, n);
    }
  }

  lemma {:induction false} LengthsStep(t: Tree, c: nat)
    ensures var n := if t.name != [] then |t.name| else c;
      && Carry(Lengths(t), c) == Carry(LengthsAll(t.kids), n)
      && Stale(Lengths(t), c) == (if t.name != [] then 0 else c) + Stale(LengthsAll(t.kids), n)
  {
    assert Lengths(t)[1..] == LengthsAll(t.kids);
  }

  lemma {:induction false} StaleNone(c: nat)
    ensures LengthsAll([]) == [] && Stale([], c) == 0 && Carry([], c) == c
  {}

  lemma {:induction false} WireHead(t: Tree, tail: seq<byte>)
    ensures Wire(t) + tail == HeadOf(t) + (WireAll(t.kids) + tail)
  {
    hide HeadOf;
  }

  /** A node with a child to come, or the root, is not closed. */
  lemma {:induction false} CloseNone(offsets: seq<Offset>, b: Key)
    requires offsets != [] && (|offsets| > 1 ==> offsets[|offsets| - 1].descCount != 0)
    ensures Close(offsets, b) == Stack(true, offsets, b)
  {}

  /** A node whose children have all been read is closed. */
  lemma {:induction false} CloseOne(offsets: seq<Offset>, n: nat, b: Key)
    requires offsets != []
    ensures
      var i := |offsets| - 1;
      Close(offsets + [Offset(0, n)], b) ==
        if n > |b| then Stack(false, [], b)
        else Close(if i > 0 then offsets[i := Minus(offsets[i])] else offsets, b[..|b| - n])
  {
    var all := offsets + [Offset(0, n)];
    assert all[..|offsets|] == offsets;
  }

  /**
   * The bytes of any tree: IterateRaw panics exactly when more is cut off for nodes without a name
   * than the buffer and the name of the root have, and ends without an error otherwise.
   */
  lemma {:induction false} PanicsExactly(t: Tree, buf: Key)
    requires Addressable(t)
    ensures
      var out := Meaning(Wire(t), [], buf, 0, []).out;
      (out.Panicked? <==> |buf| + |t.name| < Stale(Lengths(t), 0)) && (out.Panicked? || out.Done?)
  {
    hide Meaning, Close, HeadOf, Wire, WireAll, Stale, Carry, ReadRaw;
    var all := buf + t.name;
    var n := |t.name|;
    assert Wire(t) + [] == Wire(t);
    WireHead(t, []);
    LengthsStep(t, 0);
    OutHead(t, WireAll(t.kids) + [], [], buf, 0);
    if t.kids == [] {
      NoChildren();
      StaleNone(n);
      AtEnd([], all[..|all| - n], n);
    } else {
      var open := [Offset(|t.kids|, n)];
      assert [] + open == open;
      var closed := PastChildren(t.kids, [], open, all, n);
      var cut := Stale(LengthsAll(t.kids), n);
      if |all| >= cut {
        CloseNone(closed, all[..|all| - cut]);
        AtEnd(closed, all[..|all| - cut], Carry(LengthsAll(t.kids), n));
      }
    }
  }

  lemma {:induction false} NoChildren()
    ensures WireAll([]) + [] == []
  {}

  lemma {:induction false} AtEnd(offsets: seq<Offset>, b: Key, copied: nat)
    ensures Out([], offsets, b, copied) == Done
  {
    RawEnd();
  }

  /** With nothing in the buffer and no name at the root: exactly when a node without a name comes after one with a name. */
  lemma {:induction false} PanicsAfterName(t: Tree)
    requires Addressable(t) && t.name == []
    ensures Meaning(Wire(t), [], [], 0, []).out == Panicked <==>
      exists i, j :: 0 <= i < j < |Lengths(t)| && Lengths(t)[i] > 0 && Lengths(t)[j] == 0
  {
    hide Meaning, Stale, Wire, Lengths;
    PanicsExactly(t, []);
    StaleExactly(Lengths(t), 0);
  }
}
