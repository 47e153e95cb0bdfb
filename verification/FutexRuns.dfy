/** Runs on which the futex tracer does not tell what it is meant to, and exactly when it does. */
module FutexRuns {
  import opened Bytes
  import opened Options
  import opened HashMaps
  import opened FutexModel
  import opened FutexHist

  /** No filter is set. */
  predicate Open(args: Args)
  {
    args.targPid == 0 && args.targTid == 0 && args.targLock == 0 && !args.stack
  }

  /** A thread waits for a lock from one time to another. */
  function Waiting(k: HistKey, from: u64, to: u64): (calls: seq<Call>)
  {
    [Enter(0, k.uaddr, k.pidTgid, from, ""), Exit(0, 0, k.pidTgid, to, "")]
  }

  /** Nobody waits, and at most one lock and thread have been seen. */
  ghost predicate Quiet(s: State, k: HistKey)
  {
    s.start == map[] && s.hists.Keys <= {k}
  }

  lemma {:induction false} QuietRoom(s: State, k: HistKey)
    requires Quiet(s, k)
    ensures Room(s.start, k.pidTgid) && Room(s.hists, k)
  {
    if k !in s.hists { assert s.hists.Keys == {}; }
  }

  /** One more wait is recorded, and nobody waits after it. */
  lemma {:induction false} OneMoreWait(args: Args, atomic: bool, calls: seq<Call>, k: HistKey, from: u64, to: u64)
    requires Open(args) && k.userStackId == 0 && Quiet(Run(args, atomic, calls), k) && from <= to < TWO_63
    ensures
      var more, w := calls + Waiting(k, from, to), Wait(k, (to - from) / 1000, to);
      && Quiet(Run(args, atomic, more), k) && Waits(args, atomic, more, k) == Waits(args, atomic, calls, k) + [w]
      && Recorded(Run(args, atomic, more[..|more| - 1]), args, more[|more| - 1]) == Some(w)
      && Waits(args, atomic, more[..|more| - 1], k) == Waits(args, atomic, calls, k)
  {
    hide Counted, Reported, Room, Recorded;
    var enter, exit := Waiting(k, from, to)[0], Waiting(k, from, to)[1];
    var one, two := calls + [enter], calls + Waiting(k, from, to);
    assert one[..|one| - 1] == calls && two[..|two| - 1] == one && two[|two| - 1] == exit;
    var s, s1 := Run(args, atomic, calls), Run(args, atomic, one);
    QuietRoom(s, k);
    StartAfter(s, args, atomic, enter);
    EnterLeavesHists(s, args, enter);
    assert s1.start == map[k.pidTgid := Val(from, k.uaddr)];
    RecordedIs(s1, args, exit, k, from);
    assert Waits(args, atomic, calls, k) + [] == Waits(args, atomic, calls, k);
    RecordedFrom(s, args, enter);
    ExitQuiet(s1, args, atomic, exit, k);
  }

  lemma {:induction false} EnterLeavesHists(s: State, args: Args, c: Call)
    requires c.Enter?
    ensures Entered(s, args, c).hists == s.hists
  {}

  lemma {:induction false} RecordedIs(s: State, args: Args, c: Call, k: HistKey, from: u64)
    requires c == Exit(0, 0, k.pidTgid, c.ts, "") && s.start == map[k.pidTgid := Val(from, k.uaddr)]
    requires !args.stack && k.userStackId == 0 && Room(s.hists, k) && from <= c.ts < TWO_63
    ensures Recorded(s, args, c) == Some(Wait(k, (c.ts - from) / 1000, c.ts))
  {
    assert (c.ts - from) % TWO_64 == c.ts - from;
  }

  lemma {:induction false} ExitQuiet(s: State, args: Args, atomic: bool, c: Call, k: HistKey)
    requires c.Exit? && s.start.Keys == {c.pidTgid} && s.hists.Keys <= {k}
    requires Recorded(s, args, c).Some? && Recorded(s, args, c).value.key == k
    ensures Quiet(Exited(s, args, atomic, c), k)
  {
    hide Counted, Reported, Recorded;
    assert s.start - {c.pidTgid} == map[];
  }

  /** Waits of 0 and then of 5 microseconds: the minimum kept is 5. */
  lemma {:induction false} MinimumLost(args: Args, atomic: bool, k: HistKey)
    requires Open(args) && k.userStackId == 0
    ensures
      var calls := Waiting(k, 1000, 1000) + Waiting(k, 1000, 6000);
      var s, ws := Run(args, atomic, calls), Waits(args, atomic, calls, k);
      k in s.hists && s.hists[k].minDur == 5 && ws != [] && Shortest(ws) == 0
  {
    hide Run, Waits;
    var one, two := Waiting(k, 1000, 1000), Waiting(k, 1000, 1000) + Waiting(k, 1000, 6000);
    NoCalls(args, atomic, k);
    assert [] + one == one;
    OneMoreWait(args, atomic, [], k, 1000, 1000);
    OneMoreWait(args, atomic, one, k, 1000, 6000);
    var x, y := Wait(k, 0, 1000), Wait(k, 5, 6000);
    assert Waits(args, atomic, two, k) == [x, y] by { assert [] + [x] + [y] == [x, y]; }
    HistogramExact(args, atomic, two, k);
    MinimumOfTwo(x, y);
  }

  lemma {:induction false} NoCalls(args: Args, atomic: bool, k: HistKey)
    ensures Quiet(Run(args, atomic, []), k) && Waits(args, atomic, [], k) == []
  {}

  lemma {:induction false} MinimumOfTwo(x: Wait, y: Wait)
    requires x.us == 0 < y.us
    ensures SinceZero([x, y]) == y.us && Shortest([x, y]) == 0
  {
    assert [x, y][..1] == [x] && [x][..0] == [];
    assert x in [x, y];
  }

  /** Without atomics a wait of 5 microseconds leaves the maximum at 0. */
  lemma {:induction false} MaximumLost(args: Args, k: HistKey)
    requires Open(args) && k.userStackId == 0
    ensures
      var calls := Waiting(k, 1000, 6000);
      var s := Run(args, false, calls);
      k in s.hists && s.hists[k].maxDur == 0 && Longest(Waits(args, false, calls, k)) == 5
  {
    hide Run, Waits;
    var calls, w := Waiting(k, 1000, 6000), Wait(k, 5, 6000);
    NoCalls(args, false, k);
    assert [] + calls == calls && [] + [w] == [w] && [w][..0] == [];
    OneMoreWait(args, false, [], k, 1000, 6000);
    HistogramExact(args, false, calls, k);
  }

  /** The thresholds taken as milliseconds, as their names have it. */
  predicate InMillis(args: Args, us: nat)
  {
    1000 * args.minDur < us < 1000 * args.maxDur
  }

  /** The test made, on microseconds, differs from that one for waits between the two lower or the two upper bounds. */
  lemma {:induction false} ThresholdsDiffer(args: Args, us: nat)
    ensures (args.minDur < us < args.maxDur <==> InMillis(args, us)) <==>
            !(args.minDur < us <= 1000 * args.minDur && us < args.maxDur) &&
            !(1000 * args.minDur < us < 1000 * args.maxDur && args.maxDur <= us)
  {}

  /** They agree on all waits exactly when the upper threshold is not above the lower one. */
  lemma {:induction false} ThresholdsAgree(args: Args)
    ensures (forall us: nat :: args.minDur < us < args.maxDur <==> InMillis(args, us)) <==> args.maxDur <= args.minDur
  {
    if args.minDur < args.maxDur {
      var us := 1000 * args.maxDur - 1;
      assert InMillis(args, us) && us >= args.maxDur;
    }
  }

  /** With a lower threshold of 1000, a wait of 2000 microseconds, 2 milliseconds, is reported. */
  lemma {:induction false} ShortWaitReported(args: Args, atomic: bool, k: HistKey)
    requires Open(args) && k.userStackId == 0 && args.minDur == 1000 && args.maxDur > 2000
    ensures
      var before := Waiting(k, 1000, 1000) + [Enter(0, k.uaddr, k.pidTgid, 1000, "")];
      var after := before + [Exit(0, 0, k.pidTgid, 2_001_000, "")];
      var s, r := Run(args, atomic, before), Run(args, atomic, after);
      && k in r.hists && r.hists[k].deltaDur == 2000 && r.reports == s.reports + [WaitReport(r.hists[k])]
      && !InMillis(args, 2000)
  {
    hide Run, Waits, Recorded, Total;
    var one := Waiting(k, 1000, 1000);
    var before := one + [Enter(0, k.uaddr, k.pidTgid, 1000, "")];
    var exit := Exit(0, 0, k.pidTgid, 2_001_000, "");
    NoCalls(args, atomic, k);
    assert [] + one == one;
    OneMoreWait(args, atomic, [], k, 1000, 1000);
    OneMoreWait(args, atomic, one, k, 1000, 2_001_000);
    var all := one + Waiting(k, 1000, 2_001_000);
    assert all[..|all| - 1] == before && all[|all| - 1] == exit;
    var x := Wait(k, 0, 1000);
    assert Waits(args, atomic, before, k) == [x] by { assert [] + [x] == [x]; }
    assert Total([x]) == 0 by { TotalOfOne(x); }
    WaitReported(args, atomic, before, exit);
  }

  lemma {:induction false} TotalOfOne(w: Wait)
    ensures Total([w]) == w.us
  {
    assert [w][..0] == [];
  }
}
