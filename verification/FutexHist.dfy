/** The latency histograms: what a run leaves in them, told by the waits that were recorded. */
module FutexHist {
  import opened Bytes
  import opened Options
  import opened Bits
  import opened HashMaps
  import opened FutexModel

  /** The waits of a key that a run recorded, in order. */
  function Waits(args: Args, atomic: bool, calls: seq<Call>, k: HistKey): (ws: seq<Wait>)
    ensures forall w :: w in ws ==> w.key == k && w.us < TWO_63
  {
    if calls == [] then []
    else
      var before := calls[..|calls| - 1];
      var r := Recorded(Run(args, atomic, before), args, calls[|calls| - 1]);
      Waits(args, atomic, before, k) + if r.Some? && r.value.key == k then [r.value] else []
  }

  /** How many waits fall in slot i. */
  function Falling(ws: seq<Wait>, i: nat): (n: nat)
    ensures n <= |ws|
  {
    if ws == [] then 0 else Falling(ws[..|ws| - 1], i) + if Slot(ws[|ws| - 1].us) == i then 1 else 0
  }

  function Total(ws: seq<Wait>): (n: nat)
  {
    if ws == [] then 0 else Total(ws[..|ws| - 1]) + ws[|ws| - 1].us
  }

  function Shortest(ws: seq<Wait>): (n: nat)
    requires ws != []
    ensures forall w :: w in ws ==> n <= w.us
    ensures exists w :: w in ws && w.us == n
  {
    var w := ws[|ws| - 1];
    if |ws| == 1 then w.us
    else
      assert forall v :: v in ws ==> v in ws[..|ws| - 1] || v == w;
      var m := Shortest(ws[..|ws| - 1]);
      if w.us < m then w.us else m
  }

  /** The longest wait; 0 when there is none. */
  function Longest(ws: seq<Wait>): (n: nat)
    ensures forall w :: w in ws ==> w.us <= n
    ensures ws != [] ==> exists w :: w in ws && w.us == n
  {
    if ws == [] then 0
    else
      var w := ws[|ws| - 1];
      assert forall v :: v in ws ==> v in ws[..|ws| - 1] || v == w;
      var m := Longest(ws[..|ws| - 1]);
      if w.us > m then w.us else m
  }

  /** The shortest wait since the last one of length 0, which doubles as the mark of an unset minimum. */
  function SinceZero(ws: seq<Wait>): (n: nat)
  {
    if ws == [] then 0
    else
      var m, us := SinceZero(ws[..|ws| - 1]), ws[|ws| - 1].us;
      if m == 0 || us < m then us else m
  }

  /** When the first of the longest waits ended. */
  function LongestEnd(ws: seq<Wait>): (ts: u64)
  {
    if ws == [] then 0
    else if ws[|ws| - 1].us > Longest(ws[..|ws| - 1]) then ws[|ws| - 1].ts
    else LongestEnd(ws[..|ws| - 1])
  }

  /** When the last wait that was not of length 0 ended. */
  function LastEnd(ws: seq<Wait>): (ts: u64)
  {
    if ws == [] then 0 else if ws[|ws| - 1].us > 0 then ws[|ws| - 1].ts else LastEnd(ws[..|ws| - 1])
  }

  /** A histogram that tells of the waits ws, its counters wrapping at their widths. */
  ghost predicate Summarises(h: Hist, ws: seq<Wait>, atomic: bool)
  {
    && (forall i :: 0 <= i < MAX_SLOTS ==> h.slots[i] == Falling(ws, i) % TWO_32)
    && h.contended == |ws| % TWO_64
    && h.totalElapsed == Total(ws) % TWO_64
    && h.minDur == SinceZero(ws)
    && h.maxDur == (if atomic then Longest(ws) else 0)
    && h.maxDurTs == (if atomic then LongestEnd(ws) else LastEnd(ws))
  }

  lemma {:induction false} WrapOne(a: nat)
    ensures (a % TWO_32 + 1) % TWO_32 == (a + 1) % TWO_32
  {}

  lemma {:induction false} CountOne(h: Hist, ws: seq<Wait>, w: Wait, atomic: bool, comm: string)
    requires Summarises(h, ws, atomic) && w.us < TWO_63
    ensures Summarises(Counted(h, w, atomic, comm), ws + [w], atomic)
  {
    hide Slot;
    var all := ws + [w];
    assert all[..|all| - 1] == ws;
    AddMod(|ws|, 1);
    AddMod(Total(ws), w.us);
    var r := Counted(h, w, atomic, comm);
    forall i | 0 <= i < MAX_SLOTS ensures r.slots[i] == Falling(all, i) % TWO_32 {
      WrapOne(Falling(ws, i));
    }
  }

  lemma {:induction false} NewSummarises(atomic: bool)
    ensures Summarises(NewHist(), [], atomic)
  {}

  /** Two histograms with the same figures tell of the same waits. */
  lemma {:induction false} SameFigures(h: Hist, r: Hist, ws: seq<Wait>, atomic: bool)
    requires Summarises(h, ws, atomic)
    requires r == h.(pidTgid := r.pidTgid, uaddr := r.uaddr, userStackId := r.userStackId, deltaDur := r.deltaDur)
    ensures Summarises(r, ws, atomic)
  {}

  ghost predicate Kept(s: State, k: HistKey, ws: seq<Wait>, atomic: bool)
  {
    && (k in s.hists <==> ws != [])
    && (k in s.hists ==> Summarises(s.hists[k], ws, atomic))
  }

  lemma {:induction false} KeptTold(s: State, args: Args, atomic: bool, w: Wait, comm: string, ws: seq<Wait>)
    requires Kept(s, w.key, ws, atomic) && w.us < TWO_63
    ensures Kept(Told(s, args, atomic, w, comm), w.key, ws + [w], atomic)
  {
    hide Summarises, Counted, Reported;
    var k := w.key;
    if k !in s.hists { NewSummarises(atomic); }
    var h := if k in s.hists then s.hists[k] else NewHist();
    CountOne(h, ws, w, atomic, comm);
    SameFigures(Counted(h, w, atomic, comm), Told(s, args, atomic, w, comm).hists[k], ws + [w], atomic);
  }

  /** The other histograms stay. */
  lemma {:induction false} KeptElsewhere(s: State, args: Args, atomic: bool, w: Wait, comm: string,
                                         k: HistKey, ws: seq<Wait>)
    requires Kept(s, k, ws, atomic) && w.us < TWO_63 && w.key != k
    ensures Kept(Told(s, args, atomic, w, comm), k, ws, atomic)
  {
    hide Summarises, Counted, Reported;
  }

  /** After any run the histogram of a key tells exactly of the waits that were recorded for it. */
  lemma {:induction false} HistogramExact(args: Args, atomic: bool, calls: seq<Call>, k: HistKey)
    ensures
      var s, ws := Run(args, atomic, calls), Waits(args, atomic, calls, k);
      && (k in s.hists <==> ws != [])
      && (k in s.hists ==> Summarises(s.hists[k], ws, atomic))
  {
    hide Summarises, Told, Recorded;
    if calls != [] {
      var before, c := calls[..|calls| - 1], calls[|calls| - 1];
      HistogramExact(args, atomic, before, k);
      var s := Run(args, atomic, before);
      var ws := Waits(args, atomic, before, k);
      assert Kept(s, k, ws, atomic) && ws + [] == ws;
      var r := Recorded(s, args, c);
      RecordedFrom(s, args, c);
      if r.Some? {
        var left := Gone(s, c.pidTgid);
        if r.value.key == k {
          KeptTold(left, args, atomic, r.value, c.comm, ws);
        } else {
          KeptElsewhere(left, args, atomic, r.value, c.comm, k, ws);
        }
      }
    }
  }

  lemma {:induction false} RecordedFrom(s: State, args: Args, c: Call)
    ensures Recorded(s, args, c).Some? ==> c.Exit? && c.pidTgid in s.start
  {}

  /** When and for which lock a thread last entered, since it last exited, if there was room to store it. */
  function LastEnter(args: Args, atomic: bool, calls: seq<Call>, t: u64): (v: Option<Val>)
  {
    if calls == [] then None
    else
      var before, c := calls[..|calls| - 1], calls[|calls| - 1];
      if c.pidTgid != t || (c.Enter? && !Wanted(args, c)) then LastEnter(args, atomic, before, t)
      else if c.Enter? && Room(Run(args, atomic, before).start, t) then Some(Val(c.ts, c.uaddr))
      else None
  }

  lemma {:induction false} StartAfter(s: State, args: Args, atomic: bool, c: Call)
    ensures
      var r := Step(s, args, atomic, c);
      r.start == if c.Exit? then s.start - {c.pidTgid}
                 else if Wanted(args, c) && Room(s.start, c.pidTgid) then s.start[c.pidTgid := Val(c.ts, c.uaddr)]
                 else s.start
  {
    hide Recorded, Counted, Reported, Wanted, Room;
    if c.Exit? && c.pidTgid !in s.start { assert s.start - {c.pidTgid} == s.start; }
  }

  /** Over whole runs, a thread is waiting exactly when it entered since it last exited, and since then. */
  lemma {:induction false} StartIsLastEnter(args: Args, atomic: bool, calls: seq<Call>, t: u64)
    ensures
      var start, v := Run(args, atomic, calls).start, LastEnter(args, atomic, calls, t);
      (t in start <==> v.Some?) && (t in start ==> start[t] == v.value)
  {
    hide Step, Wanted;
    if calls != [] {
      var before, c := calls[..|calls| - 1], calls[|calls| - 1];
      StartIsLastEnter(args, atomic, before, t);
      StartAfter(Run(args, atomic, before), args, atomic, c);
    }
  }

  /**
   * Whatever other threads did in between: an exit records a wait exactly when its thread entered
   * before, there was no error, the clock did not go back, and there is a histogram or room for
   * one. The wait is measured from that entry, to the microsecond.
   */
  lemma {:induction false} WaitMeasured(args: Args, atomic: bool, calls: seq<Call>, c: Call)
    requires c.Exit?
    ensures
      var s, v, r := Run(args, atomic, calls), LastEnter(args, atomic, calls, c.pidTgid), Recorded(Run(args, atomic, calls), args, c);
      if v.Some? && c.ret >= 0 && Elapsed(c.ts, v.value.ts) >= 0 && Room(s.hists, KeyOf(args, v.value, c))
      then r == Some(Wait(KeyOf(args, v.value, c), Elapsed(c.ts, v.value.ts) / 1000, c.ts))
      else r == None
    ensures
      var v := LastEnter(args, atomic, calls, c.pidTgid);
      v.Some? && v.value.ts <= c.ts && c.ts - v.value.ts < TWO_63 ==> Elapsed(c.ts, v.value.ts) == c.ts - v.value.ts
  {
    hide Run, LastEnter, Room, KeyOf;
    StartIsLastEnter(args, atomic, calls, c.pidTgid);
    var v := LastEnter(args, atomic, calls, c.pidTgid);
    if v.Some? && v.value.ts <= c.ts { assert (c.ts - v.value.ts) % TWO_64 == c.ts - v.value.ts; }
  }

  /** Which waits fall in a slot. */
  lemma {:induction false} SlotMeans(us: nat, i: nat)
    requires i < MAX_SLOTS
    ensures Slot(us) == i <==>
            (i == 0 || Pow2(i) <= us) && (i == MAX_SLOTS - 1 || us < Pow2(i + 1))
  {
    hide Pow2, FloorLog2;
    SmallPowers();
    var n := FloorLog2(us);
    if us > 0 { FloorLog2Bounds(us); }
    assert us == 0 ==> n == 0 by { ZeroLog(); }
    if n < i { Pow2Monotone(n + 1, i); }
    if n > i { Pow2Monotone(i + 1, n); }
    if i < n { Pow2Monotone(i, n); }
    if i == 0 && us >= 2 { if n == 0 { assert false; } }
    if i > 0 { Pow2Monotone(1, i); }
  }

  lemma {:induction false} ZeroLog()
    ensures FloorLog2(0) == 0
  {}

  function SlotSum(slots: Slots, n: nat): (sum: nat)
    requires n <= MAX_SLOTS
  {
    if n == 0 then 0 else SlotSum(slots, n - 1) + slots[n - 1]
  }

  function FallingBelow(ws: seq<Wait>, n: nat): (sum: nat)
  {
    if n == 0 then 0 else FallingBelow(ws, n - 1) + Falling(ws, n - 1)
  }

  lemma {:induction false} FallingMore(ws: seq<Wait>, n: nat)
    requires ws != []
    ensures FallingBelow(ws, n) ==
            FallingBelow(ws[..|ws| - 1], n) + if Slot(ws[|ws| - 1].us) < n then 1 else 0
  {
    if n > 0 { FallingMore(ws, n - 1); }
  }

  lemma {:induction false} AllFall(ws: seq<Wait>)
    ensures FallingBelow(ws, MAX_SLOTS) == |ws|
  {
    hide Slot;
    if ws == [] {
      NoneFall(MAX_SLOTS);
    } else {
      AllFall(ws[..|ws| - 1]);
      FallingMore(ws, MAX_SLOTS);
    }
  }

  lemma {:induction false} NoneFall(n: nat)
    ensures FallingBelow([], n) == 0
  {
    if n > 0 { NoneFall(n - 1); }
  }

  lemma {:induction false} SlotsAreCounts(h: Hist, ws: seq<Wait>, atomic: bool, n: nat)
    requires Summarises(h, ws, atomic) && |ws| < TWO_32 && n <= MAX_SLOTS
    ensures SlotSum(h.slots, n) == FallingBelow(ws, n)
  {
    if n > 0 { SlotsAreCounts(h, ws, atomic, n - 1); }
  }

  /** Below the wrap of the slots they add up to the number of waits. */
  lemma {:induction false} SlotsSumToContended(args: Args, atomic: bool, calls: seq<Call>, k: HistKey)
    requires k in Run(args, atomic, calls).hists
    requires |Waits(args, atomic, calls, k)| < TWO_32
    ensures var h := Run(args, atomic, calls).hists[k]; SlotSum(h.slots, MAX_SLOTS) == h.contended
  {
    hide SlotSum, FallingBelow, Run, Waits;
    HistogramExact(args, atomic, calls, k);
    var ws := Waits(args, atomic, calls, k);
    SlotsAreCounts(Run(args, atomic, calls).hists[k], ws, atomic, MAX_SLOTS);
    AllFall(ws);
  }

  predicate AllPositive(ws: seq<Wait>)
  {
    forall w :: w in ws ==> w.us > 0
  }

  /** The minimum kept is the shortest wait exactly when no wait has length 0, or the last one has. */
  lemma {:induction false} MinimumExact(ws: seq<Wait>)
    requires ws != []
    ensures SinceZero(ws) == Shortest(ws) <==> AllPositive(ws) || ws[|ws| - 1].us == 0
    ensures AllPositive(ws) ==> SinceZero(ws) > 0
  {
    var before, w := ws[..|ws| - 1], ws[|ws| - 1];
    assert ws == before + [w];
    if before != [] {
      MinimumExact(before);
      assert AllPositive(ws) <==> AllPositive(before) && w.us > 0;
      if !AllPositive(before) {
        var z :| z in before && z.us == 0;
        assert z in ws;
        assert Shortest(ws) == 0;
        SinceZeroPositive(ws);
      }
    }
  }

  /** Only a last wait of length 0 leaves the minimum unset. */
  lemma {:induction false} SinceZeroPositive(ws: seq<Wait>)
    requires ws != []
    ensures SinceZero(ws) == 0 <==> ws[|ws| - 1].us == 0
  {
  }

  /** Without atomics the maximum stays 0, which is right exactly when every wait has length 0. */
  lemma {:induction false} MaximumExact(h: Hist, ws: seq<Wait>, atomic: bool)
    requires Summarises(h, ws, atomic)
    ensures h.maxDur == Longest(ws) <==> atomic || forall w :: w in ws ==> w.us == 0
  {
    if forall w :: w in ws ==> w.us == 0 {
      assert Longest(ws) == 0;
    } else {
      var w :| w in ws && w.us > 0;
      assert Longest(ws) >= w.us;
    }
  }

  lemma {:induction false} TotalBounds(ws: seq<Wait>, lo: nat, hi: nat)
    requires forall w :: w in ws ==> lo <= w.us <= hi
    ensures lo * |ws| <= Total(ws) <= hi * |ws|
  {
    if ws != [] {
      var before := ws[..|ws| - 1];
      TotalBounds(before, lo, hi);
      assert lo * |ws| == lo * |before| + lo && hi * |ws| == hi * |before| + hi;
    }
  }

  lemma {:induction false} Times(a: nat, b: nat, n: nat)
    requires a <= b
    ensures a * n <= b * n
  {
    assert b * n == a * n + (b - a) * n;
  }

  lemma {:induction false} QuotientBounds(t: nat, n: nat, lo: nat, hi: nat)
    requires n > 0 && lo * n <= t <= hi * n
    ensures lo <= t / n <= hi
  {
    var q := t / n;
    assert t == q * n + t % n && (q + 1) * n == q * n + n && (hi + 1) * n == hi * n + n;
    if q < lo { Times(q + 1, lo, n); }
    if q > hi { Times(hi + 1, q, n); }
  }

  lemma {:induction false} AverageIs(h: Hist, ws: seq<Wait>, atomic: bool)
    requires Summarises(h, ws, atomic) && ws != [] && |ws| < TWO_64 && Total(ws) < TWO_64
    ensures Average(h) == Total(ws) / |ws|
  {
    hide Total, SinceZero, Longest, Falling;
  }

  /** Below the wrap the average lies between the shortest and the longest wait. */
  lemma {:induction false} AverageBetween(h: Hist, ws: seq<Wait>, atomic: bool)
    requires Summarises(h, ws, atomic) && ws != [] && |ws| < TWO_64 && Total(ws) < TWO_64
    ensures Shortest(ws) <= Average(h) <= Longest(ws)
    ensures AllPositive(ws) && atomic ==> h.minDur <= Average(h) <= h.maxDur
  {
    hide Total, Shortest, Longest, SinceZero, Average;
    assert Shortest(ws) <= Average(h) <= Longest(ws) by {
      AverageIs(h, ws, atomic);
      TotalBounds(ws, Shortest(ws), Longest(ws));
      QuotientBounds(Total(ws), |ws|, Shortest(ws), Longest(ws));
    }
    MinimumExact(ws);
  }

  lemma {:induction false} AboveQuotient(us: nat, t: nat, n: nat)
    ensures us > (t + us) / (n + 1) <==> us * n > t
  {
    var q := (t + us) / (n + 1);
    assert t + us == q * (n + 1) + (t + us) % (n + 1);
    assert us * (n + 1) == us * n + us && (q + 1) * (n + 1) == q * (n + 1) + (n + 1);
    if us > q { Times(q + 1, us, n + 1); } else { Times(us, q, n + 1); }
  }

  /**
   * Below the wrap a wait is reported exactly when it is within the thresholds and longer than the
   * average of the earlier waits of its key. So the first wait of a key never is.
   */
  lemma {:induction false} WaitReported(args: Args, atomic: bool, calls: seq<Call>, c: Call)
    requires Recorded(Run(args, atomic, calls), args, c).Some?
    requires
      var w := Recorded(Run(args, atomic, calls), args, c).value;
      var ws := Waits(args, atomic, calls, w.key);
      |ws| + 1 < TWO_64 && Total(ws) + w.us < TWO_64
    ensures
      var s, r := Run(args, atomic, calls), Run(args, atomic, calls + [c]);
      var w := Recorded(s, args, c).value;
      var ws := Waits(args, atomic, calls, w.key);
      && w.key in r.hists
      && (if args.minDur < w.us < args.maxDur && w.us * |ws| > Total(ws)
          then r.reports == s.reports + [WaitReport(r.hists[w.key])] && r.hists[w.key].deltaDur == w.us
          else r.reports == s.reports)
  {
    hide Recorded, Counted, Summarises, Waits, Total;
    var s := Run(args, atomic, calls);
    var w := Recorded(s, args, c).value;
    var ws := Waits(args, atomic, calls, w.key);
    var all := calls + [c];
    assert all[..|all| - 1] == calls && all[|all| - 1] == c;
    RecordedFrom(s, args, c);
    HistogramExact(args, atomic, calls, w.key);
    if ws == [] { NewSummarises(atomic); }
    var h := if w.key in s.hists then s.hists[w.key] else NewHist();
    CountOne(h, ws, w, atomic, c.comm);
    CountedAverage(Counted(h, w, atomic, c.comm), ws, w, atomic);
    AboveQuotient(w.us, Total(ws), |ws|);
  }

  lemma {:induction false} CountedAverage(h: Hist, ws: seq<Wait>, w: Wait, atomic: bool)
    requires Summarises(h, ws + [w], atomic)
    requires |ws| + 1 < TWO_64 && Total(ws) + w.us < TWO_64
    ensures Average(h) == (Total(ws) + w.us) / (|ws| + 1)
  {
    var all := ws + [w];
    assert all[..|all| - 1] == ws;
    AverageIs(h, all, atomic);
  }
}
