/**
 * What the two handlers of pkg/ebpf/cpu/futexsnoop/futexsnoop.bpf.c do to the maps of the program,
 * and the runs they make up. Each handler is one atomic step.
 */
module FutexModel {
  import opened Bytes
  import opened Bits
  import opened HashMaps
  import opened Options

  const MAX_SLOTS := 24

  type Slots = s: seq<u32> | |s| == MAX_SLOTS witness seq(MAX_SLOTS, i => 0)

  datatype Val = Val(ts: u64, uaddr: u64)
  datatype LockStat = LockStat(userCnt: u32, maxUserCnt: u32, uaddr: u64, comm: string, pidTgid: u64, ts: u64)
  datatype HistKey = HistKey(pidTgid: u64, uaddr: u64, userStackId: i32)
  datatype Hist = Hist(slots: Slots, comm: string, pidTgid: u64, uaddr: u64, userStackId: i32,
                       contended: u64, totalElapsed: u64, minDur: u64, maxDur: u64, deltaDur: u64, maxDurTs: u64)

  /** The filters and thresholds that user space stores before the program is attached. */
  datatype Args = Args(targPid: u32, targTid: u32, targLock: u64, stack: bool,
                       minDur: u32, maxDur: u32, maxLockHoldUsers: u32)

  datatype Report = LockReport(lock: LockStat) | WaitReport(hist: Hist)

  /** One call of a handler, with what it asks the kernel for. */
  datatype Call =
    | Enter(op: bv32, uaddr: u64, pidTgid: u64, ts: u64, comm: string)
    | Exit(ret: i32, stackId: i32, pidTgid: u64, ts: u64, comm: string)

  /** The maps, and the reports sent to user space. */
  datatype State = State(start: map<u64, Val>, locks: map<u64, LockStat>, hists: map<HistKey, Hist>, reports: seq<Report>)

  function NewHist(): (h: Hist)
  {
    Hist(seq(MAX_SLOTS, i => 0), "", 0, 0, 0, 0, 0, 0, 0, 0, 0)
  }

  /** The operation is FUTEX_WAIT, whatever its private and realtime flags. */
  predicate IsWait(op: bv32)
  {
    op & !(0x80 | 0x100) == 0
  }

  lemma {:induction false} WaitOperations(op: bv32)
    ensures IsWait(op) <==> op == 0 || op == 128 || op == 256 || op == 384
  {}

  predicate Wanted(args: Args, c: Call)
    requires c.Enter?
  {
    && IsWait(c.op)
    && (args.targPid == 0 || args.targPid == c.pidTgid / TWO_32)
    && (args.targTid == 0 || args.targTid == c.pidTgid % TWO_32)
    && (args.targLock == 0 || args.targLock == c.uaddr)
  }

  function Joined(l: LockStat): (r: LockStat)
  {
    var n := (l.userCnt + 1) % TWO_32;
    l.(userCnt := n, maxUserCnt := if n > l.maxUserCnt then n else l.maxUserCnt)
  }

  function Left(l: LockStat): (r: LockStat)
  {
    l.(userCnt := (l.userCnt - 1) % TWO_32)
  }

  function Entered(s: State, args: Args, c: Call): (r: State)
    requires c.Enter?
  {
    if !Wanted(args, c) then s
    else
      var start := Put(s.start, c.pidTgid, Val(c.ts, c.uaddr));
      if c.uaddr in s.locks then
        var l := Joined(s.locks[c.uaddr]);
        var report := LockReport(l.(comm := c.comm, pidTgid := c.pidTgid, ts := c.ts));
        State(start, s.locks[c.uaddr := l], s.hists,
              if l.maxUserCnt > args.maxLockHoldUsers then s.reports + [report] else s.reports)
      else
        State(start, Put(s.locks, c.uaddr, LockStat(1, 1, c.uaddr, "", 0, 0)), s.hists, s.reports)
  }

  /** The signed difference of two clock readings. */
  function Elapsed(ts: u64, since: u64): (ns: i64)
  {
    ToInt((ts - since) % TWO_64)
  }

  function KeyOf(args: Args, v: Val, c: Call): (k: HistKey)
    requires c.Exit?
  {
    HistKey(c.pidTgid, v.uaddr, if args.stack then c.stackId else 0)
  }

  /** A wait that reached its histogram: its length in whole microseconds, and when it ended. */
  datatype Wait = Wait(key: HistKey, us: nat, ts: u64)

  /** The wait that a call ends and counts. */
  function Recorded(s: State, args: Args, c: Call): (r: Option<Wait>)
    ensures r.Some? ==> r.value.us < TWO_63
  {
    if c.Exit? && c.pidTgid in s.start then
      var v := s.start[c.pidTgid];
      var ns := Elapsed(c.ts, v.ts);
      if c.ret >= 0 && ns >= 0 && Room(s.hists, KeyOf(args, v, c))
      then Some(Wait(KeyOf(args, v, c), ns / 1000, c.ts))
      else None
    else None
  }

  /** The slot of the histogram that a wait falls in. */
  function Slot(us: nat): (i: nat)
    ensures i < MAX_SLOTS
  {
    if FloorLog2(us) >= MAX_SLOTS then MAX_SLOTS - 1 else FloorLog2(us)
  }

  /**
   * The shortest and the longest wait after one more; atomic tells which of the two branches of
   * the conditional compilation is built. Without atomics the longest is stored back unchanged.
   */
  function Extremes(h: Hist, w: Wait, atomic: bool): (r: Hist)
    requires w.us < TWO_63
  {
    h.(minDur := if h.minDur == 0 || h.minDur > w.us then w.us else h.minDur,
       maxDur := if h.maxDur < w.us && atomic then w.us else h.maxDur,
       maxDurTs := if h.maxDur < w.us then w.ts else h.maxDurTs)
  }

  function Counted(h: Hist, w: Wait, atomic: bool, comm: string): (r: Hist)
    requires w.us < TWO_63
  {
    var n := h.(slots := h.slots[Slot(w.us) := (h.slots[Slot(w.us)] + 1) % TWO_32],
                contended := (h.contended + 1) % TWO_64,
                totalElapsed := (h.totalElapsed + w.us) % TWO_64,
                comm := comm);
    Extremes(n, w, atomic)
  }

  /** Division by zero gives zero in the kernel's instruction set. */
  function Average(h: Hist): (avg: nat)
  {
    if h.contended == 0 then 0 else h.totalElapsed / h.contended
  }

  predicate Reported(args: Args, h: Hist, us: nat)
  {
    args.minDur < us < args.maxDur && us > Average(h)
  }

  /** The wait w in its histogram, and reported if it is out of the ordinary. */
  function Told(s: State, args: Args, atomic: bool, w: Wait, comm: string): (r: State)
    requires w.us < TWO_63
  {
    var h := Counted(if w.key in s.hists then s.hists[w.key] else NewHist(), w, atomic, comm);
    if Reported(args, h, w.us) then
      var told := h.(pidTgid := w.key.pidTgid, uaddr := w.key.uaddr, userStackId := w.key.userStackId,
                     deltaDur := w.us);
      State(s.start, s.locks, s.hists[w.key := told], s.reports + [WaitReport(told)])
    else
      State(s.start, s.locks, s.hists[w.key := h], s.reports)
  }

  /** The thread no longer waits. */
  function Gone(s: State, t: u64): (r: State)
    requires t in s.start
  {
    var a := s.start[t].uaddr;
    State(s.start - {t}, if a in s.locks then s.locks[a := Left(s.locks[a])] else s.locks, s.hists, s.reports)
  }

  function Exited(s: State, args: Args, atomic: bool, c: Call): (r: State)
    requires c.Exit?
  {
    if c.pidTgid !in s.start then s
    else if Recorded(s, args, c).None? then Gone(s, c.pidTgid)
    else Told(Gone(s, c.pidTgid), args, atomic, Recorded(s, args, c).value, c.comm)
  }

  function Step(s: State, args: Args, atomic: bool, c: Call): (r: State)
  {
    if c.Enter? then Entered(s, args, c) else Exited(s, args, atomic, c)
  }

  /** The state after a run from empty maps. */
  function Run(args: Args, atomic: bool, calls: seq<Call>): (s: State)
  {
    if calls == [] then State(map[], map[], map[], [])
    else Step(Run(args, atomic, calls[..|calls| - 1]), args, atomic, calls[|calls| - 1])
  }
}
