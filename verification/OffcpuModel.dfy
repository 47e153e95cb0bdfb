/**
 * What the two hooks of pkg/ebpf/cpu/offcpu/offcpu.bpf.c do to the map of tasks, and which events
 * they send. Each hook is one atomic step.
 */
module OffcpuModel {
  import opened Bytes
  import opened Bits
  import opened HashMaps
  import opened Options

  const TWO_31: int := 0x8000_0000
  const MINUS_ONE: u32 := 0xFFFF_FFFF
  const NS_PER_MS := 1_000_000

  datatype Args = Args(pid: u32, tgid: u32, minOffcpuMs: u32, maxOffcpuMs: u32, rqDurMs: u32)
  datatype Task = Task(pid: u32, tgid: u32, comm: string, prio: u32, runDelay: u64)
  datatype Stacks = Stacks(kern: i32, user: i32)

  datatype Waker = Waker(pid: u32, tgid: u32, comm: string, stacks: Stacks, offcpuNs: u64, tPid: u32, tComm: string)
  datatype Target = Target(pid: u32, tgid: u32, comm: string, oncpuNs: u64, offcpuNs: u64, onrqNs: u64,
                           offcpuId: u32, oncpuId: u32, runDelayNs: u64)
  datatype Trace = Trace(waker: Waker, target: Target)

  datatype Event = Event(target: Target, stacks: Stacks, waker: Waker, tsNs: u64, durMs: u64, rqDurMs: u64)

  /** An event as it goes out: with the mark of a dumped ring, and its CPU. */
  datatype Message = Message(event: Event, dumped: bool, cpu: u32)

  /** One call of a hook, with what it reads from the kernel. */
  datatype Hook =
    | Wakeup(task: Task, taskState: bv32, mask: bv32, onRq: i32, pidTgid: u64, comm: string, stacks: Stacks, ts: u64)
    | Switch(prev: Task, cur: Task, ts: u64, cpu: u32, stacks: Stacks)

  function NoWaker(): (w: Waker) { Waker(0, 0, "", Stacks(0, 0), 0, 0, "") }

  predicate IsTarget(args: Args, tgid: u32, pid: u32)
  {
    || (args.tgid == MINUS_ONE && args.pid == MINUS_ONE)
    || (args.tgid != MINUS_ONE && args.tgid == tgid)
    || (args.pid != MINUS_ONE && args.pid == pid)
  }

  /** try_to_wake_up_hook */
  function Woken(start: map<u32, Trace>, args: Args, h: Hook): (r: map<u32, Trace>)
    requires h.Wakeup?
  {
    if h.taskState & h.mask == 0 || h.onRq == 1 || !IsTarget(args, h.task.tgid, h.task.pid) then start
    else
      var pid := h.task.pid;
      var waker := Waker(h.pidTgid % TWO_32, h.pidTgid / TWO_32, h.comm, h.stacks, h.ts, pid, h.task.comm);
      if pid in start then
        var e := start[pid];
        start[pid := Trace(waker.(tPid := e.waker.tPid, tComm := e.waker.tComm), e.target.(onrqNs := h.ts))]
      else
        Put(start, pid, Trace(waker, Target(pid, h.task.tgid, h.task.comm, 0, 0, h.ts, 0, 0, 0)))
  }

  /** The first half of sched_switch_hook: the previous task leaves the CPU. */
  function Out(start: map<u32, Trace>, args: Args, h: Hook): (r: map<u32, Trace>)
    requires h.Switch?
  {
    var p := h.prev;
    if !IsTarget(args, p.tgid, p.pid) then start
    else if p.pid in start then
      var e := start[p.pid];
      start[p.pid := Trace(e.waker, e.target.(offcpuNs := h.ts, offcpuId := h.cpu, runDelayNs := p.runDelay))]
    else
      Put(start, p.pid, Trace(NoWaker(), Target(p.pid, p.tgid, p.comm, 0, h.ts, 0, h.cpu, 0, p.runDelay)))
  }

  predicate Seen(start: map<u32, Trace>, args: Args, h: Hook)
    requires h.Switch?
  {
    IsTarget(args, h.cur.tgid, h.cur.pid) && h.cur.pid in start
  }

  /** The second half: the current task is on the CPU. */
  function In(start: map<u32, Trace>, args: Args, h: Hook): (r: map<u32, Trace>)
    requires h.Switch?
  {
    if !Seen(start, args, h) then start
    else
      var e := start[h.cur.pid];
      start[h.cur.pid := Trace(e.waker, e.target.(oncpuId := h.cpu, oncpuNs := h.ts, runDelayNs := h.cur.runDelay))]
  }

  /** Whole milliseconds between two readings of an unsigned clock. */
  function Millis(now: u64, since: u64): (ms: nat)
  {
    (now - since) % TWO_64 / NS_PER_MS
  }

  /** A conversion to a signed 32-bit integer, and from there to a wide unsigned one. */
  function SignExtended(ms: nat): (r: u64)
  {
    if ms % TWO_32 < TWO_31 then ms % TWO_32 else ms % TWO_32 + (TWO_64 - TWO_32)
  }

  /** The event for the current task, given the map after the first half. */
  function Emitted(start: map<u32, Trace>, args: Args, h: Hook): (r: Option<Event>)
    requires h.Switch?
  {
    if !Seen(start, args, h) then None
    else
      var e := start[h.cur.pid];
      var ms := Millis(h.ts, e.target.offcpuNs);
      if args.minOffcpuMs <= ms % TWO_32 <= args.maxOffcpuMs && e.target.offcpuNs != 0 then
        var target := e.target.(oncpuId := h.cpu, oncpuNs := h.ts, comm := h.cur.comm);
        Some(Event(target, h.stacks, e.waker, h.ts, SignExtended(ms), SignExtended(Millis(h.cur.runDelay, e.target.runDelayNs))))
      else None
  }

  function Step(start: map<u32, Trace>, args: Args, h: Hook): (r: map<u32, Trace>)
  {
    if h.Wakeup? then Woken(start, args, h) else In(Out(start, args, h), args, h)
  }

  /** The map after a run from the empty one, and the events that the run sent. */
  function Run(args: Args, hooks: seq<Hook>): (start: map<u32, Trace>)
  {
    if hooks == [] then map[] else Step(Run(args, hooks[..|hooks| - 1]), args, hooks[|hooks| - 1])
  }

  /** The task waited too long on the run queue: the ring of its CPU is dumped. */
  predicate Long(args: Args, e: Event)
  {
    args.rqDurMs != 0 && e.rqDurMs % TWO_32 > args.rqDurMs
  }

  /** The event of the last hook. */
  function LastEvent(args: Args, hooks: seq<Hook>): (e: Option<Event>)
    requires hooks != []
  {
    var before, h := hooks[..|hooks| - 1], hooks[|hooks| - 1];
    if h.Switch? then Emitted(Out(Run(args, before), args, h), args, h) else None
  }

  predicate LongSent(args: Args, hooks: seq<Hook>, cpu: u32)
    requires hooks != []
  {
    var h, e := hooks[|hooks| - 1], LastEvent(args, hooks);
    h.Switch? && h.cpu == cpu && e.Some? && Long(args, e.value)
  }

  /** The mark in the buffer of a CPU, which is set with a dump and never taken back. */
  predicate Marked(args: Args, hooks: seq<Hook>, cpu: u32)
  {
    hooks != [] && (LongSent(args, hooks, cpu) || Marked(args, hooks[..|hooks| - 1], cpu))
  }

  lemma {:induction false} MarkedMeans(args: Args, hooks: seq<Hook>, cpu: u32)
    ensures Marked(args, hooks, cpu) <==> exists i :: 0 < i <= |hooks| && LongSent(args, hooks[..i], cpu)
  {
    hide LongSent;
    if hooks != [] {
      var n := |hooks| - 1;
      MarkedMeans(args, hooks[..n], cpu);
      assert hooks[..|hooks|] == hooks;
      assert forall i :: 0 < i <= n ==> hooks[..n][..i] == hooks[..i];
      if Marked(args, hooks[..n], cpu) {
        var i :| 0 < i <= n && LongSent(args, hooks[..n][..i], cpu);
        assert LongSent(args, hooks[..i], cpu);
      }
      if exists i :: 0 < i <= n && LongSent(args, hooks[..i], cpu) {
        var i :| 0 < i <= n && LongSent(args, hooks[..i], cpu);
        assert LongSent(args, hooks[..n][..i], cpu);
      }
    }
  }

  function Sent(args: Args, hooks: seq<Hook>): (events: seq<Message>)
  {
    if hooks == [] then []
    else
      var h, e := hooks[|hooks| - 1], LastEvent(args, hooks);
      var m := h.Switch? && Marked(args, hooks, h.cpu);
      Sent(args, hooks[..|hooks| - 1]) + if e.Some? then [Message(e.value, m, if m then h.cpu else 0)] else []
  }

  /** What one more switch adds to a run. */
  lemma {:induction false} OneMoreSwitch(args: Args, hooks: seq<Hook>, h: Hook)
    requires h.Switch?
    ensures
      var all, start := hooks + [h], Out(Run(args, hooks), args, h);
      var e := Emitted(start, args, h);
      var m := Marked(args, all, h.cpu);
      && Run(args, all) == In(start, args, h)
      && Sent(args, all) == Sent(args, hooks) + (if e.Some? then [Message(e.value, m, if m then h.cpu else 0)] else [])
      && forall c: u32 :: Marked(args, all, c) <==> Marked(args, hooks, c) || (c == h.cpu && e.Some? && Long(args, e.value))
  {
    hide Emitted, Out, In, Long;
    var all := hooks + [h];
    assert all[..|all| - 1] == hooks && all[|all| - 1] == h;
  }

  lemma {:induction false} OneMoreWakeup(args: Args, hooks: seq<Hook>, h: Hook)
    requires h.Wakeup?
    ensures
      var all := hooks + [h];
      && Run(args, all) == Woken(Run(args, hooks), args, h) && Sent(args, all) == Sent(args, hooks)
      && forall c: u32 :: Marked(args, all, c) <==> Marked(args, hooks, c)
  {
    hide Woken;
    var all := hooks + [h];
    assert all[..|all| - 1] == hooks && all[|all| - 1] == h;
    assert Sent(args, hooks) + [] == Sent(args, hooks);
  }

  /** When a target with this pid last left a CPU; 0 if none has. */
  function LastOut(args: Args, hooks: seq<Hook>, pid: u32): (ts: u64)
  {
    if hooks == [] then 0
    else
      var h := hooks[|hooks| - 1];
      if h.Switch? && h.prev.pid == pid && IsTarget(args, h.prev.tgid, pid) then h.ts
      else LastOut(args, hooks[..|hooks| - 1], pid)
  }

  /** The run queue delay of the target with this pid when it last left or came onto a CPU. */
  function LastDelay(args: Args, hooks: seq<Hook>, pid: u32): (ns: u64)
  {
    if hooks == [] then 0
    else
      var h := hooks[|hooks| - 1];
      if h.Switch? && h.cur.pid == pid && IsTarget(args, h.cur.tgid, pid) then h.cur.runDelay
      else if h.Switch? && h.prev.pid == pid && IsTarget(args, h.prev.tgid, pid) then h.prev.runDelay
      else LastDelay(args, hooks[..|hooks| - 1], pid)
  }

  /** The delay that the second half of the hook h finds: its own first half counts, its second does not. */
  function DelayBefore(args: Args, hooks: seq<Hook>, h: Hook): (ns: u64)
    requires h.Switch?
  {
    if h.prev.pid == h.cur.pid && IsTarget(args, h.prev.tgid, h.prev.pid) then h.prev.runDelay
    else LastDelay(args, hooks, h.cur.pid)
  }

  /** What the map has on a task: when it last left, or nothing and then the map is full or it never left. */
  ghost predicate Told(start: map<u32, Trace>, pid: u32, out: u64, delay: u64)
  {
    && (pid in start ==> start[pid].target.offcpuNs == out)
    && (pid in start && out != 0 ==> start[pid].target.runDelayNs == delay)
    && (pid !in start ==> out == 0 || |start| >= MAX_ENTRIES)
  }

  lemma {:induction false} ToldWoken(start: map<u32, Trace>, args: Args, h: Hook, pid: u32, out: u64, delay: u64)
    requires h.Wakeup? && Told(start, pid, out, delay)
    ensures Told(Woken(start, args, h), pid, out, delay)
  {
    hide IsTarget;
  }

  lemma {:induction false} ToldOut(start: map<u32, Trace>, args: Args, h: Hook, pid: u32, out: u64, delay: u64)
    requires h.Switch? && Told(start, pid, out, delay)
    ensures
      var left := h.prev.pid == pid && IsTarget(args, h.prev.tgid, pid);
      Told(Out(start, args, h), pid, if left then h.ts else out, if left then h.prev.runDelay else delay)
  {
    hide IsTarget;
  }

  lemma {:induction false} ToldIn(start: map<u32, Trace>, args: Args, h: Hook, pid: u32, out: u64, delay: u64)
    requires h.Switch? && Told(start, pid, out, delay)
    ensures
      var came := h.cur.pid == pid && IsTarget(args, h.cur.tgid, pid);
      Told(In(start, args, h), pid, out, if came then h.cur.runDelay else delay)
  {
    hide IsTarget;
  }

  lemma {:induction false} NothingTold(pid: u32)
    ensures Told(map[], pid, 0, 0)
  {}

  /**
   * Over all runs, even when inserts fail: a task in the map has the time it last left a CPU, and
   * the run queue delay it had when it last left or came; a task that left and is not in the map
   * found it full.
   */
  lemma {:induction false} PairedRuns(args: Args, hooks: seq<Hook>, pid: u32)
    ensures Told(Run(args, hooks), pid, LastOut(args, hooks, pid), LastDelay(args, hooks, pid))
  {
    hide Told, Woken, Out, In, IsTarget;
    if hooks == [] {
      NothingTold(pid);
    } else {
      var before, h := hooks[..|hooks| - 1], hooks[|hooks| - 1];
      var out, delay := LastOut(args, before, pid), LastDelay(args, before, pid);
      PairedRuns(args, before, pid);
      var start := Run(args, before);
      if h.Wakeup? {
        ToldWoken(start, args, h, pid, out, delay);
      } else {
        ToldOut(start, args, h, pid, out, delay);
        var left := h.prev.pid == pid && IsTarget(args, h.prev.tgid, pid);
        ToldIn(Out(start, args, h), args, h, pid, if left then h.ts else out, if left then h.prev.runDelay else delay);
      }
    }
  }

  /**
   * A switch sends an event exactly for a target that is in the map, has left a CPU before, and
   * was away for a time in the range, modulo 2^32 milliseconds. The event has that time.
   */
  lemma {:induction false} SentExactly(args: Args, hooks: seq<Hook>, h: Hook)
    requires h.Switch?
    ensures
      var all := hooks + [h];
      var out, delay := LastOut(args, all, h.cur.pid), DelayBefore(args, hooks, h);
      var ms := Millis(h.ts, out);
      var away := h.cur.pid in Run(args, all) && IsTarget(args, h.cur.tgid, h.cur.pid) && out != 0;
      if away && args.minOffcpuMs <= ms % TWO_32 <= args.maxOffcpuMs
      then
        && |Sent(args, all)| == |Sent(args, hooks)| + 1
        && Sent(args, all)[..|Sent(args, hooks)|] == Sent(args, hooks)
        && var m := Sent(args, all)[|Sent(args, hooks)|];
           var e := m.event;
           && (m.dumped <==> Long(args, e) || Marked(args, hooks, h.cpu)) && m.cpu == (if m.dumped then h.cpu else 0)
           && e.target.offcpuNs == out && e.target.oncpuNs == e.tsNs == h.ts
           && e.durMs == SignExtended(ms)
           && e.rqDurMs == SignExtended(Millis(h.cur.runDelay, delay))
      else Sent(args, all) == Sent(args, hooks)
  {
    hide SignExtended, Millis, IsTarget;
    var all, start := hooks + [h], Run(args, hooks);
    assert all[..|all| - 1] == hooks && all[|all| - 1] == h;
    var pid := h.cur.pid;
    PairedRuns(args, hooks, pid);
    ToldOut(start, args, h, pid, LastOut(args, hooks, pid), LastDelay(args, hooks, pid));
    assert pid in Run(args, all) <==> pid in Out(start, args, h);
  }

  /** The mark tells the truth about the event exactly when the event waited too long or the CPU was not marked before. */
  lemma {:induction false} MarkTrue(args: Args, hooks: seq<Hook>, h: Hook)
    requires h.Switch? && |Sent(args, hooks + [h])| > |Sent(args, hooks)|
    ensures var m := Sent(args, hooks + [h])[|Sent(args, hooks)|];
      (m.dumped <==> Long(args, m.event)) <==> Long(args, m.event) || !Marked(args, hooks, h.cpu)
  {
    hide Long, Marked, Run, Sent;
    SentExactly(args, hooks, h);
  }

  /**
   * The duration sent is the true one, and in the range, exactly when the clock did not go back
   * and the time away is below 2^31 milliseconds.
   */
  lemma {:induction false} DurationExact(now: u64, since: u64)
    ensures since <= now && SignExtended(Millis(now, since)) == (now - since) / NS_PER_MS
            <==> since <= now && (now - since) / NS_PER_MS < TWO_31
    ensures since <= now && (now - since) / NS_PER_MS < TWO_31 ==>
              Millis(now, since) % TWO_32 == (now - since) / NS_PER_MS
  {
    var ms := (now - since) % TWO_64 / NS_PER_MS;
    assert ms < 0x2000_0000_0000;
  }

  /** A target that was never stored leaves the CPU. */
  lemma {:induction false} LeavesFirst(args: Args, h: Hook)
    requires h.Switch? && IsTarget(args, h.prev.tgid, h.prev.pid) && h.cur.pid != h.prev.pid
    ensures
      var start, p := Run(args, [h]), h.prev.pid;
      start.Keys == {p} && start[p].target.offcpuNs == h.ts && start[p].target.pid == p
  {
    hide IsTarget;
    assert [h][..0] == [] && Run(args, []) == map[];
    assert Run(args, [h]) == In(Out(map[], args, h), args, h);
  }

  /** A target that was away for a time in the range comes back to the CPU of another task. */
  lemma {:induction false} ComesBack(start: map<u32, Trace>, args: Args, h: Hook)
    requires h.Switch? && h.prev.pid != h.cur.pid && h.cur.pid in start && IsTarget(args, h.cur.tgid, h.cur.pid)
    requires start[h.cur.pid].target.offcpuNs != 0
    requires args.minOffcpuMs <= Millis(h.ts, start[h.cur.pid].target.offcpuNs) % TWO_32 <= args.maxOffcpuMs
    ensures
      var e, t := Emitted(Out(start, args, h), args, h), start[h.cur.pid].target;
      e.Some? && e.value.target.pid == t.pid && e.value.durMs == SignExtended(Millis(h.ts, t.offcpuNs))
  {
    hide IsTarget, Millis, SignExtended;
    assert h.cur.pid in Out(start, args, h) && Out(start, args, h)[h.cur.pid] == start[h.cur.pid];
  }

  /** A target that is stored, or finds room, leaves the CPU: the time is noted, and its run queue delay. */
  lemma {:induction false} Leaves(args: Args, hooks: seq<Hook>, h: Hook)
    requires h.Switch? && IsTarget(args, h.prev.tgid, h.prev.pid) && h.cur.pid != h.prev.pid
    requires h.prev.pid in Run(args, hooks) || hooks == []
    ensures
      var p, r := h.prev.pid, Run(args, hooks + [h]);
      && p in r && r[p].target.offcpuNs == h.ts && r[p].target.runDelayNs == h.prev.runDelay
      && forall c: u32 :: Marked(args, hooks, c) ==> Marked(args, hooks + [h], c)
  {
    hide IsTarget, Marked, Sent, Emitted, Long;
    OneMoreSwitch(args, hooks, h);
    assert hooks == [] ==> Run(args, hooks) == map[];
  }

  /** It comes back after a time in the range: an event is sent, marked when it or an earlier one waited too long. */
  lemma {:induction false} Returns(args: Args, hooks: seq<Hook>, h: Hook)
    requires h.Switch? && IsTarget(args, h.cur.tgid, h.cur.pid) && h.cur.pid != h.prev.pid && h.cur.pid in Run(args, hooks)
    requires var t := Run(args, hooks)[h.cur.pid].target;
      t.offcpuNs != 0 && args.minOffcpuMs <= Millis(h.ts, t.offcpuNs) % TWO_32 <= args.maxOffcpuMs
    ensures
      var sent, delay := Sent(args, hooks + [h]), Run(args, hooks)[h.cur.pid].target.runDelayNs;
      && h.cur.pid in Run(args, hooks + [h]) && sent != []
      && var m := sent[|sent| - 1];
         && m.event.rqDurMs == SignExtended(Millis(h.cur.runDelay, delay))
         && (m.dumped <==> Marked(args, hooks + [h], h.cpu))
         && (Marked(args, hooks + [h], h.cpu) <==> Marked(args, hooks, h.cpu) || Long(args, m.event))
  {
    hide IsTarget, Marked, Sent, Long, Millis, SignExtended, Run;
    OneMoreSwitch(args, hooks, h);
    var start := Run(args, hooks);
    assert h.cur.pid in Out(start, args, h) && Out(start, args, h)[h.cur.pid] == start[h.cur.pid];
  }

  lemma {:induction false} Delays(args: Args)
    requires 0 < args.rqDurMs < TWO_31 - 1
    ensures var d: u64 := (args.rqDurMs + 1) * NS_PER_MS;
      && SignExtended(Millis(d, 0)) == args.rqDurMs + 1 && SignExtended(Millis(d, d)) == 0
      && Millis(1 + NS_PER_MS, 1) == Millis(1 + 3 * NS_PER_MS, 1 + 2 * NS_PER_MS) == 1
  {
    assert (args.rqDurMs + 1) * NS_PER_MS < TWO_64;
    assert (args.rqDurMs + 1) * NS_PER_MS / NS_PER_MS == args.rqDurMs + 1;
  }

  /**
   * A task comes back after too long a wait on the run queue, leaves, and comes back without one:
   * its last event is marked although it did not wait.
   */
  lemma {:induction false} MarkStays(args: Args, p: Task, q: Task, cpu: u32, stacks: Stacks)
    requires IsTarget(args, p.tgid, p.pid) && p.pid != q.pid
    requires args.minOffcpuMs <= 1 <= args.maxOffcpuMs && 0 < args.rqDurMs < TWO_31 - 1
    ensures
      var p0, p1 := p.(runDelay := 0), p.(runDelay := (args.rqDurMs + 1) * NS_PER_MS);
      var hooks := [Switch(p0, q, 1, cpu, stacks), Switch(q, p1, 1 + NS_PER_MS, cpu, stacks),
                    Switch(p1, q, 1 + 2 * NS_PER_MS, cpu, stacks), Switch(q, p1, 1 + 3 * NS_PER_MS, cpu, stacks)];
      var sent := Sent(args, hooks);
      sent != [] && sent[|sent| - 1].dumped && !Long(args, sent[|sent| - 1].event)
  {
    hide IsTarget, Marked, Sent, Run, Millis, SignExtended;
    Delays(args);
    var p0, p1 := p.(runDelay := 0), p.(runDelay := (args.rqDurMs + 1) * NS_PER_MS);
    var a, b := Switch(p0, q, 1, cpu, stacks), Switch(q, p1, 1 + NS_PER_MS, cpu, stacks);
    var c, d := Switch(p1, q, 1 + 2 * NS_PER_MS, cpu, stacks), Switch(q, p1, 1 + 3 * NS_PER_MS, cpu, stacks);
    Leaves(args, [], a);
    assert [] + [a] == [a] && [a] + [b] == [a, b] && [a, b] + [c] == [a, b, c] && [a, b, c] + [d] == [a, b, c, d];
    Returns(args, [a], b);
    Leaves(args, [a, b], c);
    Returns(args, [a, b, c], d);
  }

  /** A task that is away for 2^31 milliseconds, with thresholds that let it pass, is sent with a duration near 2^64. */
  lemma {:induction false} LongAwayMisreported(args: Args, p: Task, q: Task, cpu: u32, stacks: Stacks)
    requires IsTarget(args, p.tgid, p.pid) && p.pid != q.pid
    requires args.minOffcpuMs <= TWO_31 <= args.maxOffcpuMs
    ensures
      var leaves, comes := Switch(p, q, 1, cpu, stacks), Switch(q, p, 1 + TWO_31 * NS_PER_MS, cpu, stacks);
      var sent := Sent(args, [leaves, comes]);
      |sent| > 0 && sent[|sent| - 1].event.target.pid == p.pid && sent[|sent| - 1].event.durMs == TWO_64 - TWO_31
  {
    hide IsTarget, Sent, Marked, Long, Millis, SignExtended, Run, Out, In, Emitted;
    AwayFor31();
    var leaves, comes := Switch(p, q, 1, cpu, stacks), Switch(q, p, 1 + TWO_31 * NS_PER_MS, cpu, stacks);
    LeavesFirst(args, leaves);
    assert [leaves] + [comes] == [leaves, comes];
    OneMoreSwitch(args, [leaves], comes);
    assert TWO_31 % TWO_32 == TWO_31;
    ComesBack(Run(args, [leaves]), args, comes);
  }

  lemma {:induction false} AwayFor31()
    ensures Millis(1 + TWO_31 * NS_PER_MS, 1) == TWO_31 && SignExtended(TWO_31) == TWO_64 - TWO_31
  {}
}
