/** The hooks of pkg/ebpf/cpu/offcpu/offcpu.bpf.c and the ring of scheduling records of each CPU. */
module Offcpu {
  import opened Bytes
  import opened Bits
  import opened HashMaps
  import opened OffcpuModel

  const SCHED_CACHE_SIZE := 512
  const BACKUP_ENTRIES := 1024
  const RECORD_ON: u32 := 0
  const RECORD_OFF: u32 := 1

  datatype Record = Record(pid: u32, prio: u32, comm: string, ts: u64)

  /** A copy of a ring as it is dumped. */
  datatype Snapshot = Snapshot(status: u32, cpu: u32, id: u32, records: seq<Record>)

  function RecordOf(p: Task, ts: u64): (r: Record)
  {
    Record(p.pid, p.prio, p.comm, ts)
  }

  /** The newest record whose index is congruent to j; empty if there is none. */
  function Newest(seen: seq<Record>, j: nat): (r: Record)
    requires j < SCHED_CACHE_SIZE
  {
    if seen == [] then Record(0, 0, "", 0)
    else if (|seen| - 1) % SCHED_CACHE_SIZE == j then seen[|seen| - 1]
    else Newest(seen[..|seen| - 1], j)
  }

  /** The size of the ring divides the range of its counter, so the wrap of the counter does not show. */
  lemma {:induction false} WrapHidden(n: nat)
    ensures n % TWO_32 % SCHED_CACHE_SIZE == n % SCHED_CACHE_SIZE
    ensures (n % TWO_32 + 1) % TWO_32 == (n + 1) % TWO_32
  {
    assert n == TWO_32 * (n / TWO_32) + n % TWO_32;
    assert TWO_32 == SCHED_CACHE_SIZE * 8388608;
  }

  /** The slot of an index that is among the last 512 has the record of that index. */
  lemma {:induction false} NewestAt(seen: seq<Record>, i: nat)
    requires i < |seen| <= i + SCHED_CACHE_SIZE
    ensures Newest(seen, i % SCHED_CACHE_SIZE) == seen[i]
  {
    if i < |seen| - 1 {
      NewestAt(seen[..|seen| - 1], i);
    }
  }

  lemma {:induction false} WrapBehind(n: nat, k: nat)
    ensures (n % TWO_32 - k) % SCHED_CACHE_SIZE == (n - k) % SCHED_CACHE_SIZE
  {
    var q := 8388608 * (n / TWO_32);
    assert n - k == SCHED_CACHE_SIZE * q + (n % TWO_32 - k);
    SlotOf(n % TWO_32 - k, q);
  }

  lemma {:induction false} SlotOf(i: int, q: int)
    ensures (SCHED_CACHE_SIZE * q + i) % SCHED_CACHE_SIZE == i % SCHED_CACHE_SIZE
  {}

  /** A snapshot that stands for the records seen so far. */
  ghost predicate Mirrors(s: Snapshot, seen: seq<Record>)
  {
    && s.id == |seen| % TWO_32
    && |s.records| == SCHED_CACHE_SIZE
    && forall j :: 0 <= j < SCHED_CACHE_SIZE ==> s.records[j] == Newest(seen, j)
  }

  /** Reading a snapshot backwards from its counter gives the last 512 records, newest first. */
  lemma {:induction false} LastRecords(s: Snapshot, seen: seq<Record>, k: nat)
    requires Mirrors(s, seen) && 0 < k <= |seen| && k <= SCHED_CACHE_SIZE
    ensures s.records[(s.id - k) % SCHED_CACHE_SIZE] == seen[|seen| - k]
  {
    NewestAt(seen, |seen| - k);
    WrapBehind(|seen|, k);
  }

  class SchedCache {
    var status: u32
    var cpu: u32
    var id: u32
    const records: array<Record>
    ghost var seen: seq<Record>

    constructor ()
      ensures Valid() && fresh(records) && seen == [] && status == RECORD_ON
    {
      status, cpu, id := RECORD_ON, 0, 0;
      records := new Record[SCHED_CACHE_SIZE](_ => Record(0, 0, "", 0));
      seen := [];
    }

    ghost function View(): (s: Snapshot)
      reads this, records
    {
      Snapshot(status, cpu, id, records[..])
    }

    /** Each slot has the newest record that falls in it. */
    ghost predicate Valid()
      reads this, records
    {
      Mirrors(View(), seen)
    }

    /** sched_cache_update: the record goes in the slot of the counter, while recording is on. */
    method Update(p: Task, ts: u64, cpu: u32)
      requires Valid()
      modifies this, records
      ensures Valid() && status == old(status)
      ensures this.cpu == if status == RECORD_ON then cpu else old(this.cpu)
      ensures seen == if status == RECORD_ON then old(seen) + [RecordOf(p, ts)] else old(seen)
    {
      var i := id % SCHED_CACHE_SIZE;
      if i < SCHED_CACHE_SIZE && status == RECORD_ON {
        this.cpu := cpu;
        records[i] := records[i].(pid := p.pid);
        records[i] := records[i].(ts := ts);
        records[i] := records[i].(prio := p.prio);
        records[i] := records[i].(comm := p.comm);
        WrapHidden(|seen|);
        id := (id + 1) % TWO_32;
        seen := seen + [RecordOf(p, ts)];
        assert seen[..|seen| - 1] == old(seen);
      }
    }

    /** sched_cache_dump: a copy of the ring goes to the backup map, and recording is on again. */
    method Dump(backup: map<u32, Snapshot>, cpu: u32) returns (after: map<u32, Snapshot>)
      requires Valid()
      modifies this`status
      ensures Valid() && status == RECORD_ON
      ensures cpu in backup || |backup| < BACKUP_ENTRIES ==>
        cpu in after && Mirrors(after[cpu], seen) && after == backup[cpu := after[cpu]] && after[cpu].cpu == this.cpu
      ensures cpu !in backup && |backup| >= BACKUP_ENTRIES ==> after == backup
    {
      after := backup;
      status := RECORD_OFF;
      if cpu in backup || |backup| < BACKUP_ENTRIES {
        after := backup[cpu := Snapshot(status, this.cpu, id, records[..])];
      }
      status := RECORD_ON;
    }
  }

  /** The records of a CPU in a run: every switch on it, when run queue delays are watched. */
  function Recorded(args: Args, hooks: seq<Hook>, cpu: nat): (r: seq<Record>)
  {
    if hooks == [] then []
    else
      var h := hooks[|hooks| - 1];
      Recorded(args, hooks[..|hooks| - 1], cpu) +
      if args.rqDurMs != 0 && h.Switch? && h.cpu == cpu then [RecordOf(h.prev, h.ts)] else []
  }

  class OffcpuTracer {
    const args: Args
    const caches: seq<SchedCache>  // one for each CPU
    var start: map<u32, Trace>
    var backup: map<u32, Snapshot>
    var perf: seq<Message>
    var marked: set<u32>  // the CPUs whose event buffer has the mark of a dump
    ghost var hooks: seq<Hook>

    constructor (args: Args, cpus: u32)
      ensures Valid() && hooks == [] && this.args == args && |caches| == cpus
      ensures fresh(Parts())
    {
      var made: seq<SchedCache> := [];
      var i := 0;
      while i < cpus
        invariant i == |made| <= cpus
        invariant forall c :: c in made ==> fresh(c) && fresh(c.records)
        invariant forall c :: c in made ==> c.Valid() && c.seen == [] && c.status == RECORD_ON
        invariant forall j, k :: 0 <= j < k < |made| ==> made[j] != made[k] && made[j].records != made[k].records
      {
        var c := new SchedCache();
        made := made + [c];
        i := i + 1;
      }
      this.args, caches := args, made;
      start, backup, perf, marked := map[], map[], [], {};
      hooks := [];
    }

    ghost function Parts(): (r: set<object>)
    {
      (set c: SchedCache | c in caches :: c as object) + (set c: SchedCache | c in caches :: c.records as object)
    }

    ghost predicate Rings()
      reads this`hooks, Parts()
    {
      && (forall j, k :: 0 <= j < k < |caches| ==> caches[j] != caches[k] && caches[j].records != caches[k].records)
      && forall j :: 0 <= j < |caches| ==>
           && caches[j].Valid() && caches[j].status == RECORD_ON
           && caches[j].seen == Recorded(args, hooks, j)
    }

    /** Map, events and rings are what the hooks called so far make of them. */
    ghost predicate Valid()
      reads this, Parts()
    {
      && start == Run(args, hooks)
      && perf == Sent(args, hooks)
      && (forall c: u32 :: c in marked <==> Marked(args, hooks, c))
      && Rings()
    }

    /** A sleeping target is put on a run queue; whoever does it is its waker. */
    method Wake(ghost h: Hook, task: Task, taskState: bv32, mask: bv32, onRq: i32, pidTgid: u64, comm: string,
                stacks: Stacks, ts: u64)
      requires h == Wakeup(task, taskState, mask, onRq, pidTgid, comm, stacks, ts) && Rings()
      modifies this`start
      ensures start == Woken(old(start), args, h) && Rings()
    {
      hide IsTarget, Room, Rings, Put;
      assert this !in Parts();
      if taskState & mask == 0 || onRq == 1 { return; }
      if !IsTarget(args, task.tgid, task.pid) { return; }
      if task.pid in start {
        var ep := start[task.pid];
        var waker := ep.waker.(pid := pidTgid % TWO_32, tgid := pidTgid / TWO_32, comm := comm, stacks := stacks);
        var target := ep.target.(onrqNs := ts);
        start := start[task.pid := Trace(waker.(offcpuNs := ts), target)];
      } else {
        var waker := Waker(pidTgid % TWO_32, pidTgid / TWO_32, comm, stacks, ts, task.pid, task.comm);
        start := Put(start, task.pid, Trace(waker, Target(task.pid, task.tgid, task.comm, 0, 0, ts, 0, 0, 0)));
      }
    }

    /** No ring records a wakeup. */
    ghost method Pass(h: Hook)
      requires h.Wakeup? && Rings()
      modifies this`hooks
      ensures hooks == old(hooks) + [h] && hooks[..|hooks| - 1] == old(hooks) && Rings()
    {
      hide Mirrors;
      hooks := hooks + [h];
      assert hooks[..|hooks| - 1] == old(hooks);
      forall j | 0 <= j < |caches| ensures Recorded(args, hooks, j) == caches[j].seen {
        assert caches[j].seen + [] == caches[j].seen;
      }
    }

    method TryToWakeUp(task: Task, taskState: bv32, mask: bv32, onRq: i32, pidTgid: u64, comm: string,
                       stacks: Stacks, ts: u64)
      requires Valid()
      modifies this`start, this`hooks
      ensures Valid() && hooks == old(hooks) + [Wakeup(task, taskState, mask, onRq, pidTgid, comm, stacks, ts)]
    {
      hide Woken, Rings, Recorded, IsTarget, Run, Sent, Marked;
      ghost var h := Wakeup(task, taskState, mask, onRq, pidTgid, comm, stacks, ts);
      OneMoreWakeup(args, hooks, h);
      Wake(h, task, taskState, mask, onRq, pidTgid, comm, stacks, ts);
      Pass(h);
    }

    /** The previous task of a switch leaves the CPU. */
    method LeaveCpu(ghost h: Hook, prev: Task, ts: u64, cpu: u32)
      requires h.Switch? && h.prev == prev && h.ts == ts && h.cpu == cpu
      modifies this`start
      ensures start == Out(old(start), args, h)
    {
      if IsTarget(args, prev.tgid, prev.pid) {
        if prev.pid !in start {
          start := Put(start, prev.pid,
                       Trace(NoWaker(), Target(prev.pid, prev.tgid, prev.comm, 0, ts, 0, cpu, 0, prev.runDelay)));
        } else {
          var ep := start[prev.pid];
          var target := ep.target.(offcpuNs := ts);
          target := target.(offcpuId := cpu);
          target := target.(runDelayNs := prev.runDelay);
          start := start[prev.pid := Trace(ep.waker, target)];
        }
      }
    }

    /** The current task comes onto the CPU; long means that it waited too long on the run queue. */
    method EnterCpu(ghost h: Hook, cur: Task, ts: u64, cpu: u32, stacks: Stacks) returns (long: bool)
      requires h.Switch? && h.cur == cur && h.ts == ts && h.cpu == cpu && h.stacks == stacks
      modifies this`start, this`perf, this`marked
      ensures start == In(old(start), args, h)
      ensures
        var e := Emitted(old(start), args, h);
        && (long <==> e.Some? && Long(args, e.value))
        && marked == old(marked) + (if long then {cpu} else {})
        && perf == old(perf) +
             if e.Some? then [Message(e.value, cpu in marked, if cpu in marked then cpu else 0)] else []
    {
      hide IsTarget, Millis;
      long := false;
      if !IsTarget(args, cur.tgid, cur.pid) || cur.pid !in start { return; }
      var ep := start[cur.pid];
      var target := ep.target.(oncpuId := cpu);
      target := target.(oncpuNs := ts);
      var delta := Millis(ts, target.offcpuNs) % TWO_32;
      if delta >= args.minOffcpuMs && delta <= args.maxOffcpuMs && target.offcpuNs != 0 {
        var runqDur := Millis(cur.runDelay, target.runDelayNs) % TWO_32;
        var event := Event(target, stacks, ep.waker, ts, SignExtended(delta), SignExtended(runqDur));
        event := event.(target := event.target.(comm := cur.comm));
        if runqDur > args.rqDurMs && args.rqDurMs != 0 {
          long := true;
          marked := marked + {cpu};
        }
        perf := perf + [Message(event, cpu in marked, if cpu in marked then cpu else 0)];
      }
      start := start[cur.pid := Trace(ep.waker, target.(runDelayNs := cur.runDelay))];
    }

    /** The switch goes in the ring of its CPU. */
    method Keep(ghost h: Hook, prev: Task, ts: u64, cpu: u32)
      requires h.Switch? && h.prev == prev && h.ts == ts && h.cpu == cpu < |caches| && Rings()
      modifies this`hooks, Parts()
      ensures hooks == old(hooks) + [h] && hooks[..|hooks| - 1] == old(hooks) && Rings()
    {
      hide Mirrors;
      assert caches[cpu] in caches;
      if args.rqDurMs != 0 {
        caches[cpu].Update(prev, ts, cpu);
      }
      hooks := hooks + [h];
      assert hooks[..|hooks| - 1] == old(hooks);
      assert forall j :: 0 <= j < |caches| ==> old(caches[j].seen) + [] == old(caches[j].seen);
    }

    /** The ring of a CPU goes in the backup map, if there is room for it. */
    method DumpRing(cpu: u32)
      requires cpu < |caches| && Rings()
      modifies this`backup, Parts()
      ensures Rings()
      ensures
        if cpu in old(backup) || |old(backup)| < BACKUP_ENTRIES
        then cpu in backup && Mirrors(backup[cpu], Recorded(args, hooks, cpu)) && backup == old(backup)[cpu := backup[cpu]]
        else backup == old(backup)
    {
      hide Mirrors;
      assert caches[cpu] in caches;
      backup := caches[cpu].Dump(backup, cpu);
    }

    method SchedSwitch(prev: Task, cur: Task, ts: u64, cpu: u32, stacks: Stacks)
      requires Valid() && cpu < |caches|
      modifies this`start, this`backup, this`perf, this`marked, this`hooks, Parts()
      ensures Valid() && hooks == old(hooks) + [Switch(prev, cur, ts, cpu, stacks)]
      ensures
        var e := Emitted(Out(old(start), args, Switch(prev, cur, ts, cpu, stacks)), args, Switch(prev, cur, ts, cpu, stacks));
        var dumped := e.Some? && Long(args, e.value) && (cpu in old(backup) || |old(backup)| < BACKUP_ENTRIES);
        if dumped
        then cpu in backup && Mirrors(backup[cpu], Recorded(args, hooks, cpu)) && backup == old(backup)[cpu := backup[cpu]]
        else backup == old(backup)
    {
      hide Mirrors, Out, In, Emitted, IsTarget, Rings, Recorded, Run, Sent, Marked, Long;
      ghost var h := Switch(prev, cur, ts, cpu, stacks);
      OneMoreSwitch(args, hooks, h);
      Keep(h, prev, ts, cpu);
      LeaveCpu(h, prev, ts, cpu);
      var long := EnterCpu(h, cur, ts, cpu, stacks);
      if long {
        DumpRing(cpu);
      }
    }
  }
}
