/** The handlers of pkg/ebpf/cpu/futexsnoop/futexsnoop.bpf.c, which update the maps in place. */
module Futex {
  import opened Bytes
  import opened Bits
  import opened HashMaps
  import opened FutexModel

  class FutexSnoop {
    const args: Args
    const atomic: bool  // __TARGET_ARCH_amd64 is defined
    var start: map<u64, Val>
    var lockMap: map<u64, LockStat>
    var histsMap: map<HistKey, Hist>
    var perf: seq<Report>
    ghost var calls: seq<Call>

    constructor (args: Args, atomic: bool)
      ensures Valid() && calls == [] && this.args == args && this.atomic == atomic
    {
      this.args, this.atomic := args, atomic;
      start, lockMap, histsMap, perf := map[], map[], map[], [];
      calls := [];
    }

    ghost function State(): (s: State)
      reads this
    {
      FutexModel.State(start, lockMap, histsMap, perf)
    }

    /** The maps are what the calls so far make of empty maps. */
    ghost predicate Valid()
      reads this
    {
      State() == Run(args, atomic, calls)
    }

    ghost method Note(c: Call)
      requires State() == Step(Run(args, atomic, calls), args, atomic, c)
      modifies this`calls
      ensures Valid() && calls == old(calls) + [c]
    {
      calls := calls + [c];
      assert calls[..|calls| - 1] == old(calls);
    }

    method FutexEnter(op: bv32, uaddr: u64, pidTgid: u64, ts: u64, comm: string)
      requires Valid()
      modifies this
      ensures Valid() && calls == old(calls) + [Enter(op, uaddr, pidTgid, ts, comm)]
      ensures histsMap == old(histsMap)
    {
      hide Run, Step, Room, Put;
      ghost var c := Enter(op, uaddr, pidTgid, ts, comm);
      assert Step(State(), args, atomic, c) == Entered(State(), args, c) by { EnterIs(State(), args, atomic, c); }
      if op & !(0x80 | 0x100) != 0 {
        Note(c);
        return;
      }
      var tid, pid := pidTgid % TWO_32, pidTgid / TWO_32;
      if args.targPid != 0 && args.targPid != pid {
        Note(c);
        return;
      }
      if args.targTid != 0 && args.targTid != tid {
        Note(c);
        return;
      }
      if args.targLock != 0 && args.targLock != uaddr {
        Note(c);
        return;
      }
      start := Put(start, pidTgid, Val(ts, uaddr));
      if uaddr in lockMap {
        var lock := lockMap[uaddr];
        lock := lock.(userCnt := (lock.userCnt + 1) % TWO_32);
        if lock.userCnt > lock.maxUserCnt {
          lock := lock.(maxUserCnt := lock.userCnt);
        }
        lockMap := lockMap[uaddr := lock];
        if lock.maxUserCnt > args.maxLockHoldUsers {
          var event := lock.(pidTgid := pidTgid);
          event := event.(ts := ts);
          event := event.(comm := comm);
          perf := perf + [LockReport(event)];
        }
      } else {
        lockMap := Put(lockMap, uaddr, LockStat(1, 1, uaddr, "", 0, 0));
      }
      Note(c);
    }

    /** Looks a histogram up; a key without one gets an empty one, if the map has room. */
    method LookupOrTryInit(key: HistKey) returns (found: bool)
      modifies this`histsMap
      ensures found == (key in histsMap) == Room(old(histsMap), key)
      ensures histsMap == if found && key !in old(histsMap) then old(histsMap)[key := NewHist()] else old(histsMap)
    {
      if key in histsMap { return true; }
      if |histsMap| >= MAX_ENTRIES { return false; }
      histsMap := histsMap[key := NewHist()];
      found := true;
    }

    /** Counts a wait in its histogram. */
    method Count(key: HistKey, delta: nat, ts: u64, comm: string)
      requires key in histsMap && delta < TWO_63
      modifies this`histsMap
      ensures histsMap == old(histsMap)[key := Counted(old(histsMap)[key], Wait(key, delta, ts), atomic, comm)]
    {
      var hist := histsMap[key];
      var slot := Log2l(delta);
      if slot >= MAX_SLOTS {
        slot := MAX_SLOTS - 1;
      }
      hist := hist.(slots := hist.slots[slot := (hist.slots[slot] + 1) % TWO_32]);
      hist := hist.(contended := (hist.contended + 1) % TWO_64);
      hist := hist.(totalElapsed := (hist.totalElapsed + delta) % TWO_64);
      var min, max;
      if atomic {
        min := hist.minDur;
        if min == 0 || min > delta {
          hist := hist.(minDur := delta);
        }
        max := hist.maxDur;
        if max < delta {
          hist := hist.(maxDur := delta);
          hist := hist.(maxDurTs := ts);
        }
      } else {
        min := hist.minDur;
        if min == 0 || min > delta {
          hist := hist.(minDur := delta);
        }
        max := hist.maxDur;
        if max < delta {
          hist := hist.(maxDur := max);
          hist := hist.(maxDurTs := ts);
        }
      }
      hist := hist.(comm := comm);
      histsMap := histsMap[key := hist];
    }

    /** Reports the wait just counted if it is within the thresholds and above the average. */
    method Tell(key: HistKey, delta: nat)
      requires key in histsMap && delta < TWO_63
      modifies this`histsMap, this`perf
      ensures
        var h := old(histsMap)[key];
        var told := h.(pidTgid := key.pidTgid, uaddr := key.uaddr, userStackId := key.userStackId, deltaDur := delta);
        if Reported(args, h, delta)
        then histsMap == old(histsMap)[key := told] && perf == old(perf) + [WaitReport(told)]
        else histsMap == old(histsMap) && perf == old(perf)
    {
      var avg := Average(histsMap[key]);
      if delta > args.minDur && delta < args.maxDur && delta > avg {
        var hist := histsMap[key];
        hist := hist.(uaddr := key.uaddr);
        hist := hist.(pidTgid := key.pidTgid);
        hist := hist.(userStackId := key.userStackId);
        hist := hist.(deltaDur := delta);
        histsMap := histsMap[key := hist];
        perf := perf + [WaitReport(hist)];
      }
    }

    /** Puts a wait in the histogram of its key, unless there is none and no room for one. */
    method Record(key: HistKey, delta: nat, ts: u64, comm: string) returns (found: bool)
      requires delta < TWO_63
      modifies this`histsMap, this`perf
      ensures found == Room(old(histsMap), key)
      ensures State() == if found then Told(old(State()), args, atomic, Wait(key, delta, ts), comm) else old(State())
    {
      hide Counted, Reported;
      found := LookupOrTryInit(key);
      if found {
        Count(key, delta, ts, comm);
        Tell(key, delta);
      }
    }

    method FutexExit(ret: i32, stackId: i32, pidTgid: u64, ts: u64, comm: string)
      requires Valid()
      modifies this
      ensures Valid() && calls == old(calls) + [Exit(ret, stackId, pidTgid, ts, comm)]
      ensures pidTgid !in start
    {
      hide Run, Told, Step, Gone, Room;
      ghost var c := Exit(ret, stackId, pidTgid, ts, comm);
      ghost var s0 := State();
      ExitSplits(s0, args, atomic, c);
      if pidTgid !in start {
        Note(c);
        return;
      }
      var v := start[pidTgid];
      if v.uaddr in lockMap {
        var lock := lockMap[v.uaddr];
        lock := lock.(userCnt := (lock.userCnt - 1) % TWO_32);
        lockMap := lockMap[v.uaddr := lock];
      }
      ghost var s1 := State();
      assert s1.(start := start - {pidTgid}) == Gone(s0, pidTgid) by { GoneIs(s0, pidTgid); }
      var delta := ToInt((ts - v.ts) % TWO_64);
      if ret >= 0 && delta >= 0 {
        var key := HistKey(pidTgid, v.uaddr, if args.stack then stackId else 0);
        delta := delta / 1000;
        ToldApart(s1, pidTgid, args, atomic, Wait(key, delta, ts), comm);
        var found := Record(key, delta, ts, comm);
      }
      start := start - {pidTgid};
      Note(c);
    }
  }

  lemma {:induction false} EnterIs(s: State, args: Args, atomic: bool, c: Call)
    requires c.Enter?
    ensures Step(s, args, atomic, c) == Entered(s, args, c)
  {}

  lemma {:induction false} GoneIs(s: State, t: u64)
    requires t in s.start
    ensures
      var a, r := s.start[t].uaddr, Gone(s, t);
      && r.start == s.start - {t} && r.hists == s.hists && r.reports == s.reports
      && r.locks == if a in s.locks then s.locks[a := Left(s.locks[a])] else s.locks
  {}

  /** What a call to futex_exit comes to. */
  lemma {:induction false} ExitSplits(s: State, args: Args, atomic: bool, c: Call)
    requires c.Exit?
    ensures c.pidTgid !in s.start ==> Step(s, args, atomic, c) == s
    ensures c.pidTgid in s.start ==>
      var ns := Elapsed(c.ts, s.start[c.pidTgid].ts);
      var left, key := Gone(s, c.pidTgid), KeyOf(args, s.start[c.pidTgid], c);
      Step(s, args, atomic, c) ==
        if c.ret >= 0 && ns >= 0 && Room(s.hists, key)
        then Told(left, args, atomic, Wait(key, ns / 1000, c.ts), c.comm) else left
  {
    hide Told, Gone, Room;
  }

  /** Recording a wait and forgetting its thread do not interfere. */
  lemma {:induction false} ToldApart(s: State, t: u64, args: Args, atomic: bool, w: Wait, comm: string)
    requires w.us < TWO_63
    ensures
      var r := Told(s, args, atomic, w, comm);
      Told(s.(start := s.start - {t}), args, atomic, w, comm) == r.(start := r.start - {t})
  {
    hide Counted, Reported;
  }
}
