/** The waiters of a lock: its user count, and the highest user count there ever was. */
module FutexWaiters {
  import opened Bytes
  import opened HashMaps
  import opened FutexModel

  function Threads(start: map<u64, Val>, a: u64): (r: set<u64>)
  {
    set t | t in start && start[t].uaddr == a
  }

  /** How many threads wait for the lock at an address. */
  function Waiters(start: map<u64, Val>, a: u64): (n: nat)
  {
    |Threads(start, a)|
  }

  function UserCount(locks: map<u64, LockStat>, a: u64): (n: nat)
  {
    if a in locks then locks[a].userCnt else 0
  }

  function MaxUserCount(locks: map<u64, LockStat>, a: u64): (n: nat)
  {
    if a in locks then locks[a].maxUserCnt else 0
  }

  /** The user count of every lock is the number of threads that wait for it. */
  ghost predicate Consistent(s: State)
  {
    && |s.start| <= MAX_ENTRIES
    && forall a: u64 :: UserCount(s.locks, a) == Waiters(s.start, a)
  }

  lemma {:induction false} SubsetSize<T>(a: set<T>, b: set<T>)
    requires a <= b
    ensures |a| <= |b|
  {
    if a != {} {
      var x :| x in a;
      SubsetSize(a - {x}, b - {x});
    }
  }

  lemma {:induction false} WaitersBelow(start: map<u64, Val>, a: u64)
    ensures Waiters(start, a) <= |start|
  {
    assert Threads(start, a) <= start.Keys;
    SubsetSize(Threads(start, a), start.Keys);
  }

  lemma {:induction false} WaitersJoin(start: map<u64, Val>, t: u64, v: Val, a: u64)
    requires t !in start
    ensures Waiters(start[t := v], a) == Waiters(start, a) + if v.uaddr == a then 1 else 0
  {
    assert Threads(start[t := v], a) == Threads(start, a) + if v.uaddr == a then {t} else {};
  }

  lemma {:induction false} WaitersLeave(start: map<u64, Val>, t: u64, a: u64)
    requires t in start
    ensures Waiters(start - {t}, a) == Waiters(start, a) - if start[t].uaddr == a then 1 else 0
  {
    if start[t].uaddr == a {
      assert t in Threads(start, a);
      assert Threads(start - {t}, a) == Threads(start, a) - {t};
    } else {
      assert Threads(start - {t}, a) == Threads(start, a);
    }
  }

  /**
   * The guard of a wanted call: the thread is not waiting yet, and either both maps have room
   * for it or neither map changes.
   */
  predicate Admitted(s: State, args: Args, c: Call)
    requires c.Enter?
  {
    Wanted(args, c) ==>
      && c.pidTgid !in s.start
      && (if Room(s.start, c.pidTgid) then Room(s.locks, c.uaddr) else !Room(s.locks, c.uaddr))
  }

  /** A call to futex_enter keeps the counts right exactly when it is admitted. */
  lemma {:induction false} EnterKeepsConsistent(s: State, args: Args, c: Call)
    requires Consistent(s) && c.Enter?
    ensures Consistent(Entered(s, args, c)) <==> Admitted(s, args, c)
  {
    if Wanted(args, c) {
      var t, a, v := c.pidTgid, c.uaddr, Val(c.ts, c.uaddr);
      var r := Entered(s, args, c);
      WaitersBelow(s.start, a);
      assert UserCount(s.locks, a) == Waiters(s.start, a);
      if t in s.start {
        var b := s.start[t].uaddr;
        assert UserCount(s.locks, b) == Waiters(s.start, b);
        WaitersReplace(s.start, t, v);
        assert UserCount(r.locks, b) != Waiters(r.start, b);
      } else if Room(s.start, t) {
        forall b: u64 ensures Waiters(r.start, b) == Waiters(s.start, b) + if a == b then 1 else 0 {
          WaitersJoin(s.start, t, v, b);
        }
        assert UserCount(r.locks, a) == Waiters(r.start, a) <==> Room(s.locks, a);
        if Room(s.locks, a) {
          forall b: u64 ensures UserCount(r.locks, b) == Waiters(r.start, b) {
            assert UserCount(s.locks, b) == Waiters(s.start, b);
          }
        }
      } else if Room(s.locks, a) {
        assert UserCount(r.locks, a) != Waiters(r.start, a);
      }
    }
  }

  /** A thread that enters twice in a row is counted twice. */
  lemma {:induction false} CountedTwice(args: Args, atomic: bool, c: Call)
    requires c.Enter? && Wanted(args, c)
    ensures
      var s := Run(args, atomic, [c, c]);
      UserCount(s.locks, c.uaddr) == 2 && Waiters(s.start, c.uaddr) == 1
  {
    var twice, v := [c, c], Val(c.ts, c.uaddr);
    assert twice[..1] == [c] && [c][..0] == [];
    var s := Run(args, atomic, [c]);
    assert s == Entered(Run(args, atomic, []), args, c);
    assert s.start == map[c.pidTgid := v];
    assert Run(args, atomic, twice) == Entered(s, args, c);
    assert Threads(s.start[c.pidTgid := v], c.uaddr) == {c.pidTgid};
  }

  lemma {:induction false} WaitersReplace(start: map<u64, Val>, t: u64, v: Val)
    requires t in start
    ensures
      var b := start[t].uaddr;
      Waiters(start[t := v], b) == Waiters(start, b) - (if v.uaddr == b then 0 else 1) && Waiters(start, b) > 0
  {
    var b := start[t].uaddr;
    assert t in Threads(start, b);
    if v.uaddr == b {
      assert Threads(start[t := v], b) == Threads(start, b);
    } else {
      assert Threads(start[t := v], b) == Threads(start, b) - {t};
    }
  }

  /** A call to futex_exit always does: the count it takes one from is positive. */
  lemma {:induction false} ExitKeepsConsistent(s: State, args: Args, atomic: bool, c: Call)
    requires Consistent(s) && c.Exit?
    ensures Consistent(Exited(s, args, atomic, c))
    ensures c.pidTgid in s.start ==> UserCount(s.locks, s.start[c.pidTgid].uaddr) > 0
  {
    hide Recorded, Counted, Reported, Extremes;
    if c.pidTgid in s.start {
      var t := c.pidTgid;
      var a, r := s.start[t].uaddr, Exited(s, args, atomic, c);
      assert t in Threads(s.start, a);
      assert UserCount(s.locks, a) == Waiters(s.start, a) > 0;
      forall b: u64 ensures UserCount(r.locks, b) == Waiters(r.start, b) {
        assert UserCount(s.locks, b) == Waiters(s.start, b);
        WaitersLeave(s.start, t, b);
      }
    }
  }

  /** Every call to futex_enter of the run is admitted. */
  ghost predicate Orderly(args: Args, atomic: bool, calls: seq<Call>)
  {
    calls == [] ||
    (var before, c := calls[..|calls| - 1], calls[|calls| - 1];
     Orderly(args, atomic, before) && (c.Enter? ==> Admitted(Run(args, atomic, before), args, c)))
  }

  /** The counts are right all along the run. */
  ghost predicate AlwaysConsistent(args: Args, atomic: bool, calls: seq<Call>)
  {
    Consistent(Run(args, atomic, calls)) && (calls == [] || AlwaysConsistent(args, atomic, calls[..|calls| - 1]))
  }

  /** The most threads that ever waited for the lock at once. */
  function Peak(args: Args, atomic: bool, calls: seq<Call>, a: u64): (n: nat)
    ensures n >= Waiters(Run(args, atomic, calls).start, a)
  {
    var now := Waiters(Run(args, atomic, calls).start, a);
    if calls == [] then now
    else
      var before := Peak(args, atomic, calls[..|calls| - 1], a);
      if now > before then now else before
  }

  lemma {:induction false} EmptyConsistent(args: Args, atomic: bool)
    ensures Consistent(Run(args, atomic, []))
    ensures forall a: u64 :: Peak(args, atomic, [], a) == 0
  {
    forall a: u64 ensures Waiters(Run(args, atomic, []).start, a) == 0 {
      assert Threads(map[], a) == {};
    }
  }

  /** Over whole runs: the counts are right all along exactly when all calls are admitted. */
  lemma {:induction false} OrderlyRuns(args: Args, atomic: bool, calls: seq<Call>)
    ensures AlwaysConsistent(args, atomic, calls) <==> Orderly(args, atomic, calls)
  {
    hide Consistent, Admitted, Entered, Exited;
    if calls == [] {
      EmptyConsistent(args, atomic);
    } else {
      var before, c := calls[..|calls| - 1], calls[|calls| - 1];
      OrderlyRuns(args, atomic, before);
      var s := Run(args, atomic, before);
      if AlwaysConsistent(args, atomic, before) {
        if c.Enter? { EnterKeepsConsistent(s, args, c); } else { ExitKeepsConsistent(s, args, atomic, c); }
      }
    }
  }

  lemma {:induction false} PeakEnter(s: State, args: Args, c: Call, peak: nat)
    requires c.Enter? && Consistent(s) && Admitted(s, args, c)
    requires peak >= Waiters(s.start, c.uaddr)
    requires peak == MaxUserCount(s.locks, c.uaddr) && (c.uaddr in s.locks <==> peak > 0)
    ensures
      var r := Entered(s, args, c);
      var now := Waiters(r.start, c.uaddr);
      && Consistent(r)
      && MaxUserCount(r.locks, c.uaddr) == (if now > peak then now else peak)
      && (c.uaddr in r.locks <==> now > 0 || peak > 0)
  {
    var r, a := Entered(s, args, c), c.uaddr;
    EnterKeepsConsistent(s, args, c);
    assert UserCount(s.locks, a) == Waiters(s.start, a);
    assert UserCount(r.locks, a) == Waiters(r.start, a);
    WaitersBelow(s.start, a);
    WaitersBelow(r.start, a);
  }

  /** Entering for one lock leaves the other locks as they were. */
  lemma {:induction false} EnterElsewhere(s: State, args: Args, c: Call, a: u64)
    requires c.Enter? && a != c.uaddr && c.pidTgid !in s.start
    ensures
      var r := Entered(s, args, c);
      && MaxUserCount(r.locks, a) == MaxUserCount(s.locks, a) && (a in r.locks <==> a in s.locks)
      && Waiters(r.start, a) == Waiters(s.start, a)
  {
    WaitersJoin(s.start, c.pidTgid, Val(c.ts, c.uaddr), a);
  }

  lemma {:induction false} ExitMax(s: State, args: Args, atomic: bool, c: Call, a: u64)
    requires c.Exit?
    ensures
      var r := Exited(s, args, atomic, c);
      && MaxUserCount(r.locks, a) == MaxUserCount(s.locks, a) && (a in r.locks <==> a in s.locks)
      && Waiters(r.start, a) <= Waiters(s.start, a)
  {
    hide Recorded, Counted, Reported, Extremes;
    if c.pidTgid in s.start { WaitersLeave(s.start, c.pidTgid, a); }
  }

  /** In an orderly run the highest user count is the peak, and a lock is known once it had a waiter. */
  lemma {:induction false} MaxUsersIsPeak(args: Args, atomic: bool, calls: seq<Call>, a: u64)
    requires Orderly(args, atomic, calls)
    ensures Consistent(Run(args, atomic, calls))
    ensures MaxUserCount(Run(args, atomic, calls).locks, a) == Peak(args, atomic, calls, a)
    ensures a in Run(args, atomic, calls).locks <==> Peak(args, atomic, calls, a) > 0
  {
    hide Consistent, Admitted, Entered, Exited, Waiters, MaxUserCount;
    if calls == [] {
      EmptyConsistent(args, atomic);
      assert MaxUserCount(map[], a) == 0 by { NoLocks(a); }
    } else {
      var before, c := calls[..|calls| - 1], calls[|calls| - 1];
      MaxUsersIsPeak(args, atomic, before, a);
      var s := Run(args, atomic, before);
      if c.Exit? {
        ExitKeepsConsistent(s, args, atomic, c);
        ExitMax(s, args, atomic, c, a);
      } else if c.uaddr == a {
        PeakEnter(s, args, c, Peak(args, atomic, before, a));
      } else {
        EnterKeepsConsistent(s, args, c);
        NotWaiting(s, args, c);
        if Wanted(args, c) { EnterElsewhere(s, args, c, a); }
      }
    }
  }

  lemma {:induction false} NoLocks(a: u64)
    ensures MaxUserCount(map[], a) == 0
  {}

  lemma {:induction false} NotWaiting(s: State, args: Args, c: Call)
    requires c.Enter? && Admitted(s, args, c)
    ensures if Wanted(args, c) then c.pidTgid !in s.start else Entered(s, args, c) == s
  {}

  /** A lock is reported when a thread joins one that had waiters before and whose peak is above the threshold. */
  lemma {:induction false} LockReported(args: Args, atomic: bool, calls: seq<Call>, c: Call)
    requires c.Enter? && Wanted(args, c) && Orderly(args, atomic, calls + [c])
    ensures
      var was, now := Peak(args, atomic, calls, c.uaddr), Peak(args, atomic, calls + [c], c.uaddr);
      var s, r := Run(args, atomic, calls), Run(args, atomic, calls + [c]);
      if was > 0 && now > args.maxLockHoldUsers
      then c.uaddr in r.locks &&
        r.reports == s.reports + [LockReport(r.locks[c.uaddr].(comm := c.comm, pidTgid := c.pidTgid, ts := c.ts))]
      else r.reports == s.reports
  {
    hide Consistent, Admitted, Waiters, Peak, Orderly;
    var all := calls + [c];
    assert all[..|all| - 1] == calls && all[|all| - 1] == c;
    assert Orderly(args, atomic, calls) by { OrderlyBefore(args, atomic, calls, c); }
    MaxUsersIsPeak(args, atomic, calls, c.uaddr);
    MaxUsersIsPeak(args, atomic, all, c.uaddr);
  }

  lemma {:induction false} OrderlyBefore(args: Args, atomic: bool, calls: seq<Call>, c: Call)
    requires Orderly(args, atomic, calls + [c])
    ensures Orderly(args, atomic, calls)
  {
    var all := calls + [c];
    assert all[..|all| - 1] == calls;
  }
}
