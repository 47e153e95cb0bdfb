/** No record is lost or counted twice: what was dumped and what is kept add up to what was recorded. */
module AggregatorTotals {
  import opened Bytes
  import opened Options
  import opened AggValues
  import opened Aggregator
  import opened AggregatorRuns

  /** One aggregated value: of a metric, under a block name and key, the one at an index. */
  datatype Slot = Slot(name: string, key: Key, metric: string, index: nat)

  predicate Configured(config: Config, sl: Slot)
  {
    sl.metric in config && sl.index < |config[sl.metric]|
  }

  /** The total of a figure f over what the value at a slot was fed in a value map. */
  function FedWeight(vm: ValuesMap, sl: Slot, f: Feed -> int): (w: int)
  {
    if sl.metric in vm.values && sl.index < |vm.values[sl.metric]| then Weight(vm.values[sl.metric][sl.index].fed, f) else 0
  }

  function HeapWeight(heap: seq<ValuesMap>, v: nat, sl: Slot, f: Feed -> int): (w: int)
  {
    if v < |heap| then FedWeight(heap[v], sl, f) else 0
  }

  /** The total over what is kept for the next dump. */
  function LiveWeight(s: State, sl: Slot, f: Feed -> int): (w: int)
    requires RecordersSound(s)
  {
    if Live(s, sl.name, sl.key).Some? then HeapWeight(s.valuesHeap, Live(s, sl.name, sl.key).value, sl, f) else 0
  }

  /** The total over what was dumped. */
  function DumpedWeight(heap: seq<ValuesMap>, dumps: seq<Dumped>, sl: Slot, f: Feed -> int): (w: int)
  {
    if dumps == [] then 0
    else
      var last := dumps[|dumps| - 1];
      DumpedWeight(heap, dumps[..|dumps| - 1], sl, f) +
      if (sl.name, sl.key) in last then HeapWeight(heap, last[(sl.name, sl.key)], sl, f) else 0
  }

  /** What a block has for a slot in its first n metrics. */
  function BlockWeight(b: Block, n: nat, sl: Slot, f: Feed -> int): (w: int)
    requires n <= |b.metrics|
  {
    if n == 0 then 0 else BlockWeight(b, n - 1, sl, f) + MetricWeight(b, n - 1, sl, f)
  }

  function MetricWeight(b: Block, x: nat, sl: Slot, f: Feed -> int): (w: int)
    requires x < |b.metrics|
  {
    var m := b.metrics[x];
    if b.name == sl.name && b.key == sl.key && m.name == sl.metric && m.data.Some? then f(m.data.value) else 0
  }

  function DoneWeight(done: seq<Block>, sl: Slot, f: Feed -> int): (w: int)
  {
    if done == [] then 0
    else
      var b := done[|done| - 1];
      DoneWeight(done[..|done| - 1], sl, f) + BlockWeight(b, |b.metrics|, sl, f)
  }

  function LostWeight(lost: seq<(Block, nat)>, sl: Slot, f: Feed -> int): (w: int)
  {
    if lost == [] then 0
    else
      var e := lost[|lost| - 1];
      LostWeight(lost[..|lost| - 1], sl, f) + if e.1 < |e.0.metrics| then MetricWeight(e.0, e.1, sl, f) else 0
  }

  /** What a thread has recorded of its block so far. */
  function ThreadWeight(th: Thread, sl: Slot, f: Feed -> int): (w: int)
  {
    if !th.Calculate? || th.metric > |th.block.metrics| then 0
    else
      BlockWeight(th.block, th.metric, sl, f) +
      if th.metric < |th.block.metrics| && sl.index < th.index then MetricWeight(th.block, th.metric, sl, f) else 0
  }

  function ThreadsWeight(ths: seq<Thread>, sl: Slot, f: Feed -> int): (w: int)
  {
    if ths == [] then 0 else ThreadsWeight(ths[..|ths| - 1], sl, f) + ThreadWeight(ths[|ths| - 1], sl, f)
  }

  /** At any time, with the threads wherever they are. */
  ghost predicate Conserved(s: State, sl: Slot, f: Feed -> int)
    requires RecordersSound(s)
  {
    DumpedWeight(s.valuesHeap, s.dumps, sl, f) + LiveWeight(s, sl, f) + LostWeight(s.lost, sl, f) ==
    DoneWeight(s.done, sl, f) + ThreadsWeight(s.threads, sl, f)
  }

  lemma {:induction false} ThreadMoves(ths: seq<Thread>, t: nat, th: Thread, sl: Slot, f: Feed -> int)
    requires t < |ths|
    ensures ThreadsWeight(ths[t := th], sl, f) ==
            ThreadsWeight(ths, sl, f) - ThreadWeight(ths[t], sl, f) + ThreadWeight(th, sl, f)
  {
    hide ThreadWeight;
    var n := |ths| - 1;
    if t == n {
      assert ths[t := th][..n] == ths[..n];
    } else {
      assert ths[t := th][..n] == ths[..n][t := th];
      ThreadMoves(ths[..n], t, th, sl, f);
    }
  }

  lemma {:induction false} DumpedStays(was: seq<ValuesMap>, now: seq<ValuesMap>, dumps: seq<Dumped>, sl: Slot, f: Feed -> int)
    requires |was| <= |now|
    requires forall d, nk :: 0 <= d < |dumps| && nk in dumps[d] ==>
               dumps[d][nk] < |was| && now[dumps[d][nk]] == was[dumps[d][nk]]
    ensures DumpedWeight(now, dumps, sl, f) == DumpedWeight(was, dumps, sl, f)
  {
    if dumps != [] {
      DumpedStays(was, now, dumps[..|dumps| - 1], sl, f);
    }
  }

  /** A step that leaves what is live, dumped, done and lost alone, and the weight of its thread. */
  lemma {:induction false} QuietStep(s: State, r: State, t: nat, sl: Slot, f: Feed -> int)
    requires RecordersSound(s) && RecordersSound(r) && Conserved(s, sl, f)
    requires t < |s.threads| && |r.threads| == |s.threads| && r.threads == s.threads[t := r.threads[t]]
    requires ThreadWeight(r.threads[t], sl, f) == ThreadWeight(s.threads[t], sl, f)
    requires DumpedWeight(r.valuesHeap, r.dumps, sl, f) == DumpedWeight(s.valuesHeap, s.dumps, sl, f)
    requires LiveWeight(r, sl, f) == LiveWeight(s, sl, f)
    requires r.lost == s.lost && r.done == s.done
    ensures Conserved(r, sl, f)
  {
    hide DumpedWeight, LiveWeight, ThreadsWeight, ThreadWeight, LostWeight, DoneWeight, RecordersSound;
    ThreadMoves(s.threads, t, r.threads[t], sl, f);
  }

  /** The same value map is live, and nothing was added to it. */
  lemma {:induction false} LiveStays(s: State, r: State, sl: Slot, f: Feed -> int)
    requires RecordersSound(s) && RecordersSound(r)
    requires Live(r, sl.name, sl.key) == Live(s, sl.name, sl.key)
    requires Live(s, sl.name, sl.key).Some? ==>
               HeapWeight(r.valuesHeap, Live(s, sl.name, sl.key).value, sl, f) ==
               HeapWeight(s.valuesHeap, Live(s, sl.name, sl.key).value, sl, f)
    ensures LiveWeight(r, sl, f) == LiveWeight(s, sl, f)
  {}

  /** What was dumped is not written: the heap may change elsewhere and grow. */
  lemma {:induction false} RetiredStays(config: Config, s: State, now: seq<ValuesMap>, sl: Slot, f: Feed -> int)
    requires Good(config, s) && |s.valuesHeap| <= |now|
    requires forall v: nat :: Retired(s, v) ==> now[v] == s.valuesHeap[v]
    ensures DumpedWeight(now, s.dumps, sl, f) == DumpedWeight(s.valuesHeap, s.dumps, sl, f)
  {
    forall d, nk | 0 <= d < |s.dumps| && nk in s.dumps[d]
      ensures s.dumps[d][nk] < |s.valuesHeap| && now[s.dumps[d][nk]] == s.valuesHeap[s.dumps[d][nk]]
    {
      assert Retired(s, s.dumps[d][nk]);
    }
    DumpedStays(s.valuesHeap, now, s.dumps, sl, f);
  }

  lemma {:induction false} NewWeighsNothing(config: Config, b: Block, sl: Slot, f: Feed -> int)
    ensures FedWeight(NewValues(config, b), sl, f) == 0
  {}

  lemma {:induction false} SameLive(s: State, r: State, sl: Slot)
    requires RecordersSound(s) && RecordersSound(r)
    requires r.recorders == s.recorders && r.recorderHeap == s.recorderHeap
    ensures Live(r, sl.name, sl.key) == Live(s, sl.name, sl.key)
  {}

  /** Finding a recorder or a value map, or making a recorder, changes no total. */
  lemma {:induction false} LoadConserves(config: Config, s: State, t: nat, sl: Slot, f: Feed -> int)
    requires Good(config, s) && Conserved(s, sl, f) && t < |s.threads|
    requires s.threads[t].LoadRecorder? || s.threads[t].StoreRecorder? || s.threads[t].LoadValues?
    requires Good(config, Advance(config, s, t))
    ensures Conserved(Advance(config, s, t), sl, f)
  {
    hide Shaped, RecordersSound, Live, DumpedWeight, Retired, LiveWeight, HeapWeight, Conserved;
    var r, th := Advance(config, s, t), s.threads[t];
    if th.StoreRecorder? { StoreRecorderLive(s, t, th.block); } else { SameLive(s, r, sl); }
    LiveStays(s, r, sl, f);
    QuietStep(s, r, t, sl, f);
  }

  lemma {:induction false} StoredWeight(config: Config, s: State, t: nat, b: Block, i: nat, sl: Slot, f: Feed -> int)
    requires RecordersSound(s) && t < |s.threads| && Current(s, StoreValues(b, i))
    requires RecordersSound(StoreValuesStep(config, s, t, b, i))
    ensures LiveWeight(StoreValuesStep(config, s, t, b, i), sl, f) == LiveWeight(s, sl, f)
  {
    hide RecordersSound, Live, NewValues, FedWeight;
    HeldInHeap(s, b, i);
    StoreValuesLive(config, s, t, b, i);
    NewWeighsNothing(config, b, sl, f);
    if Live(s, sl.name, sl.key).Some? { LiveInHeap(s, sl.name, sl.key); }
  }

  /** Nor does making a value map. */
  lemma {:induction false} StoreConserves(config: Config, s: State, t: nat, sl: Slot, f: Feed -> int)
    requires Good(config, s) && Conserved(s, sl, f) && t < |s.threads| && s.threads[t].StoreValues?
    requires Good(config, Advance(config, s, t))
    ensures Conserved(Advance(config, s, t), sl, f)
  {
    hide Shaped, RecordersSound, Live, DumpedWeight, Retired, LiveWeight, HeapWeight, NewValues, Conserved;
    var r, th := Advance(config, s, t), s.threads[t];
    assert Current(s, th);
    HeldInHeap(s, th.block, th.recorder);
    StoredWeight(config, s, t, th.block, th.recorder, sl, f);
    RetiredInHeap(s);
    RetiredStays(config, s, r.valuesHeap, sl, f);
    QuietStep(s, r, t, sl, f);
  }

  lemma {:induction false} RetiredInHeap(s: State)
    requires RecordersSound(s)
    ensures forall v: nat :: Retired(s, v) ==> v < |s.valuesHeap|
  {}

  lemma {:induction false} LiveNotRetired(s: State, name: string, key: Key)
    requires RecordersSound(s) && Live(s, name, key).Some?
    ensures !Retired(s, Live(s, name, key).value)
  {}

  lemma {:induction false} DonePush(done: seq<Block>, b: Block, sl: Slot, f: Feed -> int)
    ensures DoneWeight(done + [b], sl, f) == DoneWeight(done, sl, f) + BlockWeight(b, |b.metrics|, sl, f)
  {
    assert (done + [b])[..|done + [b]| - 1] == done;
  }

  lemma {:induction false} LostPush(lost: seq<(Block, nat)>, b: Block, x: nat, sl: Slot, f: Feed -> int)
    requires x < |b.metrics|
    ensures LostWeight(lost + [(b, x)], sl, f) == LostWeight(lost, sl, f) + MetricWeight(b, x, sl, f)
  {
    var all := lost + [(b, x)];
    assert all[..|all| - 1] == lost && all[|all| - 1] == (b, x);
  }

  /** A thread is done with its block. */
  lemma {:induction false} FinishConserves(config: Config, s: State, t: nat, sl: Slot, f: Feed -> int)
    requires Good(config, s) && Conserved(s, sl, f) && t < |s.threads| && s.threads[t].Calculate?
    requires s.threads[t].metric == |s.threads[t].block.metrics|
    requires Good(config, Advance(config, s, t))
    ensures Conserved(Advance(config, s, t), sl, f)
  {
    hide Shaped, RecordersSound, Live, DumpedWeight, Retired, HeapWeight, LostWeight, DoneWeight, ThreadsWeight;
    var r, b := Advance(config, s, t), s.threads[t].block;
    assert Current(s, s.threads[t]);
    SameLive(s, r, sl);
    LiveStays(s, r, sl, f);
    ThreadMoves(s.threads, t, Idle, sl, f);
    DonePush(s.done, b, sl, f);
  }

  /** A metric without values is counted as lost if it is configured. */
  lemma {:induction false} LoseConserves(config: Config, s: State, t: nat, sl: Slot, f: Feed -> int)
    requires Good(config, s) && Conserved(s, sl, f) && t < |s.threads| && s.threads[t].Calculate?
    requires Configured(config, sl) && s.threads[t].metric < |s.threads[t].block.metrics|
    requires s.threads[t].values < |s.valuesHeap|
    requires s.threads[t].block.metrics[s.threads[t].metric].name !in s.valuesHeap[s.threads[t].values].values
    requires Good(config, Advance(config, s, t))
    ensures Conserved(Advance(config, s, t), sl, f)
  {
    hide Shaped, RecordersSound, Live, DumpedWeight, Retired, HeapWeight, LostWeight, DoneWeight, ThreadsWeight;
    var r, b, x := Advance(config, s, t), s.threads[t].block, s.threads[t].metric;
    assert Current(s, s.threads[t]);
    SameLive(s, r, sl);
    LiveStays(s, r, sl, f);
    ThreadMoves(s.threads, t, r.threads[t], sl, f);
    LostPush(s.lost, b, x, sl, f);
    assert s.lost + [] == s.lost;
  }

  lemma {:induction false} FeedWeighs(vm: ValuesMap, m: string, j: nat, x: Feed, sl: Slot, f: Feed -> int)
    requires m in vm.values && j < |vm.values[m]|
    ensures FedWeight(FeedOne(vm, m, j, x), sl, f) ==
            FedWeight(vm, sl, f) + if sl.metric == m && sl.index == j then f(x) else 0
  {
    hide Weight;
    WeightPush(vm.values[m][j].fed, x, f);
  }

  /** Only the slots of its own name and key see a value map. */
  lemma {:induction false} OwnSlots(s: State, b: Block, v: nat, sl: Slot)
    requires RecordersSound(s) && Live(s, b.name, b.key) == Some(v)
    ensures Live(s, sl.name, sl.key) == Some(v) <==> sl.name == b.name && sl.key == b.key
  {
    hide RecordersSound, Live;
    LiveInHeap(s, b.name, b.key);
    if Live(s, sl.name, sl.key) == Some(v) { LiveInHeap(s, sl.name, sl.key); }
  }

  /** A value takes a metric. */
  lemma {:induction false} FeedConserves(config: Config, s: State, t: nat, sl: Slot, f: Feed -> int)
    requires Good(config, s) && Conserved(s, sl, f) && t < |s.threads| && s.threads[t].Calculate?
    requires s.threads[t].metric < |s.threads[t].block.metrics| && s.threads[t].values < |s.valuesHeap|
    requires
      var vm, m := s.valuesHeap[s.threads[t].values], s.threads[t].block.metrics[s.threads[t].metric];
      m.name in vm.values && s.threads[t].index < |vm.values[m.name]|
    requires Good(config, Advance(config, s, t))
    ensures Conserved(Advance(config, s, t), sl, f)
  {
    hide Shaped, RecordersSound, Live, DumpedWeight, Retired, LostWeight, DoneWeight, ThreadsWeight, FedWeight, FeedOne;
    var r, th := Advance(config, s, t), s.threads[t];
    var b, v, m := th.block, th.values, th.block.metrics[th.metric];
    assert Current(s, th);
    SameLive(s, r, sl);
    OwnSlots(s, b, v, sl);
    LiveNotRetired(s, b.name, b.key);
    RetiredInHeap(s);
    RetiredStays(config, s, r.valuesHeap, sl, f);
    ThreadMoves(s.threads, t, r.threads[t], sl, f);
    if m.data.Some? { FeedWeighs(s.valuesHeap[v], m.name, th.index, m.data.value, sl, f); }
  }

  lemma {:induction false} StampWeighs(vm: ValuesMap, ts: u64, sl: Slot, f: Feed -> int)
    ensures FedWeight(vm.(timestamp := ts), sl, f) == FedWeight(vm, sl, f)
  {}

  /** All values of a metric have taken it. */
  lemma {:induction false} StampConserves(config: Config, s: State, t: nat, sl: Slot, f: Feed -> int)
    requires Good(config, s) && Conserved(s, sl, f) && t < |s.threads| && s.threads[t].Calculate?
    requires Configured(config, sl)
    requires s.threads[t].metric < |s.threads[t].block.metrics| && s.threads[t].values < |s.valuesHeap|
    requires
      var vm, m := s.valuesHeap[s.threads[t].values], s.threads[t].block.metrics[s.threads[t].metric];
      m.name in vm.values && s.threads[t].index == |vm.values[m.name]|
    requires Good(config, Advance(config, s, t))
    ensures Conserved(Advance(config, s, t), sl, f)
  {
    hide RecordersSound, Live, DumpedWeight, Retired, LostWeight, DoneWeight, ThreadsWeight, FedWeight;
    var r, th := Advance(config, s, t), s.threads[t];
    var b, v := th.block, th.values;
    assert Current(s, th) && Shaped(config, s.valuesHeap[v]);
    SameLive(s, r, sl);
    OwnSlots(s, b, v, sl);
    LiveNotRetired(s, b.name, b.key);
    RetiredInHeap(s);
    RetiredStays(config, s, r.valuesHeap, sl, f);
    ThreadMoves(s.threads, t, r.threads[t], sl, f);
    StampWeighs(s.valuesHeap[v], b.timestamp, sl, f);
  }

  /** What is live is dumped, and nothing is live then. */
  lemma {:induction false} DumpConserves(config: Config, s: State, sl: Slot, f: Feed -> int)
    requires Good(config, s) && Conserved(s, sl, f) && Enabled(s, Dump)
    requires Good(config, DumpStep(s))
    ensures Conserved(DumpStep(s), sl, f)
  {
    hide Shaped, RecordersSound, Live, Retired, LostWeight, DoneWeight, ThreadsWeight, HeapWeight, Reset;
    var r := DumpStep(s);
    DumpLive(s);
    assert r.dumps[..|r.dumps| - 1] == s.dumps;
  }

  /** Every step keeps the balance. */
  lemma {:induction false} NextConserves(config: Config, s: State, a: Action, sl: Slot, f: Feed -> int)
    requires Good(config, s) && Enabled(s, a) && Configured(config, sl) && Conserved(s, sl, f)
    ensures Good(config, Next(config, s, a)) && Conserved(Next(config, s, a), sl, f)
  {
    hide Shaped, RecordersSound, Live, Conserved, Retired, DumpStep;
    NextGood(config, s, a);
    match a
    case Dump => DumpConserves(config, s, sl, f);
    case Start(t, b) => StartConserves(config, s, t, b, sl, f);
    case Go(t) =>
      var th := s.threads[t];
      if th.Calculate? {
        assert Current(s, th);
        LiveInHeap(s, th.block.name, th.block.key);
        if th.metric == |th.block.metrics| {
          FinishConserves(config, s, t, sl, f);
        } else if th.block.metrics[th.metric].name !in s.valuesHeap[th.values].values {
          LoseConserves(config, s, t, sl, f);
        } else if th.index < |s.valuesHeap[th.values].values[th.block.metrics[th.metric].name]| {
          FeedConserves(config, s, t, sl, f);
        } else {
          StampConserves(config, s, t, sl, f);
        }
      } else if th.StoreValues? {
        StoreConserves(config, s, t, sl, f);
      } else {
        LoadConserves(config, s, t, sl, f);
      }
  }

  lemma {:induction false} StartConserves(config: Config, s: State, t: nat, b: Block, sl: Slot, f: Feed -> int)
    requires Good(config, s) && Conserved(s, sl, f) && Enabled(s, Start(t, b))
    requires Good(config, At(s, t, LoadRecorder(b)))
    ensures Conserved(At(s, t, LoadRecorder(b)), sl, f)
  {
    hide Shaped, RecordersSound, Live, DumpedWeight, Retired, LiveWeight, HeapWeight, Conserved;
    var r := At(s, t, LoadRecorder(b));
    SameLive(s, r, sl);
    LiveStays(s, r, sl, f);
    QuietStep(s, r, t, sl, f);
  }

  lemma {:induction false} BeginGood(config: Config, n: nat)
    ensures Good(config, Begin(n))
  {}

  /** A run: n threads, and any order of steps. An action that is not enabled does nothing. */
  function Run(config: Config, n: nat, actions: seq<Action>): (s: State)
    ensures Good(config, s)
  {
    if actions == [] then
      BeginGood(config, n);
      Begin(n)
    else
      var s, a := Run(config, n, actions[..|actions| - 1]), actions[|actions| - 1];
      if Enabled(s, a) then
        NextGood(config, s, a);
        Next(config, s, a)
      else s
  }

  lemma {:induction false} BeginConserved(n: nat, sl: Slot, f: Feed -> int)
    requires RecordersSound(Begin(n))
    ensures Conserved(Begin(n), sl, f)
  {
    IdleWeighNothing(Begin(n).threads, sl, f);
  }

  lemma {:induction false} IdleWeighNothing(ths: seq<Thread>, sl: Slot, f: Feed -> int)
    requires forall t :: 0 <= t < |ths| ==> ths[t].Idle?
    ensures ThreadsWeight(ths, sl, f) == 0
  {
    if ths != [] { IdleWeighNothing(ths[..|ths| - 1], sl, f); }
  }

  /** The balance holds at every moment of every run. */
  lemma {:induction false} RunConserves(config: Config, n: nat, actions: seq<Action>, sl: Slot, f: Feed -> int)
    requires Configured(config, sl)
    ensures Conserved(Run(config, n, actions), sl, f)
  {
    hide Conserved, RecordersSound, Shaped, Next, Configured;
    if actions == [] {
      BeginConserved(n, sl, f);
    } else {
      var before, a := actions[..|actions| - 1], actions[|actions| - 1];
      RunConserves(config, n, before, sl, f);
      var s := Run(config, n, before);
      if Enabled(s, a) { NextConserves(config, s, a, sl, f); }
    }
  }

  /** When no call is under way, what was dumped, kept and lost is what all calls recorded. */
  lemma {:induction false} NothingLostOrDoubled(config: Config, n: nat, actions: seq<Action>, sl: Slot, f: Feed -> int)
    requires Configured(config, sl)
    requires Enabled(Run(config, n, actions), Dump)
    ensures
      var s := Run(config, n, actions);
      DumpedWeight(s.valuesHeap, s.dumps, sl, f) + LiveWeight(s, sl, f) + LostWeight(s.lost, sl, f) ==
      DoneWeight(s.done, sl, f)
  {
    hide Run, DumpedWeight, LiveWeight, LostWeight, DoneWeight, ThreadsWeight;
    RunConserves(config, n, actions, sl, f);
    IdleWeighNothing(Run(config, n, actions).threads, sl, f);
  }

  predicate Has(b: Block, m: string)
  {
    exists x :: x in b.metrics && x.name == m
  }

  /** The blocks of a name and key all have the same configured metrics. */
  ghost predicate Uniform(config: Config, blocks: set<Block>)
  {
    forall b, c, m :: b in blocks && c in blocks && b.name == c.name && b.key == c.key && m in config && config[m] != [] ==>
      (Has(b, m) <==> Has(c, m))
  }

  function Blocks(actions: seq<Action>): (r: set<Block>)
  {
    set a | a in actions && a.Start? :: a.block
  }

  /** Every block at hand is one of those. */
  ghost predicate From(s: State, blocks: set<Block>)
  {
    && (forall v :: 0 <= v < |s.valuesHeap| ==> s.valuesHeap[v].first in blocks)
    && (forall t :: 0 <= t < |s.threads| ==> s.threads[t].Idle? || s.threads[t].block in blocks)
  }

  /** What finding or making a recorder or a value map leaves alone. */
  lemma {:induction false} SetupFrame(config: Config, s: State, t: nat)
    requires Good(config, s) && t < |s.threads| && !s.threads[t].Idle? && !s.threads[t].Calculate?
    ensures
      var r, b := Advance(config, s, t), s.threads[t].block;
      && r.lost == s.lost && r.dumps == s.dumps
      && s.valuesHeap <= r.valuesHeap <= s.valuesHeap + [NewValues(config, b)]
      && |r.threads| == |s.threads| && r.threads == s.threads[t := r.threads[t]]
      && !r.threads[t].Idle? && r.threads[t].block == b
  {
    hide Shaped, Live, Retired, NewValues, RecorderSound;
    assert Current(s, s.threads[t]);
  }

  /** What a step of the loops leaves alone: it writes one live value map at most. */
  lemma {:induction false} CalculateFrame(config: Config, s: State, t: nat)
    requires Good(config, s) && t < |s.threads| && s.threads[t].Calculate?
    ensures
      var r, b, v := Advance(config, s, t), s.threads[t].block, s.threads[t].values;
      && r.dumps == s.dumps
      && v < |s.valuesHeap| == |r.valuesHeap| && !Retired(s, v)
      && r.valuesHeap == s.valuesHeap[v := r.valuesHeap[v]] && r.valuesHeap[v].first == s.valuesHeap[v].first
      && |r.threads| == |s.threads| && r.threads == s.threads[t := r.threads[t]]
      && (r.threads[t].Idle? || r.threads[t].block == b)
  {
    hide Shaped, Live, Retired, RecordersSound;
    var b := s.threads[t].block;
    assert Current(s, s.threads[t]);
    LiveInHeap(s, b.name, b.key);
    LiveNotRetired(s, b.name, b.key);
  }

  /** A step loses a metric exactly when it is configured, has data, and the live value map began without it. */
  lemma {:induction false} LosesExactly(config: Config, s: State, a: Action)
    requires Good(config, s) && Enabled(s, a)
    ensures
      var r := Next(config, s, a);
      if a.Go? && s.threads[a.thread].Calculate? && s.threads[a.thread].metric < |s.threads[a.thread].block.metrics|
      then
        var b, x, v := s.threads[a.thread].block, s.threads[a.thread].metric, s.threads[a.thread].values;
        && v < |s.valuesHeap|
        && r.lost == s.lost + if Wanted(config, b.metrics[x]) &&
                                 !Has(s.valuesHeap[v].first, b.metrics[x].name) then [(b, x)] else []
      else r.lost == s.lost
  {
    hide RecordersSound, Live, Retired;
    if a.Go? {
      var th := s.threads[a.thread];
      assert Current(s, th);
      if !th.Calculate? {
        SetupFrame(config, s, a.thread);
      } else {
        LiveInHeap(s, th.block.name, th.block.key);
        assert Shaped(config, s.valuesHeap[th.values]);
        assert s.lost + [] == s.lost;
      }
    }
  }

  lemma {:induction false} NextFrom(config: Config, s: State, a: Action, blocks: set<Block>)
    requires Good(config, s) && Enabled(s, a) && From(s, blocks) && (a.Start? ==> a.block in blocks)
    ensures From(Next(config, s, a), blocks)
  {
    hide RecordersSound, Live, Retired, Shaped, Advance, NewValues;
    if a.Go? {
      if s.threads[a.thread].Calculate? { CalculateFrame(config, s, a.thread); } else { SetupFrame(config, s, a.thread); }
    }
  }

  /** With uniform blocks no run loses anything. */
  lemma {:induction false} UniformLosesNothing(config: Config, n: nat, actions: seq<Action>, blocks: set<Block>)
    requires Blocks(actions) <= blocks && Uniform(config, blocks)
    ensures Run(config, n, actions).lost == [] && From(Run(config, n, actions), blocks)
  {
    hide Uniform, RecordersSound, Live, Retired, Shaped, Next;
    if actions != [] {
      var before, a := actions[..|actions| - 1], actions[|actions| - 1];
      UniformLosesNothing(config, n, before, blocks);
      var s := Run(config, n, before);
      if Enabled(s, a) {
        NextFrom(config, s, a, blocks);
        LosesExactly(config, s, a);
        if a.Go? && s.threads[a.thread].Calculate? {
          LiveIsOwn(config, s, a.thread);
          if s.threads[a.thread].metric < |s.threads[a.thread].block.metrics| {
            UniformHas(config, blocks, s.threads[a.thread].block, s.valuesHeap[s.threads[a.thread].values].first,
                       s.threads[a.thread].metric);
          }
        }
      }
    }
  }

  lemma {:induction false} LiveIsOwn(config: Config, s: State, t: nat)
    requires Good(config, s) && t < |s.threads| && s.threads[t].Calculate?
    ensures
      var b, v := s.threads[t].block, s.threads[t].values;
      v < |s.valuesHeap| && s.valuesHeap[v].first.name == b.name && s.valuesHeap[v].first.key == b.key
  {
    hide RecordersSound, Live, Retired, Shaped;
    assert Current(s, s.threads[t]);
    LiveInHeap(s, s.threads[t].block.name, s.threads[t].block.key);
  }

  lemma {:induction false} UniformHas(config: Config, blocks: set<Block>, b: Block, first: Block, x: nat)
    requires Uniform(config, blocks) && b in blocks && first in blocks && b.name == first.name && b.key == first.key
    requires x < |b.metrics|
    ensures Wanted(config, b.metrics[x]) ==> Has(first, b.metrics[x].name)
  {
    assert b.metrics[x] in b.metrics;
    assert Has(b, b.metrics[x].name);
  }

  lemma {:induction false} RunOne(config: Config, n: nat, actions: seq<Action>, a: Action)
    ensures
      var s := Run(config, n, actions);
      Run(config, n, actions + [a]) == if Enabled(s, a) then Next(config, s, a) else s
  {
    var all := actions + [a];
    assert all[..|all| - 1] == actions;
  }

  /** Once dumped, a value map is never written again. */
  lemma {:induction false} DumpedUnwritten(config: Config, s: State, a: Action, d: nat, nk: (string, Key))
    requires Good(config, s) && Enabled(s, a) && d < |s.dumps| && nk in s.dumps[d]
    ensures
      var r := Next(config, s, a);
      && d < |r.dumps| && r.dumps[d] == s.dumps[d]
      && s.dumps[d][nk] < |s.valuesHeap| && s.dumps[d][nk] < |r.valuesHeap|
      && r.valuesHeap[s.dumps[d][nk]] == s.valuesHeap[s.dumps[d][nk]]
  {
    hide RecordersSound, Live, Shaped, Advance, NewValues, Retired, Reset;
    assert Retired(s, s.dumps[d][nk]);
    RetiredInHeap(s);
    if a.Go? {
      if s.threads[a.thread].Calculate? { CalculateFrame(config, s, a.thread); } else { SetupFrame(config, s, a.thread); }
    }
  }

  /** So what a dump hands out stays as it was at that moment, whatever the run does next. */
  lemma {:induction false} DumpsStay(config: Config, n: nat, actions: seq<Action>, more: seq<Action>,
                                     d: nat, nk: (string, Key))
    requires d < |Run(config, n, actions).dumps| && nk in Run(config, n, actions).dumps[d]
    ensures
      var s, r := Run(config, n, actions), Run(config, n, actions + more);
      var v := s.dumps[d][nk];
      && d < |r.dumps| && r.dumps[d] == s.dumps[d]
      && v < |s.valuesHeap| && v < |r.valuesHeap| && r.valuesHeap[v] == s.valuesHeap[v]
  {
    hide RecordersSound, Live, Shaped, Next, Enabled;
    if more == [] {
      assert actions + more == actions;
      assert Retired(Run(config, n, actions), Run(config, n, actions).dumps[d][nk]);
    } else {
      var all := actions + more;
      var before, a := actions + more[..|more| - 1], more[|more| - 1];
      assert all[..|all| - 1] == before && all[|all| - 1] == a;
      DumpsStay(config, n, actions, more[..|more| - 1], d, nk);
      var s := Run(config, n, before);
      if Enabled(s, a) { DumpedUnwritten(config, s, a, d, nk); }
    }
  }

  /** The totals as the values report them, wrapped one by one. */
  function DumpedWrapped(heap: seq<ValuesMap>, dumps: seq<Dumped>, sl: Slot, f: Feed -> int): (w: int)
  {
    if dumps == [] then 0
    else
      var last := dumps[|dumps| - 1];
      DumpedWrapped(heap, dumps[..|dumps| - 1], sl, f) +
      if (sl.name, sl.key) in last then Wrap(HeapWeight(heap, last[(sl.name, sl.key)], sl, f)) else 0
  }

  lemma {:induction false} WrappedCongruent(heap: seq<ValuesMap>, dumps: seq<Dumped>, sl: Slot, f: Feed -> int)
    ensures (DumpedWrapped(heap, dumps, sl, f) - DumpedWeight(heap, dumps, sl, f)) % TWO_64 == 0
  {
    hide Wrap;
    if dumps != [] {
      var last := dumps[|dumps| - 1];
      WrappedCongruent(heap, dumps[..|dumps| - 1], sl, f);
      if (sl.name, sl.key) in last { WrapCongruent(HeapWeight(heap, last[(sl.name, sl.key)], sl, f)); }
    }
  }

  /** With uniform blocks the sums or counts reported and kept add up, modulo 2^64, to those recorded. */
  lemma {:induction false} ReportedTotals(config: Config, n: nat, actions: seq<Action>, sl: Slot, f: Feed -> int)
    requires Configured(config, sl) && Uniform(config, Blocks(actions))
    requires Enabled(Run(config, n, actions), Dump)
    ensures
      var s := Run(config, n, actions);
      (DumpedWrapped(s.valuesHeap, s.dumps, sl, f) + Wrap(LiveWeight(s, sl, f)) - DoneWeight(s.done, sl, f)) % TWO_64 == 0
  {
    hide Run, DumpedWeight, LiveWeight, DoneWeight, Wrap, DumpedWrapped, Uniform, Configured;
    var s := Run(config, n, actions);
    NothingLostOrDoubled(config, n, actions, sl, f);
    UniformLosesNothing(config, n, actions, Blocks(actions));
    WrappedCongruent(s.valuesHeap, s.dumps, sl, f);
    WrapCongruent(LiveWeight(s, sl, f));
  }
}
