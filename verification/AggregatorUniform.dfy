/** Nothing is ever lost exactly when the blocks of a name and key have the same metrics. */
module AggregatorUniform {
  import opened AggValues
  import opened Aggregator
  import opened AggregatorRuns
  import opened AggregatorTotals

  /** What was dumped and is kept is all that was recorded, for every aggregated value and figure. */
  ghost predicate Complete(config: Config, s: State)
    requires RecordersSound(s)
  {
    forall sl: Slot, f: Feed -> int :: Configured(config, sl) ==>
      DumpedWeight(s.valuesHeap, s.dumps, sl, f) + LiveWeight(s, sl, f) == DoneWeight(s.done, sl, f)
  }

  /** Every run over these blocks, whenever no call is under way, is complete. */
  ghost predicate AlwaysComplete(config: Config, blocks: set<Block>)
  {
    forall n: nat, actions: seq<Action> ::
      Blocks(actions) <= blocks && Enabled(Run(config, n, actions), Dump) ==> Complete(config, Run(config, n, actions))
  }

  /** The metrics with values have data. */
  predicate Filled(config: Config, blocks: set<Block>)
  {
    forall b, x :: b in blocks && x in b.metrics && x.name in config && config[x.name] != [] ==> x.data.Some?
  }

  // ---- One thread runs to the end of its block ----

  /** How far a thread is, in the order of its steps. */
  function Stage(th: Thread): (n: nat)
  {
    match th
    case LoadRecorder(_) => 5
    case StoreRecorder(_) => 4
    case LoadValues(_, _) => 3
    case StoreValues(_, _) => 2
    case Calculate(_, _, _, _) => 1
    case Idle => 0
  }

  /** The live map of a block's name and key, if there is one, began with the block first; if not, it will. */
  ghost predicate Began(s: State, b: Block, first: Block)
    requires RecordersSound(s)
  {
    && b.name == first.name && b.key == first.key
    && match Live(s, b.name, b.key)
       case None => first == b
       case Some(v) => v < |s.valuesHeap| && s.valuesHeap[v].first == first
  }

  lemma {:induction false} SetupStep(config: Config, s: State, b: Block, first: Block)
    requires Good(config, s) && |s.threads| == 1 && 2 <= Stage(s.threads[0]) && s.threads[0].block == b && Began(s, b, first)
    ensures
      var r := Advance(config, s, 0);
      && Good(config, r) && |r.threads| == 1 && !r.threads[0].Idle? && r.threads[0].block == b && Began(r, b, first)
      && Stage(r.threads[0]) < Stage(s.threads[0]) && r.lost == s.lost
      && (r.threads[0].Calculate? ==> r.threads[0].metric == 0 && r.threads[0].index == 0)
  {
    hide Shaped, RecordersSound, Live, Retired, NewValues;
    NextGood(config, s, Go(0));
    SetupFrame(config, s, 0);
    var r, th := Advance(config, s, 0), s.threads[0];
    assert Next(config, s, Go(0)) == r;
    assert Current(s, th);
    if th.StoreRecorder? {
      StoreRecorderLive(s, 0, b);
    } else if th.StoreValues? {
      HeldInHeap(s, b, th.recorder);
      StoreValuesLive(config, s, 0, b, th.recorder);
    } else {
      SameLive(s, r, Slot(b.name, b.key, "", 0));
    }
  }

  /** How many values are configured for a metric of a block. */
  function Bound(config: Config, b: Block, x: nat): (n: nat)
  {
    if x < |b.metrics| && b.metrics[x].name in config then |config[b.metrics[x].name]| else 0
  }

  /** The thread goes on to the next value of the metric, or to the next metric. */
  ghost predicate GoesOn(config: Config, b: Block, was: Thread, now: Thread)
    requires was.Calculate?
  {
    && now.Calculate? && now.block == b
    && (now.metric == was.metric + 1 ||
        (now.metric == was.metric && was.index < now.index <= Bound(config, b, was.metric)))
  }

  /** One step of the loops over the metrics and values. */
  lemma {:induction false} LoopStep(config: Config, s: State, b: Block, first: Block)
    requires Good(config, s) && |s.threads| == 1 && s.threads[0].Calculate? && s.threads[0].block == b && Began(s, b, first)
    ensures
      var r, th := Advance(config, s, 0), s.threads[0];
      && Good(config, r) && |r.threads| == 1 && Began(r, b, first) && Live(r, b.name, b.key).Some?
      && th.metric <= |b.metrics|
      && (if th.metric == |b.metrics| then r.threads[0].Idle? && r.lost == s.lost
          else
            && GoesOn(config, b, th, r.threads[0])
            && r.lost == s.lost + if Lacks(config, b, th.metric, first) then [(b, th.metric)] else [])
  {
    hide RecordersSound, Live, Retired, FeedOne, Shaped;
    NextGood(config, s, Go(0));
    CalculateFrame(config, s, 0);
    LosesExactly(config, s, Go(0));
    var r, th := Advance(config, s, 0), s.threads[0];
    assert Next(config, s, Go(0)) == r;
    assert Current(s, th);
    SameLive(s, r, Slot(b.name, b.key, "", 0));
    ValuesBound(config, s.valuesHeap[th.values], b, th.metric);
  }

  lemma {:induction false} ValuesBound(config: Config, v: ValuesMap, b: Block, x: nat)
    requires Shaped(config, v) && x <= |b.metrics|
    ensures x < |b.metrics| && b.metrics[x].name in v.values ==>
              |v.values[b.metrics[x].name]| == Bound(config, b, x)
  {}

  /** A metric with data for some value, which the first block lacked. */
  predicate Lacks(config: Config, b: Block, x: nat, first: Block)
    requires x < |b.metrics|
  {
    Wanted(config, b.metrics[x]) && !Has(first, b.metrics[x].name)
  }

  /** From where it is, the thread loses every metric to come that the first block lacked. */
  ghost predicate LosesFrom(config: Config, b: Block, from: nat, first: Block, lost: seq<(Block, nat)>)
  {
    forall x :: from <= x < |b.metrics| && Lacks(config, b, x, first) ==> (b, x) in lost
  }

  function NextMetric(th: Thread): (x: nat)
  {
    if th.Calculate? then th.metric else 0
  }

  /** Left alone, a thread gets to the end of its block. */
  lemma {:induction false} Finish(config: Config, actions: seq<Action>, b: Block, first: Block) returns (more: seq<Action>)
    requires
      var s := Run(config, 1, actions);
      |s.threads| == 1 && !s.threads[0].Idle? && s.threads[0].block == b && Began(s, b, first)
    ensures
      var s, r := Run(config, 1, actions), Run(config, 1, actions + more);
      && |r.threads| == 1 && r.threads[0].Idle? && Began(r, b, first) && Live(r, b.name, b.key).Some?
      && s.lost <= r.lost && LosesFrom(config, b, NextMetric(s.threads[0]), first, r.lost)
    ensures forall a :: a in more ==> a == Go(0)
    decreases Stage(Run(config, 1, actions).threads[0]), |b.metrics| - NextMetric(Run(config, 1, actions).threads[0]),
              Bound(config, b, NextMetric(Run(config, 1, actions).threads[0])) -
              if Run(config, 1, actions).threads[0].Calculate? then Run(config, 1, actions).threads[0].index else 0
  {
    hide RecordersSound, Shaped, Retired, Live, Advance, Run, Lacks, Began;
    var s, next := Run(config, 1, actions), actions + [Go(0)];
    RunOne(config, 1, actions, Go(0));
    assert Run(config, 1, next) == Advance(config, s, 0);
    var th := s.threads[0];
    if th.Calculate? {
      LoopStep(config, s, b, first);
      if th.metric == |b.metrics| {
        more := [Go(0)];
      } else {
        var rest := Finish(config, next, b, first);
        more := [Go(0)] + rest;
        assert actions + more == next + rest;
        assert (b, th.metric) in Run(config, 1, next).lost || !Lacks(config, b, th.metric, first);
      }
    } else {
      SetupStep(config, s, b, first);
      var rest := Finish(config, next, b, first);
      more := [Go(0)] + rest;
      assert actions + more == next + rest;
    }
  }

  /** A thread without work takes a block, and gets to its end. */
  lemma {:induction false} RunBlock(config: Config, actions: seq<Action>, b: Block, first: Block) returns (more: seq<Action>)
    requires
      var s := Run(config, 1, actions);
      |s.threads| == 1 && s.threads[0].Idle? && Began(s, b, first)
    ensures
      var r := Run(config, 1, actions + more);
      && |r.threads| == 1 && r.threads[0].Idle? && Began(r, b, first) && Live(r, b.name, b.key).Some?
      && LosesFrom(config, b, 0, first, r.lost)
    ensures Blocks(actions + more) <= Blocks(actions) + {b}
  {
    hide RecordersSound, Shaped, Retired, Live, Run, Lacks, LosesFrom;
    var s, a := Run(config, 1, actions), Start(0, b);
    RunOne(config, 1, actions, a);
    var next := actions + [a];
    assert Run(config, 1, next) == At(s, 0, LoadRecorder(b));
    SameLive(s, Run(config, 1, next), Slot(b.name, b.key, "", 0));
    var rest := Finish(config, next, b, first);
    more := [a] + rest;
    assert actions + more == next + rest;
  }

  // ---- The theorem ----

  function One(): (f: Feed -> int)
  {
    (x: Feed) => 1
  }

  lemma {:induction false} LostCounts(lost: seq<(Block, nat)>, e: (Block, nat), sl: Slot)
    requires e.1 < |e.0.metrics| && MetricWeight(e.0, e.1, sl, One()) == 1
    ensures LostWeight(lost, sl, One()) >= if e in lost then 1 else 0
  {
    if lost != [] {
      var last := lost[|lost| - 1];
      LostCounts(lost[..|lost| - 1], e, sl);
      assert e in lost ==> e in lost[..|lost| - 1] || e == last;
    }
  }

  /** First a block without the metric, then one with it: the run is not complete. */
  lemma {:induction false} MixedIsIncomplete(config: Config, b: Block, c: Block, x: nat) returns (actions: seq<Action>)
    requires b.name == c.name && b.key == c.key && x < |c.metrics| && Lacks(config, c, x, b)
    ensures Blocks(actions) <= {b, c} && Enabled(Run(config, 1, actions), Dump)
    ensures !Complete(config, Run(config, 1, actions))
  {
    hide RecordersSound, Shaped, Retired, Live, Conserved;
    NothingBegan(config, b);
    hide Run, Began;
    var one := RunBlock(config, [], b, b);
    assert [] + one == one;
    BeganAgain(Run(config, 1, one), b, c);
    var two := RunBlock(config, one, c, b);
    actions := one + two;
    var s := Run(config, 1, actions);
    var sl := Slot(c.name, c.key, c.metrics[x].name, 0);
    assert (c, x) in s.lost;
    LostCounts(s.lost, (c, x), sl);
    NothingLostOrDoubled(config, 1, actions, sl, One());
  }

  lemma {:induction false} NothingBegan(config: Config, b: Block)
    ensures
      var s := Run(config, 1, []);
      |s.threads| == 1 && s.threads[0].Idle? && Began(s, b, b) && Blocks([]) == {}
  {}

  lemma {:induction false} BeganAgain(s: State, b: Block, c: Block)
    requires RecordersSound(s) && Began(s, b, b) && Live(s, b.name, b.key).Some? && c.name == b.name && c.key == b.key
    ensures Began(s, c, b)
  {}

  /** Nothing is lost in any run over some blocks, whose metrics have data, exactly when they are uniform. */
  lemma {:induction false} CompleteExactly(config: Config, blocks: set<Block>)
    requires Filled(config, blocks)
    ensures AlwaysComplete(config, blocks) <==> Uniform(config, blocks)
  {
    hide Run, Conserved, RecordersSound, Complete, Enabled;
    if Uniform(config, blocks) {
      forall n: nat, actions: seq<Action> | Blocks(actions) <= blocks && Enabled(Run(config, n, actions), Dump)
        ensures Complete(config, Run(config, n, actions))
      {
        UniformIsComplete(config, n, actions, blocks);
      }
    } else {
      var b, c, m :| b in blocks && c in blocks && b.name == c.name && b.key == c.key && m in config && config[m] != [] &&
        Has(b, m) && !Has(c, m);
      var x :| 0 <= x < |b.metrics| && b.metrics[x].name == m;
      assert b.metrics[x] in b.metrics;
      var actions := MixedIsIncomplete(config, c, b, x);
      assert Blocks(actions) <= blocks;
    }
  }

  lemma {:induction false} UniformIsComplete(config: Config, n: nat, actions: seq<Action>, blocks: set<Block>)
    requires Blocks(actions) <= blocks && Uniform(config, blocks) && Enabled(Run(config, n, actions), Dump)
    ensures Complete(config, Run(config, n, actions))
  {
    hide Run, Uniform, DumpedWeight, LiveWeight, DoneWeight, Enabled, RecordersSound;
    UniformLosesNothing(config, n, actions, blocks);
    var s := Run(config, n, actions);
    forall sl: Slot, f: Feed -> int | Configured(config, sl)
      ensures DumpedWeight(s.valuesHeap, s.dumps, sl, f) + LiveWeight(s, sl, f) == DoneWeight(s.done, sl, f)
    {
      NothingLostOrDoubled(config, n, actions, sl, f);
    }
  }
}
