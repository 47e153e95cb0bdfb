/**
 * DefaultAggregator of pkg/component/processor/processor.go and its value recorders. Calls to
 * Aggregate run side by side under the read lock, one step at a time in any order; Dump runs alone
 * under the write lock. Recorders and value maps live on a heap: a thread that has loaded one
 * keeps its index while other threads store and replace theirs.
 */
module Aggregator {
  import opened Bytes
  import opened AggValues
  import opened Options

  type Key = seq<string>  // the values of the selected labels

  /** A metric of a block; one that is neither a value nor a histogram has no data. */
  datatype Metric = Metric(name: string, data: Option<Feed>)
  datatype Block = Block(name: string, key: Key, metrics: seq<Metric>, timestamp: u64)

  /** The aggregated values that are configured for each metric. */
  type Config = map<string, seq<KindConfig>>

  /** The value map of a block name and key, and the block it was made for. */
  datatype ValuesMap = ValuesMap(first: Block, values: map<string, seq<Value>>, timestamp: u64)
  datatype Recorder = Recorder(name: string, labelValues: map<Key, nat>)

  /** Where a thread is in Aggregate. */
  datatype Thread =
    | Idle
    | LoadRecorder(block: Block)
    | StoreRecorder(block: Block)
    | LoadValues(block: Block, recorder: nat)
    | StoreValues(block: Block, recorder: nat)
    | Calculate(block: Block, values: nat, metric: nat, index: nat)

  /** What a dump hands on for each name and key: the index of its value map. */
  type Dumped = map<(string, Key), nat>

  datatype State = State(
    recorders: map<string, nat>, recorderHeap: seq<Recorder>, valuesHeap: seq<ValuesMap>, threads: seq<Thread>,
    dumps: seq<Dumped>, lost: seq<(Block, nat)>, done: seq<Block>)

  datatype Action = Start(thread: nat, block: Block) | Go(thread: nat) | Dump

  /** newAggValuesMap: values only for the configured metrics of the block at hand. */
  function NewValues(config: Config, b: Block): (v: ValuesMap)
    ensures v.first == b
    ensures forall m :: m in v.values <==> m in config && exists x :: x in b.metrics && x.name == m
    ensures forall m :: m in v.values ==> |v.values[m]| == |config[m]|
    ensures forall m, i :: m in v.values && 0 <= i < |config[m]| ==> v.values[m][i] == Value(config[m][i], [])
  {
    ValuesMap(b, map x | x in b.metrics && x.name in config :: x.name := NewAll(config[x.name]), 0)
  }

  /** newAggValue for each kind. */
  function NewAll(kinds: seq<KindConfig>): (vs: seq<Value>)
    ensures |vs| == |kinds| && forall i :: 0 <= i < |kinds| ==> vs[i] == Value(kinds[i], [])
  {
    seq(|kinds|, i requires 0 <= i < |kinds| => Value(kinds[i], []))
  }

  function Begin(n: nat): (s: State)
  {
    State(map[], [], [], seq(n, i => Idle), [], [], [])
  }

  predicate Enabled(s: State, a: Action)
  {
    match a
    case Start(t, _) => t < |s.threads| && s.threads[t].Idle?
    case Go(t) => t < |s.threads| && !s.threads[t].Idle?
    case Dump => forall t :: 0 <= t < |s.threads| ==> s.threads[t].Idle?
  }

  /** The index of the value map that new records of a name and key go to. */
  function Live(s: State, name: string, key: Key): (v: Option<nat>)
    requires RecordersSound(s)
  {
    if name in s.recorders && key in s.recorderHeap[s.recorders[name]].labelValues
    then Some(s.recorderHeap[s.recorders[name]].labelValues[key])
    else None
  }

  /** A recorder is found under its own name, and a value map under the name and key of its first block. */
  ghost predicate RecordersSound(s: State)
  {
    && (forall n :: n in s.recorders ==> s.recorders[n] < |s.recorderHeap|)
    && (forall n :: n in s.recorders ==> s.recorderHeap[s.recorders[n]].name == n)
    && (forall r :: 0 <= r < |s.recorderHeap| ==> RecorderSound(s.recorderHeap[r], s.valuesHeap))
  }

  ghost predicate RecorderSound(r: Recorder, heap: seq<ValuesMap>)
  {
    forall k :: k in r.labelValues ==> Fits(r, k, r.labelValues[k], heap)
  }

  predicate Fits(r: Recorder, k: Key, v: nat, heap: seq<ValuesMap>)
  {
    v < |heap| && heap[v].first.name == r.name && heap[v].first.key == k
  }

  /** A value map has the configured metrics of its first block, with all their values. */
  ghost predicate Shaped(config: Config, v: ValuesMap)
  {
    && (forall m :: m in v.values <==> m in config && exists x :: x in v.first.metrics && x.name == m)
    && (forall m :: m in v.values ==> |v.values[m]| == |config[m]|)
    && (forall m, i :: m in v.values && 0 <= i < |v.values[m]| ==> v.values[m][i].config == config[m][i])
  }

  /** A thread never holds a recorder or a value map that is not in use any more. */
  ghost predicate Current(s: State, th: Thread)
    requires RecordersSound(s)
  {
    match th
    case LoadValues(b, r) => b.name in s.recorders && s.recorders[b.name] == r
    case StoreValues(b, r) => b.name in s.recorders && s.recorders[b.name] == r
    case Calculate(b, v, x, j) =>
      && Live(s, b.name, b.key) == Some(v) && x <= |b.metrics|
      && (j == 0 || (x < |b.metrics| && b.metrics[x].name in s.valuesHeap[v].values &&
                     j <= |s.valuesHeap[v].values[b.metrics[x].name]|))
    case _ => true
  }

  /** Nothing that was dumped is in use. */
  ghost predicate Retired(s: State, v: nat)
    requires RecordersSound(s)
  {
    v < |s.valuesHeap| && forall n, k :: Live(s, n, k) != Some(v)
  }

  ghost predicate Good(config: Config, s: State)
  {
    && RecordersSound(s)
    && (forall v :: 0 <= v < |s.valuesHeap| ==> Shaped(config, s.valuesHeap[v]))
    && (forall t :: 0 <= t < |s.threads| ==> Current(s, s.threads[t]))
    && (forall d, nk :: 0 <= d < |s.dumps| && nk in s.dumps[d] ==> Retired(s, s.dumps[d][nk]))
  }

  function At(s: State, t: nat, th: Thread): (r: State)
    requires t < |s.threads|
  {
    s.(threads := s.threads[t := th])
  }

  /** aggregatorMap.Load */
  function LoadRecorderStep(s: State, t: nat, b: Block): (r: State)
    requires t < |s.threads|
  {
    At(s, t, if b.name in s.recorders then LoadValues(b, s.recorders[b.name]) else StoreRecorder(b))
  }

  /** aggregatorMap.LoadOrStore of a new recorder, which is dropped if another thread was faster. */
  function StoreRecorderStep(s: State, t: nat, b: Block): (r: State)
    requires t < |s.threads|
  {
    var r := |s.recorderHeap|;
    var s1 := s.(recorderHeap := s.recorderHeap + [Recorder(b.name, map[])]);
    if b.name in s.recorders then At(s1, t, LoadValues(b, s.recorders[b.name]))
    else At(s1.(recorders := s.recorders[b.name := r]), t, LoadValues(b, r))
  }

  /** labelValues.Load */
  function LoadValuesStep(s: State, t: nat, b: Block, r: nat): (s': State)
    requires t < |s.threads| && r < |s.recorderHeap|
  {
    var labels := s.recorderHeap[r].labelValues;
    At(s, t, if b.key in labels then Calculate(b, labels[b.key], 0, 0) else StoreValues(b, r))
  }

  /** labelValues.LoadOrStore of a new value map, which is dropped if another thread was faster. */
  function StoreValuesStep(config: Config, s: State, t: nat, b: Block, r: nat): (s': State)
    requires t < |s.threads| && r < |s.recorderHeap|
  {
    var v := |s.valuesHeap|;
    var s1 := s.(valuesHeap := s.valuesHeap + [NewValues(config, b)]);
    var recorder := s.recorderHeap[r];
    if b.key in recorder.labelValues then At(s1, t, Calculate(b, recorder.labelValues[b.key], 0, 0))
    else
      var stored := recorder.(labelValues := recorder.labelValues[b.key := v]);
      At(s1.(recorderHeap := s.recorderHeap[r := stored]), t, Calculate(b, v, 0, 0))
  }

  /** A metric with data for some value. */
  predicate Wanted(config: Config, m: Metric)
  {
    m.name in config && config[m.name] != [] && m.data.Some?
  }

  function FeedOne(vm: ValuesMap, m: string, j: nat, x: Feed): (r: ValuesMap)
    requires m in vm.values && j < |vm.values[m]|
  {
    var v := vm.values[m][j];
    vm.(values := vm.values[m := vm.values[m][j := Value(v.config, v.fed + [x])]])
  }

  /**
   * One step of the loops over the metrics of a block and over the values of a metric: each value
   * takes the metric on its own, after the last one the time is stored. A metric without values
   * goes nowhere; it is lost if some value is configured for it.
   */
  function CalculateStep(config: Config, s: State, t: nat, b: Block, v: nat, x: nat, j: nat): (r: State)
    requires t < |s.threads| && v < |s.valuesHeap| && x <= |b.metrics|
    requires x < |b.metrics| && b.metrics[x].name in s.valuesHeap[v].values ==>
               j <= |s.valuesHeap[v].values[b.metrics[x].name]|
  {
    if x == |b.metrics| then At(s, t, Idle).(done := s.done + [b])
    else
      var m, vm := b.metrics[x], s.valuesHeap[v];
      if m.name !in vm.values then
        At(s, t, Calculate(b, v, x + 1, 0)).(lost := s.lost + if Wanted(config, m) then [(b, x)] else [])
      else if j < |vm.values[m.name]| then
        var fed := if m.data.Some? then s.valuesHeap[v := FeedOne(vm, m.name, j, m.data.value)] else s.valuesHeap;
        At(s, t, Calculate(b, v, x, j + 1)).(valuesHeap := fed)
      else
        At(s, t, Calculate(b, v, x + 1, 0)).(valuesHeap := s.valuesHeap[v := vm.(timestamp := b.timestamp)])
  }

  /** Dump: every value map in use goes out, and every recorder gets an empty map. */
  function DumpStep(s: State): (r: State)
    requires RecordersSound(s)
  {
    var out := map n, k | n in s.recorders && k in s.recorderHeap[s.recorders[n]].labelValues ::
      (n, k) := s.recorderHeap[s.recorders[n]].labelValues[k];
    s.(dumps := s.dumps + [out], recorderHeap := Reset(s.recorderHeap, s.recorders))
  }

  function Reset(heap: seq<Recorder>, recorders: map<string, nat>): (r: seq<Recorder>)
    ensures |r| == |heap|
  {
    seq(|heap|, i requires 0 <= i < |heap| =>
      if heap[i].name in recorders && recorders[heap[i].name] == i then heap[i].(labelValues := map[]) else heap[i])
  }

  function Advance(config: Config, s: State, t: nat): (r: State)
    requires Good(config, s) && t < |s.threads|
  {
    assert Current(s, s.threads[t]);
    match s.threads[t]
    case Idle => s
    case LoadRecorder(b) => LoadRecorderStep(s, t, b)
    case StoreRecorder(b) => StoreRecorderStep(s, t, b)
    case LoadValues(b, r) => LoadValuesStep(s, t, b, r)
    case StoreValues(b, r) => StoreValuesStep(config, s, t, b, r)
    case Calculate(b, v, x, j) => CalculateStep(config, s, t, b, v, x, j)
  }

  function Next(config: Config, s: State, a: Action): (r: State)
    requires Good(config, s) && Enabled(s, a)
  {
    match a
    case Start(t, b) => At(s, t, LoadRecorder(b))
    case Go(t) => Advance(config, s, t)
    case Dump => DumpStep(s)
  }
}
