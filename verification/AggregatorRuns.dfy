/** What every step of the aggregator keeps, and what whole runs conserve. */
module AggregatorRuns {
  import opened Bytes
  import opened Options
  import opened AggValues
  import opened Aggregator

  lemma {:induction false} StartGood(config: Config, s: State, t: nat, b: Block)
    requires Good(config, s) && t < |s.threads|
    ensures Good(config, At(s, t, LoadRecorder(b)))
  {
    SameMaps(config, s, At(s, t, LoadRecorder(b)), t);
  }

  /** Only a thread changes place. */
  lemma {:induction false} SameMaps(config: Config, s: State, r: State, t: nat)
    requires Good(config, s) && t < |s.threads| == |r.threads|
    requires r.recorders == s.recorders && r.recorderHeap == s.recorderHeap && r.valuesHeap == s.valuesHeap
    requires r.dumps == s.dumps
    requires forall u :: 0 <= u < |s.threads| && u != t ==> r.threads[u] == s.threads[u]
    requires Current(s, r.threads[t])
    ensures Good(config, r)
  {
    hide Shaped;
    forall n, k ensures Live(r, n, k) == Live(s, n, k) {}
    forall u | 0 <= u < |r.threads| ensures Current(r, r.threads[u]) {
      if u != t { assert Current(s, s.threads[u]); }
    }
  }

  lemma {:induction false} LoadRecorderGood(config: Config, s: State, t: nat, b: Block)
    requires Good(config, s) && t < |s.threads|
    ensures Good(config, LoadRecorderStep(s, t, b))
  {
    SameMaps(config, s, LoadRecorderStep(s, t, b), t);
  }

  lemma {:induction false} LoadValuesGood(config: Config, s: State, t: nat, b: Block, i: nat)
    requires Good(config, s) && t < |s.threads| && Current(s, LoadValues(b, i))
    ensures Good(config, LoadValuesStep(s, t, b, i))
  {
    SameMaps(config, s, LoadValuesStep(s, t, b, i), t);
  }

  lemma {:induction false} StoreRecorderLive(s: State, t: nat, b: Block)
    requires RecordersSound(s) && t < |s.threads|
    ensures RecordersSound(StoreRecorderStep(s, t, b))
    ensures forall n, k :: Live(StoreRecorderStep(s, t, b), n, k) == Live(s, n, k)
  {
    var r := StoreRecorderStep(s, t, b);
    assert forall i :: 0 <= i < |s.recorderHeap| ==> r.recorderHeap[i] == s.recorderHeap[i];
  }

  lemma {:induction false} StoreRecorderGood(config: Config, s: State, t: nat, b: Block)
    requires Good(config, s) && t < |s.threads|
    ensures Good(config, StoreRecorderStep(s, t, b))
  {
    hide Shaped, Live, RecordersSound;
    var r := StoreRecorderStep(s, t, b);
    StoreRecorderLive(s, t, b);
    forall u | 0 <= u < |r.threads| ensures Current(r, r.threads[u]) {
      if u != t { assert Current(s, s.threads[u]); }
    }
  }

  /** A heap of value maps that only grows, and keeps the first blocks, suits the recorders it did. */
  ghost predicate Grown(was: seq<ValuesMap>, now: seq<ValuesMap>)
  {
    |was| <= |now| && forall v :: 0 <= v < |was| ==> now[v].first == was[v].first
  }

  lemma {:induction false} RecorderGrows(r: Recorder, was: seq<ValuesMap>, now: seq<ValuesMap>)
    requires RecorderSound(r, was) && Grown(was, now)
    ensures RecorderSound(r, now)
  {
    forall k | k in r.labelValues ensures Fits(r, k, r.labelValues[k], now) {
      assert Fits(r, k, r.labelValues[k], was);
    }
  }

  lemma {:induction false} RecorderStores(r: Recorder, k: Key, v: nat, heap: seq<ValuesMap>)
    requires RecorderSound(r, heap) && Fits(r, k, v, heap)
    ensures RecorderSound(r.(labelValues := r.labelValues[k := v]), heap)
  {
    var r' := r.(labelValues := r.labelValues[k := v]);
    forall j | j in r'.labelValues ensures Fits(r', j, r'.labelValues[j], heap) {
      if j != k { assert Fits(r, j, r.labelValues[j], heap); }
    }
  }

  lemma {:induction false} StoreValuesLive(config: Config, s: State, t: nat, b: Block, i: nat)
    requires RecordersSound(s) && t < |s.threads| && Current(s, StoreValues(b, i))
    ensures
      var r := StoreValuesStep(config, s, t, b, i);
      && RecordersSound(r)
      && r.threads[t].Calculate? && Live(r, b.name, b.key) == Some(r.threads[t].values)
      && Live(r, b.name, b.key) == (if Live(s, b.name, b.key).Some? then Live(s, b.name, b.key) else Some(|s.valuesHeap|))
      && forall n, k :: n != b.name || k != b.key ==> Live(r, n, k) == Live(s, n, k)
  {
    hide RecorderSound, Shaped;
    var r := StoreValuesStep(config, s, t, b, i);
    assert Grown(s.valuesHeap, r.valuesHeap);
    forall j | 0 <= j < |r.recorderHeap| ensures RecorderSound(r.recorderHeap[j], r.valuesHeap) {
      RecorderGrows(s.recorderHeap[j], s.valuesHeap, r.valuesHeap);
      if j == i && b.key !in s.recorderHeap[i].labelValues {
        RecorderStores(s.recorderHeap[i], b.key, |s.valuesHeap|, r.valuesHeap);
      }
    }
    assert forall n :: n in s.recorders && s.recorders[n] == i ==> n == b.name;
  }

  lemma {:induction false} LiveInHeap(s: State, n: string, k: Key)
    requires RecordersSound(s) && Live(s, n, k).Some?
    ensures
      var v := Live(s, n, k).value;
      v < |s.valuesHeap| && s.valuesHeap[v].first.name == n && s.valuesHeap[v].first.key == k
  {
    var r := s.recorderHeap[s.recorders[n]];
    assert Fits(r, k, r.labelValues[k], s.valuesHeap);
  }

  lemma {:induction false} HeldInHeap(s: State, b: Block, i: nat)
    requires RecordersSound(s) && Current(s, StoreValues(b, i))
    ensures i < |s.recorderHeap|
  {}

  lemma {:induction false} NewShaped(config: Config, b: Block)
    ensures Shaped(config, NewValues(config, b))
  {}

  lemma {:induction false} StoreValuesGood(config: Config, s: State, t: nat, b: Block, i: nat)
    requires Good(config, s) && t < |s.threads| && Current(s, StoreValues(b, i))
    ensures Good(config, StoreValuesStep(config, s, t, b, i))
  {
    hide Live, RecordersSound, Shaped, NewValues;
    HeldInHeap(s, b, i);
    var r := StoreValuesStep(config, s, t, b, i);
    StoreValuesLive(config, s, t, b, i);
    NewShaped(config, b);
    if Live(s, b.name, b.key).Some? { LiveInHeap(s, b.name, b.key); }
    forall u | 0 <= u < |r.threads| ensures Current(r, r.threads[u]) {
      if u != t { assert Current(s, s.threads[u]); if s.threads[u].Calculate? { LiveInHeap(s, s.threads[u].block.name, s.threads[u].block.key); } }
    }
  }

  /** Two value maps of the same shape: what they were fed may differ. */
  ghost predicate Alike(a: ValuesMap, b: ValuesMap)
  {
    && a.first == b.first && a.values.Keys == b.values.Keys
    && (forall m :: m in a.values ==> |a.values[m]| == |b.values[m]|)
    && forall m, i :: m in a.values && 0 <= i < |a.values[m]| ==> a.values[m][i].config == b.values[m][i].config
  }

  lemma {:induction false} AlikeShaped(config: Config, a: ValuesMap, b: ValuesMap)
    requires Alike(a, b) && Shaped(config, a)
    ensures Shaped(config, b)
  {
    forall m ensures m in b.values <==> m in a.values {}
  }

  lemma {:induction false} FeedAlike(vm: ValuesMap, m: string, j: nat, x: Feed)
    requires m in vm.values && j < |vm.values[m]|
    ensures Alike(vm, FeedOne(vm, m, j, x))
  {}

  lemma {:induction false} StillCurrent(s: State, r: State, th: Thread, v: nat)
    requires RecordersSound(s) && RecordersSound(r) && Current(s, th)
    requires r.recorders == s.recorders && r.recorderHeap == s.recorderHeap
    requires v < |s.valuesHeap| == |r.valuesHeap| && Alike(s.valuesHeap[v], r.valuesHeap[v])
    requires forall w :: 0 <= w < |s.valuesHeap| && w != v ==> r.valuesHeap[w] == s.valuesHeap[w]
    ensures Current(r, th)
  {
    hide RecordersSound;
    if th.Calculate? {
      LiveInHeap(s, th.block.name, th.block.key);
      if th.values == v && th.metric < |th.block.metrics| {
        assert th.block.metrics[th.metric].name in s.valuesHeap[v].values.Keys <==>
               th.block.metrics[th.metric].name in r.valuesHeap[v].values.Keys;
      }
    }
  }

  /** One value map is replaced by one of the same shape. */
  lemma {:induction false} FedGood(config: Config, s: State, r: State, t: nat, v: nat, vm: ValuesMap)
    requires Good(config, s) && t < |s.threads| && v < |s.valuesHeap| && Alike(s.valuesHeap[v], vm)
    requires |r.threads| == |s.threads| && r.threads == s.threads[t := r.threads[t]] && r.threads[t].Calculate?
    requires Current(s, r.threads[t])
    requires r.recorders == s.recorders && r.recorderHeap == s.recorderHeap && r.dumps == s.dumps
    requires r.valuesHeap == s.valuesHeap[v := vm]
    ensures Good(config, r)
  {
    hide Shaped, RecorderSound;
    AlikeShaped(config, s.valuesHeap[v], vm);
    forall i | 0 <= i < |r.recorderHeap| ensures RecorderSound(r.recorderHeap[i], r.valuesHeap) {
      RecorderGrows(s.recorderHeap[i], s.valuesHeap, r.valuesHeap);
    }
    forall n, k ensures Live(r, n, k) == Live(s, n, k) {}
    forall u | 0 <= u < |r.threads| ensures Current(r, r.threads[u]) {
      assert u == t || r.threads[u] == s.threads[u];
      StillCurrent(s, r, r.threads[u], v);
    }
  }

  lemma {:induction false} CalculateGood(config: Config, s: State, t: nat)
    requires Good(config, s) && t < |s.threads| && s.threads[t].Calculate?
    ensures Good(config, Advance(config, s, t))
  {
    hide Shaped, RecorderSound, Live, Alike, RecordersSound, FeedOne;
    var b, v, x, j := s.threads[t].block, s.threads[t].values, s.threads[t].metric, s.threads[t].index;
    assert Current(s, s.threads[t]);
    LiveInHeap(s, b.name, b.key);
    var r := CalculateStep(config, s, t, b, v, x, j);
    if x == |b.metrics| || b.metrics[x].name !in s.valuesHeap[v].values {
      SameMaps(config, s, r, t);
    } else if j < |s.valuesHeap[v].values[b.metrics[x].name]| {
      if b.metrics[x].data.Some? {
        FeedAlike(s.valuesHeap[v], b.metrics[x].name, j, b.metrics[x].data.value);
        FedGood(config, s, r, t, v, FeedOne(s.valuesHeap[v], b.metrics[x].name, j, b.metrics[x].data.value));
      } else {
        SameMaps(config, s, r, t);
      }
    } else {
      var vm := s.valuesHeap[v].(timestamp := b.timestamp);
      assert Alike(s.valuesHeap[v], vm) by { StampAlike(s.valuesHeap[v], b.timestamp); }
      FedGood(config, s, r, t, v, vm);
    }
  }

  lemma {:induction false} StampAlike(vm: ValuesMap, ts: u64)
    ensures Alike(vm, vm.(timestamp := ts))
  {}

  lemma {:induction false} DumpLive(s: State)
    requires RecordersSound(s)
    ensures RecordersSound(DumpStep(s))
    ensures forall n, k :: Live(DumpStep(s), n, k) == None
    ensures
      var out := DumpStep(s).dumps[|s.dumps|];
      forall n, k :: if (n, k) in out then Live(s, n, k) == Some(out[(n, k)]) else Live(s, n, k) == None
  {
    hide RecorderSound;
    var r := DumpStep(s);
    forall i | 0 <= i < |r.recorderHeap| ensures RecorderSound(r.recorderHeap[i], r.valuesHeap) {
      assert RecorderSound(s.recorderHeap[i], s.valuesHeap);
      EmptySound(s.recorderHeap[i], s.valuesHeap);
    }
    forall n, k ensures Live(r, n, k) == None {
      if n in s.recorders { assert r.recorderHeap[s.recorders[n]].labelValues == map[]; }
    }
  }

  lemma {:induction false} EmptySound(r: Recorder, heap: seq<ValuesMap>)
    ensures RecorderSound(r.(labelValues := map[]), heap)
  {}

  lemma {:induction false} DumpGood(config: Config, s: State)
    requires Good(config, s) && Enabled(s, Dump)
    ensures Good(config, DumpStep(s))
  {
    hide Shaped, RecordersSound, Live;
    DumpLive(s);
    var r := DumpStep(s);
    forall d, nk | 0 <= d < |r.dumps| && nk in r.dumps[d] ensures Retired(r, r.dumps[d][nk]) {
      if d < |s.dumps| {
        assert Retired(s, s.dumps[d][nk]);
      } else {
        assert Live(s, nk.0, nk.1) == Some(r.dumps[d][nk]);
        LiveInHeap(s, nk.0, nk.1);
      }
    }
  }

  /**
   * Every step keeps it: a thread under the read lock only ever holds what is in use, and what was
   * dumped is never in use again.
   */
  lemma {:induction false} NextGood(config: Config, s: State, a: Action)
    requires Good(config, s) && Enabled(s, a)
    ensures Good(config, Next(config, s, a))
  {
    hide RecordersSound, Shaped, Live, Retired;
    match a
    case Dump => DumpGood(config, s);
    case Start(t, b) => StartGood(config, s, t, b);
    case Go(t) =>
      assert Current(s, s.threads[t]);
      match s.threads[t]
      case Idle =>
      case LoadRecorder(b) => LoadRecorderGood(config, s, t, b);
      case StoreRecorder(b) => StoreRecorderGood(config, s, t, b);
      case LoadValues(b, r) => LoadValuesGood(config, s, t, b, r);
      case StoreValues(b, r) => StoreValuesGood(config, s, t, b, r);
      case Calculate(b, v, x, j) => CalculateGood(config, s, t);
  }
}
