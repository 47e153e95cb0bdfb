/**
 * The upload cycle of pkg/component/detector/cpudetector/cpudetector.go: samples go into a live
 * trie per application; every upload tick hands the trie over and puts an empty one in its place.
 */
module UploadCycle {
  import opened Bytes
  import opened Options
  import opened OncpuEvents
  import opened TrieModel
  import opened TrieNodes
  import opened Tries

  const DEFAULT_SERVER := "http://localhost:4040"

  datatype UploadJob = UploadJob(startTime: int, endTime: int, sampleRate: nat, trie: Trie)

  /** One stack sample, and the counts of a trie that was handed over. */
  datatype Sample = Sample(app: string, stack: Key, count: u64)
  datatype Batch = Batch(app: string, counts: map<Key, u64>)

  function Sampled(seen: seq<Sample>, app: string, stack: Key): (n: nat)
  {
    if seen == [] then 0
    else
      var s := seen[|seen| - 1];
      Sampled(seen[..|seen| - 1], app, stack) + if s.app == app && s.stack == stack then s.count else 0
  }

  function HandedOver(handed: seq<Batch>, app: string, stack: Key): (n: nat)
  {
    if handed == [] then 0
    else
      var b := handed[|handed| - 1];
      HandedOver(handed[..|handed| - 1], app, stack) + if b.app == app then At(b.counts, stack) else 0
  }

  function Live(live: map<string, map<Key, u64>>, app: string, stack: Key): (n: nat)
  {
    if app in live then At(live[app], stack) else 0
  }

  /** What was handed over and what is live add up, modulo 2^64, to what was sampled. */
  ghost predicate Balanced(handed: seq<Batch>, live: map<string, map<Key, u64>>, seen: seq<Sample>)
  {
    forall app, stack {:trigger Live(live, app, stack)} :: stack != [] ==>
      (HandedOver(handed, app, stack) + Live(live, app, stack)) % TWO_64 == Sampled(seen, app, stack) % TWO_64
  }

  lemma {:induction false} WrapOnce(h: nat, l: nat, c: nat, n: nat)
    requires (h + l) % TWO_64 == n % TWO_64
    ensures (h + (l + c) % TWO_64) % TWO_64 == (n + c) % TWO_64
  {
    var q, p := (l + c) / TWO_64, (h + l) / TWO_64 - n / TWO_64;
    assert l + c == TWO_64 * q + (l + c) % TWO_64;
    assert h + l == n + TWO_64 * p;
    assert h + (l + c) % TWO_64 == (n + c) + TWO_64 * (p - q);
  }

  lemma {:induction false} BalancedSample(handed: seq<Batch>, live: map<string, map<Key, u64>>, seen: seq<Sample>, s: Sample)
    requires Balanced(handed, live, seen) && s.app in live
    ensures Balanced(handed, live[s.app := Updated(live[s.app], s.stack, Accumulate(s.count))], seen + [s])
  {
    var now, more := live[s.app := Updated(live[s.app], s.stack, Accumulate(s.count))], seen + [s];
    assert more[..|more| - 1] == seen;
    forall app, stack | stack != []
      ensures (HandedOver(handed, app, stack) + Live(now, app, stack)) % TWO_64 == Sampled(more, app, stack) % TWO_64
    {
      var h, l, n := HandedOver(handed, app, stack), Live(live, app, stack), Sampled(seen, app, stack);
      assert (h + l) % TWO_64 == n % TWO_64;
      if app == s.app && stack == s.stack {
        assert Live(now, app, stack) == (l + s.count) % TWO_64;
        WrapOnce(h, l, s.count, n);
      }
    }
  }

  lemma {:induction false} BalancedNew(handed: seq<Batch>, live: map<string, map<Key, u64>>, seen: seq<Sample>, app: string)
    requires Balanced(handed, live, seen) && app !in live
    ensures Balanced(handed, live[app := map[]], seen)
  {
    var now := live[app := map[]];
    forall a, stack | stack != []
      ensures Live(now, a, stack) == Live(live, a, stack)
    {}
    forall a, stack | stack != []
      ensures (HandedOver(handed, a, stack) + Live(now, a, stack)) % TWO_64 == Sampled(seen, a, stack) % TWO_64
    {
      assert Live(live, a, stack) == Live(now, a, stack);
    }
  }

  /** Handing a trie over moves its counts; a trie without a non-empty stack has none to move. */
  lemma {:induction false} BalancedUpload(handed: seq<Batch>, live: map<string, map<Key, u64>>, seen: seq<Sample>,
                                          app: string, now: seq<Batch>)
    requires Balanced(handed, live, seen) && app in live
    requires now == if live[app].Keys <= {[]} then handed else handed + [Batch(app, live[app])]
    ensures Balanced(now, live[app := map[]], seen)
  {
    var after := live[app := map[]];
    assert live[app].Keys <= {[]} || now[..|now| - 1] == handed;
    forall a, stack | stack != []
      ensures (HandedOver(now, a, stack) + Live(after, a, stack)) % TWO_64 == Sampled(seen, a, stack) % TWO_64
    {
      assert (HandedOver(handed, a, stack) + Live(live, a, stack)) % TWO_64 == Sampled(seen, a, stack) % TWO_64;
      if live[app].Keys <= {[]} { assert stack !in live[app]; }
    }
  }

  /** Every trie, live or handed over, stores its counts, in nodes of its own among these nodes. */
  ghost predicate Books(counts: map<Trie, map<Key, u64>>, nodes: set<TrieNode>)
    reads counts.Keys, nodes
  {
    && (forall t :: t in counts.Keys ==> t.shape.footprint <= nodes && t.Stores(counts[t]))
    && (forall t, u :: t in counts.Keys && u in counts.Keys && t != u ==> t.shape.footprint !! u.shape.footprint)
  }

  lemma {:induction false} BooksAt(counts: map<Trie, map<Key, u64>>, nodes: set<TrieNode>, t: Trie)
    requires Books(counts, nodes) && t in counts.Keys
    ensures t.shape.footprint <= nodes && t.Stores(counts[t])
    ensures forall u :: u in counts.Keys && u != t ==> u.shape.footprint !! t.shape.footprint
  {}

  /** One live trie per application; no trie is live for two, or live and handed over. */
  ghost predicate Consistent(tries: map<string, seq<Trie?>>, counts: map<Trie, map<Key, u64>>,
                             live: map<string, map<Key, u64>>, jobs: seq<UploadJob>, handed: seq<Batch>)
  {
    && tries.Keys == live.Keys && |handed| == |jobs|
    && (forall a :: a in tries.Keys ==> LiveOne(tries[a], counts, live[a]))
    && (forall a, b :: a in tries.Keys && b in tries.Keys && a != b && tries[a] != [] && tries[b] != [] ==> tries[a][0] != tries[b][0])
    && (forall i :: 0 <= i < |jobs| ==> jobs[i].trie in counts.Keys && counts[jobs[i].trie] == handed[i].counts)
    && (forall i, a :: 0 <= i < |jobs| && a in tries.Keys && tries[a] != [] ==> jobs[i].trie != tries[a][0])
  }

  ghost predicate LiveOne(ts: seq<Trie?>, counts: map<Trie, map<Key, u64>>, m: map<Key, u64>)
  {
    |ts| == 1 && ts[0] != null && ts[0] in counts.Keys && counts[ts[0]] == m
  }

  lemma {:induction false} ConsistentNew(tries: map<string, seq<Trie?>>, counts: map<Trie, map<Key, u64>>,
                                         live: map<string, map<Key, u64>>, jobs: seq<UploadJob>, handed: seq<Batch>,
                                         app: string, t: Trie)
    requires Consistent(tries, counts, live, jobs, handed) && t !in counts.Keys
    ensures Consistent(tries[app := [t]], counts[t := map[]], live[app := map[]], jobs, handed)
  {}

  lemma {:induction false} ConsistentSample(tries: map<string, seq<Trie?>>, counts: map<Trie, map<Key, u64>>,
                                            live: map<string, map<Key, u64>>, jobs: seq<UploadJob>, handed: seq<Batch>,
                                            app: string, t: Trie, m: map<Key, u64>)
    requires Consistent(tries, counts, live, jobs, handed) && app in tries && tries[app] == [t]
    ensures Consistent(tries, counts[t := m], live[app := m], jobs, handed)
  {}

  /** The live trie of app goes to the upstream. */
  lemma {:induction false} ConsistentUpload(tries: map<string, seq<Trie?>>, counts: map<Trie, map<Key, u64>>,
                                            live: map<string, map<Key, u64>>, jobs: seq<UploadJob>, handed: seq<Batch>,
                                            app: string, t: Trie, job: UploadJob, next: Trie)
    requires Consistent(tries, counts, live, jobs, handed) && app in tries && tries[app] == [t]
    requires job.trie == t && next !in counts.Keys
    ensures Consistent(tries[app := [next]], counts[next := map[]], live[app := map[]], jobs + [job], handed + [Batch(app, live[app])])
  {
    ConsistentNew(tries, counts, live, jobs, handed, app, next);
    assert LiveOne(tries[app], counts, live[app]);
  }

  /** trie.New for a detector that has the given tries. */
  method NewTrie(ghost counts: map<Trie, map<Key, u64>>, ghost nodes: set<TrieNode>) returns (t: Trie)
    requires Books(counts, nodes)
    ensures fresh(t) && fresh(t.shape.footprint) && Books(counts[t := map[]], nodes + t.shape.footprint)
  {
    hide *;
    t := new Trie.New();
    BooksWith(counts, nodes, t, map[], nodes + t.shape.footprint);
  }

  /** Insert with merge into one of the tries: the others keep their counts. */
  method InsertIn(t: Trie, stack: Key, v: u64, ghost counts: map<Trie, map<Key, u64>>, ghost nodes: set<TrieNode>)
    requires Books(counts, nodes) && t in counts.Keys
    modifies t`shape, t.shape.footprint
    ensures Books(counts[t := Updated(counts[t], stack, Accumulate(v))], nodes + t.shape.footprint)
    ensures fresh(t.shape.footprint - old(t.shape.footprint))
  {
    hide *;
    ghost var m := counts[t];
    ghost var others, apart, now := counts - {t}, nodes - t.shape.footprint, Updated(m, stack, Accumulate(v));
    BooksAt(counts, nodes, t);
    BooksOthers(counts, nodes, t);
    StoresParts(t, m);
    var _ := t.Insert(stack, v, true);
    MergedOne(m, stack, v);
    BooksWith(others, apart, t, now, nodes + t.shape.footprint);
    assert counts[t := now] == others[t := now];
  }

  /** The other tries have their books in nodes apart from those of t. */
  lemma {:induction false} BooksOthers(counts: map<Trie, map<Key, u64>>, nodes: set<TrieNode>, t: Trie)
    requires Books(counts, nodes) && t in counts.Keys
    ensures Books(counts - {t}, nodes - t.shape.footprint)
  {
    hide Trie.Stores;
  }

  lemma {:induction false} BooksWith(others: map<Trie, map<Key, u64>>, apart: set<TrieNode>, t: Trie, m: map<Key, u64>,
                                     nodes: set<TrieNode>)
    requires Books(others, apart) && t.Stores(m) && t.shape.footprint !! apart && apart + t.shape.footprint <= nodes
    ensures Books(others[t := m], nodes)
  {
    hide Trie.Stores;
  }

  lemma {:induction false} MergedOne(m: map<Key, u64>, key: Key, v: u64)
    ensures Updated(m, key, Accumulate(v)) == m[key := (At(m, key) + v) % TWO_64]
  {}

  lemma {:induction false} StoresParts(t: Trie, m: map<Key, u64>)
    requires t.Stores(m)
    ensures t.Valid() && WellFormed(t.Tree())
  {}

  /** The live tries of all applications but those in names are empty. */
  ghost predicate Replaced(live: map<string, map<Key, u64>>, names: set<string>)
  {
    forall a :: a in live.Keys - names ==> live[a] == map[]
  }

  /** The jobs from the first ones on are for one window. */
  ghost predicate Windowed(first: seq<UploadJob>, jobs: seq<UploadJob>, startTime: int, endTime: int)
  {
    first <= jobs && forall i :: |first| <= i < |jobs| ==> jobs[i].startTime == startTime && jobs[i].endTime == endTime
  }

  lemma {:induction false} UploadStart(live: map<string, map<Key, u64>>, jobs: seq<UploadJob>, startTime: int, endTime: int)
    ensures Replaced(live, live.Keys) && Windowed(jobs, jobs, startTime, endTime)
    ensures Replaced(map[], {})
  {}

  lemma {:induction false} UploadNext(wasLive: map<string, map<Key, u64>>, live: map<string, map<Key, u64>>,
                                      wasJobs: seq<UploadJob>, jobs: seq<UploadJob>, name: string, names: set<string>,
                                      first: seq<UploadJob>, startTime: int, endTime: int)
    requires name in wasLive && live == wasLive[name := map[]]
    requires Replaced(wasLive, names) && Windowed(first, wasJobs, startTime, endTime)
    requires wasLive[name].Keys <= {[]} ==> jobs == wasJobs
    requires !(wasLive[name].Keys <= {[]}) ==>
      && |jobs| == |wasJobs| + 1 && jobs[..|wasJobs|] == wasJobs
      && jobs[|wasJobs|].startTime == startTime && jobs[|wasJobs|].endTime == endTime
    ensures Replaced(live, names - {name}) && Windowed(first, jobs, startTime, endTime)
    ensures Replaced(wasLive, {}) ==> jobs == wasJobs && Replaced(live, {})
  {}

  class CpuDetector {
    const uploadRate: int
    var server: string
    var uploading: bool
    var previousTries: map<string, seq<Trie?>>
    var tries: map<string, seq<Trie?>>
    var startTimeTruncated: Option<int>
    var sampleRate: nat
    var jobs: seq<UploadJob>

    ghost var counts: map<Trie, map<Key, u64>>
    ghost var nodes: set<TrieNode>
    ghost var live: map<string, map<Key, u64>>
    ghost var handed: seq<Batch>
    ghost var seen: seq<Sample>

    ghost predicate Valid()
      reads this, counts.Keys, nodes
    {
      && Books(counts, nodes)
      && tries.Keys == previousTries.Keys && Consistent(tries, counts, live, jobs, handed)
      && Balanced(handed, live, seen)
    }

    lemma {:induction false} DormantParts()
      ensures Dormant() <==> jobs == [] && (uploading <==> server == DEFAULT_SERVER) && (uploading ==> Replaced(live, {}))
    {}

    lemma {:induction false} StateParts()
      requires Valid()
      ensures Books(counts, nodes) && Consistent(tries, counts, live, jobs, handed) && Balanced(handed, live, seen)
      ensures tries.Keys == previousTries.Keys == live.Keys
    {}

    lemma {:induction false} LiveTrie(app: string)
      requires Valid() && app in tries
      ensures app in live && |tries[app]| == 1 && tries[app][0] != null && tries[app] == [tries[app][0]]
      ensures tries[app][0] in counts.Keys && counts[tries[app][0]] == live[app]
    {
      StateParts();
      hide Books, Balanced;
      assert LiveOne(tries[app], counts, live[app]);
    }

    lemma {:induction false} SameApps()
      requires Valid()
      ensures tries.Keys == live.Keys
    {}

    lemma {:induction false} StateWhole()
      requires Books(counts, nodes) && Consistent(tries, counts, live, jobs, handed) && Balanced(handed, live, seen)
      requires tries.Keys == previousTries.Keys
      ensures Valid()
    {}

    constructor (uploadRate: int)
      ensures Valid() && Dormant() && this.uploadRate == uploadRate && jobs == [] && seen == []
      ensures live == map[ON_CPU := map[]] && fresh(counts.Keys) && fresh(nodes)
      ensures startTimeTruncated == None && server == "" && !uploading
    {
      hide *;
      this.uploadRate := uploadRate;
      server, uploading, startTimeTruncated, sampleRate := "", false, None, 0;
      previousTries, tries, jobs := map[], map[], [];
      counts, nodes, live, handed, seen := map[], {}, map[], [], [];
      new;
      NothingYet();
      InitializeTries(ON_CPU);
      NoSamples();
      DormantParts();
    }

    lemma {:induction false} NothingYet()
      requires counts == map[] && nodes == {} && tries == map[] && previousTries == map[] && live == map[]
      requires jobs == [] && handed == [] && seen == []
      ensures Valid()
    {}

    lemma {:induction false} NothingHanded()
      requires Valid() && Dormant()
      ensures jobs == [] && handed == []
    {}

    lemma {:induction false} NoSamples()
      requires live == map[ON_CPU := map[]]
      ensures Replaced(live, {}) && "" != DEFAULT_SERVER
    {}

    /** Init: the upload goroutine is started for the default server only. */
    method Init(server: string)
      requires Valid()
      modifies this`server, this`uploading
      ensures Valid() && this.server == server && uploading == (old(uploading) || server == DEFAULT_SERVER)
      ensures Replaced(old(live), {}) && old(jobs) == [] && !old(uploading) ==> Dormant()
    {
      hide Books, Balanced, Consistent, Replaced;
      this.server := server;
      if server != DEFAULT_SERVER { return; }
      uploading := true;
    }

    /**
     * How Init wires the detector: uploads run for the default server only, and samples are put
     * in tries for other servers only.
     */
    ghost predicate Dormant()
      reads this
    {
      && jobs == []
      && (uploading <==> server == DEFAULT_SERVER)
      && (uploading ==> Replaced(live, {}))
    }

    method InitializeTries(appName: string)
      requires Valid()
      modifies this`previousTries, this`tries, this`counts, this`nodes, this`live
      ensures Valid() && appName in tries && fresh(counts.Keys - old(counts.Keys)) && fresh(nodes - old(nodes))
      ensures live == if appName in old(previousTries) then old(live) else old(live)[appName := map[]]
    {
      hide *;
      StateParts();
      if appName !in previousTries {
        var t := NewTrie(counts, nodes);
        previousTries := previousTries[appName := [null]];
        BalancedNew(handed, live, seen, appName);
        ConsistentNew(tries, counts, live, jobs, handed, appName, t);
        tries := tries[appName := [t]];
        Keep(counts[t := map[]], nodes + t.shape.footprint, live[appName := map[]]);
      }
    }

    /** The sample goes into the live trie of its application. */
    method RecordSample(appName: string, stack: Key, v: u64)
      requires Valid() && appName in tries && stack != []
      modifies this`counts, this`nodes, this`live, this`seen
      modifies counts.Keys, nodes
      ensures Valid() && seen == old(seen) + [Sample(appName, stack, v)]
      ensures fresh(counts.Keys - old(counts.Keys)) && fresh(nodes - old(nodes))
    {
      hide *;
      LiveTrie(appName);
      var t := tries[appName][0];
      ghost var s := Sample(appName, stack, v);
      ghost var m := Updated(live[appName], stack, Accumulate(v));
      Sampling(s, t, m);
      InsertIn(t, stack, v, counts, nodes);
      seen := seen + [s];
      Keep(counts[t := m], nodes + t.shape.footprint, live[appName := m]);
    }

    /** New books that agree with the tries. */
    ghost method Keep(counts: map<Trie, map<Key, u64>>, nodes: set<TrieNode>, live: map<string, map<Key, u64>>)
      requires Books(counts, nodes) && Consistent(tries, counts, live, jobs, handed) && Balanced(handed, live, seen)
      requires tries.Keys == previousTries.Keys
      modifies this`counts, this`nodes, this`live
      ensures Valid() && this.counts == counts && this.nodes == nodes && this.live == live
    {
      hide *;
      this.counts, this.nodes, this.live := counts, nodes, live;
      StateWhole();
    }

    /** What holds of the books when a sample is in its trie. */
    lemma {:induction false} Sampling(s: Sample, t: Trie, m: map<Key, u64>)
      requires Valid() && s.app in tries && tries[s.app] == [t] && s.app in live && m == Updated(live[s.app], s.stack, Accumulate(s.count))
      ensures Books(counts, nodes) && tries.Keys == previousTries.Keys && t in counts.Keys && t.shape.footprint <= nodes
      ensures Consistent(tries, counts[t := m], live[s.app := m], jobs, handed) && Balanced(handed, live[s.app := m], seen + [s])
    {
      hide *;
      StateParts();
      LiveTrie(s.app);
      BooksAt(counts, nodes, t);
      BalancedSample(handed, live, seen, s);
      ConsistentSample(tries, counts, live, jobs, handed, s.app, t, m);
    }

    /** The callback of ProcessEvent: a sample with a stack is recorded, one without is not. */
    method AddSample(appName: string, stack: Key, v: u64)
      requires Valid()
      modifies this`previousTries, this`tries, this`counts, this`nodes, this`live, this`seen
      modifies counts.Keys, nodes
      ensures Valid() && fresh(counts.Keys - old(counts.Keys)) && fresh(nodes - old(nodes))
      ensures seen == if |stack| > 0 then old(seen) + [Sample(appName, stack, v)] else old(seen)
    {
      hide *;
      if |stack| > 0 {
        if appName !in tries {
          InitializeTries(appName);
          RecordSample(appName, stack, v);
        } else {
          RecordSample(appName, stack, v);
        }
      }
    }

    /** The attributes of an event; the sample rate is kept in the detector. */
    method TakeAttributes(attrs: seq<Attribute>) returns (count: u64, stack: Key, labels: map<string, Label>)
      modifies this`sampleRate
      ensures count == LastNumber(attrs, "count", 0) && stack == LastBytes(attrs, "stack")
      ensures labels == AttributeLabels(attrs)
      ensures sampleRate == (if Last(attrs, "sampleRate").None? then old(sampleRate)
                             else Last(attrs, "sampleRate").value.number % 0x1_0000_0000)
    {
      hide *;
      NoAttributes();
      count, stack, labels := 0, [], map[];
      for i := 0 to |attrs|
        invariant count == LastNumber(attrs[..i], "count", 0) && stack == LastBytes(attrs[..i], "stack")
        invariant labels == AttributeLabels(attrs[..i])
        invariant sampleRate == (if Last(attrs[..i], "sampleRate").None? then old(sampleRate)
                                 else Last(attrs[..i], "sampleRate").value.number % 0x1_0000_0000)
      {
        OneMore(attrs[..i], attrs[i]);
        assert attrs[..i + 1] == attrs[..i] + [attrs[i]];
        var a := attrs[i];
        if a.key == "count" {
          count := a.number;
          labels := labels["count" := Number(ToInt(count))];
        } else if a.key == "stack" {
          stack := a.bytes;
          labels := labels["stack" := Text(stack)];
        } else if a.key == "sampleRate" {
          sampleRate := a.number % 0x1_0000_0000;
        }
      }
      assert attrs[..|attrs|] == attrs;
    }

    /** The handler of on-CPU events: the sample goes to a trie, or on as a data block. */
    method OncpuHandler(e: Event) returns (data: Option<DataBlock>)
      requires Valid()
      modifies this`previousTries, this`tries, this`counts, this`nodes, this`live, this`seen, this`sampleRate
      modifies counts.Keys, nodes
      ensures Valid() && fresh(counts.Keys - old(counts.Keys)) && fresh(nodes - old(nodes))
      ensures server != DEFAULT_SERVER ==> data == None
      ensures server != DEFAULT_SERVER && LastBytes(e.attrs, "stack") == [] ==> seen == old(seen)
      ensures server != DEFAULT_SERVER && LastBytes(e.attrs, "stack") != [] ==>
        seen == old(seen) + [Sample(e.name, LastBytes(e.attrs, "stack"), LastNumber(e.attrs, "count", 0))]
      ensures server == DEFAULT_SERVER ==> seen == old(seen) && live == old(live) && data == Some(OncpuBlock(e))
      ensures old(Dormant()) ==> Dormant()
    {
      hide *;
      DormantParts();
      StateParts();
      var count, stack, labels := TakeAttributes(e.attrs);
      StateWhole();
      if server != DEFAULT_SERVER {
        AddSample(e.name, stack, count);
        DormantParts();
        return None;
      }
      DormantParts();
      FitsInt(e.pid);
      FitsInt(e.tid);
      labels := labels["pid" := Number(e.pid)];
      labels := labels["tid" := Number(e.tid)];
      labels := labels["comm" := Text(WithoutZeros(e.comm))];
      OncpuBlockIs(e);
      data := Some(DataBlock(ON_CPU, labels, e.timestamp, "oncpu_hit_count", ToInt(count)));
    }

    /** Hands the trie of one application over, unless it is empty, and puts a new one in its place. */
    method UploadOne(name: string, endTime: int)
      requires Valid() && name in tries
      modifies this`tries, this`jobs, this`counts, this`nodes, this`live, this`handed
      ensures Valid() && fresh(counts.Keys - old(counts.Keys)) && fresh(nodes - old(nodes))
      ensures live == old(live)[name := map[]]
      ensures old(live)[name].Keys <= {[]} ==> jobs == old(jobs) && handed == old(handed)
      ensures !(old(live)[name].Keys <= {[]}) ==>
        && |jobs| == |old(jobs)| + 1 && jobs[..|old(jobs)|] == old(jobs)
        && jobs[|old(jobs)|] == UploadJob(endTime - uploadRate, endTime, sampleRate, jobs[|old(jobs)|].trie)
        && handed == old(handed) + [Batch(name, old(live)[name])]
    {
      hide *;
      StateParts();
      LiveTrie(name);
      var ti := tries[name][0];
      LiveStores(ti, counts, nodes);
      ti.EmptyMeans(counts[ti]);
      var empty := ti.IsEmpty();
      var next := NewTrie(counts, nodes);
      ghost var m := live[name];
      var nowJobs := jobs;
      ghost var nowHanded := handed;
      if !empty {
        var job := UploadJob(endTime - uploadRate, endTime, sampleRate, ti);
        ConsistentUpload(tries, counts, live, jobs, handed, name, ti, job, next);
        nowJobs, nowHanded := jobs + [job], handed + [Batch(name, m)];
      } else {
        ConsistentNew(tries, counts, live, jobs, handed, name, next);
      }
      BalancedUpload(handed, live, seen, name, nowHanded);
      Install(name, next, nowJobs, nowHanded, nodes + next.shape.footprint);
    }

    /** The new state of one application and of the upstream. */
    method Install(name: string, next: Trie, jobs: seq<UploadJob>, ghost handed: seq<Batch>, ghost nodes: set<TrieNode>)
      requires name in tries && tries.Keys == previousTries.Keys
      requires Books(counts[next := map[]], nodes)
      requires Consistent(tries[name := [next]], counts[next := map[]], live[name := map[]], jobs, handed)
      requires Balanced(handed, live[name := map[]], seen)
      modifies this`tries, this`jobs, this`counts, this`nodes, this`live, this`handed
      ensures Valid() && counts == old(counts)[next := map[]] && live == old(live)[name := map[]]
      ensures this.jobs == jobs && this.handed == handed && this.nodes == nodes
    {
      hide *;
      tries := tries[name := [next]];
      counts, live, this.nodes := counts[next := map[]], live[name := map[]], nodes;
      this.jobs, this.handed := jobs, handed;
      StateWhole();
    }

    /** The loop over the applications; without a sample in any of them nothing is handed over. */
    method UploadAll(endTime: int)
      requires Valid()
      modifies this`tries, this`jobs, this`counts, this`nodes, this`live, this`handed
      ensures Valid() && fresh(counts.Keys - old(counts.Keys)) && fresh(nodes - old(nodes)) && Replaced(live, {})
      ensures Windowed(old(jobs), jobs, endTime - uploadRate, endTime)
      ensures Replaced(old(live), {}) ==> jobs == old(jobs)
    {
      hide *;
      SameApps();
      ghost var first, asleep := jobs, Replaced(live, {});
      UploadStart(live, jobs, endTime - uploadRate, endTime);
      var names := tries.Keys;
      while names != {}
        invariant Valid() && names <= tries.Keys && fresh(counts.Keys - old(counts.Keys)) && fresh(nodes - old(nodes))
        invariant Replaced(live, names) && Windowed(first, jobs, endTime - uploadRate, endTime)
        invariant asleep ==> jobs == first && Replaced(live, {})
        decreases names
      {
        var name :| name in names;
        SameApps();
        ghost var wasLive, wasJobs := live, jobs;
        UploadOne(name, endTime);
        SameApps();
        UploadNext(wasLive, live, wasJobs, jobs, name, names, first, endTime - uploadRate, endTime);
        names := names - {name};
      }
    }

    /** One upload tick. The first one hands nothing over and keeps the tries. */
    method UploadTries(endTimeTruncated: int)
      requires Valid()
      modifies this`startTimeTruncated, this`tries, this`jobs, this`counts, this`nodes, this`live, this`handed
      ensures Valid() && startTimeTruncated == Some(endTimeTruncated) && fresh(counts.Keys - old(counts.Keys)) && fresh(nodes - old(nodes))
      ensures old(startTimeTruncated) == None ==> jobs == old(jobs) && live == old(live) && tries == old(tries)
      ensures old(startTimeTruncated) != None ==> Replaced(live, {})
      ensures Windowed(old(jobs), jobs, endTimeTruncated - uploadRate, endTimeTruncated)
      ensures old(Dormant()) && uploading ==> Dormant()
    {
      hide *;
      DormantParts();
      UploadStart(live, jobs, endTimeTruncated - uploadRate, endTimeTruncated);
      if startTimeTruncated != None {
        UploadAll(endTimeTruncated);
      }
      StateParts();
      startTimeTruncated := Some(endTimeTruncated);
      StateWhole();
      DormantParts();
    }
  }

  /** What happens to a detector once it is started: an event arrives, or an upload tick fires. */
  datatype Occurrence = Arrived(event: Event) | Tick(endTime: int)

  /** A detector as it is wired: Init, then any events and ticks, which fire only when uploads were started. */
  method RunDetector(uploadRate: int, server: string, occurrences: seq<Occurrence>) returns (d: CpuDetector)
    ensures fresh(d) && d.Valid() && d.jobs == [] && d.handed == []
  {
    hide *;
    d := new CpuDetector(uploadRate);
    d.NoSamples();
    d.Init(server);
    for i := 0 to |occurrences|
      invariant d.Valid() && d.Dormant()
      invariant fresh(d.counts.Keys) && fresh(d.nodes)
    {
      match occurrences[i]
      case Arrived(e) =>
        var _ := d.OncpuHandler(e);
      case Tick(endTime) =>
        if d.uploading { d.UploadTries(endTime); }
    }
    d.NothingHanded();
  }

  /**
   * At any time in any run: for every application and stack, what the handed-over tries hold and
   * what its live trie holds add up to what was sampled, modulo 2^64.
   */
  lemma {:induction false} SamplesConserved(d: CpuDetector, app: string, stack: Key)
    requires d.Valid() && stack != []
    ensures (HandedOver(d.handed, app, stack) + Live(d.live, app, stack)) % TWO_64 == Sampled(d.seen, app, stack) % TWO_64
    ensures forall i :: 0 <= i < |d.jobs| ==> |d.handed| == |d.jobs| && d.jobs[i].trie.Stores(d.handed[i].counts)
    ensures app in d.live ==> |d.tries[app]| == 1 && d.tries[app][0] != null && d.tries[app][0].Stores(d.live[app])
  {
    hide *;
    d.StateParts();
    BalancedAt(d.handed, d.live, d.seen, app, stack);
    AllStored(d.tries, d.counts, d.nodes, d.live, d.jobs, d.handed);
  }

  lemma {:induction false} BalancedAt(handed: seq<Batch>, live: map<string, map<Key, u64>>, seen: seq<Sample>,
                                      app: string, stack: Key)
    requires Balanced(handed, live, seen) && stack != []
    ensures (HandedOver(handed, app, stack) + Live(live, app, stack)) % TWO_64 == Sampled(seen, app, stack) % TWO_64
  {}

  lemma {:induction false} AllStored(tries: map<string, seq<Trie?>>, counts: map<Trie, map<Key, u64>>, nodes: set<TrieNode>,
                                     live: map<string, map<Key, u64>>, jobs: seq<UploadJob>, handed: seq<Batch>)
    requires Books(counts, nodes) && Consistent(tries, counts, live, jobs, handed)
    ensures |handed| == |jobs| && forall i :: 0 <= i < |jobs| ==> jobs[i].trie.Stores(handed[i].counts)
    ensures forall a :: a in live ==> a in tries && |tries[a]| == 1 && tries[a][0] != null && tries[a][0].Stores(live[a])
  {
    hide Trie.Stores;
  }

  lemma {:induction false} LiveStores(t: Trie, counts: map<Trie, map<Key, u64>>, nodes: set<TrieNode>)
    requires Books(counts, nodes) && t in counts.Keys
    ensures t.Valid() && t.Stores(counts[t])
  {}
}
