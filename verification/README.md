# Spycat, verified

Spycat collects CPU profiles, scheduling delays and lock waits with eBPF programs and hands them on,
aggregated, to uploaders and exporters. This project models the parts of it where counting can go
wrong, and proves that it does not, or says exactly when it does.

Six components are modelled, each in its own group of files.

**The trie of stack samples** (`Bytes`, `Streams`, `Slices`, `Varint`, `Trie*`). Nodes are heap
objects; `FindNodeAt` rewrites names and children in place while it walks down. Its meaning is a
function `Ins` on a value `Tree`, and the meaning of a tree is a map from keys to counts (`Holds`).
A tree that holds a map is compact (each edge is needed: a key ends there or it forks), so the map
determines the tree, and with it the bytes. The three traversals with explicit stacks (`Iterate`,
`Serialize`, `IterateRaw`) and the decoder with a parent stack (`Deserialize`) are loops over heap
nodes, slices or offsets, proved against recursive definitions: `Entries`, `Wire`, `Meaning`,
`Decode`. `Slices` models Go's `append`, where several slices share one backing array, because
`Iterate` relies on it. `Deserialize` and `IterateRaw` are specified on all byte strings, rejected ones
included, and `FindNodeAt` on all trees; the places where Go would panic (a name length that does not
fit an allocation, a prefix cut off an empty buffer, a child without a name) are outcomes of their own.
The varint code is the byte loop of Go's `encoding/binary`, unsigned LEB128 as in section 7.6 of
DWARF Version 4.

**The upload cycle** (`OncpuEvents`, `UploadCycle`, `AlignedTicker`). A detector keeps one live trie per
application, counts into it, and at each tick hands the tries over and starts new ones. Ghost fields
record all samples seen and all counts handed over.

**The aggregator** (`AggValues`, `AggHistogram`, `Aggregator`, `AggregatorRuns`,
`AggregatorTotals`, `AggregatorUniform`). The aggregated values are classes with their fields updated
in place; each is told by the sequence of what it was fed. Concurrent calls to `Aggregate` are threads
that take one step at a time in any order (load, store unless present, one value at a time); `Dump` is
one step, enabled when no thread holds the read lock. Recorders and value maps live on a heap of
indexes, so that a thread can hold on to one that others replace.

**The futex tracer** (`Bits`, `HashMaps`, `FutexModel`, `FutexWaiters`, `FutexHist`, `FutexRuns`,
`Futex`). Each handler is one atomic step on bounded maps with unsigned counters that wrap. The class
has the handlers as the program has them; `FutexModel` is their effect as functions, over which runs
are defined.

**The off-CPU tracer** (`OffcpuModel`, `Offcpu`). The map from pids to traces as in the futex
tracer, and the ring of scheduling records of each CPU, an array with a 32-bit counter that wraps.

**The sqlite exporter** (`Sqlite`). The loop that gathers items in a batch and flushes it table by
table, over any sequence of items, timer expiries and quit requests, with writes that may fail.

`Options` and `Sequences` are shared by several of these.

## Where the code does not do what it says

Each of these is a property that fails, with the members that state when the code does meet it and
those that have a failing input.

- `Init` starts the upload goroutine for the default server only, while `oncpuHandler` puts samples
  in tries for other servers only (cpudetector.go:90-92 and 406-409). As wired, no trie is ever
  handed over, whatever events arrive: `UploadCycle.RunDetector`. The cycle itself is correct and
  modelled for any order of calls.
- A merge of histograms compares the number of boundaries only. A boundary set is merged soundly
  exactly when it is the one kept here: `AggHistogram.MergeSound`; `AggHistogram.BoundariesIgnored`
  has the failing input.
- A maximum starts at 0, so that it is wrong exactly when all values are negative:
  `AggValues.MaximumExact`, `AggValues.MaximumLost`.
- The value map of a name and key has the metrics of the first block only; others are dropped
  silently. No run over a set of blocks drops anything exactly when blocks of one name and key have
  the same configured metrics: `AggregatorUniform.CompleteExactly`.
- A wait of length 0 doubles as "no minimum yet" in `futex_exit`: `FutexHist.MinimumExact`,
  `FutexRuns.MinimumLost`.
- The build defines `__TARGET_ARCH_x86` or `__TARGET_ARCH_arm64` (Makefile:38), never
  `__TARGET_ARCH_amd64`, so the branch of `futex_exit` without atomics is the one that is built. It
  stores the old maximum back: `FutexHist.MaximumExact`, `FutexRuns.MaximumLost`. Both branches are
  modelled (`atomic`).
- The thresholds `min_dur_ms` and `max_dur_ms` of the futex tracer are compared with microseconds.
  The test agrees with one in milliseconds on all waits exactly when the upper threshold is not above
  the lower one: `FutexRuns.ThresholdsAgree`; for each wait, `FutexRuns.ThresholdsDiffer`. With the
  default of 1000 a run reports a wait of 2 ms: `FutexRuns.ShortWaitReported`.
- A thread that calls `futex_enter` twice in a row is counted twice: `FutexWaiters.CountedTwice`,
  `FutexWaiters.OrderlyRuns`.
- A time off the CPU of 2^31 milliseconds or more is sent with another duration:
  `OffcpuModel.DurationExact`, `OffcpuModel.LongAwayMisreported`.
- The mark that an event came with a dump of its CPU's ring is never cleared, so that all later
  events of that CPU carry it: `OffcpuModel.MarkedMeans`, with the exact condition in
  `OffcpuModel.MarkTrue` and a run in `OffcpuModel.MarkStays`.
- The sqlite loop does not return on `quit`: the request changes nothing and the deferred flush is
  not reached, `Sqlite.QuitDoesNothing`. Nothing is lost exactly when the batch is empty:
  `Sqlite.QuitLosesBatch`, `Sqlite.QuitLosesItem`. An item of unknown kind is sent on
  as nil and ends the flush of its batch in a panic: `Sqlite.FatalExactly`, `Sqlite.UnknownIsFatal`.
- A trie decoded from bytes may have a child without a name, on which later insertions panic:
  `TrieWire.UnnamedChildDecodes`. No insertion panics exactly in the tries of
  `TrieProper.PassableExactly`; `TrieProper.DecodesWellFormed` says which bytes give a well-formed one.
- `IterateRaw` may cut a name twice on such bytes and panic: `TrieStream.UnnamedChildPanics`, and
  exactly when in `TriePanics.PanicsExactly` and `TriePanics.PanicsAfterName`.
- `Clone` takes any divider, and `Serialize` panics for 0, behind the name of the root:
  `Tries.Trie.Serialize`, `Tries.Trie.Bytes`.

`DefaultProcessor.Consume` passes data on without calling `Aggregate` (processor.go:152-170); the
aggregator is modelled on its own.

## Model

| member | source | states |
|---|---|---|
| Varint.EncodeFits | pkg/util/varint/varint.go:19-23 | Every 64-bit value takes at most the 10 bytes of the buffer. |
| Varint.RoundTrip | pkg/util/varint/varint.go:19-27 | Decoding an encoding gives the value back and uses exactly its bytes, whatever follows. |
| Varint.DecodeCanonical | pkg/util/varint/varint.go:25-27 | A successful decoding yields 64 bits; the bytes it used are the encoding of its value exactly when there is one byte or the last is not 0. |
| Varint.PrefixFails | pkg/util/varint/varint.go:25-27 | A proper prefix of an encoding is rejected as an unexpected end. |
| Varint.PutUvarint | pkg/util/varint/varint.go:19-21 | The loop fills the front of the buffer with the encoding and leaves the rest of it alone. |
| Varint.Write | pkg/util/varint/varint.go:19-23 | The encoding is appended to the writer, or a proper prefix of it when the writer fails. |
| Varint.Read | pkg/util/varint/varint.go:25-27 | The shifting loop yields value, error and rest of the recursive decoding, overflow and wrap in the tenth byte included. |
| TrieModel.Lead | pkg/util/trie/trie.go:88-93 | The last child that starts with a byte; -1 exactly when none does. |
| TrieModel.Slot | pkg/util/trie/trie.go:52-54 | The binary search ends between a smaller name and one that is not smaller, sorted or not. |
| TrieModel.InsWellFormed | pkg/util/trie/trie.go:62-155 | Insertion keeps names non-empty, first bytes of siblings distinct and siblings sorted. |
| TrieModel.WellFormedWalks | pkg/util/trie/trie.go:62-155 | In a well-formed tree the walk of every key succeeds. |
| TrieModel.InsHolds | pkg/util/trie/trie.go:62-155 | A tree that holds a map holds, after insertion, the map with that key set or increased and all other keys unchanged, and stays compact. |
| TrieCanon.Unique | pkg/util/trie/trie.go:62-155 | Two well-formed trees that hold the same map are the same tree. |
| TrieCanon.SameCountsSameTree | pkg/util/trie/trie.go:186-203 | Any two runs of insertions with the same final counts build the same tree. |
| TrieCanon.FoldMerges | pkg/util/trie/trie.go:194-197 | After merging insertions each inserted key has the sum of its counts modulo 2^64, and there are no other keys. |
| TrieCanon.InsertionOrderIrrelevant | pkg/util/trie/trie.go:62-155 | Merging insertions that are permutations of each other build the same tree. |
| TrieCanon.SizeBound | pkg/util/trie/trie.go:62-155 | A tree that holds n keys has at most 2n nodes, or one if n is 0. |
| TrieEntries.EntriesIncreasing | pkg/util/trie/trie.go:205-230 | Preorder reports keys in strictly increasing byte order. |
| TrieEntries.TraversalExact | pkg/util/trie/trie.go:205-230 | Preorder reports a key with a count exactly when the map has it with that count and the count is positive, each key once and in increasing order. |
| TrieNodes.TrieNode.Insert | pkg/util/trie/trie.go:52-59 | The new child stands at the place of the binary search and the others keep their order. |
| TrieNodes.TrieNode.FindLead | pkg/util/trie/trie.go:88-93 | The scan finds the last child with the byte. |
| TrieFind.SplitChild | pkg/util/trie/trie.go:118-131 | The child is cut in two in place: a new node with the first part of the name over the old node with the rest. |
| TrieFind.FindNodeAt | pkg/util/trie/trie.go:62-155 | The in-place walk, through all four cases, leaves heap nodes that represent the insertion into the tree they represented before; nodes stay disjoint, it terminates. It panics exactly on a key whose path meets a child without a name, and then has changed nothing. |
| Tries.Trie.New | pkg/util/trie/trie.go:167-174 | A new trie stores the empty map, with multiplier and divider 1. |
| Tries.Trie.Clone | pkg/util/trie/trie.go:176-184 | A clone has the nodes of the trie, hence stores what the trie stores, under the new scale. |
| Tries.Trie.Follow | pkg/util/trie/trie.go:176-184 | Whatever is inserted through one of two tries on the same root, the other is a valid trie for it: it stores what the first one stores. |
| Tries.Trie.Insert | pkg/util/trie/trie.go:186-203 | In any trie, the insertion of Ins or a panic that changes nothing; a well-formed trie never panics and stays well-formed, and one that stores a map stores it with the key set, or increased modulo 2^64. |
| Tries.Trie.EmptyMeans | pkg/util/trie/trie.go:232-237 | IsEmpty holds exactly when no non-empty key was inserted. |
| Tries.Trie.Iterate | pkg/util/trie/trie.go:205-230 | The callbacks are the positive counts of the stored map, each once, in increasing order of keys. |
| Tries.Walk | pkg/util/trie/trie.go:209-229 | The loop over two parallel stacks, with prefixes that share backing arrays, makes the callbacks of recursive preorder. |
| Tries.Extend | pkg/util/trie/trie.go:216-219 | Appending a name to the first prefix may write into the array it shares and still leaves all prefixes on the stack as they were. |
| Tries.Trie.Serialize | pkg/util/trie/trie.go:239-271 | The bytes written are those of the scaled tree, or a proper prefix of them when the writer fails; a divider of 0 panics behind the name of the root, if the writer takes that. |
| Tries.WriteNodes | pkg/util/trie/trie.go:240-270 | The loop over the node stack writes the recursive preorder encoding, or ends as Serialize does. |
| Tries.Trie.Bytes | pkg/util/trie/trie.go:398-402 | The bytes of the scaled tree, a function of the stored tree alone; a panic exactly when the divider is 0. |
| Tries.SameCountsSameBytes | pkg/util/trie/trie.go:398-402 | Two tries on the heap that store the same map have, at the same scale, the same bytes, however they came about. |
| TrieWire.ParseWire | pkg/util/trie/trie.go:354-391 | Parsing the encodings of some trees, whatever follows, gives back those trees and what follows. |
| TrieWire.ParseExtends | pkg/util/trie/trie.go:354-391 | What parsed keeps its meaning when more bytes follow. |
| TrieWire.TruncatedFails | pkg/util/trie/trie.go:354-391 | Every proper prefix of an encoding is rejected. |
| TrieWire.RoundTrip | pkg/util/trie/trie.go:239-271 | Decoding the encoding of a well-formed tree gives that tree and uses exactly its bytes. |
| TrieWire.WireInjective | pkg/util/trie/trie.go:239-271 | Different well-formed trees have different bytes. |
| TrieWire.SortedId | pkg/util/trie/trie.go:374-376 | Inserting children one by one at their place leaves sorted children as they are. |
| TrieWire.UnnamedChildDecodes | pkg/util/trie/trie.go:354-391 | The bytes of a root with an unnamed child decode to that tree, in which no walk but that of the empty key succeeds. |
| TrieProper.SortedWellFormed | pkg/util/trie/trie.go:374-376 | Inserting children one by one makes a tree well-formed exactly when no node below the root is without a name and siblings differ in their first byte. |
| TrieProper.DecodesWellFormed | pkg/util/trie/trie.go:354-391 | Bytes that decode give a well-formed trie exactly when the tree they spell is of that kind. |
| TrieProper.PassableExactly | pkg/util/trie/trie.go:62-155 | Insertion panics on no key exactly when no node that a key leads to has a child without a name; of siblings that start alike, the last is led to. |
| TrieDecode.ReadNode | pkg/util/trie/trie.go:363-386 | One round reads one node and inserts it under its parent, or fails exactly where the parser fails. |
| TrieDecode.ReadChild | pkg/util/trie/trie.go:362-390 | A round takes the first parent off, adopts the node read under it and queues the node once for each of its children; the loop then stands where the recursive parse stands. |
| TrieDecode.Deserialize | pkg/util/trie/trie.go:354-396 | On every byte string the loop over the parent stack returns a trie of the tree that the recursive decoder yields, or its failure. |
| TrieDecode.FromBytes | pkg/util/trie/trie.go:404-407 | As Deserialize, with nil for every failure. |
| TrieDecode.Copy | pkg/util/trie/trie.go:398-407 | FromBytes of Bytes stores the same map in the same tree. |
| TrieStream.StepsWhole | pkg/util/trie/trie.go:281-352 | The nodes of a tree in preorder account for all its bytes and all callbacks of Iterate. |
| TrieStream.RawCut | pkg/util/trie/trie.go:291-312 | A node that is cut anywhere but at its start is an error. |
| TrieStream.IterateRaw | pkg/util/trie/trie.go:281-352 | On every byte string, the outcome (done, error or panic) and the callbacks of the recursive meaning of the bytes. |
| TrieStream.WireCut | pkg/util/trie/trie.go:281-352 | On the bytes of any tree in which no node without a name comes, in preorder, after a name, with siblings in any order, cut anywhere: the callbacks are those of the nodes that arrived whole, and there is no error exactly when the cut is between two nodes. |
| TrieStream.WireWhole | pkg/util/trie/trie.go:281-352 | On all the bytes of such a tree the callbacks are those of Iterate, in the same order, without an error. |
| TrieStream.NeverPanics | pkg/util/trie/trie.go:313-349 | A remark on bytes that are the encoding of no tree: no panic, whatever the buffer, when nodes without a name come only while the length last copied is 0. |
| TriePanics.PanicsExactly | pkg/util/trie/trie.go:297-349 | On the bytes of any tree and any buffer: a panic exactly when the lengths copied last before the nodes without a name add up to more than the buffer and the name of the root hold, and otherwise the end of the stream without an error. |
| TriePanics.PanicsAfterName | pkg/util/trie/trie.go:297-349 | With an empty buffer and an unnamed root: a panic exactly when a node without a name comes, in preorder, after one with a name. |
| TrieStream.UnnamedChildPanics | pkg/util/trie/trie.go:313-349 | The bytes of a named leaf and an unnamed sibling after it end in a panic. |
| TrieScale.ScaleFloor | pkg/util/trie/trie.go:255-258 | Below the wrap a scaled count is the floor of v*m/d. |
| TrieScale.ScaledCounts | pkg/util/trie/trie.go:239-271 | Decoding the bytes of a scaled trie gives the floor of v*m/d at every key whose product does not wrap. |
| TrieScale.ScaledTotal | pkg/util/trie/trie.go:239-271 | The scaled total times d is at most m times the total, and short of it by less than d for each node with a positive count. |
| TrieScale.ScaledRoundTrip | pkg/util/trie/trie.go:239-271 | What decodes from scaled bytes is the scaled tree; for scale 1/1 the tree itself. |
| UploadCycle.BalancedUpload | pkg/component/detector/cpudetector/cpudetector.go:162-184 | Handing a trie over, or skipping it for lack of a non-empty stack, keeps the balance of samples. |
| UploadCycle.CpuDetector.InitializeTries | pkg/component/detector/cpudetector/cpudetector.go:74-83 | An application without tries gets one that is empty; all others keep theirs. |
| UploadCycle.CpuDetector.AddSample | pkg/component/detector/cpudetector/cpudetector.go:199-209 | A sample with a non-empty stack is added to the live trie of its application; one without changes nothing. |
| UploadCycle.CpuDetector.OncpuHandler | pkg/component/detector/cpudetector/cpudetector.go:384-416 | The last attributes make the sample, which is recorded for other servers; for the default one it is passed on as a data block with its labels and metric, and no trie changes. |
| OncpuEvents.BlockTellsLast | pkg/component/detector/cpudetector/cpudetector.go:390-416 | Of each key the last attribute gives the label, the count also the metric; a block has no other labels but those of the task. |
| UploadCycle.CpuDetector.UploadOne | pkg/component/detector/cpudetector/cpudetector.go:164-184 | A trie with a sample goes out with the window that ends now, an empty one does not; either way a new one takes its place. |
| UploadCycle.CpuDetector.UploadTries | pkg/component/detector/cpudetector/cpudetector.go:156-189 | The first tick hands nothing over and keeps the tries; later ones leave all live tries empty, and all their jobs are for the window of one upload interval up to the tick. |
| UploadCycle.CpuDetector.Init | pkg/component/detector/cpudetector/cpudetector.go:86-112 | Uploads are started for the default server only, which leaves a detector without samples dormant for good. |
| UploadCycle.RunDetector | pkg/component/detector/cpudetector/cpudetector.go:86-112 | A new detector, started for any server, hands nothing over in any run of events and ticks. |
| UploadCycle.SamplesConserved | pkg/component/detector/cpudetector/cpudetector.go:156-210 | At any time, for every application and non-empty stack, the counts in the tries handed over and in the live trie add up, modulo 2^64, to the samples. |
| AlignedTicker.NearestExactly | pkg/util/alignedticker/aligned_ticker.go:48-54 | A tick is sent as a multiple exactly when it fired from half an interval before it to just short of half after, and no multiple is nearer. |
| AlignedTicker.Loop | pkg/util/alignedticker/aligned_ticker.go:29-57 | First the next multiple is sent, then for each tick the nearest one. |
| AlignedTicker.TilesExactly | pkg/util/alignedticker/aligned_ticker.go:40-56 | The windows that end at the times sent tile the time exactly when every tick fires within half an interval of its due time. |
| AggValues.SumValue.Calculate | pkg/component/processor/agg_values.go:205-207 | The value is the wrapped sum of all it was fed. |
| AggValues.SumValue.Merge | pkg/component/processor/agg_values.go:214-217 | The sum of a histogram counts as its values would. |
| AggValues.MaxValue.Calculate | pkg/component/processor/agg_values.go:178-185 | The value is the greatest it was fed, or 0. |
| AggValues.MaximumExact | pkg/component/processor/agg_values.go:172-185 | It is one of the values fed exactly when one of them is not negative. |
| AggValues.MaximumLost | pkg/component/processor/agg_values.go:172-185 | Fed -1 alone, the maximum is 0. |
| AggValues.LastValue.Calculate | pkg/component/processor/agg_values.go:257-259 | The value is the last one fed; the one before is returned. |
| AggValues.CountValue.Merge | pkg/component/processor/agg_values.go:281-284 | The value is the wrapped number of values fed, those behind histograms included. |
| AggValues.AvgValue.Calculate | pkg/component/processor/agg_values.go:228-234 | Sum and count are those of all it was fed. |
| AggValues.AvgValue.Get | pkg/component/processor/agg_values.go:235-239 | The truncated quotient of the sum and the number of all values fed, both wrapped; a panic exactly when that number is 0 modulo 2^64. |
| AggHistogram.HistogramValue.Calculate | pkg/component/processor/agg_values.go:302-313 | The loop adds one to each bucket whose boundary the value does not pass, so all figures are those of all it was fed. |
| AggHistogram.HistogramValue.Merge | pkg/component/processor/agg_values.go:330-342 | A histogram with as many boundaries is added figure by figure, any other is refused and changes nothing; one with more buckets than boundaries panics after what came before was added. |
| AggHistogram.HistogramValue.Get | pkg/component/processor/agg_values.go:315-324 | The figures of all it was fed; the counts are the array itself, shared. |
| AggHistogram.Homomorphism | pkg/component/processor/agg_values.go:302-342 | After any mix of values and histograms with the same boundaries, sum, count and buckets are those of all the values behind them, each bucket counting the values up to its boundary. |
| AggHistogram.BucketsGrow | pkg/component/processor/agg_values.go:302-313 | With sorted boundaries and below the wrap the buckets do not decrease and are bounded by the count. |
| AggHistogram.MergeSound | pkg/component/processor/agg_values.go:330-342 | Among boundaries of the same number, those for which every histogram merges with its meaning kept, whatever values are behind it and behind the one kept, are exactly the equal ones. |
| AggHistogram.BoundariesIgnored | pkg/component/processor/agg_values.go:333-335 | A histogram with another boundary is merged and miscounts. |
| Aggregator.NewValues | pkg/component/processor/agg_values.go:86-101 | A value map has exactly the configured metrics of its first block, each with a value of every kind configured, in order, fed nothing. |
| AggregatorRuns.NextGood | pkg/component/processor/value_recorder.go:24-51 | Every step, in any interleaving, keeps: a thread holds only the recorder and value map in use, maps are found under their own name and key, and what was dumped is not in use. |
| AggregatorRuns.StoreValuesLive | pkg/component/processor/value_recorder.go:28-31 | The race to store a value map has one winner, which every later thread uses. |
| AggregatorRuns.DumpLive | pkg/component/processor/processor.go:63-75 | A dump hands out every value map in use, each under its name and key, and none is in use afterwards. |
| AggregatorTotals.NextConserves | pkg/component/processor/processor.go:51-75 | Every step keeps the balance of any figure of any aggregated value between dumped, kept, lost and recorded so far. |
| AggregatorTotals.RunConserves | pkg/component/processor/processor.go:51-75 | The balance holds at every moment of every run, with threads anywhere in their calls. |
| AggregatorTotals.NothingLostOrDoubled | pkg/component/processor/processor.go:51-75 | When no call is under way, dumped, kept and lost add up to all that completed calls recorded. |
| AggregatorTotals.LosesExactly | pkg/component/processor/agg_values.go:104-108 | A metric is lost exactly when it is configured, has data, and the first block of the live value map lacked it. |
| AggregatorTotals.UniformLosesNothing | pkg/component/processor/agg_values.go:86-117 | When blocks with the same name and key have the same configured metrics, no run loses anything, at any moment. |
| AggregatorUniform.CompleteExactly | pkg/component/processor/agg_values.go:86-117 | For blocks whose configured metrics have data: in every run over them, dumped and kept values contain all that completed calls recorded, exactly when blocks with the same name and key have the same configured metrics. |
| AggregatorTotals.DumpsStay | pkg/component/processor/value_recorder.go:37-51 | What a dump handed out stays as it was, whatever the run does next. |
| AggregatorTotals.ReportedTotals | pkg/component/processor/agg_values.go:205-217 | With uniform blocks the sums or counts reported and kept add up, modulo 2^64, to those of all completed calls. |
| Bits.FloorLog2Bounds | pkg/ebpf/cpu/futexsnoop/bits.bpf.h:8-36 | The logarithm used as reference is the exponent of the greatest power of two up to the value. |
| Bits.OrDisjoint | pkg/ebpf/cpu/futexsnoop/bits.bpf.h:16-23 | Bitwise or of numbers without a common bit is their sum. |
| Bits.Narrow | pkg/ebpf/cpu/futexsnoop/bits.bpf.h:12-22 | Each round of the search halves the width and keeps what was shifted out in the result. |
| Bits.Log2 | pkg/ebpf/cpu/futexsnoop/bits.bpf.h:8-26 | The shifts and ors compute the floor of the logarithm of every 32-bit value, 0 for 0. |
| Bits.Log2l | pkg/ebpf/cpu/futexsnoop/bits.bpf.h:28-36 | The same for every 64-bit value. |
| FutexModel.WaitOperations | pkg/ebpf/cpu/futexsnoop/futexsnoop.bpf.c:99-100 | The mask lets exactly the wait operation through, with or without its two flags. |
| FutexWaiters.EnterKeepsConsistent | pkg/ebpf/cpu/futexsnoop/futexsnoop.bpf.c:83-143 | The user counts stay the numbers of waiting threads exactly when the call is filtered out, or its thread is not waiting yet and both maps have room or neither changes. |
| FutexWaiters.ExitKeepsConsistent | pkg/ebpf/cpu/futexsnoop/futexsnoop.bpf.c:145-234 | Exiting always keeps them, and never takes one from 0. |
| FutexWaiters.CountedTwice | pkg/ebpf/cpu/futexsnoop/futexsnoop.bpf.c:120-128 | A thread that enters twice in a row is counted twice. |
| FutexWaiters.OrderlyRuns | pkg/ebpf/cpu/futexsnoop/futexsnoop.bpf.c:83-234 | Over whole runs the user counts are right all along exactly when every call to futex_enter meets that guard. |
| FutexWaiters.MaxUsersIsPeak | pkg/ebpf/cpu/futexsnoop/futexsnoop.bpf.c:122-140 | In such runs the highest user count of a lock is the most threads that ever waited for it at once. |
| FutexWaiters.LockReported | pkg/ebpf/cpu/futexsnoop/futexsnoop.bpf.c:129-136 | A lock is reported exactly when a thread joins it, it had a waiter before, and its peak is above the threshold. |
| FutexHist.HistogramExact | pkg/ebpf/cpu/futexsnoop/futexsnoop.bpf.c:186-217 | After any run a key has a histogram exactly when a wait was recorded for it, and slots, count, total, minimum and maximum are those of its waits, wrapped. |
| FutexHist.StartIsLastEnter | pkg/ebpf/cpu/futexsnoop/futexsnoop.bpf.c:102-162 | Over whole runs, with calls of other threads in between, a thread has a start entry exactly when it entered since its last exit with room in the map, and it is the latest such enter. |
| FutexHist.WaitMeasured | pkg/ebpf/cpu/futexsnoop/futexsnoop.bpf.c:145-190 | After any run an exit records a wait exactly when the thread has such an enter, there is no error, the clock did not go back and its key has a histogram or room for one; the wait is measured from that enter in whole microseconds. |
| FutexHist.SlotMeans | pkg/ebpf/cpu/futexsnoop/futexsnoop.bpf.c:192-195 | A slot is for the waits from its power of two to the next, the first also for 0, the last for all longer ones. |
| FutexHist.SlotsSumToContended | pkg/ebpf/cpu/futexsnoop/futexsnoop.bpf.c:195-196 | Below the wrap the slots add up to the number of waits. |
| FutexHist.MinimumExact | pkg/ebpf/cpu/futexsnoop/futexsnoop.bpf.c:199-211 | The minimum kept is the shortest wait exactly when no wait has length 0 or the last one has. |
| FutexHist.MaximumExact | pkg/ebpf/cpu/futexsnoop/futexsnoop.bpf.c:202-216 | The maximum kept is the longest wait exactly with atomics, or if all waits have length 0. |
| FutexHist.AverageBetween | pkg/ebpf/cpu/futexsnoop/futexsnoop.bpf.c:197-218 | Below the wrap the average is between the shortest and the longest wait. |
| FutexHist.WaitReported | pkg/ebpf/cpu/futexsnoop/futexsnoop.bpf.c:218-229 | Below the wrap a wait is reported exactly when it is within the thresholds and longer than the average of the earlier waits of its key, so the first never is. |
| FutexRuns.MinimumLost | pkg/ebpf/cpu/futexsnoop/futexsnoop.bpf.c:199-211 | A run of two waits, of 0 and 5 microseconds, leaves a minimum of 5. |
| FutexRuns.MaximumLost | pkg/ebpf/cpu/futexsnoop/futexsnoop.bpf.c:202-216 | Without atomics a run of one wait of 5 microseconds leaves a maximum of 0. |
| FutexRuns.ThresholdsDiffer | pkg/ebpf/cpu/futexsnoop/futexsnoop.bpf.c:219-221 | The exact waits on which the thresholds in microseconds and in milliseconds decide differently. |
| FutexRuns.ThresholdsAgree | pkg/app/config/config.go:23-24 | Both decide alike on all waits exactly when the upper threshold is not above the lower one. |
| FutexRuns.ShortWaitReported | pkg/ebpf/cpu/futexsnoop/futexsnoop.bpf.c:219-229 | With a minimum of 1000 a run reports a wait of 2000 microseconds, which is 2 milliseconds. |
| Futex.FutexSnoop.LookupOrTryInit | pkg/ebpf/cpu/futexsnoop/futexsnoop.bpf.c:66-81 | It fails exactly for a new key and a full map; a new key gets an empty histogram. |
| Futex.FutexSnoop.FutexEnter | pkg/ebpf/cpu/futexsnoop/futexsnoop.bpf.c:83-143 | The handler keeps the maps what the run of all calls makes of empty maps. |
| Futex.FutexSnoop.FutexExit | pkg/ebpf/cpu/futexsnoop/futexsnoop.bpf.c:145-234 | So does this one; afterwards the thread is not waiting. |
| OffcpuModel.PairedRuns | pkg/ebpf/cpu/offcpu/offcpu.bpf.c:107-318 | Over whole runs, even when inserts fail, a stored off-CPU time is the one of the latest switch-out of that pid, 0 if there was none, and the stored run queue delay the latest one; a pid that switched out and is not stored found the map full. |
| OffcpuModel.SentExactly | pkg/ebpf/cpu/offcpu/offcpu.bpf.c:254-314 | A switch sends an event exactly for a target that is stored and switched out before, with a time away in the range modulo 2^32 milliseconds; the event has that time and the increase of the run queue delay, and is marked, with its CPU, exactly if its wait on the run queue is too long or the CPU was marked before. |
| OffcpuModel.MarkedMeans | pkg/ebpf/cpu/offcpu/offcpu.bpf.c:303-314 | A CPU is marked exactly when some earlier event on it had too long a wait on the run queue: the mark is never cleared. |
| OffcpuModel.MarkTrue | pkg/ebpf/cpu/offcpu/offcpu.bpf.c:303-314 | The mark of an event is true exactly when the event waited too long or its CPU was not marked before. |
| OffcpuModel.MarkStays | pkg/ebpf/cpu/offcpu/offcpu.bpf.c:303-314 | A run in which a task comes back after too long a wait and then without one: the last event is marked although it did not wait. |
| OffcpuModel.DurationExact | pkg/ebpf/cpu/offcpu/offcpu.bpf.c:279-302 | The duration sent is the whole milliseconds since the switch-out exactly when the clock did not go back and they are fewer than 2^31. |
| OffcpuModel.LongAwayMisreported | pkg/ebpf/cpu/offcpu/offcpu.bpf.c:279-302 | A run of two switches, 2^31 milliseconds apart, sends the duration 2^64 - 2^31. |
| Offcpu.WrapHidden | pkg/ebpf/cpu/offcpu/offcpu.bpf.c:195-203 | The wrap of the counter does not change the slot. |
| Offcpu.LastRecords | pkg/ebpf/cpu/offcpu/offcpu.bpf.c:168-205 | Read back from its counter, a dump is the last 512 records, or all if there are fewer, newest first, across wraps. |
| Offcpu.SchedCache.Update | pkg/ebpf/cpu/offcpu/offcpu.bpf.c:184-205 | Each slot of the ring has the newest record that falls in it; recording stops while it is off. |
| Offcpu.SchedCache.Dump | pkg/ebpf/cpu/offcpu/offcpu.bpf.c:168-182 | The copy in the backup map stands for all records so far, unless the map is full; recording is on again. |
| Offcpu.OffcpuTracer.TryToWakeUp | pkg/ebpf/cpu/offcpu/offcpu.bpf.c:107-166 | The hook keeps map, events and rings what the hooks called so far make of empty ones. |
| Offcpu.OffcpuTracer.SchedSwitch | pkg/ebpf/cpu/offcpu/offcpu.bpf.c:224-318 | So does this one, the marks and CPUs of the messages included; a ring is dumped exactly when an event with too long a wait on the run queue is sent, and the dump then stands for all switches on that CPU. |
| Sqlite.Sort | pkg/component/exporter/sqlite/sqlite.go:75-106 | The loop gives each table the rows of its items, in order; it reports the panic exactly when an item has no kind. |
| Sqlite.SqliteExporter.Flush | pkg/component/exporter/sqlite/sqlite.go:63-148 | Each table gets the rows of its items in one write, and no write if there are none; a batch with an unknown item panics before anything is written. |
| Sqlite.SqliteExporter.Run | pkg/component/exporter/sqlite/sqlite.go:150-185 | For every table the rows written followed by those in the batch are the rows received, in order and once each, and so are the rows in the table if all writes succeed. It panics exactly when a flushed batch has an unknown item, at the first such flush. |
| Sqlite.Partition | pkg/component/exporter/sqlite/sqlite.go:150-185 | The flushed batches and the one kept are, one after the other, the items received. |
| Sqlite.FatalExactly | pkg/component/exporter/sqlite/sqlite.go:75-106 | A flush panics exactly when an unknown item is among the items received before those still in the batch. |
| Sqlite.UnknownIsFatal | pkg/component/exporter/sqlite/sqlite.go:75-106 | An unknown item and a timer expiry end in the panic. |
| Sqlite.QuitDoesNothing | pkg/component/exporter/sqlite/sqlite.go:150-185 | Any number of quit requests leaves batch and flushes as they are. |
| Sqlite.QuitLosesBatch | pkg/component/exporter/sqlite/sqlite.go:150-185 | After quit requests everything received has been flushed exactly when the batch was empty; otherwise the batch is what is missing. |
| Sqlite.QuitLosesItem | pkg/component/exporter/sqlite/sqlite.go:150-185 | An item received before them stays in the batch and is never written. |

## Left out

- Tries.Trie.Serialize: it takes no lock, so that running it beside Insert is not covered; tries are modelled sequentially.
- Tries.Trie.Clone: a clone shares its nodes with the original; Follow is a ghost step, and insertions through both at the same time are not covered.
- TrieStream.IterateRaw: a callback that modifies the key it is given, or keeps it beyond the call.
- TrieDecode.Deserialize: lengths that fit a Go int are taken to be allocatable.
- UploadCycle.CpuDetector.UploadTries: stops at the call of Upload; the queue behind it drops jobs when it is full.
- AlignedTicker.Loop: the sleep, the blocking of the channel and the stop request.
- AggregatorRuns.NextGood: the recorders, value maps and histories are values on indexed heaps instead of objects; the lock is modelled by what it excludes.
- Futex.FutexSnoop.FutexExit: handlers that interleave on several CPUs; each is one atomic step here. Inserts fail for lack of room only.
- Sqlite.SqliteExporter.Run: the columns of the tables are one string, and the wait until the timer fires is any time.
- The capacity of children slices in the trie: they are sequences, since no two of them share an array. The work lists of Iterate and Serialize, `append(tn.children, nodes...)`, may be written into the spare room of the array of tn.children. That is harmless: the bytes in use by tn.children are not touched; the list then lies in the array of a node that is visited, each node is visited once and has an array of its own, so the next append never writes over the list it reads; and a later insertion into that node overwrites spare room that no list uses any more.
- The bufio readers of Deserialize and IterateRaw read ahead: the rest of the reader is what the buffered reader has not handed out, and what the reader below it has lost is not modelled.
- The lookup of the argument maps in the eBPF programs: entry 0 of an array map always exists.
- Stack traces and command names are taken as the kernel gives them.
- `toAggregatedConfig` and `newKindConfig`, which fill in defaults, and the getters of sum, max, last and count.
- Loading and attaching eBPF programs, perf and ring readers, symbol resolution, HTTP and Loki uploads, logging, configuration files and the command line.
