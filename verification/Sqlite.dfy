/** The batching loop of pkg/component/exporter/sqlite/sqlite.go: items wait in a batch and are written table by table. */
module Sqlite {
  import opened Sequences

  datatype Table = OFFCPU | ONCPU | SYSCALL | CACHESTAT | FUTEXSNOOP

  /** An item of a table, with its columns; data of an unknown name is sent on as no item at all. */
  datatype Item = Known(table: Table, row: string) | Unknown

  /** Rows that were passed to the database in one go, and whether it took them. */
  datatype Chunk = Chunk(rows: seq<string>, taken: bool)

  /** What wakes the loop: an item, the timer, or the request to quit. */
  datatype Event = Received(item: Item) | Timer | Quit

  // ---- Rows and chunks ----

  /** The rows of the items of a table, in order. */
  function Rows(items: seq<Item>, t: Table): (rows: seq<string>)
  {
    if items == [] then []
    else
      var x := items[|items| - 1];
      Rows(items[..|items| - 1], t) + if x.Known? && x.table == t then [x.row] else []
  }

  lemma {:induction false} RowsConcat(a: seq<Item>, b: seq<Item>, t: Table)
    ensures Rows(a + b, t) == Rows(a, t) + Rows(b, t)
  {
    if b == [] {
      assert a + b == a;
    } else {
      var c := b[..|b| - 1];
      assert (a + b)[..|a + b| - 1] == a + c && (a + b)[|a + b| - 1] == b[|b| - 1];
      RowsConcat(a, c, t);
    }
  }

  /** All rows passed on, or those of them that the database took. */
  function Passed(chunks: seq<Chunk>, all: bool): (rows: seq<string>)
  {
    if chunks == [] then []
    else
      var c := chunks[|chunks| - 1];
      Passed(chunks[..|chunks| - 1], all) + if all || c.taken then c.rows else []
  }

  lemma {:induction false} PassedPush(chunks: seq<Chunk>, c: Chunk, all: bool)
    ensures Passed(chunks + [c], all) == Passed(chunks, all) + if all || c.taken then c.rows else []
  {
    assert (chunks + [c])[..|chunks + [c]| - 1] == chunks;
  }

  /** No rows make no chunk. */
  function Chunked(created: seq<string>, ok: bool): (c: seq<Chunk>)
  {
    if created == [] then [] else [Chunk(created, ok)]
  }

  // ---- The loop as a function of its events ----

  /** The batch that waits, and the batches that were flushed. */
  datatype Loop = Loop(batch: seq<Item>, flushes: seq<seq<Item>>)

  function Step(l: Loop, e: Event, limit: int): (r: Loop)
  {
    match e
    case Quit => l
    case Timer => if |l.batch| > 0 then Loop([], l.flushes + [l.batch]) else l
    case Received(x) =>
      var b := l.batch + [x];
      if |b| > limit then Loop([], l.flushes + [b]) else Loop(b, l.flushes)
  }

  function After(events: seq<Event>, limit: int): (l: Loop)
    ensures |l.batch| <= if limit < 0 then 0 else limit
  {
    if events == [] then Loop([], []) else Step(After(events[..|events| - 1], limit), events[|events| - 1], limit)
  }

  function ReceivedItems(events: seq<Event>): (items: seq<Item>)
  {
    if events == [] then []
    else ReceivedItems(events[..|events| - 1]) + if events[|events| - 1].Received? then [events[|events| - 1].item] else []
  }

  lemma {:induction false} FlattenPush(batches: seq<seq<Item>>, b: seq<Item>)
    ensures Flatten(batches + [b]) == Flatten(batches) + b
  {
    assert (batches + [b])[..|batches + [b]| - 1] == batches;
  }

  lemma {:induction false} EmptyFlatten()
    ensures Flatten<Item>([]) == []
  {}

  /** Every item received is in one batch, in order: in a flushed one or in the one that waits. */
  lemma {:induction false} Partition(events: seq<Event>, limit: int)
    ensures var l := After(events, limit); Flatten(l.flushes) + l.batch == ReceivedItems(events)
  {
    hide Flatten;
    EmptyFlatten();
    if events != [] {
      var l := After(events[..|events| - 1], limit);
      Partition(events[..|events| - 1], limit);
      match events[|events| - 1]
      case Quit =>
      case Timer =>
        FlattenPush(l.flushes, l.batch);
        assert Flatten(l.flushes) + l.batch == Flatten(l.flushes) + l.batch + [];
      case Received(x) =>
        FlattenPush(l.flushes, l.batch + [x]);
        assert Flatten(l.flushes) + (l.batch + [x]) == Flatten(l.flushes) + l.batch + [x];
    }
  }

  lemma {:induction false} AfterOne(events: seq<Event>, i: nat, limit: int)
    requires i < |events|
    ensures After(events[..i + 1], limit) == Step(After(events[..i], limit), events[i], limit)
  {
    assert events[..i + 1][..i] == events[..i];
  }

  lemma {:induction false} FlushesGrow(events: seq<Event>, i: nat, limit: int)
    requires i <= |events|
    ensures After(events[..i], limit).flushes <= After(events, limit).flushes
    decreases |events|
  {
    if i == |events| {
      assert events[..i] == events;
    } else {
      var before := events[..|events| - 1];
      assert before[..i] == events[..i];
      FlushesGrow(before, i, limit);
    }
  }

  predicate Fatal(batches: seq<seq<Item>>)
  {
    exists b :: b in batches && Unknown in b
  }

  lemma {:induction false} InFlatten(batches: seq<seq<Item>>, x: Item)
    ensures x in Flatten(batches) <==> exists b :: b in batches && x in b
  {
    if batches != [] {
      var before, last := batches[..|batches| - 1], batches[|batches| - 1];
      InFlatten(before, x);
      assert forall b :: b in batches <==> b in before || b == last;
    }
  }

  /** An unknown item was flushed exactly when it is among the items received that do not wait any more. */
  lemma {:induction false} FatalExactly(events: seq<Event>, limit: int)
    ensures
      var items, l := ReceivedItems(events), After(events, limit);
      |l.batch| <= |items| && (Fatal(l.flushes) <==> Unknown in items[..|items| - |l.batch|])
  {
    hide After, ReceivedItems;
    var items, l := ReceivedItems(events), After(events, limit);
    Partition(events, limit);
    assert items[..|items| - |l.batch|] == Flatten(l.flushes);
    InFlatten(l.flushes, Unknown);
  }

  /** One unknown item and the timer are enough. */
  lemma {:induction false} UnknownIsFatal(limit: int)
    ensures Fatal(After([Received(Unknown), Timer], limit).flushes)
  {
    var events := [Received(Unknown), Timer];
    NothingYet(limit);
    AfterOne(events, 0, limit);
    AfterOne(events, 1, limit);
    assert events[..0] == [] && events[..2] == events && [] + [Unknown] == [Unknown];
    assert Unknown in After(events, limit).flushes[0];
  }

  /** However often it is asked to quit, the loop goes on waiting, and what is in the batch stays there. */
  lemma {:induction false} QuitDoesNothing(events: seq<Event>, k: nat, limit: int)
    ensures After(events + seq(k, _ => Quit), limit) == After(events, limit)
  {
    var all := events + seq(k, _ => Quit);
    if k == 0 {
      assert all == events;
    } else {
      assert all[..|all| - 1] == events + seq(k - 1, _ => Quit);
      QuitDoesNothing(events, k - 1, limit);
    }
  }

  /** The last item before a quit is never written unless something else comes. */
  lemma {:induction false} QuitLosesItem(x: Item, k: nat, limit: int)
    requires limit >= 1
    ensures After([Received(x)] + seq(k, _ => Quit), limit) == Loop([x], [])
  {
    QuitDoesNothing([Received(x)], k, limit);
    assert [Received(x)][..0] == [] && [] + [x] == [x];
  }

  /** When the loop is asked to quit, everything received has been flushed exactly if no item waits in the batch. */
  lemma {:induction false} QuitLosesBatch(events: seq<Event>, k: nat, limit: int)
    ensures
      var l := After(events, limit);
      && Flatten(After(events + seq(k, _ => Quit), limit).flushes) + l.batch == ReceivedItems(events)
      && (Flatten(After(events + seq(k, _ => Quit), limit).flushes) == ReceivedItems(events) <==> l.batch == [])
  {
    hide After, ReceivedItems, Flatten;
    QuitDoesNothing(events, k, limit);
    Partition(events, limit);
    assert forall a: seq<Item>, b: seq<Item> :: |a + b| == |a| + |b|;
  }

  // ---- The exporter ----

  /** The loop of Flush over the batch; it panics at an item that is none. */
  method Sort(batch: seq<Item>)
    returns (panicked: bool, offcpus: seq<string>, oncpus: seq<string>, syscalls: seq<string>, cachestats: seq<string>,
             futexsnoops: seq<string>)
    ensures panicked <==> Unknown in batch
    ensures !panicked ==>
      && offcpus == Rows(batch, OFFCPU) && oncpus == Rows(batch, ONCPU) && syscalls == Rows(batch, SYSCALL)
      && cachestats == Rows(batch, CACHESTAT) && futexsnoops == Rows(batch, FUTEXSNOOP)
  {
    panicked, offcpus, oncpus, syscalls, cachestats, futexsnoops := false, [], [], [], [], [];
    for i := 0 to |batch|
      invariant !panicked && Unknown !in batch[..i]
      invariant offcpus == Rows(batch[..i], OFFCPU) && oncpus == Rows(batch[..i], ONCPU)
      invariant syscalls == Rows(batch[..i], SYSCALL) && cachestats == Rows(batch[..i], CACHESTAT)
      invariant futexsnoops == Rows(batch[..i], FUTEXSNOOP)
    {
      assert batch[..i + 1][..i] == batch[..i];
      var val := batch[i];
      if val.Unknown? {
        panicked := true;
        return;
      }
      if val.table == OFFCPU {
        offcpus := offcpus + [val.row];
      }
      if val.table == ONCPU {
        oncpus := oncpus + [val.row];
      }
      if val.table == SYSCALL {
        syscalls := syscalls + [val.row];
      }
      if val.table == CACHESTAT {
        cachestats := cachestats + [val.row];
      }
      if val.table == FUTEXSNOOP {
        futexsnoops := futexsnoops + [val.row];
      }
    }
    assert batch[..|batch|] == batch;
  }

  class SqliteExporter {
    const batchEntriesNum: int
    var rows: map<Table, seq<string>>
    ghost var chunks: map<Table, seq<Chunk>>

    constructor (batchEntriesNum: int)
      ensures Valid() && this.batchEntriesNum == batchEntriesNum
      ensures forall t :: rows[t] == [] && chunks[t] == []
    {
      this.batchEntriesNum := batchEntriesNum;
      rows := map[OFFCPU := [], ONCPU := [], SYSCALL := [], CACHESTAT := [], FUTEXSNOOP := []];
      chunks := map[OFFCPU := [], ONCPU := [], SYSCALL := [], CACHESTAT := [], FUTEXSNOOP := []];
      new;
      forall t ensures t in rows && t in chunks && rows[t] == [] && chunks[t] == [] {
        match t { case OFFCPU => case ONCPU => case SYSCALL => case CACHESTAT => case FUTEXSNOOP => }
      }
    }

    /** Every table holds the rows of the chunks that the database took, in order. */
    ghost predicate Valid()
      reads this
    {
      forall t :: t in rows && t in chunks && rows[t] == Passed(chunks[t], false)
    }

    /** CreateInBatches: the database takes all the rows or, on an error, none; the error is only logged. */
    method Create(t: Table, created: seq<string>, ok: bool)
      requires Valid()
      modifies this`rows, this`chunks
      ensures Valid()
      ensures chunks == old(chunks)[t := old(chunks)[t] + Chunked(created, ok)]
    {
      hide Passed;
      if |created| > 0 {
        PassedPush(chunks[t], Chunk(created, ok), false);
        if ok {
          rows := rows[t := rows[t] + created];
        }
        chunks := chunks[t := chunks[t] + [Chunk(created, ok)]];
      }
      assert chunks[t] == old(chunks)[t] + Chunked(created, ok);
    }

    /** Sorts a batch by table and writes each table's rows; a batch with an unknown item panics before any write. */
    method Flush(batch: seq<Item>, ok: Table -> bool) returns (panicked: bool)
      requires Valid()
      modifies this`rows, this`chunks
      ensures Valid() && (panicked <==> Unknown in batch)
      ensures panicked ==> chunks == old(chunks) && rows == old(rows)
      ensures !panicked ==> forall t :: chunks[t] == old(chunks)[t] + Chunked(Rows(batch, t), ok(t))
    {
      hide Rows, Passed, Chunked;
      var offcpus, oncpus, syscalls, cachestats, futexsnoops;
      panicked, offcpus, oncpus, syscalls, cachestats, futexsnoops := Sort(batch);
      if panicked { return; }
      Create(OFFCPU, offcpus, ok(OFFCPU));
      Create(ONCPU, oncpus, ok(ONCPU));
      Create(SYSCALL, syscalls, ok(SYSCALL));
      Create(CACHESTAT, cachestats, ok(CACHESTAT));
      Create(FUTEXSNOOP, futexsnoops, ok(FUTEXSNOOP));
      forall t ensures chunks[t] == old(chunks)[t] + Chunked(Rows(batch, t), ok(t)) {
        match t { case OFFCPU => case ONCPU => case SYSCALL => case CACHESTAT => case FUTEXSNOOP => }
      }
    }

    /** One more batch, unless it panics; what the database takes, if it takes all (fine), is the same. */
    method FlushOne(batch: seq<Item>, ok: Table -> bool, ghost fine: bool, ghost passed: map<Table, seq<string>>,
                    ghost taken: map<Table, seq<string>>, ghost batches: seq<seq<Item>>) returns (panicked: bool)
      requires Valid() && Wrote(true, chunks, passed, batches)
      requires fine ==> (forall t :: ok(t)) && Wrote(false, chunks, taken, batches)
      modifies this`rows, this`chunks
      ensures Valid() && (panicked <==> Unknown in batch)
      ensures
        var now := if panicked then batches else batches + [batch];
        Wrote(true, chunks, passed, now) && (fine ==> Wrote(false, chunks, taken, now))
    {
      hide Rows, Passed, Flatten, Chunked, Wrote;
      ghost var was := chunks;
      panicked := Flush(batch, ok);
      if panicked { return; }
      WroteMore(true, was, chunks, passed, batches, batch, ok);
      if fine { WroteMore(false, was, chunks, taken, batches, batch, ok); }
    }

    /** What the loop does about one event. */
    method Handle(e: Event, batch0: seq<Item>, ok: Table -> bool, ghost fine: bool, ghost passed: map<Table, seq<string>>,
                  ghost taken: map<Table, seq<string>>, ghost l: Loop) returns (panicked: bool, batch: seq<Item>)
      requires Valid() && l.batch == batch0 && !Fatal(l.flushes)
      requires Wrote(true, chunks, passed, l.flushes)
      requires fine ==> (forall t :: ok(t)) && Wrote(false, chunks, taken, l.flushes)
      modifies this`rows, this`chunks
      ensures Valid() && (panicked <==> Fatal(Step(l, e, batchEntriesNum).flushes))
      ensures !panicked ==> batch == Step(l, e, batchEntriesNum).batch
      ensures
        var now := if panicked then l.flushes else Step(l, e, batchEntriesNum).flushes;
        Wrote(true, chunks, passed, now) && (fine ==> Wrote(false, chunks, taken, now))
    {
      hide Wrote, Rows, Passed, Flatten;
      batch, panicked := batch0, false;
      var size := |batch|;
      match e
      case Quit =>
      case Received(data) =>
        batch := batch + [data];
        size := size + 1;
        if size > batchEntriesNum {
          FatalPush(l.flushes, batch);
          panicked := FlushOne(batch, ok, fine, passed, taken, l.flushes);
          batch := [];
        }
      case Timer =>
        if size > 0 {
          FatalPush(l.flushes, batch);
          panicked := FlushOne(batch, ok, fine, passed, taken, l.flushes);
          batch := [];
        }
    }

    /**
     * Run, over the events that wake it; i of them are handled. It panics exactly when a batch with an unknown item is
     * flushed; until then every flushed batch was written. For every table the rows passed to the
     * database and those in the batch are the rows received, in order and once each, and if all
     * writes succeed the same holds of the rows in the table.
     */
    method Run(events: seq<Event>, ok: (nat, Table) -> bool) returns (panicked: bool, batch: seq<Item>, i: nat)
      requires Valid()
      modifies this`rows, this`chunks
      ensures Valid() && i <= |events|
      ensures panicked <==> Fatal(After(events, batchEntriesNum).flushes)
      ensures !panicked ==> i == |events| && batch == After(events, batchEntriesNum).batch
      ensures panicked ==> i < |events| && Fatal(After(events[..i + 1], batchEntriesNum).flushes)
      ensures !Fatal(After(events[..i], batchEntriesNum).flushes)
      ensures forall t ::
        (var flushed := Flatten(After(events[..i], batchEntriesNum).flushes);
         Passed(chunks[t], true) == Passed(old(chunks)[t], true) + Rows(flushed, t))
      ensures !panicked ==> forall t ::
        Passed(chunks[t], true) + Rows(batch, t) == Passed(old(chunks)[t], true) + Rows(ReceivedItems(events), t)
      ensures !panicked && (forall j, t :: ok(j, t)) ==> forall t ::
        rows[t] + Rows(batch, t) == old(rows)[t] + Rows(ReceivedItems(events), t)
    {
      hide Rows, Passed, Flatten, After, ReceivedItems, Step, Fatal, Wrote;
      batch, i := [], 0;
      ghost var fine := forall j, t :: ok(j, t);
      ghost var passed, taken := map t: Table | t in rows :: Passed(chunks[t], true), rows;
      NothingYet(batchEntriesNum);
      WroteNothing(true, chunks, passed);
      WroteNothing(false, chunks, taken);
      while i < |events|
        invariant Valid() && i <= |events|
        invariant batch == After(events[..i], batchEntriesNum).batch
        invariant !Fatal(After(events[..i], batchEntriesNum).flushes)
        invariant Wrote(true, chunks, passed, After(events[..i], batchEntriesNum).flushes)
        invariant fine ==> Wrote(false, chunks, taken, After(events[..i], batchEntriesNum).flushes)
      {
        ghost var l := After(events[..i], batchEntriesNum);
        AfterOne(events, i, batchEntriesNum);
        panicked, batch := Handle(events[i], batch, t => ok(i, t), fine, passed, taken, l);
        if panicked {
          FlushesGrow(events, i + 1, batchEntriesNum);
          FatalGrows(After(events[..i + 1], batchEntriesNum).flushes, After(events, batchEntriesNum).flushes);
          WroteMeans(true, chunks, passed, l.flushes);
          return;
        }
        i := i + 1;
      }
      panicked := false;
      assert events[..i] == events;
      WroteMeans(true, chunks, passed, After(events, batchEntriesNum).flushes);
      WroteAll(true, chunks, passed, events, batchEntriesNum);
      if fine { WroteAll(false, chunks, taken, events, batchEntriesNum); }
    }
  }

  /** Behind what was passed on (or taken) before come the rows of these batches. */
  ghost predicate Wrote(all: bool, chunks: map<Table, seq<Chunk>>, before: map<Table, seq<string>>, batches: seq<seq<Item>>)
  {
    forall t :: t in chunks && t in before && Passed(chunks[t], all) == before[t] + Rows(Flatten(batches), t)
  }

  lemma {:induction false} WroteMeans(all: bool, chunks: map<Table, seq<Chunk>>, before: map<Table, seq<string>>,
                                      batches: seq<seq<Item>>)
    requires Wrote(all, chunks, before, batches)
    ensures forall t ::
      t in chunks && t in before && Passed(chunks[t], all) == before[t] + Rows(Flatten(batches), t)
  {}

  lemma {:induction false} WroteNothing(all: bool, chunks: map<Table, seq<Chunk>>, before: map<Table, seq<string>>)
    requires forall t :: t in chunks && t in before && Passed(chunks[t], all) == before[t]
    ensures Wrote(all, chunks, before, [])
  {}

  lemma {:induction false} WroteMore(all: bool, was: map<Table, seq<Chunk>>, now: map<Table, seq<Chunk>>,
                                     before: map<Table, seq<string>>, batches: seq<seq<Item>>, batch: seq<Item>, ok: Table -> bool)
    requires Wrote(all, was, before, batches) && (all || forall t :: ok(t))
    requires forall t :: t in now && t in was && now[t] == was[t] + Chunked(Rows(batch, t), ok(t))
    ensures Wrote(all, now, before, batches + [batch])
  {
    hide Rows, Passed, Flatten, Chunked;
    FlattenPush(batches, batch);
    forall t ensures Passed(now[t], all) == before[t] + Rows(Flatten(batches + [batch]), t) {
      assert Passed(was[t], all) == before[t] + Rows(Flatten(batches), t);
      assert ok(t) || all;
      ChunkPassed(was[t], Rows(batch, t), ok(t), all);
      RowsConcat(Flatten(batches), batch, t);
    }
  }

  lemma {:induction false} WroteAll(all: bool, chunks: map<Table, seq<Chunk>>, before: map<Table, seq<string>>,
                                    events: seq<Event>, limit: int)
    requires Wrote(all, chunks, before, After(events, limit).flushes)
    ensures forall t ::
      && t in chunks && t in before
      && Passed(chunks[t], all) + Rows(After(events, limit).batch, t) == before[t] + Rows(ReceivedItems(events), t)
  {
    hide Rows, Passed, Flatten, After, ReceivedItems;
    var l := After(events, limit);
    Partition(events, limit);
    forall t ensures Passed(chunks[t], all) + Rows(l.batch, t) == before[t] + Rows(ReceivedItems(events), t) {
      assert Passed(chunks[t], all) == before[t] + Rows(Flatten(l.flushes), t);
      RowsConcat(Flatten(l.flushes), l.batch, t);
    }
  }

  lemma {:induction false} ChunkPassed(chunks: seq<Chunk>, created: seq<string>, ok: bool, all: bool)
    requires all || ok
    ensures Passed(chunks + Chunked(created, ok), all) == Passed(chunks, all) + created
  {
    hide Passed;
    PassedPush(chunks, Chunk(created, ok), all);
    if created == [] { assert chunks + [] == chunks; }
  }

  lemma {:induction false} FatalPush(batches: seq<seq<Item>>, b: seq<Item>)
    ensures Fatal(batches + [b]) <==> Fatal(batches) || Unknown in b
  {
    var all := batches + [b];
    assert all[|all| - 1] == b && forall x :: x in all <==> x in batches || x == b;
  }

  lemma {:induction false} FatalGrows(a: seq<seq<Item>>, b: seq<seq<Item>>)
    requires a <= b && Fatal(a)
    ensures Fatal(b)
  {
    var x :| x in a && Unknown in x;
    assert x in b;
  }

  lemma {:induction false} NothingYet(limit: int)
    ensures After([], limit) == Loop([], []) && !Fatal([]) && Flatten<Item>([]) == [] && forall t :: Rows([], t) == []
  {}
}
