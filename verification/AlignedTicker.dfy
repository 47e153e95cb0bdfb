/** The rounding of pkg/util/alignedticker/aligned_ticker.go: ticks are sent as multiples of the interval. */
module AlignedTicker {
  /** Times are counted from the zero time; Truncate rounds down to a multiple of d. */
  function Truncate(t: nat, d: nat): (r: nat)
    requires d > 0
  {
    t - t % d
  }

  predicate Multiple(t: int, d: nat)
    requires d > 0
  {
    t % d == 0
  }

  function Distance(a: int, b: int): (n: nat)
  {
    if a < b then b - a else a - b
  }

  /** The multiple nearest to a time; the later one of two. */
  function Nearest(t: nat, d: nat): (r: nat)
    requires d > 0
  {
    var prev := Truncate(t, d);
    if t - prev < prev + d - t then prev else prev + d
  }

  lemma {:induction false} MultipleNext(t: int, d: nat, k: int)
    requires d > 0 && Multiple(t, d)
    ensures Multiple(t + k * d, d)
  {
    var q := t / d;
    assert t + k * d == d * (q + k);
    Product(d, q + k);
  }

  lemma {:induction false} Product(d: nat, q: int)
    requires d > 0
    ensures d * q % d == 0
  {
    var r := d * q % d;
    assert d * q == d * (d * q / d) + r;
    var e := q - d * q / d;
    assert d * e == r;
    assert e > 0 ==> d * e >= d;
    assert e < 0 ==> d * e <= 0 - d;
  }

  /** Two different multiples are at least one interval apart. */
  lemma {:induction false} Apart(a: int, b: int, d: nat)
    requires d > 0 && Multiple(a, d) && Multiple(b, d) && a < b
    ensures a + d <= b
  {
    var p, q := a / d, b / d;
    assert a == d * p && b == d * q;
    assert q <= p ==> d * q <= d * p;
    assert d * q >= d * (p + 1) == d * p + d;
  }

  lemma {:induction false} TruncateMultiple(t: nat, d: nat)
    requires d > 0
    ensures Multiple(Truncate(t, d), d) && Truncate(t, d) <= t < Truncate(t, d) + d
  {
    assert t == d * (t / d) + t % d;
    Product(d, t / d);
  }

  /** What is sent for a tick is the multiple m exactly when the tick is from half an interval before to just short of half after. */
  lemma {:induction false} NearestExactly(t: nat, d: nat, m: int)
    requires d > 0 && Multiple(m, d)
    ensures Nearest(t, d) == m <==> 2 * (m - t) <= d && 2 * (t - m) < d
    ensures Multiple(Nearest(t, d), d)
    ensures Distance(Nearest(t, d), t) <= Distance(m, t)
  {
    TruncateMultiple(t, d);
    var prev := Truncate(t, d);
    assert Multiple(prev + d, d) by { MultipleNext(prev, d, 1); assert prev + 1 * d == prev + d; }
    if m < prev { Apart(m, prev, d); }
    if prev < m { Apart(prev, m, d); }
    if prev + d < m { Apart(prev + d, m, d); }
  }

  /** The loop, over the times at which its timer fires: first the next multiple, then the nearest to each time. */
  method Loop(d: nat, start: nat, times: seq<nat>) returns (sent: seq<nat>)
    requires d > 0
    ensures |sent| == |times| + 1
    ensures Multiple(sent[0], d) && start < sent[0] <= start + d
    ensures forall i :: 0 <= i < |times| ==> sent[i + 1] == Nearest(times[i], d)
  {
    TruncateMultiple(start, d);
    var prev := Truncate(start, d);
    var next := prev + d;
    MultipleNext(prev, d, 1);
    assert prev + 1 * d == next;
    sent := [next];
    for i := 0 to |times|
      invariant |sent| == i + 1 && sent[0] == next
      invariant forall j :: 0 <= j < i ==> sent[j + 1] == Nearest(times[j], d)
    {
      var now := times[i];
      prev := Truncate(now, d);
      TruncateMultiple(now, d);
      if now - prev < prev + d - now {
        sent := sent + [prev];
      } else {
        sent := sent + [prev + d];
      }
    }
  }

  /** The windows of one interval that end at the times sent cover the time without gap or overlap. */
  predicate Tiles(sent: seq<nat>, d: nat)
  {
    forall i {:trigger sent[i]} :: 0 < i < |sent| ==> sent[i] - d == sent[i - 1]
  }

  /** They do exactly when the timer fires within half an interval of each due time. */
  lemma {:induction false} TilesExactly(sent: seq<nat>, d: nat, times: seq<nat>)
    requires d > 0 && |sent| == |times| + 1 && Multiple(sent[0], d)
    requires forall i :: 0 <= i < |times| ==> sent[i + 1] == Nearest(times[i], d)
    ensures Tiles(sent, d) <==>
            forall i :: 0 <= i < |times| ==> OnTime(sent[0] + (i + 1) * d, times[i], d)
  {
    if Tiles(sent, d) {
      forall i | 0 <= i < |times| ensures OnTime(sent[0] + (i + 1) * d, times[i], d) {
        SentAt(sent, d, i + 1);
        MultipleNext(sent[0], d, i + 1);
        NearestExactly(times[i], d, sent[0] + (i + 1) * d);
      }
    }
    if forall i :: 0 <= i < |times| ==> OnTime(sent[0] + (i + 1) * d, times[i], d) {
      forall i | 0 < i < |sent| ensures sent[i] - d == sent[i - 1] {
        DueSent(sent, d, times, i);
        if i > 1 { DueSent(sent, d, times, i - 1); }
        assert i * d == (i - 1) * d + d;
      }
    }
  }

  /** The timer fires at t for the due time m. */
  predicate OnTime(m: int, t: nat, d: nat)
  {
    2 * (m - t) <= d && 2 * (t - m) < d
  }

  lemma {:induction false} SentAt(sent: seq<nat>, d: nat, i: nat)
    requires Tiles(sent, d) && i < |sent|
    ensures sent[i] == sent[0] + i * d
  {
    if i > 0 {
      SentAt(sent, d, i - 1);
      assert i * d == (i - 1) * d + d;
    }
  }

  lemma {:induction false} DueSent(sent: seq<nat>, d: nat, times: seq<nat>, i: nat)
    requires d > 0 && |sent| == |times| + 1 && Multiple(sent[0], d) && 0 < i < |sent|
    requires sent[i] == Nearest(times[i - 1], d) && OnTime(sent[0] + i * d, times[i - 1], d)
    ensures sent[i] == sent[0] + i * d
  {
    MultipleNext(sent[0], d, i);
    NearestExactly(times[i - 1], d, sent[0] + i * d);
  }
}
