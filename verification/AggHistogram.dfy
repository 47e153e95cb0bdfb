/** The histogram value of pkg/component/processor/agg_values.go, and what its figures mean. */
module AggHistogram {
  import opened Bytes
  import opened AggValues
  import opened Sequences

  /** A histogram is merged when it has as many boundaries; whether they are the same is not looked at. */
  predicate Merges(bounds: seq<i64>, x: Feed)
  {
    x.Int? || |x.histogram.boundaries| == |bounds|
  }

  function HistSum(bounds: seq<i64>): (f: Feed -> int)
  {
    (x: Feed) => if !Merges(bounds, x) then 0 else if x.Int? then x.value else x.histogram.sum
  }

  function HistCount(bounds: seq<i64>): (f: Feed -> int)
  {
    (x: Feed) => if !Merges(bounds, x) then 0 else if x.Int? then 1 else x.histogram.count
  }

  /** What a feed adds to bucket i: a value adds one to every bucket whose boundary it does not pass. */
  function InBucket(bounds: seq<i64>, i: nat): (f: Feed -> int)
    requires i < |bounds|
  {
    (x: Feed) =>
      if !Merges(bounds, x) then 0
      else if x.Int? then (if x.value <= bounds[i] then 1 else 0)
      else if i < |x.histogram.bucketCounts| then x.histogram.bucketCounts[i]
      else 0
  }

  /** The histogram kept after some feeds. */
  ghost predicate Keeps(h: Histogram, fed: seq<Feed>, bounds: seq<i64>)
  {
    && h.boundaries == bounds && |h.bucketCounts| == |bounds|
    && h.sum == Wrap(Weight(fed, HistSum(bounds))) && h.count == Weight(fed, HistCount(bounds)) % TWO_64
    && forall i :: 0 <= i < |bounds| ==> h.bucketCounts[i] == Weight(fed, InBucket(bounds, i)) % TWO_64
  }

  datatype MergeOutcome = Merged | Refused | Panicked

  class HistogramValue {
    const name: string
    const explicitBoundaries: seq<i64>
    const bucketCounts: array<u64>
    var sum: i64
    var count: u64
    ghost var fed: seq<Feed>

    constructor (name: string, explicitBoundaries: seq<i64>)
      ensures Valid() && fed == [] && fresh(bucketCounts)
      ensures this.name == name && this.explicitBoundaries == explicitBoundaries
    {
      this.name, this.explicitBoundaries := name, explicitBoundaries;
      bucketCounts := new u64[|explicitBoundaries|](_ => 0);
      sum, count, fed := 0, 0, [];
    }

    ghost predicate Valid()
      reads this, bucketCounts
    {
      && sum == Wrap(Weight(fed, HistSum(explicitBoundaries)))
      && count == Weight(fed, HistCount(explicitBoundaries)) % TWO_64
      && bucketCounts.Length == |explicitBoundaries|
      && forall i :: 0 <= i < |explicitBoundaries| ==>
           bucketCounts[i] == Weight(fed, InBucket(explicitBoundaries, i)) % TWO_64
    }

    method Calculate(v: i64) returns (r: i64)
      requires Valid()
      modifies this, bucketCounts
      ensures Valid() && fed == old(fed) + [Int(v)] && r == Wrap(count)
    {
      hide Wrap, Weight;
      var x := Int(v);
      WeightPush(fed, x, HistSum(explicitBoundaries));
      WeightPush(fed, x, HistCount(explicitBoundaries));
      WrapAdd(Weight(fed, HistSum(explicitBoundaries)), v);
      AddMod(Weight(fed, HistCount(explicitBoundaries)), 1);
      sum := Wrap(sum + v);
      count := (count + 1) % TWO_64;
      for i := 0 to |explicitBoundaries|
        modifies bucketCounts
        invariant forall j :: 0 <= j < i ==> bucketCounts[j] == Weight(fed + [x], InBucket(explicitBoundaries, j)) % TWO_64
        invariant forall j :: i <= j < |explicitBoundaries| ==>
                    bucketCounts[j] == Weight(fed, InBucket(explicitBoundaries, j)) % TWO_64
      {
        WeightPush(fed, x, InBucket(explicitBoundaries, i));
        if v <= explicitBoundaries[i] {
          AddMod(Weight(fed, InBucket(explicitBoundaries, i)), 1);
          bucketCounts[i] := (bucketCounts[i] + 1) % TWO_64;
        }
      }
      fed := fed + [x];
      r := Wrap(count);
    }

    /**
     * A histogram with another number of boundaries is refused; one with more counts than
     * boundaries panics behind the last bucket, when all of its figures that fit were added.
     */
    method Merge(h: Histogram) returns (outcome: MergeOutcome)
      requires Valid()
      modifies this, bucketCounts
      ensures Valid() && fed == old(fed) + [Hist(h)]
      ensures outcome.Refused? <==> !Merges(explicitBoundaries, Hist(h))
      ensures outcome.Panicked? <==> |h.boundaries| == |explicitBoundaries| < |h.bucketCounts|
      ensures outcome.Refused? ==> sum == old(sum) && count == old(count) && bucketCounts[..] == old(bucketCounts[..])
    {
      hide Wrap, Weight;
      var x := Hist(h);
      WeightPush(fed, x, HistSum(explicitBoundaries));
      WeightPush(fed, x, HistCount(explicitBoundaries));
      forall i | 0 <= i < |explicitBoundaries|
        ensures Weight(fed + [x], InBucket(explicitBoundaries, i)) ==
                Weight(fed, InBucket(explicitBoundaries, i)) + InBucket(explicitBoundaries, i)(x)
      {
        WeightPush(fed, x, InBucket(explicitBoundaries, i));
      }
      if |explicitBoundaries| != |h.boundaries| {
        fed := fed + [x];
        return Refused;
      }
      WrapAdd(Weight(fed, HistSum(explicitBoundaries)), h.sum);
      AddMod(Weight(fed, HistCount(explicitBoundaries)), h.count);
      sum := Wrap(sum + h.sum);
      count := (count + h.count) % TWO_64;
      outcome := Merged;
      for i := 0 to |h.bucketCounts|
        modifies bucketCounts
        invariant i <= bucketCounts.Length && outcome.Merged?
        invariant forall j :: 0 <= j < i ==> bucketCounts[j] == Weight(fed + [x], InBucket(explicitBoundaries, j)) % TWO_64
        invariant forall j :: i <= j < |explicitBoundaries| ==>
                    bucketCounts[j] == Weight(fed, InBucket(explicitBoundaries, j)) % TWO_64
      {
        if i >= bucketCounts.Length {
          outcome := Panicked;
          break;
        }
        AddMod(Weight(fed, InBucket(explicitBoundaries, i)), h.bucketCounts[i]);
        bucketCounts[i] := (bucketCounts[i] + h.bucketCounts[i]) % TWO_64;
      }
      fed := fed + [x];
    }

    /** The counts handed out are the array itself, not a copy: what is fed later shows in them. */
    method Get() returns (sum: i64, count: u64, bounds: seq<i64>, counts: array<u64>)
      requires Valid()
      ensures counts == bucketCounts && bounds == explicitBoundaries
      ensures Keeps(Histogram(sum, count, bounds, counts[..]), fed, explicitBoundaries)
    {
      sum, count, bounds, counts := this.sum, this.count, explicitBoundaries, bucketCounts;
    }
  }

  function Sum(xs: seq<i64>): (s: int)
  {
    if xs == [] then 0 else Sum(xs[..|xs| - 1]) + xs[|xs| - 1]
  }

  /** How many values do not pass the boundary b. */
  function AtMost(xs: seq<i64>, b: i64): (n: nat)
    ensures n <= |xs|
  {
    if xs == [] then 0 else AtMost(xs[..|xs| - 1], b) + if xs[|xs| - 1] <= b then 1 else 0
  }

  lemma {:induction false} SumConcat(xs: seq<i64>, ys: seq<i64>, b: i64)
    ensures Sum(xs + ys) == Sum(xs) + Sum(ys) && AtMost(xs + ys, b) == AtMost(xs, b) + AtMost(ys, b)
  {
    if ys == [] {
      assert xs + ys == xs;
    } else {
      var zs := xs + ys;
      assert zs[..|zs| - 1] == xs + ys[..|ys| - 1] && zs[|zs| - 1] == ys[|ys| - 1];
      SumConcat(xs, ys[..|ys| - 1], b);
    }
  }

  /** A histogram tells of the values xs: sum, count, and for each boundary how many do not pass it. */
  ghost predicate Tells(h: Histogram, xs: seq<i64>)
  {
    && h.sum == Wrap(Sum(xs)) && h.count == |xs| % TWO_64
    && |h.bucketCounts| == |h.boundaries|
    && forall i :: 0 <= i < |h.boundaries| ==> h.bucketCounts[i] == AtMost(xs, h.boundaries[i]) % TWO_64
  }

  /** A feed stands for values: itself, or those that a histogram with the same boundaries tells of. */
  ghost predicate StandsFor(x: Feed, xs: seq<i64>, bounds: seq<i64>)
  {
    if x.Int? then xs == [x.value] else x.histogram.boundaries == bounds && Tells(x.histogram, xs)
  }

  lemma {:induction false} Congruent(a: int, b: int, x: int, y: int)
    requires (a - b) % TWO_64 == 0 && (x - y) % TWO_64 == 0
    ensures ((a + x) - (b + y)) % TWO_64 == 0
  {}

  /** What one feed adds is congruent to what its values add. */
  lemma {:induction false} FeedTells(x: Feed, xs: seq<i64>, bounds: seq<i64>)
    requires StandsFor(x, xs, bounds)
    ensures (HistSum(bounds)(x) - Sum(xs)) % TWO_64 == 0
    ensures (HistCount(bounds)(x) - |xs|) % TWO_64 == 0
    ensures forall i :: 0 <= i < |bounds| ==> (InBucket(bounds, i)(x) - AtMost(xs, bounds[i])) % TWO_64 == 0
  {
    if x.Int? {
      assert xs[..0] == [];
    }
  }

  lemma {:induction false} FedTells(fed: seq<Feed>, xss: seq<seq<i64>>, bounds: seq<i64>)
    requires |fed| == |xss| && forall k :: 0 <= k < |fed| ==> StandsFor(fed[k], xss[k], bounds)
    ensures (Weight(fed, HistSum(bounds)) - Sum(Flatten(xss))) % TWO_64 == 0
    ensures (Weight(fed, HistCount(bounds)) - |Flatten(xss)|) % TWO_64 == 0
    ensures forall i :: 0 <= i < |bounds| ==>
              (Weight(fed, InBucket(bounds, i)) - AtMost(Flatten(xss), bounds[i])) % TWO_64 == 0
  {
    hide StandsFor, HistSum, HistCount, InBucket;
    if fed != [] {
      var n := |fed| - 1;
      var before, x, xs := Flatten(xss[..n]), fed[n], xss[n];
      FedTells(fed[..n], xss[..n], bounds);
      FeedTells(x, xs, bounds);
      SumConcat(before, xs, 0);
      Congruent(Weight(fed[..n], HistSum(bounds)), Sum(before), HistSum(bounds)(x), Sum(xs));
      Congruent(Weight(fed[..n], HistCount(bounds)), |before|, HistCount(bounds)(x), |xs|);
      forall i | 0 <= i < |bounds|
        ensures (Weight(fed, InBucket(bounds, i)) - AtMost(Flatten(xss), bounds[i])) % TWO_64 == 0
      {
        SumConcat(before, xs, bounds[i]);
        Congruent(Weight(fed[..n], InBucket(bounds, i)), AtMost(before, bounds[i]), InBucket(bounds, i)(x), AtMost(xs, bounds[i]));
      }
    }
  }

  lemma {:induction false} SameResidue(a: int, b: int)
    requires (a - b) % TWO_64 == 0
    ensures a % TWO_64 == b % TWO_64 && Wrap(a) == Wrap(b)
  {
    var q := (a - b) / TWO_64;
    assert a == b + TWO_64 * q;
    assert b == TWO_64 * (b / TWO_64) + b % TWO_64 && a == TWO_64 * (a / TWO_64) + a % TWO_64;
    assert Wrap(a) == Wrap(b) by {
      WrapCongruent(b);
      assert Wrap(b) - a == (Wrap(b) - b) - TWO_64 * q;
      WrapUnique(Wrap(b), a);
    }
  }

  /**
   * After any mix of values and histograms with the same boundaries, the histogram kept tells of
   * all the values behind them.
   */
  lemma {:induction false} Homomorphism(h: Histogram, fed: seq<Feed>, xss: seq<seq<i64>>, bounds: seq<i64>)
    requires Keeps(h, fed, bounds)
    requires |fed| == |xss| && forall k :: 0 <= k < |fed| ==> StandsFor(fed[k], xss[k], bounds)
    ensures Tells(h, Flatten(xss))
  {
    hide StandsFor, HistSum, HistCount, InBucket, Weight, Wrap;
    FedTells(fed, xss, bounds);
    SameResidue(Weight(fed, HistSum(bounds)), Sum(Flatten(xss)));
    SameResidue(Weight(fed, HistCount(bounds)), |Flatten(xss)|);
    forall i | 0 <= i < |bounds| ensures h.bucketCounts[i] == AtMost(Flatten(xss), bounds[i]) % TWO_64 {
      SameResidue(Weight(fed, InBucket(bounds, i)), AtMost(Flatten(xss), bounds[i]));
    }
  }

  /** Below the wrap and with sorted boundaries the buckets grow, up to the count. */
  lemma {:induction false} BucketsGrow(h: Histogram, xs: seq<i64>, i: nat, j: nat)
    requires Tells(h, xs) && |xs| < TWO_64
    requires i <= j < |h.boundaries| && h.boundaries[i] <= h.boundaries[j]
    ensures h.bucketCounts[i] <= h.bucketCounts[j] <= h.count
  {
    AtMostMonotone(xs, h.boundaries[i], h.boundaries[j]);
  }

  lemma {:induction false} AtMostMonotone(xs: seq<i64>, b: i64, c: i64)
    requires b <= c
    ensures AtMost(xs, b) <= AtMost(xs, c)
  {
    if xs != [] { AtMostMonotone(xs[..|xs| - 1], b, c); }
  }

  /** Merging one more histogram keeps the meaning exactly when each of its buckets counts at this one's boundary. */
  lemma {:induction false} MergeExact(h: Histogram, after: Histogram, fed: seq<Feed>, g: Histogram,
                                      xs: seq<i64>, ys: seq<i64>)
    requires Keeps(h, fed, h.boundaries) && Keeps(after, fed + [Hist(g)], h.boundaries)
    requires Tells(h, xs) && Tells(g, ys) && |g.boundaries| == |h.boundaries|
    ensures Tells(after, xs + ys) <==>
            forall i :: 0 <= i < |h.boundaries| ==> g.bucketCounts[i] == AtMost(ys, h.boundaries[i]) % TWO_64
  {
    hide Weight, Wrap, HistSum, HistCount, InBucket, AtMost, Sum;
    var bounds := h.boundaries;
    MergedFigures(h, after, fed, g, xs, ys);
    forall i | 0 <= i < |bounds|
      ensures after.bucketCounts[i] == AtMost(xs + ys, bounds[i]) % TWO_64 <==>
              g.bucketCounts[i] == AtMost(ys, bounds[i]) % TWO_64
    {
      MergedBucket(h, after, fed, g, xs, ys, i);
    }
  }

  lemma {:induction false} MergedFigures(h: Histogram, after: Histogram, fed: seq<Feed>, g: Histogram,
                                         xs: seq<i64>, ys: seq<i64>)
    requires Keeps(h, fed, h.boundaries) && Keeps(after, fed + [Hist(g)], h.boundaries)
    requires Tells(h, xs) && Tells(g, ys) && |g.boundaries| == |h.boundaries|
    ensures after.sum == Wrap(Sum(xs + ys)) && after.count == |xs + ys| % TWO_64
  {
    hide Weight, Wrap, InBucket, AtMost, Sum;
    var bounds, x := h.boundaries, Hist(g);
    SumConcat(xs, ys, 0);
    WeightPush(fed, x, HistSum(bounds));
    WeightPush(fed, x, HistCount(bounds));
    WrapAdd(Weight(fed, HistSum(bounds)), g.sum);
    WrapAdd(h.sum, Sum(ys));
    WrapAdd(Sum(xs), Sum(ys));
    AddMod(Weight(fed, HistCount(bounds)), g.count);
    CountTwice(|xs|, |ys|);
  }

  lemma {:induction false} MergedBucket(h: Histogram, after: Histogram, fed: seq<Feed>, g: Histogram,
                                        xs: seq<i64>, ys: seq<i64>, i: nat)
    requires Keeps(h, fed, h.boundaries) && Keeps(after, fed + [Hist(g)], h.boundaries)
    requires Tells(h, xs) && Tells(g, ys) && |g.boundaries| == |h.boundaries| && i < |h.boundaries|
    ensures after.bucketCounts[i] == AtMost(xs + ys, h.boundaries[i]) % TWO_64 <==>
            g.bucketCounts[i] == AtMost(ys, h.boundaries[i]) % TWO_64
  {
    hide Weight, Wrap, HistSum, HistCount, AtMost, Sum;
    var bounds, x := h.boundaries, Hist(g);
    SumConcat(xs, ys, bounds[i]);
    WeightPush(fed, x, InBucket(bounds, i));
    assert InBucket(bounds, i)(x) == g.bucketCounts[i];
    AddMod(Weight(fed, InBucket(bounds, i)), g.bucketCounts[i]);
    CountTwice(AtMost(xs, bounds[i]), AtMost(ys, bounds[i]));
    CountCancels(AtMost(xs, bounds[i]) % TWO_64, g.bucketCounts[i], AtMost(ys, bounds[i]) % TWO_64);
  }

  lemma {:induction false} CountTwice(a: nat, b: nat)
    ensures (a % TWO_64 + b % TWO_64) % TWO_64 == (a + b) % TWO_64
  {}

  lemma {:induction false} CountCancels(a: u64, b: u64, c: u64)
    ensures (a + b) % TWO_64 == (a + c) % TWO_64 <==> b == c
  {}

  /** Two histograms with one boundary each are merged although the boundaries differ. */
  lemma {:induction false} BoundariesIgnored()
    ensures
      var g := Histogram(15, 1, [20], [1]);
      && Tells(g, [15]) && Merges([10], Hist(g))
      && Weight([Hist(g)], InBucket([10], 0)) == 1 && AtMost([15], 10) == 0
  {
    var g := Histogram(15, 1, [20], [1]);
    assert [15][..0] == [] && [Hist(g)][..0] == [];
    assert AtMost([15], 20) == 1 && AtMost([15], 10) == 0 && Sum([15]) == 15;
    assert Wrap(15) == 15;
  }

  /** The histogram that is kept after the feeds fed. */
  function Kept(fed: seq<Feed>, bounds: seq<i64>): (h: Histogram)
    ensures Keeps(h, fed, bounds)
  {
    Histogram(Wrap(Weight(fed, HistSum(bounds))), Weight(fed, HistCount(bounds)) % TWO_64, bounds,
              seq(|bounds|, i requires 0 <= i < |bounds| => Weight(fed, InBucket(bounds, i)) % TWO_64))
  }

  /** The histogram that tells of the values xs. */
  function Told(xs: seq<i64>, bounds: seq<i64>): (h: Histogram)
    ensures Tells(h, xs) && h.boundaries == bounds
  {
    Histogram(Wrap(Sum(xs)), |xs| % TWO_64, bounds,
              seq(|bounds|, i requires 0 <= i < |bounds| => AtMost(xs, bounds[i]) % TWO_64))
  }

  /**
   * Merging histograms with the boundaries given into one with the boundaries bounds keeps the
   * meaning: whatever values ys they tell of, and xs are behind what was kept, xs + ys are behind
   * the result.
   */
  ghost predicate MergesMean(bounds: seq<i64>, given: seq<i64>)
  {
    forall fed: seq<Feed>, g: Histogram, xs: seq<i64>, ys: seq<i64> ::
      Tells(Kept(fed, bounds), xs) && g.boundaries == given && Tells(g, ys) ==>
        Tells(Kept(fed + [Hist(g)], bounds), xs + ys)
  }

  /** Histograms that pass the guard keep their meaning exactly when the boundaries are the same. */
  lemma {:induction false} MergeSound(bounds: seq<i64>, given: seq<i64>)
    requires |given| == |bounds|
    ensures MergesMean(bounds, given) <==> given == bounds
  {
    hide Keeps, Tells, Kept;
    if given == bounds {
      forall fed: seq<Feed>, g: Histogram, xs: seq<i64>, ys: seq<i64>
        | Tells(Kept(fed, bounds), xs) && g.boundaries == given && Tells(g, ys)
        ensures Tells(Kept(fed + [Hist(g)], bounds), xs + ys)
      {
        SameBoundaries(fed, bounds, g, xs, ys);
      }
    } else {
      var i :| 0 <= i < |bounds| && given[i] != bounds[i];
      OtherBoundary(bounds, given, i);
    }
  }

  lemma {:induction false} KeptBoundaries(fed: seq<Feed>, bounds: seq<i64>)
    ensures Kept(fed, bounds).boundaries == bounds
  {}

  lemma {:induction false} SameBoundaries(fed: seq<Feed>, bounds: seq<i64>, g: Histogram, xs: seq<i64>, ys: seq<i64>)
    requires Tells(Kept(fed, bounds), xs) && g.boundaries == bounds && Tells(g, ys)
    ensures Tells(Kept(fed + [Hist(g)], bounds), xs + ys)
  {
    hide Kept, Keeps;
    KeptBoundaries(fed, bounds);
    MergeExact(Kept(fed, bounds), Kept(fed + [Hist(g)], bounds), fed, g, xs, ys);
  }

  /** One value, the larger of two boundaries that differ, is counted at one and not at the other. */
  lemma {:induction false} OtherBoundary(bounds: seq<i64>, given: seq<i64>, i: nat)
    requires |given| == |bounds| && i < |bounds| && given[i] != bounds[i]
    ensures !MergesMean(bounds, given)
  {
    var y := if given[i] < bounds[i] then bounds[i] else given[i];
    var g := Told([y], given);
    assert [y][..0] == [];
    assert AtMost([y], bounds[i]) != AtMost([y], given[i]);
    hide Keeps, Kept;
    KeptBoundaries([], bounds);
    NothingKept(bounds);
    MergeExact(Kept([], bounds), Kept([] + [Hist(g)], bounds), [], g, [], [y]);
    assert !Tells(Kept([] + [Hist(g)], bounds), [] + [y]);
  }

  lemma {:induction false} NothingKept(bounds: seq<i64>)
    ensures Tells(Kept([], bounds), [])
  {}
}
