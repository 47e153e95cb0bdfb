/**
 * The aggregated values of pkg/component/processor/agg_values.go. Each is told by all it was fed:
 * plain values and histograms, in the order of arrival.
 */
module AggValues {
  import opened Bytes
  import opened Options

  datatype Histogram = Histogram(sum: i64, count: u64, boundaries: seq<i64>, bucketCounts: seq<u64>)

  /** What a metric carries: a value, or a histogram of values. */
  datatype Feed = Int(value: i64) | Hist(histogram: Histogram)

  datatype Kind = SumKind | MaxKind | AvgKind | LastKind | CountKind | HistogramKind
  datatype KindConfig = KindConfig(outputName: string, kind: Kind, explicitBoundaries: seq<i64>)

  /** An aggregated value: what it was made for, and what it was fed. */
  datatype Value = Value(config: KindConfig, fed: seq<Feed>)

  /** Signed and unsigned 64-bit arithmetic wraps. */
  function Wrap(x: int): (r: i64)
  {
    (x + TWO_63) % TWO_64 - TWO_63
  }

  lemma {:induction false} WrapCongruent(x: int)
    ensures (Wrap(x) - x) % TWO_64 == 0
  {}

  lemma {:induction false} WrapZero(x: int)
    ensures Wrap(x) == 0 <==> x % TWO_64 == 0
  {}

  lemma {:induction false} WrapUnique(r: i64, x: int)
    requires (r - x) % TWO_64 == 0
    ensures r == Wrap(x)
  {}

  lemma {:induction false} WrapAdd(x: int, y: int)
    ensures Wrap(Wrap(x) + y) == Wrap(x + y) && Wrap(x + Wrap(y)) == Wrap(x + y)
    ensures Wrap(Wrap(x) + Wrap(y)) == Wrap(x + y)
  {
    WrapOne(x, y);
    WrapOne(y, x);
    WrapOne(y, Wrap(x));
  }

  lemma {:induction false} WrapOne(x: int, y: int)
    ensures Wrap(Wrap(x) + y) == Wrap(x + y)
  {
    hide Wrap;
    WrapCongruent(x);
    WrapCongruent(x + y);
    var a := (Wrap(x) - x) / TWO_64;
    assert Wrap(x) == x + TWO_64 * a;
    assert Wrap(x + y) - (Wrap(x) + y) == Wrap(x + y) - (x + y) - TWO_64 * a;
    WrapUnique(Wrap(x + y), Wrap(x) + y);
  }

  function Abs(a: int): (n: nat)
  {
    if a < 0 then -a else a
  }

  /** Division of Go: truncated, with the one overflow. */
  function Quotient(a: i64, b: i64): (q: i64)
    requires b != 0
  {
    Wrap(if (a < 0) == (b < 0) then Abs(a) / Abs(b) else -(Abs(a) / Abs(b)))
  }

  /** The total of a figure over all feeds. */
  function Weight(fed: seq<Feed>, f: Feed -> int): (w: int)
  {
    if fed == [] then 0 else Weight(fed[..|fed| - 1], f) + f(fed[|fed| - 1])
  }

  lemma {:induction false} WeightPush(fed: seq<Feed>, x: Feed, f: Feed -> int)
    ensures Weight(fed + [x], f) == Weight(fed, f) + f(x)
  {
    assert (fed + [x])[..|fed + [x]| - 1] == fed;
  }

  function SumOf(): (f: Feed -> int)
  {
    (x: Feed) => if x.Int? then x.value else x.histogram.sum
  }

  function CountOf(): (f: Feed -> int)
  {
    (x: Feed) => if x.Int? then 1 else x.histogram.count
  }

  /** The greatest plain value, or 0 if none is positive. */
  function Greatest(fed: seq<Feed>): (m: i64)
    ensures m >= 0 && forall x :: x in fed && x.Int? ==> x.value <= m
    ensures m == 0 || Int(m) in fed
  {
    if fed == [] then 0
    else
      var m, x := Greatest(fed[..|fed| - 1]), fed[|fed| - 1];
      assert fed == fed[..|fed| - 1] + [x];
      if x.Int? && m < x.value then x.value else m
  }

  /** The last plain value, or 0. */
  function Latest(fed: seq<Feed>): (v: i64)
  {
    if fed == [] then 0
    else if fed[|fed| - 1].Int? then fed[|fed| - 1].value
    else Latest(fed[..|fed| - 1])
  }

  /** What one more feed does to the sum and to the count. */
  lemma {:induction false} SumPush(fed: seq<Feed>, x: Feed)
    ensures Wrap(Weight(fed + [x], SumOf())) ==
            Wrap(Wrap(Weight(fed, SumOf())) + if x.Int? then x.value else x.histogram.sum)
  {
    hide Wrap, Weight;
    WeightPush(fed, x, SumOf());
    WrapAdd(Weight(fed, SumOf()), if x.Int? then x.value else x.histogram.sum);
  }

  lemma {:induction false} CountPush(fed: seq<Feed>, x: Feed)
    ensures
      var n := if x.Int? then 1 else x.histogram.count;
      && Wrap(Weight(fed + [x], CountOf())) == Wrap(Wrap(Weight(fed, CountOf())) + n)
      && Wrap(Weight(fed + [x], CountOf())) == Wrap(Wrap(Weight(fed, CountOf())) + Wrap(n))
  {
    hide Wrap, Weight;
    WeightPush(fed, x, CountOf());
    WrapAdd(Weight(fed, CountOf()), if x.Int? then 1 else x.histogram.count);
  }

  class SumValue {
    const name: string
    var value: i64
    ghost var fed: seq<Feed>

    constructor (name: string)
      ensures Valid() && fed == [] && this.name == name
    {
      this.name, value, fed := name, 0, [];
    }

    ghost predicate Valid()
      reads this
    {
      value == Wrap(Weight(fed, SumOf()))
    }

    method Calculate(v: i64) returns (r: i64)
      requires Valid()
      modifies this
      ensures Valid() && fed == old(fed) + [Int(v)] && r == value
    {
      hide Wrap, Weight;
      SumPush(fed, Int(v));
      value := Wrap(value + v);
      fed := fed + [Int(v)];
      r := value;
    }

    method Merge(h: Histogram) returns (ok: bool)
      requires Valid()
      modifies this
      ensures ok && Valid() && fed == old(fed) + [Hist(h)]
    {
      hide Wrap, Weight;
      SumPush(fed, Hist(h));
      value := Wrap(value + h.sum);
      fed := fed + [Hist(h)];
      ok := true;
    }
  }

  class MaxValue {
    const name: string
    var value: i64
    ghost var fed: seq<Feed>

    constructor (name: string)
      ensures Valid() && fed == [] && this.name == name
    {
      this.name, value, fed := name, 0, [];
    }

    ghost predicate Valid()
      reads this
    {
      value == Greatest(fed)
    }

    method Calculate(v: i64) returns (r: i64)
      requires Valid()
      modifies this
      ensures Valid() && fed == old(fed) + [Int(v)] && r == value
    {
      if value < v {
        value := v;
      }
      fed := fed + [Int(v)];
      assert fed[..|fed| - 1] == old(fed);
      r := value;
    }

    /** An error: a histogram is not taken into account. */
    method Merge(h: Histogram) returns (ok: bool)
      requires Valid()
      modifies this`fed
      ensures !ok && Valid() && fed == old(fed) + [Hist(h)]
    {
      fed := fed + [Hist(h)];
      assert fed[..|fed| - 1] == old(fed);
      ok := false;
    }
  }

  /** Fed -1 alone it keeps 0. */
  lemma {:induction false} MaximumLost()
    ensures Greatest([Int(-1)]) == 0 && Int(0) !in [Int(-1)]
  {
    assert [Int(-1)][..0] == [];
  }

  /** It starts at 0: what it keeps is the maximum exactly when some value is not negative. */
  lemma {:induction false} MaximumExact(fed: seq<Feed>)
    requires exists x :: x in fed && x.Int?
    ensures Int(Greatest(fed)) in fed <==> exists x :: x in fed && x.Int? && x.value >= 0
  {
    if x :| x in fed && x.Int? && x.value >= 0 {
      assert Greatest(fed) >= x.value;
    }
  }

  class LastValue {
    const name: string
    var value: i64
    ghost var fed: seq<Feed>

    constructor (name: string)
      ensures Valid() && fed == [] && this.name == name
    {
      this.name, value, fed := name, 0, [];
    }

    ghost predicate Valid()
      reads this
    {
      value == Latest(fed)
    }

    method Calculate(v: i64) returns (r: i64)
      requires Valid()
      modifies this
      ensures Valid() && fed == old(fed) + [Int(v)] && r == old(value)
    {
      r := value;
      value := v;
      fed := fed + [Int(v)];
    }

    /** An error: a histogram is not taken into account. */
    method Merge(h: Histogram) returns (ok: bool)
      requires Valid()
      modifies this`fed
      ensures !ok && Valid() && fed == old(fed) + [Hist(h)]
    {
      fed := fed + [Hist(h)];
      assert fed[..|fed| - 1] == old(fed);
      ok := false;
    }
  }

  class CountValue {
    const name: string
    var value: i64
    ghost var fed: seq<Feed>

    constructor (name: string)
      ensures Valid() && fed == [] && this.name == name
    {
      this.name, value, fed := name, 0, [];
    }

    ghost predicate Valid()
      reads this
    {
      value == Wrap(Weight(fed, CountOf()))
    }

    method Calculate(v: i64) returns (r: i64)
      requires Valid()
      modifies this
      ensures Valid() && fed == old(fed) + [Int(v)] && r == value
    {
      hide Wrap, Weight;
      CountPush(fed, Int(v));
      value := Wrap(value + 1);
      fed := fed + [Int(v)];
      r := value;
    }

    method Merge(h: Histogram) returns (ok: bool)
      requires Valid()
      modifies this
      ensures ok && Valid() && fed == old(fed) + [Hist(h)]
    {
      hide Wrap, Weight;
      CountPush(fed, Hist(h));
      value := Wrap(value + Wrap(h.count));
      fed := fed + [Hist(h)];
      ok := true;
    }
  }

  class AvgValue {
    const name: string
    var value: i64
    var count: i64
    ghost var fed: seq<Feed>

    constructor (name: string)
      ensures Valid() && fed == [] && this.name == name
    {
      this.name, value, count, fed := name, 0, 0, [];
    }

    ghost predicate Valid()
      reads this
    {
      value == Wrap(Weight(fed, SumOf())) && count == Wrap(Weight(fed, CountOf()))
    }

    method Calculate(v: i64) returns (r: i64)
      requires Valid()
      modifies this
      ensures Valid() && fed == old(fed) + [Int(v)] && r == count
    {
      hide Wrap, Weight;
      SumPush(fed, Int(v));
      CountPush(fed, Int(v));
      value := Wrap(value + v);
      count := Wrap(count + 1);
      fed := fed + [Int(v)];
      r := count;
    }

    method Merge(h: Histogram) returns (ok: bool)
      requires Valid()
      modifies this
      ensures ok && Valid() && fed == old(fed) + [Hist(h)]
    {
      hide Wrap, Weight;
      CountPush(fed, Hist(h));
      SumPush(fed, Hist(h));
      count := Wrap(count + Wrap(h.count));
      value := Wrap(value + h.sum);
      fed := fed + [Hist(h)];
      ok := true;
    }

    /** The average; when the count is 0 the division panics, and there is none. */
    method Get() returns (r: Option<i64>)
      requires Valid()
      ensures r.None? <==> Weight(fed, CountOf()) % TWO_64 == 0
      ensures r.Some? ==>
        Wrap(Weight(fed, CountOf())) != 0 &&
        r.value == Quotient(Wrap(Weight(fed, SumOf())), Wrap(Weight(fed, CountOf())))
    {
      hide Wrap;
      WrapZero(Weight(fed, CountOf()));
      r := if count == 0 then None else Some(Quotient(value, count));
    }
  }
}
