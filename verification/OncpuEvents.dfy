/** The events that pkg/component/detector/cpudetector/cpudetector.go takes from the CPU profiler. */
module OncpuEvents {
  import opened Bytes
  import opened Bits
  import opened Options
  import opened TrieModel

  const ON_CPU := "oncpu"

  /** A user attribute of an event, with its value as a number and as bytes. */
  datatype Attribute = Attribute(key: string, number: u64, bytes: Key)

  /** An event: the task that it is about, and its attributes. */
  datatype Event = Event(name: string, timestamp: u64, pid: u32, tid: u32, comm: Key, attrs: seq<Attribute>)

  datatype Label = Number(n: i64) | Text(text: Key)

  /** What the handler of on-CPU events passes on when samples are not put in tries. */
  datatype DataBlock = DataBlock(name: string, labels: map<string, Label>, timestamp: u64, metric: string, value: i64)

  /** The last attribute with the given key, if there is one. */
  function Last(attrs: seq<Attribute>, key: string): (r: Option<Attribute>)
    ensures r.Some? ==> r.value in attrs && r.value.key == key
    ensures r.None? ==> forall a :: a in attrs ==> a.key != key
  {
    if attrs == [] then None
    else if attrs[|attrs| - 1].key == key then Some(attrs[|attrs| - 1])
    else Last(attrs[..|attrs| - 1], key)
  }

  function LastNumber(attrs: seq<Attribute>, key: string, default_: u64): (v: u64)
  {
    match Last(attrs, key) case None => default_ case Some(a) => a.number
  }

  function LastBytes(attrs: seq<Attribute>, key: string): (v: Key)
  {
    match Last(attrs, key) case None => [] case Some(a) => a.bytes
  }

  /** The labels that the attributes give: one for each of the two keys that occurs, with its last value. */
  function AttributeLabels(attrs: seq<Attribute>): (labels: map<string, Label>)
  {
    var count, stack := Last(attrs, "count"), Last(attrs, "stack");
    if count.None? && stack.None? then map[]
    else if count.None? then map["stack" := Text(stack.value.bytes)]
    else if stack.None? then map["count" := Number(ToInt(count.value.number))]
    else map["count" := Number(ToInt(count.value.number)), "stack" := Text(stack.value.bytes)]
  }

  lemma {:induction false} NoAttributes()
    ensures LastNumber([], "count", 0) == 0 && LastBytes([], "stack") == [] && Last([], "sampleRate") == None
    ensures AttributeLabels([]) == map[] && 0 < TWO_64
  {}

  lemma {:induction false} OneMore(attrs: seq<Attribute>, a: Attribute)
    ensures LastNumber(attrs + [a], "count", 0) == if a.key == "count" then a.number else LastNumber(attrs, "count", 0)
    ensures LastBytes(attrs + [a], "stack") == if a.key == "stack" then a.bytes else LastBytes(attrs, "stack")
    ensures Last(attrs + [a], "sampleRate") == if a.key == "sampleRate" then Some(a) else Last(attrs, "sampleRate")
    ensures AttributeLabels(attrs + [a]) == (
      if a.key == "count" then AttributeLabels(attrs)["count" := Number(ToInt(a.number))]
      else if a.key == "stack" then AttributeLabels(attrs)["stack" := Text(a.bytes)]
      else AttributeLabels(attrs))
  {
    assert (attrs + [a])[..|attrs|] == attrs;
    assert "count" != "stack" && "count" != "sampleRate" && "stack" != "sampleRate";
    hide LastNumber, LastBytes, ToInt;
  }

  /** strings.Replace of zero bytes by nothing. */
  function WithoutZeros(s: Key): (r: Key)
    ensures 0 !in r && (0 !in s ==> r == s)
  {
    if s == [] then [] else (if s[0] == 0 then [] else [s[0]]) + WithoutZeros(s[1..])
  }

  /** The data block of an on-CPU event: what it sampled, and where. */
  function OncpuBlock(e: Event): (b: DataBlock)
  {
    var labels := AttributeLabels(e.attrs)["pid" := Number(e.pid)]["tid" := Number(e.tid)]["comm" := Text(WithoutZeros(e.comm))];
    DataBlock(ON_CPU, labels, e.timestamp, "oncpu_hit_count", ToInt(LastNumber(e.attrs, "count", 0)))
  }

  lemma {:induction false} OncpuBlockIs(e: Event)
    ensures OncpuBlock(e) == DataBlock(ON_CPU,
      AttributeLabels(e.attrs)["pid" := Number(e.pid)]["tid" := Number(e.tid)]["comm" := Text(WithoutZeros(e.comm))],
      e.timestamp, "oncpu_hit_count", ToInt(LastNumber(e.attrs, "count", 0)))
  {
    hide Last, AttributeLabels, WithoutZeros, LastNumber, ToInt;
  }

  lemma {:induction false} LastAt(attrs: seq<Attribute>, key: string, i: nat)
    requires i < |attrs| && attrs[i].key == key && forall j :: i < j < |attrs| ==> attrs[j].key != key
    ensures Last(attrs, key) == Some(attrs[i])
  {
    if i < |attrs| - 1 { LastAt(attrs[..|attrs| - 1], key, i); }
  }

  /** The last attribute of a key decides; without one there is no label. */
  lemma {:induction false} BlockTellsLast(e: Event, i: nat)
    requires i < |e.attrs| && forall j :: i < j < |e.attrs| ==> e.attrs[j].key != e.attrs[i].key
    ensures var b, a := OncpuBlock(e), e.attrs[i];
      && (a.key == "count" ==> b.value == ToInt(a.number) && "count" in b.labels && b.labels["count"] == Number(b.value))
      && (a.key == "stack" ==> "stack" in b.labels && b.labels["stack"] == Text(a.bytes))
      && b.labels.Keys == {"pid", "tid", "comm"} + set x | x in e.attrs && x.key in {"count", "stack"} :: x.key
  {
    LastAt(e.attrs, e.attrs[i].key, i);
    LabelKeys(e.attrs);
    hide Last, WithoutZeros, ToInt;
  }

  lemma {:induction false} LabelKeys(attrs: seq<Attribute>)
    ensures AttributeLabels(attrs).Keys == set x | x in attrs && x.key in {"count", "stack"} :: x.key
  {
    forall k | k in {"count", "stack"} && Last(attrs, k).Some?
      ensures exists x :: x in attrs && x.key == k
    {
      assert Last(attrs, k).value in attrs;
    }
  }

  lemma {:induction false} FitsInt(n: u32)
    ensures -TWO_63 <= n < TWO_63
  {}
}
