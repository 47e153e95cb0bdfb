/** Go byte slices that start at the beginning of their backing array: several may share one array. */
module Slices {
  import opened Bytes

  datatype Slice = Slice(arr: array<byte>, len: nat)

  ghost predicate Valid(s: Slice)
  {
    s.len <= s.arr.Length
  }

  ghost function Content(s: Slice): (r: seq<byte>)
    requires Valid(s)
    reads s.arr
    ensures |r| == s.len
  {
    s.arr[..s.len]
  }

  method Make() returns (s: Slice)
    ensures Valid(s) && fresh(s.arr) && Content(s) == []
  {
    var a := new byte[0];
    s := Slice(a, 0);
  }

  /**
   * append(s, p...). When the backing array has room the bytes are written behind s, in the
   * array that other slices may share; otherwise they go to a new array, with spare room of
   * any size.
   */
  method Append(s: Slice, p: seq<byte>) returns (r: Slice)
    requires Valid(s)
    modifies s.arr
    ensures Valid(s) && Valid(r) && Content(r) == old(Content(s)) + p
    ensures r.arr == s.arr || fresh(r.arr)
    ensures forall k :: 0 <= k < s.len ==> s.arr[k] == old(s.arr[k])
  {
    var need := s.len + |p|;
    var arr := s.arr;
    if need > arr.Length {
      var spare: nat :| true;
      arr := new byte[need + spare](_ => 0);
      for k := 0 to s.len
        invariant forall j :: 0 <= j < k ==> arr[j] == s.arr[j]
        invariant unchanged(s.arr)
      {
        arr[k] := s.arr[k];
      }
    }
    for k := 0 to |p|
      invariant forall j :: 0 <= j < s.len ==> arr[j] == old(s.arr[j]) && s.arr[j] == old(s.arr[j])
      invariant forall j :: 0 <= j < k ==> arr[s.len + j] == p[j]
    {
      arr[s.len + k] := p[k];
    }
    r := Slice(arr, need);
    assert arr[..need] == old(s.arr[..s.len]) + p;
  }
}
