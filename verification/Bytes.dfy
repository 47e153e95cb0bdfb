/** Bytes, machine integers and the lexicographic order of Go's bytes.Compare. */
module Bytes {
  type byte = x: int | 0 <= x < 256

  const TWO_63: int := 0x8000_0000_0000_0000
  const TWO_64: int := 0x1_0000_0000_0000_0000

  type u64 = x: int | 0 <= x < TWO_64
  type i64 = x: int | -TWO_63 <= x < TWO_63

  /** Go's conversion uint64 -> int (64-bit): reinterprets the top bit as the sign. */
  function ToInt(v: u64): (r: i64)
  {
    if v < TWO_63 then v else v - TWO_64
  }

  /** Go's conversion int -> uint64. */
  function ToU64(v: i64): (r: u64)
  {
    if v >= 0 then v else v + TWO_64
  }

  /** A wrapped term wraps the same sum. */
  lemma {:induction false} AddMod(a: int, b: int)
    ensures (a % TWO_64 + b) % TWO_64 == (a + b) % TWO_64
  {}

  /** bytes.Compare(a, b) < 0. */
  predicate Less(a: seq<byte>, b: seq<byte>)
  {
    if b == [] then false
    else if a == [] then true
    else if a[0] != b[0] then a[0] < b[0]
    else Less(a[1..], b[1..])
  }

  lemma {:induction false} LessIrreflexive(a: seq<byte>)
    ensures !Less(a, a)
  {
    if a != [] { LessIrreflexive(a[1..]); }
  }

  /** A common prefix does not affect the order. */
  lemma {:induction false} LessPrefix(p: seq<byte>, a: seq<byte>, b: seq<byte>)
    ensures Less(p + a, p + b) == Less(a, b)
  {
    if p == [] {
      assert p + a == a && p + b == b;
    } else {
      assert (p + a)[1..] == p[1..] + a && (p + b)[1..] == p[1..] + b;
      LessPrefix(p[1..], a, b);
    }
  }
}
