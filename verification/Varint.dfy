/**
 * Unsigned varints (pkg/util/varint/varint.go over Go's encoding/binary): the unsigned LEB128
 * of section 7.6 of DWARF Version 4, limited to 64 bits.
 */
module Varint {
  import opened Bytes
  import opened Streams

  const MAX_VARINT_LEN64: nat := 10

  /** Least significant group of seven bits first, the top bit set on every byte but the last. */
  function Encode(x: nat): (s: seq<byte>)
    ensures s != []
  {
    if x < 128 then [x] else [x % 128 + 128] + Encode(x / 128)
  }

  datatype Status = Ok | Eof | UnexpectedEof | Overflow

  /**
   * What reading one varint yields: the status, the number of bytes consumed, and the value
   * accumulated so far (which Go returns on an error too).
   */
  datatype Reading = Reading(status: Status, value: int, used: nat)

  /** Reads a varint of at most left bytes from s. */
  function DecodeFrom(s: seq<byte>, left: nat): (r: Reading)
    ensures r.used <= |s|
    ensures r.value >= 0 && !r.status.Eof?
    ensures r.status.Ok? ==> 1 <= r.used <= left
    decreases |s|
  {
    if left == 0 then Reading(Overflow, 0, 0)
    else if s == [] then Reading(UnexpectedEof, 0, 0)
    else if s[0] < 128 then
      if left == 1 && s[0] > 1 then Reading(Overflow, 0, 1) else Reading(Ok, s[0], 1)
    else if left == 1 then Reading(Overflow, s[0] % 2, 1)
    else
      var r := DecodeFrom(s[1..], left - 1);
      Reading(r.status, s[0] % 128 + 128 * r.value, 1 + r.used)
  }

  /** The end of the stream before the first byte is io.EOF, later it is io.ErrUnexpectedEOF. */
  function Decode(s: seq<byte>): (r: Reading)
    ensures r.used <= |s|
    ensures r.value >= 0
    ensures r.status.Ok? ==> 1 <= r.used <= 10
  {
    if s == [] then Reading(Eof, 0, 0) else DecodeFrom(s, MAX_VARINT_LEN64)
  }

  /** v << 7 * i, without the bound on the width. */
  function Shift(v: nat, i: nat): (r: nat)
    ensures r >= v
  {
    if i == 0 then v else 128 * Shift(v, i - 1)
  }

  lemma {:induction false} ShiftNine()
    ensures Shift(1, 9) == TWO_63
  {
    assert Shift(1, 3) == 0x20_0000;
    assert Shift(1, 6) == 0x400_0000_0000;
  }

  lemma {:induction false} EncodeLength(x: nat, n: nat)
    requires n >= 1 && x < Shift(1, n)
    ensures |Encode(x)| <= n
  {
    if x >= 128 {
      assert Shift(1, 1) == 128;
      EncodeLength(x / 128, n - 1);
    }
  }

  /** Every uint64 fits in MaxVarintLen64 bytes. */
  lemma {:induction false} EncodeFits(x: u64)
    ensures |Encode(x)| <= MAX_VARINT_LEN64
  {
    ShiftNine();
    assert Shift(1, 10) == 128 * Shift(1, 9);
    EncodeLength(x, 10);
  }

  lemma {:induction false} DecodeEncode(x: nat, left: nat, tail: seq<byte>)
    requires 1 <= left && x < 2 * Shift(1, left - 1)
    ensures DecodeFrom(Encode(x) + tail, left) == Reading(Ok, x, |Encode(x)|)
  {
    var s := Encode(x) + tail;
    if x < 128 {
      assert s[0] == x;
    } else {
      assert s[0] == x % 128 + 128 && s[1..] == Encode(x / 128) + tail;
      assert left >= 2 by { assert Shift(1, 0) == 1; }
      DecodeEncode(x / 128, left - 1, tail);
    }
  }

  /** Round trip and self-delimitation, for all uint64 values and whatever follows. */
  lemma {:induction false} RoundTrip(x: u64, tail: seq<byte>)
    ensures Decode(Encode(x) + tail) == Reading(Ok, x, |Encode(x)|)
    ensures |Encode(x)| <= MAX_VARINT_LEN64
  {
    ShiftNine();
    DecodeEncode(x, 10, tail);
    EncodeFits(x);
    assert Encode(x) + tail != [];
  }

  /** No proper prefix of an encoding decodes: the reader asks for more. */
  lemma {:induction false} PrefixFails(x: nat, left: nat, k: nat)
    requires k < |Encode(x)| <= left
    ensures DecodeFrom(Encode(x)[..k], left).status == UnexpectedEof
  {
    if k > 0 {
      assert Encode(x)[..k][1..] == Encode(x / 128)[..k - 1];
      PrefixFails(x / 128, left - 1, k - 1);
    }
  }

  lemma {:induction false} DecodeSound(s: seq<byte>, left: nat)
    requires left >= 1 && DecodeFrom(s, left).status.Ok?
    ensures var r := DecodeFrom(s, left);
      && r.value < 2 * Shift(1, left - 1)
      && |Encode(r.value)| <= r.used
      && (s[..r.used] == Encode(r.value) <==> r.used == 1 || s[r.used - 1] != 0)
  {
    var r := DecodeFrom(s, left);
    if s[0] >= 128 {
      DecodeSound(s[1..], left - 1);
      var q := DecodeFrom(s[1..], left - 1);
      assert Shift(1, left - 1) == 128 * Shift(1, left - 2);
      assert r.value % 128 == s[0] % 128 && r.value / 128 == q.value;
      assert s[..r.used] == [s[0]] + s[1..][..q.used];
      if r.value < 128 {
        assert q.value == 0 && Encode(0) == [0];
        assert s[1..][..q.used] == [0] <==> q.used == 1 && s[1] == 0;
        if q.used == 1 {
          assert s[1] == 0;
        } else {
          assert s[1..][q.used - 1] == s[r.used - 1];
          assert |Encode(q.value)| == 1 != q.used;
          assert s[1..][..q.used] != Encode(q.value);
        }
      } else {
        assert Encode(r.value) == [s[0]] + Encode(q.value);
        assert Encode(r.value)[1..] == Encode(q.value);
        assert s[..r.used][1..] == s[1..][..q.used];
        if q.used == 1 {
          assert q.value == s[1] && q.value != 0;
        }
      }
    } else {
      assert s[..1] == [s[0]];
      assert Shift(1, left - 1) >= 1;
      if left > 1 { assert Shift(1, left - 1) == 128 * Shift(1, left - 2); }
    }
  }

  /**
   * Reading accepts over-long encodings. What was read is the encoding of the value, byte for
   * byte, exactly when it does not end in a superfluous zero group; the value is a uint64.
   */
  lemma {:induction false} DecodeCanonical(s: seq<byte>)
    requires Decode(s).status.Ok?
    ensures var r := Decode(s);
      && r.value < TWO_64
      && |Encode(r.value)| <= r.used
      && (s[..r.used] == Encode(r.value) <==> r.used == 1 || s[r.used - 1] != 0)
  {
    ShiftNine();
    DecodeSound(s, 10);
  }

  lemma {:induction false} EncodeMore(done: seq<byte>, x: nat, all: seq<byte>)
    requires x >= 128 && done + Encode(x) == all
    ensures |done| + 1 < |all|
    ensures (done + [x % 128 + 128]) + Encode(x / 128) == all
  {
    assert done + ([x % 128 + 128] + Encode(x / 128)) == (done + [x % 128 + 128]) + Encode(x / 128);
  }

  /** binary.PutUvarint, byte by byte into buf. */
  method PutUvarint(buf: array<byte>, val: u64) returns (n: nat)
    requires buf.Length >= MAX_VARINT_LEN64
    modifies buf
    ensures n <= MAX_VARINT_LEN64 && buf[..n] == Encode(val)
    ensures forall k :: n <= k < buf.Length ==> buf[k] == old(buf[k])
  {
    EncodeFits(val);
    ghost var all, done := Encode(val), [];
    var x: nat := val;
    n := 0;
    while x >= 0x80
      invariant n <= |all| <= buf.Length && buf[..n] == done
      invariant done + Encode(x) == all
      invariant forall k :: n <= k < buf.Length ==> buf[k] == old(buf[k])
      decreases x
    {
      EncodeMore(done, x, all);
      buf[n] := x % 128 + 128;
      assert buf[..n + 1] == done + [x % 128 + 128];
      done := done + [x % 128 + 128];
      x := x / 128;
      n := n + 1;
    }
    buf[n] := x;
    assert buf[..n + 1] == done + [x];
    n := n + 1;
  }

  method Write(w: Writer, val: u64) returns (ok: bool)
    modifies w
    ensures ok ==> w.data == old(w.data) + Encode(val)
    ensures !ok ==> old(w.data) <= w.data < old(w.data) + Encode(val)
    ensures !w.bounded ==> ok
  {
    var buf := new byte[MAX_VARINT_LEN64](_ => 0);
    var n := PutUvarint(buf, val);
    ok := w.Write(buf[..n]);
  }

  lemma {:induction false} ShiftAdds(a: nat, b: nat, i: nat)
    ensures Shift(a + b, i) == Shift(a, i) + Shift(b, i)
  {
    if i > 0 { ShiftAdds(a, b, i - 1); }
  }

  lemma {:induction false} ShiftOut(v: nat, i: nat)
    ensures Shift(128 * v, i) == Shift(v, i + 1)
  {
    if i > 0 { ShiftOut(v, i - 1); }
  }

  lemma {:induction false} ShiftBound(b: nat, k: nat, i: nat)
    requires b < k
    ensures Shift(b, i) + Shift(1, i) <= Shift(k, i)
  {
    if i > 0 { ShiftBound(b, k, i - 1); }
  }

  lemma {:induction false} ShiftBelow(i: nat)
    requires i <= 9
    ensures Shift(1, i) <= TWO_63
    decreases 9 - i
  {
    ShiftNine();
    if i < 9 { ShiftBelow(i + 1); }
  }

  /** After i bytes with their top bit set, x holds their groups and the rest is still to come. */
  ghost predicate Reads(input: seq<byte>, i: nat, x: nat)
  {
    && i <= 9 && i <= |input| && x < Shift(1, i)
    && var q := DecodeFrom(input[i..], 10 - i);
       DecodeFrom(input, 10) == Reading(q.status, x + Shift(q.value, i), i + q.used)
  }

  lemma {:induction false} GroupFits(b: nat, i: nat, x: nat)
    requires i <= 9 && x < Shift(1, i) && b < 128 && (i == 9 ==> b <= 1)
    ensures x + Shift(b, i) < TWO_64
    ensures x + Shift(b, i) < Shift(1, i + 1)
  {
    ShiftBound(b, 128, i);
    ShiftOut(1, i);
    ShiftNine();
    if i < 9 {
      ShiftBelow(i + 1);
    } else {
      ShiftBound(b, 2, 9);
      ShiftAdds(1, 1, 9);
    }
  }

  lemma {:induction false} ReadMore(input: seq<byte>, i: nat, x: nat)
    requires Reads(input, i, x) && i < 9 && i < |input| && input[i] >= 128
    ensures x + Shift(input[i] % 128, i) < TWO_64
    ensures Reads(input, i + 1, x + Shift(input[i] % 128, i))
  {
    var b, v := input[i] % 128, DecodeFrom(input[i + 1..], 9 - i).value;
    GroupFits(b, i, x);
    assert input[i..][1..] == input[i + 1..];
    ShiftAdds(b, 128 * v, i);
    ShiftOut(v, i);
  }

  lemma {:induction false} NineGroups(v: nat)
    ensures Shift(v, 9) == TWO_63 * v
  {
    var three := Shift(v, 3);
    assert three == 128 * Shift(v, 2) == 128 * (128 * Shift(v, 1)) == 0x20_0000 * v;
    var six := Shift(v, 6);
    assert six == 128 * Shift(v, 5) == 128 * (128 * Shift(v, 4)) == 0x20_0000 * three;
    assert Shift(v, 9) == 128 * Shift(v, 8) == 128 * (128 * Shift(v, 7)) == 0x20_0000 * six;
  }

  lemma {:induction false} TopGroupWraps(x: nat, c: nat)
    requires x < TWO_63 && 128 <= c < 256
    ensures (x + TWO_63 * (c % 128)) % TWO_64 == x + TWO_63 * (c % 2) < TWO_64
  {
    var k := (c - 128) / 2;
    assert c % 128 == 2 * k + c % 2;
    assert x + TWO_63 * (c % 128) == TWO_64 * k + (x + TWO_63 * (c % 2));
  }

  lemma {:induction false} ReadTenth(input: seq<byte>, x: nat)
    requires Reads(input, 9, x) && 9 < |input| && input[9] >= 128
    ensures DecodeFrom(input, 10) == Reading(Overflow, (x + Shift(input[9] % 128, 9)) % TWO_64, 10)
  {
    ShiftNine();
    NineGroups(input[9] % 128);
    NineGroups(input[9] % 2);
    TopGroupWraps(x, input[9]);
  }

  /** A byte without its top bit ends the varint; in the tenth it may be 1 at most. */
  lemma {:induction false} ReadLast(input: seq<byte>, i: nat, x: nat)
    requires Reads(input, i, x) && i < |input| && input[i] < 128
    ensures DecodeFrom(input, 10) ==
            if i == 9 && input[i] > 1 then Reading(Overflow, x, i + 1) else Reading(Ok, x + Shift(input[i], i), i + 1)
  {
    ShiftAdds(0, 0, i);
  }

  lemma {:induction false} ReadEnd(input: seq<byte>, x: nat)
    requires Reads(input, |input|, x)
    ensures DecodeFrom(input, 10) == Reading(UnexpectedEof, x, |input|)
  {
    ShiftAdds(0, 0, |input|);
  }

  lemma {:induction false} ReadsBelow(input: seq<byte>, i: nat, x: nat)
    requires Reads(input, i, x)
    ensures x < Shift(1, i)
  {}

  lemma {:induction false} ReadStart(input: seq<byte>)
    ensures Reads(input, 0, 0)
  {
    assert input[0..] == input;
  }

  /** binary.ReadUvarint: at most ten bytes, the tenth at most 1. */
  method Read(r: Reader) returns (x: u64, err: Status)
    modifies r
    ensures Decode(old(r.rest)).status == err && Decode(old(r.rest)).value == x
    ensures r.rest == old(r.rest)[Decode(old(r.rest)).used..]
  {
    hide Shift, DecodeFrom, Reads;
    ghost var input := r.rest;
    ReadStart(input);
    x := 0;
    var i: nat := 0;
    while i < MAX_VARINT_LEN64
      invariant i <= 10 && i <= |input| && r.rest == input[i..]
      invariant i < 10 ==> Reads(input, i, x)
      invariant i == 0 ==> x == 0
      invariant i == 10 ==> DecodeFrom(input, 10) == Reading(Overflow, x, 10)
    {
      var b, more := r.ReadByte();
      if !more {
        ReadEnd(input, x);
        return x, if i > 0 then UnexpectedEof else Eof;
      }
      if b < 0x80 {
        ReadLast(input, i, x);
        if i == MAX_VARINT_LEN64 - 1 && b > 1 {
          return x, Overflow;
        }
        ReadsBelow(input, i, x);
        GroupFits(b, i, x);
        return x + Shift(b, i), Ok;
      }
      if i < 9 { ReadMore(input, i, x); } else { ReadTenth(input, x); }
      x := (x + Shift(b % 128, i)) % TWO_64;
      i := i + 1;
    }
    return x, Overflow;
  }
}
