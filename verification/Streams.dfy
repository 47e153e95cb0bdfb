/** The io.Writer and io.ByteReader ends the wire format is written to and read from. */
module Streams {
  import opened Bytes

  /**
   * An io.Writer. A bounded writer has room for a limited number of bytes and fails when it
   * is full; an unbounded one (a bytes.Buffer) never fails.
   */
  class Writer {
    const bounded: bool
    var data: seq<byte>
    var room: nat

    constructor Buffer()
      ensures data == [] && !bounded
    {
      bounded, data, room := false, [], 0;
    }

    constructor Limited(limit: nat)
      ensures data == [] && bounded && room == limit
    {
      bounded, data, room := true, [], limit;
    }

    method Write(p: seq<byte>) returns (ok: bool)
      modifies this
      ensures ok ==> data == old(data) + p
      ensures !ok ==> old(data) <= data < old(data) + p
      ensures !ok <==> bounded && old(room) < |p|
    {
      ok := !bounded || |p| <= room;
      if !ok {
        data, room := data + p[..room], 0;
      } else {
        data := data + p;
        if bounded { room := room - |p|; }
      }
    }
  }

  /** A buffered reader over the bytes not yet consumed. */
  class Reader {
    var rest: seq<byte>

    constructor (input: seq<byte>)
      ensures rest == input
    {
      rest := input;
    }

    /** ReadByte; ok is false at end of file. */
    method ReadByte() returns (b: byte, ok: bool)
      modifies this
      ensures ok <==> old(rest) != []
      ensures ok ==> b == old(rest)[0] && rest == old(rest)[1..]
      ensures !ok ==> rest == old(rest)
    {
      if rest == [] { return 0, false; }
      b, ok := rest[0], true;
      rest := rest[1..];
    }

    /** Reads n bytes, or all that is left when there are fewer. */
    method ReadUpTo(n: nat) returns (p: seq<byte>)
      modifies this
      ensures |p| == (if n <= |old(rest)| then n else |old(rest)|)
      ensures old(rest) == p + rest
    {
      var k := if n <= |rest| then n else |rest|;
      p := rest[..k];
      rest := rest[k..];
    }
  }
}
