/**
 * The two java.io objects a request works through: the socket's PrintStream,
 * recorded as the log of what was written to it, and an InputStream over a
 * file's or a content handle's bytes.
 */
module Streams {
  import opened Common

  /** One call on the output: `println(text)` or `write(bytes)`. */
  datatype Write = Line(text: string) | Data(bytes: seq<byte>)

  /** The `println` calls for a block of header lines. */
  function Lines(ls: seq<string>): (ws: seq<Write>)
    ensures |ws| == |ls|
    ensures forall i | 0 <= i < |ls| :: ws[i] == Line(ls[i])
  {
    if ls == [] then [] else Lines(ls[..|ls| - 1]) + [Line(ls[|ls| - 1])]
  }

  /** The bytes carried by the `write` calls of a log, in order. */
  function Payload(ws: seq<Write>): seq<byte>
  {
    if ws == [] then []
    else Payload(ws[..|ws| - 1]) + (if ws[|ws| - 1].Data? then ws[|ws| - 1].bytes else [])
  }

  /** `ws` is a run of `write` calls of 1 to `max` bytes each that together carry exactly `content`. */
  predicate Chunked(ws: seq<Write>, content: seq<byte>, max: nat)
  {
    && (forall i | 0 <= i < |ws| :: ws[i].Data? && 1 <= |ws[i].bytes| <= max)
    && Payload(ws) == content
  }

  lemma PayloadAppend(ws: seq<Write>, bytes: seq<byte>)
    ensures Payload(ws + [Data(bytes)]) == Payload(ws) + bytes
  {
    assert (ws + [Data(bytes)])[..|ws|] == ws;
  }

  /** The socket's output as a PrintStream; closing the socket also closes it. */
  class PrintStream {
    var log: seq<Write>
    var closed: bool

    constructor ()
      ensures log == [] && !closed
    {
      log := [];
      closed := false;
    }

    method Println(text: string)
      modifies this
      ensures log == old(log) + [Line(text)] && closed == old(closed)
    {
      log := log + [Line(text)];
    }

    /** `write(buffer, off, len)` */
    method WriteRange(buffer: array<byte>, off: nat, len: nat)
      requires off + len <= buffer.Length
      modifies this
      ensures log == old(log) + [Data(buffer[off..off + len])] && closed == old(closed)
    {
      log := log + [Data(buffer[off..off + len])];
    }

    /** `write(content)` for a whole byte array. */
    method WriteAll(content: seq<byte>)
      modifies this
      ensures log == old(log) + [Data(content)] && closed == old(closed)
    {
      log := log + [Data(content)];
    }

    method Close()
      modifies this
      ensures log == old(log) && closed
    {
      closed := true;
    }
  }

  /** A stream over a fixed byte sequence; `pos` bytes have been consumed. */
  class InputStream {
    const data: seq<byte>
    var pos: nat
    var closed: bool

    ghost predicate Valid()
      reads this
    {
      pos <= |data|
    }

    constructor (data: seq<byte>)
      ensures Valid() && this.data == data && pos == 0 && !closed
    {
      this.data := data;
      pos := 0;
      closed := false;
    }

    /**
     * `read(buffer)`: -1 at the end of the stream; otherwise the next 1 to
     * `buffer.Length` bytes are copied to the front of `buffer` and their number
     * is returned (0 only for an empty buffer).  Callers may rely on nothing
     * more, so a short read is allowed.
     */
    method Read(buffer: array<byte>) returns (n: int)
      requires Valid()
      modifies this, buffer
      ensures Valid() && closed == old(closed)
      ensures buffer.Length == 0 ==> n == 0 && pos == old(pos)
      ensures buffer.Length > 0 && old(pos) == |data| ==> n == -1 && pos == old(pos)
      ensures buffer.Length > 0 && old(pos) < |data| ==>
        && 1 <= n <= buffer.Length
        && pos == old(pos) + n
        && buffer[..n] == data[old(pos)..pos]
    {
      if buffer.Length == 0 {
        return 0;
      }
      if pos == |data| {
        return -1;
      }
      n := if |data| - pos < buffer.Length then |data| - pos else buffer.Length;
      for i := 0 to n
        modifies buffer
        invariant buffer[..i] == data[pos..pos + i]
      {
        buffer[i] := data[pos + i];
        assert buffer[..i + 1] == buffer[..i] + [buffer[i]];
      }
      pos := pos + n;
    }

    method Close()
      modifies this
      ensures pos == old(pos) && closed
    {
      closed := true;
    }
  }
}
