/**
 * Wire-level vocabulary shared by the client and the server loops of the chat
 * demo: bytes, the receive buffer, and the fixed greeting.
 */
module Wire {

  /** One byte of a socket buffer (a C++ `char`). */
  newtype byte = b: int | 0 <= b < 256

  datatype Option<T> = None | Some(value: T)

  /** `BUFFER_SIZE`: the most bytes any single receive call asks for. */
  const BufferSize: nat := 1400

  /** The port the server binds to on every local interface. */
  const ServerPort: nat := 27015

  /** The bytes of a string whose characters all fit in one byte. */
  function Ascii(s: string): (r: seq<byte>)
    requires forall i :: 0 <= i < |s| ==> s[i] as int < 256
    ensures |r| == |s|
    ensures forall i :: 0 <= i < |s| ==> r[i] as int == s[i] as int
  {
    if s == [] then [] else [s[0] as int as byte] + Ascii(s[1..])
  }

  /** The payload the server sends to every peer it accepts. */
  const Greeting: seq<byte> := Ascii("Connected!")

  /**
   * A receive buffer `char buf[BUFFER_SIZE + 1]{ 0 }` after the receive call
   * wrote `written` at its start: the rest of the buffer keeps its zeros.
   */
  function Segment(written: seq<byte>): (r: seq<byte>)
    requires |written| <= BufferSize
    ensures |r| == BufferSize + 1
    ensures forall k :: 0 <= k < |r| ==> r[k] == if k < |written| then written[k] else 0
    ensures r[BufferSize] == 0
  {
    written + seq(BufferSize + 1 - |written|, _ => 0)
  }
}
