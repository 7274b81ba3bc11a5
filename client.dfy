/**
 * The per-cycle decisions of the client loop (`RunClient`): what a typed
 * console line makes it send, and what a receive makes it print. A console
 * line is the bytes of its `std::string`, so stripping and lengths count bytes.
 */
module ClientLoop {
  import opened Wire

  /** 2^64: `std::string::size_type` arithmetic wraps modulo this. */
  const SizeModulus: int := 0x1_0000_0000_0000_0000

  /** `n - 1` on `size_type`: the empty string's size minus one wraps to the largest value. */
  function SizeMinusOne(n: nat): (r: nat)
    requires n < SizeModulus
    ensures n > 0 ==> r == n - 1
    ensures n == 0 ==> r == SizeModulus - 1
  {
    (n - 1) % SizeModulus
  }

  /** `s.substr(pos, count)`: at most `count` bytes of `s` starting at `pos`. */
  function Substr(s: seq<byte>, pos: nat, count: nat): (r: seq<byte>)
    requires pos <= |s|
    ensures |r| == if count < |s| - pos then count else |s| - pos
    ensures r == s[pos..pos + |r|]
  {
    if count < |s| - pos then s[pos..pos + count] else s[pos..]
  }

  /** `input.substr(0, input.size() - 1)`: the line without its terminator. */
  function StripLast(line: seq<byte>): (r: seq<byte>)
    requires |line| < SizeModulus
  {
    Substr(line, 0, SizeMinusOne(|line|))
  }

  /** A call `Send(data, length)` on the client's socket. */
  datatype SendCall = SendCall(data: seq<byte>, length: nat)

  /** The send a typed line causes, if any. */
  function LineToSend(line: seq<byte>): (r: Option<SendCall>)
    requires |line| < SizeModulus
  {
    var input := StripLast(line);
    if |input| > 0 then Some(SendCall(input, |input|)) else None
  }

  /** The label the client puts in front of every chunk from the server. */
  const ServerLabel: string := "[Server]: "

  /**
   * What one receive makes the client print: the label, then the first
   * `count` bytes of its zero-initialised buffer, then a newline.
   */
  function ReceivedToPrint(count: nat, written: seq<byte>): (r: Option<seq<byte>>)
    requires count <= BufferSize && |written| <= BufferSize
  {
    var data := Segment(written);
    if count > 1 then Some(Ascii(ServerLabel) + data[..count] + Ascii("\n")) else None
  }

  /** The effects of one pass of the client loop: the send, then the print. */
  datatype ClientEffects = ClientEffects(sent: Option<SendCall>, printed: Option<seq<byte>>)

  /**
   * One pass of the client loop, given the line the keyboard produced (if a
   * key was hit) and the result of the non-blocking receive.
   */
  function ClientPass(line: Option<seq<byte>>, count: nat, written: seq<byte>): (r: ClientEffects)
    requires line.Some? ==> |line.value| < SizeModulus
    requires count <= BufferSize && |written| <= BufferSize
    ensures r.sent.Some? ==> line.Some? && |line.value| >= 2
    ensures r.printed.Some? <==> count > 1
  {
    ClientEffects(if line.Some? then LineToSend(line.value) else None,
                  ReceivedToPrint(count, written))
  }

  /** A non-empty line loses exactly its last byte; an empty line stays empty. */
  lemma StripLastDropsTerminator(line: seq<byte>)
    requires |line| < SizeModulus
    ensures |line| > 0 ==> StripLast(line) + [line[|line| - 1]] == line
    ensures |line| == 0 ==> StripLast(line) == []
  {
  }

  /**
   * A line causes a send exactly when something is left after stripping,
   * and the send carries that rest with its exact length.
   */
  lemma LineToSendSpec(line: seq<byte>)
    requires |line| < SizeModulus
    ensures LineToSend(line).Some? <==> |line| >= 2
    ensures LineToSend(line).Some? ==>
      LineToSend(line).value.data == line[..|line| - 1] &&
      LineToSend(line).value.length == |line| - 1
  {
  }

  /**
   * Output appears only when more than one byte arrived, and it is the label
   * followed by exactly those bytes and a newline.
   */
  lemma ReceivedToPrintSpec(count: nat, written: seq<byte>)
    requires count <= BufferSize && |written| <= BufferSize
    ensures ReceivedToPrint(count, written).Some? <==> count > 1
    ensures ReceivedToPrint(count, written).Some? ==>
      var out := ReceivedToPrint(count, written).value;
      var tag := Ascii(ServerLabel);
      |tag| == 10 && |out| == |tag| + count + 1 && out[..|tag|] == tag &&
      (forall k :: 0 <= k < count ==>
        out[|tag| + k] == if k < |written| then written[k] else 0) &&
      out[|out| - 1] == 10
  {
  }
}
