/** The program input: a 32-bit little-endian length, the requests, then the state. */
module Framing {

  import opened Api

  type Byte = x: int | 0 <= x < 256

  datatype Frame = Frame(requests: seq<Byte>, state: seq<Byte>) | Panic

  function ToLe(n: int): (bytes: seq<Byte>)
    requires 0 <= n < TWO32
    ensures |bytes| == 4
  {
    [n % 256, n / 0x100 % 256, n / 0x1_0000 % 256, n / 0x100_0000]
  }

  function FromLe(bytes: seq<Byte>): int
    requires |bytes| == 4
  {
    bytes[0] as int + 0x100 * (bytes[1] as int) + 0x1_0000 * (bytes[2] as int) + 0x100_0000 * (bytes[3] as int)
  }

  /** What the batcher sends. The length is cast to 32 bits. */
  function Combine(requests: seq<Byte>, state: seq<Byte>): seq<Byte> {
    ToLe(|requests| % TWO32) + requests + state
  }

  /** What the program reads; slicing past the end panics. */
  function Split(input: seq<Byte>): Frame {
    if |input| < 4 then Panic
    else
      var n := FromLe(input[..4]);
      if 4 + n > |input| then Panic else Frame(input[4..4 + n], input[4 + n..])
  }

  lemma LeRoundTrip(n: int)
    requires 0 <= n < TWO32
    ensures FromLe(ToLe(n)) == n
  {
    assert n / 0x100 / 0x100 == n / 0x1_0000;
    assert n / 0x1_0000 / 0x100 == n / 0x100_0000;
  }

  // The number whose bytes these are, lowest first.
  ghost function Value(bytes: seq<Byte>): int {
    if bytes == [] then 0 else bytes[0] as int + 256 * Value(bytes[1..])
  }

  lemma FromLeIsValue(bytes: seq<Byte>)
    requires |bytes| == 4
    ensures FromLe(bytes) == Value(bytes)
  {
    assert Value(bytes) == bytes[0] as int + 256 * Value(bytes[1..]);
    assert Value(bytes[1..]) == bytes[1] as int + 256 * Value(bytes[2..]) by { assert bytes[1..][1..] == bytes[2..]; }
    assert Value(bytes[2..]) == bytes[2] as int + 256 * Value(bytes[3..]) by { assert bytes[2..][1..] == bytes[3..]; }
    assert Value(bytes[3..]) == bytes[3] as int + 256 * Value(bytes[4..]) by { assert bytes[3..][1..] == bytes[4..]; }
  }

  /** The batcher writes the length, modulo 2^32, with its lowest byte first, then requests
      and state; the program reads a length in the same way from any input, and panics
      exactly if the input is too short for it. */
  lemma {:induction false} LengthFirst(requests: seq<Byte>, state: seq<Byte>, input: seq<Byte>)
    ensures var sent := Combine(requests, state);
      |sent| >= 4 && Value(sent[..4]) == |requests| % TWO32 && sent[4..] == requests + state
    ensures Split(input).Panic? <==> |input| < 4 || 4 + Value(input[..4]) > |input|
    ensures Split(input).Frame? ==>
      |Split(input).requests| == Value(input[..4]) && Split(input).requests + Split(input).state == input[4..]
  {
    var sent := Combine(requests, state);
    LeRoundTrip(|requests| % TWO32);
    assert sent[..4] == ToLe(|requests| % TWO32);
    FromLeIsValue(sent[..4]);
    if |input| >= 4 {
      FromLeIsValue(input[..4]);
    }
  }

  /** The program always reads back the first |requests| mod 2^32 bytes as the requests. */
  lemma {:induction false} SplitCombine(requests: seq<Byte>, state: seq<Byte>)
    ensures var n := |requests| % TWO32;
      Split(Combine(requests, state)) == Frame(requests[..n], requests[n..] + state)
  {
    var n, input := |requests| % TWO32, Combine(requests, state);
    LeRoundTrip(n);
    assert input[..4] == ToLe(n);
    assert input[4..4 + n] == requests[..n];
    assert input[4 + n..] == requests[n..] + state;
  }

  /** So the program gets what the batcher sent exactly when the requests fit 32 bits. */
  lemma {:induction false} RoundTripIff(requests: seq<Byte>, state: seq<Byte>)
    ensures Split(Combine(requests, state)) == Frame(requests, state) <==> |requests| < TWO32
  {
    SplitCombine(requests, state);
    var n := |requests| % TWO32;
    if |requests| < TWO32 {
      assert requests[..n] == requests && requests[n..] + state == state;
    } else {
      assert |requests[..n]| != |requests|;
    }
  }
}
