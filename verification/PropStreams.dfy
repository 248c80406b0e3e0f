/**
  Streams of bytes: what is written is appended, what is read is taken from the front.  Integers are stored with
  the lowest byte first.
 */
module PropStreams {

  type byte = x: int | 0 <= x < 0x100
  type uint32 = x: int | 0 <= x < 0x1_0000_0000
  type int32 = x: int | -0x8000_0000 <= x < 0x8000_0000

  // ---------- integers as bytes, the lowest first ----------

  function ToUInt32(x: int): uint32
  {
    x % 0x1_0000_0000
  }

  function ToInt32(x: uint32): int32
  {
    if x < 0x8000_0000 then x else x - 0x1_0000_0000
  }

  function ToInt8(x: uint32): int
  {
    if x % 0x100 < 0x80 then x % 0x100 else x % 0x100 - 0x100
  }

  /** The one number of 8 bits with a sign that has the same low bits */
  lemma {:induction false} SignedByte(x: uint32)
    ensures -0x80 <= ToInt8(x) < 0x80 && (x - ToInt8(x)) % 0x100 == 0
  {
  }

  function Word(x: uint32): (s: seq<byte>)
    ensures |s| == 4
  {
    [x % 0x100, x / 0x100 % 0x100, x / 0x1_0000 % 0x100, x / 0x100_0000]
  }

  function Unword(s: seq<byte>): uint32
    requires |s| == 4
  {
    s[0] as int + 0x100 * s[1] as int + 0x1_0000 * s[2] as int + 0x100_0000 * s[3] as int
  }

  lemma {:induction false} WordRoundTrip(x: uint32)
    ensures Unword(Word(x)) == x
  {
    assert x / 0x1_0000 == x / 0x100 / 0x100;
    assert x / 0x100_0000 == x / 0x1_0000 / 0x100;
  }

  function Signed(x: int32): seq<byte>
  {
    Word(ToUInt32(x))
  }

  function Unsigned(s: seq<byte>): int32
    requires |s| == 4
  {
    ToInt32(Unword(s))
  }

  lemma {:induction false} SignedRoundTrip(x: int32)
    ensures Unsigned(Signed(x)) == x && |Signed(x)| == 4
  {
    WordRoundTrip(ToUInt32(x));
  }

  function Flag(b: bool): (s: seq<byte>)
    ensures |s| == 1 && (s[0] != 0 <==> b) && s[0] < 2
  {
    [if b then 1 else 0]
  }

  class PropWriteStream {
    var buffer: seq<byte>

    constructor ()
      ensures buffer == []
    {
      buffer := [];
    }

    method Write(data: seq<byte>)
      modifies this
      ensures buffer == old(buffer) + data
    {
      buffer := buffer + data;
    }
  }

  class PropStream {
    const data: seq<byte>
    var p: nat

    constructor (data: seq<byte>)
      ensures this.data == data && p == 0 && Valid()
    {
      this.data, p := data, 0;
    }

    predicate Valid()
      reads this
    {
      p <= |data|
    }

    // What is not read yet
    function Rest(): seq<byte>
      reads this
      requires Valid()
    {
      data[p..]
    }

    /** Takes n bytes, or none if there are fewer. */
    method Read(n: nat) returns (ok: bool, bytes: seq<byte>)
      requires Valid()
      modifies this
      ensures Valid() && ok == (n <= |old(Rest())|)
      ensures if ok then bytes == old(Rest())[..n] && Rest() == old(Rest())[n..] else Rest() == old(Rest())
    {
      bytes := [];
      if |data| - p < n {
        return false, bytes;
      }
      bytes := data[p..p + n];
      p := p + n;
      ok := true;
    }
  }
}
