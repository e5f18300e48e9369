/** Byte strings, and the buffered socket of trinity/_utils/socket.py. */
module ByteStreams {

  type Byte = x: int | 0 <= x < 256
  type Bytes = seq<Byte>

  const RECV_SIZE := 4096

  /** Four bytes, least significant first. */
  function LE32(n: nat): (b: Bytes)
    requires n < 0x1_0000_0000
    ensures |b| == 4
  {
    [n % 256, n / 256 % 256, n / 0x1_0000 % 256, n / 0x100_0000]
  }

  function FromLE32(b: Bytes): (n: nat)
    requires |b| == 4
  {
    b[0] as int + 256 * b[1] as int + 0x1_0000 * b[2] as int + 0x100_0000 * b[3] as int
  }

  lemma LE32RoundTrip(n: nat)
    requires n < 0x1_0000_0000
    ensures FromLE32(LE32(n)) == n
  {
  }

  lemma FromLE32Fits(b: Bytes)
    requires |b| == 4
    ensures FromLE32(b) < 0x1_0000_0000 && LE32(FromLE32(b)) == b
  {
    var n, b1, b2, b3 := FromLE32(b), b[1] as int, b[2] as int, b[3] as int;
    assert n / 256 == b1 + 256 * b2 + 0x1_0000 * b3;
    assert n / 0x1_0000 == b2 + 256 * b3;
  }

  /** The number whose digits to the base 256 are given, the most significant first. */
  function FromBigEndian(digits: Bytes): nat
  {
    if digits == [] then 0 else 256 * FromBigEndian(digits[..|digits| - 1]) + digits[|digits| - 1] as int
  }

  /** The digits of a number, without leading zeros. */
  function BigEndian(n: nat): Bytes
  {
    if n == 0 then [] else BigEndian(n / 256) + [n % 256]
  }

  lemma DigitsValue(digits: Bytes)
    requires digits != []
    ensures FromBigEndian(digits)
            == 256 * FromBigEndian(digits[..|digits| - 1]) + digits[|digits| - 1] as int
  {
  }

  /** The four bytes are the digits of the number, the least significant first. */
  lemma LE32Value(b: Bytes)
    requires |b| == 4
    ensures FromLE32(b) == FromBigEndian([b[3], b[2], b[1], b[0]])
  {
    var d := [b[3], b[2], b[1], b[0]];
    assert d[..3] == [b[3], b[2], b[1]] && d[..3][..2] == [b[3], b[2]] && d[..3][..2][..1] == [b[3]];
    DigitsValue([b[3]]);
    DigitsValue([b[3], b[2]]);
    DigitsValue([b[3], b[2], b[1]]);
  }

  /** The receiving end of a connection: what was received, and what is still on its way. */
  class BufferedSocket {
    var buffer: Bytes
    var incoming: Bytes

    ghost function Stream(): Bytes
      reads this
    {
      buffer + incoming
    }

    constructor (incoming: Bytes)
      ensures Stream() == incoming
    {
      buffer, this.incoming := [], incoming;
    }

    /** recv() returns any non-empty piece of what is on its way, and nothing only at the end. */
    method Recv() returns (data: Bytes)
      modifies this`incoming
      ensures data + incoming == old(incoming) && |data| <= RECV_SIZE
      ensures data == [] <==> old(incoming) == []
    {
      if incoming == [] {
        return [];
      }
      var most := if |incoming| < RECV_SIZE then |incoming| else RECV_SIZE;
      assert 1 <= most <= most;
      var n :| 1 <= n <= most;
      data := incoming[..n];
      incoming := incoming[n..];
    }

    /** The next n bytes of the stream however it is cut, or failure when the stream is shorter. */
    method ReadExactly(n: nat) returns (ok: bool, payload: Bytes)
      modifies this
      ensures ok <==> n <= |old(Stream())|
      ensures ok ==> payload == old(Stream())[..n] && Stream() == old(Stream())[n..]
      ensures !ok ==> Stream() == old(Stream())
    {
      while |buffer| < n
        invariant Stream() == old(Stream())
        decreases |incoming|
      {
        var before := buffer;
        var data := Recv();
        if data == [] {
          return false, [];
        }
        buffer := buffer + data;
      }
      payload := buffer[..n];
      buffer := buffer[n..];
      ok := true;
    }

    /** The other side sent these bytes. */
    method Deliver(data: Bytes)
      modifies this`incoming
      ensures Stream() == old(Stream()) + data
    {
      incoming := incoming + data;
    }
  }
}
