/** Bytes on the wire, 32-bit Java ints, and the part of java.nio.ByteBuffer the core
    uses to turn an int into four bytes and back. */
module Bytes {
  import opened Wrappers
  import opened Exceptions

  /** An octet as written by OutputStream.write(int) and returned by InputStream.read(). */
  type byte = b: int | 0 <= b < 0x100

  /** A Java `int`. */
  type int32 = x: int | -0x8000_0000 <= x < 0x8000_0000

  /** The contents of a Java byte[]: its length is a non-negative int. */
  type ByteArray = b: seq<byte> | |b| < 0x8000_0000

  /** The four bytes of `x`, most significant first, in two's complement. */
  function Int32ToBytes(x: int32): (r: seq<byte>)
    ensures |r| == 4
  {
    var u := if x < 0 then x + 0x1_0000_0000 else x;
    [u / 0x100_0000, (u / 0x1_0000) % 0x100, (u / 0x100) % 0x100, u % 0x100]
  }

  /** The unsigned value of `b`, most significant byte first. */
  function BigEndian(b: seq<byte>): nat
  {
    if b == [] then 0 else BigEndian(b[..|b| - 1]) * 0x100 + b[|b| - 1]
  }

  lemma BigEndianOfFour(b: seq<byte>)
    requires |b| == 4
    ensures BigEndian(b) == (b[0] as int) * 0x100_0000 + (b[1] as int) * 0x1_0000 + (b[2] as int) * 0x100 + b[3]
  {
    assert b[..3][..2] == b[..2] && b[..2][..1] == b[..1] && b[..1][..0] == [];
    assert BigEndian(b[..1]) == b[0];
    assert BigEndian(b[..2]) == (b[0] as int) * 0x100 + b[1];
    assert BigEndian(b[..3]) == (b[0] as int) * 0x1_0000 + (b[1] as int) * 0x100 + b[2];
  }

  /** The Java `int` whose two's complement big-endian form is `b`. */
  function BytesToInt32(b: seq<byte>): int32
    requires |b| == 4
  {
    BigEndianOfFour(b);
    var u := BigEndian(b);
    if u >= 0x8000_0000 then u - 0x1_0000_0000 else u
  }

  lemma Int32RoundTrip(x: int32)
    ensures BytesToInt32(Int32ToBytes(x)) == x
  {
    var u := if x < 0 then x + 0x1_0000_0000 else x;
    var b := Int32ToBytes(x);
    ByteDigits(u);
    BigEndianOfFour(b);
  }

  /** The four base-256 digits Int32ToBytes takes from `u` make `u` up again. */
  lemma ByteDigits(u: int)
    requires 0 <= u < 0x1_0000_0000
    ensures (u / 0x100_0000) * 0x100_0000 + ((u / 0x1_0000) % 0x100) * 0x1_0000
            + ((u / 0x100) % 0x100) * 0x100 + u % 0x100 == u
  {
    var q1, r0 := u / 0x100, u % 0x100;
    var q2, r1 := q1 / 0x100, q1 % 0x100;
    var q3, r2 := q2 / 0x100, q2 % 0x100;
    assert u == q2 * 0x1_0000 + (r1 * 0x100 + r0);
    assert u == q3 * 0x100_0000 + (r2 * 0x1_0000 + r1 * 0x100 + r0);
    DivModUnique(q2, r1 * 0x100 + r0, 0x1_0000);
    DivModUnique(q3, r2 * 0x1_0000 + r1 * 0x100 + r0, 0x100_0000);
  }

  lemma MulBounds(d: int, j: int)
    requires d > 0
    ensures j >= 1 ==> d * j >= d
    ensures j <= -1 ==> d * j <= -d
  {
    if j >= 1 {
      assert d * j == d + d * (j - 1);
    } else if j <= -1 {
      assert d * j == -d + d * (j + 1);
    }
  }

  /** Euclidean division of `q * d + r` by `d` gives back `q` and `r`. */
  lemma DivModUnique(q: int, r: int, d: int)
    requires d > 0 && 0 <= r < d
    ensures (q * d + r) / d == q && (q * d + r) % d == r
  {
    var n := q * d + r;
    var k := n / d;
    assert d * (k - q) == r - n % d;
    MulBounds(d, k - q);
  }

  lemma BytesRoundTrip(b: seq<byte>)
    requires |b| == 4
    ensures Int32ToBytes(BytesToInt32(b)) == b
  {
    var u := (b[0] as int) * 0x100_0000 + (b[1] as int) * 0x1_0000 + (b[2] as int) * 0x100 + b[3];
    var x: int := BytesToInt32(b);
    BigEndianOfFour(b);
    assert (if x < 0 then x + 0x1_0000_0000 else x) == u;
    DivModUnique(b[0], (b[1] as int) * 0x1_0000 + (b[2] as int) * 0x100 + b[3], 0x100_0000);
    DivModUnique((b[0] as int) * 0x100 + b[1], (b[2] as int) * 0x100 + b[3], 0x1_0000);
    DivModUnique(b[0], b[1], 0x100);
    DivModUnique((b[0] as int) * 0x1_0000 + (b[1] as int) * 0x100 + b[2], b[3], 0x100);
    DivModUnique((b[0] as int) * 0x100 + b[1], b[2], 0x100);
  }

  /** java.nio.ByteBuffer (heap buffer, big-endian): backing array, position, limit. */
  datatype ByteBuffer = ByteBuffer(content: seq<byte>, position: nat, limit: nat)
  {
    ghost predicate Valid() { position <= limit <= |content| }

    function Remaining(): nat
      requires Valid()
    {
      limit - position
    }
  }

  /** ByteBuffer.allocate: zero-filled, position 0, limit = capacity. */
  function Allocate(capacity: nat): (bb: ByteBuffer)
    ensures bb.Valid() && bb.Remaining() == capacity && bb.position == 0
    ensures |bb.content| == capacity && bb.limit == capacity
    ensures forall i :: 0 <= i < capacity ==> bb.content[i] == 0
  {
    ByteBuffer(seq(capacity, _ => 0), 0, capacity)
  }

  /** Relative bulk put(byte[]): copies `src` at the position and advances it. */
  function Put(bb: ByteBuffer, src: seq<byte>): (r: Result<ByteBuffer, Exception>)
    requires bb.Valid()
    ensures r.Failure? <==> |src| > bb.Remaining()
    ensures r.Failure? ==> r.error == BufferOverflow
    ensures r.Success? ==> r.value.Valid() && r.value.limit == bb.limit
                           && r.value.position == bb.position + |src|
                           && r.value.content[bb.position..r.value.position] == src
    ensures r.Success? ==> |r.value.content| == |bb.content|
                           && r.value.content[..bb.position] == bb.content[..bb.position]
                           && r.value.content[r.value.position..] == bb.content[r.value.position..]
  {
    if |src| > bb.Remaining() then Failure(BufferOverflow)
    else
      var p := bb.position;
      Success(bb.(content := bb.content[..p] + src + bb.content[p + |src|..], position := p + |src|))
  }

  /** Relative putInt: the big-endian bytes of `x` at the position. */
  function PutInt(bb: ByteBuffer, x: int32): (r: Result<ByteBuffer, Exception>)
    requires bb.Valid()
  {
    Put(bb, Int32ToBytes(x))
  }

  /** Relative getInt: the int at the position, or BufferUnderflowException when fewer
      than four bytes remain before the limit. */
  function GetInt(bb: ByteBuffer): (r: Result<(int32, ByteBuffer), Exception>)
    requires bb.Valid()
    ensures r.Failure? <==> bb.Remaining() < 4
    ensures r.Failure? ==> r.error == BufferUnderflow
    ensures r.Success? ==> Int32ToBytes(r.value.0) == bb.content[bb.position..bb.position + 4]
    ensures r.Success? ==> r.value.1 == bb.(position := bb.position + 4)
  {
    if bb.Remaining() < 4 then Failure(BufferUnderflow)
    else
      var b := bb.content[bb.position..bb.position + 4];
      BytesRoundTrip(b);
      Success((BytesToInt32(b), bb.(position := bb.position + 4)))
  }

  /** ByteBuffer.flip: the limit becomes the position and the position zero. */
  function Flip(bb: ByteBuffer): (r: ByteBuffer)
    requires bb.Valid()
    ensures r.Valid() && r.position == 0 && r.Remaining() == bb.position && r.content == bb.content
  {
    bb.(limit := bb.position, position := 0)
  }

  /** How every length field is written: the four big-endian bytes of `x`, which is
      what `ByteBuffer.allocate(4).putInt(x).array()` returns (LengthBytesOfBuffer). */
  function LengthBytes(x: int32): (r: seq<byte>)
    ensures |r| == 4
  {
    Int32ToBytes(x)
  }

  lemma LengthBytesOfBuffer(x: int32)
    ensures PutInt(Allocate(4), x).Success?
    ensures PutInt(Allocate(4), x).value.content == LengthBytes(x)
  {
  }

  /** `ByteBuffer.allocate(4).put(intData).getInt()`, the length decoding as written in
      the frame readers: `put` leaves the position at 4, so `getInt` has nothing left. */
  function LengthAsWritten(intData: seq<byte>): Result<int32, Exception>
    requires |intData| == 4
  {
    match Put(Allocate(4), intData)
    case Failure(e) => Failure(e)
    case Success(bb) =>
      match GetInt(bb)
      case Failure(e) => Failure(e)
      case Success((x, _)) => Success(x)
  }

  /** Whatever four bytes arrive, the decoding as written throws. */
  lemma LengthAsWrittenUnderflows(intData: seq<byte>)
    requires |intData| == 4
    ensures LengthAsWritten(intData) == Failure(BufferUnderflow)
  {
    var bb := Put(Allocate(4), intData);
    assert bb.Success? && bb.value.Remaining() == 0;
  }

  /** The decoding the frame readers evidently intend: the four bytes read as a
      big-endian int, which is what the buffer calls compute once `flip()` sits between
      `put` and `getInt` (FlippedLength). */
  function LengthField(intData: seq<byte>): int32
    requires |intData| == 4
  {
    BytesToInt32(intData)
  }

  /** `ByteBuffer.allocate(4).put(intData).flip().getInt()` reads LengthField. */
  lemma FlippedLength(intData: seq<byte>)
    requires |intData| == 4
    ensures Put(Allocate(4), intData).Success?
    ensures var flipped := Flip(Put(Allocate(4), intData).value);
            GetInt(flipped).Success? && GetInt(flipped).value.0 == LengthField(intData)
  {
    var bb := Put(Allocate(4), intData).value;
    assert bb.content[0..4] == intData;
  }

  /** The corrected decoding reads back every length the writers put on the wire. */
  lemma LengthRoundTrip(x: int32)
    ensures LengthField(LengthBytes(x)) == x
  {
    Int32RoundTrip(x);
  }
}
