/** What a socket's input stream delivers, as a finite transcript: the bytes the peer
    sent, the pauses longer than the socket's read timeout, and a broken connection.
    The end of the transcript is the end of the stream. Each read below is the
    corresponding java.io call, returning what it read and the events still to come. */
module Streams {
  import opened Wrappers
  import opened Bytes
  import opened Text

  datatype Event =
    | Data(b: byte)   // one byte from the peer
    | Stall           // the peer is silent for longer than the read timeout
    | Broken          // the connection fails

  /** Why a read threw: SocketTimeoutException or another IOException. */
  datatype ReadError = TimedOut | Failed

  /** The events carrying the bytes `b`. */
  function Sent(b: seq<byte>): (r: seq<Event>)
    ensures |r| == |b|
    ensures forall i :: 0 <= i < |b| ==> r[i] == Data(b[i])
  {
    if b == [] then [] else [Data(b[0])] + Sent(b[1..])
  }

  lemma {:induction false} SentAppend(a: seq<byte>, b: seq<byte>)
    ensures Sent(a + b) == Sent(a) + Sent(b)
  {
    if a != [] {
      assert (a + b)[1..] == a[1..] + b;
      SentAppend(a[1..], b);
    }
  }

  /** InputStream.read(): the next byte, or -1 at the end of the stream. With no read
      timeout (`timed` false) a pause is simply waited out. */
  function ReadByte(input: seq<Event>, timed: bool): (r: Result<(int, seq<Event>), ReadError>)
    ensures r.Success? ==> -1 <= r.value.0 < 0x100
    ensures r.Success? && r.value.0 == -1 ==> r.value.1 == []
    ensures r.Success? && r.value.0 != -1 ==> |r.value.1| < |input|
    ensures !timed ==> r != Failure(TimedOut)
  {
    if input == [] then Success((-1, []))
    else
      match input[0]
      case Data(b) => Success((b as int, input[1..]))
      case Broken => Failure(Failed)
      case Stall => if timed then Failure(TimedOut) else ReadByte(input[1..], timed)
  }

  /** The number of bytes, at most `n`, that arrive before the next pause or failure. */
  function Available(input: seq<Event>, n: nat): (k: nat)
    ensures k <= n && k <= |input|
    ensures forall i :: 0 <= i < k ==> input[i].Data?
    ensures k < n && k < |input| ==> !input[k].Data?
  {
    if n == 0 || input == [] || !input[0].Data? then 0 else 1 + Available(input[1..], n - 1)
  }

  function DataBytes(events: seq<Event>): (b: seq<byte>)
    requires forall i :: 0 <= i < |events| ==> events[i].Data?
    ensures |b| == |events|
    ensures forall i :: 0 <= i < |b| ==> b[i] == events[i].b
  {
    if events == [] then [] else [events[0].b] + DataBytes(events[1..])
  }

  function Zeros(n: nat): (z: seq<byte>)
    ensures |z| == n && forall i :: 0 <= i < n ==> z[i] == 0
  {
    seq(n, _ => 0)
  }

  /** InputStream.read(byte[n]) into a fresh (zeroed) array: it waits for the first
      byte and then takes what has arrived, up to n bytes; the rest of the array stays
      zero. At the end of the stream nothing is read. */
  function ReadArray(input: seq<Event>, n: nat, timed: bool): (r: Result<(seq<byte>, seq<Event>), ReadError>)
    ensures r.Success? ==> |r.value.0| == n && |r.value.1| <= |input|
  {
    if n == 0 || input == [] then Success((Zeros(n), input))
    else
      match input[0]
      case Broken => Failure(Failed)
      case Stall => if timed then Failure(TimedOut) else ReadArray(input[1..], n, timed)
      case Data(_) =>
        var k := Available(input, n);
        Success((DataBytes(input[..k]) + Zeros(n - k), input[k..]))
  }

  /** The bytes of the next line, its terminator (None at the end of the stream), and
      the events after the terminator. */
  function LineBytes(input: seq<Event>, timed: bool): (r: Result<(seq<byte>, Option<byte>, seq<Event>), ReadError>)
    ensures r.Success? ==> |r.value.2| <= |input|
    ensures r.Success? && r.value.1.None? ==> r.value.2 == []
    ensures r.Success? && r.value.1.Some? ==> IsLineBreak(r.value.1.value) && |r.value.2| < |input|
    ensures r.Success? ==> forall i :: 0 <= i < |r.value.0| ==> !IsLineBreak(r.value.0[i])
  {
    if input == [] then Success(([], None, []))
    else
      match input[0]
      case Broken => Failure(Failed)
      case Stall => if timed then Failure(TimedOut) else LineBytes(input[1..], timed)
      case Data(b) =>
        if IsLineBreak(b) then Success(([], Some(b), input[1..]))
        else
          match LineBytes(input[1..], timed)
          case Failure(e) => Failure(e)
          case Success((line, term, rest)) => Success(([b] + line, term, rest))
  }

  /** BufferedReader.readLine: the next line decoded from UTF-8, ended by LF, CR or
      CR LF, or by the end of the stream; None (null) when the stream has ended before
      any character. */
  function ReadLine(input: seq<Event>, timed: bool): (r: Result<(Option<string>, seq<Event>), ReadError>)
    ensures r.Success? ==> |r.value.1| <= |input|
    ensures r.Success? && r.value.0.None? ==> r.value.1 == []
  {
    match LineBytes(input, timed)
    case Failure(e) => Failure(e)
    case Success((line, term, rest)) =>
      if line == [] && term.None? then Success((None, rest))
      else
        var after := if term == Some(0x0D) && rest != [] && rest[0] == Data(0x0A) then rest[1..] else rest;
        Success((Some(Utf8Decode(line)), after))
  }

  lemma {:induction false} LineBytesOfSent(line: seq<byte>, rest: seq<Event>, timed: bool)
    requires forall i :: 0 <= i < |line| ==> !IsLineBreak(line[i])
    ensures LineBytes(Sent(line + [0x0A]) + rest, timed) == Success((line, Some(0x0A), rest))
  {
    var input := Sent(line + [0x0A]) + rest;
    if line == [] {
      assert input[0] == Data(0x0A);
      assert input[1..] == rest;
    } else {
      assert input[0] == Data(line[0]);
      assert (line + [0x0A])[1..] == line[1..] + [0x0A];
      assert input[1..] == Sent(line[1..] + [0x0A]) + rest;
      LineBytesOfSent(line[1..], rest, timed);
      assert [line[0]] + line[1..] == line;
    }
  }

  /** A one-line string sent as its UTF-8 bytes and LF is read back by readLine, which
      stops right after the LF. */
  lemma ReadLineOfSent(s: string, rest: seq<Event>, timed: bool)
    requires IsOneLine(s)
    ensures ReadLine(Sent(Utf8(s) + [0x0A]) + rest, timed) == Success((Some(s), rest))
  {
    Utf8OfOneLine(s);
    LineBytesOfSent(Utf8(s), rest, timed);
    Utf8RoundTrip(s);
  }

  /** The n bytes sent next are what read(byte[n]) takes. */
  lemma ReadArrayOfSent(b: seq<byte>, rest: seq<Event>, timed: bool)
    requires b != []
    ensures ReadArray(Sent(b) + rest, |b|, timed) == Success((b, rest))
  {
    var input := Sent(b) + rest;
    assert input[0] == Data(b[0]);
    var k := Available(input, |b|);
    assert forall i :: 0 <= i < |b| ==> input[i] == Data(b[i]);
    assert k == |b|;
    assert input[..k] == Sent(b);
    assert DataBytes(input[..k]) == b;
    assert DataBytes(input[..k]) + Zeros(|b| - k) == b;
    assert input[k..] == rest;
  }

  /** A short read: read(byte[n]) takes the bytes that arrived before a pause or a
      failure, leaves the rest of the array zero and the pause or failure still ahead;
      nothing loops to fill the array. */
  lemma ReadArrayShort(b: seq<byte>, e: Event, rest: seq<Event>, n: nat, timed: bool)
    requires 0 < |b| < n && !e.Data?
    ensures ReadArray(Sent(b) + [e] + rest, n, timed) == Success((b + Zeros(n - |b|), [e] + rest))
  {
    var input := Sent(b) + [e] + rest;
    assert input[0] == Data(b[0]);
    assert forall i :: 0 <= i < |b| ==> input[i] == Data(b[i]);
    assert input[|b|] == e;
    var k := Available(input, n);
    assert k == |b|;
    assert input[..k] == Sent(b);
    assert DataBytes(input[..k]) == b;
    assert input[k..] == [e] + rest;
  }

  /** At the end of the stream, read(byte[n]) takes what is left and zero-fills the rest. */
  lemma ReadArrayAtEnd(b: seq<byte>, n: nat, timed: bool)
    requires |b| <= n
    ensures ReadArray(Sent(b), n, timed) == Success((b + Zeros(n - |b|), []))
  {
    if n > 0 && b != [] {
      var input := Sent(b);
      assert input[0] == Data(b[0]);
      var k := Available(input, n);
      assert k == |b|;
      assert input[..k] == input;
      assert DataBytes(input[..k]) == b;
      assert input[k..] == [];
    } else {
      assert b == [] && Sent(b) == [];
      assert b + Zeros(n - |b|) == Zeros(n);
    }
  }
}
