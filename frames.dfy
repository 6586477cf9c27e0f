/** The letter frame both ends of a connection exchange: a line naming one party, the
    payload length as four big-endian bytes, then the payload. */
module Frames {
  import opened Wrappers
  import opened Bytes
  import opened Text
  import opened Streams

  /** The bytes of a frame naming `name` and carrying `payload`. */
  function FrameBytes(name: string, payload: ByteArray): seq<byte>
  {
    Utf8(name) + [0x0A] + LengthBytes(|payload|) + payload
  }

  /** The events after the first pause or failure: where the stream picks up once a
      timed read has thrown (the bytes that read had taken are lost). */
  function Resume(input: seq<Event>): (r: seq<Event>)
    ensures |r| <= |input|
    ensures (forall e :: e in input ==> e.Data?) ==> r == []
    ensures (exists e :: e in input && !e.Data?) ==>
              var k := |input| - |r|;
              0 < k && !input[k - 1].Data? && r == input[k..]
              && forall j :: 0 <= j < k - 1 ==> input[j].Data?
  {
    if input == [] then []
    else if input[0].Data? then Resume(input[1..])
    else input[1..]
  }

  /** The head of a frame: the name line, then read(byte[4]) decoded as the length
      (with the buffer flipped, see Bytes.LengthField). */
  function ReadFrameHead(input: seq<Event>, timed: bool): (r: Result<(Option<string>, int32, seq<Event>), ReadError>)
    ensures r.Success? ==> |r.value.2| <= |input|
  {
    match ReadLine(input, timed)
    case Failure(e) => Failure(e)
    case Success((name, rest)) =>
      match ReadArray(rest, 4, timed)
      case Failure(e) => Failure(e)
      case Success((intData, rest2)) => Success((name, LengthField(intData), rest2))
  }

  /** A whole frame as receiveLetter reads it: the payload is read only for a positive
      length, and is null otherwise. */
  function ReadFrame(input: seq<Event>, timed: bool): (r: Result<(Option<string>, Option<ByteArray>, seq<Event>), ReadError>)
    ensures r.Success? ==> |r.value.2| <= |input|
    ensures r.Success? && r.value.1.Some? ==> 0 < |r.value.1.value|
  {
    match ReadFrameHead(input, timed)
    case Failure(e) => Failure(e)
    case Success((name, length, rest)) =>
      if length > 0 then
        match ReadArray(rest, length, timed)
        case Failure(e) => Failure(e)
        case Success((payload, rest2)) => Success((name, Some(payload), rest2))
      else Success((name, None, rest))
  }

  /** A frame sent in full is read back: the name, then the length, then exactly the
      payload, and the stream continues right after it. */
  lemma FrameHeadOfSent(name: string, payload: ByteArray, rest: seq<Event>, timed: bool)
    requires IsOneLine(name)
    ensures ReadFrameHead(Sent(FrameBytes(name, payload)) + rest, timed)
            == Success((Some(name), |payload| as int32, Sent(payload) + rest))
  {
    var line := Utf8(name) + [0x0A];
    var lb := LengthBytes(|payload|);
    var after := Sent(lb) + (Sent(payload) + rest);
    SentOfFrame(name, payload, rest);
    ReadLineOfSent(name, after, timed);
    ReadArrayOfSent(lb, Sent(payload) + rest, timed);
    LengthRoundTrip(|payload|);
  }

  lemma SentOfFrame(name: string, payload: ByteArray, rest: seq<Event>)
    ensures Sent(FrameBytes(name, payload)) + rest
            == Sent(Utf8(name) + [0x0A]) + (Sent(LengthBytes(|payload|)) + (Sent(payload) + rest))
  {
    assert FrameBytes(name, payload) == (Utf8(name) + [0x0A]) + (LengthBytes(|payload|) + payload);
    SentOfThree(Utf8(name) + [0x0A], LengthBytes(|payload|), payload, rest);
  }

  lemma SentOfThree(a: seq<byte>, b: seq<byte>, c: seq<byte>, rest: seq<Event>)
    ensures Sent(a + (b + c)) + rest == Sent(a) + (Sent(b) + (Sent(c) + rest))
  {
    SentAppend(a, b + c);
    SentAppend(b, c);
  }

  /** The round trip through receiveLetter: a non-empty payload comes back as sent, an
      empty one as null. */
  lemma FrameOfSent(name: string, payload: ByteArray, rest: seq<Event>, timed: bool)
    requires IsOneLine(name)
    ensures ReadFrame(Sent(FrameBytes(name, payload)) + rest, timed)
            == Success((Some(name), if payload == [] then None else Some(payload), rest))
  {
    FrameHeadOfSent(name, payload, rest, timed);
    if payload != [] {
      ReadArrayOfSent(payload, rest, timed);
    } else {
      assert Sent(payload) + rest == rest;
    }
  }
}
