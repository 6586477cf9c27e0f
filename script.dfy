/** The client-side script helper: a buffer of chunks to write, a buffer of received
    letters, and the check of the server's one-byte response against those expected. */
module Scripts {
  import opened Wrappers
  import opened Exceptions
  import opened Bytes
  import opened Text
  import opened Streams
  import opened CommFlags
  import opened Letters
  import opened Frames

  /** The bytes the write phase sends for a list of chunks: each chunk, then EOL. */
  function Framed(chunks: seq<seq<byte>>): seq<byte>
  {
    if chunks == [] then []
    else Framed(chunks[..|chunks| - 1]) + chunks[|chunks| - 1] + [EndOfLine]
  }

  /** A single chunk goes out followed by EOL. */
  lemma FramedOne(chunk: seq<byte>)
    ensures Framed([chunk]) == chunk + [EndOfLine]
  {
    assert [chunk][..0] == [];
  }

  lemma {:induction false} FramedAppend(a: seq<seq<byte>>, b: seq<seq<byte>>)
    ensures Framed(a + b) == Framed(a) + Framed(b)
  {
    if b != [] {
      var c := b[..|b| - 1];
      assert (a + b)[..|a + b| - 1] == a + c;
      assert (a + b)[|a + b| - 1] == b[|b| - 1];
      FramedAppend(a, c);
      assert Framed(a + b) == Framed(a + c) + b[|b| - 1] + [EndOfLine];
      assert Framed(b) == Framed(c) + b[|b| - 1] + [EndOfLine];
      assert Framed(a) + Framed(c) + b[|b| - 1] + [EndOfLine]
          == Framed(a) + (Framed(c) + b[|b| - 1] + [EndOfLine]);
    } else {
      assert a + b == a;
    }
  }

  /** Each chunk is followed by its own EOL, so the framed length is the total chunk
      length plus one per chunk. */
  lemma {:induction false} FramedLength(chunks: seq<seq<byte>>)
    ensures |Framed(chunks)| == TotalLength(chunks) + |chunks|
  {
    if chunks != [] {
      FramedLength(chunks[..|chunks| - 1]);
    }
  }

  function TotalLength(chunks: seq<seq<byte>>): nat
  {
    if chunks == [] then 0 else TotalLength(chunks[..|chunks| - 1]) + |chunks[|chunks| - 1]|
  }

  /** The exception checkResponse throws for a response it did not expect. */
  function ResponseError(response: Resp): (e: Exception)
    ensures e == Synchronization <==>
              response in {ALREADYCONNECTED, SHUTDOWN, REQDATA, REQGRANTED, NOMAIL, INCOMINGMAIL}
  {
    match response
    case BADCOMMAND => UnknownRequest
    case BOXEXISTS => ExistentMailbox
    case BOXINUSE => MailboxInUse
    case DELIVERYFAILURE => DeliveryFailure
    case NOAUTH => UnauthorizedAction
    case NOBOXCONNECTION => MailboxDisconnected
    case NONEXISTENTBOX => NonExistentMailbox
    case MAILTIMEOUT => MailTimeout
    case COMMTIMEOUT => CommunicationFailure
    case _ => Synchronization
  }

  /** Distinct error responses raise distinct exceptions: the client can tell every
      server error apart. */
  lemma ResponseErrorInjective(a: Resp, b: Resp)
    requires ResponseError(a) != Synchronization
    ensures ResponseError(a) == ResponseError(b) ==> a == b
  {
  }

  /** checkResponse: returns normally exactly when the response is one of those
      expected; otherwise throws the response's exception. */
  function CheckResponse(response: Resp, expected: seq<Resp>): (r: Outcome<Exception>)
    ensures r.Pass? <==> response in expected
    ensures r.Fail? ==> r.error == ResponseError(response)
  {
    if response in expected then Pass else Fail(ResponseError(response))
  }

  /** getResponse over the stream: the decoded response and what follows it; an
      unknown code, -1 at the end of the stream included, is UnknownResponse, and a
      failing read an IOException. */
  function ReadResponse(input: seq<Event>): (r: Result<(Resp, seq<Event>), Exception>)
    ensures r.Success? ==> |r.value.1| < |input|
  {
    match ReadByte(input, false)
    case Failure(_) => Failure(IOError)
    case Success((code, rest)) =>
      match GetRespByCode(code)
      case None => Failure(UnknownResponse)
      case Some(resp) => Success((resp, rest))
  }

  /** The response a server sends is read back as that response. */
  lemma ReadResponseOfSent(resp: Resp, rest: seq<Event>)
    ensures ReadResponse(Sent([RespByte(resp)]) + rest) == Success((resp, rest))
  {
    var input := Sent([RespByte(resp)]) + rest;
    assert input[0] == Data(RespByte(resp));
    assert input[1..] == rest;
    RespCodeRoundTrip(resp);
  }

  /** receiveLetter over the stream: one frame naming the sender; the recipient is
      null. */
  function ReceivedLetter(input: seq<Event>): (r: Result<(Letter, seq<Event>), Exception>)
    ensures r.Failure? ==> r.error == IOError
    ensures r.Success? ==> r.value.0.recipient.None?
  {
    match ReadFrame(input, false)
    case Failure(_) => Failure(IOError)
    case Success((sender, payload, rest)) => Success((Letter(sender, None, payload), rest))
  }

  class CommScript {
    var input: seq<Event>
    var output: seq<byte>
    var messageBuffer: seq<Letter>
    var writeBuffer: seq<seq<byte>>

    constructor (input: seq<Event>)
      ensures this.input == input && output == [] && messageBuffer == [] && writeBuffer == []
    {
      this.input := input;
      output := [];
      messageBuffer := [];
      writeBuffer := [];
    }

    /** addData(byte[]): one chunk at the end of the write buffer. */
    method AddData(payload: seq<byte>)
      modifies this
      ensures writeBuffer == old(writeBuffer) + [payload]
      ensures input == old(input) && output == old(output) && messageBuffer == old(messageBuffer)
    {
      writeBuffer := writeBuffer + [payload];
    }

    /** addData(String): two chunks, the UTF-8 bytes and then a lone EOL. */
    method AddText(payload: string)
      modifies this
      ensures writeBuffer == old(writeBuffer) + [Utf8(payload), [EndOfLine]]
      ensures input == old(input) && output == old(output) && messageBuffer == old(messageBuffer)
    {
      AddData(Utf8(payload));
      AddData([EndOfLine]);
    }

    /** executeWithData: the write phase sends every chunk followed by EOL, in order,
        and empties the write buffer; then one response is read and checked. */
    method ExecuteWithData(expected: seq<Resp>) returns (r: Outcome<Exception>)
      modifies this
      ensures output == old(output) + Framed(old(writeBuffer))
      ensures writeBuffer == [] && messageBuffer == old(messageBuffer)
      ensures ReadResponse(old(input)).Failure? ==> r == Fail(ReadResponse(old(input)).error)
      ensures ReadResponse(old(input)).Success? ==>
                r == CheckResponse(ReadResponse(old(input)).value.0, expected)
                && input == ReadResponse(old(input)).value.1
    {
      var i := 0;
      while i < |writeBuffer|
        invariant 0 <= i <= |writeBuffer|
        invariant output == old(output) + Framed(writeBuffer[..i])
        invariant writeBuffer == old(writeBuffer) && input == old(input)
        invariant messageBuffer == old(messageBuffer)
      {
        assert writeBuffer[..i + 1][..i] == writeBuffer[..i];
        output := output + writeBuffer[i] + [EndOfLine];
        i := i + 1;
      }
      assert writeBuffer[..|writeBuffer|] == writeBuffer;
      writeBuffer := [];
      var response := GetResponse();
      match response
      case Failure(e) => r := Fail(e);
      case Success(resp) => r := CheckResponse(resp, expected);
    }

    /** getResponse: reads one code and decodes it. */
    method GetResponse() returns (r: Result<Resp, Exception>)
      modifies this
      ensures ReadResponse(old(input)).Failure? ==> r == Failure(ReadResponse(old(input)).error)
      ensures ReadResponse(old(input)).Success? ==>
                r == Success(ReadResponse(old(input)).value.0) && input == ReadResponse(old(input)).value.1
      ensures output == old(output) && writeBuffer == old(writeBuffer) && messageBuffer == old(messageBuffer)
    {
      match ReadResponse(input)
      case Failure(e) => r := Failure(e);
      case Success((resp, rest)) =>
        input := rest;
        r := Success(resp);
    }

    /** clearLetterBuffer. */
    method ClearLetterBuffer()
      modifies this
      ensures messageBuffer == []
      ensures input == old(input) && output == old(output) && writeBuffer == old(writeBuffer)
    {
      messageBuffer := [];
    }

    /** getMessage: removes and returns the oldest buffered letter; None (null) and no
        change when there is none. */
    method GetMessage() returns (r: Option<Letter>)
      modifies this
      ensures old(messageBuffer) == [] ==> r == None && messageBuffer == []
      ensures old(messageBuffer) != [] ==> r == Some(old(messageBuffer)[0]) && messageBuffer == old(messageBuffer)[1..]
      ensures input == old(input) && output == old(output) && writeBuffer == old(writeBuffer)
    {
      if messageBuffer == [] {
        r := None;
      } else {
        r := Some(messageBuffer[0]);
        messageBuffer := messageBuffer[1..];
      }
    }

    /** receiveLetter: decodes one letter frame from the input. */
    method ReceiveLetter() returns (r: Result<Letter, Exception>)
      modifies this
      ensures ReceivedLetter(old(input)).Failure? ==> r == Failure(ReceivedLetter(old(input)).error)
      ensures ReceivedLetter(old(input)).Success? ==>
                r == Success(ReceivedLetter(old(input)).value.0) && input == ReceivedLetter(old(input)).value.1
      ensures output == old(output) && writeBuffer == old(writeBuffer) && messageBuffer == old(messageBuffer)
    {
      var line := ReadLine(input, false);
      if line.Failure? {
        return Failure(IOError);
      }
      var sender := line.value.0;
      input := line.value.1;
      var intData := ReadArray(input, 4, false);
      if intData.Failure? {
        return Failure(IOError);
      }
      input := intData.value.1;
      var byteLength := LengthField(intData.value.0);
      var messageData: Option<ByteArray> := None;
      if byteLength > 0 {
        var read := ReadArray(input, byteLength, false);
        if read.Failure? {
          return Failure(IOError);
        }
        messageData := Some(read.value.0);
        input := read.value.1;
      }
      r := Success(Letter(sender, None, messageData));
    }
  }

  /** Queued chunks go out in order: a string queued by addData(String) appears as its
      bytes followed by three EOLs, one its own chunk and one after each chunk. */
  method WriteText(s: string, input: seq<Event>) returns (written: seq<byte>)
    ensures written == Utf8(s) + [EndOfLine, EndOfLine, EndOfLine]
  {
    var script := new CommScript(input);
    script.AddText(s);
    var r := script.ExecuteWithData([REQGRANTED]);
    written := script.output;
    var chunks := [Utf8(s), [EndOfLine]];
    assert chunks[..1] == [Utf8(s)];
    assert [Utf8(s)][..0] == [];
    assert Framed([Utf8(s)]) == Utf8(s) + [EndOfLine];
    assert Framed(chunks) == Utf8(s) + [EndOfLine] + [EndOfLine] + [EndOfLine];
  }
}
