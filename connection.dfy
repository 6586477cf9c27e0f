/** The client's connection to a post office. Each operation queues chunks in a write
    buffer, sends a request code and the chunks (each followed by EOL), and reads one
    response code, which must be among those the operation expects. Mail that arrives
    while the client waits for a particular sender is kept per sender. The socket is
    the `input` transcript and the `output` bytes. */
module Connections {
  import opened Wrappers
  import opened Exceptions
  import opened Bytes
  import opened Text
  import opened Streams
  import opened Frames
  import opened CommFlags
  import opened Scripts

  /** A message newMessage builds: the sender and the payload it is initialised with. */
  datatype Mail = Mail(sender: string, data: ByteArray)

  /** How getMessage ends, what it wrote, the per-sender buffer after it and the input
      left to read. */
  datatype Receipt = Receipt(outcome: Result<Mail, Exception>, written: seq<byte>,
                             buffer: map<string, seq<Mail>>, rest: seq<Event>)

  /** How checkoutMailbox ends, what it wrote and the input left to read. */
  datatype Session = Session(outcome: Outcome<Exception>, written: seq<byte>, rest: seq<Event>)

  /** What execute writes for a request: the one chunk holding its ordinal, then EOL. */
  function Request(req: Req): (r: seq<byte>)
    ensures r == [ReqByte(req), EndOfLine]
  {
    FramedOne([ReqByte(req)]);
    Framed([[ReqByte(req)]])
  }

  /** getResponse: the response, or an IOException for a failed read or an unknown
      code (-1 at the end of the stream included); and the input after the code. A
      read that fails leaves the input where it was. */
  function Response(input: seq<Event>): (r: (Result<Resp, Exception>, seq<Event>))
    ensures r.0.Failure? ==> r.0.error == IOError
    ensures |r.1| <= |input| && (r.0.Success? ==> |r.1| < |input|)
  {
    match ReadByte(input, false)
    case Failure(_) => (Failure(IOError), input)
    case Success((code, rest)) =>
      match GetRespByCode(code)
      case None => (Failure(IOError), rest)
      case Some(resp) => (Success(resp), rest)
  }

  /** The response checked as executeWithData does: one not among those expected is an
      IOException too. */
  function Reply(input: seq<Event>, expected: seq<Resp>): (r: (Result<Resp, Exception>, seq<Event>))
    ensures r.0.Failure? ==> r.0.error == IOError
    ensures r.0.Success? ==> r.0.value in expected
    ensures |r.1| <= |input| && (r.0.Success? ==> |r.1| < |input|)
  {
    var (resp, rest) := Response(input);
    (if resp.Success? && resp.value !in expected then Failure(IOError) else resp, rest)
  }

  /** A response the server sends is accepted exactly when it is expected, and the
      input goes on right after it. */
  lemma ReplyOfSent(resp: Resp, rest: seq<Event>, expected: seq<Resp>)
    ensures Reply(Sent([RespByte(resp)]) + rest, expected)
            == (if resp in expected then Success(resp) else Failure(IOError), rest)
  {
    var input := Sent([RespByte(resp)]) + rest;
    assert input[0] == Data(RespByte(resp));
    assert input[1..] == rest;
    RespCodeRoundTrip(resp);
  }

  /** A code that names no response is refused whatever is expected. */
  lemma ReplyOfUnknown(code: byte, rest: seq<Event>, expected: seq<Resp>)
    requires code > 14
    ensures Reply(Sent([code]) + rest, expected) == (Failure(IOError), rest)
  {
    var input := Sent([code]) + rest;
    assert input[0] == Data(code);
    assert input[1..] == rest;
  }

  /** The wait time getMessage sends: a negative one is raised to zero. */
  function Clamped(waitTime: int32): (w: int32)
    ensures w >= 0 && (waitTime >= 0 ==> w == waitTime)
  {
    if waitTime < 0 then 0 else waitTime
  }

  /** The frame that follows INCOMINGMAIL as getMessage reads it: the sender line and
      the four length bytes (see Bytes.LengthField), then an array of that length filled
      by one read. A negative length fails in the array allocation, and a null sender
      (the end of the stream) in the filter's matcher. */
  function ReadMail(input: seq<Event>): (r: Result<(Mail, seq<Event>), Exception>)
    ensures r.Success? ==> |r.value.1| <= |input|
  {
    match ReadFrameHead(input, false)
    case Failure(_) => Failure(IOError)
    case Success((sender, length, rest)) =>
      if length < 0 then Failure(NegativeArraySize)
      else
        match ReadArray(rest, length, false)
        case Failure(_) => Failure(IOError)
        case Success((data, rest2)) =>
          if sender.None? then Failure(NullPointer) else Success((Mail(sender.value, data), rest2))
  }

  /** `mail` added at the tail of its sender's queue, which is created when missing. */
  function Buffered(buffer: map<string, seq<Mail>>, mail: Mail): map<string, seq<Mail>>
  {
    buffer[mail.sender := (if mail.sender in buffer then buffer[mail.sender] else []) + [mail]]
  }

  /** How one pass of the receive loop ends: getMessage returns or throws, or a letter
      the filter refuses is to be buffered. */
  datatype Round = Finished(outcome: Result<Mail, Exception>) | Refused(mail: Mail)

  /** One pass of the receive loop of getMessage: NEXTLETTER, answered by MAILTIMEOUT
      (MailTimeoutException; the NoMailException branch needs a wait time of -1, which
      the clamp rules out) or by INCOMINGMAIL and a letter. A letter from a sender the
      filter accepts is returned after SATIATED; any other is refused. The round, what
      it wrote, and the input after it. */
  function NextRound(input: seq<Event>, filter: string -> bool): (r: (Round, seq<byte>, seq<Event>))
    ensures r.0.Refused? ==> !filter(r.0.mail.sender) && |r.2| < |input|
    ensures r.0.Finished? && r.0.outcome.Success? ==> filter(r.0.outcome.value.sender)
  {
    var (next, rest) := Reply(input, [INCOMINGMAIL, MAILTIMEOUT]);
    if next.Failure? then (Finished(Failure(next.error)), Request(NEXTLETTER), rest)
    else if next.value != INCOMINGMAIL then (Finished(Failure(MailTimeout)), Request(NEXTLETTER), rest)
    else
      match ReadMail(rest)
      case Failure(e) => (Finished(Failure(e)), Request(NEXTLETTER), rest)
      case Success((mail, rest2)) =>
        if !filter(mail.sender) then (Refused(mail), Request(NEXTLETTER), rest2)
        else
          var (done, rest3) := Reply(rest2, [REQGRANTED]);
          (Finished(if done.Failure? then Failure(done.error) else Success(mail)),
           Request(NEXTLETTER) + Request(SATIATED), rest3)
  }

  /** The receive loop: rounds until one finishes, each refused letter buffered under
      its sender. */
  function Receiving(input: seq<Event>, filter: string -> bool, buffer: map<string, seq<Mail>>): (rc: Receipt)
    decreases |input|
  {
    var (round, written, rest) := NextRound(input, filter);
    match round
    case Finished(outcome) => Receipt(outcome, written, buffer, rest)
    case Refused(mail) =>
      var next := Receiving(rest, filter, Buffered(buffer, mail));
      next.(written := written + next.written)
  }

  /** A receipt `rc` still to come after `output` completes `target` begun after
      `start`. */
  ghost predicate Continues(rc: Receipt, output: seq<byte>, target: Receipt, start: seq<byte>)
  {
    rc.outcome == target.outcome && rc.buffer == target.buffer && rc.rest == target.rest
    && output + rc.written == start + target.written
  }

  /** Receiving unfolded once, in terms of the round. */
  lemma ReceivingStep(input: seq<Event>, filter: string -> bool, buffer: map<string, seq<Mail>>)
    ensures var (round, written, rest) := NextRound(input, filter);
            var rc := Receiving(input, filter, buffer);
            (round.Finished? ==> rc == Receipt(round.outcome, written, buffer, rest))
            && (round.Refused? ==>
                  var next := Receiving(rest, filter, Buffered(buffer, round.mail));
                  rc == next.(written := written + next.written))
  {
  }

  /** Once `written` is out, what remains of `rc` is `next`. */
  lemma ContinuesAfter(rc: Receipt, written: seq<byte>, next: Receipt, output: seq<byte>,
                       target: Receipt, start: seq<byte>)
    requires Continues(rc, output, target, start)
    requires rc == next.(written := written + next.written)
    ensures Continues(next, output + written, target, start)
  {
    assert output + (written + next.written) == (output + written) + next.written;
  }

  /** GETMAIL (NOBOXCONNECTION is MailboxDisconnected), then the clamped wait time as
      four bytes: how the opening ends, what it wrote and the input after it. */
  function Opening(input: seq<Event>, waitTime: int32): (Outcome<Exception>, seq<byte>, seq<Event>)
  {
    var (request, rest) := Reply(input, [REQDATA, NOBOXCONNECTION]);
    if request.Failure? then (Fail(request.error), Request(GETMAIL), rest)
    else if request.value != REQDATA then (Fail(MailboxDisconnected), Request(GETMAIL), rest)
    else
      var (wait, rest2) := Reply(rest, [REQDATA]);
      (if wait.Failure? then Fail(wait.error) else Pass,
       Request(GETMAIL) + Framed([LengthBytes(Clamped(waitTime))]), rest2)
  }

  /** What getMessage does once the server waits for mail: the scan of the buffered
      senders, then the receive loop. The scan looks the queue up by the matcher rather
      than by the sender, finds none, and fails on it whenever some buffered sender
      matches. */
  function Collecting(input: seq<Event>, filter: string -> bool, buffer: map<string, seq<Mail>>): (rc: Receipt)
  {
    if exists s :: s in buffer && filter(s) then Receipt(Failure(NullPointer), [], buffer, input)
    else Receiving(input, filter, buffer)
  }

  /** getMessage(filter, waitTime): the opening, then the collection. */
  function Fetch(input: seq<Event>, filter: string -> bool, waitTime: int32,
                 buffer: map<string, seq<Mail>>): (rc: Receipt)
  {
    var (start, wait, rest) := Opening(input, waitTime);
    if start.Fail? then Receipt(Failure(start.error), wait, buffer, rest)
    else
      var next := Collecting(rest, filter, buffer);
      next.(written := wait + next.written)
  }

  /** The answer to the last request of checkoutMailbox, as its switch treats it. */
  function Verdict(response: Resp): (r: Outcome<Exception>)
  {
    match response
    case NONEXISTENTBOX => Fail(NonExistentMailbox)
    case BOXINUSE => Fail(MailboxInUse)
    case NOAUTH => Fail(UnauthorizedAction)
    case _ => Pass
  }

  /** Each refusal the checkout expects raises the exception checkResponse maps it to,
      and only REQGRANTED passes. */
  lemma VerdictAgreesWithScript(response: Resp)
    requires response in [REQGRANTED, NONEXISTENTBOX, BOXINUSE, NOAUTH]
    ensures Verdict(response) == Pass <==> response == REQGRANTED
    ensures response != REQGRANTED ==> Verdict(response) == Fail(ResponseError(response))
  {
  }

  /** The credentials of checkoutMailbox, once REQBOX is answered with REQDATA: the
      identifier as a string, then the password's digest, whose answer is the verdict. */
  function Credentials(input: seq<Event>, identifier: string, hash: seq<byte>): (s: Session)
  {
    var named := Framed([Utf8(identifier), [EndOfLine]]);
    var (second, rest) := Reply(input, [REQDATA]);
    if second.Failure? then Session(Fail(second.error), named, rest)
    else
      var (verdict, rest2) := Reply(rest, [REQGRANTED, NONEXISTENTBOX, BOXINUSE, NOAUTH]);
      Session(if verdict.Failure? then Fail(verdict.error) else Verdict(verdict.value),
              named + Framed([hash]), rest2)
  }

  /** checkoutMailbox: REQBOX, where ALREADYCONNECTED is ExistingMailboxConnection before
      any data is sent, then the credentials. */
  function CheckoutSession(input: seq<Event>, identifier: string, hash: seq<byte>): (s: Session)
  {
    var (first, rest) := Reply(input, [REQDATA, ALREADYCONNECTED]);
    if first.Failure? then Session(Fail(first.error), Request(REQBOX), rest)
    else if first.value != REQDATA then Session(Fail(ExistingMailboxConnection), Request(REQBOX), rest)
    else
      var s := Credentials(rest, identifier, hash);
      s.(written := Request(REQBOX) + s.written)
  }

  /** The length of `s`'s queue in `buffer`, zero when it has none. */
  function Queued(buffer: map<string, seq<Mail>>, s: string): nat
  {
    if s in buffer then |buffer[s]| else 0
  }

  /** `after` only adds to `before`: every queue keeps its letters, in front, and each
      letter added sits in its own sender's queue and was refused by the filter. */
  ghost predicate Extends(before: map<string, seq<Mail>>, after: map<string, seq<Mail>>, filter: string -> bool)
  {
    before.Keys <= after.Keys
    && (forall s :: s in before ==> before[s] <= after[s])
    && (forall s: string, i: int :: s in after && Queued(before, s) <= i < |after[s]| ==>
          after[s][i].sender == s && !filter(s))
  }

  lemma ExtendsReflexive(buffer: map<string, seq<Mail>>, filter: string -> bool)
    ensures Extends(buffer, buffer, filter)
  {
  }

  lemma ExtendsTransitive(a: map<string, seq<Mail>>, b: map<string, seq<Mail>>, c: map<string, seq<Mail>>,
                          filter: string -> bool)
    requires Extends(a, b, filter) && Extends(b, c, filter)
    ensures Extends(a, c, filter)
  {
    forall s: string | s in a
      ensures a[s] <= c[s]
    {
      assert a[s] <= b[s] && b[s] <= c[s];
    }
    forall s: string, i: int | s in c && Queued(a, s) <= i < |c[s]|
      ensures c[s][i].sender == s && !filter(s)
    {
      if i < Queued(b, s) {
        assert b[s] <= c[s] && b[s][i] == c[s][i];
      }
    }
  }

  /** A refused letter goes to the tail of its sender's queue. */
  lemma BufferedExtends(buffer: map<string, seq<Mail>>, mail: Mail, filter: string -> bool)
    requires !filter(mail.sender)
    ensures Extends(buffer, Buffered(buffer, mail), filter)
    ensures Buffered(buffer, mail)[mail.sender] == (if mail.sender in buffer then buffer[mail.sender] else []) + [mail]
  {
    var after: map<string, seq<Mail>> := Buffered(buffer, mail);
    forall s: string, i: int | s in after && Queued(buffer, s) <= i < |after[s]|
      ensures after[s][i].sender == s && !filter(s)
    {
    }
  }

  /** The receive loop only adds refused letters to the buffer, returns only a letter
      the filter accepts, and never throws NoMailException. */
  lemma {:induction false} ReceivingOutcome(input: seq<Event>, filter: string -> bool, buffer: map<string, seq<Mail>>)
    ensures var rc := Receiving(input, filter, buffer);
            Extends(buffer, rc.buffer, filter)
            && (rc.outcome.Success? ==> filter(rc.outcome.value.sender))
            && rc.outcome != Failure(NoMail)
    decreases |input|
  {
    var (round, written, rest) := NextRound(input, filter);
    if round.Refused? {
      var mid := Buffered(buffer, round.mail);
      BufferedExtends(buffer, round.mail, filter);
      ReceivingOutcome(rest, filter, mid);
      ExtendsTransitive(buffer, mid, Receiving(rest, filter, mid).buffer, filter);
    }
  }

  /** getMessage as a whole: the same guarantees; in particular the NoMailException
      branch is unreachable, whatever wait time is given. */
  lemma FetchOutcome(input: seq<Event>, filter: string -> bool, waitTime: int32, buffer: map<string, seq<Mail>>)
    ensures var rc := Fetch(input, filter, waitTime, buffer);
            Extends(buffer, rc.buffer, filter)
            && (rc.outcome.Success? ==> filter(rc.outcome.value.sender))
            && rc.outcome != Failure(NoMail)
  {
    var (start, wait, rest) := Opening(input, waitTime);
    if start.Pass? && !exists s :: s in buffer && filter(s) {
      ReceivingOutcome(rest, filter, buffer);
    } else {
      ExtendsReflexive(buffer, filter);
    }
  }

  /** A negative wait time goes out as zero: getMessage then behaves exactly as with
      a wait of zero. */
  lemma NegativeWaitIsZero(input: seq<Event>, filter: string -> bool, waitTime: int32,
                           buffer: map<string, seq<Mail>>)
    requires waitTime < 0
    ensures Fetch(input, filter, waitTime, buffer) == Fetch(input, filter, 0, buffer)
  {
  }

  /** Once any letter is buffered, getMessage() (any sender, wait -1) never returns a
      letter again: the scan throws NullPointerException if the opening succeeds. */
  lemma AnyMessageAfterBuffering(input: seq<Event>, buffer: map<string, seq<Mail>>)
    requires buffer != map[]
    ensures var rc := Fetch(input, _ => true, -1, buffer);
            rc.outcome.Failure?
            && (Opening(input, -1).0.Pass? ==> rc.outcome == Failure(NullPointer) && rc.buffer == buffer)
  {
    var s :| s in buffer;
    assert (_ => true)(s);
  }

  /** A letter frame as the server pushes it is read back by getMessage: the sender and
      the payload as sent, an empty one included. */
  lemma ReadMailOfSent(sender: string, payload: ByteArray, rest: seq<Event>)
    requires IsOneLine(sender)
    ensures ReadMail(Sent(FrameBytes(sender, payload)) + rest) == Success((Mail(sender, payload), rest))
  {
    FrameHeadOfSent(sender, payload, rest, false);
    if payload != [] {
      ReadArrayOfSent(payload, rest, false);
    } else {
      assert Sent(payload) + rest == rest;
    }
  }

  /** INCOMINGMAIL and a letter: a refused sender's letter is handed back for the
      buffer; an accepted one is followed by SATIATED and its answer. */
  lemma NextRoundOfLetter(sender: string, payload: ByteArray, rest: seq<Event>, filter: string -> bool)
    requires IsOneLine(sender)
    ensures var input := Sent([RespByte(INCOMINGMAIL)]) + (Sent(FrameBytes(sender, payload)) + rest);
            var (done, after) := Reply(rest, [REQGRANTED]);
            NextRound(input, filter)
            == if filter(sender) then
                 (Finished(if done.Failure? then Failure(done.error) else Success(Mail(sender, payload))),
                  Request(NEXTLETTER) + Request(SATIATED), after)
               else (Refused(Mail(sender, payload)), Request(NEXTLETTER), rest)
  {
    var letter := Sent(FrameBytes(sender, payload)) + rest;
    ReplyOfSent(INCOMINGMAIL, letter, [INCOMINGMAIL, MAILTIMEOUT]);
    ReadMailOfSent(sender, payload, rest);
    NextRoundOfMail(Sent([RespByte(INCOMINGMAIL)]) + letter, letter, Mail(sender, payload), rest, filter);
  }

  /** NEXTLETTER answered by INCOMINGMAIL and a letter read in full, in general. */
  lemma NextRoundOfMail(input: seq<Event>, letter: seq<Event>, mail: Mail, rest: seq<Event>, filter: string -> bool)
    requires Reply(input, [INCOMINGMAIL, MAILTIMEOUT]) == (Success(INCOMINGMAIL), letter)
    requires ReadMail(letter) == Success((mail, rest))
    ensures var (done, after) := Reply(rest, [REQGRANTED]);
            NextRound(input, filter)
            == if filter(mail.sender) then
                 (Finished(if done.Failure? then Failure(done.error) else Success(mail)),
                  Request(NEXTLETTER) + Request(SATIATED), after)
               else (Refused(mail), Request(NEXTLETTER), rest)
  {
  }

  /** MAILTIMEOUT ends the receive loop in MailTimeoutException. */
  lemma ReceivingTimeout(rest: seq<Event>, filter: string -> bool, buffer: map<string, seq<Mail>>)
    ensures Receiving(Sent([RespByte(MAILTIMEOUT)]) + rest, filter, buffer)
            == Receipt(Failure(MailTimeout), Request(NEXTLETTER), buffer, rest)
  {
    ReplyOfSent(MAILTIMEOUT, rest, [INCOMINGMAIL, MAILTIMEOUT]);
    ReceivingStep(Sent([RespByte(MAILTIMEOUT)]) + rest, filter, buffer);
  }

  /** INCOMINGMAIL, a letter, then REQGRANTED: a letter from an accepted sender is
      returned, after NEXTLETTER and SATIATED, with the buffer untouched. */
  lemma ReceivingAccepted(sender: string, payload: ByteArray, rest: seq<Event>,
                          filter: string -> bool, buffer: map<string, seq<Mail>>)
    requires IsOneLine(sender) && filter(sender)
    ensures Receiving(Sent([RespByte(INCOMINGMAIL)]) + (Sent(FrameBytes(sender, payload)) + (Sent([RespByte(REQGRANTED)]) + rest)),
                      filter, buffer)
            == Receipt(Success(Mail(sender, payload)), Request(NEXTLETTER) + Request(SATIATED), buffer, rest)
  {
    var grant := Sent([RespByte(REQGRANTED)]) + rest;
    var input := Sent([RespByte(INCOMINGMAIL)]) + (Sent(FrameBytes(sender, payload)) + grant);
    NextRoundOfLetter(sender, payload, grant, filter);
    ReplyOfSent(REQGRANTED, rest, [REQGRANTED]);
    ReceivingStep(input, filter, buffer);
  }

  /** INCOMINGMAIL, a letter, then MAILTIMEOUT: a letter from a refused sender is
      buffered at the tail of its queue, and the wait ends in MailTimeoutException. */
  lemma ReceivingRefused(sender: string, payload: ByteArray, rest: seq<Event>,
                         filter: string -> bool, buffer: map<string, seq<Mail>>)
    requires IsOneLine(sender) && !filter(sender)
    ensures Receiving(Sent([RespByte(INCOMINGMAIL)]) + (Sent(FrameBytes(sender, payload)) + (Sent([RespByte(MAILTIMEOUT)]) + rest)),
                      filter, buffer)
            == Receipt(Failure(MailTimeout), Request(NEXTLETTER) + Request(NEXTLETTER),
                       Buffered(buffer, Mail(sender, payload)), rest)
  {
    var timeout := Sent([RespByte(MAILTIMEOUT)]) + rest;
    var input := Sent([RespByte(INCOMINGMAIL)]) + (Sent(FrameBytes(sender, payload)) + timeout);
    NextRoundOfLetter(sender, payload, timeout, filter);
    ReceivingTimeout(rest, filter, Buffered(buffer, Mail(sender, payload)));
    ReceivingStep(input, filter, buffer);
  }

  /** The bytes a string queued by addData(String) goes out as. */
  lemma FramedText(s: string)
    ensures Framed([Utf8(s), [EndOfLine]]) == Utf8(s) + [EndOfLine, EndOfLine, EndOfLine]
  {
    FramedAppend([Utf8(s)], [[EndOfLine]]);
    FramedOne(Utf8(s));
    FramedOne([EndOfLine]);
  }

  /** The credentials against a server that asks for the digest: the identifier
      followed by three EOLs, the digest and EOL go out, and the last answer decides:
      REQGRANTED passes, each refusal raises its exception, anything else is an
      IOException. */
  lemma CredentialsOfReplies(identifier: string, hash: seq<byte>, verdict: Resp, rest: seq<Event>)
    ensures Credentials(Sent([RespByte(REQDATA)]) + (Sent([RespByte(verdict)]) + rest), identifier, hash)
            == Session(if verdict in [REQGRANTED, NONEXISTENTBOX, BOXINUSE, NOAUTH] then Verdict(verdict) else Fail(IOError),
                       Utf8(identifier) + [EndOfLine, EndOfLine, EndOfLine] + hash + [EndOfLine],
                       rest)
  {
    ReplyOfSent(REQDATA, Sent([RespByte(verdict)]) + rest, [REQDATA]);
    ReplyOfSent(verdict, rest, [REQGRANTED, NONEXISTENTBOX, BOXINUSE, NOAUTH]);
    FramedText(identifier);
    FramedOne(hash);
  }

  /** checkoutMailbox against a server that asks for both lines: REQBOX, then the
      credentials as above. */
  lemma CheckoutOfReplies(identifier: string, hash: seq<byte>, verdict: Resp, rest: seq<Event>)
    ensures CheckoutSession(Sent([RespByte(REQDATA)]) + (Sent([RespByte(REQDATA)]) + (Sent([RespByte(verdict)]) + rest)),
                            identifier, hash)
            == Session(if verdict in [REQGRANTED, NONEXISTENTBOX, BOXINUSE, NOAUTH] then Verdict(verdict) else Fail(IOError),
                       Request(REQBOX) + (Utf8(identifier) + [EndOfLine, EndOfLine, EndOfLine] + hash + [EndOfLine]),
                       rest)
  {
    var second := Sent([RespByte(REQDATA)]) + (Sent([RespByte(verdict)]) + rest);
    ReplyOfSent(REQDATA, second, [REQDATA, ALREADYCONNECTED]);
    CredentialsOfReplies(identifier, hash, verdict, rest);
  }

  /** With a mailbox already held, checkoutMailbox throws ExistingMailboxConnection
      having sent nothing but REQBOX. */
  lemma CheckoutAlreadyConnected(identifier: string, hash: seq<byte>, rest: seq<Event>)
    ensures CheckoutSession(Sent([RespByte(ALREADYCONNECTED)]) + rest, identifier, hash)
            == Session(Fail(ExistingMailboxConnection), Request(REQBOX), rest)
  {
    ReplyOfSent(ALREADYCONNECTED, rest, [REQDATA, ALREADYCONNECTED]);
  }

  /** How returnMailbox, deleteMailbox and emptyMailQueue end: a failed exchange
      throws its IOException, NOBOXCONNECTION is MailboxDisconnected. */
  function Released(response: Result<Resp, Exception>): (r: Outcome<Exception>)
  {
    if response.Failure? then Fail(response.error)
    else if response.value == REQGRANTED then Pass
    else Fail(MailboxDisconnected)
  }

  class PostOfficeConnection {
    /** MessageDigest MD5 over the password's UTF-8 bytes. */
    const digest: seq<byte> -> seq<byte>
    var mailboxId: Option<string>
    var writeBuffer: seq<seq<byte>>
    var mailBuffer: map<string, seq<Mail>>
    var input: seq<Event>
    var output: seq<byte>

    constructor (digest: seq<byte> -> seq<byte>, input: seq<Event>)
      ensures this.digest == digest && this.input == input
      ensures mailboxId == None && writeBuffer == [] && mailBuffer == map[] && output == []
    {
      this.digest := digest;
      this.input := input;
      mailboxId := None;
      writeBuffer := [];
      mailBuffer := map[];
      output := [];
    }

    /** addData(byte[]): one chunk at the end of the write buffer. */
    method AddData(payload: seq<byte>)
      modifies this
      ensures writeBuffer == old(writeBuffer) + [payload]
      ensures mailboxId == old(mailboxId) && mailBuffer == old(mailBuffer)
      ensures input == old(input) && output == old(output)
    {
      writeBuffer := writeBuffer + [payload];
    }

    /** addData(String): the UTF-8 bytes, then a chunk holding a lone EOL. */
    method AddText(payload: string)
      modifies this
      ensures writeBuffer == old(writeBuffer) + [Utf8(payload), [EndOfLine]]
      ensures mailboxId == old(mailboxId) && mailBuffer == old(mailBuffer)
      ensures input == old(input) && output == old(output)
    {
      AddData(Utf8(payload));
      AddData([EndOfLine]);
    }

    /** executeWithData: every chunk and an EOL after it, in order; the write buffer is
        emptied; then the response, which must be one of `expected`. A read that throws
        leaves the input where it was. */
    method ExecuteWithData(expected: seq<Resp>) returns (r: Result<Resp, Exception>)
      modifies this
      ensures output == old(output) + Framed(old(writeBuffer)) && writeBuffer == []
      ensures mailboxId == old(mailboxId) && mailBuffer == old(mailBuffer)
      ensures (r, input) == Reply(old(input), expected)
    {
      var i := 0;
      while i < |writeBuffer|
        invariant 0 <= i <= |writeBuffer|
        invariant output == old(output) + Framed(writeBuffer[..i])
        invariant writeBuffer == old(writeBuffer) && input == old(input)
        invariant mailboxId == old(mailboxId) && mailBuffer == old(mailBuffer)
      {
        assert writeBuffer[..i + 1][..i] == writeBuffer[..i];
        output := output + writeBuffer[i] + [EndOfLine];
        i := i + 1;
      }
      assert writeBuffer[..|writeBuffer|] == writeBuffer;
      writeBuffer := [];
      var response := GetResponse();
      if response.Success? && response.value !in expected {
        r := Failure(IOError);
      } else {
        r := response;
      }
    }

    /** getResponse. */
    method GetResponse() returns (r: Result<Resp, Exception>)
      modifies this
      ensures (r, input) == Response(old(input))
      ensures writeBuffer == old(writeBuffer) && output == old(output)
      ensures mailboxId == old(mailboxId) && mailBuffer == old(mailBuffer)
    {
      var read := ReadByte(input, false);
      if read.Failure? {
        return Failure(IOError);
      }
      input := read.value.1;
      var resp := GetRespByCode(read.value.0);
      if resp.None? {
        return Failure(IOError);
      }
      r := Success(resp.value);
    }

    /** execute: the pending chunks are dropped and the request's code is sent alone. */
    method Execute(req: Req, expected: seq<Resp>) returns (r: Result<Resp, Exception>)
      modifies this
      ensures output == old(output) + Request(req) && writeBuffer == []
      ensures mailboxId == old(mailboxId) && mailBuffer == old(mailBuffer)
      ensures (r, input) == Reply(old(input), expected)
    {
      writeBuffer := [[ReqByte(req)]];
      r := ExecuteWithData(expected);
    }

    /** checkoutMailbox: the held mailbox becomes `identifier` only when the server
        grants the checkout; every other ending leaves it as it was. */
    method CheckoutMailbox(identifier: string, password: string) returns (r: Outcome<Exception>)
      modifies this
      ensures var s := CheckoutSession(old(input), identifier, digest(Utf8(password)));
              r == s.outcome && output == old(output) + s.written && input == s.rest
      ensures mailboxId == (if r.Pass? then Some(identifier) else old(mailboxId))
      ensures writeBuffer == [] && mailBuffer == old(mailBuffer)
    {
      var first := Execute(REQBOX, [REQDATA, ALREADYCONNECTED]);
      if first.Failure? {
        r := Fail(first.error);
      } else if first.value != REQDATA {
        r := Fail(ExistingMailboxConnection);
      } else {
        ghost var before := output;
        r := SendCredentials(identifier, digest(Utf8(password)));
        assert output == before + (output[|before|..]);
      }
      if r.Pass? {
        mailboxId := Some(identifier);
      }
    }

    /** The credentials exchange of checkoutMailbox. */
    method SendCredentials(identifier: string, hash: seq<byte>) returns (r: Outcome<Exception>)
      requires writeBuffer == []
      modifies this
      ensures var s := Credentials(old(input), identifier, hash);
              r == s.outcome && output == old(output) + s.written && input == s.rest
      ensures writeBuffer == [] && mailboxId == old(mailboxId) && mailBuffer == old(mailBuffer)
    {
      ghost var named := Framed([Utf8(identifier), [EndOfLine]]);
      ghost var start := output;
      AddText(identifier);
      assert writeBuffer == [Utf8(identifier), [EndOfLine]];
      var second := ExecuteWithData([REQDATA]);
      assert output == start + named;
      if second.Failure? {
        r := Fail(second.error);
      } else {
        AddData(hash);
        assert writeBuffer == [hash];
        var response := ExecuteWithData([REQGRANTED, NONEXISTENTBOX, BOXINUSE, NOAUTH]);
        assert output == start + (named + Framed([hash]));
        r := if response.Failure? then Fail(response.error) else Verdict(response.value);
      }
    }

    /** returnMailbox: after REQGRANTED the buffered mail is dropped and no mailbox is
        held; NOBOXCONNECTION is MailboxDisconnected and changes nothing. */
    method ReturnMailbox() returns (r: Outcome<Exception>)
      modifies this
      ensures output == old(output) + Request(DISCONNECTBOX) && writeBuffer == []
      ensures var (response, rest) := Reply(old(input), [REQGRANTED, NOBOXCONNECTION]);
              input == rest
              && r == Released(response)
              && (if r.Pass? then mailBuffer == map[] && mailboxId == None
                  else mailBuffer == old(mailBuffer) && mailboxId == old(mailboxId))
    {
      var response := Execute(DISCONNECTBOX, [REQGRANTED, NOBOXCONNECTION]);
      r := Released(response);
      if r.Pass? {
        mailBuffer := map[];
        mailboxId := None;
      }
    }

    /** deleteMailbox: the same bookkeeping as returnMailbox, for REMOVEBOX. */
    method DeleteMailbox() returns (r: Outcome<Exception>)
      modifies this
      ensures output == old(output) + Request(REMOVEBOX) && writeBuffer == []
      ensures var (response, rest) := Reply(old(input), [REQGRANTED, NOBOXCONNECTION]);
              input == rest
              && r == Released(response)
              && (if r.Pass? then mailBuffer == map[] && mailboxId == None
                  else mailBuffer == old(mailBuffer) && mailboxId == old(mailboxId))
    {
      var response := Execute(REMOVEBOX, [REQGRANTED, NOBOXCONNECTION]);
      r := Released(response);
      if r.Pass? {
        mailBuffer := map[];
        mailboxId := None;
      }
    }

    /** emptyMailQueue: the buffered mail is dropped before the server is asked, so it
        is gone whatever the answer. */
    method EmptyMailQueue() returns (r: Outcome<Exception>)
      modifies this
      ensures output == old(output) + Request(EMPTYBOX) && writeBuffer == []
      ensures mailBuffer == map[] && mailboxId == old(mailboxId)
      ensures var (response, rest) := Reply(old(input), [REQGRANTED, NOBOXCONNECTION]);
              input == rest && r == Released(response)
    {
      mailBuffer := map[];
      var response := Execute(EMPTYBOX, [REQGRANTED, NOBOXCONNECTION]);
      r := Released(response);
    }

    /** The opening of getMessage. */
    method Open(waitTime: int32) returns (r: Outcome<Exception>)
      modifies this
      ensures var (start, written, rest) := Opening(old(input), waitTime);
              r == start && output == old(output) + written && input == rest
      ensures writeBuffer == [] && mailboxId == old(mailboxId) && mailBuffer == old(mailBuffer)
    {
      var request := Execute(GETMAIL, [REQDATA, NOBOXCONNECTION]);
      if request.Failure? {
        r := Fail(request.error);
      } else if request.value != REQDATA {
        r := Fail(MailboxDisconnected);
      } else {
        var chunk := LengthBytes(Clamped(waitTime));
        AddData(chunk);
        var wait := ExecuteWithData([REQDATA]);
        r := if wait.Failure? then Fail(wait.error) else Pass;
      }
    }

    /** The scan of the buffered senders: NullPointerException when the filter accepts
        one of them (its queue is looked up by the matcher and is missing). */
    method ScanBuffer(filter: string -> bool) returns (r: Outcome<Exception>)
      ensures r == Pass <==> !exists s :: s in mailBuffer && filter(s)
      ensures r != Pass ==> r == Fail(NullPointer)
    {
      var senders := mailBuffer.Keys;
      while senders != {}
        invariant senders <= mailBuffer.Keys
        invariant forall s :: s in mailBuffer && s !in senders ==> !filter(s)
        decreases senders
      {
        var s :| s in senders;
        if filter(s) {
          return Fail(NullPointer);
        }
        senders := senders - {s};
      }
      r := Pass;
    }

    /** One pass of the receive loop; a refused letter goes to the tail of its
        sender's queue. */
    method Round(filter: string -> bool) returns (round: Round)
      modifies this
      ensures var (r, written, rest) := NextRound(old(input), filter);
              round == r && output == old(output) + written && input == rest
      ensures mailBuffer == if round.Refused? then Buffered(old(mailBuffer), round.mail) else old(mailBuffer)
      ensures writeBuffer == [] && mailboxId == old(mailboxId)
    {
      var next := Execute(NEXTLETTER, [INCOMINGMAIL, MAILTIMEOUT]);
      if next.Failure? {
        return Finished(Failure(next.error));
      }
      if next.value != INCOMINGMAIL {
        return Finished(Failure(MailTimeout));
      }
      var frame := ReadMail(input);
      if frame.Failure? {
        return Finished(Failure(frame.error));
      }
      var mail := frame.value.0;
      input := frame.value.1;
      if !filter(mail.sender) {
        mailBuffer := Buffered(mailBuffer, mail);
        return Refused(mail);
      }
      var done := Execute(SATIATED, [REQGRANTED]);
      if done.Failure? {
        return Finished(Failure(done.error));
      }
      round := Finished(Success(mail));
    }

    /** One pass of the receive loop, seen from the loop: a finished round completes
        the receipt `target` begun after `start`, a refused letter leaves the rest of
        it to come. */
    method Advance(filter: string -> bool, ghost target: Receipt, ghost start: seq<byte>) returns (round: Round)
      modifies this
      requires Continues(Receiving(input, filter, mailBuffer), output, target, start)
      ensures round.Finished? ==>
                round.outcome == target.outcome && mailBuffer == target.buffer
                && input == target.rest && output == start + target.written
      ensures round.Refused? ==>
                Continues(Receiving(input, filter, mailBuffer), output, target, start) && |input| < |old(input)|
      ensures writeBuffer == [] && mailboxId == old(mailboxId)
    {
      ghost var rc := Receiving(input, filter, mailBuffer);
      ghost var step := NextRound(input, filter);
      ghost var before := output;
      ReceivingStep(input, filter, mailBuffer);
      round := Round(filter);
      if round.Refused? {
        ContinuesAfter(rc, step.1, Receiving(input, filter, mailBuffer), before, target, start);
      }
    }

    /** The receive loop of getMessage: a refused letter goes to the tail of its
        sender's queue. */
    method Receive(filter: string -> bool) returns (r: Result<Mail, Exception>)
      modifies this
      ensures var rc := Receiving(old(input), filter, old(mailBuffer));
              r == rc.outcome && output == old(output) + rc.written
              && mailBuffer == rc.buffer && input == rc.rest
      ensures writeBuffer == [] && mailboxId == old(mailboxId)
    {
      ghost var target := Receiving(input, filter, mailBuffer);
      writeBuffer := [];
      while true
        invariant writeBuffer == [] && mailboxId == old(mailboxId)
        invariant Continues(Receiving(input, filter, mailBuffer), output, target, old(output))
        decreases |input|
      {
        var round := Advance(filter, target, old(output));
        if round.Finished? {
          r := round.outcome;
          break;
        }
      }
    }

    /** getMessage(filter, waitTime), with `filter` standing for the compiled pattern's
        find() on a sender. */
    method GetMessage(filter: string -> bool, waitTime: int32) returns (r: Result<Mail, Exception>)
      modifies this
      ensures var rc := Fetch(old(input), filter, waitTime, old(mailBuffer));
              r == rc.outcome && output == old(output) + rc.written
              && mailBuffer == rc.buffer && input == rc.rest
      ensures writeBuffer == [] && mailboxId == old(mailboxId)
    {
      var start := Open(waitTime);
      if start.Fail? {
        r := Failure(start.error);
      } else {
        ghost var before := output;
        r := Collect(filter);
        assert output == before + output[|before|..];
      }
    }

    /** The scan and the receive loop of getMessage. */
    method Collect(filter: string -> bool) returns (r: Result<Mail, Exception>)
      modifies this
      ensures var rc := Collecting(old(input), filter, old(mailBuffer));
              r == rc.outcome && output == old(output) + rc.written
              && mailBuffer == rc.buffer && input == rc.rest
      ensures writeBuffer == [] && mailboxId == old(mailboxId)
    {
      var scan := ScanBuffer(filter);
      if scan.Fail? {
        writeBuffer := [];
        r := Failure(scan.error);
      } else {
        r := Receive(filter);
      }
    }

    /** getMessage(): any sender, with the wait time -1 (sent as 0); the timeout it
        then meets is swallowed and answered with null. */
    method GetAnyMessage() returns (r: Result<Option<Mail>, Exception>)
      modifies this
      ensures var rc := Fetch(old(input), _ => true, -1, old(mailBuffer));
              output == old(output) + rc.written && mailBuffer == rc.buffer && input == rc.rest
              && r == (match rc.outcome
                       case Success(mail) => Success(Some(mail))
                       case Failure(e) => if e == MailTimeout then Success(None) else Failure(e))
      ensures writeBuffer == [] && mailboxId == old(mailboxId)
    {
      var got := GetMessage(_ => true, -1);
      match got
      case Success(mail) => r := Success(Some(mail));
      case Failure(e) => r := if e == MailTimeout then Success(None) else Failure(e);
    }
  }
}
