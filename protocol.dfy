/** The two ends of a connection side by side: what one end writes, read by the other.
    The clerk's answers and pushed letters against the client's readers, and the
    client's REQBOX against the clerk's credentials exchange. */
module Protocol {
  import opened Wrappers
  import opened Exceptions
  import opened Bytes
  import opened Text
  import opened Streams
  import opened Frames
  import opened CommFlags
  import opened Letters
  import MailClerks
  import Scripts
  import Connections

  /** Every refusal the registry's checkout gives is answered with a code the client
      turns back into the same exception, in checkoutMailbox and in checkResponse. */
  lemma RefusalUnderstood(e: Exception)
    requires e == NonExistentMailbox || e == UnauthorizedAction || e == MailboxInUse
    ensures Connections.Verdict(MailClerks.RefusalCode(e)) == Fail(e)
    ensures Scripts.ResponseError(MailClerks.RefusalCode(e)) == e
    ensures MailClerks.RefusalCode(e) != REQGRANTED
  {
  }

  /** A letter the clerk pushes in full is read back by getMessage and by the script's
      receiveLetter: the same sender and payload (receiveLetter reads an empty payload
      as null), and the stream goes on right after it. */
  lemma PushedLetterRead(letter: Letter, rest: seq<Event>)
    requires letter.sender.Some? && IsOneLine(letter.sender.value) && letter.payload.Some?
    ensures var (bytes, failure) := MailClerks.PushFrame(letter);
            var s := letter.sender.value;
            var p := letter.payload.value;
            failure.None?
            && Connections.ReadMail(Sent(bytes) + rest) == Success((Connections.Mail(s, p), rest))
            && Scripts.ReceivedLetter(Sent(bytes) + rest)
               == Success((Letter(Some(s), None, if p == [] then None else Some(p)), rest))
  {
    var s := letter.sender.value;
    var p := letter.payload.value;
    Connections.ReadMailOfSent(s, p, rest);
    FrameOfSent(s, p, rest, false);
  }

  /** What the client sends for checkoutMailbox(identifier, password) once both prompts
      have come: REQBOX and EOL, the identifier with its EOL and the EOL after the
      chunk, an empty chunk's EOL, then the digest and EOL. */
  function CheckoutBytes(identifier: string, hash: seq<byte>): seq<byte>
  {
    Connections.Request(REQBOX) + Utf8(identifier) + [EndOfLine, EndOfLine, EndOfLine] + hash + [EndOfLine]
  }

  /** An empty line reads as the empty string. */
  lemma ReadEmptyLine(rest: seq<Event>, timed: bool)
    ensures ReadLine(Sent([EndOfLine]) + rest, timed) == Success((Some(""), rest))
  {
    var input := Sent([EndOfLine]) + rest;
    assert input[0] == Data(EndOfLine) && input[1..] == rest;
    assert Utf8Decode([]) == "";
  }

  /** The exchange reads its two lines in turn. */
  lemma ExchangedLines(input: seq<Event>, name: Option<string>, mid: seq<Event>,
                       password: Option<string>, rest: seq<Event>)
    requires ReadLine(input, true) == Success((name, mid))
    requires ReadLine(mid, true) == Success((password, rest))
    ensures MailClerks.Exchanged(input) == MailClerks.Got(name, password, rest)
  {
  }

  /** After its first byte, the checkout's bytes as the clerk's stream sees them:
      an EOL, the identifier's line, and the rest. */
  lemma CheckoutAfterCommand(identifier: string, hash: seq<byte>, rest: seq<Event>)
    ensures var sent := CheckoutBytes(identifier, hash);
            sent[0] == ReqByte(REQBOX)
            && Sent(sent[1..]) + rest
               == Sent([EndOfLine]) + (Sent(Utf8(identifier) + [EndOfLine])
                                       + (Sent([EndOfLine, EndOfLine] + hash + [EndOfLine]) + rest))
  {
    var sent := CheckoutBytes(identifier, hash);
    var tail := [EndOfLine, EndOfLine] + hash + [EndOfLine];
    var line := Utf8(identifier) + [EndOfLine];
    assert sent == [ReqByte(REQBOX)] + ([EndOfLine] + (line + tail));
    SentOfThree([EndOfLine], line, tail, rest);
  }

  /** The clerk reads the command with one read(), so the EOL after it is still
      waiting when the credentials exchange starts: the box name it reads is the empty
      line, and the password line is the client's identifier. */
  lemma ClerkReadsEmptyBoxName(identifier: string, hash: seq<byte>, rest: seq<Event>)
    requires IsOneLine(identifier)
    ensures var sent := CheckoutBytes(identifier, hash);
            sent[0] == ReqByte(REQBOX)
            && MailClerks.Exchanged(Sent(sent[1..]) + rest)
               == MailClerks.Got(Some(""), Some(identifier), Sent([EndOfLine, EndOfLine] + hash + [EndOfLine]) + rest)
  {
    var after := Sent([EndOfLine, EndOfLine] + hash + [EndOfLine]) + rest;
    var second := Sent(Utf8(identifier) + [EndOfLine]) + after;
    CheckoutAfterCommand(identifier, hash, rest);
    ReadEmptyLine(second, true);
    ReadLineOfSent(identifier, after, true);
    ExchangedLines(Sent([EndOfLine]) + second, Some(""), second, Some(identifier), after);
  }
}
