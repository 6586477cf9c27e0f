# postoffice, modelled in Dafny

postoffice is a mailbox broker. A server (the *post office*) keeps a registry of
password-protected mailboxes, keyed by name. Each client connection is served by its
own worker, the *mail clerk*, which reads one-byte request codes and answers with
one-byte response codes. A client checks out one mailbox at a time. While it holds the
box it can send letters to other mailboxes, fetch the letters waiting in its own box,
empty the box or remove it. A letter is a sender, a recipient and a byte payload. On
the wire it is framed as a name line, a four-byte big-endian length and the payload.

The client side has two forms:

- `PostOfficeConnection` queues chunks in a write buffer, sends them each followed by a
  line feed, and checks the response code against the ones the operation expects.
  While it waits for a particular sender it keeps the mail of other senders per sender.
- `CommScript` is a smaller helper with a letter buffer, and it maps every error
  response to its exception.

A routed live stream is announced to its two participants by letters from the office
itself. Each announcement carries a `LiveStreamMessage`: both participants and the
stream's UUID, each written as a `writeUTF` string.

The model has one module per source file plus some shared modules:

- `Wrappers` and `Exceptions` hold Option, Result, Outcome and one datatype naming
  every exception class.
- `Bytes` models bytes, 32-bit ints and the part of `java.nio.ByteBuffer` the code uses.
- `Text` models UTF-8, Java's modified UTF-8 and decimal numerals.
- `Streams` models a socket's input as a transcript of events: bytes, pauses longer
  than the read timeout, and a broken connection. The end of the transcript is the end
  of the stream.
- `Frames` models the letter frame.
- `Protocol` states lemmas that put the two ends of a connection side by side.

Threads are named by an explicit caller id. The `ReentrantLock` is a datatype holding
its owner and hold count. Java's `null` is `None`. A method that can throw returns a
`Result` or an `Outcome`.

Apart from the two source errors listed under Findings, the model follows the code as
written, quirks included:

- DISCONNECTBOX answers REQGRANTED but neither releases the box nor unbinds it.
- REMOVEBOX destroys the box named by the last name line read, which need not be the
  bound box. The bound box also stays bound afterwards.
- After one thread checks a box out twice and releases it once, the box reports that it
  is not checked out. Another thread still cannot take it, and the first thread can no
  longer empty it.
- The client's `getMessage(filter, waitTime)` scans the buffered mail. It looks a queue
  up with the regex matcher rather than the sender's name (`mailBuffer.get(m)`), finds
  none, and throws NullPointerException whenever a buffered sender matches. Once any
  letter is buffered, `getMessage()` never returns a letter again. The
  `waitTime == -1` branch is unreachable, because negative wait times are clamped to 0
  first.
- A GETLETTER case at MailClerk.java:201 names no REQ constant. It is read as the mail
  request at ordinal 6, GETMAIL.
- The client's checkout sends REQBOX, its line feed, and then the identifier. The clerk
  reads the command with a single `read()`, so it takes the leftover line feed as the
  box name "" and the identifier as the password line.
  `Protocol.ClerkReadsEmptyBoxName` states this.
- `joinLiveStream` indexes `sockets[awaiting.size() - 1]` after the removal. The join
  that empties the set therefore indexes -1 and fails, after the participant has been
  removed. No join ever returns false.

Two source errors are listed under Findings. Each has members stating the behaviour as
written, and the rest of the model uses the corrected definition:

- The password check compares byte arrays by identity. As written, no checkout through
  the registry can pass: `PostOffices.NoCheckoutAfterCreate` and
  `MailClerks.MailClerk.ReqBoxAsWritten` state this. The registry and the clerk
  otherwise compare contents, so their checkouts can succeed.
- The frame readers decode the length field without `flip()`. As written, every frame
  read throws BufferUnderflowException after the name line and the four length bytes
  (`Bytes.LengthAsWrittenUnderflows`). The frame readers otherwise decode the flipped
  length.

## Model

| member | source | states |
|---|---|---|
| CommFlags.ReqOrdinal | src/postoffice/datatypes/CommFlags.java:5-17 | a request's code is its position in the declared REQ order |
| CommFlags.RespOrdinal | src/postoffice/datatypes/CommFlags.java:19-36 | a response's code is its position in the declared RESP order |
| CommFlags.ReqByte | src/postoffice/connection/PostOfficeConnection.java:341 | the byte sent for a request is its ordinal |
| CommFlags.RespByte | src/postoffice/daemon/MailClerk.java:77 | the byte written for a response is its ordinal |
| CommFlags.GetReqByCode | src/postoffice/datatypes/CommFlags.java:51-57 | null exactly when the code is below 0 or above 9 (so -1 gives null); otherwise the request with that ordinal |
| CommFlags.GetRespByCode | src/postoffice/datatypes/CommFlags.java:43-49 | null exactly when the code is below 0 or above 14; otherwise the response with that ordinal |
| CommFlags.ReqCodeRoundTrip | src/postoffice/datatypes/CommFlags.java:40-57 | decoding any request's ordinal gives back that request |
| CommFlags.RespCodeRoundTrip | src/postoffice/datatypes/CommFlags.java:40-49 | decoding any response's ordinal gives back that response |
| CommFlags.ReqOrdinalInjective | src/postoffice/datatypes/CommFlags.java:5-17 | distinct requests have distinct codes |
| CommFlags.RespOrdinalInjective | src/postoffice/datatypes/CommFlags.java:19-36 | distinct responses have distinct codes |
| Letters.ToString | src/postoffice/datatypes/Letter.java:39-53 | toString fails with NullPointerException exactly when the payload is null |
| Letters.ToStringShowsParties | src/postoffice/datatypes/Letter.java:39-53 | the text starts "( From : sender, To : recipient [" (null printed as "null") and ends " bytes ] )"; the digits between read back as the payload length |
| Bytes.Int32RoundTrip | src/postoffice/daemon/MailClerk.java:310 | an int's four big-endian two's-complement bytes decode back to that int |
| Bytes.BytesRoundTrip | src/postoffice/connection/PostOfficeConnection.java:201-205 | any four bytes are the encoding of the int they decode to |
| Bytes.Allocate | src/postoffice/daemon/MailClerk.java:310 | ByteBuffer.allocate: zero-filled, position 0, capacity bytes remaining |
| Bytes.Put | src/postoffice/daemon/MailClerk.java:330 | bulk put overflows exactly when the source exceeds what remains; otherwise it copies the bytes at the position and advances past them |
| Bytes.GetInt | src/postoffice/daemon/MailClerk.java:330 | getInt underflows exactly when fewer than four bytes remain; otherwise it returns the int whose bytes sit at the position |
| Bytes.Flip | src/postoffice/daemon/MailClerk.java:330 | flip rewinds to 0 and leaves exactly the bytes written so far readable |
| Bytes.LengthBytesOfBuffer | src/postoffice/daemon/MailClerk.java:310 | allocate(4).putInt(n).array() is the four big-endian bytes of n |
| Bytes.LengthAsWrittenUnderflows | src/postoffice/daemon/MailClerk.java:330 | as written, allocate(4).put(intData).getInt() throws BufferUnderflowException for every four bytes |
| Bytes.FlippedLength | src/postoffice/daemon/MailClerk.java:330 | with flip() between put and getInt, the decoding returns the big-endian value of the four bytes |
| Bytes.LengthRoundTrip | src/postoffice/daemon/MailClerk.java:310-330 | the corrected decoding reads back every length the frame writers put on the wire |
| Text.EncodeChar | src/postoffice/connection/PostOfficeConnection.java:390 | a character's UTF-8 form is 1 to 4 bytes; it is one byte, the character itself, exactly when it is ASCII; later bytes are continuation bytes |
| Text.DecodeFirstOfEncoded | src/postoffice/daemon/MailClerk.java:61 | the UTF-8 reader decodes an encoded character back to that character, consuming exactly its bytes |
| Text.Utf8RoundTrip | src/postoffice/daemon/MailClerk.java:61 | a string written with getBytes("UTF-8") is decoded back unchanged by the UTF-8 reader |
| Text.Utf8OfOneLine | src/postoffice/connection/PostOfficeConnection.java:386-394 | a string without CR or LF encodes to bytes none of which ends a line |
| Text.Utf16RoundTrip | src/postoffice/datatypes/LiveStreamMessage.java:57-60 | a string's UTF-16 code units give back the string |
| Text.EncodeUnit | src/postoffice/datatypes/LiveStreamMessage.java:57 | writeUTF writes 1 to 3 bytes per code unit |
| Text.DecodeUnitFirst | src/postoffice/datatypes/LiveStreamMessage.java:41 | readUTF decodes one code unit's bytes back to it, whatever follows |
| Text.ModifiedUtf8RoundTrip | src/postoffice/datatypes/LiveStreamMessage.java:35-65 | the modified UTF-8 body of any code units decodes back to them |
| Text.WriteUtf | src/postoffice/datatypes/LiveStreamMessage.java:57 | writeUTF writes at least 2 and at most 2 + 65535 bytes, or throws |
| Text.ReadUtfOfWritten | src/postoffice/datatypes/LiveStreamMessage.java:41-44 | readUTF reads back what writeUTF wrote and stops right after it |
| Text.ReadUtf | src/postoffice/datatypes/LiveStreamMessage.java:41-44 | EOFException (None) when fewer than two bytes, or fewer than the announced count, remain; a string read consumes exactly the two count bytes and the count's body bytes |
| Text.ModifiedUtf8OfAscii | src/postoffice/datatypes/LiveStreamMessage.java:57-60 | characters U+0001..U+007F take one byte each in modified UTF-8 |
| Text.DecimalRoundTrip | src/postoffice/datatypes/Letter.java:49 | the decimal digits printed for a length read back as that length |
| Streams.ReadByte | src/postoffice/daemon/MailClerk.java:71 | read() returns -1..255; -1 only at the end of the stream; a byte consumes input; without a read timeout it never times out |
| Streams.ReadArray | src/postoffice/daemon/MailClerk.java:328 | read(byte[n]) leaves an n-byte array and consumes no more than the input holds |
| Streams.LineBytes | src/postoffice/daemon/MailClerk.java:324 | a line contains no CR or LF; its terminator is one; at the end of the stream there is none and nothing is left |
| Streams.ReadLine | src/postoffice/daemon/MailClerk.java:98 | readLine returns null only at the end of the stream |
| Streams.LineBytesOfSent | src/postoffice/daemon/MailClerk.java:324 | bytes without a line break followed by LF are read as one line, ending right after the LF |
| Streams.ReadLineOfSent | src/postoffice/daemon/MailClerk.java:98-100 | a one-line string sent as UTF-8 and LF is read back by readLine, which stops right after the LF |
| Streams.ReadArrayOfSent | src/postoffice/daemon/MailClerk.java:328 | the n bytes sent next are what read(byte[n]) takes |
| Streams.ReadArrayShort | src/postoffice/daemon/MailClerk.java:327-328 | a short read: the bytes that arrived before a pause or failure, then zeros, with the pause or failure still ahead of the stream |
| Streams.ReadArrayAtEnd | src/postoffice/daemon/MailClerk.java:327-328 | at the end of the stream, the remaining bytes then zeros, and nothing left to read |
| Frames.ReadFrame | src/postoffice/daemon/MailClerk.java:314-339 | receiveLetter reads a payload only for a positive length, so a payload it returns is never empty |
| Frames.ReadFrameHead | src/postoffice/daemon/MailClerk.java:324-330 | the name line, then read(byte[4]) decoded as the length (flipped, as Frames.ReadFrame); it never adds events to the stream, and Frames.FrameHeadOfSent is its round trip |
| Frames.FrameHeadOfSent | src/postoffice/daemon/MailClerk.java:324-330 | a frame sent in full is read as its name, then its payload length, and the payload is what follows |
| Frames.FrameOfSent | src/postoffice/daemon/MailClerk.java:314-339 | a pushed frame is read back with the same name and payload (an empty payload as null), and reading stops right after it |
| Mailboxes.ReentrantLock.TryLock | src/postoffice/datatypes/Mailbox.java:81-84 | tryLock succeeds exactly when the lock is free or owned by the caller; the caller then owns it with one more hold |
| Mailboxes.ReentrantLock.Unlock | src/postoffice/datatypes/Mailbox.java:96-99 | unlock succeeds exactly for the owner and drops one hold; the owner keeps the lock while holds remain |
| Mailboxes.UnlockUndoesTryLock | src/postoffice/datatypes/Mailbox.java:81-97 | unlock by the same thread undoes a successful tryLock |
| Mailboxes.TryLockExcludesOthers | src/postoffice/datatypes/Mailbox.java:81-84 | once one thread holds the lock, no other thread's tryLock succeeds |
| Mailboxes.Mailbox.constructor | src/postoffice/datatypes/Mailbox.java:22-26 | stores the owner and the hash array itself; the inbox is empty, the lock free, no holder |
| Mailboxes.Mailbox.PopMessage | src/postoffice/datatypes/Mailbox.java:28-31 | removes and returns the oldest letter; on an empty inbox returns null and changes nothing |
| Mailboxes.Mailbox.QueueSize | src/postoffice/datatypes/Mailbox.java:42-45 | the number of letters waiting |
| Mailboxes.Mailbox.Deliver | src/postoffice/datatypes/Mailbox.java:57-60 | appends the letter at the tail whoever holds the box; lock and holder unchanged |
| Mailboxes.Mailbox.Empty | src/postoffice/datatypes/Mailbox.java:67-74 | clears the inbox exactly when the caller is the recorded holder; otherwise UnauthorizedAction and the inbox is unchanged |
| Mailboxes.Mailbox.CheckoutAsWritten | src/postoffice/datatypes/Mailbox.java:76-85 | a hash that is not the stored array is refused with UnauthorizedAction before the lock is touched; then tryLock records the caller as holder, or MailboxInUse with no change |
| Mailboxes.Mailbox.Checkout | src/postoffice/datatypes/Mailbox.java:76-85 | the same, with the hash compared by contents |
| Mailboxes.Mailbox.Release | src/postoffice/datatypes/Mailbox.java:92-103 | a caller not owning the lock gets UnauthorizedAction and nothing changes; the owner drops one hold and the holder is cleared even if holds remain |
| Mailboxes.HolderOwnsLock | src/postoffice/datatypes/Mailbox.java:13-15 | a recorded holder owns the lock with at least one hold |
| Mailboxes.Mailbox.HoldingMailbox | src/postoffice/datatypes/Mailbox.java:110-113 | in a valid box, a thread that holds it owns the lock with at least one hold |
| Mailboxes.Mailbox.IsCheckedOut | src/postoffice/datatypes/Mailbox.java:120-123 | checked out exactly when the recorded holder holds it, and whenever any thread holds it; in a valid box the lock's owner is then the holder |
| Mailboxes.DeliveryOrder | src/postoffice/datatypes/Mailbox.java:28-60 | letters come out in the order delivered, and the queue size counts them |
| Mailboxes.ReentrantCheckout | src/postoffice/datatypes/Mailbox.java:76-123 | after two checkouts and one release by one thread, isCheckedOut is false, another thread's checkout fails with MailboxInUse, and empty by the first thread is refused |
| Mailboxes.SameBytesOtherArray | src/postoffice/datatypes/Mailbox.java:78 | as written, an array holding the stored hash's very bytes is refused and no holder is recorded |
| Mailboxes.SameBytesAccepted | src/postoffice/datatypes/Mailbox.java:76-85 | with contents compared, the same bytes in another array check the box out and other bytes are refused |
| PostOffices.PostOffice.constructor | src/postoffice/daemon/PostOffice.java:28 | the registry starts empty |
| PostOffices.PostOffice.IsCheckedOut | src/postoffice/daemon/PostOffice.java:62-70 | NonExistentMailbox exactly for an unknown id; otherwise whether the box has a holder |
| PostOffices.PostOffice.MailboxExists | src/postoffice/daemon/PostOffice.java:114-117 | a box exists exactly when isCheckedOut does not fail with NonExistentMailbox |
| PostOffices.PostOffice.CreateMailbox | src/postoffice/daemon/PostOffice.java:79-87 | a known id gets ExistentMailbox and no change; otherwise exactly one new entry: a fresh unheld empty box whose hash is a fresh copy of the given bytes |
| PostOffices.PostOffice.DestroyMailbox | src/postoffice/daemon/PostOffice.java:96-106 | an unknown id gets NonExistentMailbox; otherwise the box is released for the caller first, a refusal leaves the entry in place, and success removes exactly that id |
| PostOffices.PostOffice.CheckoutMailbox | src/postoffice/daemon/PostOffice.java:129-139 | an unknown id gets NonExistentMailbox; otherwise the box's checkout decides, and success returns that very box; the registry is unchanged |
| PostOffices.PostOffice.ReturnMailbox | src/postoffice/daemon/PostOffice.java:148-156 | an unknown id gets NonExistentMailbox; otherwise the box's release decides |
| PostOffices.PostOffice.SendLetter | src/postoffice/daemon/PostOffice.java:164-174 | a null recipient fails in the lookup and an unknown one is NonExistentMailbox; otherwise the letter is appended to exactly the recipient's inbox |
| PostOffices.RegistryInjective | src/postoffice/daemon/PostOffice.java:79-87 | distinct ids hold distinct boxes |
| PostOffices.PostOffice.CheckoutMailboxAsWritten | src/postoffice/daemon/PostOffice.java:129-139 | an unknown id gets NonExistentMailbox; an array other than the stored one gets UnauthorizedAction with no change; only the stored array itself reaches the lock |
| PostOffices.NoCheckoutAfterCreate | src/postoffice/daemon/PostOffice.java:79-139 | as written, after a box is created from an array, neither that array nor any array allocated earlier checks it out: both get UnauthorizedAction and the box stays free |
| PostOffices.CheckoutAfterCreate | src/postoffice/daemon/PostOffice.java:79-139 | with contents compared, the hash a box was created with checks it out, and the box then reports checked out |
| PostOffices.CreateTwiceDestroyUnheld | src/postoffice/daemon/PostOffice.java:79-106 | a second create of an id is refused; destroying a box nobody holds is refused and the box stays registered |
| PostMen.Bounce | src/postoffice/daemon/PostMan.java:38 | the bounce goes from "postoffice.daemon" to the original sender with payload [1] |
| PostMen.Route | src/postoffice/daemon/PostMan.java:26-41 | routing picks a registered box and either the letter itself or its bounce; its only failure is a null lookup |
| PostMen.RouteDelivers | src/postoffice/daemon/PostMan.java:28-33 | a letter whose recipient is registered goes, unchanged, to that recipient |
| PostMen.RouteBounces | src/postoffice/daemon/PostMan.java:34-41 | a letter to an unknown recipient becomes a bounce to its sender's box; with the sender unknown too, routing fails |
| PostMen.BounceIsDeliverable | src/postoffice/daemon/PostMan.java:34-41 | routing a bounce again delivers it to the same box, so bounces never bounce |
| PostMen.Done | src/postoffice/daemon/PostMan.java:21-48 | delivers what Route chooses to exactly that box and no other; an interrupted or failed task delivers nothing; no lock changes |
| Messages.UuidToString | src/postoffice/datatypes/LiveStreamMessage.java:60 | a UUID string has 36 characters with dashes at 8, 13, 18 and 23 (section 3 of RFC 4122) |
| Messages.UuidRoundTrip | src/postoffice/datatypes/LiveStreamMessage.java:44-60 | UUID.fromString of a UUID's string gives back that UUID |
| Messages.UuidFromString | src/postoffice/datatypes/LiveStreamMessage.java:44 | succeeds exactly on 36 characters with dashes at 8, 13, 18 and 23 and a hexadecimal digit of either case everywhere else |
| Messages.UuidStringIsAscii | src/postoffice/datatypes/LiveStreamMessage.java:60 | a UUID string is plain ASCII |
| Messages.Marshalled | src/postoffice/datatypes/LiveStreamMessage.java:49-65 | marshal's output is at most three writeUTF forms long |
| Messages.UuidWritable | src/postoffice/datatypes/LiveStreamMessage.java:60 | the id string always encodes, in 2 + 36 bytes |
| Messages.MarshalledEncodable | src/postoffice/datatypes/LiveStreamMessage.java:57-60 | marshal emits participant A, participant B, then the id string, each in writeUTF form |
| Messages.MarshalRoundTrip | src/postoffice/datatypes/LiveStreamMessage.java:35-65 | demarshal(marshal(m)) restores both participants and the id, whatever the fields held before |
| Messages.MarshalLength | src/postoffice/datatypes/LiveStreamMessage.java:57-60 | for ASCII participants the output is (2+\|A\|)+(2+\|B\|)+(2+36) bytes |
| Messages.MarshalStopsAtLongField | src/postoffice/datatypes/LiveStreamMessage.java:55-62 | a field too long to encode ends marshal, and the output holds only the fields before it |
| Messages.DemarshalTruncated | src/postoffice/datatypes/LiveStreamMessage.java:39-46 | on input cut short, the strings read are stored and the later fields keep their old values |
| Messages.LiveStreamMessage.constructor | src/postoffice/datatypes/LiveStreamMessage.java:26-32 | stores the id and both participants unchanged; no sender yet |
| Messages.LiveStreamMessage.Initialize | src/postoffice/datatypes/Message.java:7-11 | sets the sender, then leaves the fields as demarshal of the unchanged data does |
| Messages.LiveStreamMessage.Demarshal | src/postoffice/datatypes/LiveStreamMessage.java:34-47 | reads A, B and the id string in order, storing each as read; the sender is untouched |
| Messages.LiveStreamMessage.Marshal | src/postoffice/datatypes/LiveStreamMessage.java:49-65 | returns exactly the marshalled form of the current fields |
| Messages.SendAndReceive | src/postoffice/datatypes/Message.java:7-16 | a message marshalled and initialised into a fresh one keeps its participants and id and reports the given sender |
| LiveStreams.AnnouncedToPair | src/postoffice/daemon/ServerRoutedLiveStreamHandler.java:39-43 | each of two distinct participants receives exactly one announcement and nobody else any |
| LiveStreams.MarshalledNonNull | src/postoffice/daemon/ServerRoutedLiveStreamHandler.java:39 | the announcement's fields are never null, so marshal returns |
| LiveStreams.Payload | src/postoffice/daemon/ServerRoutedLiveStreamHandler.java:39-43 | both announcements carry the marshalled (id, requester, partner) |
| LiveStreams.ServerRoutedLiveStreamHandler.constructor | src/postoffice/daemon/ServerRoutedLiveStreamHandler.java:16-37 | participants are [requester, partner], both are awaited, and there are two empty socket slots |
| LiveStreams.ServerRoutedLiveStreamHandler.JoinLiveStream | src/postoffice/daemon/ServerRoutedLiveStreamHandler.java:46-58 | an id not awaited gets UnexpectedParticipant and no change; otherwise it stops being awaited and its socket goes to slot \|awaiting\|-1, and the join that empties the set fails with ArrayIndexOutOfBounds |
| LiveStreams.Deliverable | src/postoffice/daemon/ServerRoutedLiveStreamHandler.java:42-43 | the longest prefix of participants that all have boxes |
| LiveStreams.AnnounceTo | src/postoffice/daemon/ServerRoutedLiveStreamHandler.java:43 | one office letter goes into p's box if p has one, else NonExistentMailbox; no other box or lock changes |
| LiveStreams.Announce | src/postoffice/daemon/ServerRoutedLiveStreamHandler.java:41-43 | each box gains exactly the announcements to the participants before the first one without a box, which fails the loop |
| LiveStreams.Open | src/postoffice/daemon/ServerRoutedLiveStreamHandler.java:29-44 | an unknown partner fails before any letter; otherwise one letter to the requester and then one to the partner, each carrying the marshalled (id, requester, partner) |
| LiveStreams.JoinBoth | src/postoffice/daemon/ServerRoutedLiveStreamHandler.java:46-58 | the first join is told someone is awaited, the second fails at index -1, and a repeated join is unexpected |
| LiveStreams.NeverFalse | src/postoffice/daemon/ServerRoutedLiveStreamHandler.java:46-58 | joinLiveStream never returns false |
| Scripts.FramedOne | src/postoffice/connection/script/CommScript.java:103-107 | a chunk goes out followed by EOL |
| Scripts.FramedAppend | src/postoffice/connection/script/CommScript.java:103-107 | writing two chunk lists in turn equals writing them joined |
| Scripts.FramedLength | src/postoffice/connection/script/CommScript.java:103-107 | the write phase sends the chunks' total length plus one EOL per chunk |
| Scripts.ResponseError | src/postoffice/connection/script/CommScript.java:122-156 | SynchronizationException exactly for ALREADYCONNECTED, SHUTDOWN, REQDATA, REQGRANTED, NOMAIL and INCOMINGMAIL; each other response has its own exception |
| Scripts.ResponseErrorInjective | src/postoffice/connection/script/CommScript.java:122-149 | distinct error responses raise distinct exceptions |
| Scripts.CheckResponse | src/postoffice/connection/script/CommScript.java:117-157 | returns normally exactly when the response is expected; otherwise throws the response's exception |
| Scripts.ReadResponseOfSent | src/postoffice/connection/script/CommScript.java:159-169 | a response the server sends is read back as that response |
| Scripts.ReceivedLetter | src/postoffice/connection/script/CommScript.java:181-206 | with the flipped length field, a received letter has a null recipient, and its only failure is an IOException |
| Scripts.CommScript.constructor | src/postoffice/connection/script/CommScript.java:36-46 | both buffers start empty |
| Scripts.CommScript.AddData | src/postoffice/connection/script/CommScript.java:78-81 | one chunk at the end of the write buffer |
| Scripts.CommScript.AddText | src/postoffice/connection/script/CommScript.java:68-76 | two chunks: the UTF-8 bytes, then a lone EOL |
| Scripts.CommScript.ExecuteWithData | src/postoffice/connection/script/CommScript.java:99-115 | writes every chunk followed by EOL, in order, empties the write buffer, then reads and checks one response |
| Scripts.CommScript.GetResponse | src/postoffice/connection/script/CommScript.java:159-169 | reads one code and decodes it; an unknown code is UnknownResponseException |
| Scripts.CommScript.ClearLetterBuffer | src/postoffice/connection/script/CommScript.java:171-174 | the letter buffer is empty and nothing else changes |
| Scripts.CommScript.GetMessage | src/postoffice/connection/script/CommScript.java:176-179 | removes and returns the oldest buffered letter, or null with no change |
| Scripts.CommScript.ReceiveLetter | src/postoffice/connection/script/CommScript.java:181-206 | decodes one frame from the input: sender, length, the payload only for a positive length, null recipient |
| Scripts.WriteText | src/postoffice/connection/script/CommScript.java:68-107 | a string queued by addData(String) goes out as its bytes followed by three EOLs |
| MailClerks.MailClerk.constructor | src/postoffice/daemon/MailClerk.java:37-46 | no bound box, no name or hash read yet, nothing written |
| MailClerks.MailClerk.Md5Hash | src/postoffice/daemon/MailClerk.java:283-292 | a fresh array holding the digest of the password's UTF-8 bytes; a null password throws NullPointerException |
| MailClerks.MailClerk.Abandon | src/postoffice/daemon/MailClerk.java:249-280 | the IOException handler releases a bound box, swallows a refusal, and ends the session |
| MailClerks.MailClerk.Interrupted | src/postoffice/daemon/MailClerk.java:237-280 | a read timeout is answered COMMTIMEOUT and the clerk serves on; another read failure releases the bound box and ends the session |
| MailClerks.MailClerk.Prompt | src/postoffice/daemon/MailClerk.java:96-100 | one REQDATA, then the line read with the request timeout, or the failure's handling |
| MailClerks.MailClerk.Credentials | src/postoffice/daemon/MailClerk.java:96-100 | two prompts; the name line goes to boxname at once, the password line is hashed into a fresh passwordHash; a null password dies with NullPointerException |
| MailClerks.MailClerk.Checkout | src/postoffice/daemon/MailClerk.java:102-117 | the registry's verdict code is written; only REQGRANTED binds the box, now held by this thread, and no other box changes |
| MailClerks.MailClerk.CheckoutAsWritten | src/postoffice/daemon/MailClerk.java:102-117 | as written: NONEXISTENTBOX for an unknown name and NOAUTH for any array but the stored one, both leaving mb unset and every box unchanged |
| MailClerks.MailClerk.ReqBoxAsWritten | src/postoffice/daemon/MailClerk.java:88-117 | as written, REQBOX with no box bound never binds one: the fresh hash is never the stored array, so a registered name gets NOAUTH and an unknown one NONEXISTENTBOX |
| MailClerks.MailClerk.ReqBox | src/postoffice/daemon/MailClerk.java:88-117 | with a bound box ALREADYCONNECTED and nothing read; otherwise the exchange, then NONEXISTENTBOX, NOAUTH or BOXINUSE leave mb unset, and REQGRANTED binds the checked-out box |
| MailClerks.MailClerk.DisconnectBox | src/postoffice/daemon/MailClerk.java:119-126 | NOBOXCONNECTION without a bound box, else REQGRANTED; the box is neither released nor unbound |
| MailClerks.MailClerk.Register | src/postoffice/daemon/MailClerk.java:135-145 | BOXEXISTS for a registered name; otherwise a new empty unheld box with the digest's bytes, and REQGRANTED |
| MailClerks.MailClerk.CreateBox | src/postoffice/daemon/MailClerk.java:128-145 | the exchange, then the registry's create with the fresh hash, answered BOXEXISTS or REQGRANTED |
| MailClerks.MailClerk.RemoveBox | src/postoffice/daemon/MailClerk.java:147-165 | NOBOXCONNECTION without a bound box; otherwise destroys the box named by the last name read: NONEXISTENTBOX, NOAUTH if this thread does not own its lock, else it is released and unregistered; mb stays bound |
| MailClerks.MailClerk.Disconnect | src/postoffice/daemon/MailClerk.java:167-176 | releases a bound box and REQGRANTED ends the session; a refused release is answered NOAUTH and the clerk serves on |
| MailClerks.MailClerk.ReceiveLetter | src/postoffice/daemon/MailClerk.java:314-339 | one frame naming the recipient; the letter is from the bound box's owner, with a null payload for a length of 0 or less |
| MailClerks.MailClerk.Post | src/postoffice/daemon/MailClerk.java:189-199 | the registry's sendLetter, answered REQGRANTED, DELIVERYFAILURE for an unknown recipient, or nothing when a null recipient kills the thread |
| MailClerks.MailClerk.Deliver | src/postoffice/daemon/MailClerk.java:186-199 | REQDATA, one frame, then the letter from the bound box's owner is posted; a failed read is handled as in Interrupted |
| MailClerks.MailClerk.SendLetter | src/postoffice/daemon/MailClerk.java:178-199 | NOBOXCONNECTION and no change without a bound box |
| MailClerks.MailClerk.PushToSocket | src/postoffice/daemon/MailClerk.java:301-312 | writes the sender's bytes, EOL, the four-byte length and the payload, stopping where a null field throws |
| MailClerks.MailClerk.GetMail | src/postoffice/daemon/MailClerk.java:201-220 | NOBOXCONNECTION without a box; NOMAIL and no pop for an empty inbox; otherwise INCOMINGMAIL, exactly one pop, its frame, then REQGRANTED |
| MailClerks.MailClerk.EmptyBox | src/postoffice/daemon/MailClerk.java:222-232 | NOBOXCONNECTION without a box; REQGRANTED and an empty inbox when this thread is the holder; NOAUTH and no change otherwise |
| MailClerks.MailClerk.Granted | src/postoffice/daemon/MailClerk.java:235 | a request with no case of its own (NEXTLETTER, SATIATED) gets a bare REQGRANTED |
| MailClerks.MailClerk.Step | src/postoffice/daemon/MailClerk.java:67-247 | a failed command read releases the box and ends; a code outside 0..9 gets BADCOMMAND with no state change; a bound box stays bound; a box is newly bound only after this thread checked it out with the right digest |
| MailClerks.MailClerk.Serve | src/postoffice/daemon/MailClerk.java:86-235 | whatever the request, a bound box stays bound, a new binding only follows a checkout with the right digest, and no box appears that is neither old nor new |
| MailClerks.MailClerk.Run | src/postoffice/daemon/MailClerk.java:67-247 | a bound box stays bound; at the end of the stream every pass answers BADCOMMAND and the loop never stops |
| Protocol.RefusalUnderstood | src/postoffice/daemon/MailClerk.java:102-117 | each refusal of the registry's checkout is answered with a code the client turns back into the same exception |
| Protocol.PushedLetterRead | src/postoffice/daemon/MailClerk.java:301-312 | a letter the clerk pushes is read back by the client's getMessage and by the script's receiveLetter with the same sender and payload |
| Protocol.ClerkReadsEmptyBoxName | src/postoffice/daemon/MailClerk.java:71-100 | after the client's REQBOX the clerk reads the box name as "" and takes the identifier as the password line |
| Connections.Request | src/postoffice/connection/PostOfficeConnection.java:337-343 | execute sends the one chunk holding the request's ordinal, then EOL |
| Connections.Response | src/postoffice/connection/PostOfficeConnection.java:402-412 | getResponse fails only with an IOException and consumes the code it reads |
| Connections.Reply | src/postoffice/connection/PostOfficeConnection.java:351-384 | executeWithData succeeds only with an expected response; every failure is an IOException |
| Connections.ReplyOfSent | src/postoffice/connection/PostOfficeConnection.java:368-374 | a sent response is accepted exactly when it is expected |
| Connections.ReplyOfUnknown | src/postoffice/connection/PostOfficeConnection.java:402-412 | a code that names no response is refused whatever is expected |
| Connections.Clamped | src/postoffice/connection/PostOfficeConnection.java:154-155 | the wait time sent is never negative and equals a non-negative one |
| Connections.ReadMailOfSent | src/postoffice/connection/PostOfficeConnection.java:198-208 | a pushed frame is read back by getMessage with its sender and payload, an empty one included |
| Connections.NextRound | src/postoffice/connection/PostOfficeConnection.java:182-235 | a refused letter's sender fails the filter; a returned letter's sender passes it |
| Connections.VerdictAgreesWithScript | src/postoffice/connection/PostOfficeConnection.java:299-317 | only REQGRANTED passes the checkout switch, and each refusal raises the exception checkResponse maps it to |
| Connections.BufferedExtends | src/postoffice/connection/PostOfficeConnection.java:226-233 | a refused letter goes to the tail of its sender's queue and nothing else changes |
| Connections.ReceivingOutcome | src/postoffice/connection/PostOfficeConnection.java:182-235 | the receive loop only appends refused letters to their senders' queues, returns only a letter the filter accepts, and never throws NoMailException |
| Connections.FetchOutcome | src/postoffice/connection/PostOfficeConnection.java:147-236 | getMessage as a whole gives the same guarantees, whatever the wait time |
| Connections.NegativeWaitIsZero | src/postoffice/connection/PostOfficeConnection.java:154-157 | a negative wait time behaves exactly as zero |
| Connections.AnyMessageAfterBuffering | src/postoffice/connection/PostOfficeConnection.java:126-179 | once any letter is buffered, getMessage() fails; after a successful opening it fails with NullPointerException and leaves the buffer as it was |
| Connections.NextRoundOfLetter | src/postoffice/connection/PostOfficeConnection.java:182-235 | a refused sender's letter is handed back for the buffer after NEXTLETTER; an accepted one is followed by SATIATED and its answer |
| Connections.ReceivingTimeout | src/postoffice/connection/PostOfficeConnection.java:184-189 | MAILTIMEOUT ends the wait in MailTimeoutException |
| Connections.ReceivingAccepted | src/postoffice/connection/PostOfficeConnection.java:211-220 | a letter from an accepted sender is returned after SATIATED, with the buffer untouched |
| Connections.ReceivingRefused | src/postoffice/connection/PostOfficeConnection.java:221-234 | a letter from a refused sender is buffered at the tail of its queue in arrival order |
| Connections.FramedText | src/postoffice/connection/PostOfficeConnection.java:360-394 | a string queued by addData(String) goes out as its bytes and three EOLs |
| Connections.CredentialsOfReplies | src/postoffice/connection/PostOfficeConnection.java:294-320 | the identifier with three EOLs, then the digest and EOL, go out; REQGRANTED passes, each refusal raises its exception, anything else is an IOException |
| Connections.CheckoutOfReplies | src/postoffice/connection/PostOfficeConnection.java:289-320 | REQBOX is sent first, then the credentials as above |
| Connections.CheckoutAlreadyConnected | src/postoffice/connection/PostOfficeConnection.java:291-292 | ALREADYCONNECTED throws ExistingMailboxConnection with nothing sent but REQBOX |
| Connections.PostOfficeConnection.constructor | src/postoffice/connection/PostOfficeConnection.java:55-69 | no mailbox held, both buffers empty |
| Connections.PostOfficeConnection.AddData | src/postoffice/connection/PostOfficeConnection.java:396-399 | one chunk at the end of the write buffer |
| Connections.PostOfficeConnection.AddText | src/postoffice/connection/PostOfficeConnection.java:386-394 | the UTF-8 bytes, then a chunk holding a lone EOL |
| Connections.PostOfficeConnection.ExecuteWithData | src/postoffice/connection/PostOfficeConnection.java:351-384 | every chunk then EOL, in order; the buffer emptied; then the response, which must be expected |
| Connections.PostOfficeConnection.GetResponse | src/postoffice/connection/PostOfficeConnection.java:402-412 | reads and decodes one code; an unknown one is an IOException |
| Connections.PostOfficeConnection.Execute | src/postoffice/connection/PostOfficeConnection.java:337-344 | the pending chunks are dropped and only the request's code is sent |
| Connections.PostOfficeConnection.CheckoutMailbox | src/postoffice/connection/PostOfficeConnection.java:289-320 | the held mailbox becomes the identifier exactly when the checkout passes; every other ending leaves it unchanged |
| Connections.PostOfficeConnection.SendCredentials | src/postoffice/connection/PostOfficeConnection.java:294-299 | the credentials exchange, with the held mailbox and the mail buffer untouched |
| Connections.PostOfficeConnection.ReturnMailbox | src/postoffice/connection/PostOfficeConnection.java:322-330 | after REQGRANTED the mail buffer is cleared and no mailbox is held; NOBOXCONNECTION throws MailboxDisconnected and changes neither |
| Connections.PostOfficeConnection.DeleteMailbox | src/postoffice/connection/PostOfficeConnection.java:279-287 | the same bookkeeping for REMOVEBOX |
| Connections.PostOfficeConnection.EmptyMailQueue | src/postoffice/connection/PostOfficeConnection.java:258-264 | the mail buffer is cleared whatever the server answers, NOBOXCONNECTION included |
| Connections.PostOfficeConnection.Open | src/postoffice/connection/PostOfficeConnection.java:149-158 | GETMAIL, then the clamped wait time as four bytes |
| Connections.PostOfficeConnection.ScanBuffer | src/postoffice/connection/PostOfficeConnection.java:165-179 | passes exactly when no buffered sender matches the filter; otherwise NullPointerException |
| Connections.PostOfficeConnection.Round | src/postoffice/connection/PostOfficeConnection.java:182-235 | one pass of the receive loop; a refused letter goes to the tail of its sender's queue |
| Connections.PostOfficeConnection.Receive | src/postoffice/connection/PostOfficeConnection.java:182-235 | the receive loop ends as Receiving says: its result, what it wrote and the buffer it leaves |
| Connections.PostOfficeConnection.Collect | src/postoffice/connection/PostOfficeConnection.java:161-235 | the scan of the buffered senders, then the receive loop |
| Connections.PostOfficeConnection.GetMessage | src/postoffice/connection/PostOfficeConnection.java:147-236 | getMessage(filter, waitTime) ends as Fetch says; by FetchOutcome it only adds refused letters to the buffer and returns only letters the filter accepts |
| Connections.PostOfficeConnection.GetAnyMessage | src/postoffice/connection/PostOfficeConnection.java:126-135 | getMessage() with wait -1, sent as 0; the timeout it then meets is answered with null |

## Left out

- Sockets, `connect`, `disconnect`, `setSoTimeout` and its values: a socket is an input
  transcript and an output byte sequence. A pause longer than the read timeout is a
  `Stall` event, and a failure is a `Broken` event. Where in a write a failure happens
  is not modelled; writes always succeed.
- Streams.ReadLine: the `skipLF` flag a `BufferedReader` keeps between calls is not
  modelled. An LF after a CR is dropped only when it is the very next event. After a
  CR, a pause, then an LF, `readLine` in Java skips the LF, while the model reads it as
  an empty line. The peers in this system end lines with LF alone.
- The read-ahead of a `BufferedReader` over the raw stream is not modelled. Each line
  read stops right after its terminator, so the bytes after it stay available to
  `is.read`.
- The accept loop, `PostOffice.run`, `shutdown`, the ExecutorService and the
  FutureTask machinery of PostMan: these are threading plumbing. `synchronized`, the
  ConcurrentHashMap and the thread identity of ReentrantLock become sequential methods
  that take an explicit caller id.
- The timed `popMessage(timeout, unit)`: it is time-based blocking, and the dispatcher
  does not use it.
- MD5 is a `digest` parameter (a function on bytes). A `java.util.regex` filter is a
  predicate on the sender's name. `UUID.randomUUID` becomes the id given to the
  handler, so `getIdentifier` is simply its field.
- Messages.UuidFromString: it accepts only the canonical 36-character layout, while
  Java's `UUID.fromString` also accepts shorter groups.
- `HashMap` iteration order: the scan of buffered senders depends only on whether some
  sender matches. Because the lookup by matcher always fails, the order does not change
  the outcome.
- Aliasing of payload arrays: a letter's payload is a value, so the fact that
  `Letter` stores the caller's array by reference is not captured.
- `newMessage` and reflection over the message class are modelled by `Mail(sender,
  data)`. The generic message type is not modelled.
- A negative frame length is modelled: the client's `new byte[n]` throws
  NegativeArraySizeException. The OutOfMemoryError a huge length can cause is not
  modelled.
- `CommScript.execute` has no body in the source
  (src/postoffice/connection/script/CommScript.java:63-66), and
  `executeWithData` lacks its catch clause. Only the complete methods and the write
  phase are modelled.
- The client's `sendMessage` and `createMailbox`, `Letter.getPayloadAsString`,
  `PanicButton`, logging, the testing classes, and the live-stream `MES` enum (declared
  but unused) are not modelled.
- Exception classes carry no logic; they are the cases of `Exceptions.Exception`.
- MailClerks.MailClerk.SendLetter: its own contract states only the case without a
  bound box. The case with a bound box is stated by MailClerks.MailClerk.Deliver, which
  it calls.
- MailClerks.MailClerk.Serve: it states the invariants shared by all requests. Each
  request's answer and state change is stated by its handler (ReqBox, CreateBox and so
  on).
- MailClerks.MailClerk.Run: it serves at most `fuel` requests, where the source loops
  forever. Beyond the invariants, it states only the end-of-stream behaviour. Each pass
  is stated by MailClerks.MailClerk.Step.
- MailClerks.MailClerk.Step: a failed command read is modelled with the release that
  the IOException handler performs. Closing the socket is not modelled.

- PostOffices.PostOffice.CheckoutMailbox: it uses the corrected contents comparison
  (`Mailboxes.Mailbox.Checkout`). As written, a checkout through the registry never
  passes; `PostOffices.PostOffice.CheckoutMailboxAsWritten` and
  `PostOffices.NoCheckoutAfterCreate` state that.
- MailClerks.MailClerk.Checkout, MailClerks.MailClerk.ReqBox,
  MailClerks.MailClerk.Step and MailClerks.MailClerk.Serve: they use the corrected
  contents comparison, so REQBOX can be granted and a box bound. As written, REQBOX
  answers NOAUTH for every registered box and `mb` is never set;
  `MailClerks.MailClerk.ReqBoxAsWritten` states that.
- Frames.ReadFrame and Frames.ReadFrameHead: they decode the length field flipped. As
  written, every frame read throws BufferUnderflowException once the name line and the
  four length bytes are read (`Bytes.LengthAsWrittenUnderflows`).
- MailClerks.MailClerk.ReceiveLetter and MailClerks.MailClerk.Deliver: they use the
  flipped length. As written, SENDLETTER ends after REQDATA with
  BufferUnderflowException. The exception is unchecked, and no handler of the clerk's
  loop catches it. The clerk's thread dies (`Died(BufferUnderflow)`), the bound box
  stays held, and the socket is never closed.
- Scripts.ReceivedLetter and Scripts.CommScript.ReceiveLetter: they use the flipped
  length. As written, `receiveLetter` throws BufferUnderflowException, which is not an
  IOException.
- Connections.ReadMail, Connections.NextRound and
  Connections.PostOfficeConnection.GetMessage: they use the flipped length. As written,
  `getMessage` throws BufferUnderflowException to its caller after INCOMINGMAIL.
- Text.FromUtf16 and Text.ReadUtf: an unpaired surrogate is treated as a
  UTFDataFormatException. Java's `readUTF` returns a string holding it, and
  `demarshal` then stores that field. Strings here are sequences of Unicode scalar
  values and cannot hold a lone surrogate, so Messages.LiveStreamMessage.Demarshal
  keeps the old value there.
- Connections.PostOfficeConnection.CheckoutMailbox: the identifier and the password
  are never null in the model. In the source, a null password throws
  NullPointerException in the digest, and a null identifier throws it in
  `addText`. Both happen after REQBOX is sent.
- Scripts.CommScript.AddText: its text is never null. `addData((String) null)` throws
  NullPointerException in the source.
- LiveStreams.Open and LiveStreams.ServerRoutedLiveStreamHandler.constructor: the
  participant ids are never null. A null id in the source fails in the lookup or in
  `writeUTF`.

## Findings

| source | as written | input that shows it | evidently intended | confidence | as-written member | corrected member |
|---|---|---|---|---|---|---|
| src/postoffice/datatypes/Mailbox.java:78 | `this.passwordHash.equals(passwordHash)` compares arrays by identity; the registry stores a copy (PostOffice.java:86) and the clerk hashes into a fresh array (MailClerk.java:100), so no checkout through the server can pass | a box created with digest d, then checked out with another array holding d | compare the contents (`Arrays.equals`) | not executed | Mailboxes.SameBytesOtherArray | Mailboxes.SameBytesAccepted |
| src/postoffice/daemon/MailClerk.java:330 | `ByteBuffer.allocate(4).put(intData).getInt()` reads at position 4 with nothing left, so every frame's length decoding throws BufferUnderflowException (also CommScript.java:197 and PostOfficeConnection.java:205) | any four length bytes, e.g. 00 00 00 05 | `flip()` between `put` and `getInt`, reading the big-endian length | not executed | Bytes.LengthAsWrittenUnderflows | Bytes.LengthRoundTrip |
