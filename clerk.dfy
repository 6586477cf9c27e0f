/** The server's per-connection worker. It reads one request code at a time from its
    client and answers each with response codes, doing the work on the post office it
    serves. A mailbox it checks out stays bound to it (`mb`). The socket is the `input`
    transcript and the `output` bytes; the running thread is `thread`. */
module MailClerks {
  import opened Wrappers
  import opened Exceptions
  import opened Bytes
  import opened Text
  import opened Streams
  import opened Frames
  import opened CommFlags
  import opened Letters
  import opened Mailboxes
  import opened PostOffices

  /** How one pass of the serving loop ends: on to the next request, the socket closed
      and run() returned, or the thread ended by an exception nothing catches. */
  datatype Status = Serving | Closed | Died(cause: Exception)

  /** The byte os.write(resp.ordinal()) sends. */
  function Code(resp: Resp): seq<byte>
  {
    [RespByte(resp)]
  }

  /** The code REQBOX answers a refused checkout with: BOXINUSE, NONEXISTENTBOX, and
      NOAUTH for any other refusal. */
  function RefusalCode(e: Exception): Resp
  {
    if e == MailboxInUse then BOXINUSE else if e == NonExistentMailbox then NONEXISTENTBOX else NOAUTH
  }

  /** The catch clauses around a request: a read timeout is answered with COMMTIMEOUT
      and the clerk serves on; another IOException ends the session. */
  function Answer(e: ReadError): seq<byte>
  {
    if e == TimedOut then Code(COMMTIMEOUT) else []
  }

  function Ending(e: ReadError): Status
  {
    if e == TimedOut then Serving else Closed
  }

  /** The box's lock after the session's end-of-connection release when `released`
      (one hold freed and the holder cleared, or nothing when the thread does not own
      the lock), and as it was otherwise. */
  ghost predicate LockAfter(box: Mailbox, thread: ThreadId, lock0: ReentrantLock,
                            holder0: Option<ThreadId>, released: bool)
    requires lock0.Valid()
    reads box
  {
    if released && lock0.Unlock(thread).Some? then
      box.lock == lock0.Unlock(thread).value && box.lockHolder == None
    else
      box.lock == lock0 && box.lockHolder == holder0
  }

  /** What pushToSocket writes for a letter, and the exception that stops it: the
      sender's bytes and EOL (a null sender fails first), then, for a non-null payload,
      the frame's length and payload; a null payload fails after the sender line. */
  function PushFrame(letter: Letter): (seq<byte>, Option<Exception>)
  {
    match letter.sender
    case None => ([], Some(NullPointer))
    case Some(s) =>
      match letter.payload
      case None => (Utf8(s) + [EndOfLine], Some(NullPointer))
      case Some(p) => (FrameBytes(s, p), None)
  }

  /** What the credentials exchange of REQBOX and CREATEBOX reads: the name and the
      password lines and the stream after them; or the read that threw, the name line
      when it was the second read that threw, and where the stream picks up. */
  datatype Exchange =
    | Got(name: Option<string>, password: Option<string>, rest: seq<Event>)
    | Broke(error: ReadError, named: Option<Option<string>>, rest: seq<Event>)

  function Exchanged(input: seq<Event>): Exchange
  {
    match ReadLine(input, true)
    case Failure(e) => Broke(e, None, Resume(input))
    case Success((name, rest)) =>
      match ReadLine(rest, true)
      case Failure(e) => Broke(e, Some(name), Resume(rest))
      case Success((password, rest2)) => Got(name, password, rest2)
  }

  /** The REQDATA prompts sent during the exchange: one before each line read. */
  function Prompts(x: Exchange): seq<byte>
  {
    if x.Got? || x.named.Some? then Code(REQDATA) + Code(REQDATA) else Code(REQDATA)
  }

  /** `boxname` after the exchange: the name line, once it has been read. */
  function NameAfter(x: Exchange, before: Option<string>): Option<string>
  {
    match x
    case Got(name, _, _) => name
    case Broke(_, named, _) => if named.Some? then named.value else before
  }

  class MailClerk {
    const po: PostOffice
    const thread: ThreadId
    /** MessageDigest MD5 over the password's UTF-8 bytes. */
    const digest: seq<byte> -> seq<byte>
    var mb: Mailbox?
    var boxname: Option<string>
    var passwordHash: array?<byte>
    var input: seq<Event>
    var output: seq<byte>

    ghost predicate Valid()
      reads this, po, po.mailboxes.Values, mb
    {
      po.Valid() && (mb != null ==> mb.Valid())
    }

    constructor (po: PostOffice, thread: ThreadId, digest: seq<byte> -> seq<byte>, input: seq<Event>)
      requires po.Valid()
      ensures Valid()
      ensures this.po == po && this.thread == thread && this.digest == digest && this.input == input
      ensures mb == null && boxname == None && passwordHash == null && output == []
    {
      this.po := po;
      this.thread := thread;
      this.digest := digest;
      this.input := input;
      mb := null;
      boxname := None;
      passwordHash := null;
      output := [];
    }

    /** md5Hash: a fresh array holding the digest of the password's UTF-8 bytes; a null
        password throws NullPointerException. */
    method Md5Hash(password: Option<string>) returns (r: Result<array<byte>, Exception>)
      ensures password.None? ==> r == Failure(NullPointer)
      ensures password.Some? ==> r.Success? && fresh(r.value) && r.value[..] == digest(Utf8(password.value))
    {
      if password.None? {
        return Failure(NullPointer);
      }
      var d := digest(Utf8(password.value));
      var a := new byte[|d|](i requires 0 <= i < |d| => d[i]);
      r := Success(a);
    }

    /** The IOException handler of run(): the bound box, if any, is released (a refusal
        is swallowed) and the session ends. */
    method Abandon() returns (st: Status)
      requires Valid()
      modifies mb
      ensures Valid()
      ensures st == Closed
      ensures mb != null ==> mb.inbox == old(mb.inbox)
      ensures mb != null ==> LockAfter(mb, thread, old(mb.lock), old(mb.lockHolder), true)
    {
      if mb != null {
        var r := mb.Release(thread);
      }
      st := Closed;
    }

    /** A read inside a request threw. */
    method Interrupted(e: ReadError) returns (st: Status)
      requires Valid()
      modifies this, mb
      ensures Valid()
      ensures st == Ending(e) && output == old(output) + Answer(e)
      ensures input == old(input) && mb == old(mb) && boxname == old(boxname) && passwordHash == old(passwordHash)
      ensures mb != null ==> mb.inbox == old(mb.inbox)
      ensures mb != null ==> LockAfter(mb, thread, old(mb.lock), old(mb.lockHolder), e == Failed)
    {
      if e == TimedOut {
        output := output + Code(COMMTIMEOUT);
        st := Serving;
      } else {
        st := Abandon();
      }
    }

    /** One REQDATA prompt and the line read after it with the request timeout; a read
        that throws is handled as Interrupted and the stream picks up after the pause
        or failure. */
    method Prompt() returns (r: Result<Option<string>, Status>)
      requires Valid()
      modifies this, mb
      ensures Valid() && mb == old(mb) && boxname == old(boxname) && passwordHash == old(passwordHash)
      ensures mb != null ==> mb.inbox == old(mb.inbox)
      ensures match ReadLine(old(input), true)
              case Failure(e) =>
                r == Failure(Ending(e)) && input == Resume(old(input))
                && output == old(output) + Code(REQDATA) + Answer(e)
                && (mb != null ==> LockAfter(mb, thread, old(mb.lock), old(mb.lockHolder), e == Failed))
              case Success((line, rest)) =>
                r == Success(line) && input == rest && output == old(output) + Code(REQDATA)
                && (mb != null ==> unchanged(mb))
    {
      output := output + Code(REQDATA);
      var read := ReadLine(input, true);
      if read.Failure? {
        input := Resume(input);
        var st := Interrupted(read.error);
        return Failure(st);
      }
      input := read.value.1;
      r := Success(read.value.0);
    }

    /** The exchange REQBOX and CREATEBOX share: a prompt for the box name line (kept in
        `boxname` at once), then one for the password line, hashed into `passwordHash`.
        On failure, the status the request ends with. */
    method Credentials() returns (r: Result<array<byte>, Status>)
      requires Valid()
      modifies this, mb
      ensures Valid() && mb == old(mb)
      ensures mb != null ==> mb.inbox == old(mb.inbox)
      ensures var x := Exchanged(old(input));
              input == x.rest && output == old(output) + Prompts(x) + (if x.Broke? then Answer(x.error) else [])
              && boxname == NameAfter(x, old(boxname))
              && (x.Broke? ==>
                    r == Failure(Ending(x.error)) && passwordHash == old(passwordHash)
                    && (mb != null ==> LockAfter(mb, thread, old(mb.lock), old(mb.lockHolder), x.error == Failed)))
              && (x.Got? ==> mb != null ==> unchanged(mb))
              && (x.Got? && x.password.None? ==> r == Failure(Died(NullPointer)) && passwordHash == old(passwordHash))
              && (x.Got? && x.password.Some? ==>
                    r.Success? && fresh(r.value) && passwordHash == r.value
                    && r.value[..] == digest(Utf8(x.password.value)))
    {
      var name := Prompt();
      if name.Failure? {
        r := Failure(name.error);
      } else {
        boxname := name.value;
        var password := Prompt();
        if password.Failure? {
          r := Failure(password.error);
        } else {
          var hash := Md5Hash(password.value);
          if hash.Failure? {
            r := Failure(Died(hash.error));
          } else {
            passwordHash := hash.value;
            r := Success(hash.value);
          }
        }
      }
    }

    /** The registry's answer to a checkout of `id` by this thread with a password
        whose digest is `hash`: NONEXISTENTBOX for an unknown name, NOAUTH for a digest
        other than the stored hash, BOXINUSE for a box whose lock another thread owns,
        and REQGRANTED otherwise. */
    function Verdict(id: string, hash: seq<byte>): Resp
      requires po.Valid()
      reads po, po.mailboxes.Values, set b | b in po.mailboxes.Values :: b.passwordHash
    {
      if id !in po.mailboxes then NONEXISTENTBOX
      else if po.mailboxes[id].passwordHash[..] != hash then NOAUTH
      else if po.mailboxes[id].lock.TryLock(thread).None? then BOXINUSE
      else REQGRANTED
    }

    /** The registry's checkout for REQBOX, its refusals answered with their codes. */
    method Checkout(id: string, hash: array<byte>) returns (st: Status)
      requires Valid() && mb == null
      modifies this, po.mailboxes.Values
      ensures Valid() && po.mailboxes == old(po.mailboxes) && st == Serving
      ensures input == old(input) && boxname == old(boxname) && passwordHash == old(passwordHash)
      ensures var v := old(Verdict(id, hash[..]));
              output == old(output) + Code(v)
              && (v != REQGRANTED ==> mb == null && unchanged(po.mailboxes.Values))
              && (v == REQGRANTED ==>
                    var box := po.mailboxes[id];
                    mb == box && box.lock == old(box.lock).TryLock(thread).value
                    && box.lockHolder == Some(thread) && box.inbox == old(box.inbox)
                    && (forall b :: b in po.mailboxes.Values && b != box ==> unchanged(b)))
    {
      st := Serving;
      var checkout := po.CheckoutMailbox(thread, id, hash);
      match checkout
      case Success(box) =>
        mb := box;
        output := output + Code(REQGRANTED);
      case Failure(e) =>
        output := output + Code(RefusalCode(e));
    }

    /** REQBOX. With a box already bound: ALREADYCONNECTED. Otherwise the credentials
        exchange, then the registry's checkout with the fresh hash, answered with its
        verdict; when granted, the box is bound, now held by this thread. A null
        password or name fails in md5Hash or in the map lookup. */
    method ReqBox() returns (st: Status)
      requires Valid()
      modifies this, po.mailboxes.Values, mb
      ensures Valid()
      ensures po.mailboxes == old(po.mailboxes)
      ensures old(mb) != null ==>
                st == Serving && output == old(output) + Code(ALREADYCONNECTED)
                && input == old(input) && mb == old(mb) && boxname == old(boxname)
                && passwordHash == old(passwordHash) && unchanged(po.mailboxes.Values) && unchanged(mb)
      ensures old(mb) == null ==>
                var x := Exchanged(old(input));
                input == x.rest && boxname == NameAfter(x, old(boxname))
                && (x.Broke? ==>
                      st == Ending(x.error) && output == old(output) + Prompts(x) + Answer(x.error)
                      && mb == null && unchanged(po.mailboxes.Values))
                && (x.Got? && (x.password.None? || x.name.None?) ==>
                      st == Died(NullPointer) && output == old(output) + Prompts(x)
                      && mb == null && unchanged(po.mailboxes.Values))
      ensures old(mb) == null && Exchanged(old(input)).Got? ==>
                var x := Exchanged(old(input));
                x.password.Some? && x.name.Some? ==>
                  var id := x.name.value;
                  var hash := digest(Utf8(x.password.value));
                  var v := old(Verdict(id, hash));
                  passwordHash != null && fresh(passwordHash) && passwordHash[..] == hash
                  && st == Serving && output == old(output) + Prompts(x) + Code(v)
                  && (v != REQGRANTED ==> mb == null && unchanged(po.mailboxes.Values))
                  && (v == REQGRANTED ==>
                        var box := po.mailboxes[id];
                        mb == box && box.lock == old(box.lock).TryLock(thread).value
                        && box.lockHolder == Some(thread) && box.inbox == old(box.inbox)
                        && (forall b :: b in po.mailboxes.Values && b != box ==> unchanged(b)))
    {
      if mb != null {
        output := output + Code(ALREADYCONNECTED);
        st := Serving;
      } else {
        ghost var x := Exchanged(input);
        var credentials := Credentials();
        if credentials.Failure? {
          st := credentials.error;
        } else if boxname.None? {
          st := Died(NullPointer);
        } else {
          ghost var id, hash := boxname.value, digest(Utf8(x.password.value));
          assert credentials.value[..] == hash;
          assert Verdict(id, hash) == old(Verdict(id, hash));
          st := Checkout(boxname.value, credentials.value);
        }
      }
    }

    /** The registry's checkout for REQBOX as written: the hash array is compared with
        the stored one by identity, and only that very array passes. */
    method CheckoutAsWritten(id: string, hash: array<byte>) returns (st: Status)
      requires Valid() && mb == null
      modifies this, po.mailboxes.Values
      ensures Valid() && po.mailboxes == old(po.mailboxes) && st == Serving
      ensures input == old(input) && boxname == old(boxname) && passwordHash == old(passwordHash)
      ensures id !in po.mailboxes ==>
                output == old(output) + Code(NONEXISTENTBOX) && mb == null && unchanged(po.mailboxes.Values)
      ensures id in po.mailboxes && hash != po.mailboxes[id].passwordHash ==>
                output == old(output) + Code(NOAUTH) && mb == null && unchanged(po.mailboxes.Values)
      ensures id in po.mailboxes && hash == po.mailboxes[id].passwordHash ==>
                var box := po.mailboxes[id];
                match old(box.lock.TryLock(thread))
                case None =>
                  output == old(output) + Code(BOXINUSE) && mb == null && unchanged(po.mailboxes.Values)
                case Some(l) =>
                  output == old(output) + Code(REQGRANTED) && mb == box && box.lock == l
                  && box.lockHolder == Some(thread) && box.inbox == old(box.inbox)
                  && (forall b :: b in po.mailboxes.Values && b != box ==> unchanged(b))
    {
      st := Serving;
      var checkout := po.CheckoutMailboxAsWritten(thread, id, hash);
      match checkout
      case Success(box) =>
        mb := box;
        output := output + Code(REQGRANTED);
      case Failure(e) =>
        output := output + Code(RefusalCode(e));
    }

    /** REQBOX as written. The hash the credentials exchange makes is a fresh array, never
        the registry's stored copy, so a registered box is always refused with NOAUTH, an
        unknown one with NONEXISTENTBOX, and no box is ever bound. */
    method ReqBoxAsWritten() returns (st: Status)
      requires Valid()
      modifies this, po.mailboxes.Values, mb
      ensures Valid()
      ensures po.mailboxes == old(po.mailboxes)
      ensures old(mb) != null ==>
                st == Serving && output == old(output) + Code(ALREADYCONNECTED)
                && input == old(input) && mb == old(mb) && boxname == old(boxname)
                && passwordHash == old(passwordHash) && unchanged(po.mailboxes.Values) && unchanged(mb)
      ensures old(mb) == null ==>
                var x := Exchanged(old(input));
                mb == null && unchanged(po.mailboxes.Values)
                && input == x.rest && boxname == NameAfter(x, old(boxname))
                && (x.Broke? ==> st == Ending(x.error) && output == old(output) + Prompts(x) + Answer(x.error))
                && (x.Got? && (x.password.None? || x.name.None?) ==>
                      st == Died(NullPointer) && output == old(output) + Prompts(x))
                && (x.Got? && x.password.Some? && x.name.Some? ==>
                      st == Serving
                      && output == old(output) + Prompts(x)
                                   + Code(if x.name.value in po.mailboxes then NOAUTH else NONEXISTENTBOX))
    {
      if mb != null {
        output := output + Code(ALREADYCONNECTED);
        st := Serving;
      } else {
        var credentials := Credentials();
        if credentials.Failure? {
          st := credentials.error;
        } else if boxname.None? {
          st := Died(NullPointer);
        } else {
          st := CheckoutAsWritten(boxname.value, credentials.value);
        }
      }
    }

    /** DISCONNECTBOX: NOBOXCONNECTION without a bound box, else REQGRANTED; the box is
        neither released nor unbound. */
    method DisconnectBox() returns (st: Status)
      modifies this
      ensures st == Serving
      ensures output == old(output) + Code(if old(mb) == null then NOBOXCONNECTION else REQGRANTED)
      ensures input == old(input) && mb == old(mb) && boxname == old(boxname) && passwordHash == old(passwordHash)
    {
      if mb == null {
        output := output + Code(NOBOXCONNECTION);
      } else {
        output := output + Code(REQGRANTED);
      }
      st := Serving;
    }

    /** The registry's createMailbox for CREATEBOX: BOXEXISTS for a name already
        registered; otherwise a new empty, unheld box whose stored hash holds the bytes
        of `hash`, and REQGRANTED. */
    method Register(id: string, hash: array<byte>) returns (st: Status)
      requires Valid()
      modifies this, po
      ensures Valid() && st == Serving && mb == old(mb)
      ensures input == old(input) && boxname == old(boxname) && passwordHash == old(passwordHash)
      ensures id in old(po.mailboxes) ==>
                output == old(output) + Code(BOXEXISTS) && po.mailboxes == old(po.mailboxes)
      ensures id !in old(po.mailboxes) ==>
                output == old(output) + Code(REQGRANTED)
                && id in po.mailboxes && fresh(po.mailboxes[id])
                && po.mailboxes == old(po.mailboxes)[id := po.mailboxes[id]]
                && po.mailboxes[id].passwordHash[..] == hash[..]
                && po.mailboxes[id].inbox == [] && po.mailboxes[id].lockHolder == None
                && po.mailboxes[id].lock == FreeLock
    {
      var created := po.CreateMailbox(id, hash);
      output := output + Code(if created.Pass? then REQGRANTED else BOXEXISTS);
      st := Serving;
    }

    /** CREATEBOX: the credentials exchange, then the registry's createMailbox with the
        fresh hash: BOXEXISTS for a name already registered, else a new empty, unheld
        box whose stored hash is the password's digest, and REQGRANTED. A bound box is
        not involved, except that it is released when a read fails for good. */
    method CreateBox() returns (st: Status)
      requires Valid()
      modifies this, po, mb
      ensures Valid() && mb == old(mb)
      ensures mb != null ==> mb.inbox == old(mb.inbox)
      ensures var x := Exchanged(old(input));
              input == x.rest && boxname == NameAfter(x, old(boxname))
              && (x.Broke? ==>
                    st == Ending(x.error) && output == old(output) + Prompts(x) + Answer(x.error)
                    && po.mailboxes == old(po.mailboxes)
                    && (mb != null ==> LockAfter(mb, thread, old(mb.lock), old(mb.lockHolder), x.error == Failed)))
              && (x.Got? && (x.password.None? || x.name.None?) ==>
                    st == Died(NullPointer) && output == old(output) + Prompts(x)
                    && po.mailboxes == old(po.mailboxes) && (mb != null ==> unchanged(mb)))
      ensures Exchanged(old(input)).Got? ==>
                var x := Exchanged(old(input));
                x.password.Some? && x.name.Some? ==>
                  var id := x.name.value;
                  var hash := digest(Utf8(x.password.value));
                  passwordHash != null && fresh(passwordHash) && passwordHash[..] == hash
                  && st == Serving && (mb != null ==> unchanged(mb))
                  && (id in old(po.mailboxes) ==>
                        output == old(output) + Prompts(x) + Code(BOXEXISTS)
                        && po.mailboxes == old(po.mailboxes))
                  && (id !in old(po.mailboxes) ==>
                        output == old(output) + Prompts(x) + Code(REQGRANTED)
                        && id in po.mailboxes && fresh(po.mailboxes[id])
                        && po.mailboxes == old(po.mailboxes)[id := po.mailboxes[id]]
                        && po.mailboxes[id].passwordHash[..] == hash
                        && po.mailboxes[id].inbox == [] && po.mailboxes[id].lockHolder == None
                        && po.mailboxes[id].lock == FreeLock)
    {
      var credentials := Credentials();
      if credentials.Failure? {
        return credentials.error;
      }
      if boxname.None? {
        return Died(NullPointer);
      }
      st := Register(boxname.value, credentials.value);
    }

    /** REMOVEBOX: NOBOXCONNECTION without a bound box. Otherwise the registry destroys
        the box named by the last name line read (not necessarily the bound box):
        NONEXISTENTBOX for an unknown name, NOAUTH when this thread does not own its
        lock (nothing changes), else the box is released and unregistered and
        REQGRANTED sent. The bound box stays bound either way. */
    method RemoveBox() returns (st: Status)
      requires Valid()
      modifies this, po, po.mailboxes.Values
      ensures Valid()
      ensures input == old(input) && mb == old(mb) && boxname == old(boxname) && passwordHash == old(passwordHash)
      ensures old(mb) == null ==>
                st == Serving && output == old(output) + Code(NOBOXCONNECTION)
                && po.mailboxes == old(po.mailboxes) && unchanged(po.mailboxes.Values)
      ensures old(mb) != null && boxname.None? ==>
                st == Died(NullPointer) && output == old(output)
                && po.mailboxes == old(po.mailboxes) && unchanged(po.mailboxes.Values)
      ensures old(mb) != null && boxname.Some? && boxname.value !in old(po.mailboxes) ==>
                st == Serving && output == old(output) + Code(NONEXISTENTBOX)
                && po.mailboxes == old(po.mailboxes) && unchanged(po.mailboxes.Values)
      ensures old(mb) != null && boxname.Some? && boxname.value in old(po.mailboxes) ==>
                var box := old(po.mailboxes[boxname.value]);
                match old(box.lock).Unlock(thread)
                case None =>
                  st == Serving && output == old(output) + Code(NOAUTH)
                  && po.mailboxes == old(po.mailboxes) && unchanged(box)
                case Some(l) =>
                  st == Serving && output == old(output) + Code(REQGRANTED)
                  && po.mailboxes == old(po.mailboxes) - {boxname.value}
                  && box.lock == l && box.lockHolder == None && box.inbox == old(box.inbox)
    {
      if mb == null {
        output := output + Code(NOBOXCONNECTION);
        return Serving;
      }
      if boxname.None? {
        return Died(NullPointer);
      }
      var destroyed := po.DestroyMailbox(thread, boxname.value);
      output := output + Code(if destroyed.Pass? then REQGRANTED
                              else if destroyed.error == NonExistentMailbox then NONEXISTENTBOX
                              else NOAUTH);
      st := Serving;
    }

    /** DISCONNECT: the bound box, if any, is released, and REQGRANTED ends the session;
        a release refused (this thread does not own the lock) is answered NOAUTH and the
        clerk serves on. */
    method Disconnect() returns (st: Status)
      requires Valid()
      modifies this, mb
      ensures Valid()
      ensures input == old(input) && mb == old(mb) && boxname == old(boxname) && passwordHash == old(passwordHash)
      ensures old(mb) == null ==> st == Closed && output == old(output) + Code(REQGRANTED)
      ensures old(mb) != null ==>
                mb.inbox == old(mb.inbox)
                && match old(mb.lock).Unlock(thread)
                   case None => st == Serving && output == old(output) + Code(NOAUTH) && unchanged(mb)
                   case Some(l) =>
                     st == Closed && output == old(output) + Code(REQGRANTED)
                     && mb.lock == l && mb.lockHolder == None
    {
      if mb != null {
        var released := mb.Release(thread);
        if released.Fail? {
          output := output + Code(NOAUTH);
          return Serving;
        }
      }
      output := output + Code(REQGRANTED);
      st := Closed;
    }

    /** receiveLetter: one frame naming the recipient, read with the request timeout;
        the letter is from the bound box's owner. */
    method ReceiveLetter() returns (r: Result<Letter, ReadError>)
      requires mb != null
      modifies this
      ensures output == old(output) && mb == old(mb) && boxname == old(boxname) && passwordHash == old(passwordHash)
      ensures ReadFrame(old(input), true).Failure? ==>
                r == Failure(ReadFrame(old(input), true).error) && input == Resume(old(input))
      ensures ReadFrame(old(input), true).Success? ==>
                var f := ReadFrame(old(input), true).value;
                r == Success(Letter(Some(mb.owner), f.0, f.1)) && input == f.2
    {
      var start := input;
      var head := ReadFrameHead(input, true);
      if head.Failure? {
        assert ReadFrame(start, true) == Failure(head.error);
        input := Resume(input);
        return Failure(head.error);
      }
      var (recipient, byteLength, rest) := head.value;
      var messageData: Option<ByteArray> := None;
      if byteLength > 0 {
        var read := ReadArray(rest, byteLength, true);
        if read.Failure? {
          assert ReadFrame(start, true) == Failure(read.error);
          input := Resume(input);
          return Failure(read.error);
        }
        messageData := Some(read.value.0);
        rest := read.value.1;
      }
      assert ReadFrame(start, true) == Success((recipient, messageData, rest));
      input := rest;
      r := Success(Letter(Some(mb.owner), recipient, messageData));
    }

    /** The reply to a sendLetter of `letter`: REQGRANTED when its recipient is
        registered, DELIVERYFAILURE when not, nothing when the recipient is null (the
        map lookup throws). */
    function PostReply(letter: Letter): seq<byte>
      reads po
    {
      match letter.recipient
      case None => []
      case Some(id) => Code(if id in po.mailboxes then REQGRANTED else DELIVERYFAILURE)
    }

    /** The box sendLetter delivers `letter` to: the registered box of its recipient,
        if any. */
    function Addressee(letter: Letter): set<Mailbox>
      reads po
    {
      if letter.recipient.Some? && letter.recipient.value in po.mailboxes
      then {po.mailboxes[letter.recipient.value]} else {}
    }

    /** What the registry's sendLetter leaves behind: with a null recipient the thread
        dies; with an unknown one the clerk serves on; otherwise the letter is appended
        to the recipient's inbox, whose lock is untouched. The registry itself is not
        changed. */
    twostate predicate Posted(letter: Letter, st: Status)
      reads po, Addressee(letter)
    {
      po.mailboxes == old(po.mailboxes)
      && match letter.recipient
         case None => st == Died(NullPointer)
         case Some(id) =>
           if id !in po.mailboxes then st == Serving
           else
             var box := old(po.mailboxes[id]);
             st == Serving && box.inbox == old(box.inbox) + [letter]
             && box.lock == old(box.lock) && box.lockHolder == old(box.lockHolder)
    }

    /** The registry's sendLetter for SENDLETTER, answered with PostReply. */
    method Post(letter: Letter) returns (st: Status)
      requires Valid()
      modifies this, Addressee(letter)
      ensures Valid() && Posted(letter, st)
      ensures input == old(input) && mb == old(mb) && boxname == old(boxname) && passwordHash == old(passwordHash)
      ensures output == old(output) + PostReply(letter)
    {
      var sent := po.SendLetter(letter);
      if sent.Fail? && sent.error == NullPointer {
        return Died(NullPointer);
      }
      output := output + Code(if sent.Pass? then REQGRANTED else DELIVERYFAILURE);
      st := Serving;
    }

    /** SENDLETTER with a bound box: REQDATA, one letter frame from the client naming
        the recipient, and the registry's sendLetter of the letter from the bound box's
        owner (see Post). */
    method Deliver() returns (st: Status)
      requires Valid() && mb != null
      modifies this, po.mailboxes.Values, mb
      ensures Valid()
      ensures po.mailboxes == old(po.mailboxes)
      ensures mb == old(mb) && boxname == old(boxname) && passwordHash == old(passwordHash)
      ensures match ReadFrame(old(input), true)
              case Failure(e) =>
                st == Ending(e) && output == old(output) + Code(REQDATA) + Answer(e)
                && input == Resume(old(input)) && mb.inbox == old(mb.inbox)
                && LockAfter(mb, thread, old(mb.lock), old(mb.lockHolder), e == Failed)
                && unchanged(po.mailboxes.Values - {mb})
              case Success(f) =>
                var letter := Letter(Some(mb.owner), f.0, f.1);
                input == f.2 && output == old(output) + Code(REQDATA) + PostReply(letter)
                && Posted(letter, st) && unchanged(po.mailboxes.Values - Addressee(letter))
                && (mb !in Addressee(letter) ==> unchanged(mb))
    {
      output := output + Code(REQDATA);
      ghost var frame := ReadFrame(input, true);
      var letter := ReceiveLetter();
      assert po.mailboxes == old(po.mailboxes) && unchanged(po.mailboxes.Values) && unchanged(mb);
      if letter.Failure? {
        assert frame.Failure? && frame.error == letter.error;
        ghost var others := po.mailboxes.Values - {mb};
        st := Interrupted(letter.error);
        assert unchanged(others);
        return;
      }
      assert frame.Success? && letter.value == Letter(Some(mb.owner), frame.value.0, frame.value.1);
      st := Post(letter.value);
    }

    /** SENDLETTER: NOBOXCONNECTION without a bound box, else Deliver. */
    method SendLetter() returns (st: Status)
      requires Valid()
      modifies this, po.mailboxes.Values, mb
      ensures Valid()
      ensures po.mailboxes == old(po.mailboxes)
      ensures mb == old(mb) && boxname == old(boxname) && passwordHash == old(passwordHash)
      ensures old(mb) == null ==>
                st == Serving && output == old(output) + Code(NOBOXCONNECTION)
                && input == old(input) && unchanged(po.mailboxes.Values)
    {
      if mb == null {
        output := output + Code(NOBOXCONNECTION);
        return Serving;
      }
      st := Deliver();
    }

    /** pushToSocket: writes the letter's frame, stopping where a null field throws. */
    method PushToSocket(letter: Letter) returns (e: Option<Exception>)
      modifies this
      ensures input == old(input) && mb == old(mb) && boxname == old(boxname) && passwordHash == old(passwordHash)
      ensures output == old(output) + PushFrame(letter).0 && e == PushFrame(letter).1
    {
      match letter.sender
      case None =>
        e := Some(NullPointer);
      case Some(sender) =>
        match letter.payload
        case None =>
          output := output + (Utf8(sender) + [EndOfLine]);
          e := Some(NullPointer);
        case Some(payload) =>
          output := output + FrameBytes(sender, payload);
          e := None;
    }

    /** GETMAIL: NOBOXCONNECTION without a bound box, NOMAIL when its inbox is empty;
        otherwise INCOMINGMAIL, the oldest letter is taken from the inbox and pushed to
        the client, and REQGRANTED follows unless a null sender or payload throws. */
    method GetMail() returns (st: Status)
      modifies this, mb
      ensures input == old(input) && mb == old(mb) && boxname == old(boxname) && passwordHash == old(passwordHash)
      ensures old(mb) == null ==> st == Serving && output == old(output) + Code(NOBOXCONNECTION)
      ensures old(mb) != null && old(mb.inbox) == [] ==>
                st == Serving && output == old(output) + Code(NOMAIL) && unchanged(mb)
      ensures old(mb) != null && old(mb.inbox) != [] ==>
                var frame := PushFrame(old(mb.inbox)[0]);
                mb.inbox == old(mb.inbox)[1..] && mb.lock == old(mb.lock) && mb.lockHolder == old(mb.lockHolder)
                && (frame.1.None? ==>
                      st == Serving && output == old(output) + Code(INCOMINGMAIL) + frame.0 + Code(REQGRANTED))
                && (frame.1.Some? ==>
                      st == Died(frame.1.value) && output == old(output) + Code(INCOMINGMAIL) + frame.0)
    {
      if mb == null {
        output := output + Code(NOBOXCONNECTION);
        return Serving;
      }
      if mb.QueueSize() == 0 {
        output := output + Code(NOMAIL);
        return Serving;
      }
      output := output + Code(INCOMINGMAIL);
      var letter := mb.PopMessage();
      var thrown := PushToSocket(letter.value);
      if thrown.Some? {
        return Died(thrown.value);
      }
      output := output + Code(REQGRANTED);
      st := Serving;
    }

    /** EMPTYBOX: NOBOXCONNECTION without a bound box; otherwise the box is emptied when
        this thread is its recorded holder (REQGRANTED), and NOAUTH answers otherwise. */
    method EmptyBox() returns (st: Status)
      modifies this, mb
      ensures st == Serving
      ensures input == old(input) && mb == old(mb) && boxname == old(boxname) && passwordHash == old(passwordHash)
      ensures old(mb) == null ==> output == old(output) + Code(NOBOXCONNECTION)
      ensures old(mb) != null ==> mb.lock == old(mb.lock) && mb.lockHolder == old(mb.lockHolder)
      ensures old(mb) != null && old(mb.HoldingMailbox(thread)) ==>
                output == old(output) + Code(REQGRANTED) && mb.inbox == []
      ensures old(mb) != null && !old(mb.HoldingMailbox(thread)) ==>
                output == old(output) + Code(NOAUTH) && mb.inbox == old(mb.inbox)
    {
      if mb == null {
        output := output + Code(NOBOXCONNECTION);
        return Serving;
      }
      var emptied := mb.Empty(thread);
      output := output + Code(if emptied.Pass? then REQGRANTED else NOAUTH);
      st := Serving;
    }

    /** A request with no case of its own (NEXTLETTER, SATIATED) is simply granted. */
    method Granted() returns (st: Status)
      modifies this
      ensures st == Serving && output == old(output) + Code(REQGRANTED)
      ensures input == old(input) && mb == old(mb) && boxname == old(boxname) && passwordHash == old(passwordHash)
    {
      output := output + Code(REQGRANTED);
      st := Serving;
    }

    /** One pass of run()'s loop. The request code is read with no timeout (a pause is
        waited out); a failed read ends the session as the IOException handler does; a
        code that is no request is answered BADCOMMAND; a request is served by its
        handler (see Serve). */
    method Step() returns (st: Status)
      requires Valid()
      modifies this, po, po.mailboxes.Values, mb
      ensures Valid()
      ensures ReadByte(old(input), false).Failure? ==>
                st == Closed && output == old(output) && mb == old(mb)
                && (mb != null ==> mb.inbox == old(mb.inbox)
                                   && LockAfter(mb, thread, old(mb.lock), old(mb.lockHolder), true))
      ensures ReadByte(old(input), false).Success? && GetReqByCode(ReadByte(old(input), false).value.0).None? ==>
                st == Serving && output == old(output) + Code(BADCOMMAND)
                && input == ReadByte(old(input), false).value.1
                && mb == old(mb) && boxname == old(boxname) && passwordHash == old(passwordHash)
                && po.mailboxes == old(po.mailboxes) && unchanged(po.mailboxes.Values)
      ensures old(mb) != null ==> mb == old(mb)
      ensures old(mb) == null && mb != null ==>
                mb in old(po.mailboxes.Values) && mb.lockHolder == Some(thread) && mb.Accepts(passwordHash)
      ensures forall b :: b in po.mailboxes.Values ==> b in old(po.mailboxes.Values) || fresh(b)
    {
      var command := ReadByte(input, false);
      if command.Failure? {
        st := Abandon();
        return;
      }
      input := command.value.1;
      var request := GetReqByCode(command.value.0);
      if request.None? {
        output := output + Code(BADCOMMAND);
        return Serving;
      }
      st := Serve(request.value);
    }

    /** The handler of one request. Whatever the request, a bound box stays bound, a box
        is newly bound only when this thread has just checked it out with a password
        whose digest is its stored hash, and every box registered afterwards was
        registered before or is new. */
    method Serve(request: Req) returns (st: Status)
      requires Valid()
      modifies this, po, po.mailboxes.Values, mb
      ensures Valid()
      ensures old(mb) != null ==> mb == old(mb)
      ensures old(mb) == null && mb != null ==>
                mb in old(po.mailboxes.Values) && mb.lockHolder == Some(thread) && mb.Accepts(passwordHash)
      ensures forall b :: b in po.mailboxes.Values ==> b in old(po.mailboxes.Values) || fresh(b)
    {
      if request in {REQBOX, CREATEBOX} {
        st := ServeOpening(request);
      } else if request in {DISCONNECTBOX, REMOVEBOX, DISCONNECT} {
        st := ServeClosing(request);
      } else {
        st := ServeMail(request);
      }
    }

    /** The handlers of the requests that check out or register a box. */
    method ServeOpening(request: Req) returns (st: Status)
      requires Valid() && request in {REQBOX, CREATEBOX}
      modifies this, po, po.mailboxes.Values, mb
      ensures Valid()
      ensures old(mb) != null ==> mb == old(mb)
      ensures old(mb) == null && mb != null ==>
                mb in old(po.mailboxes.Values) && mb.lockHolder == Some(thread) && mb.Accepts(passwordHash)
      ensures forall b :: b in po.mailboxes.Values ==> b in old(po.mailboxes.Values) || fresh(b)
    {
      if request == REQBOX {
        st := ReqBox();
      } else {
        st := CreateBox();
      }
    }

    /** The handlers of the requests that release a box, remove it or end the session. */
    method ServeClosing(request: Req) returns (st: Status)
      requires Valid() && request in {DISCONNECTBOX, REMOVEBOX, DISCONNECT}
      modifies this, po, po.mailboxes.Values, mb
      ensures Valid()
      ensures mb == old(mb)
      ensures forall b :: b in po.mailboxes.Values ==> b in old(po.mailboxes.Values)
    {
      if request == DISCONNECTBOX {
        st := DisconnectBox();
      } else if request == REMOVEBOX {
        st := RemoveBox();
      } else {
        st := Disconnect();
      }
    }

    /** The handlers of the requests about letters. */
    method ServeMail(request: Req) returns (st: Status)
      requires Valid() && request in {SENDLETTER, GETMAIL, EMPTYBOX, NEXTLETTER, SATIATED}
      modifies this, po, po.mailboxes.Values, mb
      ensures Valid()
      ensures old(mb) != null ==> mb == old(mb)
      ensures old(mb) == null ==> mb == null
      ensures forall b :: b in po.mailboxes.Values ==> b in old(po.mailboxes.Values) || fresh(b)
    {
      match request
      case SENDLETTER => st := SendLetter();
      case GETMAIL => st := GetMail();
      case EMPTYBOX => st := EmptyBox();
      case NEXTLETTER => st := Granted();
      case SATIATED => st := Granted();
    }

    /** run()'s loop, for at most `fuel` requests; it stops early when a request ends
        the session or the thread. At the end of the stream read() keeps returning -1,
        which is no request: the clerk answers BADCOMMAND on every pass and never
        stops. */
    method Run(fuel: nat) returns (st: Status)
      requires Valid()
      modifies this, po, po.mailboxes.Values, mb
      ensures Valid()
      ensures old(mb) != null ==> mb == old(mb)
      ensures old(input) == [] ==>
                st == Serving && input == [] && mb == old(mb)
                && output == old(output) + seq(fuel, _ => RespByte(BADCOMMAND))
    {
      st := Serving;
      var n := 0;
      while n < fuel && st == Serving
        invariant Valid()
        invariant 0 <= n <= fuel
        invariant forall b :: b in po.mailboxes.Values ==> b in old(po.mailboxes.Values) || fresh(b)
        invariant mb == null || mb == old(mb) || mb in old(po.mailboxes.Values) || fresh(mb)
        invariant old(mb) != null ==> mb == old(mb)
        invariant old(input) == [] ==>
                    st == Serving && input == [] && mb == old(mb)
                    && output == old(output) + seq(n, _ => RespByte(BADCOMMAND))
        decreases fuel - n
      {
        st := Step();
        n := n + 1;
      }
    }
  }
}
