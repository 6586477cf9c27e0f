/** The post office's registry of mailboxes, keyed by mailbox id. */
module PostOffices {
  import opened Wrappers
  import opened Exceptions
  import opened Bytes
  import opened Letters
  import opened Mailboxes

  /** The sender name of letters the office itself writes. */
  const OfficeAddress: string := "postoffice.daemon"

  class PostOffice {
    var mailboxes: map<string, Mailbox>

    /** Every box is registered under its owner's name, so distinct ids hold distinct
        boxes. */
    ghost predicate Valid()
      reads this, mailboxes.Values
    {
      forall id :: id in mailboxes ==> mailboxes[id].owner == id && mailboxes[id].Valid()
    }

    constructor ()
      ensures mailboxes == map[] && Valid()
    {
      mailboxes := map[];
    }

    /** isCheckedOut(id): NonExistentMailbox for an unknown id, else the box's status. */
    function IsCheckedOut(id: string): (r: Result<bool, Exception>)
      reads this, mailboxes.Values
      ensures r.Failure? <==> id !in mailboxes
      ensures r.Failure? ==> r.error == NonExistentMailbox
      ensures r.Success? ==> (r.value <==> mailboxes[id].lockHolder.Some?)
    {
      if id !in mailboxes then Failure(NonExistentMailbox)
      else Success(mailboxes[id].IsCheckedOut())
    }

    /** mailboxExists(id). */
    predicate MailboxExists(id: string)
      reads this
      ensures MailboxExists(id) <==> IsCheckedOut(id).Success?
    {
      id in mailboxes
    }

    /** createMailbox: ExistentMailbox and no change for a known id; otherwise one new
        entry, a fresh empty unheld box whose hash is a fresh copy of the given one. */
    method CreateMailbox(id: string, passwordHash: array<byte>) returns (r: Outcome<Exception>)
      requires Valid()
      modifies this
      ensures Valid()
      ensures old(id in mailboxes) ==> r == Fail(ExistentMailbox) && mailboxes == old(mailboxes)
      ensures old(id !in mailboxes) ==>
                r == Pass
                && id in mailboxes && fresh(mailboxes[id])
                && mailboxes == old(mailboxes)[id := mailboxes[id]]
                && fresh(mailboxes[id].passwordHash)
                && mailboxes[id].passwordHash != passwordHash
                && mailboxes[id].passwordHash[..] == passwordHash[..]
                && mailboxes[id].inbox == [] && mailboxes[id].lock == FreeLock
                && mailboxes[id].lockHolder == None
    {
      if id in mailboxes {
        return Fail(ExistentMailbox);
      }
      var copy := new byte[passwordHash.Length](i reads passwordHash =>
                    if 0 <= i < passwordHash.Length then passwordHash[i] else 0);
      var box := new Mailbox(id, copy);
      mailboxes := mailboxes[id := box];
      r := Pass;
    }

    /** destroyMailbox: NonExistentMailbox for an unknown id; otherwise the box is
        released for the caller first, and only when that succeeds is the id removed. */
    method DestroyMailbox(caller: ThreadId, id: string) returns (r: Outcome<Exception>)
      requires Valid()
      modifies this, if id in mailboxes then {mailboxes[id]} else {}
      ensures Valid()
      ensures old(id !in mailboxes) ==> r == Fail(NonExistentMailbox) && mailboxes == old(mailboxes)
      ensures old(id in mailboxes) && old(mailboxes[id].lock.Unlock(caller)).None? ==>
                r == Fail(UnauthorizedAction) && mailboxes == old(mailboxes)
                && unchanged(old(mailboxes[id]))
      ensures old(id in mailboxes) && old(mailboxes[id].lock.Unlock(caller)).Some? ==>
                r == Pass && mailboxes == old(mailboxes) - {id}
                && old(mailboxes[id]).lock == old(mailboxes[id].lock.Unlock(caller)).value
                && old(mailboxes[id]).lockHolder == None
                && old(mailboxes[id]).inbox == old(mailboxes[id].inbox)
    {
      if id !in mailboxes {
        return Fail(NonExistentMailbox);
      }
      var box := mailboxes[id];
      r := box.Release(caller);
      if r.Pass? {
        mailboxes := mailboxes - {id};
      }
    }

    /** checkoutMailbox: NonExistentMailbox for an unknown id; otherwise the box's own
        checkout decides, and on success the box itself is returned. */
    method CheckoutMailbox(caller: ThreadId, id: string, passwordHash: array?<byte>)
      returns (r: Result<Mailbox, Exception>)
      requires Valid()
      modifies if id in mailboxes then {mailboxes[id]} else {}
      ensures Valid()
      ensures mailboxes == old(mailboxes)
      ensures id !in mailboxes ==> r == Failure(NonExistentMailbox)
      ensures id in mailboxes && !mailboxes[id].Accepts(passwordHash) ==>
                r == Failure(UnauthorizedAction) && unchanged(mailboxes[id])
      ensures id in mailboxes && mailboxes[id].Accepts(passwordHash) ==>
                match old(mailboxes[id].lock.TryLock(caller))
                case Some(l) =>
                  r == Success(mailboxes[id]) && mailboxes[id].lock == l
                  && mailboxes[id].lockHolder == Some(caller) && mailboxes[id].inbox == old(mailboxes[id].inbox)
                case None => r == Failure(MailboxInUse) && unchanged(mailboxes[id])
    {
      if id !in mailboxes {
        return Failure(NonExistentMailbox);
      }
      var box := mailboxes[id];
      var o := box.Checkout(caller, passwordHash);
      match o
      case Pass => r := Success(box);
      case Fail(e) => r := Failure(e);
    }

    /** checkoutMailbox as written: the box's own checkout compares the given array
        with the stored one by identity, and the stored one is the registry's private
        copy, so no array a caller holds can match it. */
    method CheckoutMailboxAsWritten(caller: ThreadId, id: string, passwordHash: array?<byte>)
      returns (r: Result<Mailbox, Exception>)
      requires Valid()
      modifies if id in mailboxes then {mailboxes[id]} else {}
      ensures Valid()
      ensures mailboxes == old(mailboxes)
      ensures id !in mailboxes ==> r == Failure(NonExistentMailbox)
      ensures id in mailboxes && passwordHash != mailboxes[id].passwordHash ==>
                r == Failure(UnauthorizedAction) && unchanged(mailboxes[id])
      ensures id in mailboxes && passwordHash == mailboxes[id].passwordHash ==>
                match old(mailboxes[id].lock.TryLock(caller))
                case Some(l) =>
                  r == Success(mailboxes[id]) && mailboxes[id].lock == l
                  && mailboxes[id].lockHolder == Some(caller) && mailboxes[id].inbox == old(mailboxes[id].inbox)
                case None => r == Failure(MailboxInUse) && unchanged(mailboxes[id])
    {
      if id !in mailboxes {
        return Failure(NonExistentMailbox);
      }
      var box := mailboxes[id];
      var o := box.CheckoutAsWritten(caller, passwordHash);
      match o
      case Pass => r := Success(box);
      case Fail(e) => r := Failure(e);
    }

    /** returnMailbox: NonExistentMailbox for an unknown id; otherwise the box's own
        release decides. */
    method ReturnMailbox(caller: ThreadId, id: string) returns (r: Outcome<Exception>)
      requires Valid()
      modifies if id in mailboxes then {mailboxes[id]} else {}
      ensures Valid()
      ensures mailboxes == old(mailboxes)
      ensures id !in mailboxes ==> r == Fail(NonExistentMailbox)
      ensures id in mailboxes ==>
                match old(mailboxes[id].lock.Unlock(caller))
                case None => r == Fail(UnauthorizedAction) && unchanged(mailboxes[id])
                case Some(l) =>
                  r == Pass && mailboxes[id].lock == l && mailboxes[id].lockHolder == None
                  && mailboxes[id].inbox == old(mailboxes[id].inbox)
    {
      if id !in mailboxes {
        return Fail(NonExistentMailbox);
      }
      var box := mailboxes[id];
      r := box.Release(caller);
    }

    /** sendLetter: a null recipient fails inside the map lookup; an unknown one is
        NonExistentMailbox; otherwise the letter is appended to exactly the recipient's
        inbox. */
    method SendLetter(letter: Letter) returns (r: Outcome<Exception>)
      requires Valid()
      modifies if letter.recipient.Some? && letter.recipient.value in mailboxes
               then {mailboxes[letter.recipient.value]} else {}
      ensures Valid()
      ensures mailboxes == old(mailboxes)
      ensures letter.recipient.None? ==> r == Fail(NullPointer)
      ensures letter.recipient.Some? && letter.recipient.value !in mailboxes ==> r == Fail(NonExistentMailbox)
      ensures letter.recipient.Some? && letter.recipient.value in mailboxes ==>
                var box := mailboxes[letter.recipient.value];
                r == Pass && box.inbox == old(box.inbox) + [letter]
                && box.lock == old(box.lock) && box.lockHolder == old(box.lockHolder)
    {
      match letter.recipient
      case None =>
        r := Fail(NullPointer);
      case Some(id) =>
        if id !in mailboxes {
          r := Fail(NonExistentMailbox);
        } else {
          mailboxes[id].Deliver(letter);
          r := Pass;
        }
    }
  }

  /** Registry ids and boxes correspond one to one. */
  lemma RegistryInjective(po: PostOffice, a: string, b: string)
    requires po.Valid() && a in po.mailboxes && b in po.mailboxes
    ensures po.mailboxes[a] == po.mailboxes[b] ==> a == b
  {
  }

  /** The registry keeps a private copy of each password hash; with the contents
      compared, the array the box was created from checks it out, and the box is then
      reported checked out. */
  method CheckoutAfterCreate(caller: ThreadId, id: string, digest: seq<byte>)
    returns (created: Outcome<Exception>, checkout: Outcome<Exception>, checkedOut: Result<bool, Exception>)
    ensures created == Pass
    ensures checkout == Pass
    ensures checkedOut == Success(true)
  {
    var po := new PostOffice();
    var hash := new byte[|digest|](i requires 0 <= i < |digest| => digest[i]);
    created := po.CreateMailbox(id, hash);
    var r := po.CheckoutMailbox(caller, id, hash);
    checkout := match r case Success(_) => Pass case Failure(e) => Fail(e);
    checkedOut := po.IsCheckedOut(id);
  }

  /** As written, nothing checks a box out through the registry: after the box is
      created from `hash`, neither that array nor any other array allocated before the
      creation is the stored copy, so both checkouts are refused and the box stays free. */
  method NoCheckoutAfterCreate(caller: ThreadId, id: string, digest: seq<byte>, earlier: array<byte>)
    returns (created: Outcome<Exception>, withGiven: Result<Mailbox, Exception>,
             withEarlier: Result<Mailbox, Exception>, checkedOut: Result<bool, Exception>)
    ensures created == Pass
    ensures withGiven == Failure(UnauthorizedAction)
    ensures withEarlier == Failure(UnauthorizedAction)
    ensures checkedOut == Success(false)
  {
    var po := new PostOffice();
    var hash := new byte[|digest|](i requires 0 <= i < |digest| => digest[i]);
    created := po.CreateMailbox(id, hash);
    withGiven := po.CheckoutMailboxAsWritten(caller, id, hash);
    withEarlier := po.CheckoutMailboxAsWritten(caller, id, earlier);
    checkedOut := po.IsCheckedOut(id);
  }

  /** Creating an id twice is refused the second time; destroying a box nobody holds is
      refused and the box stays registered. */
  method CreateTwiceDestroyUnheld(caller: ThreadId, id: string)
    returns (second: Outcome<Exception>, destroyed: Outcome<Exception>, stillThere: bool)
    ensures second == Fail(ExistentMailbox)
    ensures destroyed == Fail(UnauthorizedAction)
    ensures stillThere
  {
    var po := new PostOffice();
    var hash := new byte[16];
    var first := po.CreateMailbox(id, hash);
    second := po.CreateMailbox(id, hash);
    destroyed := po.DestroyMailbox(caller, id);
    stillThere := po.MailboxExists(id);
  }
}
