/** A mailbox: a first-in first-out inbox of letters and an exclusive checkout guarded
    by a reentrant lock. Threads are named by an explicit caller id. */
module Mailboxes {
  import opened Wrappers
  import opened Exceptions
  import opened Bytes
  import opened Letters

  /** The identity of a Java thread, standing in for Thread.currentThread(). */
  type ThreadId = nat

  /** java.util.concurrent.locks.ReentrantLock: the owning thread and its hold count. */
  datatype ReentrantLock = ReentrantLock(owner: Option<ThreadId>, holds: nat) {
    predicate Valid() {
      owner.None? <==> holds == 0
    }

    /** tryLock: succeeds, adding one hold for the caller, when the lock is free or
        already owned by the caller; None when another thread owns it. */
    function TryLock(caller: ThreadId): (r: Option<ReentrantLock>)
      ensures r.Some? <==> owner.None? || owner == Some(caller)
      ensures r.Some? ==> r.value.owner == Some(caller) && r.value.holds == holds + 1
    {
      if owner.None? || owner == Some(caller) then Some(ReentrantLock(Some(caller), holds + 1))
      else None
    }

    /** unlock: by the owner it drops one hold and frees the lock at the last one;
        None for the IllegalMonitorStateException any other caller gets. */
    function Unlock(caller: ThreadId): (r: Option<ReentrantLock>)
      requires Valid()
      ensures r.Some? <==> owner == Some(caller)
      ensures r.Some? ==> r.value.Valid() && r.value.holds == holds - 1
      ensures r.Some? && r.value.holds > 0 ==> r.value.owner == owner
    {
      if owner != Some(caller) then None
      else if holds == 1 then Some(ReentrantLock(None, 0))
      else Some(ReentrantLock(owner, holds - 1))
    }
  }

  const FreeLock := ReentrantLock(None, 0)

  /** Unlocking undoes a successful tryLock by the same thread. */
  lemma UnlockUndoesTryLock(l: ReentrantLock, caller: ThreadId)
    requires l.Valid() && l.TryLock(caller).Some?
    ensures l.TryLock(caller).value.Valid()
    ensures l.TryLock(caller).value.Unlock(caller) == Some(l)
  {
  }

  /** While one thread holds the lock no other thread acquires it. */
  lemma TryLockExcludesOthers(l: ReentrantLock, a: ThreadId, b: ThreadId)
    requires l.TryLock(a).Some? && a != b
    ensures l.TryLock(a).value.TryLock(b).None?
  {
  }

  class Mailbox {
    const owner: string
    const passwordHash: array<byte>
    var inbox: seq<Letter>
    var lock: ReentrantLock
    /** The thread recorded by the last checkout; cleared by every release. */
    var lockHolder: Option<ThreadId>

    ghost predicate Valid()
      reads this
    {
      lock.Valid() && (lockHolder.Some? ==> lockHolder == lock.owner)
    }

    constructor (owner: string, passwordHash: array<byte>)
      ensures this.owner == owner && this.passwordHash == passwordHash
      ensures inbox == [] && lock == FreeLock && lockHolder == None
      ensures Valid()
    {
      this.owner := owner;
      this.passwordHash := passwordHash;
      inbox := [];
      lock := FreeLock;
      lockHolder := None;
    }

    /** popMessage(): removes and returns the oldest letter; None (null) and no change
        when the inbox is empty. */
    method PopMessage() returns (r: Option<Letter>)
      modifies this
      ensures old(inbox) == [] ==> r == None && inbox == []
      ensures old(inbox) != [] ==> r == Some(old(inbox)[0]) && inbox == old(inbox)[1..]
      ensures lock == old(lock) && lockHolder == old(lockHolder)
    {
      if inbox == [] {
        r := None;
      } else {
        r := Some(inbox[0]);
        inbox := inbox[1..];
      }
    }

    /** getQueueSize: the number of letters waiting. */
    function QueueSize(): (n: nat)
      reads this
      ensures n == |inbox|
    {
      |inbox|
    }

    /** deliver: appends the letter at the tail, whoever holds the box. */
    method Deliver(letter: Letter)
      modifies this
      ensures inbox == old(inbox) + [letter]
      ensures lock == old(lock) && lockHolder == old(lockHolder)
    {
      inbox := inbox + [letter];
    }

    /** empty: clears the inbox when the caller is the recorded holder; otherwise
        UnauthorizedAction and no change. */
    method Empty(caller: ThreadId) returns (r: Outcome<Exception>)
      modifies this
      ensures HoldingMailbox(caller) ==> r == Pass && inbox == []
      ensures !HoldingMailbox(caller) ==> r == Fail(UnauthorizedAction) && inbox == old(inbox)
      ensures lock == old(lock) && lockHolder == old(lockHolder)
    {
      if HoldingMailbox(caller) {
        inbox := [];
        r := Pass;
      } else {
        r := Fail(UnauthorizedAction);
      }
    }

    /** checkout as written: the hash must be the very array stored (byte arrays'
        equals is identity), else UnauthorizedAction before the lock is touched; then
        tryLock, recording the caller as holder, or MailboxInUse with no change. */
    method CheckoutAsWritten(caller: ThreadId, hash: array?<byte>) returns (r: Outcome<Exception>)
      requires Valid()
      modifies this
      ensures Valid()
      ensures inbox == old(inbox)
      ensures hash != passwordHash ==> r == Fail(UnauthorizedAction) && unchanged(this)
      ensures hash == passwordHash && old(lock).TryLock(caller).Some? ==>
                r == Pass && lock == old(lock).TryLock(caller).value && lockHolder == Some(caller)
      ensures hash == passwordHash && old(lock).TryLock(caller).None? ==>
                r == Fail(MailboxInUse) && unchanged(this)
    {
      if hash != passwordHash {
        return Fail(UnauthorizedAction);
      }
      match lock.TryLock(caller)
      case Some(l) =>
        lock := l;
        lockHolder := Some(caller);
        r := Pass;
      case None =>
        r := Fail(MailboxInUse);
    }

    /** The password check that checkout evidently intends: a hash with the stored
        hash's bytes (Arrays.equals), whichever array holds them. */
    predicate Accepts(hash: array?<byte>)
      reads passwordHash, hash
    {
      hash != null && hash[..] == passwordHash[..]
    }

    /** checkout, with the password check comparing contents: a hash with other bytes
        (or none) gets UnauthorizedAction before the lock is touched; then tryLock,
        recording the caller as holder, or MailboxInUse with no change. */
    method Checkout(caller: ThreadId, hash: array?<byte>) returns (r: Outcome<Exception>)
      requires Valid()
      modifies this
      ensures Valid()
      ensures inbox == old(inbox)
      ensures !Accepts(hash) ==> r == Fail(UnauthorizedAction) && unchanged(this)
      ensures Accepts(hash) && old(lock).TryLock(caller).Some? ==>
                r == Pass && lock == old(lock).TryLock(caller).value && lockHolder == Some(caller)
      ensures Accepts(hash) && old(lock).TryLock(caller).None? ==>
                r == Fail(MailboxInUse) && unchanged(this)
    {
      if !Accepts(hash) {
        return Fail(UnauthorizedAction);
      }
      match lock.TryLock(caller)
      case Some(l) =>
        lock := l;
        lockHolder := Some(caller);
        r := Pass;
      case None =>
        r := Fail(MailboxInUse);
    }

    /** release: unlock, then clear the holder, even when holds remain; a caller not
        owning the lock gets UnauthorizedAction and nothing changes. */
    method Release(caller: ThreadId) returns (r: Outcome<Exception>)
      requires Valid()
      modifies this
      ensures Valid()
      ensures inbox == old(inbox)
      ensures old(lock).Unlock(caller).None? ==> r == Fail(UnauthorizedAction) && unchanged(this)
      ensures old(lock).Unlock(caller).Some? ==>
                r == Pass && lock == old(lock).Unlock(caller).value && lockHolder == None
    {
      match lock.Unlock(caller)
      case None =>
        r := Fail(UnauthorizedAction);
      case Some(l) =>
        lock := l;
        lockHolder := None;
        r := Pass;
    }

    /** holdingMailbox: the caller is the recorded holder. */
    predicate HoldingMailbox(caller: ThreadId)
      reads this
      ensures Valid() && HoldingMailbox(caller) ==> lock.owner == Some(caller) && lock.holds > 0
    {
      lockHolder == Some(caller)
    }

    /** isCheckedOut: some holder is recorded. */
    predicate IsCheckedOut()
      reads this
      ensures IsCheckedOut() <==> lockHolder.Some? && HoldingMailbox(lockHolder.value)
      ensures forall c :: HoldingMailbox(c) ==> IsCheckedOut()
      ensures Valid() && IsCheckedOut() ==> lock.owner == lockHolder && lock.holds > 0
    {
      lockHolder.Some?
    }
  }

  /** A holder recorded on the box owns its lock. */
  lemma HolderOwnsLock(m: Mailbox, caller: ThreadId)
    requires m.Valid() && m.HoldingMailbox(caller)
    ensures m.lock.owner == Some(caller) && m.lock.holds > 0
  {
  }

  /** Letters come out of a mailbox in the order they were delivered, and an empty
      inbox yields nothing. */
  method DeliveryOrder(x: Letter, y: Letter) returns (first: Option<Letter>, second: Option<Letter>, third: Option<Letter>, size: nat)
    ensures first == Some(x) && second == Some(y) && third == None
    ensures size == 2
  {
    var hash := new byte[0];
    var m := new Mailbox("box", hash);
    m.Deliver(x);
    m.Deliver(y);
    size := m.QueueSize();
    first := m.PopMessage();
    second := m.PopMessage();
    third := m.PopMessage();
  }

  /** A checkout twice by one thread and a single release leave the box reported as
      not checked out, yet the lock is still held: another thread's checkout fails with
      MailboxInUse, and the first thread can no longer empty the box. */
  method ReentrantCheckout(a: ThreadId, b: ThreadId)
    returns (checkedOut: bool, other: Outcome<Exception>, emptied: Outcome<Exception>)
    requires a != b
    ensures !checkedOut
    ensures other == Fail(MailboxInUse)
    ensures emptied == Fail(UnauthorizedAction)
  {
    var hash := new byte[16];
    var m := new Mailbox("box", hash);
    var r1 := m.Checkout(a, hash);
    var r2 := m.Checkout(a, hash);
    var r3 := m.Release(a);
    checkedOut := m.IsCheckedOut();
    other := m.Checkout(b, hash);
    emptied := m.Empty(a);
  }

  /** As written, the password check compares arrays by identity: an array with the
      same bytes as the stored hash is refused. */
  method SameBytesOtherArray(a: ThreadId, digest: seq<byte>) returns (r: Outcome<Exception>, holder: Option<ThreadId>)
    ensures r == Fail(UnauthorizedAction)
    ensures holder == None
  {
    var stored := new byte[|digest|](i requires 0 <= i < |digest| => digest[i]);
    var given := new byte[|digest|](i requires 0 <= i < |digest| => digest[i]);
    var m := new Mailbox("box", stored);
    r := m.CheckoutAsWritten(a, given);
    holder := m.lockHolder;
  }

  /** With the contents compared, the same bytes in another array check the box out;
      other bytes are still refused. */
  method SameBytesAccepted(a: ThreadId, digest: seq<byte>, wrong: seq<byte>)
    returns (refused: Outcome<Exception>, accepted: Outcome<Exception>, holder: Option<ThreadId>)
    requires wrong != digest
    ensures refused == Fail(UnauthorizedAction)
    ensures accepted == Pass
    ensures holder == Some(a)
  {
    var stored := new byte[|digest|](i requires 0 <= i < |digest| => digest[i]);
    var given := new byte[|digest|](i requires 0 <= i < |digest| => digest[i]);
    var bad := new byte[|wrong|](i requires 0 <= i < |wrong| => wrong[i]);
    var m := new Mailbox("box", stored);
    assert bad[..] == wrong && stored[..] == digest;
    refused := m.Checkout(a, bad);
    accepted := m.Checkout(a, given);
    holder := m.lockHolder;
  }
}
