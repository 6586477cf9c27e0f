/** The post man: when a letter-producing task completes, the letter is delivered to
    its recipient's box, or bounced back to its sender when the recipient is unknown. */
module PostMen {
  import opened Wrappers
  import opened Exceptions
  import opened Letters
  import opened Mailboxes
  import opened PostOffices

  /** How the task behind the future ended: with a letter, interrupted, or failed. */
  datatype TaskOutcome = Completed(letter: Letter) | Interrupted | ExecutionFailed

  /** The notice sent back to a sender whose letter had no recipient box. */
  function Bounce(sender: Option<string>): (l: Letter)
    ensures l.sender == Some(OfficeAddress) && l.recipient == sender && l.payload == Some([1])
  {
    Letter(Some(OfficeAddress), sender, Some([1]))
  }

  /** The routing rule of done(), over the registered ids: the id of the box that
      receives a letter and the letter it receives, or the exception raised. A null id
      fails inside the map lookup, and so does a bounce to an unregistered sender. */
  function Route(letter: Letter, ids: set<string>): (r: Result<(string, Letter), Exception>)
    ensures r.Success? ==> r.value.0 in ids
    ensures r.Success? ==> r.value.1 == letter || r.value.1 == Bounce(letter.sender)
    ensures r.Failure? ==> r.error == NullPointer
  {
    match letter.recipient
    case None => Failure(NullPointer)
    case Some(to) =>
      if to in ids then Success((to, letter))
      else
        match letter.sender
        case None => Failure(NullPointer)
        case Some(from) =>
          if from in ids then Success((from, Bounce(letter.sender))) else Failure(NullPointer)
  }

  /** A letter whose recipient is registered goes, unchanged, to that recipient. */
  lemma RouteDelivers(letter: Letter, ids: set<string>)
    requires letter.recipient.Some? && letter.recipient.value in ids
    ensures Route(letter, ids) == Success((letter.recipient.value, letter))
  {
  }

  /** A letter whose recipient is unknown turns into a bounce to its registered sender;
      with the sender unknown too, routing fails. */
  lemma RouteBounces(letter: Letter, ids: set<string>)
    requires letter.recipient.Some? && letter.recipient.value !in ids
    ensures letter.sender.Some? && letter.sender.value in ids ==>
              Route(letter, ids) == Success((letter.sender.value, Bounce(letter.sender)))
    ensures letter.sender.None? || letter.sender.value !in ids ==> Route(letter, ids) == Failure(NullPointer)
  {
  }

  /** A bounce is itself deliverable: routing it again puts it in the sender's box, so
      bounces never bounce. */
  lemma BounceIsDeliverable(letter: Letter, ids: set<string>)
    requires Route(letter, ids).Success? && Route(letter, ids).value.1 != letter
    ensures var (to, notice) := Route(letter, ids).value;
            Route(notice, ids) == Success((to, notice))
  {
  }

  /** done(): delivers what Route chooses to exactly that box and changes no other
      inbox; an interrupted or failed task delivers nothing. The registry map is only
      read. */
  method Done(task: TaskOutcome, mailboxes: map<string, Mailbox>) returns (r: Outcome<Exception>)
    modifies mailboxes.Values
    ensures forall b :: b in mailboxes.Values ==> b.lock == old(b.lock) && b.lockHolder == old(b.lockHolder)
    ensures !task.Completed? || Route(task.letter, mailboxes.Keys).Failure? ==>
              forall b :: b in mailboxes.Values ==> b.inbox == old(b.inbox)
    ensures !task.Completed? ==> r == Pass
    ensures task.Completed? && Route(task.letter, mailboxes.Keys).Failure? ==>
              r == Fail(Route(task.letter, mailboxes.Keys).error)
    ensures task.Completed? && Route(task.letter, mailboxes.Keys).Success? ==>
              var (id, l) := Route(task.letter, mailboxes.Keys).value;
              r == Pass && mailboxes[id].inbox == old(mailboxes[id].inbox) + [l]
              && forall b :: b in mailboxes.Values && b != mailboxes[id] ==> b.inbox == old(b.inbox)
  {
    match task
    case Interrupted => r := Pass;
    case ExecutionFailed => r := Pass;
    case Completed(letter) =>
      match letter.recipient
      case None =>
        r := Fail(NullPointer);
      case Some(to) =>
        if to in mailboxes {
          mailboxes[to].Deliver(letter);
          r := Pass;
        } else {
          var notice := Bounce(letter.sender);
          match letter.sender
          case None =>
            r := Fail(NullPointer);
          case Some(from) =>
            if from in mailboxes {
              mailboxes[from].Deliver(notice);
              r := Pass;
            } else {
              r := Fail(NullPointer);
            }
        }
  }
}
