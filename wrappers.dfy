/** Failure-compatible wrappers: `Option` stands for a Java reference that may be
    null, `Result` and `Outcome` for a call that returns or throws. */
module Wrappers {

  datatype Option<+T> = None | Some(value: T)

  datatype Result<+R, +E> = Success(value: R) | Failure(error: E) {
    predicate IsFailure() { Failure? }

    function PropagateFailure<U>(): Result<U, E>
      requires Failure?
    {
      Failure(error)
    }

    function Extract(): R
      requires Success?
    {
      value
    }
  }

  datatype Outcome<+E> = Pass | Fail(error: E) {
    predicate IsFailure() { Fail? }

    function PropagateFailure(): Outcome<E>
      requires Fail?
    {
      this
    }
  }
}

/** The Java exceptions the core throws, catches or lets escape: one constructor per
    class of postoffice.exception, plus the library exceptions the code runs into. */
module Exceptions {

  datatype Exception =
    // postoffice.exception.mailbox
    | UnauthorizedAction
    | MailboxInUse
    | NonExistentMailbox
    | ExistentMailbox
    | ExistingMailboxConnection
    | MailboxDisconnected
    | NoMail
    // postoffice.exception.comm
    | UnknownRequest
    | UnknownResponse
    | Synchronization
    | DeliveryFailure
    | MailTimeout
    | CommunicationFailure
    // postoffice.exception.livestream
    | UnexpectedParticipant
    // java.io.IOException and its subclasses (EOFException, UTFDataFormatException)
    | IOError
    // unchecked exceptions of java.lang and java.nio
    | NullPointer
    | ArrayIndexOutOfBounds
    | NegativeArraySize
    | BufferUnderflow
    | BufferOverflow
    | IllegalArgument
}
