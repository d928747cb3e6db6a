/** The closed error taxonomy of src/lib/errors.ts. */
module Errors {

  /** A `JournalError` is one of exactly four kinds, each carrying a human-readable message. */
  datatype JournalError =
    | EntryNotFound(message: string)
    | InvalidContent(message: string)
    | ValidationError(message: string)
    | UnexpectedDependencyError(message: string)
  {
    /** The `name` discriminator, the string literal that tags each kind. */
    function name(): (n: string)
      ensures n == "EntryNotFound" <==> EntryNotFound?
      ensures n == "InvalidContent" <==> InvalidContent?
      ensures n == "ValidationError" <==> ValidationError?
      ensures n == "UnexpectedDependencyError" <==> UnexpectedDependencyError?
    {
      match this
      case EntryNotFound(_) => "EntryNotFound"
      case InvalidContent(_) => "InvalidContent"
      case ValidationError(_) => "ValidationError"
      case UnexpectedDependencyError(_) => "UnexpectedDependencyError"
    }
  }

  /** Each constructor tags its kind and keeps the message it is given. */
  lemma ConstructorsKeepMessage(m: string)
    ensures EntryNotFound(m).name() == "EntryNotFound" && EntryNotFound(m).message == m
    ensures InvalidContent(m).name() == "InvalidContent" && InvalidContent(m).message == m
    ensures ValidationError(m).name() == "ValidationError" && ValidationError(m).message == m
  {
  }
}
