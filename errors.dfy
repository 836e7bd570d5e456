/** The error kinds the customer core raises, and the wrappers that carry
    them in place of Python exceptions. */
module Errors {
  import opened Records

  datatype Error =
    | ValidationError(message: string)       // ValidationError (short name)
    | InvalidEmail(email: string)            // InvalidEmailError
    | InvalidPhone(phone: string)            // InvalidPhoneError
    | EmptyValue(field: string)              // ValueError raised by a setter
    | UnknownCustomerType(tag: Json)         // ValueError for an unknown `type`
    | MissingKey(key: string)                // KeyError from item[...]
    | WrongType(key: string)                 // a stored field of the wrong JSON type
    | UnreadableFile                         // any OSError other than a missing file

  datatype Option<+T> = None | Some(value: T)

  datatype Result<+T> = Ok(value: T) | Err(error: Error) {
    predicate IsFailure() { Err? }

    function PropagateFailure<U>(): Result<U>
      requires Err?
    {
      Err(error)
    }

    function Extract(): T
      requires Ok?
    {
      value
    }
  }

  /** The outcome of an operation that returns nothing but may raise. */
  datatype Outcome = Pass | Fail(error: Error)
}
