/** Shared data model of the bank-account service: the stored event records,
    the error values the core can raise, and the failure-carrying wrappers
    that replace JavaScript's exceptions. */
module Types {

  /** An optional value. */
  datatype Option<+T> = None | Some(value: T)

  /** Everything the core can fail with.
      `AppError` is the service's own error class, carrying the HTTP status it
      is reported with; the other constructors are the raw failures of the
      filesystem and of JSON parsing that the service may catch and replace. */
  datatype Error =
    | AppError(status: int)
    | NotFound          // ENOENT: the directory or file does not exist
    | FileExists        // EEXIST: an exclusive ('wx') write found the file already there
    | ReadFailed        // any other failure while listing or reading a file
    | ParseFailed       // the file's text is not a well-formed event

  /** The outcome of an operation that may throw. */
  datatype Result<+T> = Success(value: T) | Failure(error: Error)

  /** The tagged part of an event, selected by its `type` field.
      `Unrecognised` stands for a stored record whose `type` is none of the
      four tags the projection knows. */
  datatype EventKind =
    | AccountOpened(ownerName: string)
    | UpdateAccount(ownerName: string)
    | MoneyDebited(value: int)
    | MoneyCredited(value: int)
    | Unrecognised(tag: string)

  /** One immutable event of an account's history. `time` is the event's
      timestamp already converted to epoch milliseconds. */
  datatype Event = Event(accountId: string, position: int, time: int, kind: EventKind)
}
