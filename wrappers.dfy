/** Optional values and results with an error, used for JavaScript's
    `undefined` and for the exceptions the generator throws. */
module Wrappers {

  /** A value that may be missing: `None` is JavaScript's `undefined`. */
  datatype Option<+T> = None | Some(value: T)

  /** The outcome of an operation that may throw. */
  datatype Result<+T, +E> = Ok(value: T) | Err(error: E)
  {
    predicate IsFailure() { Err? }

    function PropagateFailure<U>(): Result<U, E>
      requires Err?
    {
      Err(error)
    }

    function Extract(): T
      requires Ok?
    {
      value
    }
  }
}

/** The failures a build can end with. */
module Errors {

  datatype BuildError =
    /** A document without the `---` delineator (a TypeError in the source). */
    | MalformedDocument
    /** A date field that `new Date(...).toISOString()` rejects (a RangeError). */
    | InvalidDate(dateText: string)
    /** A homepage article without a published date (a TypeError naming its title). */
    | MissingPublishedDate(title: string)
    /** A file that could not be read. */
    | IOFailure(path: string)
}
