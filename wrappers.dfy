/** Error results for the checks the library performs with Guava's
    Preconditions (IllegalArgumentException) and for Collections.min on an
    empty list (NoSuchElementException). */
module Wrappers {

  datatype Error = IllegalArgument | NoSuchElement

  datatype Result<+T> = Ok(value: T) | Err(error: Error)
}
