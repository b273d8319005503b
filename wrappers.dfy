/** Small value types shared by every store in the model. */
module Wrappers {

  /** Swift's `Optional`: `nil` or a wrapped value. */
  datatype Option<+T> = None | Some(value: T)

  /** The outcome of a Swift `throws` function that returns a value:
      the value, or the error it throws. */
  datatype Result<+T, +E> = Success(value: T) | Failure(error: E)

  /** The outcome of a Swift `throws` function that returns nothing:
      it either returns normally or throws `error`. */
  datatype Outcome<+E> = Pass | Fail(error: E)

  /** What a store finds in its backing JSON file when it is created:
      no file at all, a file that does not decode, or a decoded snapshot.
      After a successful write the file holds `Saved` of what was written. */
  datatype Stored<+T> = Missing | Corrupt | Saved(contents: T)
}
