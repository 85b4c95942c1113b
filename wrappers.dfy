/** Failure-carrying values shared by the other modules. */
module Wrappers {

  /** A value that may be absent; `None` stands for a C# `null` reference. */
  datatype Option<T> = None | Some(value: T)

  /** The outcome of an operation that throws an argument exception on bad input. */
  datatype Result<R, E> = Success(value: R) | Failure(error: E)
}

/** The fixed-width integer type of the C# program. */
module Numerics {

  /** C#'s `int`: a 32-bit two's-complement integer. */
  newtype int32 = x: int | -0x8000_0000 <= x < 0x8000_0000
}
