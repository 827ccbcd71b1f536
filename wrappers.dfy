/** Option and Result: C#'s null and thrown exceptions, as values. */
module Wrappers {

  /** `None` stands for a C# `null` reference. */
  datatype Option<+T> = None | Some(value: T)

  /** `Failure` stands for an exception the source throws, named by its .NET type. */
  datatype Result<+T> = Success(value: T) | Failure(error: string)

  function Max(a: int, b: int): int { if a < b then b else a }

  function Min(a: int, b: int): int { if a < b then a else b }
}
