/** Failure values and small facts about sequences shared by the other modules. */
module Prelude {
  datatype Option<+T> = None | Some(value: T)

  datatype Result<+T, +E> = Ok(value: T) | Err(error: E)

  ghost predicate NoDuplicates<T>(s: seq<T>) {
    forall i, j :: 0 <= i < j < |s| ==> s[i] != s[j]
  }

  /** `a` is a prefix of `b` and not `b` itself. */
  predicate ProperPrefix<T(==)>(a: seq<T>, b: seq<T>) {
    a <= b && a != b
  }
}
