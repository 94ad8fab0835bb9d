// Small shared vocabulary: optional values, the larger of two numbers, lists without repeats.
module Prelude {

  datatype Option<+T> = None | Some(value: T)

  /** The first value there is. */
  function OrElse<T>(first: Option<T>, second: Option<T>): Option<T> {
    if first.Some? then first else second
  }

  function ValueOr<T>(option: Option<T>, default: T): T {
    if option.Some? then option.value else default
  }

  /** The larger of two numbers. */
  function Max(a: int, b: int): int {
    if a < b then b else a
  }

  ghost predicate AllDistinct(xs: seq<nat>) {
    forall i, j :: 0 <= i < j < |xs| ==> xs[i] != xs[j]
  }
}
