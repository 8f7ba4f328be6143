// Small shared vocabulary: optional values and total preorders.
module Prelude {

  datatype Option<+T> = None | Some(value: T)

  function Max(x: int, y: int): int {
    if x < y then y else x
  }

  function Abs(x: int): nat {
    if x < 0 then -x else x
  }

  function Backwards<T>(s: seq<T>): seq<T> {
    seq(|s|, i requires 0 <= i < |s| => s[|s| - 1 - i])
  }

  // A three-way comparator in Go's sense: only the sign of the answer matters.
  ghost predicate TotalPreorder<T(!new)>(cmp: (T, T) -> int) {
    && (forall x, y :: cmp(x, y) < 0 <==> cmp(y, x) > 0)
    && (forall x, y, z :: cmp(x, y) <= 0 && cmp(y, z) <= 0 ==> cmp(x, z) <= 0)
  }

  // What a constraint says of a version.  Unreadable is not No: the question could not be asked.
  datatype Answer = Yes | No | Unreadable

  function Bool(b: bool): Answer {
    if b then Yes else No
  }
}
