/** Small helpers shared by every other module. */
module Basics {

  datatype Option<+T> = None | Some(value: T)

  /** The clock of the mapper counts ticks of 100 ns. */
  const SECOND: int := 10_000_000

  function Min(a: int, b: int): int {
    if a <= b then a else b
  }

  function Max(a: int, b: int): int {
    if a <= b then b else a
  }

  function Abs(a: int): int {
    if a < 0 then -a else a
  }

  /** The sequences used as queues here never repeat an element. */
  ghost predicate NoDuplicates<T>(s: seq<T>) {
    forall i, j :: 0 <= i < j < |s| ==> s[i] != s[j]
  }
}
