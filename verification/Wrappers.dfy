/** What several modules share: optional values, powers of two, and the grouping of concatenations. */
module Wrappers {

  /** The usual Some/None datatype, used for optional values and for the error returns of the source. */
  datatype Option<+T> = None | Some(value: T)

  function Pow2(n: nat): (p: nat)
    ensures p > 0
  {
    if n == 0 then 1 else 2 * Pow2(n - 1)
  }

  lemma Regroup<T>(a: seq<T>, b: seq<T>, c: seq<T>)
    ensures a + b + c == a + (b + c)
  {
  }
}
