/** Outcome types in place of the source's `None` results and raised exceptions, and small helpers. */
module Results {
  datatype Option<+T> = None | Some(value: T)

  datatype Result<+T, +E> = Ok(value: T) | Err(error: E)

  function Max(a: int, b: int): int {
    if a < b then b else a
  }

  function Min(a: int, b: int): int {
    if a < b then a else b
  }

  function Repeat<T>(x: T, n: nat): (xs: seq<T>)
    ensures |xs| == n && forall i | 0 <= i < n :: xs[i] == x
  {
    if n == 0 then [] else Repeat(x, n - 1) + [x]
  }

  lemma RepeatMore<T>(xs: seq<T>, x: T, n: nat)
    requires n > 0
    ensures xs + Repeat(x, n - 1) + [x] == xs + Repeat(x, n)
  {
  }
}
