/** Small notions that several modules share. */
module Basics {

  type Byte = b: int | 0 <= b < 256

  /** SHA-256 as an injective token. */
  datatype Digest<T> = Sha256(preimage: T)

  predicate NoDuplicates<T(==)>(s: seq<T>) {
    forall i, j :: 0 <= i < j < |s| ==> s[i] != s[j]
  }

  function Gap(a: int, b: int): nat {
    if a < b then b - a else a - b
  }

  function Min(a: int, b: int): int {
    if a < b then a else b
  }

  lemma ScaledUp(m: int, n: int, d: int)
    requires m <= n && d >= 0
    ensures m * d <= n * d
  {
  }
}
