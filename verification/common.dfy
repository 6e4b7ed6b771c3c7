/** Small shared vocabulary: optional values, results, and Swift's 64-bit `Int`. */
module Common {

  /** Swift's `Optional`. */
  datatype Option<+T> = None | Some(value: T)

  /** A value or the reason it could not be produced. */
  datatype Result<+T, +E> = Ok(value: T) | Err(error: E)

  /** Bounds of Swift's `Int` on 64-bit platforms (`Int.min`, `Int.max`). */
  const MinInt64: int := -0x8000_0000_0000_0000
  const MaxInt64: int := 0x7FFF_FFFF_FFFF_FFFF

  /** Swift's `Int`: integers are unbounded in Dafny, so the width is explicit. */
  type Int64 = i: int | -0x8000_0000_0000_0000 <= i <= 0x7FFF_FFFF_FFFF_FFFF

  predicate InInt64Range(i: int) {
    MinInt64 <= i <= MaxInt64
  }

  /** No element occurs twice. */
  predicate Distinct<T(==)>(s: seq<T>) {
    forall i, j :: 0 <= i < j < |s| ==> s[i] != s[j]
  }
}
