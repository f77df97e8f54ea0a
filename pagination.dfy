/*
 * Pagination metadata of the CityInfo API (namespace CityInfo.API.Services).
 *
 * The C# class is a record of four `int` properties filled in by its primary
 * constructor: three arguments are copied through and the total page count is
 * the ceiling of the item count divided by the page size. The source computes
 * that ceiling with `Math.Ceiling` over `double`; here the reference is the
 * ceiling of the exact rational quotient, and the computation is the exact
 * integer ceiling division, proved equal to it.
 */
module Pagination {

  /** C#'s `int`: a two's-complement 32-bit integer. */
  newtype int32 = x: int | -0x8000_0000 <= x < 0x8000_0000

  /** `Math.Ceiling` on an exact real: the least integer that is not below `x`. */
  ghost function Ceiling(x: real): (c: int)
    ensures x <= c as real < x + 1.0
  {
    if x.Floor as real == x then x.Floor else x.Floor + 1
  }

  /** Integer ceiling division: the least multiple count of `d` that covers `n`. */
  function CeilDiv(n: int, d: int): (q: int)
    requires d > 0
    ensures n <= q * d
    ensures (q - 1) * d < n
  {
    (n + d - 1) / d
  }

  /** The four properties of the C# `PaginationMetadata` class. */
  datatype PaginationMetadata = PaginationMetadata(
    totalItemCount: int32,
    totalPageCount: int32,
    pageSize: int32,
    currentPage: int32)

  /**
   * The primary constructor of `PaginationMetadata`. The page count is the
   * ceiling of the quotient `totalItemCount / pageSize`; it lies between the
   * item count and zero, so the `(int)` cast of the source never overflows.
   * `currentPage` is not clamped to the page count.
   */
  function NewMetadata(totalItemCount: int32, pageSize: int32, currentPage: int32): (m: PaginationMetadata)
    requires pageSize > 0
    ensures m.totalItemCount == totalItemCount
    ensures m.pageSize == pageSize
    ensures m.currentPage == currentPage
    ensures m.totalPageCount as int == Ceiling(totalItemCount as real / pageSize as real)
  {
    var pages := CeilDiv(totalItemCount as int, pageSize as int);
    CeilDivBetweenZeroAndCount(totalItemCount as int, pageSize as int);
    CeilDivIsRealCeiling(totalItemCount as int, pageSize as int);
    PaginationMetadata(totalItemCount, pages as int32, pageSize, currentPage)
  }

  /** The page count lies between 0 and the item count (either sign). */
  lemma CeilDivBetweenZeroAndCount(n: int, d: int)
    requires d > 0
    ensures n > 0 ==> 1 <= CeilDiv(n, d) <= n
    ensures n <= 0 ==> n <= CeilDiv(n, d) <= 0
  {
    var q := CeilDiv(n, d);
    ScaleBounds(q, d);
    ScaleBounds(q - 1, d);
  }

  /** Scaling by a positive factor moves a number away from zero. */
  lemma ScaleBounds(a: int, d: int)
    requires d >= 1
    ensures a >= 0 ==> a * d >= a
    ensures a <= 0 ==> a * d <= a
  {
  }

  /** Integer ceiling division is the only count `k` with `(k - 1) * d < n <= k * d`. */
  lemma CeilDivUnique(n: int, d: int, k: int)
    requires d > 0
    requires (k - 1) * d < n <= k * d
    ensures CeilDiv(n, d) == k
  {
  }

  /** An integer `k` with `k - 1 < x <= k` is the ceiling of `x`. */
  lemma CeilingUnique(x: real, k: int)
    requires (k - 1) as real < x <= k as real
    ensures Ceiling(x) == k
  {
  }

  /** Integer ceiling division agrees with the ceiling of the exact quotient. */
  lemma CeilDivIsRealCeiling(n: int, d: int)
    requires d > 0
    ensures Ceiling(n as real / d as real) == CeilDiv(n, d)
  {
    var q := CeilDiv(n, d);
    var x := n as real / d as real;
    assert x * d as real == n as real;
    assert (q - 1) as real * d as real < n as real <= q as real * d as real;
    CeilingUnique(x, q);
  }
}
