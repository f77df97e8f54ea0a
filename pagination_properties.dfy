/*
 * Properties of the pagination metadata that callers of the CityInfo API rely
 * on: the page count covers every item with as few pages as possible, an empty
 * collection has no pages, exact multiples fill every page, and the page count
 * grows with the item count and shrinks as pages get larger.
 */
module PaginationProperties {
  import opened Pagination

  /** Enough pages: `TotalPageCount` pages of `PageSize` items hold every item. */
  lemma PagesCoverAllItems(totalItemCount: int32, pageSize: int32, currentPage: int32)
    requires pageSize > 0
    ensures NewMetadata(totalItemCount, pageSize, currentPage).totalPageCount as int * pageSize as int
              >= totalItemCount as int
  {
  }

  /**
   * No page too many: any page count `k` that holds every item is at least
   * `TotalPageCount`, and when there is a page, dropping the last one leaves
   * items uncovered.
   */
  lemma PageCountIsLeastCover(totalItemCount: int32, pageSize: int32, currentPage: int32, k: int)
    requires pageSize > 0
    ensures var pages := NewMetadata(totalItemCount, pageSize, currentPage).totalPageCount as int;
            && (k * pageSize as int >= totalItemCount as int ==> k >= pages)
            && (pages > 0 ==> (pages - 1) * pageSize as int < totalItemCount as int)
  {
  }

  /** An empty collection has no pages; a non-empty one has at least one. */
  lemma EmptyCollectionHasNoPages(totalItemCount: int32, pageSize: int32, currentPage: int32)
    requires pageSize > 0
    ensures totalItemCount == 0 ==> NewMetadata(totalItemCount, pageSize, currentPage).totalPageCount == 0
    ensures totalItemCount > 0 <==> NewMetadata(totalItemCount, pageSize, currentPage).totalPageCount >= 1
  {
    var n, d := totalItemCount as int, pageSize as int;
    CeilDivBetweenZeroAndCount(n, d);
  }

  /** When the items fill `k` pages exactly, there are exactly `k` pages. */
  lemma ExactMultipleFillsEveryPage(k: int, pageSize: int32, currentPage: int32)
    requires pageSize > 0
    requires -0x8000_0000 <= k * pageSize as int < 0x8000_0000
    ensures NewMetadata((k * pageSize as int) as int32, pageSize, currentPage).totalPageCount as int == k
  {
  }

  /** For a fixed page size, more items never means fewer pages. */
  lemma PageCountMonotoneInItems(fewer: int32, more: int32, pageSize: int32, currentPage: int32)
    requires pageSize > 0
    requires fewer <= more
    ensures NewMetadata(fewer, pageSize, currentPage).totalPageCount
              <= NewMetadata(more, pageSize, currentPage).totalPageCount
  {
    var pages := NewMetadata(more, pageSize, currentPage).totalPageCount as int;
    PagesCoverAllItems(more, pageSize, currentPage);
    PageCountIsLeastCover(fewer, pageSize, currentPage, pages);
  }

  /** For a fixed, non-negative item count, larger pages never mean more pages. */
  lemma PageCountAntitoneInPageSize(totalItemCount: int32, smaller: int32, larger: int32, currentPage: int32)
    requires 0 < smaller <= larger
    requires totalItemCount >= 0
    ensures NewMetadata(totalItemCount, larger, currentPage).totalPageCount
              <= NewMetadata(totalItemCount, smaller, currentPage).totalPageCount
  {
    var pages := NewMetadata(totalItemCount, smaller, currentPage).totalPageCount as int;
    PagesCoverAllItems(totalItemCount, smaller, currentPage);
    EmptyCollectionHasNoPages(totalItemCount, smaller, currentPage);
    assert pages * larger as int == pages * smaller as int + pages * (larger - smaller) as int;
    ScaleBounds(pages, (larger - smaller) as int + 1);
    assert pages * (larger - smaller) as int >= 0;
    PageCountIsLeastCover(totalItemCount, larger, currentPage, pages);
  }

  /**
   * Reference definition: fill pages one at a time, each taking up to
   * `pageSize` of the remaining items, until none remain.
   */
  ghost function PagesFilledOneByOne(remaining: int, pageSize: int): (pages: nat)
    requires pageSize > 0
    decreases remaining
  {
    if remaining <= 0 then 0 else 1 + PagesFilledOneByOne(remaining - pageSize, pageSize)
  }

  /** The page count equals the number of pages filled one at a time. */
  lemma {:induction false} PageCountMatchesPageByPage(totalItemCount: int32, pageSize: int32, currentPage: int32)
    requires pageSize > 0
    requires totalItemCount >= 0
    ensures NewMetadata(totalItemCount, pageSize, currentPage).totalPageCount as int
              == PagesFilledOneByOne(totalItemCount as int, pageSize as int)
  {
    var n, d := totalItemCount as int, pageSize as int;
    CeilDivMatchesPageByPage(n, d);
  }

  /** Integer ceiling division counts the pages filled one at a time. */
  lemma {:induction false} CeilDivMatchesPageByPage(n: int, d: int)
    requires d > 0
    requires n >= 0
    ensures CeilDiv(n, d) == PagesFilledOneByOne(n, d)
    decreases n
  {
    if n == 0 {
      CeilDivBetweenZeroAndCount(n, d);
    } else if n <= d {
      CeilDivUnique(n, d, 1);
      assert PagesFilledOneByOne(n - d, d) == 0;
    } else {
      var q := CeilDiv(n, d);
      CeilDivMatchesPageByPage(n - d, d);
      assert (q - 2) * d == (q - 1) * d - d;
      assert (q - 1) * d == q * d - d;
      CeilDivUnique(n - d, d, q - 1);
    }
  }

  /** Worked cases: exact fit, one item over, a partly filled last page. */
  lemma ConcretePageCounts()
    ensures NewMetadata(10, 10, 1).totalPageCount == 1
    ensures NewMetadata(11, 10, 2).totalPageCount == 2
    ensures NewMetadata(25, 10, 3).totalPageCount == 3
    ensures NewMetadata(0, 10, 1).totalPageCount == 0
  {
  }

  /** Twenty-two cities, five per page, third page requested. */
  lemma TwentyTwoCitiesScenario()
    ensures NewMetadata(22, 5, 3) == PaginationMetadata(22, 5, 5, 3)
  {
  }

  /** A page past the last is recorded as requested, not clamped. */
  lemma PageBeyondLastIsKept()
    ensures var m := NewMetadata(5, 10, 2);
            m.currentPage == 2 && m.totalPageCount == 1 && m.currentPage > m.totalPageCount
  {
  }
}
