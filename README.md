# Pagination metadata of the CityInfo API

The CityInfo API is a demo ASP.NET Core web API for cities and their points of
interest. When it lists a collection page by page, it sends a
`PaginationMetadata` record with the response. The record has four integers:

- the total number of items;
- the total number of pages;
- the page size;
- the current page.

The C# class `CityInfo.API.Services.PaginationMetadata` fills these in with its
primary constructor. Three of the arguments are copied through unchanged. The
page count is `Math.Ceiling` of the item count divided by the page size.

This project models that class in two modules:

- `Pagination` (`pagination.dfy`) holds C#'s `int` as the newtype `int32`, the
  record as the datatype `PaginationMetadata`, and the constructor as the
  function `NewMetadata`. It also defines two things the page count is built on:
  - `Ceiling`, the ceiling of an exact real number, which stands for
    `Math.Ceiling`;
  - `CeilDiv`, exact integer ceiling division, with the lemmas that it equals
    the real ceiling of the quotient and that it stays within the 32-bit range.
- `PaginationProperties` (`pagination_properties.dfy`) proves what callers rely
  on:
  - the pages cover every item, and no smaller page count does;
  - an empty collection has no pages;
  - exact multiples fill every page;
  - the page count grows with the item count and shrinks as the page size
    grows;
  - the result agrees with a reference that fills pages one at a time;
  - the worked cases come out as expected.

The only precondition is `pageSize > 0`. The source does not reject a negative
item count, and the ceiling of the quotient is well defined for one, so the
model covers negative counts as well. The class computes only these four
properties. It has no slice window, and it passes the current page through
unchanged.

## Model

| member | source | states |
|---|---|---|
| `Pagination.NewMetadata` | CityInfo.API/Services/PaginationMetadata.cs:3-9 | The record copies the item count, page size and current page unchanged (the current page is not clamped). The page count is the ceiling of the exact quotient of items by page size, and it fits in a 32-bit `int`. |
| `Pagination.Ceiling` | CityInfo.API/Services/PaginationMetadata.cs:6 | `Math.Ceiling` on an exact value: the result is not below `x` and is less than `x + 1`. |
| `Pagination.CeilDiv` | CityInfo.API/Services/PaginationMetadata.cs:6 | Integer ceiling division: `q` pages of size `d` cover `n` items, and `q - 1` pages do not. |
| `Pagination.CeilDivUnique` | CityInfo.API/Services/PaginationMetadata.cs:6 | Any `k` with `(k - 1) * d < n <= k * d` is exactly the integer ceiling of `n / d`. |
| `Pagination.CeilDivIsRealCeiling` | CityInfo.API/Services/PaginationMetadata.cs:6 | `(n + d - 1) / d` in integer arithmetic equals the ceiling of the exact quotient `n / d`, for every `n` and every `d > 0`. |
| `Pagination.CeilDivBetweenZeroAndCount` | CityInfo.API/Services/PaginationMetadata.cs:6 | For a positive count the page count is between 1 and the count. For a count of zero or less it is between the count and 0. So the `(int)` cast never overflows. |
| `PaginationProperties.PagesCoverAllItems` | CityInfo.API/Services/PaginationMetadata.cs:6 | `TotalPageCount * pageSize >= totalItemCount`. |
| `PaginationProperties.PageCountIsLeastCover` | CityInfo.API/Services/PaginationMetadata.cs:6 | Any page count that covers all items is at least `TotalPageCount`. When `TotalPageCount > 0`, `(TotalPageCount - 1) * pageSize < totalItemCount`. |
| `PaginationProperties.EmptyCollectionHasNoPages` | CityInfo.API/Services/PaginationMetadata.cs:6 | Zero items give zero pages for every positive page size. There are some items exactly when there is at least one page. |
| `PaginationProperties.ExactMultipleFillsEveryPage` | CityInfo.API/Services/PaginationMetadata.cs:6 | `totalItemCount == k * pageSize` gives exactly `k` pages. |
| `PaginationProperties.PageCountMonotoneInItems` | CityInfo.API/Services/PaginationMetadata.cs:6 | For a fixed page size, a larger item count never gives fewer pages. |
| `PaginationProperties.PageCountAntitoneInPageSize` | CityInfo.API/Services/PaginationMetadata.cs:6 | For a fixed non-negative item count, a larger page size never gives more pages. |
| `PaginationProperties.PageCountMatchesPageByPage` | CityInfo.API/Services/PaginationMetadata.cs:6 | For a non-negative item count, the page count equals the number of pages filled one at a time, each taking up to `pageSize` of the remaining items. |
| `PaginationProperties.CeilDivMatchesPageByPage` | CityInfo.API/Services/PaginationMetadata.cs:6 | The same, proved by induction for integer ceiling division. |
| `PaginationProperties.ConcretePageCounts` | CityInfo.API/Services/PaginationMetadata.cs:6 | The cases (10 items, size 10) → 1 page, (11, 10) → 2, (25, 10) → 3 and (0, 10) → 0. |
| `PaginationProperties.TwentyTwoCitiesScenario` | CityInfo.API/Services/PaginationMetadata.cs:3-9 | 22 items, page size 5, page 3 give the record {22 items, 5 pages, size 5, page 3}. |
| `PaginationProperties.PageBeyondLastIsKept` | CityInfo.API/Services/PaginationMetadata.cs:8 | Page 2 of 5 items with page size 10 is recorded as page 2, past the single page. |

## Left out

- NewMetadata: computes the page count with exact arithmetic, not with the `double` division and `Math.Ceiling` of the source (CityInfo.API/Services/PaginationMetadata.cs:6). The two agree on 32-bit inputs. Take `n` and `d` with `|n| <= 2^31` and `1 <= d <= 2^31`. Both convert to `double` exactly, because they are below `2^53`. If the quotient `n / d` is not a whole number, it is at least `1/d` away from the nearest one. The correctly rounded quotient is off by at most `|n| / (d * 2^53) <= 2^-22 / d`, which is less than `1/d`. So rounding cannot reach or cross a whole number, and the ceiling is unchanged. If the quotient is a whole number, a `double` represents it exactly. This argument is not mechanised, because floating point is not modelled.
- NewMetadata: requires `pageSize > 0`, which the source does not check. A zero page size makes the `double` division give an infinity or NaN, and casting that to `int` has no meaningful value. A negative page size is a caller error in the API, and it gives one overflowing case (`-2^31 / -1`). Both are excluded rather than modelled.
- The public setters of the four properties (`{ get; set; }`) are not modelled. Nothing in this class calls them, and the record is treated as an immutable value.
- Serialising the record into a response header, and reading the count and the page from the data store, are done by the web framework and the repository layer. Neither is part of this model.
- The rest of the API is not part of this model: the controllers, the authentication token issuing, file download and upload, mail services, Swagger configuration, seed data, entities and host wiring. These are framework configuration, I/O, or calls into libraries whose code is not shown.
