# pagination-window, modelled in Dafny

The library turns a list position into a bounded "pagination window". The inputs are `offset` (the position), `limit` (items per page) and `total` (items in the list). The window is an ordered list of display items:

- a *previous* navigation item;
- page items and ellipsis items, at most seven pages around the current page, with page 1 and the last page always shown;
- a *next* navigation item.

The work happens in three layers, and the model has a module for each:

| module | source | role |
|---|---|---|
| `Items` | `src/createItem.ts` | the item datatype, the page/offset arithmetic, and the item constructors |
| `WindowSelection`, `WindowProperties` | `src/getWindow.ts` | the window bounds (a ±3 buffer, clamped, with slack redistribution), the item sequence, and what it promises |
| `Pagination`, `PaginationProperties` | `src/index.ts` | config validation, `last = max(ceil(total/limit), 1)`, `current = floor(offset/limit) + 1`, and the entry point |
| `Legacy`, `LegacyProperties` | `index.ts` | the older self-contained variant and how it relates to the current one |

There are also two small helper modules. `Wrappers` holds `Option`, which models the source's `null`/`false` results. `Arith` holds integer-division facts.

Some members are helpers and have no row below. `Items.Min` and `Items.Max` are `Math.min`/`Math.max`. `WindowSelection.PageMaker` is the `page` closure of src/getWindow.ts:50. `Legacy.Numbers` places the numbers returned by `range` into the marker array. `WindowProperties.LayoutLength`, `LayoutFront`, `LayoutMiddle` and `LayoutBack` are the four parts of `WindowProperties.Layout`. `Arith.MulLe`, `Arith.DivUnique` and `Arith.DivBounds` are arithmetic facts.

The older variant `index.ts` accepts `offset >= total`, and it does not clamp `current` to `last`. Its `getWindowBounds` (index.ts:45-66) is the same code as the one in `src/getWindow.ts`, so both variants use `WindowSelection.GetWindowBounds`. Its window is built in two steps. First it makes a list of page numbers and ellipsis markers (`Legacy.GetWindow`). Then it maps that list to items. `LegacyProperties.BuildWindowMatches` proves that, for every `current` and every `last >= 1`, the older variant builds the same items as `src/getWindow.ts`, apart from the older variant's extra `isCurrent: false` on ellipsis and navigation items. So the two entry points agree, in the same sense, on every config both accept (`LegacyProperties.AgreesOnCommonConfigs`).

Item keys are a datatype: `PageKey(n)`, `EllipsisKey(Front | Back)`, `NavigationKey(Previous | Next)`. This replaces the strings `page-<n>`, `ellipsis-<position>` and `navigation-<direction>`. The three TypeScript interfaces become one flat `Item` datatype. Its variants share the fields `key` and `isDisabled`. The older variant writes `isCurrent: false` on ellipsis and navigation items; the model states this through `Item.IsCurrent()`, which is false for every variant except `Page`.

For offset 40 of 90 with limit 10 the code computes bounds `[2, 8]`. Pages 2 and 8 are not shown; the ellipses take their places. So the code lists page 1, an ellipsis, pages 3 to 7, an ellipsis, then page 9. The model follows the code (`PaginationProperties.BothEllipsesScenario`).

## Model

| member | source | states |
|---|---|---|
| Items.GetOffset | src/createItem.ts:47 | for `limit >= 1` and page `number >= 1` the offset is non-negative and a multiple of `limit`, and `offset / limit + 1` gives back `number` |
| Items.CreateEllipsisItem | src/createItem.ts:49-55 | an ellipsis is always disabled, is never current, and its key records its position |
| Items.CreatePageItem | src/createItem.ts:57-70 | a page item is never disabled, is current iff its number is `current`, has key `PageKey(number)` and the offset of that page |
| Items.CreatePreviousNavigationItem | src/createItem.ts:72-85 | previous points to a page `>= 1`; it is disabled iff `current <= 1`; when enabled it points to `current - 1`, when disabled to page 1 |
| Items.CreateNextNavigationItem | src/createItem.ts:87-101 | next points to a page `<= last`; it is disabled iff `current >= last`; when enabled it points to `current + 1`, when disabled to `last` |
| WindowSelection.RangeMap | src/getWindow.ts:11-19 | the result has `end - start + 1` elements (none when `start > end`), and element `i` is `func(start + i)` |
| WindowSelection.GetWindowBounds | src/getWindow.ts:21-41 | `1 <= windowFirst <= windowLast <= last`, at most 7 apart, containing the clamped current page `safe`. The case is chosen by the input: `safe - 3 <= 1` gives a window starting at page 1, which ends at `min(8, last)`; otherwise `safe + 3 >= last` gives a window ending at `last`, which starts at `max(last - 7, 1)`; otherwise there is an ellipsis on both sides and the bounds are `[safe - 3, safe + 3]`. These clauses leave one possible result for each input. So `last <= 8` gives `[1, last]`, and otherwise bounds plus ellipses fill exactly 9 slots |
| WindowSelection.GetWindow | src/getWindow.ts:43-67 | the window starts with the previous item and ends with the next item; when `last == 1` it is exactly `[previous, page 1, next]` |
| WindowProperties.Layout | src/getWindow.ts:56-66 | for `last > 1`: the window's length; page 1 at index 1; the front ellipsis at index 2 when `windowFirst > 1`; pages `windowFirst + 1 .. windowLast - 1` in order after that; the back ellipsis at `len - 3` when `windowLast < last`; page `last` at `len - 2` |
| WindowProperties.Slots | src/getWindow.ts:56-66 | every item between the navigation items is either a listed page (page 1 only at index 1, page `last` only at `len - 2`, any other page at its position after `windowFirst`) or an ellipsis at index 2 or `len - 3` |
| WindowProperties.ItemsConform | src/createItem.ts:1-101 | every item of every window has the shape the item interfaces and constructors give it: ellipses disabled and keyed by position, pages keyed by number, navigation items keyed by direction |
| WindowProperties.NavigationAtEnds | src/getWindow.ts:48-66 | only the first and last items are navigation items (previous, then next); everything between is a page or an ellipsis |
| WindowProperties.PagesSpan | src/getWindow.ts:56-64 | the first listed page is page 1, the last listed page is `last`, and every listed page lies in `[1, last]` |
| WindowProperties.PagesIncreasing | src/getWindow.ts:56-66 | page numbers read left to right strictly increase, so no page is listed twice |
| WindowProperties.PageListedIff | src/getWindow.ts:55-64 | page `p` is listed iff it is page 1, page `last`, or strictly between the window bounds |
| WindowProperties.CurrentIsNumbered | src/getWindow.ts:50 | every listed page is marked current exactly when its number is `current` |
| WindowProperties.CurrentPageUnique | src/getWindow.ts:50-64 | some page is current iff `1 <= current <= last`; the current page is numbered `current` and is the only one |
| WindowProperties.EllipsisPlacement | src/getWindow.ts:58-64 | a front ellipsis appears iff `windowFirst > 1`, and only at index 2; a back ellipsis appears iff `windowLast < last`, and only at index `len - 3` |
| WindowProperties.KeysDistinct | src/getWindow.ts:56-66 | no two items of one window share a key |
| WindowProperties.WindowSize | src/getWindow.ts:21-41 | with at most 8 pages, every page `1..last` is listed in order with no ellipsis; with more, exactly 9 page/ellipsis items sit between the navigation items |
| WindowProperties.BoundsMirror | src/getWindow.ts:26-39 | the front and back adjustments are mirror images: reflecting `current` about the middle of `[1, last]` reflects the bounds |
| Pagination.ValidateConfig | src/index.ts:14-31 | a config is accepted iff it is present, `0 <= offset < total` and `limit >= 1`, and it is then returned unchanged |
| Pagination.LastPage | src/index.ts:43 | `last >= 1`; with no items `last == 1`; otherwise `last` is the fewest pages of `limit` items that hold `total` items |
| Pagination.CurrentPage | src/index.ts:44 | `current >= 1`, and `offset` lies in `[(current - 1) * limit, current * limit)` |
| Pagination.GetPaginationWindow | src/index.ts:37-46 | the result is null iff validation fails; otherwise it is the window for the derived `current` and `last` |
| PaginationProperties.TotalZeroIsNull | src/index.ts:26 | a total of zero always gives null |
| PaginationProperties.PagesOnLimitBoundary | src/index.ts:43 | `k * limit` items fill exactly `k` pages, and one more item adds one page |
| PaginationProperties.OffsetRoundTrip | src/createItem.ts:47 | a page's offset maps back to that page; an offset lies within `limit` after the start of its own page |
| PaginationProperties.CurrentWithinLast | src/index.ts:23-44 | for an accepted config `1 <= current <= last` |
| PaginationProperties.NavigationDisabledIff | src/index.ts:43-45 | for an accepted config previous is disabled iff `offset < limit`, and next iff `offset` lies on the last page |
| PaginationProperties.OneCurrentPage | src/index.ts:43-45 | an accepted config's window has exactly one current page, and it is numbered `current` |
| PaginationProperties.BackEllipsisScenario | __tests__/index.test.ts:137-142 | limit 10, total 90, offset 30: 9 items between the navigation items, a page at index 2, the back ellipsis at index `len - 3`, and no front ellipsis |
| PaginationProperties.FrontEllipsisScenario | __tests__/index.test.ts:144-149 | limit 10, total 90, offset 60: 9 items between the navigation items, the front ellipsis at index 2, a page at index `len - 3`, and no back ellipsis |
| PaginationProperties.BothEllipsesScenario | __tests__/index.test.ts:151-156 | limit 10, total 90, offset 40: the whole window is previous, page 1, front ellipsis, pages 3 to 7, back ellipsis, page 9, next |
| PaginationProperties.OnePageScenario | __tests__/index.test.ts:89-105 | 1 item, or exactly 10 items, with limit 10 give exactly previous (disabled), page 1 (current), next (disabled) |
| PaginationProperties.TwoPageScenario | __tests__/index.test.ts:107-115 | 20 items with limit 10 give exactly previous, page 1, page 2, next |
| PaginationProperties.NoEllipsisScenario | __tests__/index.test.ts:127-135 | offset 40 of 50 with limit 10 gives exactly previous, pages 1 to 5 (page 5 current), next; next is disabled, as the test expects |
| Legacy.Range | index.ts:35-43 | the result has `end - start + 1` elements (none when `start > end`), and element `i` is `start + i` |
| Legacy.GetWindow | index.ts:68-80 | the marker list starts with page 1 and ends with page `last`; with one page it is exactly `[1]` |
| Legacy.ValidateConfig | index.ts:83-99 | a config is accepted iff it is present, `offset >= 0`, `limit >= 1` and `total >= 0`; `offset >= total` passes |
| Legacy.ItemFor | index.ts:124-141 | an ellipsis marker gives a disabled ellipsis keyed by its position; a number gives an enabled page, current iff the number is `current`, at that page's offset |
| Legacy.BuildWindow | index.ts:108-151 | the window starts and ends with navigation items; next points to a page `<= last` and is disabled iff `current >= last` |
| Legacy.GetPaginationWindow | index.ts:102-152 | the result is null iff the weaker validation fails; otherwise it is the inline-built window for the unclamped `current` |
| LegacyProperties.MarkerLayout | index.ts:68-80 | for `last > 1`: page 1 first; `"ellipsis-front"` second when `windowFirst > 1`; then pages `windowFirst + 1 .. windowLast - 1` in order; `"ellipsis-back"` second to last when `windowLast < last`; page `last` last |
| LegacyProperties.BuildWindowItems | index.ts:113-150 | the inline navigation items equal those of src/createItem.ts, and the items between them are the markers mapped one by one |
| LegacyProperties.BuildWindowMatches | index.ts:111-151 | for every `current` and `last >= 1`, the older variant's items equal those of `src/getWindow.ts`, apart from its extra `isCurrent: false` on ellipses and navigation items |
| LegacyProperties.AgreesOnCommonConfigs | index.ts:83-112 | every config the current variant accepts gets the same window here; only this variant accepts configs, and exactly those, with `offset >= total` |
| LegacyProperties.PastEndBounds | index.ts:45-66 | a current page past `last` gets the bounds of page `last`, ending at `last` |
| LegacyProperties.TotalZeroOnePage | index.test.ts:44-67 | with total 0 the window is previous, page 1, next; page 1 is current iff `offset < limit`, and next is disabled |
| LegacyProperties.PastEndNotClamped | index.ts:110-146 | when `current > last`, next is disabled and points to `last`, and no page is current |
| LegacyProperties.OffsetAtTotal | index.test.ts:105-112 | an offset equal to a total on a page boundary gives `current == last + 1`; next is disabled at `last` and no page is current |
| LegacyProperties.MarkersIncreasing | index.ts:75-79 | the page numbers among the markers strictly increase |
| LegacyProperties.MarkersFullRange | index.ts:71-74 | the bounds are `[1, last]` exactly when there are at most 8 pages (fewer than a full window), and then the markers are exactly `range(1, last)` |

## Left out

- Runtime type checks are left out: the `typeof` tests, a config that is not an object, and string-valued fields. Dafny's types rule these out. An absent config is modelled as `None`.
- JavaScript number semantics are left out: fractional values, `NaN`, `Infinity`, and floating-point rounding in `Math.ceil`/`Math.floor`. Inputs are unbounded integers. `ceil(total / limit)` is written `(total + limit - 1) / limit`, which is exact for the non-negative values that pass validation.
- Key and direction strings are left out. The template strings become the `Key`, `EllipsisPosition` and `Direction` datatypes. The `type` discriminant becomes the datatype variant.
- The `while` loops of `rangeMap` and `range` are modelled as recursive functions that produce the same sequences.
- Jest snapshot files are not modelled; the scenario lemmas state only the tests' explicit expectations.
- LegacyProperties.BuildWindowMatches: the equality ignores the older variant's extra `isCurrent: false` on ellipsis and navigation items (index.ts:119, 130, 147). The `Item` datatype has that field only on pages, and `Item.IsCurrent()` is false for the other variants. So the two TypeScript arrays are equal apart from that one property.
- LegacyProperties.AgreesOnCommonConfigs: the same caveat applies.
- Idempotence (same config, same window) needs no statement: every member is a pure function.
- WindowSelection.GetWindowBounds: requires `last >= 1`. The source has no guard, but every caller passes `last = max(..., 1)`.
- WindowSelection.GetWindow: requires `last >= 1`, for the same reason.
- Legacy.GetWindow: requires `last >= 1`. The source has no guard, but its caller passes `last = max(..., 1)` (index.ts:109).
- Legacy.BuildWindow: requires `last >= 1`, for the same reason.
- Pagination.LastPage: requires `total >= 0` and `limit >= 1`. It is only evaluated after validation.
- Pagination.CurrentPage: requires `offset >= 0` and `limit >= 1`, for the same reason.
