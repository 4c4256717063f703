/**
 * The older, self-contained variant (index.ts). It accepts `offset >= total`
 * and does not clamp the current page to the last one. Its window selection
 * first produces page numbers and ellipsis markers, then maps them to items.
 * Its `getWindowBounds` (index.ts:45-66) is the same code as the one in
 * src/getWindow.ts and is `WindowSelection.GetWindowBounds` here.
 */
module Legacy {

  import opened Wrappers
  import opened Items
  import WindowSelection
  import Pagination

  /** An element of the `(number | string)[]` array: a page number or `"ellipsis-front"`/`"ellipsis-back"`. */
  datatype Marker = Number(n: int) | Text(position: EllipsisPosition)

  /** `[start, start + 1, ..., end]`, empty when `start > end`. */
  function Range(start: int, end: int): (r: seq<int>)
    ensures |r| == if start <= end then end - start + 1 else 0
    ensures forall i :: 0 <= i < |r| ==> r[i] == start + i
    decreases end - start
  {
    if start > end then [] else [start] + Range(start + 1, end)
  }

  /** The numbers of `range(...)` placed into the marker array. */
  function Numbers(ns: seq<int>): (ms: seq<Marker>)
    ensures |ms| == |ns| && forall i :: 0 <= i < |ns| ==> ms[i] == Number(ns[i])
  {
    seq(|ns|, i requires 0 <= i < |ns| => Number(ns[i]))
  }

  /** Page numbers and ellipsis markers of the window, before items are built. */
  function GetWindow(current: int, last: int): (ms: seq<Marker>)
    requires last >= First
    ensures |ms| >= 1 && ms[0] == Number(First) && ms[|ms| - 1] == Number(last)
    ensures last == First ==> ms == [Number(First)]
  {
    var b := WindowSelection.GetWindowBounds(current, last);
    if b.windowFirst == First && b.windowLast == last then
      // Fewer pages than a full window: no ellipses.
      Numbers(Range(b.windowFirst, b.windowLast))
    else
      (if b.windowFirst > First then [Number(First), Text(Front)] else [Number(b.windowFirst)])
      + Numbers(Range(b.windowFirst + 1, b.windowLast - 1))
      + (if b.windowLast < last then [Text(Back), Number(last)] else [Number(b.windowLast)])
  }

  /** `null` for an absent config or a negative offset, a limit below 1 or a negative total; `offset >= total` passes. */
  function ValidateConfig(config: Option<Pagination.Config>): (r: Option<Pagination.Config>)
    ensures r.Some? <==>
      && config.Some?
      && config.value.offset >= 0
      && config.value.limit >= 1
      && config.value.total >= 0
    ensures r.Some? ==> r == config
  {
    match config
    case None => None
    case Some(c) =>
      if c.offset < 0 || c.limit < 1 || c.total < 0 then None else config
  }

  /** The item for one marker: an always-disabled ellipsis, or a page that is current when its number is `current`. */
  function ItemFor(limit: int, current: int, m: Marker): (item: Item)
    ensures !item.Navigation?
    ensures m.Text? ==> item.Ellipsis? && item.isDisabled && item.key == EllipsisKey(m.position)
    ensures m.Number? ==> item.Page? && !item.isDisabled && item.key == PageKey(m.n) && item.number == m.n
    ensures m.Number? ==> (item.IsCurrent() <==> m.n == current) && item.offset == GetOffset(limit, m.n)
  {
    match m
    case Text(position) => Ellipsis(EllipsisKey(position), true)
    case Number(n) => Page(PageKey(n), false, n, GetOffset(limit, n), n == current)
  }

  /** The window built inline by `getPaginationWindow` once the config is accepted. */
  function BuildWindow(limit: int, current: int, last: int): (w: seq<Item>)
    requires last >= First
    ensures |w| >= 3 && w[0].Navigation? && w[|w| - 1].Navigation?
    ensures w[|w| - 1].isDisabled <==> current >= last
    ensures w[|w| - 1].number <= last
  {
    var previous := Max(current - 1, First);
    var next := Min(current + 1, last);
    var markers := GetWindow(current, last);
    [Navigation(NavigationKey(Previous), current <= First, Previous, previous, GetOffset(limit, previous))]
    + seq(|markers|, i requires 0 <= i < |markers| => ItemFor(limit, current, markers[i]))
    + [Navigation(NavigationKey(Next), current >= last, Next, next, GetOffset(limit, next))]
  }

  /** The window of an accepted config, `None` otherwise; `current` is not clamped to `last`. */
  function GetPaginationWindow(config: Option<Pagination.Config>): (r: Option<seq<Item>>)
    ensures r.None? <==> ValidateConfig(config).None?
    ensures r.Some? ==>
      var c := config.value;
      r.value == BuildWindow(c.limit, Pagination.CurrentPage(c.offset, c.limit), Pagination.LastPage(c.total, c.limit))
  {
    match ValidateConfig(config)
    case None => None
    case Some(c) =>
      var last := Pagination.LastPage(c.total, c.limit);
      var current := Pagination.CurrentPage(c.offset, c.limit);
      Some(BuildWindow(c.limit, current, last))
  }
}

/** How the older variant relates to src/index.ts, and what it does past the end of the list. */
module LegacyProperties {

  import opened Wrappers
  import opened Items
  import opened Legacy
  import WindowSelection
  import WindowProperties
  import Pagination
  import PaginationProperties

  /** Where each marker sits when there is more than one page; mirrors `WindowProperties.Layout`. */
  lemma MarkerLayout(current: int, last: int)
    requires last > First
    ensures var ms := GetWindow(current, last);
      var b := WindowSelection.GetWindowBounds(current, last);
      var front := if b.windowFirst > First then 2 else 1;
      var back := if b.windowLast < last then 2 else 1;
      && |ms| == front + (b.windowLast - b.windowFirst - 1) + back
      && ms[0] == Number(First)
      && (front == 2 ==> ms[1] == Text(Front))
      && (forall k :: front <= k < |ms| - back ==> ms[k] == Number(b.windowFirst + k - front + 1))
      && (back == 2 ==> ms[|ms| - 2] == Text(Back))
      && ms[|ms| - 1] == Number(last)
  {
  }

  /**
   * For every current page and every `last >= 1` the older variant builds the
   * same items as src/getWindow.ts: same pages, same ellipsis keys, same
   * navigation items.
   */
  lemma {:induction false} BuildWindowMatches(limit: int, current: int, last: int)
    requires last >= First
    ensures BuildWindow(limit, current, last) == WindowSelection.GetWindow(limit, current, last)
  {
    var w := WindowSelection.GetWindow(limit, current, last);
    var v := BuildWindow(limit, current, last);
    var ms := GetWindow(current, last);
    BuildWindowItems(limit, current, last);
    if last == First {
      assert ms == [Number(First)];
    } else {
      var b := WindowSelection.GetWindowBounds(current, last);
      var front := if b.windowFirst > First then 2 else 1;
      var back := if b.windowLast < last then 2 else 1;
      WindowProperties.Layout(limit, current, last);
      MarkerLayout(current, last);
      assert |v| == |w|;
      forall i | 0 < i < |v| - 1
        ensures v[i] == w[i]
      {
        if i == 1 {
        } else if front == 2 && i == 2 {
        } else if i == |v| - 2 {
        } else if back == 2 && i == |v| - 3 {
        } else {
          assert ms[i - 1] == Number(b.windowFirst + i - front);
        }
      }
    }
  }

  /** The inline navigation items are those of src/createItem.ts, and the items between them are the markers mapped one by one. */
  lemma BuildWindowItems(limit: int, current: int, last: int)
    requires last >= First
    ensures var v := BuildWindow(limit, current, last);
      var ms := GetWindow(current, last);
      && |v| == |ms| + 2
      && v[0] == CreatePreviousNavigationItem(limit, current)
      && v[|v| - 1] == CreateNextNavigationItem(limit, current, last)
      && forall i :: 0 < i < |v| - 1 ==> v[i] == ItemFor(limit, current, ms[i - 1])
  {
  }

  /**
   * Every config src/index.ts accepts is accepted here and gets the same
   * window; the configs only this variant accepts are exactly those with
   * `offset >= total`.
   */
  lemma {:induction false} AgreesOnCommonConfigs(config: Option<Pagination.Config>)
    ensures Pagination.GetPaginationWindow(config).Some? ==>
      GetPaginationWindow(config) == Pagination.GetPaginationWindow(config)
    ensures GetPaginationWindow(config).Some? && Pagination.GetPaginationWindow(config).None?
      <==> GetPaginationWindow(config).Some? && config.value.offset >= config.value.total
  {
    if Pagination.GetPaginationWindow(config).Some? {
      var c := config.value;
      BuildWindowMatches(c.limit, Pagination.CurrentPage(c.offset, c.limit), Pagination.LastPage(c.total, c.limit));
    }
  }

  /** Bounds depend on a past-the-end current page only through the clamp: they are those of the last page. */
  lemma PastEndBounds(current: int, last: int)
    requires First <= last < current
    ensures WindowSelection.GetWindowBounds(current, last) == WindowSelection.GetWindowBounds(last, last)
    ensures WindowSelection.GetWindowBounds(current, last).windowLast == last
  {
  }

  /** With no items the window still holds page 1, and only page 1. */
  lemma {:induction false} TotalZeroOnePage(offset: int, limit: int)
    requires offset >= 0 && limit >= 1
    ensures var w := GetPaginationWindow(Some(Pagination.Config(offset, limit, 0))).value;
      && |w| == 3
      && w[1] == Page(PageKey(1), false, 1, 0, offset < limit)
      && w[0].isDisabled == (offset < limit) && w[2].isDisabled
  {
    var current := Pagination.CurrentPage(offset, limit);
    assert Pagination.LastPage(0, limit) == 1;
    assert GetWindow(current, 1) == [Number(1)];
    assert current == 1 <==> offset < limit;
  }

  /**
   * When the current page lies past the last page, next is disabled and
   * points to the last page, and no page is marked current.
   */
  lemma {:induction false} PastEndNotClamped(limit: int, current: int, last: int)
    requires First <= last < current
    ensures var w := BuildWindow(limit, current, last);
      && w[|w| - 1].isDisabled && w[|w| - 1].number == last
      && forall i :: 0 <= i < |w| ==> !w[i].IsCurrent()
  {
    BuildWindowMatches(limit, current, last);
    WindowProperties.CurrentPageUnique(limit, current, last);
  }

  /** An offset equal to a total on a page boundary lands one page past the last, which is not clamped. */
  lemma {:induction false} OffsetAtTotal(pages: int, limit: int)
    requires pages >= 1 && limit >= 1
    ensures var c := Pagination.Config(pages * limit, limit, pages * limit);
      var w := GetPaginationWindow(Some(c)).value;
      && Pagination.CurrentPage(c.offset, c.limit) == Pagination.LastPage(c.total, c.limit) + 1
      && w[|w| - 1].isDisabled && w[|w| - 1].number == pages
      && forall i :: 0 <= i < |w| ==> !w[i].IsCurrent()
  {
    PaginationProperties.PagesOnLimitBoundary(pages, limit);
    PaginationProperties.OffsetRoundTrip(0, limit, pages + 1);
    PastEndNotClamped(limit, pages + 1, pages);
  }

  /**
   * With fewer pages than a full window (at most eight), the bounds cover
   * every page and the markers are exactly `range(1, last)` with no ellipsis;
   * with more pages they never do.
   */
  lemma {:induction false} MarkersFullRange(current: int, last: int)
    requires last >= First
    ensures var b := WindowSelection.GetWindowBounds(current, last);
      b == WindowSelection.Bounds(First, last) <==> last <= 2 * WindowSelection.WindowBuffer + 2
    ensures last <= 2 * WindowSelection.WindowBuffer + 2 ==> GetWindow(current, last) == Numbers(Range(First, last))
    ensures var b := WindowSelection.GetWindowBounds(current, last);
      b == WindowSelection.Bounds(First, last) ==> GetWindow(current, last) == Numbers(Range(First, last))
  {
  }

  /** The numbers among the markers strictly increase from 1 to `last`. */
  lemma {:induction false} MarkersIncreasing(current: int, last: int)
    requires last >= First
    ensures var ms := GetWindow(current, last);
      forall i, j :: 0 <= i < j < |ms| && ms[i].Number? && ms[j].Number? ==> ms[i].n < ms[j].n
  {
    var ms := GetWindow(current, last);
    if last == First {
      assert |ms| == 1;
    } else {
      var b := WindowSelection.GetWindowBounds(current, last);
      var front := if b.windowFirst > First then 2 else 1;
      var back := if b.windowLast < last then 2 else 1;
      MarkerLayout(current, last);
      forall i, j | 0 <= i < j < |ms| && ms[i].Number? && ms[j].Number?
        ensures ms[i].n < ms[j].n
      {
        assert i == 0 || front <= i < |ms| - back;
        assert j == |ms| - 1 || front <= j < |ms| - back;
      }
    }
  }
}
