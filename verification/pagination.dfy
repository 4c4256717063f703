/**
 * The entry point of src/index.ts: validate `(offset, limit, total)`, derive
 * the current and last page numbers, and build the window. A config whose
 * offset is at or past the total is rejected.
 */
module Pagination {

  import opened Wrappers
  import opened Items
  import WindowSelection
  import Arith

  /** `offset`: list position to centre on; `limit`: items per page; `total`: items in the list. */
  datatype Config = Config(offset: int, limit: int, total: int)

  /** `null` for an absent config or any out-of-range field, including `offset >= total`. */
  function ValidateConfig(config: Option<Config>): (r: Option<Config>)
    ensures r.Some? <==>
      && config.Some?
      && 0 <= config.value.offset < config.value.total
      && config.value.limit >= 1
    ensures r.Some? ==> r == config
  {
    match config
    case None => None
    case Some(c) =>
      if c.offset < 0 || c.limit < 1 || c.total < 0 || c.offset >= c.total then None
      else config
  }

  /** `max(ceil(total / limit), 1)`: the fewest pages of `limit` items that hold `total` items, at least one. */
  function LastPage(total: int, limit: int): (last: int)
    requires total >= 0 && limit >= 1
    ensures last >= First
    ensures total == 0 ==> last == First
    ensures total > 0 ==> (last - 1) * limit < total <= last * limit
  {
    var pages := (total + limit - 1) / limit;
    Arith.DivBounds(total + limit - 1, limit);
    if pages >= First then pages else First
  }

  /** `floor(offset / limit) + 1`: the page holding list position `offset`. */
  function CurrentPage(offset: int, limit: int): (current: int)
    requires offset >= 0 && limit >= 1
    ensures current >= First
    ensures (current - 1) * limit <= offset < current * limit
  {
    Arith.DivBounds(offset, limit);
    offset / limit + 1
  }

  /** The window of a valid config, `None` for an invalid one. */
  function GetPaginationWindow(config: Option<Config>): (r: Option<seq<Item>>)
    ensures r.None? <==> ValidateConfig(config).None?
    ensures r.Some? ==>
      var c := config.value;
      r.value == WindowSelection.GetWindow(c.limit, CurrentPage(c.offset, c.limit), LastPage(c.total, c.limit))
  {
    match ValidateConfig(config)
    case None => None
    case Some(c) =>
      var last := LastPage(c.total, c.limit);
      var current := CurrentPage(c.offset, c.limit);
      Some(WindowSelection.GetWindow(c.limit, current, last))
  }
}

/** What the entry point of src/index.ts promises for every config and for the cases its tests pin down. */
module PaginationProperties {

  import opened Wrappers
  import opened Items
  import opened Pagination
  import WindowSelection
  import WindowProperties
  import Arith

  /** With no items every offset is at or past the total, so there is never a window. */
  lemma TotalZeroIsNull(offset: int, limit: int)
    ensures GetPaginationWindow(Some(Config(offset, limit, 0))) == None
  {
  }

  /** A total exactly on a page boundary adds no page; one more item adds one. */
  lemma {:induction false} PagesOnLimitBoundary(pages: int, limit: int)
    requires pages >= 1 && limit >= 1
    ensures LastPage(pages * limit, limit) == pages
    ensures LastPage(pages * limit + 1, limit) == pages + 1
  {
    var last := LastPage(pages * limit, limit);
    if last > pages {
      Arith.MulLe(pages, last - 1, limit);
    } else if last < pages {
      Arith.MulLe(last, pages - 1, limit);
    }
    var last' := LastPage(pages * limit + 1, limit);
    assert (pages + 1) * limit == pages * limit + limit;
    if last' > pages + 1 {
      Arith.MulLe(pages + 1, last' - 1, limit);
    } else if last' < pages + 1 {
      Arith.MulLe(last', pages, limit);
    }
  }

  /** Page numbers and offsets convert into each other: a page's offset lies on that page, and an offset lies on the page that starts at or before it. */
  lemma {:induction false} OffsetRoundTrip(offset: int, limit: int, number: int)
    requires limit >= 1 && number >= First && offset >= 0
    ensures GetOffset(limit, number) >= 0 && CurrentPage(GetOffset(limit, number), limit) == number
    ensures var start := GetOffset(limit, CurrentPage(offset, limit)); start <= offset < start + limit
  {
    var current := CurrentPage(offset, limit);
    assert GetOffset(limit, current) == (current - 1) * limit;
    assert current * limit == (current - 1) * limit + limit;
    assert GetOffset(limit, number) / limit + 1 == number;
  }

  /** For an accepted config the current page is one of the pages: `1 <= current <= last`. */
  lemma {:induction false} CurrentWithinLast(c: Config)
    requires ValidateConfig(Some(c)).Some?
    ensures First <= CurrentPage(c.offset, c.limit) <= LastPage(c.total, c.limit)
  {
    var current := CurrentPage(c.offset, c.limit);
    var last := LastPage(c.total, c.limit);
    if current > last {
      Arith.MulLe(last, current - 1, c.limit);
    }
  }

  /**
   * For an accepted config, previous is disabled exactly when the offset is on
   * the first page, and next exactly when the offset is on the last page.
   */
  lemma {:induction false} NavigationDisabledIff(c: Config)
    requires ValidateConfig(Some(c)).Some?
    ensures var w := GetPaginationWindow(Some(c)).value;
      var last := LastPage(c.total, c.limit);
      && (w[0].isDisabled <==> c.offset < c.limit)
      && (w[|w| - 1].isDisabled <==> (last - 1) * c.limit <= c.offset)
  {
    var current := CurrentPage(c.offset, c.limit);
    var last := LastPage(c.total, c.limit);
    CurrentWithinLast(c);
    if current > First {
      Arith.MulLe(1, current - 1, c.limit);
    }
    if (last - 1) * c.limit <= c.offset && current < last {
      Arith.MulLe(current, last - 1, c.limit);
    }
  }

  /** An accepted config lists the current page exactly once, and no other page is marked current. */
  lemma {:induction false} OneCurrentPage(c: Config)
    requires ValidateConfig(Some(c)).Some?
    ensures var w := GetPaginationWindow(Some(c)).value;
      && (exists i :: 0 <= i < |w| && w[i].IsCurrent() && w[i].number == CurrentPage(c.offset, c.limit))
      && (forall i, j :: 0 <= i < |w| && 0 <= j < |w| && w[i].IsCurrent() && w[j].IsCurrent() ==> i == j)
  {
    var current := CurrentPage(c.offset, c.limit);
    var last := LastPage(c.total, c.limit);
    CurrentWithinLast(c);
    WindowProperties.CurrentPageUnique(c.limit, current, last);
    var w := GetPaginationWindow(Some(c)).value;
    var i :| 0 <= i < |w| && w[i].IsCurrent();
    assert w[i].number == current;
  }

  /** 10 items per page, 90 items, offset 30 (page 4 of 9): only the back ellipsis, at index `|w| - 3`. */
  lemma {:induction false} BackEllipsisScenario()
    ensures var w := GetPaginationWindow(Some(Config(30, 10, 90))).value;
      && |w| == 11 && w[2].Page? && w[|w| - 3] == CreateEllipsisItem(Back)
      && forall i :: 0 <= i < |w| ==> w[i] != CreateEllipsisItem(Front)
  {
    assert CurrentPage(30, 10) == 4 && LastPage(90, 10) == 9;
    assert WindowSelection.GetWindowBounds(4, 9) == WindowSelection.Bounds(1, 8);
    WindowProperties.WindowSize(10, 4, 9);
    WindowProperties.EllipsisPlacement(10, 4, 9);
    WindowProperties.NavigationAtEnds(10, 4, 9);
  }

  /** 10 items per page, 90 items, offset 60 (page 7 of 9): only the front ellipsis, at index 2. */
  lemma {:induction false} FrontEllipsisScenario()
    ensures var w := GetPaginationWindow(Some(Config(60, 10, 90))).value;
      && |w| == 11 && w[2] == CreateEllipsisItem(Front) && w[|w| - 3].Page?
      && forall i :: 0 <= i < |w| ==> w[i] != CreateEllipsisItem(Back)
  {
    assert CurrentPage(60, 10) == 7 && LastPage(90, 10) == 9;
    assert WindowSelection.GetWindowBounds(7, 9) == WindowSelection.Bounds(2, 9);
    WindowProperties.WindowSize(10, 7, 9);
    WindowProperties.EllipsisPlacement(10, 7, 9);
    WindowProperties.NavigationAtEnds(10, 7, 9);
  }

  /**
   * 10 items per page, 90 items, offset 40 (page 5 of 9): both ellipses, at
   * index 2 and `|w| - 3`; pages 2 and 8 give way to them.
   */
  lemma {:induction false} BothEllipsesScenario()
    ensures var w := GetPaginationWindow(Some(Config(40, 10, 90))).value;
      w == [
        CreatePreviousNavigationItem(10, 5),
        CreatePageItem(10, 5, 1), CreateEllipsisItem(Front),
        CreatePageItem(10, 5, 3), CreatePageItem(10, 5, 4), CreatePageItem(10, 5, 5),
        CreatePageItem(10, 5, 6), CreatePageItem(10, 5, 7),
        CreateEllipsisItem(Back), CreatePageItem(10, 5, 9),
        CreateNextNavigationItem(10, 5, 9)]
  {
    assert CurrentPage(40, 10) == 5 && LastPage(90, 10) == 9;
    assert WindowSelection.GetWindowBounds(5, 9) == WindowSelection.Bounds(2, 8);
    WindowProperties.Layout(10, 5, 9);
  }

  /** 1 item, or exactly 10 items, with 10 per page: a single page, current, with both navigation items disabled. */
  lemma OnePageScenario()
    ensures GetPaginationWindow(Some(Config(0, 10, 1))) == Some(
      [Navigation(NavigationKey(Previous), true, Previous, 1, 0),
       Page(PageKey(1), false, 1, 0, true),
       Navigation(NavigationKey(Next), true, Next, 1, 0)])
    ensures GetPaginationWindow(Some(Config(0, 10, 10))) == GetPaginationWindow(Some(Config(0, 10, 1)))
  {
    assert CurrentPage(0, 10) == 1 && LastPage(1, 10) == 1 && LastPage(10, 10) == 1;
  }

  /** 20 items with 10 per page: pages 1 and 2, page 1 current, previous disabled and next enabled. */
  lemma TwoPageScenario()
    ensures GetPaginationWindow(Some(Config(0, 10, 20))) == Some(
      [CreatePreviousNavigationItem(10, 1),
       CreatePageItem(10, 1, 1), CreatePageItem(10, 1, 2),
       CreateNextNavigationItem(10, 1, 2)])
  {
    assert CurrentPage(0, 10) == 1 && LastPage(20, 10) == 2;
    assert WindowSelection.GetWindowBounds(1, 2) == WindowSelection.Bounds(1, 2);
    var w := WindowSelection.GetWindow(10, 1, 2);
    WindowProperties.Layout(10, 1, 2);
    assert |w| == 4 && w[1] == CreatePageItem(10, 1, 1) && w[2] == CreatePageItem(10, 1, 2);
    assert w == [CreatePreviousNavigationItem(10, 1), CreatePageItem(10, 1, 1), CreatePageItem(10, 1, 2),
      CreateNextNavigationItem(10, 1, 2)];
    assert GetPaginationWindow(Some(Config(0, 10, 20))) == Some(w);
  }

  /** Offset 40 of 50 with 10 per page: pages 1 to 5 with page 5 current, no ellipsis, next disabled. */
  lemma NoEllipsisScenario()
    ensures GetPaginationWindow(Some(Config(40, 10, 50))) == Some(
      [CreatePreviousNavigationItem(10, 5),
       CreatePageItem(10, 5, 1), CreatePageItem(10, 5, 2), CreatePageItem(10, 5, 3),
       CreatePageItem(10, 5, 4), CreatePageItem(10, 5, 5),
       CreateNextNavigationItem(10, 5, 5)])
  {
    assert CurrentPage(40, 10) == 5 && LastPage(50, 10) == 5;
    assert WindowSelection.GetWindowBounds(5, 5) == WindowSelection.Bounds(1, 5);
    var w := WindowSelection.GetWindow(10, 5, 5);
    WindowProperties.Layout(10, 5, 5);
    assert |w| == 7;
    forall k | 1 <= k <= 5
      ensures w[k] == CreatePageItem(10, 5, k)
    {
    }
    assert w == [CreatePreviousNavigationItem(10, 5),
      CreatePageItem(10, 5, 1), CreatePageItem(10, 5, 2), CreatePageItem(10, 5, 3),
      CreatePageItem(10, 5, 4), CreatePageItem(10, 5, 5),
      CreateNextNavigationItem(10, 5, 5)];
    assert GetPaginationWindow(Some(Config(40, 10, 50))) == Some(w);
  }
}
