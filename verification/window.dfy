/**
 * Window selection (src/getWindow.ts): which page numbers are shown around the
 * current page, and the item sequence between the two navigation items.
 */
module WindowSelection {

  import opened Items

  /** Pages shown on each side of the current page before ellipsis substitution. */
  const WindowBuffer := 3

  /** The first and last page numbers of the visible window. */
  datatype Bounds = Bounds(windowFirst: int, windowLast: int)

  /** `[func(start), func(start + 1), ..., func(end)]`, empty when `start > end`. */
  function RangeMap<T>(func: int -> T, start: int, end: int): (r: seq<T>)
    ensures |r| == if start <= end then end - start + 1 else 0
    ensures forall i :: 0 <= i < |r| ==> r[i] == func(start + i)
    decreases end - start
  {
    if start > end then [] else [func(start)] + RangeMap(func, start + 1, end)
  }

  /**
   * The current page clamped into `[First, last]`, widened by `WindowBuffer`
   * on each side, then shifted back inside `[First, last]`; the slot a
   * missing ellipsis would have taken is given to one more page.
   */
  function GetWindowBounds(current: int, last: int): (b: Bounds)
    requires last >= First
    ensures First <= b.windowFirst <= b.windowLast <= last
    ensures b.windowLast - b.windowFirst <= 2 * WindowBuffer + 1
    ensures var safe := Min(Max(current, First), last);
      && b.windowFirst <= safe <= b.windowLast
      && (b.windowFirst > First ==> b.windowFirst < safe)
      && (b.windowLast < last ==> safe < b.windowLast)
    ensures last > First ==> b.windowFirst < b.windowLast
    ensures last <= 2 * WindowBuffer + 2 ==> b == Bounds(First, last)
    ensures last > 2 * WindowBuffer + 2 ==>
      b.windowLast - b.windowFirst + 1
      + (if b.windowFirst > First then 1 else 0)
      + (if b.windowLast < last then 1 else 0) == 2 * WindowBuffer + 3
    ensures var safe := Min(Max(current, First), last);
      && (b.windowFirst > First && b.windowLast < last ==>
            b == Bounds(safe - WindowBuffer, safe + WindowBuffer))
      && (b.windowFirst == First ==> b.windowLast == Min(2 * WindowBuffer + 2, last))
      && (b.windowLast == last ==> b.windowFirst == Max(last - 2 * WindowBuffer - 1, First))
    ensures var safe := Min(Max(current, First), last);
      && (safe - WindowBuffer <= First ==> b.windowFirst == First)
      && (safe - WindowBuffer > First && safe + WindowBuffer >= last ==> b.windowLast == last)
      && (safe - WindowBuffer > First && safe + WindowBuffer < last ==>
            b.windowFirst > First && b.windowLast < last)
  {
    var safeCurrent := Min(Max(current, First), last);
    var windowFirst := safeCurrent - WindowBuffer;
    var windowLast := safeCurrent + WindowBuffer;
    if windowFirst <= First then
      // One more page takes the place of the front ellipsis.
      Bounds(First, Min(windowLast + (First - windowFirst) + 1, last))
    else if windowLast >= last then
      // One more page takes the place of the back ellipsis.
      Bounds(Max(windowFirst - (windowLast - last) - 1, First), last)
    else
      Bounds(windowFirst, windowLast)
  }

  /** The `page` closure of `getWindow`: the page item for a page number. */
  function PageMaker(limit: int, current: int): (page: int -> Item)
    ensures forall number :: page(number) == CreatePageItem(limit, current, number)
  {
    (number: int) => CreatePageItem(limit, current, number)
  }

  /**
   * The pagination window for a current and last page number: the previous
   * navigation item, the page and ellipsis items, the next navigation item.
   */
  function GetWindow(limit: int, current: int, last: int): (w: seq<Item>)
    requires last >= First
    ensures |w| >= 3
    ensures w[0] == CreatePreviousNavigationItem(limit, current)
    ensures w[|w| - 1] == CreateNextNavigationItem(limit, current, last)
    ensures last == First ==> w == [w[0], CreatePageItem(limit, current, First), w[2]]
  {
    var previous := CreatePreviousNavigationItem(limit, current);
    var next := CreateNextNavigationItem(limit, current, last);
    var page := PageMaker(limit, current);
    if First == last then
      [previous, page(First), next]
    else
      var b := GetWindowBounds(current, last);
      [previous]
      + (if b.windowFirst > First then [page(First), CreateEllipsisItem(Front)] else [page(b.windowFirst)])
      + RangeMap(page, b.windowFirst + 1, b.windowLast - 1)
      + (if b.windowLast < last then [CreateEllipsisItem(Back), page(last)] else [page(b.windowLast)])
      + [next]
  }
}

/** What the window of src/getWindow.ts promises, proved from its layout. */
module WindowProperties {

  import opened Items
  import opened WindowSelection

  /** Page `p` is listed: the first and last pages always, and every page strictly inside the bounds. */
  predicate Shown(b: Bounds, last: int, p: int) {
    First <= p <= last && (p == First || p == last || b.windowFirst < p < b.windowLast)
  }

  /** Where each item of a window with more than one page sits. */
  lemma Layout(limit: int, current: int, last: int)
    requires last > First
    ensures var w := GetWindow(limit, current, last);
      var b := GetWindowBounds(current, last);
      var front := if b.windowFirst > First then 2 else 1;
      var back := if b.windowLast < last then 2 else 1;
      && |w| == front + (b.windowLast - b.windowFirst - 1) + back + 2
      && w[1] == CreatePageItem(limit, current, First)
      && (front == 2 ==> w[2] == CreateEllipsisItem(Front))
      && (forall i :: 1 + front <= i < |w| - 1 - back ==>
            w[i] == CreatePageItem(limit, current, b.windowFirst + i - front))
      && (back == 2 ==> w[|w| - 3] == CreateEllipsisItem(Back))
      && w[|w| - 2] == CreatePageItem(limit, current, last)
  {
    LayoutLength(limit, current, last);
    LayoutFront(limit, current, last);
    LayoutMiddle(limit, current, last);
    LayoutBack(limit, current, last);
  }

  lemma LayoutLength(limit: int, current: int, last: int)
    requires last > First
    ensures var w := GetWindow(limit, current, last);
      var b := GetWindowBounds(current, last);
      |w| == (if b.windowFirst > First then 2 else 1) + (b.windowLast - b.windowFirst - 1)
        + (if b.windowLast < last then 2 else 1) + 2
  {
  }

  lemma LayoutFront(limit: int, current: int, last: int)
    requires last > First
    ensures var w := GetWindow(limit, current, last);
      && w[1] == CreatePageItem(limit, current, First)
      && (GetWindowBounds(current, last).windowFirst > First ==> w[2] == CreateEllipsisItem(Front))
  {
  }

  lemma LayoutMiddle(limit: int, current: int, last: int)
    requires last > First
    ensures var w := GetWindow(limit, current, last);
      var b := GetWindowBounds(current, last);
      var front := if b.windowFirst > First then 2 else 1;
      var back := if b.windowLast < last then 2 else 1;
      forall i :: 1 + front <= i < |w| - 1 - back ==>
        w[i] == CreatePageItem(limit, current, b.windowFirst + i - front)
  {
  }

  lemma LayoutBack(limit: int, current: int, last: int)
    requires last > First
    ensures var w := GetWindow(limit, current, last);
      && w[|w| - 2] == CreatePageItem(limit, current, last)
      && (GetWindowBounds(current, last).windowLast < last ==> w[|w| - 3] == CreateEllipsisItem(Back))
  {
  }

  /** Every item between the navigation items is a listed page or an ellipsis next to the end page it replaces. */
  lemma {:induction false} Slots(limit: int, current: int, last: int)
    requires last >= First
    ensures var w := GetWindow(limit, current, last);
      var b := GetWindowBounds(current, last);
      forall i :: 0 < i < |w| - 1 ==>
        || (w[i].Page? && w[i] == CreatePageItem(limit, current, w[i].number) && Shown(b, last, w[i].number)
            && (w[i].number == First <==> i == 1) && (w[i].number == last <==> i == |w| - 2)
            && (First < w[i].number < last ==> w[i].number == b.windowFirst + i - (if b.windowFirst > First then 2 else 1)))
        || (i == 2 && b.windowFirst > First && w[i] == CreateEllipsisItem(Front))
        || (i == |w| - 3 && b.windowLast < last && w[i] == CreateEllipsisItem(Back))
  {
    var w := GetWindow(limit, current, last);
    if last > First {
      Layout(limit, current, last);
    }
  }

  /** Page numbers read left to right strictly increase, so no page is listed twice. */
  lemma {:induction false} PagesIncreasing(limit: int, current: int, last: int)
    requires last >= First
    ensures var w := GetWindow(limit, current, last);
      forall i, j :: 0 <= i < j < |w| && w[i].Page? && w[j].Page? ==> w[i].number < w[j].number
  {
    var w := GetWindow(limit, current, last);
    Slots(limit, current, last);
  }

  /** Only the two ends are navigation items: previous first, next last. */
  lemma {:induction false} NavigationAtEnds(limit: int, current: int, last: int)
    requires last >= First
    ensures var w := GetWindow(limit, current, last);
      && w[0].Navigation? && w[0].direction == Previous
      && w[|w| - 1].Navigation? && w[|w| - 1].direction == Next
      && forall i :: 0 < i < |w| - 1 ==> w[i].Page? || w[i].Ellipsis?
  {
    Slots(limit, current, last);
  }

  /** The first listed page is page 1 and the last listed page is `last`. */
  lemma {:induction false} PagesSpan(limit: int, current: int, last: int)
    requires last >= First
    ensures var w := GetWindow(limit, current, last);
      && w[1] == CreatePageItem(limit, current, First)
      && w[|w| - 2] == CreatePageItem(limit, current, last)
      && forall i :: 0 <= i < |w| && w[i].Page? ==> First <= w[i].number <= last
  {
    Slots(limit, current, last);
  }

  /** A page is listed exactly when it is the first page, the last page, or strictly inside the bounds. */
  lemma {:induction false} PageListedIff(limit: int, current: int, last: int, p: int)
    requires last >= First
    ensures var w := GetWindow(limit, current, last);
      (exists i :: 0 <= i < |w| && w[i].Page? && w[i].number == p)
        <==> Shown(GetWindowBounds(current, last), last, p)
  {
    var w := GetWindow(limit, current, last);
    var b := GetWindowBounds(current, last);
    Slots(limit, current, last);
    if Shown(b, last, p) {
      if p == First {
        assert w[1].Page? && w[1].number == p;
      } else if p == last {
        assert w[|w| - 2].Page? && w[|w| - 2].number == p;
      } else {
        Layout(limit, current, last);
        var front := if b.windowFirst > First then 2 else 1;
        var i := p - b.windowFirst + front;
        assert w[i].Page? && w[i].number == p;
      }
    }
  }

  /** Some page is current exactly when `current` is in `[1, last]`, and then exactly one is, numbered `current`. */
  lemma {:induction false} CurrentPageUnique(limit: int, current: int, last: int)
    requires last >= First
    ensures var w := GetWindow(limit, current, last);
      && (forall i :: 0 <= i < |w| && w[i].IsCurrent() ==> w[i].number == current)
      && (forall i, j :: 0 <= i < |w| && 0 <= j < |w| && w[i].IsCurrent() && w[j].IsCurrent() ==> i == j)
      && ((exists i :: 0 <= i < |w| && w[i].IsCurrent()) <==> First <= current <= last)
  {
    var w := GetWindow(limit, current, last);
    CurrentIsNumbered(limit, current, last);
    PagesIncreasing(limit, current, last);
    PagesSpan(limit, current, last);
    if First <= current <= last {
      PageListedIff(limit, current, last, current);
      var i :| 0 <= i < |w| && w[i].Page? && w[i].number == current;
    }
    forall i, j | 0 <= i < |w| && 0 <= j < |w| && w[i].IsCurrent() && w[j].IsCurrent()
      ensures i == j
    {
      assert w[i].number == w[j].number;
    }
  }

  /** Every page item of a window is current exactly when it is numbered `current`. */
  lemma {:induction false} CurrentIsNumbered(limit: int, current: int, last: int)
    requires last >= First
    ensures var w := GetWindow(limit, current, last);
      forall i :: 0 <= i < |w| && w[i].Page? ==> (w[i].IsCurrent() <==> w[i].number == current)
  {
    Slots(limit, current, last);
  }

  /**
   * A front ellipsis appears exactly when the window starts after page 1, and
   * then only at index 2; a back ellipsis exactly when it ends before `last`,
   * and then only at index `|w| - 3`.
   */
  lemma {:induction false} EllipsisPlacement(limit: int, current: int, last: int)
    requires last >= First
    ensures var w := GetWindow(limit, current, last);
      var b := GetWindowBounds(current, last);
      && (b.windowFirst > First ==> w[2] == CreateEllipsisItem(Front))
      && (b.windowLast < last ==> w[|w| - 3] == CreateEllipsisItem(Back))
      && forall i :: 0 <= i < |w| && w[i].Ellipsis? ==>
           || (i == 2 && b.windowFirst > First && w[i] == CreateEllipsisItem(Front))
           || (i == |w| - 3 && b.windowLast < last && w[i] == CreateEllipsisItem(Back))
  {
    Slots(limit, current, last);
    if last > First {
      Layout(limit, current, last);
    }
  }

  /** No two items of one window share a key. */
  lemma {:induction false} KeysDistinct(limit: int, current: int, last: int)
    requires last >= First
    ensures var w := GetWindow(limit, current, last);
      forall i, j :: 0 <= i < j < |w| ==> w[i].key != w[j].key
  {
    var w := GetWindow(limit, current, last);
    var b := GetWindowBounds(current, last);
    Slots(limit, current, last);
    PagesIncreasing(limit, current, last);
    forall i, j | 0 <= i < j < |w|
      ensures w[i].key != w[j].key
    {
      if w[i].Ellipsis? && w[j].Ellipsis? {
        assert i == 2 && j == |w| - 3;
      }
    }
  }

  /** Every item of a window has the shape of its variant: see `Item.Conforms`. */
  lemma {:induction false} ItemsConform(limit: int, current: int, last: int)
    requires last >= First
    ensures var w := GetWindow(limit, current, last);
      forall i :: 0 <= i < |w| ==> w[i].Conforms()
  {
    Slots(limit, current, last);
  }

  /**
   * With at most `2 * WindowBuffer + 2` pages every page is listed and there
   * is no ellipsis; with more, exactly `2 * WindowBuffer + 3` page and
   * ellipsis items sit between the navigation items.
   */
  lemma {:induction false} WindowSize(limit: int, current: int, last: int)
    requires last >= First
    ensures var w := GetWindow(limit, current, last);
      && (last <= 2 * WindowBuffer + 2 ==>
            |w| == last + 2 && forall k :: First <= k <= last ==> w[k] == CreatePageItem(limit, current, k))
      && (last > 2 * WindowBuffer + 2 ==> |w| - 2 == 2 * WindowBuffer + 3)
  {
    var w := GetWindow(limit, current, last);
    if last > First {
      Layout(limit, current, last);
    }
  }

  /**
   * The front and back adjustments mirror each other: reflecting the current
   * page about the middle of `[1, last]` reflects the window.
   */
  lemma BoundsMirror(current: int, last: int)
    requires First <= current <= last
    ensures var b := GetWindowBounds(current, last);
      GetWindowBounds(last + 1 - current, last) == Bounds(last + 1 - b.windowLast, last + 1 - b.windowFirst)
  {
  }
}
