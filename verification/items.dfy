/**
 * The display items of a pagination window and the functions that build them
 * (src/createItem.ts). The TypeScript interfaces `Item`, `Page`, `Ellipsis` and
 * `Navigation` become one flat datatype whose variants share `key` and
 * `isDisabled`; the template-string keys become a small `Key` datatype.
 */
module Items {

  import Arith

  /** The first page number; pages are numbered from 1. */
  const First := 1

  datatype Direction = Previous | Next

  datatype EllipsisPosition = Front | Back

  /** `page-<n>`, `ellipsis-<position>` and `navigation-<direction>`. */
  datatype Key =
    | PageKey(n: int)
    | EllipsisKey(position: EllipsisPosition)
    | NavigationKey(direction: Direction)

  datatype Item =
    | Page(key: Key, isDisabled: bool, number: int, offset: int, isCurrent: bool)
    | Ellipsis(key: Key, isDisabled: bool)
    | Navigation(key: Key, isDisabled: bool, direction: Direction, number: int, offset: int)
  {
    /** Only a page can be the current one; the older variant writes `isCurrent: false` on the others. */
    predicate IsCurrent() {
      Page? && isCurrent
    }

    /**
     * The shape the TypeScript interfaces give an item: an ellipsis is always
     * disabled and keyed by its position, a page is keyed by its number, and
     * a navigation item by its direction.
     */
    predicate Conforms() {
      match this
      case Page(key, _, number, _, _) => key == PageKey(number)
      case Ellipsis(key, isDisabled) => isDisabled && key.EllipsisKey?
      case Navigation(key, _, direction, _, _) => key == NavigationKey(direction)
    }
  }

  /** `Math.min` on integers. */
  function Min(a: int, b: int): (m: int)
    ensures m <= a && m <= b && (m == a || m == b)
  {
    if a <= b then a else b
  }

  /** `Math.max` on integers. */
  function Max(a: int, b: int): (m: int)
    ensures m >= a && m >= b && (m == a || m == b)
  {
    if a >= b then a else b
  }

  /** The list offset at which page `number` starts. */
  function GetOffset(limit: int, number: int): (offset: int)
    ensures limit >= 1 && number >= First ==> offset >= 0
    ensures limit >= 1 ==> offset / limit + 1 == number && offset % limit == 0
  {
    var offset := (number - 1) * limit;
    if limit >= 1 then Arith.DivUnique(offset, limit, number - 1); offset else offset
  }

  function CreateEllipsisItem(position: EllipsisPosition): (item: Item)
    ensures item.Ellipsis? && item.isDisabled
    ensures item.key == EllipsisKey(position)
    ensures !item.IsCurrent()
  {
    Ellipsis(EllipsisKey(position), true)
  }

  function CreatePageItem(limit: int, current: int, number: int): (item: Item)
    ensures item.Page? && !item.isDisabled
    ensures item.number == number && item.key == PageKey(number)
    ensures item.IsCurrent() <==> number == current
    ensures item.offset == GetOffset(limit, number)
  {
    Page(PageKey(number), false, number, GetOffset(limit, number), number == current)
  }

  function CreatePreviousNavigationItem(limit: int, current: int): (item: Item)
    ensures item.Navigation? && item.direction == Previous
    ensures item.key == NavigationKey(Previous)
    ensures item.number >= First
    ensures item.isDisabled <==> current <= First
    ensures !item.isDisabled ==> item.number == current - 1
    ensures item.isDisabled ==> item.number == First
    ensures item.offset == GetOffset(limit, item.number)
  {
    var previous := Max(current - 1, First);
    Navigation(NavigationKey(Previous), current <= First, Previous, previous, GetOffset(limit, previous))
  }

  function CreateNextNavigationItem(limit: int, current: int, last: int): (item: Item)
    ensures item.Navigation? && item.direction == Next
    ensures item.key == NavigationKey(Next)
    ensures item.number <= last
    ensures item.isDisabled <==> current >= last
    ensures !item.isDisabled ==> item.number == current + 1
    ensures item.isDisabled ==> item.number == last
    ensures item.offset == GetOffset(limit, item.number)
  {
    var next := Min(current + 1, last);
    Navigation(NavigationKey(Next), current >= last, Next, next, GetOffset(limit, next))
  }
}
