/**
 * The two rectangle tests of the widget: the flip-up decision of
 * `checkViewport` (index.js:276-284) and the outside-click test of
 * `tryToBlur` (index.js:228-231). Screen coordinates grow downward.
 */
module Geometry {

  /** `screenPosition(select)`, in whole pixels. */
  datatype Rect = Rect(left: int, top: int, right: int, bottom: int)

  /** The inputs of `checkViewport`: the container's rectangle, `height(list)` and `window.innerHeight`. */
  datatype Placement = Placement(rect: Rect, listHeight: int, innerHeight: int)

  /** The fixed margin of `checkViewport`, in pixels. */
  const Margin: int := 10

  /** The list would overflow the viewport below, and there is room for it above. */
  predicate OpensAbove(g: Placement)
  {
    g.rect.bottom + g.listHeight + Margin > g.innerHeight && g.rect.top - g.listHeight > Margin
  }

  /**
   * Only a container in the lower half of the viewport opens upward: adding
   * the two conditions, its top and bottom edges sum to more than the
   * viewport height, whatever the list's height.
   */
  lemma OpensAboveOnlyInLowerHalf(g: Placement)
    requires OpensAbove(g)
    ensures g.rect.top + g.rect.bottom > g.innerHeight
  {
  }

  /**
   * A list that fits below the container in a viewport of the given height
   * also fits in any taller one: enlarging the viewport never makes a widget
   * open upward.
   */
  lemma TallerViewportNeverFlips(g: Placement, taller: int)
    requires !OpensAbove(g) && taller >= g.innerHeight
    ensures !OpensAbove(Placement(g.rect, g.listHeight, taller))
  {
  }

  /** The outside-click test exactly as written: `clientY < bounds.bottom || clientY > bounds.top`. */
  predicate OutsideAsWritten(x: int, y: int, r: Rect)
  {
    x < r.left || x > r.right || y < r.bottom || y > r.top
  }

  /** A point inside the rectangle, edges included. */
  predicate Inside(x: int, y: int, r: Rect)
  {
    r.left <= x <= r.right && r.top <= y <= r.bottom
  }

  /**
   * With the top above the bottom, every point passes the test, including
   * every point inside the rectangle: any click on the page closes the widget.
   */
  lemma EveryPointIsOutside(x: int, y: int, r: Rect)
    requires r.top < r.bottom
    ensures OutsideAsWritten(x, y, r)
  {
  }

  /** The test rejects only points between the bottom and the top edge, which is empty unless bottom <= top. */
  lemma OutsideAsWrittenExactly(x: int, y: int, r: Rect)
    ensures !OutsideAsWritten(x, y, r) <==> r.left <= x <= r.right && r.bottom <= y <= r.top
  {
  }

  /** Concretely: the centre of a 100 by 40 box at the origin counts as outside it. */
  lemma CentreCountsAsOutside()
    ensures Inside(50, 20, Rect(0, 0, 100, 40)) && OutsideAsWritten(50, 20, Rect(0, 0, 100, 40))
  {
  }
}
