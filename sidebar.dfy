/**
 * The sidebar resize hook: a flag set on mouse-down on the handle and cleared
 * on mouse-up, and a width that follows the pointer only while the flag is set
 * and only to positions inside the allowed band.
 */
module Sidebar {

  const InitialWidth: int := 280
  const MinWidth: int := 200
  const MaxWidth: int := 480

  predicate InBand(w: int) { MinWidth <= w <= MaxWidth }

  /** The width after a mouse move to `clientX`: the pointer position if it is in the band, else unchanged. */
  function NextWidth(resizing: bool, width: int, clientX: int): (r: int)
    ensures r == clientX || r == width
    ensures r == clientX <==> (resizing && InBand(clientX)) || clientX == width
    ensures InBand(width) ==> InBand(r)
  {
    if resizing && InBand(clientX) then clientX else width
  }

  /** A move while not resizing changes nothing, and a move outside the band is ignored rather than clamped. */
  lemma MovesOutsideBandIgnored(width: int, clientX: int, resizing: bool)
    requires !resizing || !InBand(clientX)
    ensures NextWidth(resizing, width, clientX) == width
  {
  }

  class SidebarResizer {
    /** `isResizing.current` */
    var isResizing: bool
    /** `sidebarWidth` */
    var width: int

    ghost predicate Valid()
      reads this
    {
      InBand(width)
    }

    constructor ()
      ensures Valid() && width == InitialWidth && !isResizing
    {
      isResizing := false;
      width := InitialWidth;
    }

    /** `startResizing`, on mouse-down on the handle. */
    method StartResizing()
      modifies this`isResizing
      ensures isResizing
    {
      isResizing := true;
    }

    /** `stopResizing`, the window's mouse-up listener. */
    method StopResizing()
      modifies this`isResizing
      ensures !isResizing
    {
      isResizing := false;
    }

    /** `resize`, the window's mouse-move listener. */
    method Resize(clientX: int)
      requires Valid()
      modifies this`width
      ensures Valid()
      ensures width == NextWidth(isResizing, old(width), clientX)
    {
      if isResizing {
        var newWidth := clientX;
        if newWidth >= MinWidth && newWidth <= MaxWidth {
          width := newWidth;
        }
      }
    }
  }
}
