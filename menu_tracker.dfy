/**
 * The long-press gesture handler `JonContextMenu.Builder`: it opens the menu
 * on a long press, hit-tests every finger move against the menu items'
 * frames, activates and deactivates items, and reports to the host's delegate
 * when the menu opens, closes, and when an item is activated, deactivated or
 * selected. Frames are abstract integer rectangles; delegate calls are kept in
 * a ghost log.
 */
module MenuTracker {
  import opened Optional

  datatype IntPoint = IntPoint(x: int, y: int)

  /** A frame; containment is half-open, like `CGRect.contains`. */
  datatype Rect = Rect(x: int, y: int, width: nat, height: nat)

  predicate Contains(r: Rect, p: IntPoint) {
    r.x <= p.x < r.x + r.width && r.y <= p.y < r.y + r.height
  }

  /** The position of the first frame, in list order, that contains `p`. */
  function FirstHit(frames: seq<Rect>, p: IntPoint): (k: Option<nat>)
    ensures k.Some? ==> k.value < |frames| && Contains(frames[k.value], p)
    ensures k.Some? ==> forall j :: 0 <= j < k.value ==> !Contains(frames[j], p)
    ensures k.None? <==> forall j :: 0 <= j < |frames| ==> !Contains(frames[j], p)
  {
    if frames == [] then None
    else if Contains(frames[0], p) then Some(0)
    else match FirstHit(frames[1..], p)
      case Some(k) => Some(k + 1)
      case None => None
  }

  /** Conversely, a frame that holds `p` with none before it holding `p` is the first hit. */
  lemma FirstHitAt(frames: seq<Rect>, p: IntPoint, k: nat)
    requires k < |frames| && Contains(frames[k], p)
    requires forall j :: 0 <= j < k ==> !Contains(frames[j], p)
    ensures FirstHit(frames, p) == Some(k)
  {
    assert FirstHit(frames, p).Some?;
  }

  /** A menu item: its current on-screen frame and whether it is active. */
  class Item {
    const title: string
    var frame: Rect
    var isActive: bool

    constructor (title: string, frame: Rect)
      ensures this.title == title && this.frame == frame && !isActive
    {
      this.title := title;
      this.frame := frame;
      isActive := false;
    }
  }

  /** The calls the builder makes on the host's delegate. */
  datatype Event =
    | MenuOpened
    | MenuClosed
    | ItemSelected(item: Item)
    | ItemWasActivated(item: Item)
    | ItemWasDeactivated(item: Item)

  /** The state of the gesture recogniser when it calls its target. */
  datatype GestureState = Possible | Began | Changed | Ended | Cancelled | Failed

  /** The menu view of one open menu; only its activation of items is modelled. */
  class MenuView {
    const touchPoint: IntPoint

    constructor (touchPoint: IntPoint)
      ensures this.touchPoint == touchPoint
    {
      this.touchPoint := touchPoint;
    }

    /** Highlights an item. */
    method Activate(item: Item)
      modifies item
      ensures item.isActive && item.frame == old(item.frame)
    {
      item.isActive := true;
    }

    /** Removes an item's highlight. */
    method Deactivate(item: Item)
      modifies item
      ensures !item.isActive && item.frame == old(item.frame)
    {
      item.isActive := false;
    }
  }

  class Builder {
    /** The menu items, in menu order. */
    const items: seq<Item>
    /** Whether the host set a delegate; without one no call reaches the host. */
    const hasDelegate: bool
    /** The item under consideration: the last one the finger was found over. */
    var currentItem: Item?
    /** The menu view while a menu is open. */
    var contextMenuView: MenuView?
    /** Every delegate call made so far. */
    ghost var events: seq<Event>

    /** The calls `es` as the host sees them. */
    function Notify(es: seq<Event>): seq<Event> {
      if hasDelegate then es else []
    }

    /**
     * The current item is one of the items, every other item is inactive, and
     * with no menu open no item at all is active.
     */
    ghost predicate Valid()
      reads this, items
    {
      && (currentItem != null ==> currentItem in items)
      && (forall i :: 0 <= i < |items| && items[i] != currentItem ==> !items[i].isActive)
      && (contextMenuView == null ==> currentItem == null || !currentItem.isActive)
    }

    /** The items' frames, in menu order. */
    ghost function Frames(): (fs: seq<Rect>)
      reads items
      ensures |fs| == |items|
      ensures forall i :: 0 <= i < |items| ==> fs[i] == items[i].frame
    {
      seq(|items|, i reads items requires 0 <= i < |items| => items[i].frame)
    }

    /** The items' active flags, in menu order. */
    ghost function Flags(): (bs: seq<bool>)
      reads items
      ensures |bs| == |items|
      ensures forall i :: 0 <= i < |items| ==> bs[i] == items[i].isActive
    {
      seq(|items|, i reads items requires 0 <= i < |items| => items[i].isActive)
    }

    constructor (items: seq<Item>, hasDelegate: bool)
      requires forall i :: 0 <= i < |items| ==> !items[i].isActive
      ensures this.items == items && this.hasDelegate == hasDelegate
      ensures currentItem == null && contextMenuView == null && events == []
      ensures Valid()
    {
      this.items := items;
      this.hasDelegate := hasDelegate;
      currentItem := null;
      contextMenuView := null;
      events := [];
    }

    /** At most one item is active at any time. */
    lemma AtMostOneActive()
      requires Valid()
      ensures forall i, j :: 0 <= i < |items| && 0 <= j < |items| && items[i].isActive && items[j].isActive
                ==> items[i] == items[j]
    {
    }

    /** With no menu open, no item is active. */
    lemma NoneActiveWhenClosed()
      requires Valid() && contextMenuView == null
      ensures forall i :: 0 <= i < |items| ==> !items[i].isActive
    {
    }

    /**
     * Outcome of opening the menu: no current item, a fresh menu view at the
     * touch location, one `menuOpened` call; item flags untouched.
     */
    twostate predicate OpenedAt(location: IntPoint)
      reads this, items
    {
      && currentItem == null
      && contextMenuView != null && fresh(contextMenuView) && contextMenuView.touchPoint == location
      && events == old(events) + Notify([MenuOpened])
      && Flags() == old(Flags())
    }

    /**
     * Outcome of a finger move, `prev` being the current item before it. Inside the current item's frame, the item ends
     * active, and `menuItemWasActivated` is called only if it was inactive.
     * Anywhere else, the old current item ends inactive, with
     * `menuItemWasDeactivated` called only if it was active, and the current
     * item becomes the first item, in menu order, whose frame holds the
     * finger; over no item it stays as it was. No other item's flag changes,
     * so an item that has just become current is not activated by that move.
     */
    twostate predicate MovedTo(prev: Item?, location: IntPoint)
      reads this, items, currentItem, prev
    {
      && prev == old(currentItem)
      && contextMenuView == old(contextMenuView)
      && |old(Flags())| == |items|
      && (forall i :: 0 <= i < |items| && items[i] != old(currentItem) ==>
            items[i].isActive == old(Flags())[i])
      && if old(currentItem) != null && Contains(old(currentItem.frame), location) then
           && currentItem == old(currentItem)
           && currentItem.isActive
           && events == old(events) + Notify(if old(currentItem.isActive) then []
                                             else [ItemWasActivated(old(currentItem))])
         else
           && (prev != null ==> !prev.isActive)
           && currentItem == (match FirstHit(Frames(), location)
                              case Some(k) => items[k]
                              case None => old(currentItem))
           && events == old(events) + Notify(if old(currentItem) != null && old(currentItem.isActive)
                                             then [ItemWasDeactivated(old(currentItem))] else [])
    }

    /**
     * Outcome of closing the menu: the view is gone, no item is active, the
     * current item is kept, and the delegate sees `selected` (if given) and
     * then `menuClosed`.
     */
    twostate predicate ClosedAfter(selected: seq<Event>)
      reads this, items
    {
      && contextMenuView == null
      && currentItem == old(currentItem)
      && (forall i :: 0 <= i < |items| ==> !items[i].isActive)
      && events == old(events) + Notify(selected + [MenuClosed])
    }

    /** The selection reported on release: the current item, if it is active. */
    function SelectionOnRelease(): (sel: seq<Event>)
      reads this, currentItem
      ensures sel != [] <==> currentItem != null && currentItem.isActive
      ensures sel != [] ==> sel == [ItemSelected(currentItem)]
    {
      if currentItem != null && currentItem.isActive then [ItemSelected(currentItem)] else []
    }

    /** The gesture target: dispatches on the recogniser's state. */
    method SetupTouchAction(state: GestureState, location: IntPoint)
      requires Valid()
      requires state == Began ==> contextMenuView == null
      requires state == Changed || state == Ended || state == Cancelled ==> contextMenuView != null
      modifies this, items
      ensures Valid()
      ensures Frames() == old(Frames())
      ensures state == Began ==> OpenedAt(location)
      ensures state == Changed ==> MovedTo(old(currentItem), location)
      ensures state == Ended ==> ClosedAfter(old(SelectionOnRelease()))
      ensures state == Cancelled ==> ClosedAfter([])
      ensures state == Possible || state == Failed ==>
                && events == old(events) && currentItem == old(currentItem)
                && contextMenuView == old(contextMenuView) && Flags() == old(Flags())
    {
      match state
      case Began => LongPressBegan(location);
      case Changed => LongPressMoved(location);
      case Ended => LongPressEnded();
      case Cancelled => LongPressCancelled();
      case _ =>
    }

    /** Long press recognised: open the menu at the touch location. */
    method LongPressBegan(location: IntPoint)
      requires Valid() && contextMenuView == null
      modifies this
      ensures Valid() && OpenedAt(location)
      ensures Frames() == old(Frames())
    {
      ShowMenu(location);
    }

    /** Finger moved: see `MovedTo`. */
    method LongPressMoved(location: IntPoint)
      requires Valid() && contextMenuView != null
      modifies items
      modifies this`currentItem, this`events
      ensures Valid() && MovedTo(old(currentItem), location)
      ensures Frames() == old(Frames())
    {
      if currentItem != null && Contains(currentItem.frame, location) {
        if !currentItem.isActive {
          contextMenuView.Activate(currentItem);
          events := events + Notify([ItemWasActivated(currentItem)]);
        }
      } else {
        if currentItem != null && currentItem.isActive {
          contextMenuView.Deactivate(currentItem);
          events := events + Notify([ItemWasDeactivated(currentItem)]);
        }
        SelectItemAt(location);
      }
    }

    /**
     * The loop over the items in menu order: the first item whose frame holds
     * the finger becomes the current item; over no item nothing changes.
     */
    method SelectItemAt(location: IntPoint)
      modifies this`currentItem
      ensures currentItem == (match FirstHit(Frames(), location)
                              case Some(k) => items[k]
                              case None => old(currentItem))
    {
      ghost var frames := Frames();
      for i := 0 to |items|
        invariant forall j :: 0 <= j < i ==> !Contains(frames[j], location)
        invariant currentItem == old(currentItem)
      {
        if Contains(items[i].frame, location) {
          currentItem := items[i];
          FirstHitAt(frames, location, i);
          break;
        }
      }
    }

    /**
     * Finger lifted: the current item is reported as selected only if it is
     * active; then the menu is dismissed.
     */
    method LongPressEnded()
      requires Valid() && contextMenuView != null
      modifies this, items
      ensures Valid() && ClosedAfter(old(SelectionOnRelease()))
      ensures Frames() == old(Frames())
    {
      if currentItem != null && currentItem.isActive {
        events := events + Notify([ItemSelected(currentItem)]);
      }
      DismissMenu();
    }

    /** Gesture cancelled: the menu is dismissed and nothing is selected. */
    method LongPressCancelled()
      requires Valid() && contextMenuView != null
      modifies this, items
      ensures Valid() && ClosedAfter([])
      ensures Frames() == old(Frames())
    {
      DismissMenu();
    }

    /** Forgets the previous current item and opens a fresh menu view. */
    method ShowMenu(location: IntPoint)
      requires Valid() && contextMenuView == null
      modifies this
      ensures Valid() && OpenedAt(location)
    {
      currentItem := null;
      contextMenuView := new MenuView(location);
      events := events + Notify([MenuOpened]);
    }

    /**
     * Deactivates the current item (without a delegate call), reports the
     * menu closed and drops the menu view. The current item is kept.
     */
    method DismissMenu()
      requires Valid() && contextMenuView != null
      modifies this, items
      ensures Valid() && ClosedAfter([])
      ensures Frames() == old(Frames())
    {
      if currentItem != null {
        contextMenuView.Deactivate(currentItem);
      }
      events := events + Notify([MenuClosed]);
      contextMenuView := null;
    }
  }
}
