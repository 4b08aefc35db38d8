/**
 * Client scenarios for the gesture handler: what a host sees for short touch
 * sequences, derived from the handler's contracts alone.
 */
module TrackerScenarios {
  import opened Optional
  import opened MenuTracker

  /** Three 45-point items in a row, at x = 0, 50 and 100, and a menu over them. */
  method ThreeItemMenu(hasDelegate: bool) returns (menu: Builder, a: Item, b: Item, c: Item)
    ensures fresh(menu) && fresh(a) && fresh(b) && fresh(c) && a != b && b != c && a != c
    ensures menu.items == [a, b, c] && menu.hasDelegate == hasDelegate
    ensures menu.Frames() == [Rect(0, 0, 45, 45), Rect(50, 0, 45, 45), Rect(100, 0, 45, 45)]
    ensures menu.Valid() && menu.contextMenuView == null && menu.events == []
    ensures !a.isActive && !b.isActive && !c.isActive
  {
    a := new Item("copy", Rect(0, 0, 45, 45));
    b := new Item("share", Rect(50, 0, 45, 45));
    c := new Item("delete", Rect(100, 0, 45, 45));
    menu := new Builder([a, b, c], hasDelegate);
  }

  // ---------------------------------------------------------------------------
  // Single steps of a gesture, each stated for the host that has a delegate

  /** A long press followed by a first move onto item `k`: it becomes current, still inactive. */
  method OpenAndMoveOnto(menu: Builder, k: nat, p: IntPoint)
    requires menu.Valid() && menu.contextMenuView == null && menu.events == [] && menu.hasDelegate
    requires k < |menu.items| && FirstHit(menu.Frames(), p) == Some(k)
    modifies menu, menu.items
    ensures menu.Valid() && menu.contextMenuView != null
    ensures menu.currentItem == menu.items[k] && !menu.items[k].isActive
    ensures menu.Frames() == old(menu.Frames())
    ensures menu.events == [MenuOpened]
  {
    menu.LongPressBegan(IntPoint(60, 200));
    assert menu.events == [MenuOpened] && menu.currentItem == null;
    menu.LongPressMoved(p);
  }

  /** A move inside the inactive current item's frame activates it. */
  method ActivateCurrent(menu: Builder, p: IntPoint)
    requires menu.Valid() && menu.contextMenuView != null && menu.hasDelegate
    requires menu.currentItem != null && !menu.currentItem.isActive && Contains(menu.currentItem.frame, p)
    modifies menu, menu.items
    ensures menu.Valid() && menu.contextMenuView == old(menu.contextMenuView)
    ensures menu.currentItem == old(menu.currentItem) && menu.currentItem.isActive
    ensures menu.Frames() == old(menu.Frames())
    ensures menu.events == old(menu.events) + [ItemWasActivated(menu.currentItem)]
  {
    menu.LongPressMoved(p);
  }

  /** Opens the menu and moves twice to `p`, over item `k`, which ends active. */
  method OpenAndActivate(menu: Builder, k: nat, p: IntPoint)
    requires menu.Valid() && menu.contextMenuView == null && menu.events == [] && menu.hasDelegate
    requires k < |menu.items| && FirstHit(menu.Frames(), p) == Some(k)
    modifies menu, menu.items
    ensures menu.Valid() && menu.contextMenuView != null
    ensures menu.currentItem == menu.items[k] && menu.items[k].isActive
    ensures menu.Frames() == old(menu.Frames())
    ensures menu.events == [MenuOpened, ItemWasActivated(menu.items[k])]
  {
    OpenAndMoveOnto(menu, k, p);
    assert Contains(menu.items[k].frame, p);
    ActivateCurrent(menu, p);
  }

  /** Moves within the frame of the active current item: nothing happens. */
  method MoveWithin(menu: Builder, p: IntPoint)
    requires menu.Valid() && menu.contextMenuView != null
    requires menu.currentItem != null && menu.currentItem.isActive && Contains(menu.currentItem.frame, p)
    modifies menu, menu.items
    ensures menu.Valid() && menu.contextMenuView == old(menu.contextMenuView)
    ensures menu.currentItem == old(menu.currentItem) && menu.currentItem.isActive
    ensures menu.Frames() == old(menu.Frames())
    ensures menu.events == old(menu.events)
  {
    menu.LongPressMoved(p);
  }

  /** Moves from the active current item to a point over no item at all: it is deactivated. */
  method MoveOff(menu: Builder, p: IntPoint)
    requires menu.Valid() && menu.contextMenuView != null && menu.hasDelegate
    requires menu.currentItem != null && menu.currentItem.isActive
    requires FirstHit(menu.Frames(), p) == None
    modifies menu, menu.items
    ensures menu.Valid() && menu.contextMenuView == old(menu.contextMenuView)
    ensures menu.currentItem == old(menu.currentItem) && !menu.currentItem.isActive
    ensures menu.Frames() == old(menu.Frames())
    ensures menu.events == old(menu.events) + [ItemWasDeactivated(menu.currentItem)]
  {
    ghost var k :| 0 <= k < |menu.items| && menu.items[k] == menu.currentItem;
    assert !Contains(menu.Frames()[k], p);
    menu.LongPressMoved(p);
  }

  /** Lifting the finger: the selection, if any, then `menuClosed`; no item stays active. */
  method Release(menu: Builder)
    requires menu.Valid() && menu.contextMenuView != null && menu.hasDelegate
    modifies menu, menu.items
    ensures menu.Valid() && menu.contextMenuView == null && menu.currentItem == old(menu.currentItem)
    ensures forall i :: 0 <= i < |menu.items| ==> !menu.items[i].isActive
    ensures menu.events == old(menu.events) + old(menu.SelectionOnRelease()) + [MenuClosed]
  {
    menu.LongPressEnded();
  }

  // ---------------------------------------------------------------------------
  // Whole gestures

  /**
   * Move onto the third item (it becomes current), move again inside it (it is
   * activated), move off to empty space (it is deactivated), release: one
   * activation, one deactivation, no selection.
   */
  method HoverLeaveRelease()
  {
    var menu, a, b, c := ThreeItemMenu(true);
    var inside, outside := IntPoint(120, 20), IntPoint(300, 300);
    FirstHitAt(menu.Frames(), inside, 2);
    OpenAndActivate(menu, 2, inside);
    assert FirstHit(menu.Frames(), outside) == None;
    MoveOff(menu, outside);
    ghost var beforeRelease := menu.events;
    assert beforeRelease == [MenuOpened, ItemWasActivated(c), ItemWasDeactivated(c)];
    assert menu.SelectionOnRelease() == [];
    Release(menu);
    assert menu.events == beforeRelease + [MenuClosed];
  }

  /**
   * Releasing right after the first move onto an item selects nothing: the
   * item became current but was never activated.
   */
  method ReleaseAfterSingleMove()
  {
    var menu, a, b, c := ThreeItemMenu(true);
    var p := IntPoint(60, 10);
    FirstHitAt(menu.Frames(), p, 1);
    OpenAndMoveOnto(menu, 1, p);
    ghost var beforeRelease := menu.events;
    assert menu.SelectionOnRelease() == [];
    Release(menu);
    assert menu.events == beforeRelease + [MenuClosed] == [MenuOpened, MenuClosed];
  }

  /** Once an item is active, another move inside it changes nothing, and release selects it. */
  method ActivateThenSelect()
  {
    var menu, a, b, c := ThreeItemMenu(true);
    var p := IntPoint(10, 10);
    FirstHitAt(menu.Frames(), p, 0);
    OpenAndActivate(menu, 0, p);
    MoveWithin(menu, p);
    ghost var beforeRelease := menu.events;
    assert beforeRelease == [MenuOpened, ItemWasActivated(a)] && menu.currentItem == a;
    assert menu.SelectionOnRelease() == [ItemSelected(a)];
    Release(menu);
    assert menu.events == beforeRelease + [ItemSelected(a), MenuClosed];
    assert menu.items[1] == b && menu.items[2] == c;
    assert !a.isActive && !b.isActive && !c.isActive;
  }

  /** A cancelled gesture never selects, even over an active item. */
  method CancelOverActiveItem()
  {
    var menu, a, b, c := ThreeItemMenu(false);
    var p := IntPoint(10, 10);
    FirstHitAt(menu.Frames(), p, 0);
    menu.SetupTouchAction(Began, IntPoint(60, 200));
    menu.SetupTouchAction(Changed, p);
    menu.SetupTouchAction(Changed, p);
    assert a.isActive;
    menu.SetupTouchAction(Cancelled, p);
    assert !a.isActive && menu.events == [];
  }
}
