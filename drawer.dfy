/**
 * The drawer component: its state fields and its event handlers, each of
 * which updates the fields in place. Every handler is proved against the
 * value-level transitions of the Navigation and Gesture modules.
 */
module Drawer {
  import opened Menu
  import Navigation
  import opened Gesture

  /** The inline style the drag writes onto the drawer element. */
  datatype Style = Resting | Shifted(offset: nat, opacity: real)

  class MenuDrawer {
    // props supplied by the host
    var root: MenuNode
    var isOpen: bool
    // navigation state
    var current: MenuNode
    var history: seq<MenuNode>
    // drag state and the element's inline style
    var drag: DragState
    var style: Style
    // the body scroll-lock marker
    var scrollLocked: bool

    function Nav(): Navigation.NavState
      reads this
    {
      Navigation.NavState(current, history)
    }

    /**
     * The drag record is consistent, the scroll lock is held exactly while
     * open, and a closed drawer (whose element is not rendered) has no inline
     * style and shows the root with no history, so reopening starts at the top.
     */
    ghost predicate Valid()
      reads this
    {
      && Consistent(drag)
      && scrollLocked == isOpen
      && (!isOpen ==> style == Resting && Nav() == Navigation.AtRoot(root))
    }

    constructor (menuData: MenuNode, open: bool)
      ensures Valid()
      ensures root == menuData && isOpen == open
      ensures Nav() == Navigation.AtRoot(menuData) && drag == Idle && style == Resting
    {
      root, isOpen := menuData, open;
      current, history := menuData, [];
      drag, style := Idle, Resting;
      scrollLocked := open;
    }

    /**
     * New props from the host. The reset effect depends on the open flag and
     * the root: when either changed and the drawer is now closed, navigation
     * returns to the root with no history.
     */
    method SetProps(open: bool, menuData: MenuNode)
      requires Valid()
      modifies this
      ensures Valid()
      ensures isOpen == open && root == menuData && drag == old(drag)
      ensures style == if open then old(style) else Resting
      ensures Nav() == if !open && (old(isOpen) || old(root) != menuData)
                       then Navigation.AtRoot(menuData) else old(Nav())
    {
      var changed := open != isOpen || menuData != root;
      isOpen, root := open, menuData;
      if changed && !open {
        history := [];
        current := menuData;
      }
      scrollLocked := open;
      if !open {
        style := Resting;
      }
    }

    /** A click on `item` (items are rendered only while open): enters it only when it has children. */
    method Navigate(item: MenuNode)
      requires Valid() && isOpen
      modifies this`current, this`history
      ensures Valid()
      ensures Nav() == Navigation.Navigate(old(Nav()), item)
      ensures Expandable(item) ==> history == old(history) + [old(current)] && current == LevelOf(item)
      ensures !Expandable(item) ==> current == old(current) && history == old(history)
    {
      if Expandable(item) {
        history := history + [current];
        current := LevelOf(item);
      }
    }

    /**
     * Back (the back button and the keyboard listener exist only while open):
     * restores the last history entry; nothing at the root.
     */
    method Back()
      requires Valid() && isOpen
      modifies this`current, this`history
      ensures Valid()
      ensures Nav() == Navigation.Back(old(Nav()))
      ensures |old(history)| > 0 ==>
                current == old(history)[|old(history)| - 1] && history == old(history)[..|old(history)| - 1]
      ensures old(history) == [] ==> current == old(current) && history == []
    {
      if |history| > 0 {
        var previous := history[|history| - 1];
        current := previous;
        history := history[..|history| - 1];
      }
    }

    /**
     * Touch start or mouse down on the drawer element, which exists only while
     * open; a mouse press counts only for the left button.
     */
    method PointerDown(press: Press)
      requires Valid() && isOpen
      modifies this`drag
      ensures Valid()
      ensures drag == Start(old(drag), press)
      ensures press.Touch? || press.button == 0 ==> drag == DragState(true, press.clientY, press.clientY, 0)
      ensures press.Mouse? && press.button != 0 ==> drag == old(drag)
    {
      if press.Mouse? && press.button != 0 {
        return;
      }
      drag := DragState(true, press.clientY, press.clientY, 0);
    }

    /** Touch move or mouse move to `y`: updates the distance and the inline style. */
    method PointerMove(y: int)
      requires Valid()
      modifies this`drag, this`style
      ensures Valid()
      ensures drag == MoveTo(old(drag), y)
      ensures old(drag).isDragging ==> drag.dragDistance == Clamp(y - drag.startY)
      ensures style == if old(drag).isDragging && isOpen
                       then Shifted(drag.dragDistance, Opacity(drag.dragDistance)) else old(style)
    {
      if !drag.isDragging {
        return;
      }
      var distance := Clamp(y - drag.startY);
      drag := drag.(currentY := y, dragDistance := distance);
      if isOpen {
        style := Shifted(distance, Opacity(distance));
      }
    }

    /**
     * Touch end or mouse up. `offsetHeight` is the drawer element's measured
     * height; with no element rendered the height is 0. Returns whether the
     * close callback is invoked; otherwise the drawer snaps back.
     */
    method PointerUp(offsetHeight: nat) returns (close: bool)
      requires Valid()
      modifies this`drag, this`style
      ensures Valid()
      ensures (drag, close) == Release(old(drag), if isOpen then offsetHeight else 0)
      ensures old(drag).isDragging ==> drag == Idle
      ensures close <==> old(drag).isDragging
                         && ShouldClose(old(drag).dragDistance, if isOpen then offsetHeight else 0)
      ensures style == if old(drag).isDragging && !close then Resting else old(style)
    {
      close := false;
      if !drag.isDragging {
        return;
      }
      var height := if isOpen then offsetHeight else 0;
      var shouldClose := ShouldClose(drag.dragDistance, height);
      drag := Idle;
      if shouldClose {
        close := true;
      } else {
        style := Resting;
      }
    }

    /**
     * A key press on `targetTag`, handled only while open. Escape invokes the
     * close callback; Backspace goes back when there is history and the
     * target is not an INPUT element.
     */
    method KeyDown(key: string, targetTag: string) returns (close: bool)
      requires Valid()
      modifies this`current, this`history
      ensures Valid()
      ensures close <==> isOpen && key == "Escape"
      ensures isOpen && key == "Backspace" && |old(history)| > 0 && targetTag != "INPUT" ==>
                Nav() == Navigation.Back(old(Nav()))
      ensures !(isOpen && key == "Backspace" && |old(history)| > 0 && targetTag != "INPUT") ==>
                current == old(current) && history == old(history)
    {
      close := false;
      if !isOpen {
        return;
      }
      var escape, backspace, inInput := key == "Escape", key == "Backspace", targetTag == "INPUT";
      if escape {
        close := true;
      } else if backspace && |history| > 0 && !inInput {
        Back();
      }
    }
  }
}
