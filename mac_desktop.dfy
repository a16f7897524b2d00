/** The macOS-style overlay as a state holder: the window list and the drag
    session, replaced step by step by its event handlers. Each handler
    applies one of the list transforms of `MacWindows`. */
module MacDesktop {
  import opened Wrappers
  import Screen
  import opened MacWindows

  class Desktop {
    var windows: seq<Window>
    var drag: Option<DragSession>

    ghost predicate Valid()
      reads this
    {
      WellFormed(windows)
    }

    constructor ()
      ensures Valid() && windows == [] && drag == None
    {
      windows := [];
      drag := None;
    }

    /** `openApp`. The id (`appId-Date.now()`) and the two `Math.random()`
        draws are passed in; the id must not be on the desktop yet. */
    method OpenApp(app: OSApp, id: string, rect: Option<Screen.Rect>, rx: real, ry: real)
      requires Valid() && !HasId(windows, id)
      modifies this
      ensures Valid() && drag == old(drag)
      ensures windows == Open(old(windows), id, app, SpawnX(rect, app, rx), SpawnY(rect, app, ry))
      ensures OnTop(windows, id)
    {
      OpenKeepsWellFormed(windows, id, app, SpawnX(rect, app, rx), SpawnY(rect, app, ry));
      windows := Open(windows, id, app, SpawnX(rect, app, rx), SpawnY(rect, app, ry));
    }

    /** `bringToFront`, also what a pointer-down anywhere on a window does. */
    method BringToFront(id: string)
      requires Valid()
      modifies this
      ensures Valid() && drag == old(drag)
      ensures windows == MacWindows.BringToFront(old(windows), id)
      ensures HasId(old(windows), id) ==> OnTop(windows, id)
    {
      BringToFrontKeepsWellFormed(windows, id);
      windows := MacWindows.BringToFront(windows, id);
    }

    /** `closeWindow`; a drag session naming the id is left in place and its
        moves are dropped. */
    method CloseWindow(id: string)
      requires Valid()
      modifies this
      ensures Valid() && drag == old(drag)
      ensures windows == Close(old(windows), id)
      ensures !HasId(windows, id)
    {
      CloseKeepsWellFormed(windows, id);
      windows := Close(windows, id);
    }

    /** `minimizeWindow` */
    method MinimizeWindow(id: string)
      requires Valid()
      modifies this
      ensures Valid() && drag == old(drag)
      ensures windows == Minimize(old(windows), id)
    {
      SameStackingKeepsWellFormed(windows, Minimize(windows, id));
      windows := Minimize(windows, id);
    }

    /** `restoreWindow` */
    method RestoreWindow(id: string)
      requires Valid()
      modifies this
      ensures Valid() && drag == old(drag)
      ensures windows == Restore(old(windows), id)
      ensures HasId(old(windows), id) ==> OnTop(windows, id)
    {
      RestoreKeepsWellFormed(windows, id);
      windows := Restore(windows, id);
    }

    /** `toggleMaximize`, given the desktop's bounding box at that moment. */
    method ToggleMaximize(id: string, rect: Option<Screen.Rect>)
      requires Valid()
      modifies this
      ensures Valid() && drag == old(drag)
      ensures windows == MacWindows.ToggleMaximize(old(windows), id, rect)
    {
      SameStackingKeepsWellFormed(windows, MacWindows.ToggleMaximize(windows, id, rect));
      windows := MacWindows.ToggleMaximize(windows, id, rect);
    }

    /** Pointer-down on the title bar of the drawn window `win`, whose
        bounding box starts at `(left, top)`: start a drag and raise the
        window, unless it is maximized or the screen is a mobile one. */
    method TitleBarDown(win: Window, isMobile: bool, px: real, py: real, left: real, top: real)
      requires Valid() && win in windows
      modifies this
      ensures Valid()
      ensures CanDrag(win, isMobile) ==>
        drag == Some(Grab(win.id, px, py, left, top)) &&
        windows == MacWindows.BringToFront(old(windows), win.id) && OnTop(windows, win.id)
      ensures !CanDrag(win, isMobile) ==> drag == old(drag) && windows == old(windows)
    {
      if CanDrag(win, isMobile) {
        drag := Some(Grab(win.id, px, py, left, top));
        BringToFront(win.id);
      }
    }

    /** The global mousemove handler. */
    method PointerMove(px: real, py: real)
      requires Valid()
      modifies this
      ensures Valid() && drag == old(drag)
      ensures windows == DragMove(old(windows), drag, px, py)
    {
      SameStackingKeepsWellFormed(windows, DragMove(windows, drag, px, py));
      windows := DragMove(windows, drag, px, py);
    }

    /** The global mouseup handler: end the drag session, if any. */
    method PointerUp()
      requires Valid()
      modifies this
      ensures Valid() && windows == old(windows) && drag == None
    {
      drag := None;
    }

    /** A dock click. `freshId` and the two draws are used only when the
        click opens a new window. */
    method DockClick(b: DockButton, freshId: string, rect: Option<Screen.Rect>, rx: real, ry: real)
      requires Valid() && !HasId(windows, freshId)
      modifies this
      ensures Valid() && drag == old(drag)
      ensures windows == match MacWindows.DockClick(old(windows), b)
        case RestoreWindow(id) => Restore(old(windows), id)
        case OpenWindow(app) => Open(old(windows), freshId, app, SpawnX(rect, app, rx), SpawnY(rect, app, ry))
        case Ignore => old(windows)
    {
      match MacWindows.DockClick(windows, b)
      case RestoreWindow(id) => RestoreWindow(id);
      case OpenWindow(app) => OpenApp(app, freshId, rect, rx, ry);
      case Ignore =>
    }
  }
}
