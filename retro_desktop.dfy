/** The retro overlay as a state holder: the window list, the drag session
    and the resize session, replaced step by step by its event handlers.
    Each handler applies one of the list transforms of `RetroWindows`. */
module RetroDesktop {
  import opened Wrappers
  import Screen
  import opened RetroWindows

  class Overlay {
    var windows: seq<Window>
    var drag: Option<DragSession>
    var sizeDrag: Option<SizeSession>

    ghost predicate Valid()
      reads this
    {
      WellFormed(windows)
    }

    constructor ()
      ensures Valid() && windows == [] && drag == None && sizeDrag == None
    {
      windows := [];
      drag := None;
      sizeDrag := None;
    }

    /** `openApp`. The id (`key-Date.now()`) and the two `Math.random()`
        draws are passed in; the id must not be on the desktop yet. */
    method OpenApp(app: AppKey, id: string, rect: Option<Screen.Rect>, rx: real, ry: real)
      requires Valid() && !HasId(windows, id)
      modifies this
      ensures Valid() && drag == old(drag) && sizeDrag == old(sizeDrag)
      ensures windows == Open(old(windows), id, app, SpawnX(rect, rx), SpawnY(rect, ry))
      ensures OnTop(windows, id)
    {
      OpenKeepsWellFormed(windows, id, app, SpawnX(rect, rx), SpawnY(rect, ry));
      windows := Open(windows, id, app, SpawnX(rect, rx), SpawnY(rect, ry));
    }

    /** `bringToFront`, also what a pointer-down anywhere on a window does. */
    method BringToFront(id: string)
      requires Valid()
      modifies this
      ensures Valid() && drag == old(drag) && sizeDrag == old(sizeDrag)
      ensures windows == RetroWindows.BringToFront(old(windows), id)
      ensures HasId(old(windows), id) ==> OnTop(windows, id)
    {
      BringToFrontKeepsWellFormed(windows, id);
      windows := RetroWindows.BringToFront(windows, id);
    }

    /** `closeWindow` */
    method CloseWindow(id: string)
      requires Valid()
      modifies this
      ensures Valid() && drag == old(drag) && sizeDrag == old(sizeDrag)
      ensures windows == Close(old(windows), id)
      ensures !HasId(windows, id)
    {
      CloseKeepsWellFormed(windows, id);
      windows := Close(windows, id);
    }

    /** Pointer-down on the title bar of the drawn window `win`, whose
        bounding box starts at `(left, top)`: start a drag and raise it. */
    method TitleBarDown(win: Window, px: real, py: real, left: real, top: real)
      requires Valid() && win in windows
      modifies this
      ensures Valid() && sizeDrag == old(sizeDrag)
      ensures drag == Some(Grab(win.id, px, py, left, top))
      ensures windows == RetroWindows.BringToFront(old(windows), win.id)
      ensures OnTop(windows, win.id)
    {
      drag := Some(Grab(win.id, px, py, left, top));
      BringToFront(win.id);
    }

    /** Pointer-down on the resize handle of the drawn window `win`: take the
        snapshot the resize is computed from. */
    method ResizeHandleDown(win: Window, px: real, py: real)
      requires Valid() && win in windows
      modifies this
      ensures Valid() && windows == old(windows) && drag == old(drag)
      ensures sizeDrag == Some(StartResize(win, px, py))
    {
      sizeDrag := Some(StartResize(win, px, py));
    }

    /** The global mousemove handler: the drag update, then the resize update. */
    method PointerMove(px: real, py: real)
      requires Valid()
      modifies this
      ensures Valid() && drag == old(drag) && sizeDrag == old(sizeDrag)
      ensures windows == RetroWindows.PointerMove(old(windows), drag, sizeDrag, px, py)
    {
      PointerMoveKeepsWellFormed(windows, drag, sizeDrag, px, py);
      windows := RetroWindows.PointerMove(windows, drag, sizeDrag, px, py);
    }

    /** The global mouseup handler: end both sessions. Calling it again
        changes nothing. */
    method PointerUp()
      requires Valid()
      modifies this
      ensures Valid() && windows == old(windows)
      ensures drag == None && sizeDrag == None
    {
      drag := None;
      sizeDrag := None;
    }
  }
}
