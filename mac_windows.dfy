/** The window records of the macOS-style desktop overlay and the list
    transforms its event handlers hand to the state setter. Each transform
    is a function from the old window list to the new one. */
module MacWindows {
  import opened Wrappers
  import Seqs
  import Stacking
  import Screen

  /** A default window size declared by a content-managed app. */
  datatype Size = Size(width: real, height: real)

  /** The application descriptor a window shows, read-only to the desktop. */
  datatype OSApp = OSApp(appId: string, title: string, defaultSize: Option<Size>)

  /** One open window: geometry, stacking value and the two flags. */
  datatype Window = Window(
    id: string, app: OSApp,
    x: real, y: real, w: real, h: real,
    z: int, minimized: bool, maximized: bool)

  /** The pointer-down snapshot of a title-bar drag. */
  datatype DragSession = DragSession(id: string, offX: real, offY: real)

  const FallbackWindowWidth: real := 600.0
  const FallbackWindowHeight: real := 500.0
  /** Height the maximized window leaves free for the menu bar and dock. */
  const MaximizeMargin: real := 100.0

  // ---------------------------------------------------------------- queries

  function Zs(ws: seq<Window>): seq<int>
  {
    seq(|ws|, i requires 0 <= i < |ws| => ws[i].z)
  }

  /** The next stacking value: above every window and one above the top one. */
  function TopZ(ws: seq<Window>): (t: int)
    ensures |ws| == 0 ==> t == 1
    ensures forall i :: 0 <= i < |ws| ==> ws[i].z < t
    ensures |ws| > 0 ==> exists i :: 0 <= i < |ws| && ws[i].z == t - 1
  {
    var zs := Zs(ws);
    assert forall i :: 0 <= i < |ws| ==> zs[i] == ws[i].z;
    Stacking.TopZ(zs)
  }

  predicate HasId(ws: seq<Window>, id: string)
  {
    exists i :: 0 <= i < |ws| && ws[i].id == id
  }

  ghost predicate UniqueIds(ws: seq<Window>)
  {
    forall i, j :: 0 <= i < j < |ws| ==> ws[i].id != ws[j].id
  }

  ghost predicate DistinctZ(ws: seq<Window>)
  {
    forall i, j :: 0 <= i < j < |ws| ==> ws[i].z != ws[j].z
  }

  ghost predicate PositiveZ(ws: seq<Window>)
  {
    forall i :: 0 <= i < |ws| ==> ws[i].z >= 1
  }

  /** What the desktop keeps true of its window list: one record per id and
      positive, pairwise distinct stacking values. */
  ghost predicate WellFormed(ws: seq<Window>)
  {
    UniqueIds(ws) && DistinctZ(ws) && PositiveZ(ws)
  }

  /** The window `id` exists and is strictly above every other window. */
  ghost predicate OnTop(ws: seq<Window>, id: string)
  {
    exists i :: 0 <= i < |ws| && ws[i].id == id &&
      forall j :: 0 <= j < |ws| && j != i ==> ws[j].z < ws[i].z
  }

  /** `r` is `ws` with at most the records carrying `id` changed, and no
      record's id changed. */
  ghost predicate OnlyTouches(ws: seq<Window>, r: seq<Window>, id: string)
  {
    |r| == |ws| &&
    forall i :: 0 <= i < |ws| ==> r[i].id == ws[i].id && (ws[i].id != id ==> r[i] == ws[i])
  }

  /** `r` has the same records, ids and stacking values as `ws`, in order. */
  ghost predicate SameStacking(ws: seq<Window>, r: seq<Window>)
  {
    |r| == |ws| && forall i :: 0 <= i < |ws| ==> r[i].id == ws[i].id && r[i].z == ws[i].z
  }

  /** The geometry a window is drawn with. */
  function Geometry(win: Window): (real, real, real, real)
  {
    (win.x, win.y, win.w, win.h)
  }

  // ---------------------------------------------------------------- opening

  /** `app.defaultSize?.width || 600` */
  function DefaultWidth(app: OSApp): (r: real)
    ensures app.defaultSize.Some? && app.defaultSize.value.width != 0.0 ==> r == app.defaultSize.value.width
    ensures app.defaultSize.None? || app.defaultSize.value.width == 0.0 ==> r == FallbackWindowWidth
  {
    Screen.OrElse(if app.defaultSize.Some? then Some(app.defaultSize.value.width) else None, FallbackWindowWidth)
  }

  /** `app.defaultSize?.height || 500` */
  function DefaultHeight(app: OSApp): (r: real)
    ensures app.defaultSize.Some? && app.defaultSize.value.height != 0.0 ==> r == app.defaultSize.value.height
    ensures app.defaultSize.None? || app.defaultSize.value.height == 0.0 ==> r == FallbackWindowHeight
  {
    Screen.OrElse(if app.defaultSize.Some? then Some(app.defaultSize.value.height) else None, FallbackWindowHeight)
  }

  /** Spawn position: the window centred on the desktop, then moved by
      `rand * 40 - 20` in each axis, where `rand` is the `Math.random()` draw. */
  function SpawnX(rect: Option<Screen.Rect>, app: OSApp, rand: real): (r: real)
    ensures r + DefaultWidth(app) / 2.0 == Screen.Width(rect) / 2.0 + (rand * 40.0 - 20.0)
    ensures 0.0 <= rand < 1.0 ==>
      (Screen.Width(rect) - DefaultWidth(app)) / 2.0 - 20.0 <= r < (Screen.Width(rect) - DefaultWidth(app)) / 2.0 + 20.0
  {
    (Screen.Width(rect) - DefaultWidth(app)) / 2.0 + rand * 40.0 - 20.0
  }

  function SpawnY(rect: Option<Screen.Rect>, app: OSApp, rand: real): (r: real)
    ensures r + DefaultHeight(app) / 2.0 == Screen.Height(rect) / 2.0 + (rand * 40.0 - 20.0)
    ensures 0.0 <= rand < 1.0 ==>
      (Screen.Height(rect) - DefaultHeight(app)) / 2.0 - 20.0 <= r < (Screen.Height(rect) - DefaultHeight(app)) / 2.0 + 20.0
  {
    (Screen.Height(rect) - DefaultHeight(app)) / 2.0 + rand * 40.0 - 20.0
  }

  /** The `openApp` updater: append one record at the spawn position. */
  function Open(ws: seq<Window>, id: string, app: OSApp, x: real, y: real): (r: seq<Window>)
    ensures |r| == |ws| + 1 && r[..|ws|] == ws
    ensures r[|ws|].id == id && r[|ws|].app == app && r[|ws|].x == x && r[|ws|].y == y
    ensures !r[|ws|].minimized && !r[|ws|].maximized
    ensures r[|ws|].w == DefaultWidth(app) && r[|ws|].h == DefaultHeight(app)
    ensures r[|ws|].z == TopZ(ws)
    ensures forall i :: 0 <= i < |ws| ==> r[i].z < r[|ws|].z
  {
    ws + [Window(id, app, x, y, DefaultWidth(app), DefaultHeight(app), TopZ(ws), false, false)]
  }

  // ------------------------------------------------------- focus and close

  /** The `bringToFront` updater. */
  function BringToFront(ws: seq<Window>, id: string): (r: seq<Window>)
    ensures OnlyTouches(ws, r, id)
    ensures forall i, j :: 0 <= i < |ws| && 0 <= j < |ws| && ws[i].id == id ==>
      r[i] == ws[i].(z := r[i].z) && r[i].z == TopZ(ws) && ws[j].z < r[i].z
  {
    var top := TopZ(ws);
    seq(|ws|, i requires 0 <= i < |ws| => if ws[i].id == id then ws[i].(z := top) else ws[i])
  }

  function KeepOthers(id: string): Window -> bool
  {
    (win: Window) => win.id != id
  }

  /** The `closeWindow` updater: keep every window whose id differs. */
  function Close(ws: seq<Window>, id: string): (r: seq<Window>)
    ensures forall i :: 0 <= i < |r| ==> r[i] in ws && r[i].id != id
    ensures forall i :: 0 <= i < |ws| && ws[i].id != id ==> ws[i] in r
  {
    Seqs.Filter(ws, KeepOthers(id))
  }

  // --------------------------------------------------- minimize / restore

  /** The `minimizeWindow` updater. */
  function Minimize(ws: seq<Window>, id: string): (r: seq<Window>)
    ensures OnlyTouches(ws, r, id) && SameStacking(ws, r)
    ensures forall i :: 0 <= i < |ws| && ws[i].id == id ==> r[i] == ws[i].(minimized := true)
  {
    seq(|ws|, i requires 0 <= i < |ws| => if ws[i].id == id then ws[i].(minimized := true) else ws[i])
  }

  /** The `restoreWindow` updater: show the window again and raise it. */
  function Restore(ws: seq<Window>, id: string): (r: seq<Window>)
    ensures OnlyTouches(ws, r, id)
    ensures forall i, j :: 0 <= i < |ws| && 0 <= j < |ws| && ws[i].id == id ==>
      r[i] == ws[i].(minimized := false, z := r[i].z) && r[i].z == TopZ(ws) && ws[j].z < r[i].z
  {
    var top := TopZ(ws);
    seq(|ws|, i requires 0 <= i < |ws| => if ws[i].id == id then ws[i].(minimized := false, z := top) else ws[i])
  }

  // --------------------------------------------------------------- maximize

  /** One window's maximize toggle: maximizing pins it to the desktop's
      bounds; un-maximizing only clears the flag. */
  function Toggled(win: Window, rect: Option<Screen.Rect>): (r: Window)
    ensures r.id == win.id && r.app == win.app && r.z == win.z && r.minimized == win.minimized
    ensures r.maximized == !win.maximized
    ensures win.maximized ==> Geometry(r) == Geometry(win)
    ensures !win.maximized ==> Geometry(r) == (0.0, 0.0, Screen.Width(rect), Screen.Height(rect) - MaximizeMargin)
  {
    if win.maximized then win.(maximized := false)
    else win.(maximized := true, x := 0.0, y := 0.0,
              w := Screen.Width(rect), h := Screen.Height(rect) - MaximizeMargin)
  }

  /** The `toggleMaximize` updater. */
  function ToggleMaximize(ws: seq<Window>, id: string, rect: Option<Screen.Rect>): (r: seq<Window>)
    ensures OnlyTouches(ws, r, id) && SameStacking(ws, r)
    ensures forall i :: 0 <= i < |ws| ==> r[i].minimized == ws[i].minimized
  {
    seq(|ws|, i requires 0 <= i < |ws| => if ws[i].id == id then Toggled(ws[i], rect) else ws[i])
  }

  // ------------------------------------------------------------------ drag

  /** The title-bar pointer-down guard: no drag on a maximized window or on
      a narrow (mobile) screen. */
  predicate CanDrag(win: Window, isMobile: bool)
    ensures win.maximized ==> !CanDrag(win, isMobile)
    ensures isMobile ==> !CanDrag(win, isMobile)
    ensures !win.maximized && !isMobile ==> CanDrag(win, isMobile)
  {
    !win.maximized && !isMobile
  }

  /** The grab offset recorded at pointer-down, relative to the top-left of
      the window's bounding rectangle. */
  function Grab(id: string, px: real, py: real, left: real, top: real): (r: DragSession)
    ensures r.id == id
    ensures left + r.offX == px && top + r.offY == py
  {
    DragSession(id, px - left, py - top)
  }

  /** The mousemove updater: move the dragged window so that the grab point
      stays under the pointer; nothing happens without a session. */
  function DragMove(ws: seq<Window>, drag: Option<DragSession>, px: real, py: real): (r: seq<Window>)
    ensures SameStacking(ws, r)
    ensures drag.None? ==> r == ws
    ensures drag.Some? ==> OnlyTouches(ws, r, drag.value.id)
    ensures drag.Some? ==> forall i :: 0 <= i < |ws| && ws[i].id == drag.value.id ==>
      r[i] == ws[i].(x := px - drag.value.offX, y := py - drag.value.offY)
  {
    if drag.None? then ws
    else
      var d := drag.value;
      seq(|ws|, i requires 0 <= i < |ws| => if ws[i].id == d.id then ws[i].(x := px - d.offX, y := py - d.offY) else ws[i])
  }

  // --------------------------------------------------------- render and dock

  predicate IsShown(win: Window)
  {
    !win.minimized
  }

  /** The windows the desktop draws: the non-minimized ones, in list order. */
  function Visible(ws: seq<Window>): (r: seq<Window>)
    ensures |r| <= |ws|
    ensures forall i :: 0 <= i < |r| ==> r[i] in ws && !r[i].minimized
    ensures forall i :: 0 <= i < |ws| && !ws[i].minimized ==> ws[i] in r
  {
    Seqs.Filter(ws, IsShown)
  }

  predicate MinimizedOf(win: Window, appId: string)
  {
    win.app.appId == appId && win.minimized
  }

  /** `windows.find(w => w.app.appId === appId && w.minimized)`, as an index. */
  function FindMinimized(ws: seq<Window>, appId: string): (r: Option<nat>)
    ensures r.Some? ==> r.value < |ws| && MinimizedOf(ws[r.value], appId)
    ensures r.Some? ==> forall j :: 0 <= j < r.value ==> !MinimizedOf(ws[j], appId)
    ensures r.None? ==> forall j :: 0 <= j < |ws| ==> !MinimizedOf(ws[j], appId)
  {
    if ws == [] then None
    else if MinimizedOf(ws[0], appId) then Some(0)
    else
      var rest := FindMinimized(ws[1..], appId);
      if rest.Some? then Some(rest.value + 1) else None
  }

  /** The dock's buttons: the fixed system apps and the content-managed apps. */
  datatype DockButton = SystemButton(appId: string) | ContentButton(app: OSApp)

  datatype DockAction = RestoreWindow(id: string) | OpenWindow(app: OSApp) | Ignore

  /** What a dock click does: restore the first minimized window of that app;
      failing that, a content button opens a new window and a system button
      does nothing. */
  function DockClick(ws: seq<Window>, b: DockButton): (a: DockAction)
    ensures b.SystemButton? ==> !a.OpenWindow?
    ensures a.RestoreWindow? <==> exists j :: 0 <= j < |ws| && MinimizedOf(ws[j], ButtonAppId(b))
    ensures a.RestoreWindow? ==>
      exists k :: 0 <= k < |ws| && ws[k].id == a.id && MinimizedOf(ws[k], ButtonAppId(b)) &&
        forall j :: 0 <= j < k ==> !MinimizedOf(ws[j], ButtonAppId(b))
    ensures a.OpenWindow? <==> b.ContentButton? && !a.RestoreWindow?
    ensures a.OpenWindow? ==> a.app == b.app
  {
    match FindMinimized(ws, ButtonAppId(b))
    case Some(k) => RestoreWindow(ws[k].id)
    case None => if b.ContentButton? then OpenWindow(b.app) else Ignore
  }

  function ButtonAppId(b: DockButton): string
  {
    match b
    case SystemButton(appId) => appId
    case ContentButton(app) => app.appId
  }

  // ================================================================ lemmas

  /** Opening with a fresh id keeps the list well formed and puts the new
      window strictly on top. */
  lemma OpenKeepsWellFormed(ws: seq<Window>, id: string, app: OSApp, x: real, y: real)
    requires WellFormed(ws) && !HasId(ws, id)
    ensures WellFormed(Open(ws, id, app, x, y))
    ensures OnTop(Open(ws, id, app, x, y), id)
  {
    var r := Open(ws, id, app, x, y);
    var n := |ws|;
    assert forall i :: 0 <= i < n ==> r[i] == ws[i];
    Stacking.TopZPositive(Zs(ws));
    assert r[n].z >= 1 by {
      if n > 0 {
        var k :| 0 <= k < n && ws[k].z == r[n].z - 1;
      }
    }
    assert forall j :: 0 <= j < |r| && j != n ==> r[j].z < r[n].z;
  }

  /** The freshness of the id matters: re-using an id already on the desktop
      gives two records with that id. */
  lemma OpenDuplicateBreaksUniqueness(ws: seq<Window>, id: string, app: OSApp, x: real, y: real)
    requires HasId(ws, id)
    ensures !UniqueIds(Open(ws, id, app, x, y))
  {
    var k :| 0 <= k < |ws| && ws[k].id == id;
    var r := Open(ws, id, app, x, y);
    assert r[k].id == r[|ws|].id;
  }

  /** Raising a window keeps the list well formed and leaves it strictly on
      top of every other window. */
  lemma BringToFrontKeepsWellFormed(ws: seq<Window>, id: string)
    requires WellFormed(ws)
    ensures WellFormed(BringToFront(ws, id))
    ensures HasId(ws, id) ==> OnTop(BringToFront(ws, id), id)
  {
    var r := BringToFront(ws, id);
    Stacking.TopZPositive(Zs(ws));
    RaisedKeepsWellFormed(ws, r, id);
  }

  /** Restoring a window keeps the list well formed and leaves it strictly on
      top of every other window. */
  lemma RestoreKeepsWellFormed(ws: seq<Window>, id: string)
    requires WellFormed(ws)
    ensures WellFormed(Restore(ws, id))
    ensures HasId(ws, id) ==> OnTop(Restore(ws, id), id)
  {
    var r := Restore(ws, id);
    RaisedKeepsWellFormed(ws, r, id);
  }

  /** Shared step of the two raising operations: the one record carrying `id`
      gets a stacking value above all old ones, and nothing else moves. */
  lemma RaisedKeepsWellFormed(ws: seq<Window>, r: seq<Window>, id: string)
    requires WellFormed(ws) && OnlyTouches(ws, r, id)
    requires forall i, j :: 0 <= i < |ws| && 0 <= j < |ws| && ws[i].id == id ==> ws[j].z < r[i].z
    ensures WellFormed(r)
    ensures HasId(ws, id) ==> OnTop(r, id)
  {
    forall i, j | 0 <= i < j < |r| ensures r[i].z != r[j].z {
      if ws[i].id == id {
        assert ws[j].id != id;
      } else if ws[j].id == id {
        assert ws[i].z < r[j].z;
      }
    }
    forall i | 0 <= i < |r| ensures r[i].z >= 1 {
      if ws[i].id == id {
        assert ws[i].z < r[i].z;
      }
    }
    if HasId(ws, id) {
      var k :| 0 <= k < |ws| && ws[k].id == id;
      forall j | 0 <= j < |r| && j != k ensures r[j].z < r[k].z {
        assert ws[j].id != id by {
          if j < k { assert ws[j].id != ws[k].id; } else { assert ws[k].id != ws[j].id; }
        }
      }
    }
  }

  /** Operations that leave ids and stacking values alone (minimize, the
      maximize toggle, a drag move) keep the list well formed. */
  lemma SameStackingKeepsWellFormed(ws: seq<Window>, r: seq<Window>)
    requires WellFormed(ws) && SameStacking(ws, r)
    ensures WellFormed(r)
  {
  }

  /** With one record per id, an operation confined to `id` changes at most
      one record. */
  lemma AtMostOneChanged(ws: seq<Window>, r: seq<Window>, id: string)
    requires UniqueIds(ws) && OnlyTouches(ws, r, id)
    ensures forall i, j :: 0 <= i < |ws| && 0 <= j < |ws| && r[i] != ws[i] && r[j] != ws[j] ==> i == j
  {
    forall i, j | 0 <= i < |ws| && 0 <= j < |ws| && r[i] != ws[i] && r[j] != ws[j] ensures i == j {
      assert ws[i].id == id && ws[j].id == id;
    }
  }

  /** Closing the window at position `k` removes exactly that record and
      keeps the others in their order. */
  lemma CloseRemovesAt(ws: seq<Window>, k: nat)
    requires UniqueIds(ws) && k < |ws|
    ensures Close(ws, ws[k].id) == ws[..k] + ws[k + 1..]
  {
    var id := ws[k].id;
    forall i | 0 <= i < |ws| && i != k ensures KeepOthers(id)(ws[i]) {
      if i < k { assert ws[i].id != ws[k].id; } else { assert ws[k].id != ws[i].id; }
    }
    Seqs.FilterDropsOne(ws, k, KeepOthers(id));
  }

  /** Closing an id that is not on the desktop changes nothing. */
  lemma CloseAbsent(ws: seq<Window>, id: string)
    requires !HasId(ws, id)
    ensures Close(ws, id) == ws
  {
    Seqs.FilterKeepsAll(ws, KeepOthers(id));
  }

  /** Closing keeps the list well formed and removes every record of `id`. */
  lemma CloseKeepsWellFormed(ws: seq<Window>, id: string)
    requires WellFormed(ws)
    ensures WellFormed(Close(ws, id))
    ensures !HasId(Close(ws, id), id)
  {
    if HasId(ws, id) {
      var k :| 0 <= k < |ws| && ws[k].id == id;
      CloseRemovesAt(ws, k);
      RemoveAtKeepsWellFormed(ws, k);
    } else {
      CloseAbsent(ws, id);
    }
  }

  lemma RemoveAtKeepsWellFormed(ws: seq<Window>, k: nat)
    requires WellFormed(ws) && k < |ws|
    ensures WellFormed(ws[..k] + ws[k + 1..])
  {
    var r := ws[..k] + ws[k + 1..];
    assert forall i :: 0 <= i < |r| ==> r[i] == ws[if i < k then i else i + 1];
  }

  /** Minimizing then restoring a window gives back its geometry and its
      maximized flag; only its stacking value may differ. Other windows are
      untouched. */
  lemma MinimizeThenRestore(ws: seq<Window>, id: string)
    ensures |Restore(Minimize(ws, id), id)| == |ws|
    ensures forall i :: 0 <= i < |ws| && ws[i].id == id ==>
      Restore(Minimize(ws, id), id)[i] == ws[i].(minimized := false, z := Restore(Minimize(ws, id), id)[i].z)
    ensures forall i :: 0 <= i < |ws| && ws[i].id != id ==> Restore(Minimize(ws, id), id)[i] == ws[i]
  {
  }

  /** Maximizing a window that is not maximized pins it to the desktop's
      bounds, less the margin for the bars. */
  lemma MaximizePins(ws: seq<Window>, id: string, rect: Option<Screen.Rect>, i: nat)
    requires i < |ws| && ws[i].id == id && !ws[i].maximized
    ensures ToggleMaximize(ws, id, rect)[i].maximized
    ensures Geometry(ToggleMaximize(ws, id, rect)[i]) ==
      (0.0, 0.0, Screen.Width(rect), Screen.Height(rect) - MaximizeMargin)
    ensures rect.None? ==> Geometry(ToggleMaximize(ws, id, rect)[i]) == (0.0, 0.0, 1200.0, 700.0)
    ensures ToggleMaximize(ws, id, rect)[i] ==
      ws[i].(maximized := true, x := 0.0, y := 0.0, w := Screen.Width(rect), h := Screen.Height(rect) - MaximizeMargin)
  {
  }

  /** Un-maximizing only clears the flag: the geometry stays the maximized
      one; the earlier geometry is not brought back. */
  lemma UnmaximizeKeepsGeometry(ws: seq<Window>, id: string, rect: Option<Screen.Rect>, i: nat)
    requires i < |ws| && ws[i].id == id && ws[i].maximized
    ensures ToggleMaximize(ws, id, rect)[i] == ws[i].(maximized := false)
  {
  }

  /** Toggling twice from the normal state leaves the window un-maximized at
      the maximized geometry, so the round trip restores the original
      geometry only if the window already had exactly that geometry. */
  lemma ToggleTwice(ws: seq<Window>, id: string, rect: Option<Screen.Rect>, i: nat)
    requires i < |ws| && ws[i].id == id && !ws[i].maximized
    ensures !ToggleMaximize(ToggleMaximize(ws, id, rect), id, rect)[i].maximized
    ensures Geometry(ToggleMaximize(ToggleMaximize(ws, id, rect), id, rect)[i]) ==
      (0.0, 0.0, Screen.Width(rect), Screen.Height(rect) - MaximizeMargin)
    ensures Geometry(ToggleMaximize(ToggleMaximize(ws, id, rect), id, rect)[i]) == Geometry(ws[i]) <==>
      Geometry(ws[i]) == (0.0, 0.0, Screen.Width(rect), Screen.Height(rect) - MaximizeMargin)
  {
    MaximizePins(ws, id, rect, i);
    UnmaximizeKeepsGeometry(ToggleMaximize(ws, id, rect), id, rect, i);
  }

  /** After a grab at pointer `(px, py)` on a window whose bounding box starts
      at `(left, top)`, a move to `(qx, qy)` places the dragged window at
      `(left, top)` shifted by the pointer's displacement, unclamped. */
  lemma DragFollowsPointer(ws: seq<Window>, id: string, px: real, py: real, left: real, top: real,
                           qx: real, qy: real, i: nat)
    requires i < |ws| && ws[i].id == id
    ensures DragMove(ws, Some(Grab(id, px, py, left, top)), qx, qy)[i].x == left + (qx - px)
    ensures DragMove(ws, Some(Grab(id, px, py, left, top)), qx, qy)[i].y == top + (qy - py)
  {
  }

  /** Grab at (150, 150) on a window at (100, 100), move to (200, 180): the
      window lands at (150, 130). */
  lemma DragExample(ws: seq<Window>, i: nat)
    requires i < |ws| && ws[i].x == 100.0 && ws[i].y == 100.0
    ensures Geometry(DragMove(ws, Some(Grab(ws[i].id, 150.0, 150.0, ws[i].x, ws[i].y)), 200.0, 180.0)[i]) ==
      (150.0, 130.0, ws[i].w, ws[i].h)
  {
    DragFollowsPointer(ws, ws[i].id, 150.0, 150.0, 100.0, 100.0, 200.0, 180.0, i);
  }

  /** A move is computed from the grab snapshot, not accumulated: only the
      last pointer position counts. */
  lemma DragLastMoveWins(ws: seq<Window>, drag: Option<DragSession>, px: real, py: real, qx: real, qy: real)
    ensures DragMove(DragMove(ws, drag, px, py), drag, qx, qy) == DragMove(ws, drag, qx, qy)
  {
  }

  /** A move for a window that has since been closed is dropped. */
  lemma DragOfClosedWindow(ws: seq<Window>, d: DragSession, px: real, py: real)
    requires !HasId(ws, d.id)
    ensures DragMove(ws, Some(d), px, py) == ws
  {
  }

  /** The drawn windows are exactly the non-minimized ones. */
  lemma VisibleIsNotMinimized(ws: seq<Window>)
    ensures forall i :: 0 <= i < |Visible(ws)| ==> Visible(ws)[i] in ws && !Visible(ws)[i].minimized
    ensures forall i :: 0 <= i < |ws| && !ws[i].minimized ==> ws[i] in Visible(ws)
  {
  }

  /** A freshly opened window is drawn, after every window drawn before. */
  lemma VisibleAfterOpen(ws: seq<Window>, id: string, app: OSApp, x: real, y: real)
    ensures Visible(Open(ws, id, app, x, y)) == Visible(ws) + [Open(ws, id, app, x, y)[|ws|]]
  {
    var r := Open(ws, id, app, x, y);
    assert r == ws + [r[|ws|]];
    Seqs.FilterAppend(ws, [r[|ws|]], IsShown);
    assert [r[|ws|]][1..] == [];
  }

  /** Minimizing hides the window and leaves the others' visibility alone. */
  lemma MinimizeHides(ws: seq<Window>, id: string)
    ensures forall i :: 0 <= i < |Visible(Minimize(ws, id))| ==> Visible(Minimize(ws, id))[i].id != id
    ensures forall i :: 0 <= i < |ws| && ws[i].id != id && !ws[i].minimized ==> ws[i] in Visible(Minimize(ws, id))
  {
    var r := Minimize(ws, id);
    forall i | 0 <= i < |Visible(r)| ensures Visible(r)[i].id != id {
      var v := Visible(r)[i];
      assert v in r && !v.minimized;
    }
    forall i | 0 <= i < |ws| && ws[i].id != id && !ws[i].minimized ensures ws[i] in Visible(r) {
      assert r[i] == ws[i];
    }
  }

  /** Opening an app without a declared size twice in a row, with two fresh
      ids, gives two visible 600x500 windows, the second above the first. */
  lemma OpenTwiceExample(ws: seq<Window>, id1: string, id2: string, app: OSApp,
                         x1: real, y1: real, x2: real, y2: real)
    requires WellFormed(ws) && !HasId(ws, id1) && !HasId(ws, id2) && id1 != id2
    requires app.defaultSize.None?
    ensures var r := Open(Open(ws, id1, app, x1, y1), id2, app, x2, y2);
      && WellFormed(r) && |r| == |ws| + 2
      && r[|ws|].id == id1 && r[|ws| + 1].id == id2
      && Geometry(r[|ws|]) == (x1, y1, 600.0, 500.0) && Geometry(r[|ws| + 1]) == (x2, y2, 600.0, 500.0)
      && r[|ws|] in Visible(r) && r[|ws| + 1] in Visible(r)
      && r[|ws|].z < r[|ws| + 1].z
  {
    var r1 := Open(ws, id1, app, x1, y1);
    OpenKeepsWellFormed(ws, id1, app, x1, y1);
    assert !HasId(r1, id2) by {
      assert forall i :: 0 <= i < |ws| ==> r1[i] == ws[i];
    }
    OpenKeepsWellFormed(r1, id2, app, x2, y2);
    var r := Open(r1, id2, app, x2, y2);
    assert r[|ws|] == r1[|ws|];
    VisibleIsNotMinimized(r);
  }

  /** Closing a window and then minimizing the same id is harmless: nothing
      changes and no record appears. */
  lemma MinimizeAfterClose(ws: seq<Window>, id: string)
    ensures Minimize(Close(ws, id), id) == Close(ws, id)
  {
    var r := Close(ws, id);
    assert forall i :: 0 <= i < |r| ==> r[i].id != id;
  }

  /** The spawn point lies within 20 pixels of the centred position in each
      axis for every `Math.random()` draw in [0, 1). */
  lemma SpawnNearCentre(rect: Option<Screen.Rect>, app: OSApp, rx: real, ry: real)
    requires 0.0 <= rx < 1.0 && 0.0 <= ry < 1.0
    ensures var cx := (Screen.Width(rect) - DefaultWidth(app)) / 2.0;
      cx - 20.0 <= SpawnX(rect, app, rx) < cx + 20.0
    ensures var cy := (Screen.Height(rect) - DefaultHeight(app)) / 2.0;
      cy - 20.0 <= SpawnY(rect, app, ry) < cy + 20.0
  {
  }

  /** A window opened with the middle draw is exactly centred on the desktop. */
  lemma SpawnCentred(rect: Option<Screen.Rect>, app: OSApp)
    ensures SpawnX(rect, app, 0.5) + DefaultWidth(app) / 2.0 == Screen.Width(rect) / 2.0
    ensures SpawnY(rect, app, 0.5) + DefaultHeight(app) / 2.0 == Screen.Height(rect) / 2.0
  {
  }

  /** The size comes from the app's declared default, or 600x500 when it has
      none (or declares 0, which JavaScript's `||` treats as missing). */
  lemma DefaultSizeFallback(app: OSApp)
    ensures app.defaultSize.None? ==> DefaultWidth(app) == 600.0 && DefaultHeight(app) == 500.0
    ensures app.defaultSize.Some? && app.defaultSize.value.width != 0.0 ==> DefaultWidth(app) == app.defaultSize.value.width
    ensures app.defaultSize.Some? && app.defaultSize.value.height != 0.0 ==> DefaultHeight(app) == app.defaultSize.value.height
    ensures app.defaultSize.Some? && app.defaultSize.value.width == 0.0 ==> DefaultWidth(app) == 600.0
    ensures app.defaultSize.Some? && app.defaultSize.value.height == 0.0 ==> DefaultHeight(app) == 500.0
  {
  }

  /** The opened window takes the app's declared size when both sides are
      non-zero, and 600x500 when the app declares none. */
  lemma OpenUsesDeclaredSize(ws: seq<Window>, id: string, app: OSApp, x: real, y: real)
    ensures app.defaultSize.Some? && app.defaultSize.value.width != 0.0 && app.defaultSize.value.height != 0.0 ==>
      Open(ws, id, app, x, y)[|ws|].w == app.defaultSize.value.width &&
      Open(ws, id, app, x, y)[|ws|].h == app.defaultSize.value.height
    ensures app.defaultSize.None? ==>
      Open(ws, id, app, x, y)[|ws|].w == FallbackWindowWidth && Open(ws, id, app, x, y)[|ws|].h == FallbackWindowHeight
  {
    DefaultSizeFallback(app);
  }

  /** Stacking values are not fresh over a session: after the top window
      closes, the next window opened gets a z no higher than the closed one. */
  lemma CloseTopThenOpen(ws: seq<Window>, k: nat, id: string, app: OSApp, x: real, y: real)
    requires WellFormed(ws) && k < |ws|
    requires forall j :: 0 <= j < |ws| ==> ws[j].z <= ws[k].z
    ensures var c := Close(ws, ws[k].id); |c| == |ws| - 1 && Open(c, id, app, x, y)[|c|].z <= ws[k].z
  {
    var c := Close(ws, ws[k].id);
    CloseRemovesAt(ws, k);
    BelowClosedTop(ws, k, c);
    OpenBelow(c, ws[k].z, id, app, x, y);
  }

  /** When every window is below `bound >= 1`, a new window gets z at most `bound`. */
  lemma OpenBelow(ws: seq<Window>, bound: int, id: string, app: OSApp, x: real, y: real)
    requires bound >= 1 && forall j :: 0 <= j < |ws| ==> ws[j].z < bound
    ensures Open(ws, id, app, x, y)[|ws|].z <= bound
  {
    if |ws| > 0 {
      var i :| 0 <= i < |ws| && ws[i].z == TopZ(ws) - 1;
    }
  }

  /** Every window left after removing position `k` sits below `ws[k]`. */
  lemma BelowClosedTop(ws: seq<Window>, k: nat, rest: seq<Window>)
    requires WellFormed(ws) && k < |ws| && rest == ws[..k] + ws[k + 1..]
    requires forall j :: 0 <= j < |ws| ==> ws[j].z <= ws[k].z
    ensures forall j :: 0 <= j < |rest| ==> rest[j].z < ws[k].z
  {
    forall j | 0 <= j < |rest| ensures rest[j].z < ws[k].z {
      if j < k {
        assert rest[j] == ws[j];
        assert ws[j].z != ws[k].z;
      } else {
        assert rest[j] == ws[j + 1];
        assert ws[k].z != ws[j + 1].z;
      }
    }
  }

  /** The concrete case: with windows at z 1 and 2, closing the one at 2 and
      opening another gives the new window z 2 again. */
  lemma ZReusedAfterClose(a: Window, b: Window, id: string, app: OSApp, x: real, y: real)
    requires a.z == 1 && b.z == 2 && a.id != b.id
    ensures var c := Close([a, b], b.id); c == [a] && Open(c, id, app, x, y)[|c|].z == 2
  {
    CloseRemovesAt([a, b], 1);
    assert [a, b][..1] + [a, b][2..] == [a];
  }
}
