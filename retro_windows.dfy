/** The window records of the retro desktop overlay, the app keys it knows,
    and the list transforms its event handlers hand to the state setter. */
module RetroWindows {
  import opened Wrappers
  import Seqs
  import Stacking
  import Screen

  /** The seven built-in apps, a closed union of string literals. */
  datatype AppKey = Hobbies | Gallery | Achievements | Cookbook | Spotify | Letter | Blogs

  /** The string literal of each key. */
  function KeyName(k: AppKey): (s: string)
    ensures |s| > 0 && 'a' <= s[0] <= 'z'
    ensures forall i :: 0 <= i < |s| ==> 'a' <= s[i] <= 'z'
  {
    match k
    case Hobbies => "hobbies"
    case Gallery => "gallery"
    case Achievements => "achievements"
    case Cookbook => "cookbook"
    case Spotify => "spotify"
    case Letter => "letter"
    case Blogs => "blogs"
  }

  datatype Window = Window(
    id: string, app: AppKey, title: string,
    x: real, y: real, w: real, h: real, z: int)

  /** The pointer-down snapshot of a title-bar drag. */
  datatype DragSession = DragSession(id: string, offX: real, offY: real)

  /** The pointer-down snapshot of a corner-handle resize. */
  datatype SizeSession = SizeSession(id: string, startX: real, startY: real, startW: real, startH: real)

  const OpenWidth: real := 560.0
  const OpenHeight: real := 400.0
  const MinWidth: real := 260.0
  const MinHeight: real := 200.0

  // ------------------------------------------------------------------ title

  /** `toUpperCase` on one character, for the ASCII letters the keys use. */
  function Upper(c: char): (u: char)
    ensures 'a' <= c <= 'z' ==> 'A' <= u <= 'Z' && u as int - 'A' as int == c as int - 'a' as int
    ensures !('a' <= c <= 'z') ==> u == c
  {
    if 'a' <= c <= 'z' then (c as int - 32) as char else c
  }

  /** `s.charAt(0).toUpperCase() + s.slice(1)` */
  function Capitalize(s: string): (t: string)
    ensures |t| == |s|
    ensures |s| > 0 ==> t[0] == Upper(s[0]) && t[1..] == s[1..]
  {
    if s == [] then [] else [Upper(s[0])] + s[1..]
  }

  /** The window title: the key with its first letter upper-cased. */
  function Title(k: AppKey): (t: string)
    ensures |t| == |KeyName(k)| > 0
    ensures t[0] == Upper(KeyName(k)[0]) && t[1..] == KeyName(k)[1..]
  {
    Capitalize(KeyName(k))
  }

  // ---------------------------------------------------------------- queries

  function Zs(ws: seq<Window>): seq<int>
  {
    seq(|ws|, i requires 0 <= i < |ws| => ws[i].z)
  }

  /** The next stacking value: above every window and one above the top one. */
  function TopZ(ws: seq<Window>): (t: int)
    ensures |ws| == 0 ==> t == 1
    ensures forall i :: 0 <= i < |ws| ==> ws[i].z < t
    ensures |ws| > 0 ==> exists i :: 0 <= i < |ws| && ws[i].z == t - 1
  {
    var zs := Zs(ws);
    assert forall i :: 0 <= i < |ws| ==> zs[i] == ws[i].z;
    Stacking.TopZ(zs)
  }

  predicate HasId(ws: seq<Window>, id: string)
  {
    exists i :: 0 <= i < |ws| && ws[i].id == id
  }

  ghost predicate UniqueIds(ws: seq<Window>)
  {
    forall i, j :: 0 <= i < j < |ws| ==> ws[i].id != ws[j].id
  }

  ghost predicate DistinctZ(ws: seq<Window>)
  {
    forall i, j :: 0 <= i < j < |ws| ==> ws[i].z != ws[j].z
  }

  ghost predicate PositiveZ(ws: seq<Window>)
  {
    forall i :: 0 <= i < |ws| ==> ws[i].z >= 1
  }

  /** Every window is at least the resize minimum. */
  ghost predicate AtLeastMinimum(ws: seq<Window>)
  {
    forall i :: 0 <= i < |ws| ==> ws[i].w >= MinWidth && ws[i].h >= MinHeight
  }

  /** What the overlay keeps true: one record per id, positive and pairwise
      distinct stacking values, and no window below the minimum size. */
  ghost predicate WellFormed(ws: seq<Window>)
  {
    UniqueIds(ws) && DistinctZ(ws) && PositiveZ(ws) && AtLeastMinimum(ws)
  }

  /** The window `id` exists and is strictly above every other window. */
  ghost predicate OnTop(ws: seq<Window>, id: string)
  {
    exists i :: 0 <= i < |ws| && ws[i].id == id &&
      forall j :: 0 <= j < |ws| && j != i ==> ws[j].z < ws[i].z
  }

  ghost predicate OnlyTouches(ws: seq<Window>, r: seq<Window>, id: string)
  {
    |r| == |ws| &&
    forall i :: 0 <= i < |ws| ==> r[i].id == ws[i].id && (ws[i].id != id ==> r[i] == ws[i])
  }

  // ---------------------------------------------------------------- opening

  /** Spawn position: 18% across and 16% down the desktop, plus
      `rand * 80` and `rand * 60` for the two `Math.random()` draws. */
  function SpawnX(rect: Option<Screen.Rect>, rand: real): (r: real)
    ensures r - Screen.Width(rect) * 0.18 == rand * 80.0
    ensures 0.0 <= rand < 1.0 ==> Screen.Width(rect) * 0.18 <= r < Screen.Width(rect) * 0.18 + 80.0
  {
    Screen.Width(rect) * 0.18 + rand * 80.0
  }

  function SpawnY(rect: Option<Screen.Rect>, rand: real): (r: real)
    ensures r - Screen.Height(rect) * 0.16 == rand * 60.0
    ensures 0.0 <= rand < 1.0 ==> Screen.Height(rect) * 0.16 <= r < Screen.Height(rect) * 0.16 + 60.0
  {
    Screen.Height(rect) * 0.16 + rand * 60.0
  }

  /** The `openApp` updater: append one 560x400 record on top. */
  function Open(ws: seq<Window>, id: string, app: AppKey, x: real, y: real): (r: seq<Window>)
    ensures |r| == |ws| + 1 && r[..|ws|] == ws
    ensures r[|ws|].id == id && r[|ws|].app == app && r[|ws|].x == x && r[|ws|].y == y
    ensures r[|ws|].z == TopZ(ws)
    ensures forall i :: 0 <= i < |ws| ==> r[i].z < r[|ws|].z
  {
    ws + [Window(id, app, Title(app), x, y, OpenWidth, OpenHeight, TopZ(ws))]
  }

  // ------------------------------------------------------- focus and close

  /** The `bringToFront` updater. */
  function BringToFront(ws: seq<Window>, id: string): (r: seq<Window>)
    ensures OnlyTouches(ws, r, id)
    ensures forall i, j :: 0 <= i < |ws| && 0 <= j < |ws| && ws[i].id == id ==>
      r[i] == ws[i].(z := r[i].z) && r[i].z == TopZ(ws) && ws[j].z < r[i].z
  {
    var top := TopZ(ws);
    seq(|ws|, i requires 0 <= i < |ws| => if ws[i].id == id then ws[i].(z := top) else ws[i])
  }

  function KeepOthers(id: string): Window -> bool
  {
    (win: Window) => win.id != id
  }

  /** The `closeWindow` updater. */
  function Close(ws: seq<Window>, id: string): (r: seq<Window>)
    ensures forall i :: 0 <= i < |r| ==> r[i] in ws && r[i].id != id
    ensures forall i :: 0 <= i < |ws| && ws[i].id != id ==> ws[i] in r
  {
    Seqs.Filter(ws, KeepOthers(id))
  }

  // ------------------------------------------------------- drag and resize

  /** The grab offset recorded at pointer-down, relative to the top-left of
      the window's bounding rectangle. */
  function Grab(id: string, px: real, py: real, left: real, top: real): (r: DragSession)
    ensures r.id == id
    ensures left + r.offX == px && top + r.offY == py
  {
    DragSession(id, px - left, py - top)
  }

  /** The corner-handle pointer-down snapshot of window `win`. */
  function StartResize(win: Window, px: real, py: real): (s: SizeSession)
    ensures s.id == win.id && s.startW == win.w && s.startH == win.h
    ensures AtLeastMinimum([win]) ==> ResizeMove([win], Some(s), px, py) == [win]
  {
    SizeSession(win.id, px, py, win.w, win.h)
  }

  /** The drag half of the mousemove handler. */
  function DragMove(ws: seq<Window>, drag: Option<DragSession>, px: real, py: real): (r: seq<Window>)
    ensures drag.None? ==> r == ws
    ensures drag.Some? ==> OnlyTouches(ws, r, drag.value.id)
    ensures drag.Some? ==> forall i :: 0 <= i < |ws| && ws[i].id == drag.value.id ==>
      r[i] == ws[i].(x := px - drag.value.offX, y := py - drag.value.offY)
  {
    if drag.None? then ws
    else
      var d := drag.value;
      seq(|ws|, i requires 0 <= i < |ws| => if ws[i].id == d.id then ws[i].(x := px - d.offX, y := py - d.offY) else ws[i])
  }

  function MaxReal(a: real, b: real): real
  {
    if a >= b then a else b
  }

  /** The resize half of the mousemove handler: the new size is the
      snapshot size plus the pointer's displacement since pointer-down,
      clamped below at 260x200. */
  function ResizeMove(ws: seq<Window>, size: Option<SizeSession>, px: real, py: real): (r: seq<Window>)
    ensures size.None? ==> r == ws
    ensures size.Some? ==> OnlyTouches(ws, r, size.value.id)
    ensures size.Some? ==> forall i :: 0 <= i < |ws| && ws[i].id == size.value.id ==>
      r[i] == ws[i].(w := r[i].w, h := r[i].h) && r[i].w >= MinWidth && r[i].h >= MinHeight
    ensures size.Some? ==> forall i :: 0 <= i < |ws| && ws[i].id == size.value.id ==>
      var s := size.value;
      (s.startW + (px - s.startX) >= MinWidth ==> r[i].w == s.startW + (px - s.startX)) &&
      (s.startW + (px - s.startX) < MinWidth ==> r[i].w == MinWidth) &&
      (s.startH + (py - s.startY) >= MinHeight ==> r[i].h == s.startH + (py - s.startY)) &&
      (s.startH + (py - s.startY) < MinHeight ==> r[i].h == MinHeight)
  {
    if size.None? then ws
    else
      var s := size.value;
      seq(|ws|, i requires 0 <= i < |ws| =>
        if ws[i].id == s.id
        then ws[i].(w := MaxReal(MinWidth, s.startW + (px - s.startX)), h := MaxReal(MinHeight, s.startH + (py - s.startY)))
        else ws[i])
  }

  /** The whole mousemove handler: the drag update, then the resize update. */
  function PointerMove(ws: seq<Window>, drag: Option<DragSession>, size: Option<SizeSession>, px: real, py: real): (r: seq<Window>)
    ensures |r| == |ws|
    ensures forall i :: 0 <= i < |ws| ==>
      r[i].id == ws[i].id && r[i].app == ws[i].app && r[i].title == ws[i].title && r[i].z == ws[i].z
    ensures forall i :: 0 <= i < |ws| && (drag.None? || drag.value.id != ws[i].id) ==>
      r[i].x == ws[i].x && r[i].y == ws[i].y
    ensures forall i :: 0 <= i < |ws| && (size.None? || size.value.id != ws[i].id) ==>
      r[i].w == ws[i].w && r[i].h == ws[i].h
    ensures drag.Some? ==> forall i :: 0 <= i < |ws| && ws[i].id == drag.value.id ==>
      r[i].x == px - drag.value.offX && r[i].y == py - drag.value.offY
  {
    ResizeMove(DragMove(ws, drag, px, py), size, px, py)
  }

  // ---------------------------------------------------------- app content

  /** The seven content components, one per app. */
  datatype Component = HobbiesApp | GalleryApp | AchievementsApp | CookbookApp | SpotifyApp | LetterApp | BlogsApp

  /** The key in the `w.app === key && <Component />` guard of each component. */
  function GuardKey(c: Component): AppKey
  {
    match c
    case HobbiesApp => Hobbies
    case GalleryApp => Gallery
    case AchievementsApp => Achievements
    case CookbookApp => Cookbook
    case SpotifyApp => Spotify
    case LetterApp => Letter
    case BlogsApp => Blogs
  }

  /** The guarded components in the order the window body lists them. */
  const Components: seq<Component> :=
    [HobbiesApp, GalleryApp, AchievementsApp, CookbookApp, SpotifyApp, LetterApp, BlogsApp]

  function ShownFor(k: AppKey): Component -> bool
  {
    (c: Component) => GuardKey(c) == k
  }

  /** The components a window of app `k` draws: those whose guard holds. */
  function Rendered(k: AppKey): (r: seq<Component>)
    ensures forall i :: 0 <= i < |r| ==> GuardKey(r[i]) == k
  {
    Seqs.Filter(Components, ShownFor(k))
  }

  /** The component the key selects. */
  function ComponentOf(k: AppKey): Component
  {
    match k
    case Hobbies => HobbiesApp
    case Gallery => GalleryApp
    case Achievements => AchievementsApp
    case Cookbook => CookbookApp
    case Spotify => SpotifyApp
    case Letter => LetterApp
    case Blogs => BlogsApp
  }

  // ================================================================ lemmas

  /** The title keeps the key's length and letters and capitalises its
      first letter. */
  lemma TitleOfKey(k: AppKey)
    ensures |Title(k)| == |KeyName(k)| > 0
    ensures 'A' <= Title(k)[0] <= 'Z'
    ensures Title(k)[1..] == KeyName(k)[1..]
  {
  }

  /** The seven titles, spelled out. */
  lemma TitlesSpelledOut()
    ensures Title(Hobbies) == "Hobbies" && Title(Gallery) == "Gallery"
    ensures Title(Achievements) == "Achievements" && Title(Cookbook) == "Cookbook"
    ensures Title(Spotify) == "Spotify" && Title(Letter) == "Letter" && Title(Blogs) == "Blogs"
  {
    assert Title(Hobbies) == [Upper('h')] + "obbies";
    assert Title(Gallery) == [Upper('g')] + "allery";
    assert Title(Achievements) == [Upper('a')] + "chievements";
    assert Title(Cookbook) == [Upper('c')] + "ookbook";
    assert Title(Spotify) == [Upper('s')] + "potify";
    assert Title(Letter) == [Upper('l')] + "etter";
    assert Title(Blogs) == [Upper('b')] + "logs";
  }

  /** Different apps get different titles. */
  lemma TitlesDistinct(k1: AppKey, k2: AppKey)
    requires k1 != k2
    ensures Title(k1) != Title(k2)
  {
    TitlesSpelledOut();
  }

  /** Opening with a fresh id keeps the list well formed and puts the new
      window strictly on top. */
  lemma OpenKeepsWellFormed(ws: seq<Window>, id: string, app: AppKey, x: real, y: real)
    requires WellFormed(ws) && !HasId(ws, id)
    ensures WellFormed(Open(ws, id, app, x, y))
    ensures OnTop(Open(ws, id, app, x, y), id)
  {
    var r := Open(ws, id, app, x, y);
    var n := |ws|;
    assert forall i :: 0 <= i < n ==> r[i] == ws[i];
    Stacking.TopZPositive(Zs(ws));
    assert r[n].z >= 1 by {
      if n > 0 {
        var k :| 0 <= k < n && ws[k].z == r[n].z - 1;
      }
    }
    assert forall j :: 0 <= j < |r| && j != n ==> r[j].z < r[n].z;
  }

  /** Every window opens at 560x400 with its app's title. */
  lemma OpenSize(ws: seq<Window>, id: string, app: AppKey, x: real, y: real)
    ensures Open(ws, id, app, x, y)[|ws|].w == 560.0 && Open(ws, id, app, x, y)[|ws|].h == 400.0
    ensures Open(ws, id, app, x, y)[|ws|].title == Title(app)
  {
  }

  /** Raising keeps the list well formed and leaves the window on top. */
  lemma BringToFrontKeepsWellFormed(ws: seq<Window>, id: string)
    requires WellFormed(ws)
    ensures WellFormed(BringToFront(ws, id))
    ensures HasId(ws, id) ==> OnTop(BringToFront(ws, id), id)
  {
    var r := BringToFront(ws, id);
    Stacking.TopZPositive(Zs(ws));
    assert AtLeastMinimum(r) by {
      assert forall i :: 0 <= i < |r| ==> r[i].w == ws[i].w && r[i].h == ws[i].h;
    }
    RaisedStacking(ws, r, id);
  }

  /** The stacking part of raising: the one record carrying `id` gets a
      value above all old ones, and nothing else moves. */
  lemma RaisedStacking(ws: seq<Window>, r: seq<Window>, id: string)
    requires UniqueIds(ws) && DistinctZ(ws) && PositiveZ(ws) && OnlyTouches(ws, r, id)
    requires forall i, j :: 0 <= i < |ws| && 0 <= j < |ws| && ws[i].id == id ==> ws[j].z < r[i].z
    ensures UniqueIds(r) && DistinctZ(r) && PositiveZ(r)
    ensures HasId(ws, id) ==> OnTop(r, id)
  {
    forall i, j | 0 <= i < j < |r| ensures r[i].z != r[j].z {
      if ws[i].id == id {
        assert ws[j].id != id;
      } else if ws[j].id == id {
        assert ws[i].z < r[j].z;
      }
    }
    forall i | 0 <= i < |r| ensures r[i].z >= 1 {
      if ws[i].id == id {
        assert ws[i].z < r[i].z;
      }
    }
    if HasId(ws, id) {
      var k :| 0 <= k < |ws| && ws[k].id == id;
      forall j | 0 <= j < |r| && j != k ensures r[j].z < r[k].z {
        assert ws[j].id != id by {
          if j < k { assert ws[j].id != ws[k].id; } else { assert ws[k].id != ws[j].id; }
        }
      }
    }
  }

  /** Closing the window at position `k` removes exactly that record and
      keeps the others in their order. */
  /** With one record per id, an operation confined to `id` changes at most
      one record. */
  lemma AtMostOneChanged(ws: seq<Window>, r: seq<Window>, id: string)
    requires UniqueIds(ws) && OnlyTouches(ws, r, id)
    ensures forall i, j :: 0 <= i < |ws| && 0 <= j < |ws| && r[i] != ws[i] && r[j] != ws[j] ==> i == j
  {
    forall i, j | 0 <= i < |ws| && 0 <= j < |ws| && r[i] != ws[i] && r[j] != ws[j] ensures i == j {
      assert ws[i].id == id && ws[j].id == id;
    }
  }

  lemma CloseRemovesAt(ws: seq<Window>, k: nat)
    requires UniqueIds(ws) && k < |ws|
    ensures Close(ws, ws[k].id) == ws[..k] + ws[k + 1..]
  {
    var id := ws[k].id;
    forall i | 0 <= i < |ws| && i != k ensures KeepOthers(id)(ws[i]) {
      if i < k { assert ws[i].id != ws[k].id; } else { assert ws[k].id != ws[i].id; }
    }
    Seqs.FilterDropsOne(ws, k, KeepOthers(id));
  }

  /** Closing an id that is not on the desktop changes nothing. */
  lemma CloseAbsent(ws: seq<Window>, id: string)
    requires !HasId(ws, id)
    ensures Close(ws, id) == ws
  {
    Seqs.FilterKeepsAll(ws, KeepOthers(id));
  }

  /** Closing keeps the list well formed and removes every record of `id`. */
  lemma CloseKeepsWellFormed(ws: seq<Window>, id: string)
    requires WellFormed(ws)
    ensures WellFormed(Close(ws, id))
    ensures !HasId(Close(ws, id), id)
  {
    if HasId(ws, id) {
      var k :| 0 <= k < |ws| && ws[k].id == id;
      CloseRemovesAt(ws, k);
      RemoveAtKeepsWellFormed(ws, k);
    } else {
      CloseAbsent(ws, id);
    }
  }

  lemma RemoveAtKeepsWellFormed(ws: seq<Window>, k: nat)
    requires WellFormed(ws) && k < |ws|
    ensures WellFormed(ws[..k] + ws[k + 1..])
  {
    var r := ws[..k] + ws[k + 1..];
    assert forall i :: 0 <= i < |r| ==> r[i] == ws[if i < k then i else i + 1];
  }

  /** A pointer move (drag and resize halves together) keeps the list well
      formed: in particular no window goes below 260x200. */
  lemma PointerMoveKeepsWellFormed(ws: seq<Window>, drag: Option<DragSession>, size: Option<SizeSession>,
                                   px: real, py: real)
    requires WellFormed(ws)
    ensures WellFormed(PointerMove(ws, drag, size, px, py))
  {
    var d := DragMove(ws, drag, px, py);
    assert WellFormed(d);
    var r := ResizeMove(d, size, px, py);
    assert forall i :: 0 <= i < |r| ==> r[i].id == d[i].id && r[i].z == d[i].z;
  }

  /** The drag update moves only the position and the resize update only the
      size, so their order inside the handler does not matter. */
  lemma DragAndResizeCommute(ws: seq<Window>, drag: Option<DragSession>, size: Option<SizeSession>,
                             px: real, py: real)
    ensures PointerMove(ws, drag, size, px, py) == DragMove(ResizeMove(ws, size, px, py), drag, px, py)
  {
  }

  /** Resizing is computed from the pointer-down snapshot, not accumulated:
      only the last pointer position counts. */
  lemma ResizeLastMoveWins(ws: seq<Window>, size: Option<SizeSession>, px: real, py: real, qx: real, qy: real)
    ensures ResizeMove(ResizeMove(ws, size, px, py), size, qx, qy) == ResizeMove(ws, size, qx, qy)
  {
  }

  /** A resize that starts at `(px, py)` on window `i` and moves the pointer
      to `(qx, qy)` grows the window by the pointer's displacement, each axis
      stopping at its minimum. */
  lemma ResizeFollowsPointer(ws: seq<Window>, i: nat, px: real, py: real, qx: real, qy: real)
    requires i < |ws|
    ensures ws[i].w + (qx - px) >= MinWidth ==>
      ResizeMove(ws, Some(StartResize(ws[i], px, py)), qx, qy)[i].w == ws[i].w + (qx - px)
    ensures ws[i].w + (qx - px) < MinWidth ==>
      ResizeMove(ws, Some(StartResize(ws[i], px, py)), qx, qy)[i].w == MinWidth
    ensures ws[i].h + (qy - py) >= MinHeight ==>
      ResizeMove(ws, Some(StartResize(ws[i], px, py)), qx, qy)[i].h == ws[i].h + (qy - py)
    ensures ws[i].h + (qy - py) < MinHeight ==>
      ResizeMove(ws, Some(StartResize(ws[i], px, py)), qx, qy)[i].h == MinHeight
    ensures ResizeMove(ws, Some(StartResize(ws[i], px, py)), qx, qy)[i].x == ws[i].x
    ensures ResizeMove(ws, Some(StartResize(ws[i], px, py)), qx, qy)[i].y == ws[i].y
  {
  }

  /** Dragging is computed from the grab offset, not accumulated. */
  lemma DragLastMoveWins(ws: seq<Window>, drag: Option<DragSession>, px: real, py: real, qx: real, qy: real)
    ensures DragMove(DragMove(ws, drag, px, py), drag, qx, qy) == DragMove(ws, drag, qx, qy)
  {
  }

  /** Bringing the pointer back to where the resize began gives the window
      list back unchanged, because every window is already at least the
      minimum size. */
  lemma ResizeBackToStart(ws: seq<Window>, i: nat, px: real, py: real)
    requires WellFormed(ws) && i < |ws|
    ensures ResizeMove(ws, Some(StartResize(ws[i], px, py)), px, py) == ws
  {
    var r := ResizeMove(ws, Some(StartResize(ws[i], px, py)), px, py);
    forall j | 0 <= j < |ws| ensures r[j] == ws[j] {
      if ws[j].id == ws[i].id {
        assert j == i;
      }
    }
  }

  /** The clamp at work: shrinking a 560-wide window by 400 stops at 260. */
  lemma ResizeClampExample(ws: seq<Window>, i: nat, px: real, py: real)
    requires i < |ws| && ws[i].w == 560.0 && ws[i].h == 400.0
    ensures ResizeMove(ws, Some(StartResize(ws[i], px, py)), px - 400.0, py + 10.0)[i].w == 260.0
    ensures ResizeMove(ws, Some(StartResize(ws[i], px, py)), px - 400.0, py + 10.0)[i].h == 410.0
  {
  }

  /** After a grab at `(px, py)` on a window whose box starts at
      `(left, top)`, a move to `(qx, qy)` shifts it by the pointer's
      displacement, unclamped. */
  lemma DragFollowsPointer(ws: seq<Window>, id: string, px: real, py: real, left: real, top: real,
                           qx: real, qy: real, i: nat)
    requires i < |ws| && ws[i].id == id
    ensures DragMove(ws, Some(Grab(id, px, py, left, top)), qx, qy)[i].x == left + (qx - px)
    ensures DragMove(ws, Some(Grab(id, px, py, left, top)), qx, qy)[i].y == top + (qy - py)
  {
  }

  /** The spawn point lies in the 80x60 box at 18%/16% of the desktop for
      every pair of `Math.random()` draws in [0, 1). */
  lemma SpawnRange(rect: Option<Screen.Rect>, rx: real, ry: real)
    requires 0.0 <= rx < 1.0 && 0.0 <= ry < 1.0
    ensures Screen.Width(rect) * 0.18 <= SpawnX(rect, rx) < Screen.Width(rect) * 0.18 + 80.0
    ensures Screen.Height(rect) * 0.16 <= SpawnY(rect, ry) < Screen.Height(rect) * 0.16 + 60.0
    ensures rect.None? ==> 216.0 <= SpawnX(rect, rx) < 296.0 && 128.0 <= SpawnY(rect, ry) < 188.0
  {
  }

  /** Each key selects exactly one content component. */
  lemma ExactlyOneComponent(k: AppKey)
    ensures Rendered(k) == [ComponentOf(k)]
  {
    var i := match k
      case Hobbies => 0 case Gallery => 1 case Achievements => 2 case Cookbook => 3
      case Spotify => 4 case Letter => 5 case Blogs => 6;
    assert Components[i] == ComponentOf(k);
    forall j | 0 <= j < |Components| && j != i ensures !ShownFor(k)(Components[j]) {
    }
    Seqs.FilterKeepsOne(Components, i, ShownFor(k));
  }

  /** The selection is a bijection between keys and components. */
  lemma ComponentRoundTrip(k: AppKey, c: Component)
    ensures GuardKey(ComponentOf(k)) == k
    ensures ComponentOf(GuardKey(c)) == c
  {
  }
}
