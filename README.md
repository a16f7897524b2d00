# Floating-window manager of the portfolio's desktop overlays

The portfolio site ships two simulated desktops. Both are full-screen overlays
with their own floating-window manager:

- the **macOS-style desktop** (`src/components/AnshikaOS.tsx`) opens windows for
  content-managed apps. Its windows can be minimized and maximized, and its dock
  restores or opens them;
- the **retro desktop** (`src/components/IOSOverlay.tsx`) opens windows for seven
  built-in apps. Its windows can be dragged and resized from a corner handle.

Each desktop keeps an ordered list of window records: id, app, position
`x, y`, size `w, h` and stacking value `z`, plus the `minimized` and `maximized`
flags on the macOS side. Every event handler that changes the list replaces it
with a pure transform of it. The pointer-up handlers and the resize-handle press
change only the pointer sessions. The project models each transform as a Dafny function over
`seq<Window>` (modules `MacWindows`, `RetroWindows`). It models each desktop
as a class whose fields are the list and the pointer sessions, with one method
per handler (modules `MacDesktop`, `RetroDesktop`). Shared pieces are
`Stacking` (the z allocator `topZ`), `Seqs` (`Array.prototype.filter` and
its order facts), `Screen` (the desktop's bounding box and its 1200×800
fallback) and `Wrappers` (`Option`).

The class invariant `Valid()` (`WellFormed` of the list) says:
- there is one record per id;
- the z values are pairwise distinct and at least 1;
- on the retro desktop, every window is at least 260×200.

Every handler preserves it. Opening, raising and restoring leave the window
strictly on top. Every operation that names one window id is confined to the
records with that id. With unique ids, such an operation changes at most one
record (`MacWindows.AtMostOneChanged`, `RetroWindows.AtMostOneChanged`). The exception is the retro desktop's pointer move.
It applies the drag session and then the resize session, and the two may name
different windows. One move then changes at most one record per session
(`RetroWindows.PointerMove`).

Inputs that come from the browser are parameters of the model:
- the desktop rectangle from `getBoundingClientRect` (an `Option<Rect>`);
- the window's bounding-box corner at pointer-down;
- the pointer coordinates;
- the mobile-screen test based on `window.innerWidth`;
- the `Math.random()` draws;
- the `Date.now()`-based id.

Geometry is `real`, because of the centring division by 2, the 18 %/16 %
factors and the random jitter. Stacking values are `int`.

Behaviours of the code worth knowing:
- **Un-maximizing does not restore the earlier geometry.** The code only clears
  the flag (`src/components/AnshikaOS.tsx:171-172`), so a window keeps the
  maximized geometry. `MacWindows.UnmaximizeKeepsGeometry` and `MacWindows.ToggleTwice`
  state this behaviour.
- **Ids are not guaranteed unique.** They are `${appId}-${Date.now()}` (retro:
  `${app}-${Date.now()}`), so two opens of the same app in the same millisecond
  collide. A fresh id is therefore a precondition
  of the `OpenApp` methods. `MacWindows.OpenDuplicateBreaksUniqueness` shows
  what a repeated id does.
- **System dock buttons never open a window.** They only restore a minimized
  window whose `appId` equals the button's id.
- **Closing a window leaves any drag session in place.** Later moves for that
  id are dropped because no record matches.
- **Stacking values are not fresh over a session.** `topZ` is the current
  highest z plus one, so after the top window closes the next window opened can
  get the z the closed one had. `MacWindows.CloseTopThenOpen` states the bound,
  and `MacWindows.ZReusedAfterClose` gives the case where the z is reused.
- **The two desktops repeat the same list operations.** Each file defines its own
  `topZ`, `bringToFront` and `closeWindow`. The model keeps them apart too, so
  `RetroWindows` repeats `MacWindows`' stacking and close members over its own
  window record.

## Model

| member | source | states |
|---|---|---|
| Stacking.Max | src/components/AnshikaOS.tsx:123 | `Math.max` over the z values is an upper bound that one of them attains |
| Stacking.TopZ | src/components/AnshikaOS.tsx:123 | 1 on an empty list; otherwise strictly above every z and exactly one above the highest |
| Stacking.TopZPositive | src/components/IOSOverlay.tsx:45 | when all z values are ≥ 1, the allocated value is ≥ 1 |
| Stacking.TopZAfterThree | src/components/AnshikaOS.tsx:123 | with z values {1, 2, 3} in any order the next value is 4 |
| Seqs.Filter | src/components/AnshikaOS.tsx:154 | every kept element is in the input and accepted, and every accepted input element is kept |
| Seqs.FilterAppend | src/components/AnshikaOS.tsx:154 | filtering distributes over concatenation, so the kept elements keep their relative order |
| Seqs.FilterKeepsAll | src/components/AnshikaOS.tsx:154 | a filter that accepts everything returns its input |
| Seqs.FilterDropsOne | src/components/AnshikaOS.tsx:154 | rejecting exactly the element at k yields the input without position k |
| Seqs.FilterDropsAll | src/components/IOSOverlay.tsx:175-181 | a filter that rejects everything returns the empty list |
| Seqs.FilterKeepsOne | src/components/IOSOverlay.tsx:175-181 | accepting exactly the element at k yields that one element |
| MacWindows.TopZ | src/components/AnshikaOS.tsx:123 | `topZ` over the window list: 1 on an empty list; otherwise above every window's z and one above the top one |
| Screen.Width | src/components/AnshikaOS.tsx:128 | the desktop width is the measured width, or 1200 when there is no rectangle or its width is 0 |
| Screen.Height | src/components/AnshikaOS.tsx:129 | the desktop height is the measured height, or 800 when there is no rectangle or its height is 0 |
| MacWindows.DefaultWidth | src/components/AnshikaOS.tsx:140 | the app's declared non-zero width, otherwise 600 |
| MacWindows.DefaultHeight | src/components/AnshikaOS.tsx:141 | the app's declared non-zero height, otherwise 500 |
| MacWindows.SpawnX | src/components/AnshikaOS.tsx:128-130 | the window's horizontal centre is the desktop's centre moved by the jitter `rand * 40 - 20`; for draws in [0, 1) it stays within 20 px of centred |
| MacWindows.SpawnY | src/components/AnshikaOS.tsx:129-131 | the window's vertical centre is the desktop's centre moved by the jitter `rand * 40 - 20`; for draws in [0, 1) it stays within 20 px of centred |
| MacWindows.Open | src/components/AnshikaOS.tsx:133-146 | appends one record and keeps the old list as its prefix; the new record has the given id, app and position, both flags off, the app's default size, and z = `topZ` of the old list, above every existing one |
| MacWindows.DefaultSizeFallback | src/components/AnshikaOS.tsx:140-141 | the size is the app's declared default; the width falls back to 600 and the height to 500 when missing or 0 |
| MacWindows.OpenUsesDeclaredSize | src/components/AnshikaOS.tsx:140-141 | the opened window has the app's declared non-zero size, or 600×500 when the app declares none |
| MacWindows.SpawnNearCentre | src/components/AnshikaOS.tsx:127-131 | for draws in [0, 1), the spawn point is within 20 px of the centred position in each axis |
| MacWindows.SpawnCentred | src/components/AnshikaOS.tsx:128-131 | with the middle draw the window is exactly centred on the desktop |
| MacWindows.OpenKeepsWellFormed | src/components/AnshikaOS.tsx:133-146 | opening with a fresh id keeps ids unique and z values distinct and positive, and the new window is strictly on top |
| MacWindows.OpenDuplicateBreaksUniqueness | src/components/AnshikaOS.tsx:126 | opening with an id already present leaves two records with that id |
| MacWindows.OpenTwiceExample | src/components/AnshikaOS.tsx:125-147 | two opens of an app without a declared size, with two fresh ids, give two visible 600×500 windows, the second above the first |
| MacWindows.CloseTopThenOpen | src/components/AnshikaOS.tsx:123-155 | closing the top window of a well-formed list and then opening one gives the new window a z no higher than the closed window's |
| MacWindows.ZReusedAfterClose | src/components/AnshikaOS.tsx:123-155 | with windows at z 1 and 2, closing the one at 2 and opening another gives the new window z 2 again |
| MacWindows.BringToFront | src/components/AnshikaOS.tsx:149-151 | only records with the id change, and only in z; their new z is `topZ` of the old list, above every old z |
| MacWindows.BringToFrontKeepsWellFormed | src/components/AnshikaOS.tsx:149-151 | raising keeps the list well formed and leaves the window strictly above all others |
| MacWindows.RaisedKeepsWellFormed | src/components/AnshikaOS.tsx:149-151 | an update confined to one id that lifts its z above all old values keeps z values distinct and positive and makes that window the top one |
| MacWindows.AtMostOneChanged | src/components/AnshikaOS.tsx:150 | with unique ids, an update confined to one id changes at most one record |
| MacWindows.Close | src/components/AnshikaOS.tsx:153-155 | no remaining record has the id; every record with another id remains |
| MacWindows.CloseRemovesAt | src/components/AnshikaOS.tsx:153-155 | with unique ids, closing the id at position k yields the list without position k, the rest in order |
| MacWindows.CloseAbsent | src/components/AnshikaOS.tsx:153-155 | closing an absent id leaves the list unchanged |
| MacWindows.CloseKeepsWellFormed | src/components/AnshikaOS.tsx:153-155 | closing keeps the list well formed and leaves no record with that id |
| MacWindows.RemoveAtKeepsWellFormed | src/components/AnshikaOS.tsx:154 | dropping one record from a well-formed list keeps it well formed |
| MacWindows.Minimize | src/components/AnshikaOS.tsx:157-159 | sets `minimized` on the records with the id and changes nothing else, ids and z included |
| MacWindows.MinimizeHides | src/components/AnshikaOS.tsx:157-159 | after minimizing, no drawn window has the id, and every other window drawn before is still drawn |
| MacWindows.MinimizeAfterClose | src/components/AnshikaOS.tsx:153-159 | minimizing an id that was just closed changes nothing and creates no record |
| MacWindows.Restore | src/components/AnshikaOS.tsx:161-165 | only records with the id change: `minimized` is cleared and z becomes `topZ` of the old list, above every old z |
| MacWindows.RestoreKeepsWellFormed | src/components/AnshikaOS.tsx:161-165 | restoring keeps the list well formed and leaves the window strictly above all others |
| MacWindows.MinimizeThenRestore | src/components/AnshikaOS.tsx:157-165 | minimize then restore gives back each target's geometry and maximized flag; only z differs, and other windows are untouched |
| MacWindows.ToggleMaximize | src/components/AnshikaOS.tsx:167-188 | only records with the id change; ids, z values and `minimized` flags are kept |
| MacWindows.Toggled | src/components/AnshikaOS.tsx:169-186 | the flag flips and id, app, z and `minimized` are kept; un-maximizing keeps the geometry, and maximizing pins it to (0, 0, desktop width, desktop height − 100) |
| MacWindows.MaximizePins | src/components/AnshikaOS.tsx:173-182 | maximizing a normal window sets the flag and the geometry (0, 0, desktop width, desktop height − 100); without a rectangle that is (0, 0, 1200, 700); every other field of the record, `app` included, is kept |
| MacWindows.UnmaximizeKeepsGeometry | src/components/AnshikaOS.tsx:171-172 | un-maximizing clears the flag and changes nothing else |
| MacWindows.ToggleTwice | src/components/AnshikaOS.tsx:167-188 | two toggles from normal leave the window un-maximized at the maximized geometry, which equals the original geometry only if the window already was there |
| MacWindows.SameStackingKeepsWellFormed | src/components/AnshikaOS.tsx:157-159 | an update that keeps every id and z (minimize, maximize toggle, drag move) keeps the list well formed |
| MacWindows.DragMove | src/components/AnshikaOS.tsx:105-113 | with no session nothing changes; otherwise only the dragged records change, to position (pointer − offset), and ids and z are kept |
| MacWindows.CanDrag | src/components/AnshikaOS.tsx:651 | a drag starts exactly when the window is not maximized and the screen is not a mobile one |
| MacWindows.Grab | src/components/AnshikaOS.tsx:652-653 | the session names the window, and the box corner plus the recorded offset is the pointer position |
| MacWindows.DragFollowsPointer | src/components/AnshikaOS.tsx:105-113 | after a grab at p on a box at (left, top), a move to q puts the window at (left, top) + (q − p), unclamped |
| MacWindows.DragExample | src/components/AnshikaOS.tsx:650-656 | a grab at (150, 150) on a window at (100, 100), then a move to (200, 180), puts it at (150, 130) |
| MacWindows.DragLastMoveWins | src/components/AnshikaOS.tsx:108-110 | two moves in a row equal the last move alone |
| MacWindows.DragOfClosedWindow | src/components/AnshikaOS.tsx:108-110 | a move for an id no longer on the desktop changes nothing |
| MacWindows.VisibleIsNotMinimized | src/components/AnshikaOS.tsx:621-622 | the drawn windows are exactly the records that are not minimized |
| MacWindows.VisibleAfterOpen | src/components/AnshikaOS.tsx:621-622 | after an open, the drawn list is the old one followed by the new window |
| MacWindows.Visible | src/components/AnshikaOS.tsx:621-622 | every drawn window is a record that is not minimized, and every record that is not minimized is drawn |
| MacWindows.FindMinimized | src/components/AnshikaOS.tsx:700 | returns the first index whose record has the app id and is minimized, or None when there is none |
| MacWindows.DockClick | src/components/AnshikaOS.tsx:699-743 | restores the first minimized window of the app when there is one; otherwise a content button opens a new window and a system button does nothing, so a system button never opens |
| MacDesktop.Desktop.constructor | src/components/AnshikaOS.tsx:45-49 | the desktop starts with no windows and no drag session |
| MacDesktop.Desktop.OpenApp | src/components/AnshikaOS.tsx:125-147 | with a fresh id, appends the new window at the spawn point, keeps the invariant, and the window is on top |
| MacDesktop.Desktop.BringToFront | src/components/AnshikaOS.tsx:149-151 | applies the raise, keeps the invariant and puts an existing window on top |
| MacDesktop.Desktop.CloseWindow | src/components/AnshikaOS.tsx:153-155 | applies the close, keeps the invariant and leaves the drag session alone |
| MacDesktop.Desktop.MinimizeWindow | src/components/AnshikaOS.tsx:157-159 | applies the minimize and keeps the invariant |
| MacDesktop.Desktop.RestoreWindow | src/components/AnshikaOS.tsx:161-165 | applies the restore, keeps the invariant and puts an existing window on top |
| MacDesktop.Desktop.ToggleMaximize | src/components/AnshikaOS.tsx:167-188 | applies the toggle with the current desktop rectangle and keeps the invariant |
| MacDesktop.Desktop.TitleBarDown | src/components/AnshikaOS.tsx:650-656 | on a window that is not maximized and not on mobile, records the grab offset and raises the window to the top; otherwise changes nothing |
| MacDesktop.Desktop.PointerMove | src/components/AnshikaOS.tsx:105-113 | applies the drag move for the current session and keeps the invariant |
| MacDesktop.Desktop.PointerUp | src/components/AnshikaOS.tsx:114 | clears the drag session and leaves the windows alone |
| MacDesktop.Desktop.DockClick | src/components/AnshikaOS.tsx:699-743 | restores, opens or ignores as the dock dispatch decides, and keeps the invariant |
| RetroWindows.KeyName | src/components/IOSOverlay.tsx:15-22 | every key's string literal is non-empty and all lower-case ASCII letters |
| RetroWindows.Upper | src/components/IOSOverlay.tsx:93 | `toUpperCase` on one character: a lower-case ASCII letter becomes the matching capital, and any other character is unchanged |
| RetroWindows.Capitalize | src/components/IOSOverlay.tsx:93 | same length; the first character is upper-cased and the rest is unchanged |
| RetroWindows.Title | src/components/IOSOverlay.tsx:93 | the title has the key's length, its first letter upper-cased and the rest of the key unchanged |
| RetroWindows.TitleOfKey | src/components/IOSOverlay.tsx:93 | every title has its key's length, starts with a capital letter and ends like the key |
| RetroWindows.TitlesSpelledOut | src/components/IOSOverlay.tsx:15-22 | the seven titles are Hobbies, Gallery, Achievements, Cookbook, Spotify, Letter and Blogs |
| RetroWindows.TitlesDistinct | src/components/IOSOverlay.tsx:93 | different apps get different titles |
| RetroWindows.TopZ | src/components/IOSOverlay.tsx:45 | 1 on an empty list; otherwise above every window's z and one above the top one |
| RetroWindows.Open | src/components/IOSOverlay.tsx:91-94 | appends one record and keeps the old list as its prefix; the new record has the given id, app and position, and z = `topZ` of the old list, above every existing one |
| RetroWindows.OpenSize | src/components/IOSOverlay.tsx:93 | every window opens at 560×400 with its app's title |
| RetroWindows.SpawnRange | src/components/IOSOverlay.tsx:88-90 | for draws in [0, 1), the spawn point lies in the 80×60 box at 18 %/16 % of the desktop; without a rectangle that is [216, 296) × [128, 188) |
| RetroWindows.SpawnX | src/components/IOSOverlay.tsx:89 | the spawn x is 18 % of the desktop width plus `rand * 80`, so it lies in an 80 px band for draws in [0, 1) |
| RetroWindows.SpawnY | src/components/IOSOverlay.tsx:90 | the spawn y is 16 % of the desktop height plus `rand * 60`, so it lies in a 60 px band for draws in [0, 1) |
| RetroWindows.OpenKeepsWellFormed | src/components/IOSOverlay.tsx:86-95 | opening with a fresh id keeps the list well formed, minimum size included, and puts the new window on top |
| RetroWindows.BringToFront | src/components/IOSOverlay.tsx:97 | only records with the id change, and only in z; their new z is `topZ` of the old list, above every old z |
| RetroWindows.BringToFrontKeepsWellFormed | src/components/IOSOverlay.tsx:97 | raising keeps the list well formed and leaves the window strictly above all others |
| RetroWindows.RaisedStacking | src/components/IOSOverlay.tsx:97 | an update confined to one id that lifts its z above all old values keeps z values distinct and positive and makes that window the top one |
| RetroWindows.AtMostOneChanged | src/components/IOSOverlay.tsx:97 | with unique ids, an update confined to one id changes at most one record |
| RetroWindows.Close | src/components/IOSOverlay.tsx:98 | no remaining record has the id; every record with another id remains |
| RetroWindows.CloseRemovesAt | src/components/IOSOverlay.tsx:98 | with unique ids, closing the id at position k yields the list without position k, the rest in order |
| RetroWindows.CloseAbsent | src/components/IOSOverlay.tsx:98 | closing an absent id leaves the list unchanged |
| RetroWindows.CloseKeepsWellFormed | src/components/IOSOverlay.tsx:98 | closing keeps the list well formed and leaves no record with that id |
| RetroWindows.RemoveAtKeepsWellFormed | src/components/IOSOverlay.tsx:98 | dropping one record from a well-formed list keeps it well formed |
| RetroWindows.DragMove | src/components/IOSOverlay.tsx:63-65 | with no session nothing changes; otherwise only the dragged records change, to position (pointer − offset) |
| RetroWindows.Grab | src/components/IOSOverlay.tsx:155-156 | the session names the window, and the box corner plus the recorded offset is the pointer position |
| RetroWindows.DragFollowsPointer | src/components/IOSOverlay.tsx:154-158 | after a grab at p on a box at (left, top), a move to q puts the window at (left, top) + (q − p), unclamped |
| RetroWindows.DragLastMoveWins | src/components/IOSOverlay.tsx:64 | two drag moves in a row equal the last one alone |
| RetroWindows.StartResize | src/components/IOSOverlay.tsx:186 | the snapshot names the window and holds its current size; for a window at least 260×200, resizing with it at the press point leaves the window as it was |
| RetroWindows.ResizeMove | src/components/IOSOverlay.tsx:66-72 | with no session nothing changes; otherwise only the target's size changes: the width is the snapshot width plus the pointer's x displacement when that is at least 260, and 260 otherwise, and the height likewise with 200 |
| RetroWindows.ResizeFollowsPointer | src/components/IOSOverlay.tsx:66-70 | after a resize starts at p, a move to q makes the window w + (q − p) wide when that is at least 260 and 260 otherwise, with the height likewise clamped at 200; the position is kept |
| RetroWindows.ResizeLastMoveWins | src/components/IOSOverlay.tsx:66-70 | the size comes from the pointer-down snapshot, so two moves equal the last one alone |
| RetroWindows.ResizeBackToStart | src/components/IOSOverlay.tsx:66-70 | on a well-formed list, moving the pointer back to where the resize began gives the list back unchanged |
| RetroWindows.ResizeClampExample | src/components/IOSOverlay.tsx:70 | shrinking a 560×400 window by 400 px in width stops at 260, while the height follows the pointer to 410 |
| RetroWindows.DragAndResizeCommute | src/components/IOSOverlay.tsx:62-73 | the drag and resize halves of one move can be applied in either order |
| RetroWindows.PointerMove | src/components/IOSOverlay.tsx:62-73 | one move keeps every id, app, title and z; only the drag session's window moves, to pointer − offset, and only the resize session's window changes size |
| RetroWindows.PointerMoveKeepsWellFormed | src/components/IOSOverlay.tsx:62-73 | a pointer move keeps the list well formed, so no window ever goes below 260×200 |
| RetroWindows.ExactlyOneComponent | src/components/IOSOverlay.tsx:175-181 | of the seven guarded content components, a window of key k draws exactly the one for k |
| RetroWindows.Rendered | src/components/IOSOverlay.tsx:175-181 | every component drawn in a window is one whose guard names the window's key |
| RetroWindows.ComponentRoundTrip | src/components/IOSOverlay.tsx:15-22 | the key-to-component selection and its guards are inverse bijections |
| RetroDesktop.Overlay.constructor | src/components/IOSOverlay.tsx:48-50 | the overlay starts with no windows and no drag or resize session |
| RetroDesktop.Overlay.OpenApp | src/components/IOSOverlay.tsx:86-95 | with a fresh id, appends the new window at the spawn point, keeps the invariant, and the window is on top |
| RetroDesktop.Overlay.BringToFront | src/components/IOSOverlay.tsx:97 | applies the raise, keeps the invariant, puts an existing window on top and leaves both sessions alone |
| RetroDesktop.Overlay.CloseWindow | src/components/IOSOverlay.tsx:98 | applies the close and keeps the invariant |
| RetroDesktop.Overlay.TitleBarDown | src/components/IOSOverlay.tsx:154-158 | records the grab offset and raises the window to the top |
| RetroDesktop.Overlay.ResizeHandleDown | src/components/IOSOverlay.tsx:186 | records the pointer and the window's current size as the resize snapshot and leaves the windows alone; the raise from the window's own handler is the separate `BringToFront` event |
| RetroDesktop.Overlay.PointerMove | src/components/IOSOverlay.tsx:62-73 | applies the drag update and then the resize update for the current sessions, and keeps the invariant |
| RetroDesktop.Overlay.PointerUp | src/components/IOSOverlay.tsx:74-77 | clears both sessions whatever they were, so a second call changes nothing; the windows are left alone |

## Left out

- Rendering: JSX, CSS classes, the wallpaper, the icons, transitions, and the
  mobile layout that draws windows full screen. They are presentation only.
- `renderAppContent` in `src/components/AnshikaOS.tsx:190-372`: it picks a panel
  of markup by `appType`, and the panels only show text. The retro desktop's
  key-to-component dispatch is modelled.
- Browser inputs: `getBoundingClientRect`, `window.innerWidth`, event listener
  registration, the clock `setInterval`, the fade-in `setTimeout` and
  `document.body.style.overflow`. They are parameters of the model or left out.
- The Escape key, which closes the whole overlay: this is handled outside the
  window manager.
- Content loading (`getOSApps`, `getProjects`) and the `loading` flag. The app
  list is an input to the dock. The dock's `slice(0, 3)` and the mobile
  `slice(0, 6)` choose which buttons appear; the model takes the clicked button.
- The `OSApp` fields other than `appId`, `title` and `defaultSize`: icon, colour,
  order, `appType` and content are used only for display.
- Pointer-down bubbling: the title bar and the resize handle sit inside the
  window's element. A press on either runs its handler and then the window's own
  pointer-down handler, which raises the window. The model treats each press as
  two events: `TitleBarDown` then `BringToFront`, or `ResizeHandleDown` then
  `BringToFront`.
- React's batching of state updates: each handler is modelled as applying its
  updaters in order to the current state. React guarantees that order for
  functional updates.
- JavaScript number semantics: `NaN`, infinities and floating-point rounding are
  not modelled. The `||` fallbacks treat only a missing value or 0 as falsy.
- `toUpperCase` is modelled for ASCII letters only. That covers the seven app
  keys.
- Uniqueness of `Date.now()` ids: the code does not ensure it, so freshness is a
  precondition of the `OpenApp` methods. Nothing in the model claims it.
