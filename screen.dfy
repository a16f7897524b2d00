/** The desktop's bounding rectangle, as both overlays read it, with the
    fallbacks taken when it is missing or zero (`rect?.width || 1200`). */
module Screen {
  import opened Wrappers

  datatype Rect = Rect(width: real, height: real)

  const FallbackWidth: real := 1200.0
  const FallbackHeight: real := 800.0

  /** JavaScript's `v || d` on a number that may be undefined: `d` when `v`
      is missing or zero. */
  function OrElse(v: Option<real>, d: real): real
  {
    if v.Some? && v.value != 0.0 then v.value else d
  }

  function Width(rect: Option<Rect>): (r: real)
    ensures rect.Some? && rect.value.width != 0.0 ==> r == rect.value.width
    ensures rect.None? || rect.value.width == 0.0 ==> r == FallbackWidth
  {
    OrElse(if rect.Some? then Some(rect.value.width) else None, FallbackWidth)
  }

  function Height(rect: Option<Rect>): (r: real)
    ensures rect.Some? && rect.value.height != 0.0 ==> r == rect.value.height
    ensures rect.None? || rect.value.height == 0.0 ==> r == FallbackHeight
  {
    OrElse(if rect.Some? then Some(rect.value.height) else None, FallbackHeight)
  }
}
