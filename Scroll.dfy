/** The scroll command the engines emit and the scroll container executes (the DOM's `ScrollToOptions`). */
module Scroll {
  import opened Wrappers

  datatype Behavior = Auto | Smooth | Instant

  /** `{top?, left?, behavior?}`: a missing field is None. */
  datatype ScrollToOptions = ScrollToOptions(top: Option<int>, left: Option<int>, behavior: Option<Behavior>)

  /** The coordinate a command carries on the active axis: `left` when horizontal, `top` otherwise. */
  function AxisCoordinate(location: ScrollToOptions, isHorizontal: bool): Option<int> {
    if isHorizontal then location.left else location.top
  }

  /** `{left: value}` when horizontal, `{top: value}` otherwise. */
  function ScrollToPosition(value: int, isHorizontal: bool): (r: ScrollToOptions)
    ensures AxisCoordinate(r, isHorizontal) == Some(value) && AxisCoordinate(r, !isHorizontal) == None
    ensures r.behavior == None
  {
    if isHorizontal then ScrollToOptions(None, Some(value), None) else ScrollToOptions(Some(value), None, None)
  }
}
