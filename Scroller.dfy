/**
 * The default scroll container (src/VirtuosoScroller.tsx): it reports every
 * scroll position to the engine, except that while a smooth scroll it
 * started is under way it suppresses the intermediate positions and reports
 * only the one where the smooth scroll arrives. Scroll commands to the
 * position it is already at are dropped.
 */
module Scroller {
  import opened Wrappers
  import opened Scroll

  /**
   * `smoothScrollTarget.current`: `null` (no smooth scroll under way), or the
   * target coordinate, which is `undefined` when the command had no
   * coordinate on the active axis.
   */
  datatype Target = NoTarget | Awaiting(at: Option<int>)

  /**
   * The container's refs and outputs: the last seen position (`undefined`
   * until the first scroll event), the smooth-scroll target, whether the
   * element is attached, every position reported to the engine and every
   * command passed to the element.
   */
  datatype ScrollerState = ScrollerState(current: Option<int>, target: Target, attached: bool, reported: seq<int>, issued: seq<ScrollToOptions>)

  function Initial(): (s: ScrollerState)
    ensures s.current == None && s.target == NoTarget && !s.attached && s.reported == [] && s.issued == []
  {
    ScrollerState(None, NoTarget, false, [], [])
  }

  /** `onScroll` with the position on the active axis. */
  function OnScroll(s: ScrollerState, position: int): ScrollerState {
    var s := s.(current := Some(position));
    if s.target != NoTarget then
      if s.target == Awaiting(Some(position)) then s.(target := NoTarget, reported := s.reported + [position])
      else s
    else s.(reported := s.reported + [position])
  }

  /** The `scrollTo` callback: ignored when already at the commanded coordinate; a smooth command records its target. */
  function RequestScroll(s: ScrollerState, location: ScrollToOptions, isHorizontal: bool): ScrollerState {
    var coordinate := AxisCoordinate(location, isHorizontal);
    if s.current == coordinate then s
    else
      var s := if location.behavior == Some(Smooth) then s.(target := Awaiting(coordinate)) else s;
      if s.attached then s.(issued := s.issued + [location]) else s
  }

  /**
   * The container as an object holding its refs. `OnScroll` and
   * `RequestScroll` are the specification; these methods are their in-place
   * form, each proved to produce exactly the step function's state.
   */
  class ScrollContainer {
    const isHorizontal: bool
    var currentScrollTop: Option<int>
    var smoothScrollTarget: Target
    var attached: bool
    var reported: seq<int>
    var issued: seq<ScrollToOptions>

    function View(): ScrollerState
      reads this
    {
      ScrollerState(currentScrollTop, smoothScrollTarget, attached, reported, issued)
    }

    constructor (isHorizontal: bool)
      ensures this.isHorizontal == isHorizontal && View() == Initial()
    {
      this.isHorizontal := isHorizontal;
      currentScrollTop := None;
      smoothScrollTarget := NoTarget;
      attached := false;
      reported := [];
      issued := [];
    }

    /** The element is mounted: the `ref` callback stores it and listens to its scroll events. */
    method Attach()
      modifies this`attached
      ensures View() == old(View()).(attached := true)
    {
      attached := true;
    }

    /** A scroll event, with the element's `scrollLeft` and `scrollTop`. */
    method HandleScroll(scrollLeft: int, scrollTop: int)
      modifies this
      ensures View() == OnScroll(old(View()), if isHorizontal then scrollLeft else scrollTop)
    {
      var position := if isHorizontal then scrollLeft else scrollTop;
      currentScrollTop := Some(position);
      if smoothScrollTarget != NoTarget {
        if smoothScrollTarget == Awaiting(Some(position)) {
          smoothScrollTarget := NoTarget;
          reported := reported + [position];
        }
      } else {
        reported := reported + [position];
      }
    }

    /** A scroll command from the engine. */
    method ScrollTo(location: ScrollToOptions)
      modifies this
      ensures View() == RequestScroll(old(View()), location, isHorizontal)
    {
      if isHorizontal && currentScrollTop != location.left {
        if location.behavior == Some(Smooth) {
          smoothScrollTarget := Awaiting(location.left);
        }
        if attached {
          issued := issued + [location];
        }
      }
      if !isHorizontal && currentScrollTop != location.top {
        if location.behavior == Some(Smooth) {
          smoothScrollTarget := Awaiting(location.top);
        }
        if attached {
          issued := issued + [location];
        }
      }
    }
  }

  /** The state after a sequence of scroll events at the given positions. */
  function OnScrolls(s: ScrollerState, positions: seq<int>): ScrollerState
    decreases |positions|
  {
    if positions == [] then s else OnScrolls(OnScroll(s, positions[0]), positions[1..])
  }

  /** With no smooth scroll under way, every position is reported, in order. */
  lemma {:induction false} ReportsAllWithoutTarget(s: ScrollerState, positions: seq<int>)
    requires s.target == NoTarget
    ensures OnScrolls(s, positions).reported == s.reported + positions
    ensures OnScrolls(s, positions).target == NoTarget
    decreases |positions|
  {
    if positions != [] {
      ReportsAllWithoutTarget(OnScroll(s, positions[0]), positions[1..]);
      assert [positions[0]] + positions[1..] == positions;
    }
  }

  /** While a smooth scroll is under way, positions other than its target are not reported and leave the target in place. */
  lemma {:induction false} SuppressesUntilTarget(s: ScrollerState, positions: seq<int>)
    requires s.target.Awaiting?
    requires forall k :: 0 <= k < |positions| ==> s.target.at != Some(positions[k])
    ensures OnScrolls(s, positions).reported == s.reported
    ensures OnScrolls(s, positions).target == s.target
    decreases |positions|
  {
    if positions != [] {
      SuppressesUntilTarget(OnScroll(s, positions[0]), positions[1..]);
    }
  }

  /**
   * A smooth scroll to `v`: the positions before the first arrival at `v`
   * are dropped, `v` is reported once, and every later position is reported.
   */
  lemma ReportsArrivalThenAll(s: ScrollerState, v: int, positions: seq<int>, i: nat)
    requires s.target == Awaiting(Some(v))
    requires i < |positions| && positions[i] == v
    requires forall k :: 0 <= k < i ==> positions[k] != v
    ensures OnScrolls(s, positions).reported == s.reported + positions[i..]
    ensures OnScrolls(s, positions).target == NoTarget
  {
    OnScrollsSplit(s, positions[..i], positions[i..]);
    assert positions[..i] + positions[i..] == positions;
    SuppressesUntilTarget(s, positions[..i]);
    var t := OnScrolls(s, positions[..i]);
    var u := OnScroll(t, v);
    assert OnScrolls(t, positions[i..]) == OnScrolls(u, positions[i + 1..]);
    ReportsAllWithoutTarget(u, positions[i + 1..]);
    assert [v] + positions[i + 1..] == positions[i..];
  }

  /** A smooth command without a coordinate on the active axis suppresses every later report. */
  lemma UndefinedTargetSuppressesForever(s: ScrollerState, positions: seq<int>)
    requires s.target == Awaiting(None)
    ensures OnScrolls(s, positions).reported == s.reported
  {
    SuppressesUntilTarget(s, positions);
  }

  lemma {:induction false} OnScrollsSplit(s: ScrollerState, xs: seq<int>, ys: seq<int>)
    ensures OnScrolls(s, xs + ys) == OnScrolls(OnScrolls(s, xs), ys)
    decreases |xs|
  {
    if xs != [] {
      assert (xs + ys)[1..] == xs[1..] + ys;
      OnScrollsSplit(OnScroll(s, xs[0]), xs[1..], ys);
    } else {
      assert xs + ys == ys;
    }
  }

  /**
   * A command to the current coordinate on the active axis changes nothing;
   * otherwise a smooth command records its coordinate as the target, any
   * other command keeps the target, and the command is passed to the element
   * exactly when the element is attached. No position is reported by it.
   */
  lemma RequestScrollEffect(s: ScrollerState, location: ScrollToOptions, isHorizontal: bool)
    ensures var t := RequestScroll(s, location, isHorizontal);
      var coordinate := AxisCoordinate(location, isHorizontal);
      (s.current == coordinate ==> t == s) &&
      (s.current != coordinate ==>
        t.target == (if location.behavior == Some(Smooth) then Awaiting(coordinate) else s.target) &&
        t.issued == (if s.attached then s.issued + [location] else s.issued)) &&
      t.reported == s.reported && t.current == s.current && t.attached == s.attached
  {
  }

  /** Every scroll event records its position as the current one, whether or not it is reported. */
  lemma ScrollRecordsPosition(s: ScrollerState, position: int)
    ensures OnScroll(s, position).current == Some(position)
    ensures OnScroll(s, position).issued == s.issued
  {
  }
}
