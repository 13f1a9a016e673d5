/**
 * The initial-top-item engine (src/engines/initialTopMostItemEngine.ts):
 * when the list is created with an initial top item index, every offset-list
 * update schedules a scroll to that index until a reported scroll position
 * matches the latest scroll command, which schedules the flag
 * `scrolledToTopMostItem` to become true. Timer callbacks are explicit steps.
 */
module InitialTopItem {
  import opened Wrappers
  import opened Scroll

  /** JavaScript truthiness of `initialTopMostItemIndex`: `undefined` and `0` are falsy. */
  predicate Truthy(initialIndex: Option<int>) {
    initialIndex.Some? && initialIndex.value != 0
  }

  /**
   * The engine's state: the flag, the number of scheduled flag-setting
   * timers, the number of scheduled scroll-to-index timers, and every index
   * emitted on `scrollToIndex$` so far.
   */
  datatype TopItemState = TopItemState(scrolledToTopMostItem: bool, pendingFlagSets: nat, pendingScrolls: nat, scrollToIndex: seq<int>)

  /** The flag can only be false, and scrolls can only be scheduled, when an index was given. */
  predicate Valid(initialIndex: Option<int>, s: TopItemState) {
    (!s.scrolledToTopMostItem || s.pendingScrolls > 0 || s.scrollToIndex != [] ==> Truthy(initialIndex)) &&
    (forall k :: 0 <= k < |s.scrollToIndex| ==> Some(s.scrollToIndex[k]) == initialIndex)
  }

  /** `subject(!initialTopMostItemIndex)`: the flag starts false exactly when the index is truthy. */
  function Initial(initialIndex: Option<int>): (s: TopItemState)
    ensures Valid(initialIndex, s)
    ensures s.scrolledToTopMostItem <==> !Truthy(initialIndex)
  {
    TopItemState(!Truthy(initialIndex), 0, 0, [])
  }

  /** The reported position equals the latest scroll command on the active axis (`undefined` never equals a number). */
  predicate IsSameLocation(scrollTop: int, latestScrollTo: ScrollToOptions, isHorizontal: bool) {
    AxisCoordinate(latestScrollTo, isHorizontal) == Some(scrollTop)
  }

  /** A scroll position is reported: at the commanded location and before the flag is set, a flag-setting timer is scheduled. */
  function ScrollReport(s: TopItemState, scrollTop: int, latestScrollTo: ScrollToOptions, isHorizontal: bool): TopItemState {
    if IsSameLocation(scrollTop, latestScrollTo, isHorizontal) && !s.scrolledToTopMostItem
    then s.(pendingFlagSets := s.pendingFlagSets + 1)
    else s
  }

  /** The offset list changes: before the flag is set, a scroll-to-index timer is scheduled. */
  function OffsetListUpdate(s: TopItemState): TopItemState {
    if !s.scrolledToTopMostItem then s.(pendingScrolls := s.pendingScrolls + 1) else s
  }

  /** A flag-setting timer fires. */
  function FireFlagSet(s: TopItemState): TopItemState
    requires s.pendingFlagSets > 0
  {
    s.(scrolledToTopMostItem := true, pendingFlagSets := s.pendingFlagSets - 1)
  }

  /** A scroll-to-index timer fires: it emits the initial index whatever the flag is by then. */
  function FireScrollToIndex(initialIndex: Option<int>, s: TopItemState): TopItemState
    requires Valid(initialIndex, s) && s.pendingScrolls > 0
  {
    s.(scrollToIndex := s.scrollToIndex + [initialIndex.value], pendingScrolls := s.pendingScrolls - 1)
  }

  /** The events the engine reacts to, timer callbacks included. */
  datatype Event =
    | ScrollTopReported(scrollTop: int, latestScrollTo: ScrollToOptions)
    | OffsetListChanged
    | FlagTimer
    | ScrollTimer

  /** An event can happen in a state: a timer fires only when one is scheduled. */
  predicate Enabled(s: TopItemState, e: Event) {
    match e
    case FlagTimer => s.pendingFlagSets > 0
    case ScrollTimer => s.pendingScrolls > 0
    case _ => true
  }

  function Apply(initialIndex: Option<int>, isHorizontal: bool, s: TopItemState, e: Event): (t: TopItemState)
    requires Valid(initialIndex, s) && Enabled(s, e)
    ensures Valid(initialIndex, t)
  {
    match e
    case ScrollTopReported(scrollTop, latest) => ScrollReport(s, scrollTop, latest, isHorizontal)
    case OffsetListChanged => OffsetListUpdate(s)
    case FlagTimer => FireFlagSet(s)
    case ScrollTimer =>
      var t := FireScrollToIndex(initialIndex, s);
      assert forall k :: 0 <= k < |s.scrollToIndex| ==> t.scrollToIndex[k] == s.scrollToIndex[k];
      t
  }

  /** A trace can happen from `s`: every timer event finds a scheduled timer. */
  predicate Feasible(initialIndex: Option<int>, isHorizontal: bool, s: TopItemState, es: seq<Event>)
    requires Valid(initialIndex, s)
    decreases |es|
  {
    es == [] || (Enabled(s, es[0]) && Feasible(initialIndex, isHorizontal, Apply(initialIndex, isHorizontal, s, es[0]), es[1..]))
  }

  /** The state after a feasible trace. */
  function Run(initialIndex: Option<int>, isHorizontal: bool, s: TopItemState, es: seq<Event>): (t: TopItemState)
    requires Valid(initialIndex, s) && Feasible(initialIndex, isHorizontal, s, es)
    ensures Valid(initialIndex, t)
    decreases |es|
  {
    if es == [] then s else Run(initialIndex, isHorizontal, Apply(initialIndex, isHorizontal, s, es[0]), es[1..])
  }

  /**
   * The engine as an object whose cells its subscribers and timers update.
   * The step functions above are the specification; these methods are their
   * in-place form, each proved to produce exactly the step function's state.
   */
  class TopItemEngine {
    const initialIndex: Option<int>
    const isHorizontal: bool
    var scrolledToTopMostItem: bool
    var pendingFlagSets: nat
    var pendingScrolls: nat
    var scrollToIndex: seq<int>

    function View(): TopItemState
      reads this
    {
      TopItemState(scrolledToTopMostItem, pendingFlagSets, pendingScrolls, scrollToIndex)
    }

    constructor (initialIndex: Option<int>, isHorizontal: bool)
      ensures this.initialIndex == initialIndex && this.isHorizontal == isHorizontal
      ensures View() == Initial(initialIndex)
    {
      this.initialIndex := initialIndex;
      this.isHorizontal := isHorizontal;
      scrolledToTopMostItem := !Truthy(initialIndex);
      pendingFlagSets := 0;
      pendingScrolls := 0;
      scrollToIndex := [];
    }

    /** The subscriber of `scrollTop$`, with the latest value of `scrollTo$`. */
    method OnScrollTop(scrollTop: int, latestScrollTo: ScrollToOptions)
      modifies this
      ensures View() == ScrollReport(old(View()), scrollTop, latestScrollTo, isHorizontal)
    {
      var isSameLocation := if isHorizontal then latestScrollTo.left == Some(scrollTop) else latestScrollTo.top == Some(scrollTop);
      if isSameLocation && !scrolledToTopMostItem {
        pendingFlagSets := pendingFlagSets + 1;
      }
    }

    /** The subscriber of `offsetList$`. */
    method OnOffsetList()
      modifies this
      ensures View() == OffsetListUpdate(old(View()))
    {
      if !scrolledToTopMostItem {
        pendingScrolls := pendingScrolls + 1;
      }
    }

    method FireFlagTimer()
      requires pendingFlagSets > 0
      modifies this
      ensures View() == FireFlagSet(old(View()))
    {
      scrolledToTopMostItem := true;
      pendingFlagSets := pendingFlagSets - 1;
    }

    method FireScrollTimer()
      requires Valid(initialIndex, View()) && pendingScrolls > 0
      modifies this
      ensures View() == FireScrollToIndex(initialIndex, old(View()))
    {
      scrollToIndex := scrollToIndex + [initialIndex.value];
      pendingScrolls := pendingScrolls - 1;
    }
  }

  /** Once set, the flag stays set along every trace. */
  lemma {:induction false} FlagIsMonotone(initialIndex: Option<int>, isHorizontal: bool, s: TopItemState, es: seq<Event>)
    requires Valid(initialIndex, s) && Feasible(initialIndex, isHorizontal, s, es)
    requires s.scrolledToTopMostItem
    ensures Run(initialIndex, isHorizontal, s, es).scrolledToTopMostItem
    decreases |es|
  {
    if es != [] {
      FlagIsMonotone(initialIndex, isHorizontal, Apply(initialIndex, isHorizontal, s, es[0]), es[1..]);
    }
  }

  /**
   * Once the flag is set and no scroll is scheduled, nothing is ever
   * scheduled or emitted on `scrollToIndex$` again.
   */
  lemma {:induction false} SettledEmitsNothing(initialIndex: Option<int>, isHorizontal: bool, s: TopItemState, es: seq<Event>)
    requires Valid(initialIndex, s) && Feasible(initialIndex, isHorizontal, s, es)
    requires s.scrolledToTopMostItem && s.pendingScrolls == 0
    ensures var t := Run(initialIndex, isHorizontal, s, es);
      t.scrolledToTopMostItem && t.pendingScrolls == 0 && t.scrollToIndex == s.scrollToIndex
    decreases |es|
  {
    if es != [] {
      SettledEmitsNothing(initialIndex, isHorizontal, Apply(initialIndex, isHorizontal, s, es[0]), es[1..]);
    }
  }

  /** Without a truthy initial index (none, or 0) the engine never scrolls. */
  lemma NoInitialIndexNeverScrolls(initialIndex: Option<int>, isHorizontal: bool, es: seq<Event>)
    requires !Truthy(initialIndex)
    requires Feasible(initialIndex, isHorizontal, Initial(initialIndex), es)
    ensures Run(initialIndex, isHorizontal, Initial(initialIndex), es).scrollToIndex == []
  {
    SettledEmitsNothing(initialIndex, isHorizontal, Initial(initialIndex), es);
  }

  /** Every index the engine emits, along any trace, is the initial index. */
  lemma EmitsOnlyInitialIndex(initialIndex: Option<int>, isHorizontal: bool, es: seq<Event>)
    requires Feasible(initialIndex, isHorizontal, Initial(initialIndex), es)
    ensures var t := Run(initialIndex, isHorizontal, Initial(initialIndex), es);
      forall k :: 0 <= k < |t.scrollToIndex| ==> Some(t.scrollToIndex[k]) == initialIndex && initialIndex.value != 0
  {
  }

  /** While the flag is false, every offset-list update schedules exactly one more scroll to the index. */
  lemma {:induction false} UnsettledUpdatesSchedule(initialIndex: Option<int>, isHorizontal: bool, s: TopItemState, n: nat)
    requires Valid(initialIndex, s) && !s.scrolledToTopMostItem
    ensures var es := seq(n, _ => OffsetListChanged);
      Feasible(initialIndex, isHorizontal, s, es) &&
      Run(initialIndex, isHorizontal, s, es) == s.(pendingScrolls := s.pendingScrolls + n)
    decreases n
  {
    var es := seq(n, _ => OffsetListChanged);
    if n > 0 {
      var t := OffsetListUpdate(s);
      UnsettledUpdatesSchedule(initialIndex, isHorizontal, t, n - 1);
      assert es[1..] == seq(n - 1, _ => OffsetListChanged);
    }
  }

  /** The report of a position at the commanded location, the only event that can start setting the flag. */
  predicate ReachesCommand(isHorizontal: bool, e: Event) {
    e.ScrollTopReported? && IsSameLocation(e.scrollTop, e.latestScrollTo, isHorizontal)
  }

  /**
   * The flag becomes true only after a scroll position matching the latest
   * scroll command is reported: without such a report the flag stays false
   * and the engine keeps scrolling to the index on every update.
   */
  lemma {:induction false} FlagNeedsMatchingReport(initialIndex: Option<int>, isHorizontal: bool, s: TopItemState, es: seq<Event>)
    requires Valid(initialIndex, s) && Feasible(initialIndex, isHorizontal, s, es)
    requires !s.scrolledToTopMostItem && s.pendingFlagSets == 0
    requires forall k :: 0 <= k < |es| ==> !ReachesCommand(isHorizontal, es[k])
    ensures var t := Run(initialIndex, isHorizontal, s, es);
      !t.scrolledToTopMostItem && t.pendingFlagSets == 0
    decreases |es|
  {
    if es != [] {
      assert !ReachesCommand(isHorizontal, es[0]);
      FlagNeedsMatchingReport(initialIndex, isHorizontal, Apply(initialIndex, isHorizontal, s, es[0]), es[1..]);
    }
  }
}
