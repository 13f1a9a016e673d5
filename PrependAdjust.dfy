/**
 * The prepend-adjustment engine (src/engines/adjustForPrependedItemsEngine.ts):
 * when items are added at the front of the list, the offset list is
 * renumbered at once and, one timer tick later, the view is scrolled down by
 * the size of the new items so that the items on screen do not move. An
 * in-progress flag makes every request that arrives before the timer fires
 * a no-op.
 */
module PrependAdjust {
  import opened Wrappers
  import opened Scroll

  /**
   * The three offset-list operations the engine uses. The offset list itself
   * is not part of this model: its type is a parameter and its operations are
   * whatever functions are given.
   */
  datatype OffsetListOps<!L> = OffsetListOps(empty: L -> bool, getDefaultSize: L -> int, adjustForPrependedItems: (L, int) -> L)

  /** The timer callback's captured values: the count, the offset list before the adjustment and the scroll position at request time. */
  datatype Pending<L> = Pending(count: int, offsetList: L, scrollTop: int)

  /** The engine's cells: the offset list, the in-progress flag, the scheduled timer, and every scroll command emitted so far. */
  datatype AdjustState<L> = AdjustState(offsetList: L, inProgress: bool, pending: Option<Pending<L>>, scrollTo: seq<ScrollToOptions>)

  /** A timer is scheduled exactly while an adjustment is in progress. */
  predicate Valid<L>(s: AdjustState<L>) {
    s.inProgress <==> s.pending.Some?
  }

  /** The state when the engine is created: the flag is false and nothing is scheduled or emitted. */
  function Initial<L>(offsetList: L): (s: AdjustState<L>)
    ensures Valid(s) && !s.inProgress && s.scrollTo == []
  {
    AdjustState(offsetList, false, None, [])
  }

  /**
   * The subscriber of `adjustForPrependedItems$`: ignored while an adjustment
   * is in progress or when the offset list is empty; otherwise sets the flag,
   * replaces the offset list with the adjusted one, and schedules the
   * compensating scroll with the values of this moment.
   */
  function Request<L>(ops: OffsetListOps<L>, s: AdjustState<L>, count: int, scrollTop: int): AdjustState<L> {
    if s.inProgress || ops.empty(s.offsetList) then s
    else
      s.(offsetList := ops.adjustForPrependedItems(s.offsetList, count),
         inProgress := true,
         pending := Some(Pending(count, s.offsetList, scrollTop)))
  }

  /** The compensating scroll target: the new items at the default size of the list before adjustment, below the old position. */
  function CompensatingTarget<L>(ops: OffsetListOps<L>, p: Pending<L>): int {
    p.count * ops.getDefaultSize(p.offsetList) + p.scrollTop
  }

  /** The timer callback: emits the compensating scroll on the active axis and clears the flag. */
  function Fire<L>(ops: OffsetListOps<L>, isHorizontal: bool, s: AdjustState<L>): AdjustState<L>
    requires s.pending.Some?
  {
    s.(scrollTo := s.scrollTo + [ScrollToPosition(CompensatingTarget(ops, s.pending.value), isHorizontal)],
       inProgress := false,
       pending := None)
  }

  /**
   * The engine as an object whose cells its subscribers update. `Request`
   * and `Fire` are the specification; these methods are their in-place form,
   * each proved to produce exactly the step function's state.
   */
  class PrependAdjuster<L> {
    const ops: OffsetListOps<L>
    const isHorizontal: bool
    var offsetList: L
    var adjustmentInProgress: bool
    var pending: Option<Pending<L>>
    var scrollTo: seq<ScrollToOptions>

    function View(): AdjustState<L>
      reads this
    {
      AdjustState(offsetList, adjustmentInProgress, pending, scrollTo)
    }

    constructor (ops: OffsetListOps<L>, isHorizontal: bool, offsetList: L)
      ensures this.ops == ops && this.isHorizontal == isHorizontal
      ensures View() == Initial(offsetList)
    {
      this.ops := ops;
      this.isHorizontal := isHorizontal;
      this.offsetList := offsetList;
      adjustmentInProgress := false;
      pending := None;
      scrollTo := [];
    }

    /** `adjustForPrependedItems$.next(count)`, with the latest scroll position. */
    method AdjustForPrependedItems(count: int, scrollTop: int)
      requires Valid(View())
      modifies this
      ensures Valid(View())
      ensures View() == Request(ops, old(View()), count, scrollTop)
    {
      if adjustmentInProgress || ops.empty(offsetList) {
        return;
      }
      var captured := offsetList;
      adjustmentInProgress := true;
      offsetList := ops.adjustForPrependedItems(captured, count);
      pending := Some(Pending(count, captured, scrollTop));
    }

    /** The scheduled timer fires. */
    method FireDeferred()
      requires Valid(View()) && pending.Some?
      modifies this
      ensures Valid(View())
      ensures View() == Fire(ops, isHorizontal, old(View()))
    {
      var p := pending.value;
      scrollTo := scrollTo + [ScrollToPosition(p.count * ops.getDefaultSize(p.offsetList) + p.scrollTop, isHorizontal)];
      adjustmentInProgress := false;
      pending := None;
    }

    /** Another engine writes the shared `offsetList$` cell. */
    method SetOffsetList(list: L)
      modifies this`offsetList
      ensures View() == old(View()).(offsetList := list)
    {
      offsetList := list;
    }
  }

  /** Applies a burst of requests `(count, scrollTop)` in order, with no timer firing in between. */
  function RequestAll<L>(ops: OffsetListOps<L>, s: AdjustState<L>, requests: seq<(int, int)>): AdjustState<L>
    decreases |requests|
  {
    if requests == [] then s else RequestAll(ops, Request(ops, s, requests[0].0, requests[0].1), requests[1..])
  }

  /**
   * Within one burst only the first accepted request counts: once a request
   * is accepted, every later one is ignored until the timer fires, so the
   * offset list is adjusted by the first count only.
   */
  lemma {:induction false} BurstKeepsFirstAdjustment<L>(ops: OffsetListOps<L>, s: AdjustState<L>, requests: seq<(int, int)>)
    requires s.inProgress
    ensures RequestAll(ops, s, requests) == s
  {
    if requests != [] {
      BurstKeepsFirstAdjustment(ops, Request(ops, s, requests[0].0, requests[0].1), requests[1..]);
    }
  }

  /**
   * A request accepted and then completed by its timer: the offset list is
   * the adjusted one, exactly one scroll command is emitted, to
   * `count * defaultSize + scrollTop` on the active axis with the default
   * size of the list before the adjustment, and the flag is cleared so the
   * next request is accepted again.
   */
  lemma RequestThenFire<L>(ops: OffsetListOps<L>, isHorizontal: bool, s: AdjustState<L>, count: int, scrollTop: int)
    requires Valid(s) && !s.inProgress && !ops.empty(s.offsetList)
    ensures Request(ops, s, count, scrollTop).pending.Some?
    ensures var t := Fire(ops, isHorizontal, Request(ops, s, count, scrollTop));
      Valid(t) && !t.inProgress &&
      t.offsetList == ops.adjustForPrependedItems(s.offsetList, count) &&
      t.scrollTo == s.scrollTo + [ScrollToPosition(count * ops.getDefaultSize(s.offsetList) + scrollTop, isHorizontal)]
  {
  }

  /** A request is ignored, changing nothing, exactly when an adjustment is in progress or the offset list is empty. */
  lemma RequestIgnoredIff<L>(ops: OffsetListOps<L>, s: AdjustState<L>, count: int, scrollTop: int)
    requires Valid(s)
    ensures Request(ops, s, count, scrollTop) == s <==> s.inProgress || ops.empty(s.offsetList)
  {
  }
}
