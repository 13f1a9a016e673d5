# react-virtuoso core, modelled in Dafny

This project models the sequential logic of react-virtuoso's list view.
react-virtuoso is a React component that renders only the visible part of
a long list. The model covers seven parts:

- **Measurement encoder** (`Heights`): `getHeights` reads the rendered children back after a resize. It turns the sizes that changed into maximal `{start, end, size}` runs. `reportScrollTop` clamps a scroll position to be non-negative.
- **Plug container** (`Plug`): `definePlug`, `stateScaffold`, `activatePlug` and `getDerivedStateFromPlugs`. Plugs with declared dependencies are activated depth-first. A plug that is not yet active has its engine bits merged over the engine and snapshotted. In the corrected variant each plug's bits are merged only once; as written, a dependency first activated through its dependent is merged again in the next cycle (see Findings). The result is `null` when nothing changed.
- **Prepend adjustment** (`PrependAdjust`): when items are prepended, the offset list is renumbered at once. One timer tick later, the view scrolls to `count * defaultSize + scrollTop`, that is, down by `count * defaultSize` from where it was. A flag blocks re-entry until then.
- **Initial top item** (`InitialTopItem`): every offset-list update schedules a scroll to the initial index. This stops once a reported position matches the latest scroll command and the one-way flag has been set.
- **Smooth-scroll filter** (`Scroller`): the default scroll container drops scroll commands to the current position. While a smooth scroll is under way, it reports only the position where that scroll arrives.
- **List rendering** (`RenderList`): the sticky top items are stacked at cumulative offsets. The first one carries a negative margin equal to their total size. The main items follow, without the ones already shown on top. The empty component is used when nothing was rendered.
- **Closure helpers** (`Memo`): `simpleMemoize` and `callbackToValue`.

Code that updates state in place is modelled as classes whose methods are
proved against pure step functions. This covers the engines' cells, the
scroll container's refs and the plug cycle's shared array. Each timer
callback is an explicit method that can run only while one is scheduled.
JavaScript reference identity (`updatedState === currentState`) is
modelled as an explicit `isNew` flag. Plug identifiers (`Symbol()`) are
numbers handed out in definition order.

## Model

| member | source | states |
|---|---|---|
| Heights.GetHeights | src/VirtuosoView.tsx:53-79 | the runs decode exactly to the children's changed measurements, in child order; children without an index, with an unchanged size or with size 0 add nothing; every run is non-empty and no two adjacent runs could merge; the result is the left-to-right encoding |
| Heights.ReportedScrollTop | src/VirtuosoView.tsx:136-138 | the reported position is never negative; it is the input when the input is non-negative, and 0 otherwise |
| Heights.ExpandExtend | src/VirtuosoView.tsx:70-75 | extending maximal runs by one measurement adds exactly that measurement to what they decode to |
| Heights.ExpandCompress | src/VirtuosoView.tsx:53-79 | decoding the encoding of any measurements gives them back: nothing is lost, added, reordered or resized |
| Heights.CompressCanonical | src/VirtuosoView.tsx:70-75 | the encoding of any measurements has non-empty, maximal runs |
| Heights.CompressSnoc | src/VirtuosoView.tsx:56-76 | encoding one more measurement is one encoder step on the previous encoding |
| Heights.ExtendOpens | src/VirtuosoView.tsx:72-73 | a measurement that cannot join the last run opens a new singleton run |
| Heights.CompressSpan | src/VirtuosoView.tsx:70-75 | encoding the items of a run that cannot merge with the runs before it appends exactly that run |
| Heights.GrowLast | src/VirtuosoView.tsx:74 | growing the last run in place (`end++`) is the encoder step for a contiguous item of the same size |
| Heights.MeasurementsStep | src/VirtuosoView.tsx:56-69 | each child appends its measurement, if it has one, to those of the children before it |
| Heights.CompressExpand | src/VirtuosoView.tsx:53-79 | maximal runs are encoded back to themselves, so the encoding is unique |
| Heights.MeasurementsAppend | src/VirtuosoView.tsx:55-76 | the measurements of two runs of children, one after the other, are the concatenation of their measurements |
| Heights.SkippedChildIgnored | src/VirtuosoView.tsx:58-68 | a child without `data-index`, with an unchanged size or with size 0 leaves the runs unchanged, wherever it stands |
| Heights.ExpandCovers | src/VirtuosoView.tsx:71-75 | every item inside a run appears in the decoding with that run's size |
| Heights.MeasurementOrigin | src/VirtuosoView.tsx:58-69 | every measurement comes from some child |
| Heights.RecordsAreMeasured | src/VirtuosoView.tsx:58-75 | every item a run covers comes from a child with that `data-index` whose rendered size is the run's size, is non-zero and differs from its known size |
| Plug.DefinePlug | src/Engine/Plug.ts:34-51 | the constructor gets a fresh id above all earlier ones; every plug it builds carries that id and only depends on earlier plugs |
| Plug.StateScaffold | src/Engine/Plug.ts:112-118 | no active plugs, an empty engine and no snapshots, with the active plugs matching the snapshots |
| Plug.Find | src/Engine/Plug.ts:70 | the position of the first plug with the id |
| Plug.Activate | src/Engine/Plug.ts:61-100 | a plug already activated in this cycle is skipped, with the state and cycle unchanged; otherwise the cycle list only grows, the plug ends up in it, and only plugs with ids up to its own are added |
| Plug.ActivateAll | src/Engine/Plug.ts:72-79 | every listed plug ends up activated and the cycle list only grows |
| Plug.ActivationCycle.constructor | src/Engine/Plug.ts:104 | a new cycle starts with nothing activated and no `update` calls |
| Plug.ActivationCycle.ActivatePlug | src/Engine/Plug.ts:61-100 | the recursive, in-place activation gives the same state, cycle list, `update` calls and identity change as `Activate` as written |
| Plug.GetDerivedStateFromPlugs | src/Engine/Plug.ts:102-110 | returns `null` exactly when every plug is already active; otherwise returns the state that activating all plugs in list order produces, together with the `update` calls made |
| Plug.AppendKeepsInvariant | src/Engine/Plug.ts:95-96 | pushing a plug whose dependencies are all activated keeps the cycle free of duplicates, dependency-ordered and matched to `update` calls |
| Plug.ActivateKeepsInvariant | src/Engine/Plug.ts:69-96 | activation activates each plug at most once and only after its dependencies, and calls `update` exactly once per activation, in that order |
| Plug.ActivateAllKeepsInvariant | src/Engine/Plug.ts:72-79 | the same for activating a list of plugs |
| Plug.ActivateIdentity | src/Engine/Plug.ts:67-99 | the state comes back unchanged unless it is marked new; a plug not active in the given state always yields a new state; with every plug active, nothing is new |
| Plug.ActivateAllIdentity | src/Engine/Plug.ts:103-107 | the same across the loop, and once new, the state stays new |
| Plug.DerivedNullIff | src/Engine/Plug.ts:102-110 | the result is `null` exactly when every plug is already active, and the state is then untouched |
| Plug.ActivateKeepsSnapshots | src/Engine/Plug.ts:83-93 | an existing snapshot is never overwritten, and the active plugs keep matching the snapshots |
| Plug.ActivateAllKeepsSnapshots | src/Engine/Plug.ts:72-79 | the same across a list of plugs |
| Plug.ActivePlugGetsSnapshot | src/Engine/Plug.ts:91-95 | an already active plug changes no state of its own, and its `update` receives its stored snapshot |
| Plug.NewPlugMerged | src/Engine/Plug.ts:83-95 | a plug that is not active has its bits laid over the engine its dependencies produced, with new keys winning; the result becomes the engine, its snapshot and its `update` argument; it is appended to the active plugs of the incoming state |
| Plug.CorrectedActivateKeepsActive | src/Engine/Plug.ts:83-90 | with the bookkeeping built on the dependency-updated state, active plugs stay active and every plug activated in the cycle is active |
| Plug.CorrectedActivateAllKeepsActive | src/Engine/Plug.ts:72-79 | the same across a list of plugs |
| Plug.CorrectedDeriveSettles | src/Engine/Plug.ts:102-110 | in the corrected version, one cycle leaves every plug active, so the next cycle returns `null` |
| Plug.ZeroFromScaffold | src/Engine/Plug.ts:83-96 | for plugs `[B depends on A, A]` with any engine bits, activating A from the scaffold marks the state new, activates only A, makes it the only active plug, and makes its bits merged over the empty engine both the engine and its snapshot |
| Plug.AsWrittenFirstActivation | src/Engine/Plug.ts:83-90 | as written, activating B from the scaffold activates A, then B, and marks the state new, but leaves only B active and no snapshot for A |
| Plug.AsWrittenFirstCycle | src/Engine/Plug.ts:102-107 | as written, the first cycle over `[B, A]` from the scaffold ends in the state of B's activation, because A is already activated when the loop reaches it |
| Plug.AsWrittenDropsDependency | src/Engine/Plug.ts:88-89 | as written, for any engine bits, one cycle over `[B depends on A, A]` from the scaffold leaves `activePlugs == [B]` with no snapshot for A, and the next cycle does not return `null` |
| Scroll.ScrollToPosition | src/engines/adjustForPrependedItemsEngine.ts:31-35 | the command carries the value on `left` when horizontal and on `top` otherwise, and nothing else |
| PrependAdjust.Initial | src/engines/adjustForPrependedItemsEngine.ts:19 | the flag starts false, nothing is scheduled and nothing has been emitted |
| PrependAdjust.PrependAdjuster.constructor | src/engines/adjustForPrependedItemsEngine.ts:11-19 | the engine starts in the initial state |
| PrependAdjust.PrependAdjuster.AdjustForPrependedItems | src/engines/adjustForPrependedItemsEngine.ts:20-28 | the request is ignored while in progress or when the list is empty; otherwise the flag is set, the list is replaced by its adjusted form, and the count, the old list and the scroll position are captured for the timer; a timer is scheduled exactly while the flag is set |
| PrependAdjust.PrependAdjuster.FireDeferred | src/engines/adjustForPrependedItemsEngine.ts:30-37 | emits `count * defaultSize + scrollTop` on the active axis, with the captured values, and clears the flag |
| PrependAdjust.PrependAdjuster.SetOffsetList | src/engines/adjustForPrependedItemsEngine.ts:5 | another writer of the shared offset-list cell changes only the list |
| PrependAdjust.BurstKeepsFirstAdjustment | src/engines/adjustForPrependedItemsEngine.ts:23-25 | while an adjustment is in progress, any number of further requests change nothing |
| PrependAdjust.RequestThenFire | src/engines/adjustForPrependedItemsEngine.ts:20-37 | an accepted request followed by its timer leaves the adjusted list, exactly one command at `count * defaultSize(old list) + scrollTop`, and the flag cleared |
| PrependAdjust.RequestIgnoredIff | src/engines/adjustForPrependedItemsEngine.ts:23-28 | a request leaves the state unchanged exactly when an adjustment is in progress or the list is empty |
| InitialTopItem.Initial | src/engines/initialTopMostItemEngine.ts:22 | the flag starts true exactly when the initial index is falsy (undefined or 0) |
| InitialTopItem.Apply | src/engines/initialTopMostItemEngine.ts:24-43 | every event keeps the invariant: the flag can be false, and scrolls can be scheduled or emitted, only with a truthy index, and only that index is emitted |
| InitialTopItem.Run | src/engines/initialTopMostItemEngine.ts:24-43 | the same invariant holds after any feasible trace |
| InitialTopItem.TopItemEngine.constructor | src/engines/initialTopMostItemEngine.ts:14-22 | the engine starts in the initial state |
| InitialTopItem.TopItemEngine.OnScrollTop | src/engines/initialTopMostItemEngine.ts:24-34 | a report schedules setting the flag exactly when it equals the latest command's `left` (horizontal) or `top` and the flag is false |
| InitialTopItem.TopItemEngine.OnOffsetList | src/engines/initialTopMostItemEngine.ts:36-43 | an update schedules a scroll to the index exactly while the flag is false |
| InitialTopItem.TopItemEngine.FireFlagTimer | src/engines/initialTopMostItemEngine.ts:30-32 | the timer sets the flag |
| InitialTopItem.TopItemEngine.FireScrollTimer | src/engines/initialTopMostItemEngine.ts:39-41 | the timer emits the initial index, whatever the flag is by then |
| InitialTopItem.FlagIsMonotone | src/engines/initialTopMostItemEngine.ts:31 | once set, the flag stays set along every trace |
| InitialTopItem.SettledEmitsNothing | src/engines/initialTopMostItemEngine.ts:36-42 | once the flag is set and no scroll is scheduled, nothing is scheduled or emitted again |
| InitialTopItem.NoInitialIndexNeverScrolls | src/engines/initialTopMostItemEngine.ts:22 | without a truthy initial index, no trace ever emits a scroll to the index |
| InitialTopItem.EmitsOnlyInitialIndex | src/engines/initialTopMostItemEngine.ts:40 | every emitted index is the initial index, and it is non-zero |
| InitialTopItem.UnsettledUpdatesSchedule | src/engines/initialTopMostItemEngine.ts:36-42 | while the flag is false, n updates schedule exactly n scrolls and change nothing else |
| InitialTopItem.FlagNeedsMatchingReport | src/engines/initialTopMostItemEngine.ts:26-33 | without a report that matches the latest command, the flag stays false and no flag timer is scheduled |
| Scroller.Initial | src/VirtuosoScroller.tsx:38-40 | no position is known yet, no smooth target, not attached, nothing reported or issued |
| Scroller.ScrollContainer.constructor | src/VirtuosoScroller.tsx:38-40 | the container starts in the initial state |
| Scroller.ScrollContainer.Attach | src/VirtuosoScroller.tsx:61-66 | mounting the element changes only whether it is attached |
| Scroller.ScrollContainer.HandleScroll | src/VirtuosoScroller.tsx:42-59 | records the position on the active axis; reports it when no smooth target is pending; when one is pending, reports it and clears the target only if it is the target |
| Scroller.ScrollContainer.ScrollTo | src/VirtuosoScroller.tsx:75-88 | a command to the current coordinate on the active axis is dropped; otherwise a smooth command records its coordinate as the target, and the command is passed on when the element is attached |
| Scroller.ReportsAllWithoutTarget | src/VirtuosoScroller.tsx:54-56 | with no smooth target, every position is reported, in order |
| Scroller.SuppressesUntilTarget | src/VirtuosoScroller.tsx:46-53 | while a smooth target is pending, positions other than it are not reported and the target stays |
| Scroller.ReportsArrivalThenAll | src/VirtuosoScroller.tsx:46-56 | with a smooth target `v`, the positions before the first `v` are dropped, `v` is reported once, and every later position is reported |
| Scroller.UndefinedTargetSuppressesForever | src/VirtuosoScroller.tsx:46-53 | a smooth target without a coordinate suppresses every later report |
| Scroller.RequestScrollEffect | src/VirtuosoScroller.tsx:75-88 | a command to the current coordinate changes nothing; otherwise the target becomes the command's coordinate for a smooth command, or stays; the command is issued exactly when attached; nothing is reported |
| Scroller.ScrollRecordsPosition | src/VirtuosoScroller.tsx:44-45 | every scroll event records its position as the current one |
| RenderList.RenderList | src/VirtuosoList.tsx:21-85 | the output is the top items, each placed at the total size of those before it, the first with margin minus the total of all, then the main items whose index is not a top index, in input order, each with its index and size; nothing when no renderer is set; the empty component exactly when nothing was rendered and one is given |
| RenderList.RenderTopItems | src/VirtuosoList.tsx:40-64 | the top-item loop records every top index, in order, and with a renderer renders exactly the top elements: each at the total size of those before it, the first with margin minus the total; without a renderer it renders nothing |
| RenderList.RenderMainItems | src/VirtuosoList.tsx:66-81 | the main-item loop appends, with a renderer, exactly the main items whose index is not shown, in order, each with its index and size and no placement; without a renderer it appends nothing |
| RenderList.TopStep | src/VirtuosoList.tsx:40-64 | each top item advances the running offset by its size and adds its index to the shown indices |
| RenderList.MainStep | src/VirtuosoList.tsx:66-81 | each main item is appended unless its index is shown |
| RenderList.TopItemsStacked | src/VirtuosoList.tsx:40-64 | each top item after the first is placed where the previous one ends, with no margin |
| RenderList.TopItemsPulledUp | src/VirtuosoList.tsx:32-51 | the first top item is placed at 0 with margin minus the total size, which is where the last one ends |
| RenderList.MainItemsDeduplicate | src/VirtuosoList.tsx:66-69 | a main item is rendered exactly when its index is not among the top indices |
| RenderList.NothingShownKeepsAll | src/VirtuosoList.tsx:66-69 | with no top items, every main item is rendered |
| RenderList.EmptyComponentIff | src/VirtuosoList.tsx:83-84 | nothing is rendered exactly when there is no renderer or no items at all, and only then is the empty component used (when one is given) |
| Memo.Memoized.constructor | src/Utils.tsx:100-103 | wrapping calls nothing |
| Memo.Memoized.Invoke | src/Utils.tsx:104-110 | the first invocation calls the wrapped function once; later ones never call it; every invocation returns the first call's result |
| Memo.InvokeRepeatedly | src/Utils.tsx:100-111 | any number of invocations call the wrapped function at most once and all return its first result |
| Memo.CallbackToValue | src/Utils.tsx:49-57 | the value is the default when nothing is delivered synchronously, otherwise the last value delivered |

## Left out

- The offset list (`OffsetList`, `AATree`), the reactive cells (`tinyrx`) and the engines that wire the parts together (`VirtuosoEngine`, `VirtuosoGridEngine`) are not part of this model. The offset list is a type parameter whose `empty`, `getDefaultSize` and `adjustForPrependedItems` are arbitrary functions.
- `withLatestFrom` is taken to deliver the latest value of every cell it reads. What it does before a cell has any value is not modelled. `InitialTopItem.TopItemEngine.OnScrollTop` always receives a latest scroll command.
- Timers are explicit "fire" steps that may run whenever one is scheduled. Nothing is claimed about when `setTimeout` callbacks run relative to other events.
- React and DOM plumbing is not modelled: hooks, `useOutput`, `useHeight`, `useSize`, styles, `positionStickyCssValue`, JSX, the renderer's return value, and the scroll listener's registration and removal (src/VirtuosoScroller.tsx:61-73). Scroll events arrive as method calls. `ScrollContainer.Attach` stands for storing the element.
- Sizes and positions are integers. Pixel rounding, `NaN` sizes and floating point are not modelled. A missing `data-index` or `data-known-size` attribute is `None`. A `data-index` that is present but does not parse (`parseInt` gives `NaN`) is not modelled: the source would push a run with a `NaN` start that never merges with another.
- Plug.GetDerivedStateFromPlugs: requires that every dependency is one of the given plugs and was defined before its dependent (`WellFormed`). The source throws on a missing plug and recurses on a dependency cycle until the stack overflows. Definition order rules out cycles.
- Plug engine bits are values of type `map<string, Bit>`, and `engine` is an arbitrary function. `update` callbacks are recorded in order in a log instead of being run.
- An already active plug whose snapshot is missing gets `None` (`undefined`) as its `update` argument. The proved invariant that active plugs have snapshots rules this out.
- Memo.Memoized.Invoke: `func` always returns. The source sets `called` before calling `func`, so when `func` throws, the exception propagates and every later invocation returns `undefined` without calling `func`; a re-entrant invocation from inside `func` also returns `undefined`. Neither case is modelled.
- `ItemHeightsPlug` and the other plugs are not part of this model.

## Findings

| source | as written | input that shows it | evidently intended | confidence | as-written member | corrected member |
|---|---|---|---|---|---|---|
| src/Engine/Plug.ts:88-89 | a plug's new `activePlugs` and `engineSnapshots` are built from the incoming `state`, discarding what its dependencies just added | plugs `[B (depends on A), A]` from `stateScaffold()`: the first cycle activates A, then B, but leaves `activePlugs == [B]` with no snapshot for A; the next cycle merges A again and does not return `null` | build them from `updatedState`, so that a dependency activated on the way stays active | medium, not executed | Plug.AsWrittenDropsDependency | Plug.CorrectedDeriveSettles |
