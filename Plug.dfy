/**
 * The plug container (src/Engine/Plug.ts): engine fragments ("plugs") with
 * declared dependencies are activated depth first, once per cycle; a plug
 * seen for the first time merges its engine bits into the shared engine and
 * keeps a snapshot of the result, a plug seen before gets its snapshot back;
 * every activated plug then has its `update` callback invoked with its props.
 */
module Plug {
  import opened Wrappers

  /**
   * A plug identifier. definePlug creates a fresh symbol per definition; here
   * identifiers are handed out in definition order, so a plug's dependencies,
   * which must be defined before it, always have smaller identifiers.
   */
  type PlugId = nat

  /** An opaque handle to something an engine fragment exposes (a subject, a callback). */
  datatype Bit = Bit(handle: nat)

  /** An engine object: named bits. The spread `{ ...a, ...b }` is the map union `a + b`, where `b` wins. */
  type Engine = map<string, Bit>

  /** The props a plug was created with (`currentProps`), opaque here. */
  datatype Props = NoProps | Props(handle: nat)

  /** A plug constructor as returned by definePlug: its id, its dependencies and its engine function. */
  datatype Constructor = Constructor(id: PlugId, dependencies: seq<PlugId>, engine: Engine -> Engine)

  /** A plug: what a constructor returns for one set of props. */
  datatype EnginePlug = EnginePlug(id: PlugId, dependencies: seq<PlugId>, engine: Engine -> Engine, currentProps: Props)

  /** The container state kept between cycles. */
  datatype EngineState = EngineState(activePlugs: seq<PlugId>, engine: Engine, engineSnapshots: map<PlugId, Engine>)

  /** One invocation of a plug's `update` callback: the plug, the bits it received (None for `undefined`) and its props. */
  datatype UpdateCall = UpdateCall(plug: PlugId, bits: Option<Engine>, props: Props)

  /** What one cycle has done so far: `activatedInTheCurrentCycle` and the `update` calls made, in order. */
  datatype Cycle = Cycle(activated: seq<PlugId>, updates: seq<UpdateCall>)

  /**
   * The result of an activation: the state, the cycle, and whether the state
   * is a new object rather than the one passed in (JavaScript reference
   * identity, which getDerivedStateFromPlugs tests with `===`).
   */
  datatype Step = Step(state: EngineState, cycle: Cycle, isNew: bool)

  /**
   * Which state the bookkeeping of a newly activated plug is built on: the
   * one passed to activatePlug, as the source does, or the one its
   * dependencies returned (see CorrectedDeriveSettles).
   */
  datatype Variant = AsWritten | Corrected

  /**
   * definePlug, with the next unused identifier standing for a fresh symbol:
   * the constructor gets that identifier, and every plug it builds carries it
   * and has only dependencies defined before it.
   */
  function DefinePlug(next: PlugId, dependencies: seq<PlugId>, engine: Engine -> Engine): (r: (Constructor, PlugId))
    requires forall k :: 0 <= k < |dependencies| ==> dependencies[k] < next
    ensures r.1 > r.0.id && r.0.id >= next
    ensures forall props :: Instantiate(r.0, props).id == r.0.id && DependenciesFirst(Instantiate(r.0, props))
  {
    (Constructor(next, dependencies, engine), next + 1)
  }

  /** The constructor's own function: a plug with the constructor's id, dependencies and engine. */
  function Instantiate(c: Constructor, props: Props): EnginePlug {
    EnginePlug(c.id, c.dependencies, c.engine, props)
  }

  /** stateScaffold: the state before any cycle, with no active plug and no snapshot. */
  function StateScaffold(): (s: EngineState)
    ensures s.activePlugs == [] && s.engine == map[] && s.engineSnapshots == map[]
    ensures Consistent(s)
  {
    EngineState([], map[], map[])
  }

  /** The active plugs are exactly the plugs that have a snapshot. */
  ghost predicate Consistent(s: EngineState) {
    forall a :: a in s.activePlugs <==> a in s.engineSnapshots
  }

  /** Every dependency of a plug was defined before it. */
  predicate DependenciesFirst(p: EnginePlug) {
    forall k :: 0 <= k < |p.dependencies| ==> p.dependencies[k] < p.id
  }

  /** The identifiers of the plugs, in order. */
  function Ids(plugs: seq<EnginePlug>): (ids: seq<PlugId>)
    ensures |ids| == |plugs| && forall k :: 0 <= k < |plugs| ==> ids[k] == plugs[k].id
  {
    seq(|plugs|, k requires 0 <= k < |plugs| => plugs[k].id)
  }

  /**
   * What the container needs of the plugs it is given: each plug's
   * dependencies were defined before it and are among the plugs (the source
   * would otherwise fail on `plugs.find(...)!`).
   */
  predicate WellFormed(plugs: seq<EnginePlug>) {
    forall i, k :: 0 <= i < |plugs| && 0 <= k < |plugs[i].dependencies| ==>
      plugs[i].dependencies[k] < plugs[i].id && plugs[i].dependencies[k] in Ids(plugs)
  }

  /** `plugs.find(plug => plug.id == id)`: the position of the first plug with that id. */
  function Find(plugs: seq<EnginePlug>, id: PlugId): (k: nat)
    requires id in Ids(plugs)
    ensures k < |plugs| && plugs[k].id == id
    ensures forall j :: 0 <= j < k ==> plugs[j].id != id
  {
    if plugs[0].id == id then 0
    else
      assert Ids(plugs)[1..] == Ids(plugs[1..]);
      1 + Find(plugs[1..], id)
  }

  /** The dependencies of the plug with the given id. */
  function DependenciesOf(plugs: seq<EnginePlug>, id: PlugId): seq<PlugId>
    requires id in Ids(plugs)
  {
    plugs[Find(plugs, id)].dependencies
  }

  /** A number above every plug identifier. */
  function Bound(plugs: seq<EnginePlug>): (b: nat)
    ensures forall k :: 0 <= k < |plugs| ==> plugs[k].id < b
  {
    if plugs == [] then 0
    else
      var rest := Bound(plugs[1..]);
      assert forall k :: 1 <= k < |plugs| ==> plugs[k] == plugs[1..][k - 1];
      if plugs[0].id < rest then rest else plugs[0].id + 1
  }

  /**
   * activatePlug: a plug already activated in this cycle is skipped; otherwise
   * its dependencies are activated first, then a plug that was not active
   * merges its engine bits over the engine and records the merged engine as
   * its snapshot, while an active plug gets its stored snapshot; finally its
   * `update` is called and it is marked as activated. The cycle only grows,
   * the plug ends up activated, and everything this call activates has an id
   * no larger than the plug's.
   */
  function Activate(v: Variant, plugs: seq<EnginePlug>, cycle: Cycle, state: EngineState, id: PlugId): (r: Step)
    requires WellFormed(plugs) && id in Ids(plugs)
    ensures |cycle.activated| <= |r.cycle.activated| && r.cycle.activated[..|cycle.activated|] == cycle.activated
    ensures id in r.cycle.activated
    ensures id in cycle.activated ==> r == Step(state, cycle, false)
    ensures forall k :: |cycle.activated| <= k < |r.cycle.activated| ==> r.cycle.activated[k] <= id
    decreases id, 1, 0
  {
    if id in cycle.activated then Step(state, cycle, false)
    else
      var plug := plugs[Find(plugs, id)];
      var d := ActivateAll(v, plugs, Step(state, cycle, false), plug.dependencies, id);
      if id !in state.activePlugs then
        var base := if v == AsWritten then state else d.state;
        var extended := d.state.engine + plug.engine(d.state.engine);
        Step(EngineState(base.activePlugs + [id], extended, base.engineSnapshots[id := extended]),
             Cycle(d.cycle.activated + [id], d.cycle.updates + [UpdateCall(id, Some(extended), plug.currentProps)]),
             true)
      else
        var snapshot := if id in state.engineSnapshots then Some(state.engineSnapshots[id]) else None;
        Step(d.state,
             Cycle(d.cycle.activated + [id], d.cycle.updates + [UpdateCall(id, snapshot, plug.currentProps)]),
             d.isNew)
  }

  /**
   * Activates the given plugs one after the other, threading the state and
   * the cycle and remembering whether any activation made a new state. Every
   * given plug ends up activated, and nothing activated here has an id of
   * `bound` or more.
   */
  function ActivateAll(v: Variant, plugs: seq<EnginePlug>, acc: Step, ids: seq<PlugId>, bound: nat): (r: Step)
    requires WellFormed(plugs)
    requires forall k :: 0 <= k < |ids| ==> ids[k] < bound && ids[k] in Ids(plugs)
    ensures |acc.cycle.activated| <= |r.cycle.activated| && r.cycle.activated[..|acc.cycle.activated|] == acc.cycle.activated
    ensures forall k :: 0 <= k < |ids| ==> ids[k] in r.cycle.activated
    ensures forall k :: |acc.cycle.activated| <= k < |r.cycle.activated| ==> r.cycle.activated[k] < bound
    decreases bound, 0, |ids|
  {
    if ids == [] then acc
    else
      var s := Activate(v, plugs, acc.cycle, acc.state, ids[0]);
      var r := ActivateAll(v, plugs, Step(s.state, s.cycle, acc.isNew || s.isNew), ids[1..], bound);
      Chain(acc.cycle.activated, s.cycle.activated, r.cycle.activated, bound);
      assert forall k :: 1 <= k < |ids| ==> ids[k] == ids[1..][k - 1];
      r
  }

  /** Growing a cycle list twice: the first list is still a prefix, nothing is lost, and every added id stays below the bound. */
  lemma Chain(a: seq<PlugId>, b: seq<PlugId>, c: seq<PlugId>, bound: nat)
    requires |a| <= |b| && b[..|a|] == a && |b| <= |c| && c[..|b|] == b
    requires forall k :: |a| <= k < |b| ==> b[k] < bound
    requires forall k :: |b| <= k < |c| ==> c[k] < bound
    ensures |a| <= |c| && c[..|a|] == a
    ensures forall x :: x in b ==> x in c
    ensures forall k :: |a| <= k < |c| ==> c[k] < bound
  {
    assert forall k :: 0 <= k < |b| ==> c[k] == b[k];
  }

  /** One full cycle of getDerivedStateFromPlugs, starting from an empty cycle. */
  function Derive(v: Variant, plugs: seq<EnginePlug>, current: EngineState): Step
    requires WellFormed(plugs)
  {
    ActivateAll(v, plugs, Step(current, Cycle([], []), false), Ids(plugs), Bound(plugs))
  }

  /** getDerivedStateFromPlugs: the new state, or None (`null`) when the state object is still the current one. */
  function DerivedState(v: Variant, plugs: seq<EnginePlug>, current: EngineState): Option<EngineState>
    requires WellFormed(plugs)
  {
    var r := Derive(v, plugs, current);
    if r.isNew then Some(r.state) else None
  }

  /**
   * The bookkeeping one getDerivedStateFromPlugs call shares among all its
   * activatePlug calls: the array `activatedInTheCurrentCycle`, which they
   * push onto, and the `update` callbacks invoked so far. Its `ActivatePlug`
   * is the in-place form of `Activate`, which is its specification.
   */
  class ActivationCycle {
    var activated: seq<PlugId>
    var updates: seq<UpdateCall>

    constructor ()
      ensures activated == [] && updates == []
    {
      activated, updates := [], [];
    }

    function View(): Cycle
      reads this
    {
      Cycle(activated, updates)
    }

    /**
     * activatePlug, as written: recursion over the dependencies, the cycle
     * array pushed onto in place, and the state reassigned step by step.
     */
    method ActivatePlug(state: EngineState, plugs: seq<EnginePlug>, plugId: PlugId) returns (updatedState: EngineState, isNew: bool)
      requires WellFormed(plugs) && plugId in Ids(plugs)
      modifies this
      ensures Step(updatedState, View(), isNew) == Activate(AsWritten, plugs, old(View()), state, plugId)
      decreases plugId, 1
    {
      updatedState, isNew := state, false;
      if plugId !in activated {
        var plug := plugs[Find(plugs, plugId)];
        ghost var start := Step(state, View(), false);
        for k := 0 to |plug.dependencies|
          invariant ActivateAll(AsWritten, plugs, start, plug.dependencies, plugId) ==
            ActivateAll(AsWritten, plugs, Step(updatedState, View(), isNew), plug.dependencies[k..], plugId)
        {
          assert plug.dependencies[k..][1..] == plug.dependencies[k + 1..];
          var dependencyState, dependencyIsNew := ActivatePlug(updatedState, plugs, plug.dependencies[k]);
          updatedState, isNew := dependencyState, isNew || dependencyIsNew;
        }
        var extendedEngine: Option<Engine>;
        if plugId !in state.activePlugs {
          var merged := updatedState.engine + plug.engine(updatedState.engine);
          updatedState := EngineState(state.activePlugs + [plugId], merged, state.engineSnapshots[plugId := merged]);
          isNew := true;
          extendedEngine := Some(merged);
        } else {
          extendedEngine := if plugId in state.engineSnapshots then Some(state.engineSnapshots[plugId]) else None;
        }
        updates := updates + [UpdateCall(plugId, extendedEngine, plug.currentProps)];
        activated := activated + [plugId];
      }
    }
  }

  /**
   * getDerivedStateFromPlugs, as written: activates every plug in list order
   * within one fresh cycle, and returns the new state, or None (`null`) when
   * the state object was never replaced, which happens exactly when every
   * plug was already active. The `update` calls made are returned alongside.
   */
  method GetDerivedStateFromPlugs(plugs: seq<EnginePlug>, currentState: EngineState) returns (derived: Option<EngineState>, updates: seq<UpdateCall>)
    requires WellFormed(plugs)
    ensures derived.None? <==> forall k :: 0 <= k < |plugs| ==> plugs[k].id in currentState.activePlugs
    ensures derived == DerivedState(AsWritten, plugs, currentState)
    ensures updates == Derive(AsWritten, plugs, currentState).cycle.updates
  {
    var updatedState, changed := currentState, false;
    var activatedInTheCurrentCycle := new ActivationCycle();
    ghost var ids := Ids(plugs);
    for k := 0 to |plugs|
      invariant Derive(AsWritten, plugs, currentState) ==
        ActivateAll(AsWritten, plugs, Step(updatedState, activatedInTheCurrentCycle.View(), changed), ids[k..], Bound(plugs))
    {
      assert ids[k..][1..] == ids[k + 1..];
      var s, n := activatedInTheCurrentCycle.ActivatePlug(updatedState, plugs, plugs[k].id);
      updatedState, changed := s, changed || n;
    }
    derived := if changed then Some(updatedState) else None;
    updates := activatedInTheCurrentCycle.updates;
    DerivedNullIff(AsWritten, plugs, currentState);
  }

  predicate NoDuplicates(s: seq<PlugId>) {
    forall i, j :: 0 <= i < j < |s| ==> s[i] != s[j]
  }

  /** Every activated plug's dependencies were activated before it. */
  predicate DependenciesActivatedFirst(plugs: seq<EnginePlug>, activated: seq<PlugId>) {
    forall k, j :: 0 <= k < |activated| && activated[k] in Ids(plugs) && 0 <= j < |DependenciesOf(plugs, activated[k])| ==>
      DependenciesOf(plugs, activated[k])[j] in activated[..k]
  }

  /** The k-th `update` call belongs to the k-th activated plug. */
  predicate UpdatesMatch(c: Cycle) {
    |c.updates| == |c.activated| && forall k :: 0 <= k < |c.updates| ==> c.updates[k].plug == c.activated[k]
  }

  /**
   * The cycle bookkeeping: each plug is activated at most once, only after
   * all of its dependencies, and `update` runs exactly once per activation,
   * in activation order.
   */
  predicate CycleInvariant(plugs: seq<EnginePlug>, c: Cycle) {
    NoDuplicates(c.activated) && DependenciesActivatedFirst(plugs, c.activated) && UpdatesMatch(c)
  }

  lemma AppendKeepsInvariant(plugs: seq<EnginePlug>, c: Cycle, id: PlugId, u: UpdateCall)
    requires WellFormed(plugs) && id in Ids(plugs) && CycleInvariant(plugs, c)
    requires id !in c.activated && u.plug == id
    requires forall j :: 0 <= j < |DependenciesOf(plugs, id)| ==> DependenciesOf(plugs, id)[j] in c.activated
    ensures CycleInvariant(plugs, Cycle(c.activated + [id], c.updates + [u]))
  {
    var a := c.activated + [id];
    assert a[..|c.activated|] == c.activated;
    forall k | 0 <= k < |c.activated| ensures a[..k] == c.activated[..k] {
    }
  }

  /** Activation keeps the cycle bookkeeping sound. */
  lemma {:induction false} ActivateKeepsInvariant(v: Variant, plugs: seq<EnginePlug>, cycle: Cycle, state: EngineState, id: PlugId)
    requires WellFormed(plugs) && id in Ids(plugs) && CycleInvariant(plugs, cycle)
    ensures CycleInvariant(plugs, Activate(v, plugs, cycle, state, id).cycle)
    decreases id, 1, 0
  {
    if id !in cycle.activated {
      var plug := plugs[Find(plugs, id)];
      var d := ActivateAll(v, plugs, Step(state, cycle, false), plug.dependencies, id);
      ActivateAllKeepsInvariant(v, plugs, Step(state, cycle, false), plug.dependencies, id);
      var r := Activate(v, plugs, cycle, state, id);
      var u := r.cycle.updates[|r.cycle.updates| - 1];
      assert r.cycle == Cycle(d.cycle.activated + [id], d.cycle.updates + [u]);
      AppendKeepsInvariant(plugs, d.cycle, id, u);
    }
  }

  lemma {:induction false} ActivateAllKeepsInvariant(v: Variant, plugs: seq<EnginePlug>, acc: Step, ids: seq<PlugId>, bound: nat)
    requires WellFormed(plugs) && CycleInvariant(plugs, acc.cycle)
    requires forall k :: 0 <= k < |ids| ==> ids[k] < bound && ids[k] in Ids(plugs)
    ensures CycleInvariant(plugs, ActivateAll(v, plugs, acc, ids, bound).cycle)
    decreases bound, 0, |ids|
  {
    if ids != [] {
      var s := Activate(v, plugs, acc.cycle, acc.state, ids[0]);
      ActivateKeepsInvariant(v, plugs, acc.cycle, acc.state, ids[0]);
      ActivateAllKeepsInvariant(v, plugs, Step(s.state, s.cycle, acc.isNew || s.isNew), ids[1..], bound);
    }
  }

  /**
   * Reference identity through one activation: the state object comes back
   * unchanged unless the result is marked new; activating a plug that is not
   * active in the given state always marks the result new; and when every
   * plug is already active nothing is marked new.
   */
  lemma {:induction false} ActivateIdentity(v: Variant, plugs: seq<EnginePlug>, cycle: Cycle, state: EngineState, id: PlugId)
    requires WellFormed(plugs) && id in Ids(plugs)
    ensures var r := Activate(v, plugs, cycle, state, id);
      (!r.isNew ==> r.state == state) &&
      (forall k :: |cycle.activated| <= k < |r.cycle.activated| && r.cycle.activated[k] !in state.activePlugs ==> r.isNew) &&
      ((forall k :: 0 <= k < |plugs| ==> plugs[k].id in state.activePlugs) ==> !r.isNew)
    decreases id, 1, 0
  {
    if id !in cycle.activated {
      var plug := plugs[Find(plugs, id)];
      ActivateAllIdentity(v, plugs, Step(state, cycle, false), plug.dependencies, id);
    }
  }

  lemma {:induction false} ActivateAllIdentity(v: Variant, plugs: seq<EnginePlug>, acc: Step, ids: seq<PlugId>, bound: nat)
    requires WellFormed(plugs)
    requires forall k :: 0 <= k < |ids| ==> ids[k] < bound && ids[k] in Ids(plugs)
    ensures var r := ActivateAll(v, plugs, acc, ids, bound);
      (acc.isNew ==> r.isNew) &&
      (!r.isNew ==> r.state == acc.state) &&
      (forall k :: |acc.cycle.activated| <= k < |r.cycle.activated| && r.cycle.activated[k] !in acc.state.activePlugs ==> r.isNew) &&
      (!acc.isNew && (forall k :: 0 <= k < |plugs| ==> plugs[k].id in acc.state.activePlugs) ==> !r.isNew)
    decreases bound, 0, |ids|
  {
    if ids != [] {
      var s := Activate(v, plugs, acc.cycle, acc.state, ids[0]);
      ActivateIdentity(v, plugs, acc.cycle, acc.state, ids[0]);
      var next := Step(s.state, s.cycle, acc.isNew || s.isNew);
      ActivateAllIdentity(v, plugs, next, ids[1..], bound);
      var r := ActivateAll(v, plugs, acc, ids, bound);
      assert r == ActivateAll(v, plugs, next, ids[1..], bound);
      NewnessCarries(acc.cycle.activated, s.cycle.activated, r.cycle.activated,
                     acc.state.activePlugs, s.state.activePlugs, s.isNew || acc.isNew, r.isNew);
    }
  }

  /**
   * Across two stretches of activations: if the first stretch marks its step
   * new whenever it activates a plug inactive at its start, and the second
   * does the same from where the first left off, the two together do so from
   * the start.
   */
  lemma NewnessCarries(a: seq<PlugId>, b: seq<PlugId>, c: seq<PlugId>, before: seq<PlugId>, middle: seq<PlugId>, firstNew: bool, lastNew: bool)
    requires |a| <= |b| && |b| <= |c| && c[..|b|] == b
    requires forall k :: |a| <= k < |b| && b[k] !in before ==> firstNew
    requires !firstNew ==> middle == before
    requires firstNew ==> lastNew
    requires forall k :: |b| <= k < |c| && c[k] !in middle ==> lastNew
    ensures forall k :: |a| <= k < |c| && c[k] !in before ==> lastNew
  {
    forall k | |a| <= k < |c| && c[k] !in before
      ensures lastNew
    {
      if k < |b| {
        assert b[k] == c[k];
      }
    }
  }

  /**
   * getDerivedStateFromPlugs returns `null` exactly when every plug is
   * already active in the current state; the state is then left as it was.
   */
  lemma DerivedNullIff(v: Variant, plugs: seq<EnginePlug>, current: EngineState)
    requires WellFormed(plugs)
    ensures DerivedState(v, plugs, current).None? <==> forall k :: 0 <= k < |plugs| ==> plugs[k].id in current.activePlugs
    ensures DerivedState(v, plugs, current).None? ==> Derive(v, plugs, current).state == current
  {
    var acc := Step(current, Cycle([], []), false);
    ActivateAllIdentity(v, plugs, acc, Ids(plugs), Bound(plugs));
    var r := Derive(v, plugs, current);
    if k :| 0 <= k < |plugs| && plugs[k].id !in current.activePlugs {
      assert Ids(plugs)[k] in r.cycle.activated;
      var j :| 0 <= j < |r.cycle.activated| && r.cycle.activated[j] == plugs[k].id;
    }
  }

  /**
   * Snapshots are never overwritten: with the active plugs matching the
   * snapshots, an activation keeps them matching and leaves every existing
   * snapshot as it was.
   */
  lemma {:induction false} ActivateKeepsSnapshots(v: Variant, plugs: seq<EnginePlug>, cycle: Cycle, state: EngineState, id: PlugId)
    requires WellFormed(plugs) && id in Ids(plugs) && Consistent(state)
    ensures var r := Activate(v, plugs, cycle, state, id);
      Consistent(r.state) &&
      forall a :: a in state.engineSnapshots ==> a in r.state.engineSnapshots && r.state.engineSnapshots[a] == state.engineSnapshots[a]
    decreases id, 1, 0
  {
    if id !in cycle.activated {
      var plug := plugs[Find(plugs, id)];
      ActivateAllKeepsSnapshots(v, plugs, Step(state, cycle, false), plug.dependencies, id);
    }
  }

  lemma {:induction false} ActivateAllKeepsSnapshots(v: Variant, plugs: seq<EnginePlug>, acc: Step, ids: seq<PlugId>, bound: nat)
    requires WellFormed(plugs) && Consistent(acc.state)
    requires forall k :: 0 <= k < |ids| ==> ids[k] < bound && ids[k] in Ids(plugs)
    ensures var r := ActivateAll(v, plugs, acc, ids, bound);
      Consistent(r.state) &&
      forall a :: a in acc.state.engineSnapshots ==> a in r.state.engineSnapshots && r.state.engineSnapshots[a] == acc.state.engineSnapshots[a]
    decreases bound, 0, |ids|
  {
    if ids != [] {
      var s := Activate(v, plugs, acc.cycle, acc.state, ids[0]);
      ActivateKeepsSnapshots(v, plugs, acc.cycle, acc.state, ids[0]);
      ActivateAllKeepsSnapshots(v, plugs, Step(s.state, s.cycle, acc.isNew || s.isNew), ids[1..], bound);
    }
  }

  /**
   * A plug that is already active is not merged again: the state is what its
   * dependencies made of it, and its `update` receives the snapshot stored for
   * it, which is still its snapshot afterwards.
   */
  lemma ActivePlugGetsSnapshot(v: Variant, plugs: seq<EnginePlug>, cycle: Cycle, state: EngineState, id: PlugId)
    requires WellFormed(plugs) && id in Ids(plugs) && Consistent(state)
    requires id !in cycle.activated && id in state.activePlugs
    ensures var r := Activate(v, plugs, cycle, state, id);
      var d := ActivateAll(v, plugs, Step(state, cycle, false), DependenciesOf(plugs, id), id);
      r.state == d.state && r.isNew == d.isNew &&
      r.cycle.updates[|r.cycle.updates| - 1] == UpdateCall(id, Some(state.engineSnapshots[id]), plugs[Find(plugs, id)].currentProps) &&
      id in r.state.engineSnapshots && r.state.engineSnapshots[id] == state.engineSnapshots[id]
  {
    ActivateAllKeepsSnapshots(v, plugs, Step(state, cycle, false), DependenciesOf(plugs, id), id);
  }

  /**
   * A plug that is not active yet is merged: its bits are laid over the engine
   * its dependencies produced, the result becomes the engine and its
   * snapshot, `update` receives it, and the plug is appended to the active
   * plugs of the state passed in (as written) or of the state its
   * dependencies produced (corrected).
   */
  lemma NewPlugMerged(v: Variant, plugs: seq<EnginePlug>, cycle: Cycle, state: EngineState, id: PlugId)
    requires WellFormed(plugs) && id in Ids(plugs)
    requires id !in cycle.activated && id !in state.activePlugs
    ensures var r := Activate(v, plugs, cycle, state, id);
      var plug := plugs[Find(plugs, id)];
      var d := ActivateAll(v, plugs, Step(state, cycle, false), plug.dependencies, id);
      var base := if v == AsWritten then state else d.state;
      r.isNew &&
      (forall key :: key in plug.engine(d.state.engine) ==> r.state.engine[key] == plug.engine(d.state.engine)[key]) &&
      (forall key :: key in d.state.engine && key !in plug.engine(d.state.engine) ==> r.state.engine[key] == d.state.engine[key]) &&
      r.state.engine.Keys == d.state.engine.Keys + plug.engine(d.state.engine).Keys &&
      r.state.engineSnapshots == base.engineSnapshots[id := r.state.engine] &&
      r.state.activePlugs == base.activePlugs + [id] &&
      r.cycle.updates[|r.cycle.updates| - 1].bits == Some(r.state.engine)
  {
  }

  /** In the corrected variant, active plugs stay active, and every plug activated in the cycle is active. */
  lemma {:induction false} CorrectedActivateKeepsActive(plugs: seq<EnginePlug>, cycle: Cycle, state: EngineState, id: PlugId)
    requires WellFormed(plugs) && id in Ids(plugs)
    ensures var r := Activate(Corrected, plugs, cycle, state, id);
      (forall a :: a in state.activePlugs ==> a in r.state.activePlugs) &&
      ((forall a :: a in cycle.activated ==> a in state.activePlugs) ==>
        forall a :: a in r.cycle.activated ==> a in r.state.activePlugs)
    decreases id, 1, 0
  {
    if id !in cycle.activated {
      var plug := plugs[Find(plugs, id)];
      CorrectedActivateAllKeepsActive(plugs, Step(state, cycle, false), plug.dependencies, id);
    }
  }

  lemma {:induction false} CorrectedActivateAllKeepsActive(plugs: seq<EnginePlug>, acc: Step, ids: seq<PlugId>, bound: nat)
    requires WellFormed(plugs)
    requires forall k :: 0 <= k < |ids| ==> ids[k] < bound && ids[k] in Ids(plugs)
    ensures var r := ActivateAll(Corrected, plugs, acc, ids, bound);
      (forall a :: a in acc.state.activePlugs ==> a in r.state.activePlugs) &&
      ((forall a :: a in acc.cycle.activated ==> a in acc.state.activePlugs) ==>
        forall a :: a in r.cycle.activated ==> a in r.state.activePlugs)
    decreases bound, 0, |ids|
  {
    if ids != [] {
      var s := Activate(Corrected, plugs, acc.cycle, acc.state, ids[0]);
      CorrectedActivateKeepsActive(plugs, acc.cycle, acc.state, ids[0]);
      CorrectedActivateAllKeepsActive(plugs, Step(s.state, s.cycle, acc.isNew || s.isNew), ids[1..], bound);
    }
  }

  /**
   * With the bookkeeping built on the state the dependencies returned, one
   * cycle leaves every plug active, so the next cycle returns `null`: the
   * container settles after one pass.
   */
  lemma CorrectedDeriveSettles(plugs: seq<EnginePlug>, current: EngineState)
    requires WellFormed(plugs)
    ensures forall k :: 0 <= k < |plugs| ==> plugs[k].id in Derive(Corrected, plugs, current).state.activePlugs
    ensures DerivedState(Corrected, plugs, Derive(Corrected, plugs, current).state) == None
  {
    var acc := Step(current, Cycle([], []), false);
    var r := Derive(Corrected, plugs, current);
    assert r == ActivateAll(Corrected, plugs, acc, Ids(plugs), Bound(plugs));
    CorrectedActivateAllKeepsActive(plugs, acc, Ids(plugs), Bound(plugs));
    assert forall a :: a in r.cycle.activated ==> a in r.state.activePlugs;
    forall k | 0 <= k < |plugs| ensures plugs[k].id in r.state.activePlugs {
      assert Ids(plugs)[k] in r.cycle.activated;
      assert plugs[k].id in r.cycle.activated;
    }
    DerivedNullIff(Corrected, plugs, r.state);
  }

  /**
   * Two plugs listed dependent first, `[B, A]`: B (id 1) depends on A (id 0),
   * which depends on nothing. Their engine bits are arbitrary.
   */
  predicate DependentFirst(plugs: seq<EnginePlug>) {
    |plugs| == 2 && plugs[0].id == 1 && plugs[0].dependencies == [0] &&
    plugs[1].id == 0 && plugs[1].dependencies == []
  }

  lemma DependentFirstFacts(plugs: seq<EnginePlug>)
    requires DependentFirst(plugs)
    ensures WellFormed(plugs) && Ids(plugs) == [1, 0]
    ensures Find(plugs, 1) == 0 && Find(plugs, 0) == 1
  {
    assert Ids(plugs) == [1, 0];
    assert Ids(plugs[1..]) == [0];
    assert Find(plugs[1..], 0) == 0;
  }

  /** Activating A from the scaffold merges it: it is active, with its merged engine as snapshot. */
  lemma ZeroFromScaffold(v: Variant, plugs: seq<EnginePlug>)
    requires DependentFirst(plugs)
    ensures WellFormed(plugs) && 0 in Ids(plugs)
    ensures var r := Activate(v, plugs, Cycle([], []), StateScaffold(), 0);
      var merged := map[] + plugs[1].engine(map[]);
      r.isNew && r.cycle.activated == [0] && r.state.activePlugs == [0] &&
      r.state.engine == merged && r.state.engineSnapshots == map[0 := merged]
  {
    DependentFirstFacts(plugs);
    var empty, scaffold := Cycle([], []), StateScaffold();
    var d := ActivateAll(v, plugs, Step(scaffold, empty, false), plugs[1].dependencies, 0);
    assert d == Step(scaffold, empty, false);
  }

  /** As written, activating B from the scaffold activates A first but keeps only B active, with no snapshot for A. */
  lemma AsWrittenFirstActivation(plugs: seq<EnginePlug>)
    requires DependentFirst(plugs)
    ensures WellFormed(plugs) && 1 in Ids(plugs)
    ensures var r := Activate(AsWritten, plugs, Cycle([], []), StateScaffold(), 1);
      r.isNew && r.cycle.activated == [0, 1] && r.state.activePlugs == [1] && 0 !in r.state.engineSnapshots
  {
    DependentFirstFacts(plugs);
    ZeroFromScaffold(AsWritten, plugs);
    var empty, scaffold := Cycle([], []), StateScaffold();
    var a0 := Activate(AsWritten, plugs, empty, scaffold, 0);
    var next := Step(a0.state, a0.cycle, true);
    assert ActivateAll(AsWritten, plugs, next, [], 1) == next;
    assert ActivateAll(AsWritten, plugs, Step(scaffold, empty, false), plugs[0].dependencies, 1) == next;
  }

  /** As written, the first cycle over `[B, A]` from the scaffold ends with B's activation: A is already activated when the loop reaches it. */
  lemma AsWrittenFirstCycle(plugs: seq<EnginePlug>)
    requires DependentFirst(plugs)
    ensures WellFormed(plugs)
    ensures var b := Activate(AsWritten, plugs, Cycle([], []), StateScaffold(), 1);
      Derive(AsWritten, plugs, StateScaffold()) == Step(b.state, b.cycle, true)
  {
    DependentFirstFacts(plugs);
    AsWrittenFirstActivation(plugs);
    var a1 := Activate(AsWritten, plugs, Cycle([], []), StateScaffold(), 1);
    var bound := Bound(plugs);
    var next := Step(a1.state, a1.cycle, true);
    assert Activate(AsWritten, plugs, a1.cycle, a1.state, 0) == Step(a1.state, a1.cycle, false);
    assert ActivateAll(AsWritten, plugs, next, [], bound) == next;
    assert ActivateAll(AsWritten, plugs, next, [0], bound) == next;
  }

  /**
   * As written, the first cycle over `[B, A]` from the scaffold activates A
   * through B but records only B as active, with no snapshot for A; the next
   * cycle therefore merges A again, running its engine a second time, and
   * does not return `null`.
   */
  lemma AsWrittenDropsDependency(plugs: seq<EnginePlug>)
    requires DependentFirst(plugs)
    ensures WellFormed(plugs)
    ensures Derive(AsWritten, plugs, StateScaffold()).state.activePlugs == [1]
    ensures 0 !in Derive(AsWritten, plugs, StateScaffold()).state.engineSnapshots
    ensures DerivedState(AsWritten, plugs, Derive(AsWritten, plugs, StateScaffold()).state).Some?
  {
    DependentFirstFacts(plugs);
    AsWrittenFirstActivation(plugs);
    AsWrittenFirstCycle(plugs);
    var first := Derive(AsWritten, plugs, StateScaffold());
    DerivedNullIff(AsWritten, plugs, first.state);
    assert plugs[1].id !in first.state.activePlugs;
  }
}
