/** The whole analysis and what a run without errors means (src/fwd_analyzer.rs:225-270, 434-489). */
module FwdSoundness {
  import opened Wrappers
  import opened Graph
  import opened WtoTree
  import opened Wto
  import opened WtoShape
  import opened WtoQuery
  import opened FwdDomain
  import opened FwdCover
  import opened FwdOrder
  import opened FwdRounds
  import opened FwdRuns
  import opened FwdAnalyzer

  // ------------------------------------------------------------------ loop counters

  /** The concrete state in which the counters of the given loops start at zero. */
  ghost function ResetAll<D, S, A>(p: Program<D, S, A>, heads: seq<Label>, s: S): S {
    if heads == [] then s else p.resetCounter(heads[|heads| - 1], ResetAll(p, heads[..|heads| - 1], s))
  }

  /** The entry invariant with the counters of the given loops started, one after the other. */
  ghost function StartAll<D, S, A>(p: Program<D, S, A>, heads: seq<Label>, d: D): D {
    if heads == [] then d else p.initializeLoopCounter(StartAll(p, heads[..|heads| - 1], d), heads[|heads| - 1])
  }

  /** The loop-bound check of one label, for loop counters only. */
  method CheckLoopBound<D(!new), S(!new), A(!new)>(p: Program<D, S, A>, l: Label, pre: D) returns (error: Option<VerificationError>)
    requires Sound(p)
    ensures error == if p.isLoopCounter(l) then FirstError(p, l, pre, p.assertionsAt(l)) else None
  {
    if p.isLoopCounter(l) {
      var assertions := p.assertionsAt(l);
      assert assertions[1..] == [];
      return p.check(pre, assertions[0], l);
    }
    return None;
  }

  /** The loop bound of `l` is discharged under `d`, or no state of `d` reaches it. */
  ghost predicate BoundDischarged<D, S, A>(p: Program<D, S, A>, l: Label, d: D) {
    p.isLoopCounter(l) && !p.domain.isBottom(d) ==> FirstError(p, l, d, p.assertionsAt(l)).None?
  }

  lemma DischargedIsBounded<D(!new), S(!new), A(!new)>(p: Program<D, S, A>, l: Label, d: D, s: S)
    requires Sound(p) && BoundDischarged(p, l, d) && p.domain.mem(d, s)
    ensures BoundedAt(p, l, s)
  {
    if p.isLoopCounter(l) {
      NoErrorIsSafe(p, l, d, p.assertionsAt(l), s);
    }
  }

  /** Only errors differ. */
  ghost predicate SameStates<D>(inv: InvariantMap<D>, inv': InvariantMap<D>) {
    inv'.Keys == inv.Keys && forall l :: l in inv ==> inv'[l].pre == inv[l].pre && inv'[l].post == inv[l].post
  }

  lemma SameState<D>(inv: InvariantMap<D>, inv': InvariantMap<D>, l: Label)
    requires SameStates(inv, inv') && l in inv
    ensures l in inv' && inv'[l].pre == inv[l].pre && inv'[l].post == inv[l].post
    ensures forall e :: SameStates(inv, inv'[l := inv'[l].(error := e)])
    ensures inv'.Keys == inv.Keys
  {
  }

  lemma SameRefl<D>(inv: InvariantMap<D>)
    ensures SameStates(inv, inv)
  {
  }

  /** The error is that the bound of a loop counter is not discharged under its pre-invariant. */
  ghost predicate BoundError<D, S, A>(p: Program<D, S, A>, l: Label, pair: InvariantMapPair<D>) {
    p.isLoopCounter(l) && !p.domain.isBottom(pair.pre) && pair.error.Some? && pair.error == FirstError(p, l, pair.pre, p.assertionsAt(l))
  }

  /** New errors are missed loop bounds. */
  ghost predicate ErrorsBut<D, S, A>(p: Program<D, S, A>, inv: InvariantMap<D>, inv': InvariantMap<D>) {
    inv'.Keys == inv.Keys && forall l :: l in inv' ==> inv'[l].error == inv[l].error || BoundError(p, l, inv'[l])
  }

  lemma SameErrors<D, S, A>(p: Program<D, S, A>, inv: InvariantMap<D>)
    ensures ErrorsBut(p, inv, inv)
  {
  }

  lemma OneMoreError<D, S, A>(p: Program<D, S, A>, inv: InvariantMap<D>, inv': InvariantMap<D>, l: Label, error: Option<VerificationError>)
    requires ErrorsBut(p, inv, inv') && l in inv' && error.Some? && !p.domain.isBottom(inv'[l].pre)
    requires error == if p.isLoopCounter(l) then FirstError(p, l, inv'[l].pre, p.assertionsAt(l)) else None
    ensures ErrorsBut(p, inv, inv'[l := inv'[l].(error := error)])
  {
    hide FirstError;
  }

  /** Every error was reported by the checker or the transformer, or is a loop bound missed at the end. */
  ghost predicate ErrorsExplained<D(!new), S, A>(p: Program<D, S, A>, inv: InvariantMap<D>, checkForTermination: bool) {
    forall l :: l in inv && inv[l].error.Some? ==>
      (exists d :: Reports(p, l, d, inv[l].error.value)) || (checkForTermination && BoundError(p, l, inv[l]))
  }

  lemma ErrorsStayExplained<D(!new), S, A>(p: Program<D, S, A>, inv: InvariantMap<D>, inv': InvariantMap<D>)
    requires AllReported(p, inv) && ErrorsBut(p, inv, inv')
    ensures ErrorsExplained(p, inv', true)
  {
  }

  lemma ReportedIsExplained<D(!new), S, A>(p: Program<D, S, A>, inv: InvariantMap<D>)
    requires AllReported(p, inv)
    ensures forall check :: ErrorsExplained(p, inv, check)
  {
  }

  lemma FlaggedMeans<D>(inv: InvariantMap<D>, failed: bool)
    requires Flagged(inv, failed)
    ensures failed <==> exists l :: l in inv && inv[l].error.Some?
  {
  }

  /** Checks the loop bounds of every label whose pre-invariant is not bottom. */
  method FindTerminationErrors<D(!new), S(!new), A(!new)>(it: FwdFixpointIterator<D, S, A>)
    requires it.Valid()
    modifies it`invariants, it`failed
    ensures SameStates(old(it.invariants), it.invariants) && Flagged(it.invariants, it.failed)
    ensures ErrorsBut(it.p, old(it.invariants), it.invariants)
    ensures !it.failed <==>
      !old(it.failed) && forall l :: l in it.invariants ==> BoundDischarged(it.p, l, old(it.invariants)[l].pre)
  {
    hide Sound, FirstError, BoundDischarged, Flagged, SameStates, Blamed, AllReported, ErrorsBut, BoundError;
    ghost var inv := it.invariants;
    SameRefl(inv);
    SameErrors(it.p, inv);
    var labels := set l | l in it.invariants && !it.p.domain.isBottom(it.invariants[l].pre);
    ghost var done: set<Label> := {};
    ghost var all := labels;
    while labels != {}
      invariant Flagged(it.invariants, it.failed) && it.invariants.Keys == inv.Keys && labels <= all && done == all - labels
      invariant ErrorsBut(it.p, inv, it.invariants)
      invariant SameStates(inv, it.invariants)
      invariant !it.failed <==> !old(it.failed) && forall l :: l in done ==> BoundDischarged(it.p, l, inv[l].pre)
    {
      var l :| l in labels;
      labels := labels - {l};
      done := done + {l};
      SameState(inv, it.invariants, l);
      var error := CheckLoopBound(it.p, l, it.invariants[l].pre);
      Discharge(it.p, l, inv[l].pre);
      if error.Some? {
        OneMoreError(it.p, inv, it.invariants, l, error);
        it.SetError(l, error.value);
      }
    }
    forall l | l in inv && l !in all ensures BoundDischarged(it.p, l, inv[l].pre) {
      Discharge(it.p, l, inv[l].pre);
    }
  }

  lemma Discharge<D, S, A>(p: Program<D, S, A>, l: Label, d: D)
    ensures BoundDischarged(p, l, d) <==>
      p.domain.isBottom(d) || (p.isLoopCounter(l) ==> FirstError(p, l, d, p.assertionsAt(l)).None?)
  {
  }

  // ------------------------------------------------------------------ the analysis

  /** A concrete run that starts in an entry state, with the counters of the given loops at zero. */
  ghost predicate StartsIn<D(!new), S(!new), A(!new)>(p: Program<D, S, A>, entry: D, heads: seq<Label>, run: seq<State<S>>) {
    IsRun(p, run) && |run| > 0 && run[0].at == ENTRY
    && exists s :: p.domain.mem(entry, s) && run[0].value == ResetAll(p, heads, s)
  }

  /** What the analysis promises of one state on a run. */
  ghost predicate Verified<D(!new), S(!new), A(!new)>(p: Program<D, S, A>, inv: InvariantMap<D>, bounds: bool, l: Label, s: S) {
    && l in inv
    && p.domain.mem(inv[l].pre, s)
    && SafeAt(p, l, s)
    && (bounds ==> BoundedAt(p, l, s))
    && (forall t :: p.step(l, s, t) ==> p.domain.mem(inv[l].post, t))
  }

  ghost predicate AllRunsVerified<D(!new), S(!new), A(!new)>(p: Program<D, S, A>, inv: InvariantMap<D>, bounds: bool,
      entry: D, heads: seq<Label>)
  {
    forall run: seq<State<S>>, i :: StartsIn(p, entry, heads, run) && 0 <= i < |run| ==>
      Verified(p, inv, bounds, run[i].at, run[i].value)
  }

  lemma CoverVerifies<D(!new), S(!new), A(!new)>(p: Program<D, S, A>, inv: InvariantMap<D>, k: set<Label>, x: (Label, S) -> bool,
      bounds: bool, entry: D, heads: seq<Label>)
    requires Sound(p) && Covers(p, inv, k, x) && ENTRY in k
    requires forall u, v :: u in k && Edge(p.graph, u, v) ==> v in k
    requires forall s :: p.domain.mem(entry, s) ==> p.domain.mem(inv[ENTRY].pre, ResetAll(p, heads, s))
    requires bounds ==> forall l :: l in inv ==> BoundDischarged(p, l, inv[l].pre)
    ensures AllRunsVerified(p, inv, bounds, entry, heads)
  {
    hide Sound, BoundDischarged, ResetAll, IsRun, SafeAt, BoundedAt;
    forall run: seq<State<S>>, i | StartsIn(p, entry, heads, run) && 0 <= i < |run|
      ensures Verified(p, inv, bounds, run[i].at, run[i].value)
    {
      RunStays(p, inv, k, x, run, i);
      if bounds {
        DischargedIsBounded(p, run[i].at, inv[run[i].at].pre, run[i].value);
      }
    }
  }

  /** `k` is everything the walk over the ordering visits, and no edge leaves it. */
  lemma ReachableClosed(g: Neighbours, cs: seq<CycleOrLabel>)
    requires forall l :: l in Flatten(cs) <==> Reachable(g, l)
    ensures ENTRY in LabelsIn(cs)
    ensures forall u, v :: u in LabelsIn(cs) && Edge(g, u, v) ==> v in LabelsIn(cs)
  {
    hide Flatten, Reachable, Edge;
    ReachableEntry(g);
    forall u, v | u in LabelsIn(cs) && Edge(g, u, v) ensures v in LabelsIn(cs) {
      ReachableStep(g, u, v);
    }
  }

  /** Visits the top-level components in forward order. */
  method VisitAll<D(!new), S(!new), A(!new)>(it: FwdFixpointIterator<D, S, A>, components: seq<CycleOrLabel>) returns (ghost x: (Label, S) -> bool)
    requires it.Valid() && it.skip && AllWalkable(it.p.graph, components)
    requires components != [] && components[|components| - 1] == Node(ENTRY) && components == it.wto.components
    modifies it
    ensures it.Valid() && ENTRY in it.invariants && it.invariants[ENTRY].pre == old(it.invariants)[ENTRY].pre
    ensures !it.failed ==> Covers(it.p, it.invariants, LabelsIn(components), x)
    ensures !it.failed && Ordered(it.p) ==> Settled(it.p, it.invariants, LabelsIn(components), it.loose)
    ensures !it.failed ==> AllVisited(it.p, components, it.wto.nesting, it.invariants, components, 0, |components|)
  {
    hide Covers, Sound, LabelsIn, LabelsOf, Frame, Apart, NoBackEdges, Flagged, Walkable, Improves, Occurs, Ordered, Settled, Blamed, Visited;
    EntryKnown(it.p);
    x := (_, _) => false;
    var i := |components|;
    StretchEmpty(components, i);
    CoverNothing(it.p, it.invariants, x);
    FrameSame(it.invariants);
    ghost var start := it.invariants;
    ImprovesNothing(it.p, start, it.loose, false);
    while i > 0
      invariant 0 <= i <= |components|
      invariant it.Valid() && it.skip == (i == |components|)
      invariant it.invariants.Keys == old(it.invariants).Keys && it.invariants[ENTRY].pre == old(it.invariants)[ENTRY].pre
      invariant !it.failed ==> Covers(it.p, it.invariants, LabelsIn(components[i..|components|]), x)
      invariant Frame(start, it.invariants, LabelsIn(components[i..|components|]))
      invariant !it.failed ==> Improves(it.p, start, it.invariants, LabelsIn(components[i..|components|]), it.loose, false)
      invariant !it.failed ==> AllVisited(it.p, components, it.wto.nesting, it.invariants, components, i, |components|)
    {
      i := i - 1;
      LevelOf(it.p.graph, components, i);
      EntryFirst(components, i);
      ghost var inv, before := it.invariants, it.loose;
      PlacedTop(components, i);
      ghost var x' := it.VisitComponent(components[i]);
      StretchGrows(it.p.graph, components, i, |components|);
      FrameTrans(start, inv, it.invariants, LabelsIn(components[i + 1..|components|]), LabelsOf(components[i]), LabelsIn(components[i..|components|]));
      FrameFacts(inv, it.invariants, LabelsOf(components[i]));
      if !it.failed {
        StretchCovers(it.p, inv, it.invariants, components, i, |components|, x, x');
        x := Choose(LabelsIn(components[i + 1..|components|]), x, x');
        CoverKeys(it.p, it.invariants, LabelsIn(components[i..|components|]), x);
        StretchImproves(it.p, start, inv, it.invariants, components, i, |components|, before, it.loose, false);
        StretchVisited(it.p, components, it.wto.nesting, inv, it.invariants, components, i, |components|);
      }
    }
    assert components[0..|components|] == components;
    if !it.failed {
      ImprovesSettles(it.p, start, it.invariants, LabelsIn(components), it.loose);
    }
  }

  lemma PlacedTop(cs: seq<CycleOrLabel>, i: nat)
    requires i < |cs|
    ensures Placed(cs, cs[i])
  {
    if cs[i].Nested? {
      OccursAt(cs, i, cs[i].cycle);
    }
  }

  lemma LevelOf(g: Neighbours, cs: seq<CycleOrLabel>, i: nat)
    requires AllWalkable(g, cs) && i < |cs|
    ensures Apart(cs) && NoBackEdges(g, cs, |cs|)
    ensures Walkable(g, cs[i]) && NoSelfEdge(g, cs[i]) && !HeadedBy(cs[i], ENTRY)
  {
  }

  lemma EntryFirst(cs: seq<CycleOrLabel>, i: nat)
    requires i < |cs| && cs[|cs| - 1] == Node(ENTRY)
    ensures i == |cs| - 1 ==> ENTRY in LabelsOf(cs[i])
  {
  }

  lemma WalkableHeads(g: Neighbours, cs: seq<CycleOrLabel>)
    requires AllWalkable(g, cs)
    ensures AllHeaded(cs)
  {
    forall i | 0 <= i < |cs| ensures Headed(cs[i]) {
      WalkableHeaded(g, cs[i]);
    }
  }

  /** Starts the counter of every loop at zero in the entry state. */
  method InitializeCounters<D(!new), S(!new), A(!new)>(p: Program<D, S, A>, entryInv: D, heads: seq<Label>) returns (entry: D)
    requires Sound(p)
    ensures entry == StartAll(p, heads, entryInv)
    ensures forall s :: p.domain.mem(entryInv, s) ==> p.domain.mem(entry, ResetAll(p, heads, s))
  {
    entry := entryInv;
    var i := 0;
    while i < |heads|
      invariant 0 <= i <= |heads| && entry == StartAll(p, heads[..i], entryInv)
      invariant forall s :: p.domain.mem(entryInv, s) ==> p.domain.mem(entry, ResetAll(p, heads[..i], s))
    {
      ghost var before := entry;
      entry := p.initializeLoopCounter(entry, heads[i]);
      assert heads[..i + 1][..i] == heads[..i];
      forall s | p.domain.mem(entryInv, s) ensures p.domain.mem(entry, ResetAll(p, heads[..i + 1], s)) {
        assert p.domain.mem(before, ResetAll(p, heads[..i], s));
      }
      i := i + 1;
    }
    assert heads[..|heads|] == heads;
  }

  /** The ordering, with what a walk over it relies on. */
  method BuildWalkable(cfg: Cfg) returns (wto: Ordering)
    requires cfg.Valid()
    ensures wto.nesting.Keys == cfg.neighbours.Keys && NestingIsEnclosingHeads(cfg.neighbours, wto)
    ensures IsWeakTopologicalOrder(cfg.neighbours, wto.components) && CyclesAreStronglyConnected(cfg.neighbours, wto.components)
    ensures AllWalkable(cfg.neighbours, wto.components) && AllHeaded(wto.components)
    ensures wto.components != [] && wto.components[|wto.components| - 1] == Node(ENTRY)
    ensures ENTRY in LabelsIn(wto.components)
    ensures forall u, v :: u in LabelsIn(wto.components) && Edge(cfg.neighbours, u, v) ==> v in LabelsIn(wto.components)
  {
    hide WellFormed, IsWeakTopologicalOrder, CyclesAreStronglyConnected, NestingIsEnclosingHeads, AllWalkable, AllHeaded;
    hide Flatten, LabelsIn, Reachable, Edge;
    var num;
    wto, num := Build(cfg);
    OrderIsWalkable(cfg.neighbours, wto.components);
    EntryComesFirst(cfg.neighbours, wto.components);
    ReachableClosed(cfg.neighbours, wto.components);
    WalkableHeads(cfg.neighbours, wto.components);
    NestingKeys(cfg.neighbours, wto);
  }

  /**
    Every reachable label's post-invariant contains the transfer of its pre-invariant, and its pre-invariant
    contains the post-invariants of all its parents, the loose ones set apart.
  */
  ghost predicate PostFixpoint<D(!new), S(!new), A(!new)>(p: Program<D, S, A>, inv: InvariantMap<D>, loose: set<Label>) {
    forall l :: Reachable(p.graph, l) ==>
      && l in inv
      && Into(p, l, inv[l].pre, inv[l].post)
      && (l !in loose ==> Under(p, inv, l, inv[l].pre))
  }

  lemma SettledIsPostFixpoint<D(!new), S(!new), A(!new)>(p: Program<D, S, A>, inv: InvariantMap<D>, inv': InvariantMap<D>, order: seq<CycleOrLabel>, loose: set<Label>)
    requires Settled(p, inv, LabelsIn(order), loose) && SameStates(inv, inv')
    requires ENTRY in LabelsIn(order) && forall u, v :: u in LabelsIn(order) && Edge(p.graph, u, v) ==> v in LabelsIn(order)
    ensures PostFixpoint(p, inv', loose)
  {
    hide Into, LabelsIn, Edge;
    forall l | Reachable(p.graph, l) ensures l in LabelsIn(order) {
      ReachableLabels(p.graph, order, l);
    }
    forall l, d | Under(p, inv, l, d) ensures Under(p, inv', l, d) {
    }
  }

  /**
    What a run without failure leaves at every reachable label: the post-invariant is the transfer of
    something within the pre-invariant. A label that heads no cycle holds the join of its parents and the
    transfer of that; a head holds what the run of its cycle ended with.
  */
  ghost predicate Solved<D(!new), S(!new), A(!new)>(p: Program<D, S, A>, wto: Ordering, inv: InvariantMap<D>) {
    && (forall l :: Reachable(p.graph, l) ==> l in inv && Fresh(p, l, inv[l]) && (Tight(p, inv, l) || HeadsCycle(wto.components, l)))
    && (forall w :: Occurs(wto.components, w) ==> Ran(p, wto.components, wto.nesting, inv, w))
  }

  ghost predicate HeadsCycle(order: seq<CycleOrLabel>, l: Label) {
    exists w :: Occurs(order, w) && HasHead(w) && Head(w) == l
  }

  /** Where no error is recorded, the same states are the same invariants. */
  lemma SameWithoutErrors<D>(inv: InvariantMap<D>, inv': InvariantMap<D>)
    requires SameStates(inv, inv') && Flagged(inv, false) && Flagged(inv', false)
    ensures inv == inv'
  {
  }

  lemma VisitedIsSolved<D(!new), S(!new), A(!new)>(p: Program<D, S, A>, wto: Ordering, inv: InvariantMap<D>)
    requires Sound(p) && AllVisited(p, wto.components, wto.nesting, inv, wto.components, 0, |wto.components|) && Flagged(inv, false)
    requires ENTRY in LabelsIn(wto.components)
    requires forall u, v :: u in LabelsIn(wto.components) && Edge(p.graph, u, v) ==> v in LabelsIn(wto.components)
    ensures Solved(p, wto, inv)
  {
    hide Sound, LabelsIn, Edge, Tight, EndsIn, Visited, Reachable;
    var cs := wto.components;
    forall l | Reachable(p.graph, l) ensures l in inv && Fresh(p, l, inv[l]) && (Tight(p, inv, l) || HeadsCycle(cs, l)) {
      ReachableLabels(p.graph, cs, l);
      LabelHeld(cs, l);
      var i :| 0 <= i < |cs| && l in LabelsOf(cs[i]);
      assert Visited(p, cs, wto.nesting, inv, cs[i]);
      VisitedMeans(p, cs, wto.nesting, inv, cs[i], l);
      if HeadIn(cs[i], l) {
        var w :| OccursOne(cs[i], w) && HasHead(w) && Head(w) == l;
        assert Occurs(cs, w);
      }
    }
    forall w | Occurs(cs, w) ensures Ran(p, cs, wto.nesting, inv, w) {
      var i :| 0 <= i < |cs| && OccursOne(cs[i], w);
      assert Visited(p, cs, wto.nesting, inv, cs[i]);
      VisitedRan(p, cs, wto.nesting, inv, cs[i], w);
    }
  }

  lemma ReachableLabels(g: Neighbours, cs: seq<CycleOrLabel>, l: Label)
    requires ENTRY in LabelsIn(cs) && forall u, v :: u in LabelsIn(cs) && Edge(g, u, v) ==> v in LabelsIn(cs)
    requires Reachable(g, l)
    ensures l in LabelsIn(cs)
  {
    hide LabelsIn, Edge;
    var path :| IsPath(g, path) && path[|path| - 1] == l;
    ReachableIsLeast(g, LabelsIn(cs), path);
  }

  lemma LabelHeld(cs: seq<CycleOrLabel>, l: Label)
    requires l in LabelsIn(cs)
    ensures exists i :: 0 <= i < |cs| && l in LabelsOf(cs[i])
  {
    hide Flatten, FlattenOne;
    FlattenIsHeld(l, cs);
    var i :| 0 <= i < |cs| && l in FlattenOne(cs[i]);
    assert l in LabelsOf(cs[i]);
  }

  lemma VisitedRan<D(!new), S(!new), A(!new)>(p: Program<D, S, A>, order: seq<CycleOrLabel>, nesting: map<Label, seq<Label>>, inv: InvariantMap<D>, c: CycleOrLabel, w: WtoCycle)
    requires Visited(p, order, nesting, inv, c) && OccursOne(c, w)
    ensures Ran(p, order, nesting, inv, w)
  {
    hide Ran, Tight, HeadIn, OccursOne;
  }

  lemma ImprovesSettles<D(!new), S(!new), A(!new)>(p: Program<D, S, A>, start: InvariantMap<D>, inv: InvariantMap<D>, k: set<Label>, loose: set<Label>)
    requires Improves(p, start, inv, k, loose, false)
    ensures Ordered(p) ==> Settled(p, inv, k, loose)
  {
  }

  /**
    The analysis from end to end. It terminates; and if it reports no failure, every concrete run from
    an entry state is inside the invariants, and every assertion on the way holds, with the loop
    bounds when termination is checked. `heads` are the loops whose counters were started, that is,
    one entry per cycle of a weak topological order.
  */
  method Run<D(!new), S(!new), A(!new)>(cfg: Cfg, p: Program<D, S, A>, entryInv: D, checkForTermination: bool)
    returns (invariants: InvariantMap<D>, failed: bool, ghost heads: seq<Label>, ghost wto: Ordering,
      ghost rounds: set<Round<D>>, ghost loose: set<Label>)
    requires cfg.Valid() && p.graph == cfg.neighbours && Sound(p)
    ensures invariants.Keys == p.graph.Keys
    ensures IsWeakTopologicalOrder(p.graph, wto.components) && CyclesAreStronglyConnected(p.graph, wto.components)
    ensures NestingIsEnclosingHeads(p.graph, wto)
    ensures if checkForTermination then multiset(heads) == LoopHeads(wto.components) else heads == []
    ensures ENTRY in invariants && invariants[ENTRY].pre == StartAll(p, heads, entryInv)
    ensures !failed ==> AllRunsVerified(p, invariants, checkForTermination, entryInv, heads)
    ensures !failed ==> Solved(p, wto, invariants)
    ensures failed <==> exists l :: l in invariants && invariants[l].error.Some?
    ensures ErrorsExplained(p, invariants, checkForTermination)
    ensures !failed && Ordered(p) ==> PostFixpoint(p, invariants, loose)
    ensures Blamed(p, wto.components, rounds, loose)
    ensures forall l :: l in loose ==> HoldsCycles(wto.components, l)
    ensures !failed && Ordered(p) && AllShrunk(p, rounds) ==> loose == {} && PostFixpoint(p, invariants, {})
  {
    hide Ordered, Settled, PostFixpoint, Solved, AllVisited, AllReported, ErrorsExplained, BoundError, Reports, SameStates, NestingIsEnclosingHeads, Blamed, AllShrunk, HoldsCycles, Sound, Covers, AllRunsVerified, IsWeakTopologicalOrder, CyclesAreStronglyConnected, AllWalkable;
    hide LabelsIn, BoundDischarged, ResetAll, Flagged, LoopHeads, AllHeaded, WellFormed;
    var order := BuildWalkable(cfg);
    wto := order;
    EntryKnown(p);
    var it := new FwdFixpointIterator(p, order);
    var entry := entryInv;
    heads := [];
    if checkForTermination {
      var loopHeads := VisitLoopHeads(order.components);
      entry := InitializeCounters(p, entryInv, loopHeads);
      heads := loopHeads;
    } else {
      ResetNone(p, entryInv);
    }
    it.SetPre(ENTRY, entry);
    ghost var x := VisitAll(it, order.components);
    ghost var before := it.invariants;
    ReportedIsExplained(p, before);
    if !it.failed && checkForTermination {
      FindTerminationErrors(it);
      ErrorsStayExplained(p, before, it.invariants);
    } else {
      SameRefl(before);
    }
    FlaggedMeans(it.invariants, it.failed);
    SameState(before, it.invariants, ENTRY);
    invariants, failed, rounds, loose := it.invariants, it.failed, it.rounds, it.loose;
    LooseHeads(p, wto.components, rounds, loose);
    if !failed {
      CoverSame(p, before, invariants, LabelsIn(wto.components), x);
      if Ordered(p) {
        SettledIsPostFixpoint(p, before, invariants, wto.components, loose);
      }
      SameWithoutErrors(before, invariants);
      VisitedIsSolved(p, wto, invariants);
      CoverVerifies(p, invariants, LabelsIn(wto.components), x, checkForTermination, entryInv, heads);
    }
  }

  lemma NestingKeys(g: Neighbours, w: Ordering)
    requires NestingIsEnclosingHeads(g, w)
    ensures w.nesting.Keys == g.Keys
  {
  }

  lemma ResetNone<D(!new), S(!new), A(!new)>(p: Program<D, S, A>, entry: D)
    ensures forall s :: p.domain.mem(entry, s) ==> p.domain.mem(entry, ResetAll(p, [], s))
  {
  }

  /** Errors do not matter to a cover. */
  lemma CoverSame<D(!new), S(!new), A(!new)>(p: Program<D, S, A>, inv: InvariantMap<D>, inv': InvariantMap<D>, k: set<Label>, x: (Label, S) -> bool)
    requires Covers(p, inv, k, x) && SameStates(inv, inv')
    ensures Covers(p, inv', k, x)
  {
    assert k <= inv.Keys;
  }
}
