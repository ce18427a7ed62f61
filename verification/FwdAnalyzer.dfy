/** The forward fixpoint iterator (src/fwd_analyzer.rs). */
module FwdAnalyzer {
  import opened Wrappers
  import opened Graph
  import opened WtoTree
  import opened Wto
  import opened WtoShape
  import opened WtoQuery
  import opened WtoSiblings
  import opened FwdDomain
  import opened FwdCover
  import opened FwdOrder
  import opened FwdRounds
  import opened FwdRuns

  /** Joins before the delay, then widens, with thresholds the first time. */
  function Extrapolate<D, S, A>(p: Program<D, S, A>, before: D, after: D, iteration: nat): D {
    if iteration < WIDENING_DELAY then p.domain.join(before, after)
    else p.domain.widen(before, after, iteration == WIDENING_DELAY)
  }

  /** Meets the first time, then narrows. */
  function Refine<D, S, A>(p: Program<D, S, A>, before: D, after: D, iteration: nat): D {
    if iteration == 1 then p.domain.meet(before, after) else p.domain.narrow(before, after)
  }

  lemma RefineOrder<D(!new), S(!new), A(!new)>(p: Program<D, S, A>, before: D, after: D, iteration: nat)
    ensures Ordered(p) ==> p.domain.leq(Refine(p, before, after, iteration), before)
    ensures Ordered(p) && p.domain.leq(after, before) ==> p.domain.leq(after, Refine(p, before, after, iteration))
  {
  }

  lemma RefineKeeps<D(!new), S(!new), A(!new)>(p: Program<D, S, A>, before: D, after: D, iteration: nat, s: S)
    requires Sound(p) && p.domain.mem(before, s) && p.domain.mem(after, s)
    ensures p.domain.mem(Refine(p, before, after, iteration), s)
  {
  }

  /** The run has failed exactly if an error is recorded. */
  ghost predicate Flagged<D>(inv: InvariantMap<D>, failed: bool) {
    failed <==> exists l :: l in inv && inv[l].error.Some?
  }

  /** Every error was reported by the checker or the transformer. */
  ghost predicate AllReported<D(!new), S, A>(p: Program<D, S, A>, inv: InvariantMap<D>) {
    forall l :: l in inv && inv[l].error.Some? ==> exists d :: Reports(p, l, d, inv[l].error.value)
  }

  lemma ReportedUpdate<D(!new), S, A>(p: Program<D, S, A>, inv: InvariantMap<D>, l: Label, d: D)
    requires AllReported(p, inv) && l in inv
    ensures AllReported(p, inv[l := Transformed(p, l, d, inv[l])])
  {
    var pair := Transformed(p, l, d, inv[l]);
    if pair.error.Some? && pair.error != inv[l].error {
      assert Reports(p, l, d, pair.error.value);
    }
  }

  lemma ErrorsSame<D>(inv: InvariantMap<D>, l: Label, pair: InvariantMapPair<D>)
    requires l in inv && pair.error == inv[l].error
    ensures forall failed :: Flagged(inv, failed) ==> Flagged(inv[l := pair], failed)
  {
    var inv' := inv[l := pair];
    assert forall x :: x in inv ==> inv'[x].error == inv[x].error;
  }

  lemma ReportedPre<D(!new), S, A>(p: Program<D, S, A>, inv: InvariantMap<D>, l: Label, d: D)
    requires AllReported(p, inv) && l in inv
    ensures AllReported(p, inv[l := inv[l].(pre := d)])
  {
  }

  /** The labels of a cycle but its head. */
  ghost function BodyLabels(cycle: WtoCycle): set<Label>
    requires HasHead(cycle)
  {
    LabelsIn(cycle.components[..|cycle.components| - 1])
  }

  // ------------------------------------------------------------------ regions of the ordering

  lemma StretchGrows(g: Neighbours, cs: seq<CycleOrLabel>, i: nat, lim: nat)
    requires i < lim <= |cs| && Apart(cs) && NoBackEdges(g, cs, lim)
    ensures LabelsIn(cs[i..lim]) == LabelsIn(cs[i + 1..lim]) + LabelsOf(cs[i])
    ensures forall l :: l in LabelsIn(cs[i + 1..lim]) ==> l !in LabelsOf(cs[i])
    ensures forall u, v :: u in LabelsOf(cs[i]) && v in LabelsIn(cs[i + 1..lim]) ==> !Edge(g, u, v)
  {
    hide Flatten, FlattenOne;
    forall l ensures l in LabelsIn(cs[i..lim]) <==> l in LabelsIn(cs[i + 1..lim]) || l in LabelsOf(cs[i]) {
      FlattenIsHeld(l, cs[i..lim]);
      FlattenIsHeld(l, cs[i + 1..lim]);
      if Held(l, cs[i..lim]) {
        var j :| 0 <= j < lim - i && l in FlattenOne(cs[i..lim][j]);
        assert j > 0 ==> l in FlattenOne(cs[i + 1..lim][j - 1]);
      }
      if Held(l, cs[i + 1..lim]) {
        var j :| 0 <= j < lim - i - 1 && l in FlattenOne(cs[i + 1..lim][j]);
        assert l in FlattenOne(cs[i..lim][j + 1]);
      }
      assert l in LabelsOf(cs[i]) ==> l in FlattenOne(cs[i..lim][0]);
    }
    forall v | v in LabelsIn(cs[i + 1..lim])
      ensures v !in LabelsOf(cs[i]) && forall u :: u in LabelsOf(cs[i]) ==> !Edge(g, u, v)
    {
      FlattenIsHeld(v, cs[i + 1..lim]);
      var j :| 0 <= j < lim - i - 1 && v in FlattenOne(cs[i + 1..lim][j]);
      assert v in LabelsOf(cs[i + 1 + j]);
    }
  }

  /** A visited component joins the stretch visited before it. */
  lemma StretchCovers<D(!new), S(!new), A(!new)>(p: Program<D, S, A>, inv: InvariantMap<D>, inv': InvariantMap<D>,
      cs: seq<CycleOrLabel>, i: nat, lim: nat, x: (Label, S) -> bool, x': (Label, S) -> bool)
    requires i < lim <= |cs| && Apart(cs) && NoBackEdges(p.graph, cs, lim)
    requires Covers(p, inv, LabelsIn(cs[i + 1..lim]), x)
    requires Covers(p, inv', LabelsOf(cs[i]), x') && Frame(inv, inv', LabelsOf(cs[i]))
    ensures Covers(p, inv', LabelsIn(cs[i..lim]), Choose(LabelsIn(cs[i + 1..lim]), x, x'))
  {
    hide Covers, Apart, NoBackEdges, LabelsIn, LabelsOf;
    StretchGrows(p.graph, cs, i, lim);
    CoverKeys(p, inv, LabelsIn(cs[i + 1..lim]), x);
    CoverFrame(p, inv, inv', LabelsIn(cs[i + 1..lim]), x);
    CoverUnion(p, inv', LabelsIn(cs[i + 1..lim]), x, LabelsOf(cs[i]), x');
  }

  /** So it is for being settled. */
  lemma StretchImproves<D(!new), S(!new), A(!new)>(p: Program<D, S, A>, a: InvariantMap<D>, b: InvariantMap<D>, c: InvariantMap<D>,
      cs: seq<CycleOrLabel>, i: nat, lim: nat, before: set<Label>, loose: set<Label>, simple: bool)
    requires Sound(p) && i < lim <= |cs| && Apart(cs) && NoBackEdges(p.graph, cs, lim) && before <= loose
    requires Improves(p, a, b, LabelsIn(cs[i + 1..lim]), before, simple) && Frame(a, b, LabelsIn(cs[i + 1..lim]))
    requires Improves(p, b, c, LabelsOf(cs[i]), loose, cs[i].Node?) && Frame(b, c, LabelsOf(cs[i]))
    requires LabelsIn(cs[i + 1..lim]) + LabelsOf(cs[i]) <= a.Keys && (simple ==> cs[i].Node?)
    ensures Improves(p, a, c, LabelsIn(cs[i..lim]), loose, simple)
  {
    hide Improves, Apart, NoBackEdges, LabelsIn, LabelsOf, Sound;
    StretchGrows(p.graph, cs, i, lim);
    ImprovesGrows(p, a, b, LabelsIn(cs[i + 1..lim]), before, loose, simple);
    ImprovesJoin(p, a, b, c, LabelsIn(cs[i + 1..lim]), LabelsOf(cs[i]), loose, simple, cs[i].Node?);
  }

  /** And for what visits leave. */
  lemma StretchVisited<D(!new), S(!new), A(!new)>(p: Program<D, S, A>, order: seq<CycleOrLabel>, nesting: map<Label, seq<Label>>,
      inv: InvariantMap<D>, inv': InvariantMap<D>, cs: seq<CycleOrLabel>, i: nat, lim: nat)
    requires i < lim <= |cs| && Apart(cs) && NoBackEdges(p.graph, cs, lim)
    requires AllVisited(p, order, nesting, inv, cs, i + 1, lim) && Frame(inv, inv', LabelsOf(cs[i]))
    requires Visited(p, order, nesting, inv', cs[i])
    ensures AllVisited(p, order, nesting, inv', cs, i, lim)
  {
    hide LabelsOf, Frame, Visited, Edge;
    forall j | i < j < lim ensures Visited(p, order, nesting, inv', cs[j]) {
      assert LabelsOf(cs[i]) !! LabelsOf(cs[j]);
      VisitedKept(p, order, nesting, inv, inv', LabelsOf(cs[i]), cs[j]);
    }
  }

  /** A new pre-invariant for the head does not matter to the body. */
  lemma BodyHanded<D(!new), S(!new), A(!new)>(p: Program<D, S, A>, order: seq<CycleOrLabel>, nesting: map<Label, seq<Label>>,
      inv: InvariantMap<D>, cycle: WtoCycle, d: D)
    requires HasHead(cycle) && Apart(cycle.components) && Head(cycle) in inv && (Head(cycle) == ENTRY ==> d == inv[ENTRY].pre)
    requires AllVisited(p, order, nesting, inv, cycle.components, 0, |cycle.components| - 1)
    ensures AllVisited(p, order, nesting, Handed(inv, Head(cycle), d), cycle.components, 0, |cycle.components| - 1)
  {
    hide Visited;
    var cs := cycle.components;
    forall j | 0 <= j < |cs| - 1 ensures Visited(p, order, nesting, Handed(inv, Head(cycle), d), cs[j]) {
      assert LabelsOf(cs[j]) !! LabelsOf(cs[|cs| - 1]) && Head(cycle) in LabelsOf(cs[|cs| - 1]);
      VisitedHanded(p, order, nesting, inv, Head(cycle), d, cs[j]);
    }
  }

  /** A component stands in the ordering. */
  ghost predicate Placed(order: seq<CycleOrLabel>, c: CycleOrLabel) {
    c.Nested? ==> Occurs(order, c.cycle)
  }

  lemma PlacedInside(order: seq<CycleOrLabel>, cycle: WtoCycle, i: nat)
    requires Occurs(order, cycle) && i < |cycle.components|
    ensures Placed(order, cycle.components[i])
    ensures Simple(cycle) ==> cycle.components[i].Node?
  {
    if cycle.components[i].Nested? {
      OccursAt(cycle.components, i, cycle.components[i].cycle);
      OccursTrans(order, cycle, cycle.components[i].cycle);
    }
  }

  lemma CoverKeys<D(!new), S(!new), A(!new)>(p: Program<D, S, A>, inv: InvariantMap<D>, k: set<Label>, x: (Label, S) -> bool)
    requires Covers(p, inv, k, x)
    ensures k <= inv.Keys
  {
  }

  /** A cycle is its head and its body. */
  lemma CycleLabels(g: Neighbours, cycle: WtoCycle)
    requires Walkable(g, Nested(cycle))
    ensures LabelsOf(Nested(cycle)) == BodyLabels(cycle) + {Head(cycle)}
    ensures Head(cycle) !in BodyLabels(cycle)
    ensures forall i :: 0 <= i < |cycle.components| - 1 ==> cycle.components[i] != Node(Head(cycle))
  {
    hide Apart;
    var cs := cycle.components;
    var n := |cs| - 1;
    assert Flatten(cs) == Flatten(cs[..n]) + [Head(cycle)];
    HeadApart(cycle);
  }

  lemma HeadApart(cycle: WtoCycle)
    requires HasHead(cycle) && Apart(cycle.components)
    ensures Head(cycle) !in BodyLabels(cycle)
    ensures forall i :: 0 <= i < |cycle.components| - 1 ==> cycle.components[i] != Node(Head(cycle))
  {
    hide Flatten;
    var cs := cycle.components;
    var n := |cs| - 1;
    assert Head(cycle) in LabelsOf(cs[n]);
    forall i | 0 <= i < n ensures Head(cycle) !in LabelsOf(cs[i]) {
    }
    assert forall i :: 0 <= i < n ==> cs[..n][i] == cs[i];
    FlattenIsHeld(Head(cycle), cs[..n]);
    forall i | 0 <= i < n ensures cs[i] != Node(Head(cycle)) {
      assert Head(cycle) !in LabelsOf(cs[i]);
    }
  }

  lemma FrameTrans<D>(a: InvariantMap<D>, b: InvariantMap<D>, c: InvariantMap<D>, k: set<Label>, k': set<Label>, all: set<Label>)
    requires Frame(a, b, k) && Frame(b, c, k') && k <= all && k' <= all
    ensures Frame(a, c, all)
  {
  }

  lemma FrameThen<D>(a: InvariantMap<D>, b: InvariantMap<D>, c: InvariantMap<D>, k: set<Label>)
    requires Frame(a, b, k) && Frame(b, c, k)
    ensures Frame(a, c, k)
  {
  }

  lemma FrameGrows<D>(a: InvariantMap<D>, b: InvariantMap<D>, k: set<Label>, k': set<Label>)
    requires Frame(a, b, k) && k <= k'
    ensures Frame(a, b, k')
  {
  }

  lemma FrameSame<D>(a: InvariantMap<D>)
    ensures Frame(a, a, {})
  {
  }

  lemma FrameFacts<D>(a: InvariantMap<D>, b: InvariantMap<D>, k: set<Label>)
    requires Frame(a, b, k)
    ensures a.Keys == b.Keys
    ensures ENTRY in a ==> b[ENTRY].pre == a[ENTRY].pre
    ensures forall l :: l in a && l !in k ==> b[l] == a[l]
  {
  }

  lemma FrameTransformed<D, S, A>(p: Program<D, S, A>, a: InvariantMap<D>, l: Label, d: D)
    requires l in a
    ensures Frame(a, a[l := Transformed(p, l, d, a[l])], {l})
    ensures Transformed(p, l, d, a[l]).pre == a[l].pre
  {
  }

  lemma TransformedOk<D, S, A>(p: Program<D, S, A>, l: Label, d: D, pair: InvariantMapPair<D>)
    requires pair.error.None? && !Fails(p, l, d, pair)
    ensures p.transform(l, d) == Ok(Transformed(p, l, d, pair).post)
    ensures Transformed(p, l, d, pair).pre == pair.pre
  {
  }

  lemma NoneFlagged<D>(inv: InvariantMap<D>, l: Label)
    requires Flagged(inv, false) && l in inv
    ensures inv[l].error.None?
  {
  }

  lemma FrameSetPre<D>(a: InvariantMap<D>, l: Label, d: D, k: set<Label>)
    requires l in a && l in k && (l == ENTRY ==> d == a[ENTRY].pre)
    ensures Frame(a, a[l := a[l].(pre := d)], k)
  {
  }

  lemma StretchEmpty(cs: seq<CycleOrLabel>, lim: nat)
    requires lim <= |cs|
    ensures LabelsIn(cs[lim..lim]) == {}
  {
  }

  lemma LevelFacts(g: Neighbours, cycle: WtoCycle, i: nat)
    requires Walkable(g, Nested(cycle)) && i < |cycle.components| - 1
    ensures Apart(cycle.components) && NoBackEdges(g, cycle.components, |cycle.components| - 1)
    ensures Walkable(g, cycle.components[i]) && NoSelfEdge(g, cycle.components[i]) && !HeadedBy(cycle.components[i], ENTRY)
  {
  }

  lemma CycleRunIs<D(!new), S(!new), A(!new)>(p: Program<D, S, A>, order: seq<CycleOrLabel>, nesting: map<Label, seq<Label>>, r: CycleRun<D>, top: InvariantMap<D>)
    requires HasHead(r.cycle)
    requires if r.fromEntry then ENTRY in r.entry && ENTRY in LabelsOf(Nested(r.cycle)) && r.start == r.entry[ENTRY].pre
      else FirstGuess(p, nesting, r.entry, Head(r.cycle), r.start)
    requires Ascent(p, order, r.cycle, r.entry, r.start, r.up, top) && Descent(p, order, r.cycle, top, r.down, r.last)
    ensures IsCycleRun(p, order, nesting, r)
  {
    hide Ascent, Descent, FirstGuess;
  }

  lemma LevelApart(g: Neighbours, cycle: WtoCycle)
    requires Walkable(g, Nested(cycle))
    ensures Apart(cycle.components)
  {
  }

  lemma HeadKnown(g: Neighbours, cycle: WtoCycle)
    requires Walkable(g, Nested(cycle))
    ensures Head(cycle) in g
  {
    assert Walkable(g, cycle.components[|cycle.components| - 1]);
  }

  lemma EntryKnown<D(!new), S(!new), A(!new)>(p: Program<D, S, A>)
    requires Sound(p)
    ensures ENTRY in p.graph
  {
  }

  lemma NoEdgeToEntry(g: Neighbours)
    requires WellFormed(g)
    ensures forall u :: !Edge(g, u, ENTRY)
  {
  }

  lemma GathersFrame<D(!new), S(!new), A(!new)>(p: Program<D, S, A>, inv: InvariantMap<D>, inv': InvariantMap<D>, l: Label, d: D)
    requires Gathers(p, inv, l, d) && inv.Keys == inv'.Keys && !Edge(p.graph, l, l)
    requires forall u :: u in inv && u != l ==> inv'[u] == inv[u]
    requires ENTRY in inv ==> inv'[ENTRY].pre == inv[ENTRY].pre
    ensures Gathers(p, inv', l, d)
  {
  }

  lemma EntryGathers<D(!new), S(!new), A(!new)>(p: Program<D, S, A>, inv: InvariantMap<D>, l: Label, d: D)
    requires Gathers(p, inv, l, d)
    ensures l == ENTRY ==> ENTRY in inv && d == inv[ENTRY].pre
  {
  }

  lemma Reflexive<D(!new), S(!new), A(!new)>(p: Program<D, S, A>, d: D)
    requires Sound(p)
    ensures p.domain.leq(d, d)
  {
  }

  /** One more round of the ascending phase brings it nearer to its end. */
  lemma WideningProgress<D(!new), S(!new), A(!new)>(p: Program<D, S, A>, before: D, after: D, iteration: nat)
    requires Sound(p) && !p.domain.leq(after, before) && iteration >= WIDENING_DELAY
    ensures p.domain.rank(Extrapolate(p, before, after, iteration)) < p.domain.rank(before)
  {
  }

  lemma FramedPass<D(!new), S(!new), A(!new)>(p: Program<D, S, A>, inv: InvariantMap<D>, inv': InvariantMap<D>,
      h: Label, kb: set<Label>, x: (Label, S) -> bool, xb: (Label, S) -> bool)
    requires h in inv && h !in kb && Frame(inv, inv', kb + {h}) && inv'[h].pre == inv[h].pre
    requires Covers(p, inv, kb + {h}, x) && Covers(p, inv', kb, xb)
    requires Passes(p, h, inv[h].pre, inv'[h].post)
    ensures Covers(p, inv', kb + {h}, Cut(h, x, xb))
  {
    hide Covers, Passes, Cut;
    CoverPass(p, inv, inv', h, kb, x, xb);
  }

  /** The head takes in a refined value: the cover is cut down, and the cycle stays poised. */
  lemma Refined<D(!new), S(!new), A(!new)>(p: Program<D, S, A>, inv: InvariantMap<D>, h: Label, body: set<Label>, x: (Label, S) -> bool,
      loose: set<Label>, simple: bool, n: D, iteration: nat)
    requires Sound(p) && h in inv && h !in body && h != ENTRY && Covers(p, inv, body + {h}, x) && Gathers(p, inv, h, n)
    requires Poised(p, inv, h, body, loose, simple) && (Ordered(p) ==> Least(p, inv, h, n))
    requires Ordered(p) && (simple || h !in loose) ==> p.domain.leq(n, inv[h].pre)
    ensures var inv' := inv[h := inv[h].(pre := Refine(p, inv[h].pre, n, iteration))];
      Covers(p, inv', body + {h}, CutHead(p, h, n, x)) && Poised(p, inv', h, body, loose, simple)
  {
    hide Covers, Gathers, Poised, Ordered, Least, Sound, Refine, CutHead;
    var d := inv[h].pre;
    CoverGather(p, inv, h, body + {h}, x, n);
    forall s | p.domain.mem(d, s) && p.domain.mem(n, s) ensures p.domain.mem(Refine(p, d, n, iteration), s) {
      RefineKeeps(p, d, n, iteration, s);
    }
    CoverRefine(p, inv, h, body + {h}, x, n, Refine(p, d, n, iteration));
    RefineOrder(p, d, n, iteration);
    RefinePoised(p, inv, h, body, loose, simple, n, Refine(p, d, n, iteration));
  }

  /** The round as a record. */
  lemma FramedRound<D(!new), S(!new), A(!new)>(p: Program<D, S, A>, order: seq<CycleOrLabel>, r: Round<D>, body: set<Label>)
    requires Occurs(order, r.cycle) && HasHead(r.cycle) && LabelsOf(Nested(r.cycle)) == body + {Head(r.cycle)}
    requires Frame(r.before, r.after, body + {Head(r.cycle)}) && Head(r.cycle) in r.before
    requires r.after[Head(r.cycle)].pre == r.before[Head(r.cycle)].pre
    requires r.after[Head(r.cycle)] == Transformed(p, Head(r.cycle), r.before[Head(r.cycle)].pre, r.before[Head(r.cycle)])
    requires Gathers(p, r.after, Head(r.cycle), r.returned) && (Ordered(p) ==> Least(p, r.after, Head(r.cycle), r.returned))
    ensures IsRound(p, order, r)
  {
    hide Occurs, LabelsOf, Gathers, Ordered, Least;
  }

  lemma PoisedLoosely<D(!new), S(!new), A(!new)>(p: Program<D, S, A>, inv: InvariantMap<D>, h: Label, body: set<Label>, loose: set<Label>, simple: bool)
    requires Poised(p, inv, h, body, loose, simple)
    ensures Poised(p, inv, h, body, loose, false)
  {
    hide Ordered, Settled, Firm, Under, Into;
  }

  lemma LastWins<D>(inv: InvariantMap<D>, l: Label, a: InvariantMapPair<D>, b: InvariantMapPair<D>)
    ensures inv[l := a][l := b] == inv[l := b]
  {
  }

  /** The vertex got the join of its parents, and what the checker and the transformer make of that; nothing else changed. */
  ghost predicate Recomputed<D(!new), S(!new), A(!new)>(p: Program<D, S, A>, inv: InvariantMap<D>, inv': InvariantMap<D>, node: Label) {
    && node in inv && node in inv'
    && var pre := inv'[node].pre;
      && Gathers(p, inv, node, pre) && (Ordered(p) ==> Least(p, inv, node, pre))
      && inv' == inv[node := Transformed(p, node, pre, inv[node].(pre := pre))]
  }

  lemma NodeTight<D(!new), S(!new), A(!new)>(p: Program<D, S, A>, inv: InvariantMap<D>, inv': InvariantMap<D>, node: Label, pre: D)
    requires node in inv && Elsewhere(inv, inv', {node}) && inv'[node].pre == pre && p.transform(node, pre) == Ok(inv'[node].post)
    requires Gathers(p, inv', node, pre) && (Ordered(p) ==> Least(p, inv, node, pre)) && !Edge(p.graph, node, node)
    requires node == ENTRY ==> pre == inv[ENTRY].pre
    ensures Tight(p, inv', node)
  {
    hide Ordered, Gathers, Edge;
    if Ordered(p) {
      forall d ensures Under(p, inv, node, d) <==> Under(p, inv', node, d) {
      }
      assert node == ENTRY ==> pre == inv'[ENTRY].pre;
    }
  }

  /** One vertex after a visit without errors. */
  lemma NodeVisited<D(!new), S(!new), A(!new)>(p: Program<D, S, A>, inv: InvariantMap<D>, node: Label, pre: D, loose: set<Label>)
    requires Sound(p) && node in inv && !Edge(p.graph, node, node) && Flagged(inv, false)
    requires Gathers(p, inv, node, pre) && (Ordered(p) ==> Least(p, inv, node, pre))
    requires !Fails(p, node, pre, inv[node].(pre := pre))
    ensures var inv' := inv[node := Transformed(p, node, pre, inv[node].(pre := pre))];
      Covers(p, inv', {node}, Members(p, pre)) && inv'[node].pre == pre && Improves(p, inv, inv', {node}, loose, true) && Tight(p, inv', node)
  {
    hide Covers, Sound, Gathers, Passes, Transformed, Fails, Members, Edge, Improves, Ordered, Least;
    var pair := inv[node].(pre := pre);
    var inv' := inv[node := Transformed(p, node, pre, pair)];
    NoneFlagged(inv, node);
    TransformedPasses(p, node, pre, pair);
    TransformedOk(p, node, pre, pair);
    EntryGathers(p, inv, node, pre);
    GathersFrame(p, inv, inv', node, pre);
    CoverNode(p, inv', node);
    NodeImproves(p, inv, inv', node, pre, inv'[node].post, loose);
    NodeTight(p, inv, inv', node, pre);
  }

  // ------------------------------------------------------------------ the iterator

  lemma JoinHolds<D(!new), S(!new), A(!new)>(p: Program<D, S, A>, a: D, b: D)
    requires Sound(p)
    ensures forall s :: p.domain.mem(a, s) || p.domain.mem(b, s) ==> p.domain.mem(p.domain.join(a, b), s)
  {
  }

  lemma NoParents<D(!new), S(!new), A(!new)>(p: Program<D, S, A>)
    requires Sound(p)
    ensures forall u :: !Edge(p.graph, u, ENTRY)
  {
    NoEdgeToEntry(p.graph);
  }

  lemma JoinStart<D(!new), S(!new), A(!new)>(p: Program<D, S, A>)
    ensures Ordered(p) ==> forall a :: p.domain.leq(p.domain.bottom, a)
  {
    hide Ordered;
    if Ordered(p) {
      BottomBelow(p);
    }
  }

  lemma MirroredParents<D(!new), S(!new), A(!new)>(p: Program<D, S, A>, l: Label)
    requires Sound(p) && l in p.graph
    ensures p.graph[l].parents <= p.graph.Keys
    ensures forall u :: Edge(p.graph, u, l) <==> u in p.graph[l].parents
  {
  }

  /** The first guess over the predecessors that are not in `rest`. */
  ghost predicate GuessSoFar<D(!new), S(!new), A(!new)>(p: Program<D, S, A>, nesting: map<Label, seq<Label>>, inv: InvariantMap<D>,
      head: Label, rest: set<Label>, res: D)
  {
    && (forall u, s :: Outside(p, nesting, inv, head, u) && u !in rest && p.domain.mem(inv[u].post, s) ==> p.domain.mem(res, s))
    && (Ordered(p) ==> forall u :: Outside(p, nesting, inv, head, u) && u !in rest ==> p.domain.leq(inv[u].post, res))
    && (Ordered(p) ==> forall e :: AboveOutside(p, nesting, inv, head, e) ==> p.domain.leq(res, e))
    && ((forall u :: !Outside(p, nesting, inv, head, u)) ==> res == p.domain.bottom)
  }

  lemma GuessStarts<D(!new), S(!new), A(!new)>(p: Program<D, S, A>, nesting: map<Label, seq<Label>>, inv: InvariantMap<D>, head: Label, parents: set<Label>)
    requires forall u :: Edge(p.graph, u, head) ==> u in parents
    ensures GuessSoFar(p, nesting, inv, head, parents, p.domain.bottom)
  {
    hide Ordered, Edge, AboveOutside;
    JoinStart(p);
  }

  lemma OutsideKnown<D, S, A>(p: Program<D, S, A>, nesting: map<Label, seq<Label>>, inv: InvariantMap<D>, head: Label)
    ensures forall u :: Outside(p, nesting, inv, head, u) ==> u in inv
  {
  }

  lemma GuessGrows<D(!new), S(!new), A(!new)>(p: Program<D, S, A>, nesting: map<Label, seq<Label>>, inv: InvariantMap<D>,
      head: Label, rest: set<Label>, res: D, prev: Label)
    requires Sound(p) && GuessSoFar(p, nesting, inv, head, rest, res) && prev in inv
    ensures Outside(p, nesting, inv, head, prev) ==> GuessSoFar(p, nesting, inv, head, rest - {prev}, p.domain.join(res, inv[prev].post))
    ensures !Outside(p, nesting, inv, head, prev) ==> GuessSoFar(p, nesting, inv, head, rest - {prev}, res)
  {
    hide Ordered, Outside, Sound;
    OutsideKnown(p, nesting, inv, head);
    JoinHolds(p, res, inv[prev].post);
    if Ordered(p) && Outside(p, nesting, inv, head, prev) {
      JoinAbove(p, res, inv[prev].post);
      forall e | AboveOutside(p, nesting, inv, head, e) ensures p.domain.leq(p.domain.join(res, inv[prev].post), e) {
        assert p.domain.leq(inv[prev].post, e) && p.domain.leq(res, e);
      }
    }
  }

  lemma GuessEnds<D(!new), S(!new), A(!new)>(p: Program<D, S, A>, nesting: map<Label, seq<Label>>, inv: InvariantMap<D>, head: Label, res: D)
    requires GuessSoFar(p, nesting, inv, head, {}, res)
    ensures FirstGuess(p, nesting, inv, head, res)
  {
    hide Ordered, Outside;
  }

  class FwdFixpointIterator<D(!new), S(!new), A(!new)> {
    const p: Program<D, S, A>
    const wto: Ordering
    var invariants: InvariantMap<D>
    var failed: bool
    /** Skips the analysis until the entry is met in the ordering. */
    var skip: bool
    /** Heads of cycles with inner cycles to which some descending round returned more than they had been given. */
    ghost var loose: set<Label>
    /** The descending rounds made without an error. */
    ghost var rounds: set<Round<D>>

    ghost predicate Valid()
      reads this
    {
      && Sound(p)
      && invariants.Keys == p.graph.Keys == wto.nesting.Keys
      && Flagged(invariants, failed) && AllReported(p, invariants)
      && Blamed(p, wto.components, rounds, loose)
    }

    /** The body of the cycle has been visited. */
    ghost predicate BodyVisited(cycle: WtoCycle)
      requires HasHead(cycle)
      reads this
    {
      AllVisited(p, wto.components, wto.nesting, invariants, cycle.components, 0, |cycle.components| - 1)
    }

    constructor (p: Program<D, S, A>, wto: Ordering)
      requires Sound(p) && wto.nesting.Keys == p.graph.Keys
      ensures this.p == p && this.wto == wto && Valid()
      ensures !failed && skip && loose == {} && rounds == {}
      ensures forall l :: l in invariants ==> invariants[l] == InvariantMapPair(p.domain.bottom, None, p.domain.bottom)
    {
      this.p, this.wto := p, wto;
      invariants := map l | l in p.graph :: InvariantMapPair(p.domain.bottom, None, p.domain.bottom);
      failed, skip, loose, rounds := false, true, {}, {};
      NoneBlamed(p, wto.components);
    }

    method SetError(node: Label, error: VerificationError)
      requires node in invariants
      modifies this`invariants, this`failed
      ensures failed && invariants == old(invariants)[node := old(invariants)[node].(error := Some(error))]
      ensures Flagged(invariants, failed)
    {
      failed := true;
      invariants := invariants[node := invariants[node].(error := Some(error))];
      assert invariants[node].error.Some?;
    }

    method SetPre(node: Label, v: D)
      requires node in invariants
      modifies this`invariants
      ensures invariants == old(invariants)[node := old(invariants)[node].(pre := v)]
      ensures Flagged(old(invariants), failed) ==> Flagged(invariants, failed)
      ensures AllReported(p, old(invariants)) ==> AllReported(p, invariants)
    {
      hide AllReported;
      if AllReported(p, invariants) {
        ReportedPre(p, invariants, node, v);
      }
      ErrorsSame(invariants, node, invariants[node].(pre := v));
      invariants := invariants[node := invariants[node].(pre := v)];
    }

    /** Runs the checker, then the transformer; the first error wins and leaves the post-invariant alone. */
    method TransformToPost(node: Label, pre: D)
      requires Valid() && node in invariants
      modifies this`invariants, this`failed
      ensures Valid()
      ensures invariants == old(invariants)[node := Transformed(p, node, pre, old(invariants)[node])]
      ensures failed == (old(failed) || Fails(p, node, pre, old(invariants)[node]))
    {
      hide AllReported, Flagged;
      ReportedUpdate(p, invariants, node, pre);
      if !p.isLoopCounter(node) {
        if invariants[node].error.Some? {
          return;
        }
        var assertions := p.assertionsAt(node);
        var i := 0;
        assert assertions[0..] == assertions;
        while i < |assertions|
          invariant 0 <= i <= |assertions|
          invariant invariants == old(invariants) && failed == old(failed)
          invariant FirstError(p, node, pre, assertions) == FirstError(p, node, pre, assertions[i..])
        {
          assert assertions[i..][1..] == assertions[i + 1..];
          var error := p.check(pre, assertions[i], node);
          if error.Some? {
            SetError(node, error.value);
            return;
          }
          i := i + 1;
        }
      }
      match p.transform(node, pre) {
        case Err(err) => SetError(node, err.(where := Some(node)));
        case Ok(post) =>
          ErrorsSame(invariants, node, invariants[node].(post := post));
          invariants := invariants[node := invariants[node].(post := post)];
      }
    }

    /** Joins what the predecessors hand on; the entry keeps what it was given. */
    method JoinAllPrevs(node: Label) returns (res: D)
      requires Valid() && node in invariants
      ensures Gathers(p, invariants, node, res)
      ensures Ordered(p) ==> Least(p, invariants, node, res)
    {
      hide Sound, Flagged, Ordered, Edge, WellFormed, Blamed, AllReported;
      MirroredParents(p, node);
      if node == ENTRY {
        NoParents(p);
        SelfLeq(p);
        return invariants[node].pre;
      }
      res := p.domain.bottom;
      var parents := p.graph[node].parents;
      ghost var all := parents;
      JoinStart(p);
      while parents != {}
        invariant parents <= all <= invariants.Keys
        invariant forall u, s :: u in all - parents && p.domain.mem(invariants[u].post, s) ==> p.domain.mem(res, s)
        invariant Ordered(p) ==> forall u :: u in all - parents ==> p.domain.leq(invariants[u].post, res)
        invariant Ordered(p) ==> forall e :: Under(p, invariants, node, e) ==> p.domain.leq(res, e)
      {
        var prev :| prev in parents;
        parents := parents - {prev};
        JoinHolds(p, res, invariants[prev].post);
        if Ordered(p) {
          JoinAbove(p, res, invariants[prev].post);
        }
        res := p.domain.join(res, invariants[prev].post);
      }
    }

    /**
      The first guess for a cycle head: joins the predecessors whose nesting does not strictly extend
      the head's. That shuts out the cycle's own members, and with them the members of sibling cycles.
      On a lattice the guess is the least value above the predecessors that are left, and nothing more.
    */
    method JoinOutside(head: Label) returns (res: D)
      requires Valid() && head in invariants
      ensures FirstGuess(p, wto.nesting, invariants, head, res)
    {
      hide Sound, Flagged, Edge, Ordered, Blamed, GuessSoFar, FirstGuess, AllReported;
      MirroredParents(p, head);
      res := p.domain.bottom;
      var parents := p.graph[head].parents;
      GuessStarts(p, wto.nesting, invariants, head, parents);
      while parents != {}
        invariant parents <= invariants.Keys
        invariant GuessSoFar(p, wto.nesting, invariants, head, parents, res)
      {
        var prev :| prev in parents;
        var inner := IsSupersetOf(wto.nesting[prev], wto.nesting[head]);
        GuessGrows(p, wto.nesting, invariants, head, parents, res, prev);
        parents := parents - {prev};
        if !inner {
          res := p.domain.join(res, invariants[prev].post);
        }
      }
      GuessEnds(p, wto.nesting, invariants, head, res);
    }

    /** Processes one vertex in the traversal. */
    method ProcessNode(node: Label)
      requires Valid() && node in invariants && !Edge(p.graph, node, node)
      modifies this
      ensures Valid() && Frame(old(invariants), invariants, {node}) && (old(failed) ==> failed) && old(loose) <= loose && old(rounds) <= rounds
      ensures old(skip) && node != ENTRY ==> skip && invariants == old(invariants) && failed == old(failed) && loose == old(loose) && rounds == old(rounds)
      ensures !old(skip) || node == ENTRY ==>
        !skip && (!failed ==> Covers(p, invariants, {node}, Members(p, invariants[node].pre)))
      ensures (!old(skip) || node == ENTRY) && !failed ==> Improves(p, old(invariants), invariants, {node}, loose, true)
      ensures (!old(skip) || node == ENTRY) && !failed ==> Tight(p, invariants, node)
      ensures !old(skip) || node == ENTRY ==> Recomputed(p, old(invariants), invariants, node)
      ensures !old(skip) || node == ENTRY ==>
        failed == (old(failed) || Fails(p, node, invariants[node].pre, old(invariants)[node].(pre := invariants[node].pre)))
    {
      hide Covers, Sound, Frame, Gathers, Passes, Transformed, Fails, Flagged, Members, Edge, Improves, Ordered, Least, Blamed, AllReported;
      FrameSame(invariants);
      FrameGrows(invariants, invariants, {}, {node});
      if skip && node == ENTRY {
        skip := false;
      }
      if skip {
        return;
      }
      var pre := JoinAllPrevs(node);
      EntryGathers(p, invariants, node, pre);
      FrameSetPre(invariants, node, pre, {node});
      SetPre(node, pre);
      ghost var inv := invariants;
      FrameTransformed(p, inv, node, pre);
      TransformToPost(node, pre);
      FrameTrans(old(invariants), inv, invariants, {node}, {node}, {node});
      FrameFacts(old(invariants), invariants, {node});
      LastWins(old(invariants), node, inv[node], invariants[node]);
      if !failed {
        NodeVisited(p, old(invariants), node, pre, loose);
      }
    }

    /** Visits all components of a cycle except the head. */
    method VisitCycleBody(cycle: WtoCycle, head: Label) returns (ghost x: (Label, S) -> bool)
      requires Valid() && !skip && HasHead(cycle) && Walkable(p.graph, Nested(cycle)) && head == Head(cycle)
      requires Occurs(wto.components, cycle)
      modifies this
      ensures Valid() && !skip && Frame(old(invariants), invariants, BodyLabels(cycle)) && (old(failed) ==> failed) && old(loose) <= loose && old(rounds) <= rounds
      ensures !failed ==> Covers(p, invariants, BodyLabels(cycle), x)
      ensures !failed ==> Improves(p, old(invariants), invariants, BodyLabels(cycle), loose, Simple(cycle))
      ensures !failed ==> BodyVisited(cycle)
      decreases cycle, 0
    {
      hide Covers, Sound, LabelsIn, LabelsOf, Frame, Apart, NoBackEdges, Improves, Occurs, Simple, Blamed, AllReported;
      var components := cycle.components;
      ghost var lim := |components| - 1;
      x := (_, _) => false;
      var i := |components|;
      StretchEmpty(components, lim);
      CoverNothing(p, invariants, x);
      ImprovesNothing(p, invariants, loose, Simple(cycle));
      FrameSame(invariants);
      CycleLabels(p.graph, cycle);
      ghost var lo := lim;
      while i > 0
        invariant 0 <= i <= |components| && lo == if i <= lim then i else lim
        invariant Valid() && !skip && (old(failed) ==> failed) && old(loose) <= loose && old(rounds) <= rounds
        invariant Frame(old(invariants), invariants, LabelsIn(components[lo..lim]))
        invariant !failed ==> Covers(p, invariants, LabelsIn(components[lo..lim]), x)
        invariant !failed ==> Improves(p, old(invariants), invariants, LabelsIn(components[lo..lim]), loose, Simple(cycle))
        invariant !failed ==> AllVisited(p, wto.components, wto.nesting, invariants, components, lo, lim)
      {
        i := i - 1;
        if !(components[i] == Node(head)) {
          LevelFacts(p.graph, cycle, i);
          PlacedInside(wto.components, cycle, i);
          ghost var inv, before := invariants, loose;
          ghost var x' := VisitComponent(components[i]);
          StretchGrows(p.graph, components, i, lim);
          FrameTrans(old(invariants), inv, invariants, LabelsIn(components[i + 1..lim]), LabelsOf(components[i]), LabelsIn(components[i..lim]));
          if !failed {
            StretchCovers(p, inv, invariants, components, i, lim, x, x');
            x := Choose(LabelsIn(components[i + 1..lim]), x, x');
            CoverKeys(p, invariants, LabelsIn(components[i..lim]), x);
            StretchImproves(p, old(invariants), inv, invariants, components, i, lim, before, loose, Simple(cycle));
            StretchVisited(p, wto.components, wto.nesting, inv, invariants, components, i, lim);
          }
          lo := i;
        }
      }
      assert components[0..lim] == components[..|components| - 1];
    }

    /** Dispatches on a component. */
    method VisitComponent(component: CycleOrLabel) returns (ghost x: (Label, S) -> bool)
      requires Valid() && Walkable(p.graph, component) && NoSelfEdge(p.graph, component) && Placed(wto.components, component)
      requires skip || !HeadedBy(component, ENTRY)
      modifies this
      ensures Valid() && Frame(old(invariants), invariants, LabelsOf(component)) && (old(failed) ==> failed) && old(loose) <= loose && old(rounds) <= rounds
      ensures old(skip) && ENTRY !in LabelsOf(component) ==> skip && invariants == old(invariants) && failed == old(failed) && loose == old(loose) && rounds == old(rounds)
      ensures !old(skip) || ENTRY in LabelsOf(component) ==>
        !skip && (!failed ==> Covers(p, invariants, LabelsOf(component), x))
      ensures (!old(skip) || ENTRY in LabelsOf(component)) && !failed ==>
        Improves(p, old(invariants), invariants, LabelsOf(component), loose, component.Node?)
      ensures (!old(skip) || ENTRY in LabelsOf(component)) && !failed ==> Visited(p, wto.components, wto.nesting, invariants, component)
      decreases component
    {
      hide Covers, Sound, Frame, Improves, Occurs, Blamed, AllReported;
      match component {
        case Node(l) =>
          assert LabelsOf(component) == {l};
          ProcessNode(l);
          x := Members(p, invariants[l].pre);
          if !skip && !failed {
            VisitedNode(p, wto.components, wto.nesting, invariants, l);
          }
        case Nested(cycle) =>
          ghost var run;
          x, run := ProcessCycle(cycle);
      }
    }

    /** Transforms the head from `invariant'`, visits the body, and joins what comes back to the head. */
    method Iterate(cycle: WtoCycle, head: Label, invariant': D) returns (newPre: D, ghost xb: (Label, S) -> bool)
      requires Valid() && !skip && HasHead(cycle) && Walkable(p.graph, Nested(cycle)) && head == Head(cycle) && head in invariants
      requires Occurs(wto.components, cycle)
      modifies this
      ensures Valid() && !skip && Frame(old(invariants), invariants, BodyLabels(cycle) + {head}) && (old(failed) ==> failed) && old(loose) <= loose && old(rounds) <= rounds
      ensures invariants[head].pre == old(invariants)[head].pre
      ensures Gathers(p, invariants, head, newPre)
      ensures invariants[head] == Transformed(p, head, invariant', old(invariants)[head])
      ensures !failed ==> Passes(p, head, invariant', invariants[head].post) && Covers(p, invariants, BodyLabels(cycle), xb)
      ensures Ordered(p) ==> Least(p, invariants, head, newPre)
      ensures !failed ==> Rounds(p, old(invariants), invariants, head, BodyLabels(cycle), loose, Simple(cycle), invariant')
      ensures !failed ==> BodyVisited(cycle)
      decreases cycle, 1
    {
      hide Covers, Sound, Gathers, Passes, Frame, Transformed, Fails, Flagged, BodyLabels, Improves, Ordered, Least, Rounds, Occurs, Simple, Blamed, AllReported;
      ghost var inv := invariants;
      CycleLabels(p.graph, cycle);
      FrameTransformed(p, inv, head, invariant');
      TransformToPost(head, invariant');
      ghost var mid := invariants;
      if !failed {
        NoneFlagged(inv, head);
        TransformedPasses(p, head, invariant', inv[head]);
        TransformedOk(p, head, invariant', inv[head]);
      }
      xb := VisitCycleBody(cycle, head);
      FrameFacts(mid, invariants, BodyLabels(cycle));
      FrameTrans(inv, mid, invariants, {head}, BodyLabels(cycle), BodyLabels(cycle) + {head});
      if !failed {
        RoundOf(p, inv, mid, invariants, head, BodyLabels(cycle), loose, Simple(cycle), invariant');
      }
      newPre := JoinAllPrevs(head);
    }

    /** An ascending round: the head is given `invariant'`, and one iteration is made from it. */
    method AscendRound(cycle: WtoCycle, head: Label, invariant': D) returns (newPre: D, ghost xb: (Label, S) -> bool, ghost round: Round<D>)
      requires Valid() && !skip && HasHead(cycle) && Walkable(p.graph, Nested(cycle)) && head == Head(cycle) && head in invariants
      requires Occurs(wto.components, cycle)
      requires head == ENTRY ==> invariant' == invariants[ENTRY].pre
      modifies this
      ensures Valid() && !skip && Frame(old(invariants), invariants, BodyLabels(cycle) + {head}) && (old(failed) ==> failed) && old(loose) <= loose && old(rounds) <= rounds
      ensures round == Round(cycle, Handed(old(invariants), head, invariant'), invariants, newPre) && head in invariants
      ensures IsRound(p, wto.components, round)
      ensures head == ENTRY ==> newPre == invariant' && p.domain.leq(newPre, invariant')
      ensures Gathers(p, invariants, head, newPre) && (Ordered(p) ==> Least(p, invariants, head, newPre))
      ensures !failed ==> Passes(p, head, invariant', invariants[head].post) && Covers(p, invariants, BodyLabels(cycle), xb)
      ensures !failed ==> Rounds(p, round.before, invariants, head, BodyLabels(cycle), loose, Simple(cycle), invariant')
      decreases cycle, 2
    {
      hide Covers, Sound, Gathers, Passes, Frame, Flagged, Edge, Walkable, LabelsIn, LabelsOf, BodyLabels, WellFormed, Ordered, Least, Rounds, Poised, Improves, Occurs, Simple, Blamed, IsRound, AllVisited, AllReported;
      ghost var k := BodyLabels(cycle) + {head};
      ghost var inv := invariants;
      CycleLabels(p.graph, cycle);
      FrameSetPre(inv, head, invariant', k);
      SetPre(head, invariant');
      ghost var mid := invariants;
      newPre, xb := Iterate(cycle, head, invariant');
      FrameThen(inv, mid, invariants, k);
      FrameFacts(mid, invariants, k);
      EntryGathers(p, invariants, head, newPre);
      if head == ENTRY {
        FrameFacts(inv, mid, k);
        Reflexive(p, invariant');
      }
      round := Round(cycle, mid, invariants, newPre);
      FramedRound(p, wto.components, round, BodyLabels(cycle));
    }

    /**
      One turn of the ascending loop. Either what came back is within what was given, and the head takes it, or
      `next` is what the head is to be given next.
    */
    method AscendOnce(cycle: WtoCycle, head: Label, invariant': D, iteration: nat)
      returns (next: D, stop: bool, ghost round: Round<D>, ghost x: (Label, S) -> bool)
      requires Valid() && !skip && HasHead(cycle) && Walkable(p.graph, Nested(cycle)) && head == Head(cycle) && head in invariants
      requires Occurs(wto.components, cycle)
      requires head == ENTRY ==> invariant' == invariants[ENTRY].pre
      modifies this
      ensures Valid() && !skip && Frame(old(invariants), invariants, BodyLabels(cycle) + {head}) && (old(failed) ==> failed) && old(loose) <= loose && old(rounds) <= rounds
      ensures round.cycle == cycle && round.before == Handed(old(invariants), head, invariant') && head in invariants
      ensures IsRound(p, wto.components, round)
      ensures if stop then Arrives(p, round, invariants) && invariants[head].pre == next else Climbs(p, round, iteration, Handed(invariants, head, next))
      ensures !stop && iteration >= WIDENING_DELAY ==> p.domain.rank(next) < p.domain.rank(invariant')
      ensures !stop ==> head != ENTRY
      ensures stop && !failed ==> Covers(p, invariants, BodyLabels(cycle) + {head}, x)
      ensures stop && !failed ==> Poised(p, invariants, head, BodyLabels(cycle), loose, Simple(cycle))
      decreases cycle, 3
    {
      hide Covers, Sound, Gathers, Passes, Frame, Flagged, HeadAnd, Edge, Walkable, LabelsIn, LabelsOf, BodyLabels, WellFormed, Ordered, Least, Rounds, Poised, Occurs, Simple, Blamed, IsRound, AllReported;
      ghost var k := BodyLabels(cycle) + {head};
      ghost var inv := invariants;
      var newPre;
      ghost var xb;
      newPre, xb, round := AscendRound(cycle, head, invariant');
      ghost var last := invariants;
      FrameFacts(inv, last, k);
      x := (_, _) => false;
      stop := p.domain.leq(newPre, invariant');
      if stop {
        next := newPre;
        SetPre(head, newPre);
        FrameSetPre(last, head, newPre, k);
        FrameThen(inv, last, invariants, k);
        if !failed {
          CycleLabels(p.graph, cycle);
          CoverCycle(p, last, head, BodyLabels(cycle), xb, invariant', newPre);
          x := HeadAnd(p, head, newPre, xb);
          AscendPoises(p, round.before, last, head, BodyLabels(cycle), loose, Simple(cycle), invariant', newPre);
        }
      } else {
        if iteration >= WIDENING_DELAY {
          WideningProgress(p, invariant', newPre, iteration);
        }
        next := Extrapolate(p, invariant', newPre, iteration);
      }
    }

    /** Ascending iterations with widening until a post-fixpoint is reached; `up` are the rounds made. */
    method Ascend(cycle: WtoCycle, head: Label, start: D) returns (invariant': D, ghost x: (Label, S) -> bool, ghost up: seq<Round<D>>)
      requires Valid() && !skip && HasHead(cycle) && Walkable(p.graph, Nested(cycle)) && head == Head(cycle) && head in invariants
      requires Occurs(wto.components, cycle)
      requires head == ENTRY ==> start == invariants[ENTRY].pre
      modifies this
      ensures Valid() && !skip && Frame(old(invariants), invariants, BodyLabels(cycle) + {head}) && (old(failed) ==> failed) && old(loose) <= loose && old(rounds) <= rounds
      ensures head in invariants && invariants[head].pre == invariant'
      ensures Ascent(p, wto.components, cycle, old(invariants), start, up, invariants)
      ensures !failed ==> Covers(p, invariants, BodyLabels(cycle) + {head}, x)
      ensures !failed ==> Poised(p, invariants, head, BodyLabels(cycle), loose, Simple(cycle))
      decreases cycle, 4
    {
      hide Covers, Sound, Frame, Flagged, Edge, Walkable, BodyLabels, WellFormed, Ordered, Poised, Occurs, Simple, Blamed, IsRound, Chain, GoesOn, Climbs, Arrives, AllReported;
      invariant' := start;
      var iteration := 1;
      var stop := false;
      ghost var k := BodyLabels(cycle) + {head};
      x := (_, _) => false;
      up := [];
      FrameSame(invariants);
      FrameGrows(invariants, invariants, {}, k);
      ghost var first := Handed(invariants, head, start);
      ChainStarts(p, wto.components, cycle, first, false);
      while !stop
        invariant Valid() && !skip && (old(failed) ==> failed) && old(loose) <= loose && old(rounds) <= rounds
        invariant Frame(old(invariants), invariants, k)
        invariant head in invariants && iteration >= 1 && (stop ==> invariants[head].pre == invariant')
        invariant !stop && head == ENTRY ==> invariant' == invariants[ENTRY].pre
        invariant !stop ==> |up| == iteration - 1 && GoesOn(p, wto.components, cycle, first, up, false, Handed(invariants, head, invariant'))
        invariant stop ==> Ascent(p, wto.components, cycle, old(invariants), start, up, invariants)
        invariant !failed && stop ==> Covers(p, invariants, k, x) && Poised(p, invariants, head, BodyLabels(cycle), loose, Simple(cycle))
        decreases !stop, if iteration < WIDENING_DELAY then WIDENING_DELAY - iteration else 0, p.domain.rank(invariant')
      {
        ghost var inv := invariants;
        ghost var round;
        invariant', stop, round, x := AscendOnce(cycle, head, invariant', iteration);
        FrameThen(old(invariants), inv, invariants, k);
        ChainGrows(p, wto.components, cycle, first, up, false, round);
        up := up + [round];
        if !stop {
          ChainGoesOn(p, wto.components, cycle, first, up, false, Handed(invariants, head, invariant'));
        }
        iteration := iteration + 1;
      }
    }

    /**
      A descending round up to its tests: one iteration from the head's invariant. The cover shrinks with the
      invariants, and the round goes on record; a head that got back more than it was given becomes loose.
    */
    method DescendRound(cycle: WtoCycle, head: Label, invariant': D, ghost x: (Label, S) -> bool) returns (newPre: D, ghost x': (Label, S) -> bool)
      requires Valid() && !skip && HasHead(cycle) && Walkable(p.graph, Nested(cycle)) && head == Head(cycle) && head in invariants
      requires Occurs(wto.components, cycle)
      requires invariants[head].pre == invariant'
      requires !failed ==> Covers(p, invariants, BodyLabels(cycle) + {head}, x)
      requires !failed ==> Poised(p, invariants, head, BodyLabels(cycle), loose, Simple(cycle))
      modifies this
      ensures Valid() && !skip && Frame(old(invariants), invariants, BodyLabels(cycle) + {head}) && (old(failed) ==> failed) && old(loose) <= loose && old(rounds) <= rounds
      ensures head in invariants && invariants[head].pre == invariant'
      ensures Gathers(p, invariants, head, newPre) && (Ordered(p) ==> Least(p, invariants, head, newPre))
      ensures !failed ==> Round(cycle, old(invariants), invariants, newPre) in rounds
      ensures IsRound(p, wto.components, Round(cycle, old(invariants), invariants, newPre)) && (!failed ==> BodyVisited(cycle))
      ensures !failed ==> Covers(p, invariants, BodyLabels(cycle) + {head}, x')
      ensures !failed ==> Poised(p, invariants, head, BodyLabels(cycle), loose, Simple(cycle))
      ensures !failed && Ordered(p) && (Simple(cycle) || head !in loose) ==> p.domain.leq(newPre, invariant')
      decreases cycle, 2
    {
      hide Covers, Sound, Gathers, Passes, Frame, Flagged, Cut, Edge, Walkable, LabelsIn, LabelsOf, BodyLabels, WellFormed, Ordered, Least, Rounds, Poised, Occurs, Simple, Blamed, IsRound, SettledRound, Shrunk, AllReported;
      CycleLabels(p.graph, cycle);
      ghost var inv, before := invariants, loose;
      ghost var xb;
      newPre, xb := Iterate(cycle, head, invariant');
      FrameFacts(inv, invariants, BodyLabels(cycle) + {head});
      x' := x;
      ghost var round := Round(cycle, inv, invariants, newPre);
      FramedRound(p, wto.components, round, BodyLabels(cycle));
      if !failed {
        FramedPass(p, inv, invariants, head, BodyLabels(cycle), x, xb);
        x' := Cut(head, x, xb);
        ghost var returned := loose;
        if Loosens(p, round) {
          loose := loose + {head};
          if head !in returned {
            PoisedLoosely(p, inv, head, BodyLabels(cycle), before, Simple(cycle));
            GrownRound(p, wto.components, round, BodyLabels(cycle), before);
          }
        }
        RoundPoised(p, inv, invariants, head, BodyLabels(cycle), before, returned, loose, Simple(cycle), newPre);
        SettledEnds(p, round, BodyLabels(cycle), before, loose, Simple(cycle));
        RoundRecorded(p, wto.components, rounds, returned, round, loose);
        rounds := rounds + {round};
      }
    }

    /**
      One turn of the descending loop. Either it stops with what the head had been given, or the head takes in
      the refined value; `round` is what happened before the tests.
    */
    method DescendOnce(cycle: WtoCycle, head: Label, invariant': D, iteration: nat, ghost x: (Label, S) -> bool)
      returns (refined: D, stop: bool, ghost round: Round<D>, ghost x': (Label, S) -> bool)
      requires Valid() && !skip && HasHead(cycle) && Walkable(p.graph, Nested(cycle)) && head == Head(cycle) && head in invariants
      requires Occurs(wto.components, cycle)
      requires invariants[head].pre == invariant'
      requires !failed ==> Covers(p, invariants, BodyLabels(cycle) + {head}, x)
      requires !failed ==> Poised(p, invariants, head, BodyLabels(cycle), loose, Simple(cycle))
      modifies this
      ensures Valid() && !skip && Frame(old(invariants), invariants, BodyLabels(cycle) + {head}) && (old(failed) ==> failed) && old(loose) <= loose && old(rounds) <= rounds
      ensures round.cycle == cycle && round.before == old(invariants) && head in invariants && refined == invariants[head].pre
      ensures !stop ==> iteration <= DESCENDING_ITERATIONS
      ensures if stop then Rests(p, round, iteration, invariants) else Falls(p, round, iteration, invariants)
      ensures IsRound(p, wto.components, round) && (!failed ==> round in rounds && BodyVisited(cycle))
      ensures !failed ==> Covers(p, invariants, BodyLabels(cycle) + {head}, x')
      ensures !failed ==> Poised(p, invariants, head, BodyLabels(cycle), loose, Simple(cycle))
      decreases cycle, 3
    {
      hide Covers, Sound, Gathers, Frame, Flagged, CutHead, Edge, Walkable, LabelsIn, LabelsOf, BodyLabels, Ordered, Least, Poised, Occurs, Simple, Blamed, AllReported;
      ghost var k := BodyLabels(cycle) + {head};
      ghost var inv := invariants;
      var newPre;
      newPre, x' := DescendRound(cycle, head, invariant', x);
      ghost var last := invariants;
      round := Round(cycle, inv, last, newPre);
      refined, stop := invariant', true;
      if p.domain.leq(invariant', newPre) || iteration > DESCENDING_ITERATIONS {
        return;
      }
      EntryGathers(p, last, head, newPre);
      FrameFacts(inv, last, k);
      if head == ENTRY {
        Reflexive(p, invariant');
      }
      refined := Refine(p, invariant', newPre, iteration);
      stop := p.domain.leq(invariant', refined);
      if !failed {
        CycleLabels(p.graph, cycle);
        Refined(p, last, head, BodyLabels(cycle), x', loose, Simple(cycle), newPre, iteration);
        x' := CutHead(p, head, newPre, x');
      }
      SetPre(head, refined);
      FrameSetPre(last, head, refined, k);
      FrameThen(inv, last, invariants, k);
      if !failed {
        LevelApart(p.graph, cycle);
        BodyHanded(p, wto.components, wto.nesting, last, cycle, refined);
      }
    }

    /** Descending iterations with narrowing. */
    method Descend(cycle: WtoCycle, head: Label, start: D, ghost x: (Label, S) -> bool) returns (ghost x': (Label, S) -> bool, ghost down: seq<Round<D>>)
      requires Valid() && !skip && HasHead(cycle) && Walkable(p.graph, Nested(cycle)) && head == Head(cycle) && head in invariants
      requires Occurs(wto.components, cycle)
      requires invariants[head].pre == start
      requires !failed ==> Covers(p, invariants, BodyLabels(cycle) + {head}, x)
      requires !failed ==> Poised(p, invariants, head, BodyLabels(cycle), loose, Simple(cycle))
      modifies this
      ensures Valid() && !skip && Frame(old(invariants), invariants, BodyLabels(cycle) + {head}) && (old(failed) ==> failed) && old(loose) <= loose && old(rounds) <= rounds
      ensures Descent(p, wto.components, cycle, old(invariants), down, invariants)
      ensures !failed ==> forall r :: r in down ==> r in rounds
      ensures !failed ==> BodyVisited(cycle)
      ensures !failed ==> Covers(p, invariants, BodyLabels(cycle) + {head}, x')
      ensures !failed ==> Improves(p, old(invariants), invariants, BodyLabels(cycle) + {head}, loose, false)
      decreases cycle, 4
    {
      hide Covers, Sound, Frame, Flagged, Refine, Edge, Walkable, LabelsIn, LabelsOf, BodyLabels, Ordered, Poised, Improves, Occurs, Simple, Blamed, IsRound, Chain, GoesOn, Rests, Falls, AllVisited, AllReported;
      var invariant' := start;
      var iteration := 1;
      var stop := false;
      x' := x;
      down := [];
      ChainStarts(p, wto.components, cycle, invariants, true);
      ghost var k := BodyLabels(cycle) + {head};
      FrameSame(invariants);
      FrameGrows(invariants, invariants, {}, k);
      while !stop
        invariant Valid() && !skip && (old(failed) ==> failed) && old(loose) <= loose && old(rounds) <= rounds && iteration >= 1
        invariant Frame(old(invariants), invariants, k)
        invariant head in invariants && invariants[head].pre == invariant'
        invariant |down| == iteration - 1 && (!failed ==> forall r :: r in down ==> r in rounds)
        invariant !stop ==> GoesOn(p, wto.components, cycle, old(invariants), down, true, invariants)
        invariant stop ==> Descent(p, wto.components, cycle, old(invariants), down, invariants) && (!failed ==> BodyVisited(cycle))
        invariant !failed ==> Covers(p, invariants, k, x')
        invariant !failed ==> Poised(p, invariants, head, BodyLabels(cycle), loose, Simple(cycle))
        decreases !stop, DESCENDING_ITERATIONS + 1 - iteration
      {
        ghost var inv := invariants;
        ghost var round;
        invariant', stop, round, x' := DescendOnce(cycle, head, invariant', iteration, x');
        FrameThen(old(invariants), inv, invariants, k);
        ChainGrows(p, wto.components, cycle, old(invariants), down, true, round);
        down := down + [round];
        if !stop {
          ChainGoesOn(p, wto.components, cycle, old(invariants), down, true, invariants);
        }
        iteration := iteration + 1;
      }
      if !failed {
        PoisedSettles(p, old(invariants), invariants, head, BodyLabels(cycle), loose, Simple(cycle));
      }
    }

    /** The two phases of a cycle, from the value the head starts with. */
    method RunCycle(cycle: WtoCycle, head: Label, start: D, ghost fromEntry: bool) returns (ghost x: (Label, S) -> bool, ghost run: CycleRun<D>)
      requires Valid() && !skip && HasHead(cycle) && Walkable(p.graph, Nested(cycle)) && head == Head(cycle) && head in invariants
      requires Occurs(wto.components, cycle)
      requires head == ENTRY ==> start == invariants[ENTRY].pre
      requires if fromEntry then ENTRY in invariants && ENTRY in LabelsOf(Nested(cycle)) && start == invariants[ENTRY].pre
        else FirstGuess(p, wto.nesting, invariants, head, start)
      modifies this
      ensures Valid() && !skip && Frame(old(invariants), invariants, LabelsOf(Nested(cycle))) && (old(failed) ==> failed) && old(loose) <= loose && old(rounds) <= rounds
      ensures run.cycle == cycle && run.fromEntry == fromEntry && run.entry == old(invariants) && run.last == invariants
      ensures IsCycleRun(p, wto.components, wto.nesting, run) && (!failed ==> forall r :: r in run.down ==> r in rounds)
      ensures !failed ==> Visited(p, wto.components, wto.nesting, invariants, Nested(cycle))
      ensures !failed ==> Covers(p, invariants, LabelsOf(Nested(cycle)), x)
      ensures !failed ==> Improves(p, old(invariants), invariants, LabelsOf(Nested(cycle)), loose, false)
      decreases cycle, 5
    {
      hide Covers, Sound, Frame, Flatten, Improves, Poised, Occurs, Simple, Blamed, Ascent, Descent, FirstGuess, AllVisited, Visited, IsCycleRun, LabelsOf, BodyLabels, AllReported;
      CycleLabels(p.graph, cycle);
      ghost var k := LabelsOf(Nested(cycle));
      ghost var inv := invariants;
      var invariant';
      ghost var up, down;
      invariant', x, up := Ascend(cycle, head, start);
      ghost var mid := invariants;
      x, down := Descend(cycle, head, invariant', x);
      FrameThen(inv, mid, invariants, k);
      run := CycleRun(cycle, fromEntry, inv, start, up, down, invariants);
      CycleRunIs(p, wto.components, wto.nesting, run, mid);
      if !failed {
        ImprovesFrom(p, mid, inv, invariants, k, loose);
        FrameFacts(inv, invariants, k);
        VisitedCycle(p, wto.components, wto.nesting, run);
      }
    }

    /** Processes a cycle: ascending iterations, then descending ones. */
    method ProcessCycle(cycle: WtoCycle) returns (ghost x: (Label, S) -> bool, ghost run: CycleRun<D>)
      requires Valid() && Walkable(p.graph, Nested(cycle)) && Occurs(wto.components, cycle)
      requires skip || !HeadedBy(Nested(cycle), ENTRY)
      modifies this
      ensures Valid() && Frame(old(invariants), invariants, LabelsOf(Nested(cycle))) && (old(failed) ==> failed) && old(loose) <= loose && old(rounds) <= rounds
      ensures old(skip) && ENTRY !in LabelsOf(Nested(cycle)) ==> skip && invariants == old(invariants) && failed == old(failed) && loose == old(loose) && rounds == old(rounds)
      ensures !old(skip) || ENTRY in LabelsOf(Nested(cycle)) ==>
        !skip && (!failed ==> Covers(p, invariants, LabelsOf(Nested(cycle)), x))
      ensures (!old(skip) || ENTRY in LabelsOf(Nested(cycle))) && !failed ==>
        Improves(p, old(invariants), invariants, LabelsOf(Nested(cycle)), loose, false)
      ensures !old(skip) || ENTRY in LabelsOf(Nested(cycle)) ==>
        run.cycle == cycle && run.fromEntry == old(skip) && run.entry == old(invariants) && run.last == invariants
        && IsCycleRun(p, wto.components, wto.nesting, run)
      ensures (!old(skip) || ENTRY in LabelsOf(Nested(cycle))) && !failed ==>
        && (forall r :: r in run.down ==> r in rounds)
        && Visited(p, wto.components, wto.nesting, invariants, Nested(cycle))
      decreases cycle, 6
    {
      hide Covers, Sound, Frame, Flatten, Improves, Occurs, Blamed, FirstGuess, Visited, IsCycleRun, AllReported;
      x := (_, _) => false;
      run := CycleRun(cycle, skip, invariants, p.domain.bottom, [], [], invariants);
      var head := Head(cycle);
      HeadKnown(p.graph, cycle);
      FrameSame(invariants);
      FrameGrows(invariants, invariants, {}, LabelsOf(Nested(cycle)));
      WalkableHeaded(p.graph, Nested(cycle));
      var entryInThisCycle := false;
      if skip {
        entryInThisCycle := IsComponentMember(ENTRY, Nested(cycle));
        skip := !entryInThisCycle;
        if skip {
          return;
        }
      }
      EntryKnown(p);
      var invariant' := p.domain.bottom;
      if entryInThisCycle {
        invariant' := invariants[ENTRY].pre;
      } else {
        invariant' := JoinOutside(head);
      }
      x, run := RunCycle(cycle, head, invariant', entryInThisCycle);
    }
  }
}
