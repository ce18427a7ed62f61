/**
  What the iterator did at a cycle (src/fwd_analyzer.rs:350-432): the ascending rounds from the first guess, then
  the descending ones, each given what the one before called for; and what that makes of the invariants left.
*/
module FwdRuns {
  import opened Wrappers
  import opened Graph
  import opened WtoTree
  import opened WtoShape
  import opened WtoQuery
  import opened WtoSiblings
  import opened FwdDomain
  import opened FwdCover
  import opened FwdOrder
  import opened FwdRounds

  const WIDENING_DELAY := 2
  const DESCENDING_ITERATIONS := 2_000_000

  // ------------------------------------------------------------------ the first guess

  /** A predecessor whose nesting does not strictly extend the head's. */
  ghost predicate Outside<D, S, A>(p: Program<D, S, A>, nesting: map<Label, seq<Label>>, inv: InvariantMap<D>, head: Label, u: Label) {
    u in inv && u in nesting && head in nesting && Edge(p.graph, u, head) && !Extends(nesting[u], nesting[head])
  }

  /** A value above what every predecessor that is left hands on. */
  ghost predicate AboveOutside<D(!new), S(!new), A(!new)>(p: Program<D, S, A>, nesting: map<Label, seq<Label>>, inv: InvariantMap<D>, head: Label, e: D) {
    forall u :: Outside(p, nesting, inv, head, u) ==> p.domain.leq(inv[u].post, e)
  }

  /**
    The join over the predecessors that are left: it covers what they hand on, on a lattice it is the least
    such value, and it is bottom if none is left.
  */
  ghost predicate FirstGuess<D(!new), S(!new), A(!new)>(p: Program<D, S, A>, nesting: map<Label, seq<Label>>, inv: InvariantMap<D>, head: Label, d: D) {
    && (forall u, s :: Outside(p, nesting, inv, head, u) && p.domain.mem(inv[u].post, s) ==> p.domain.mem(d, s))
    && (Ordered(p) ==> AboveOutside(p, nesting, inv, head, d))
    && (Ordered(p) ==> forall e :: AboveOutside(p, nesting, inv, head, e) ==> p.domain.leq(d, e))
    && ((forall u :: !Outside(p, nesting, inv, head, u)) ==> d == p.domain.bottom)
  }

  // ------------------------------------------------------------------ chains of rounds

  /** The invariants with a new value for the head. */
  ghost function Handed<D>(inv: InvariantMap<D>, h: Label, d: D): InvariantMap<D>
    requires h in inv
  {
    inv[h := inv[h].(pre := d)]
  }

  /** A round with the head in both maps. */
  ghost predicate HeadKept<D>(r: Round<D>) {
    HasHead(r.cycle) && Head(r.cycle) in r.before && Head(r.cycle) in r.after
  }

  /** What the round gave to the head. */
  ghost function Given<D>(r: Round<D>): D
    requires HeadKept(r)
  {
    r.before[Head(r.cycle)].pre
  }

  /** After the `n`th ascending round the head is given the join of both, or from the delay on their widening. */
  ghost predicate Climbs<D, S, A>(p: Program<D, S, A>, r: Round<D>, n: nat, next: InvariantMap<D>) {
    && HeadKept(r)
    && !p.domain.leq(r.returned, Given(r))
    && next == Handed(r.after, Head(r.cycle),
      if n < WIDENING_DELAY then p.domain.join(Given(r), r.returned) else p.domain.widen(Given(r), r.returned, n == WIDENING_DELAY))
  }

  /** The last ascending round returned no more than it was given, and the head takes what came back. */
  ghost predicate Arrives<D, S, A>(p: Program<D, S, A>, r: Round<D>, next: InvariantMap<D>) {
    && HeadKept(r)
    && p.domain.leq(r.returned, Given(r))
    && next == Handed(r.after, Head(r.cycle), r.returned)
  }

  /** The refined value: the meet the first time, then the narrowing. */
  ghost function RefinedBy<D, S, A>(p: Program<D, S, A>, r: Round<D>, n: nat): D
    requires HeadKept(r)
  {
    if n == 1 then p.domain.meet(Given(r), r.returned) else p.domain.narrow(Given(r), r.returned)
  }

  /** Nothing to refine, or no more turns left. */
  ghost predicate Exhausted<D, S, A>(p: Program<D, S, A>, r: Round<D>, n: nat) {
    HeadKept(r) && (p.domain.leq(Given(r), r.returned) || n > DESCENDING_ITERATIONS)
  }

  /** The `n`th descending round calls for another one. */
  ghost predicate Falls<D, S, A>(p: Program<D, S, A>, r: Round<D>, n: nat, next: InvariantMap<D>) {
    && HeadKept(r) && !Exhausted(p, r, n)
    && !p.domain.leq(Given(r), RefinedBy(p, r, n))
    && next == Handed(r.after, Head(r.cycle), RefinedBy(p, r, n))
  }

  /** The `n`th descending round is the last: the head keeps its value, or takes a refined one that is no progress. */
  ghost predicate Rests<D, S, A>(p: Program<D, S, A>, r: Round<D>, n: nat, next: InvariantMap<D>) {
    && HeadKept(r)
    && (if Exhausted(p, r, n) then next == r.after
        else p.domain.leq(Given(r), RefinedBy(p, r, n)) && next == Handed(r.after, Head(r.cycle), RefinedBy(p, r, n)))
  }

  /** From the `n`th round of a phase to the state the next one starts in. */
  ghost predicate Turn<D, S, A>(p: Program<D, S, A>, r: Round<D>, n: nat, next: InvariantMap<D>, down: bool) {
    if down then Falls(p, r, n, next) else Climbs(p, r, n, next)
  }

  /** Rounds of one cycle, the first from `first`, each next one as the one before calls for. */
  ghost predicate Chain<D(!new), S(!new), A(!new)>(p: Program<D, S, A>, order: seq<CycleOrLabel>, cycle: WtoCycle,
      first: InvariantMap<D>, rs: seq<Round<D>>, down: bool)
  {
    && (forall i :: 0 <= i < |rs| ==> rs[i].cycle == cycle && IsRound(p, order, rs[i]))
    && (rs != [] ==> rs[0].before == first)
    && forall i :: 0 <= i < |rs| - 1 ==> Turn(p, rs[i], i + 1, rs[i + 1].before, down)
  }

  /** `next` is where the chain goes on. */
  ghost predicate GoesOn<D(!new), S(!new), A(!new)>(p: Program<D, S, A>, order: seq<CycleOrLabel>, cycle: WtoCycle,
      first: InvariantMap<D>, rs: seq<Round<D>>, down: bool, next: InvariantMap<D>)
  {
    && Chain(p, order, cycle, first, rs, down)
    && if rs == [] then next == first else Turn(p, rs[|rs| - 1], |rs|, next, down)
  }

  lemma ChainGrows<D(!new), S(!new), A(!new)>(p: Program<D, S, A>, order: seq<CycleOrLabel>, cycle: WtoCycle,
      first: InvariantMap<D>, rs: seq<Round<D>>, down: bool, r: Round<D>)
    requires GoesOn(p, order, cycle, first, rs, down, r.before) && r.cycle == cycle && IsRound(p, order, r)
    ensures Chain(p, order, cycle, first, rs + [r], down)
  {
    hide IsRound, Turn;
    var rs' := rs + [r];
    forall i | 0 <= i < |rs'| - 1 ensures Turn(p, rs'[i], i + 1, rs'[i + 1].before, down) {
      if i < |rs| - 1 {
        assert Turn(p, rs[i], i + 1, rs[i + 1].before, down);
      }
    }
  }

  lemma ChainGoesOn<D(!new), S(!new), A(!new)>(p: Program<D, S, A>, order: seq<CycleOrLabel>, cycle: WtoCycle,
      first: InvariantMap<D>, rs: seq<Round<D>>, down: bool, next: InvariantMap<D>)
    requires Chain(p, order, cycle, first, rs, down) && rs != [] && Turn(p, rs[|rs| - 1], |rs|, next, down)
    ensures GoesOn(p, order, cycle, first, rs, down, next)
  {
  }

  lemma ChainStarts<D(!new), S(!new), A(!new)>(p: Program<D, S, A>, order: seq<CycleOrLabel>, cycle: WtoCycle, first: InvariantMap<D>, down: bool)
    ensures GoesOn(p, order, cycle, first, [], down, first)
  {
  }

  lemma RoundHeaded<D(!new), S(!new), A(!new)>(p: Program<D, S, A>, order: seq<CycleOrLabel>, r: Round<D>)
    requires IsRound(p, order, r)
    ensures HeadKept(r) && r.after[Head(r.cycle)].pre == Given(r)
    ensures r.after[Head(r.cycle)].error.None? ==> p.transform(Head(r.cycle), Given(r)) == Ok(r.after[Head(r.cycle)].post)
  {
  }

  // ------------------------------------------------------------------ one cycle

  /** What happened at a cycle from the state `entry` to the state `last`. */
  datatype CycleRun<+D> = CycleRun(
    cycle: WtoCycle,
    fromEntry: bool,
    entry: InvariantMap<D>,
    start: D,
    up: seq<Round<D>>,
    down: seq<Round<D>>,
    last: InvariantMap<D>)

  /** The ascending phase: from `start` up to a round that returns no more than it was given. */
  ghost predicate Ascent<D(!new), S(!new), A(!new)>(p: Program<D, S, A>, order: seq<CycleOrLabel>, cycle: WtoCycle,
      entry: InvariantMap<D>, start: D, up: seq<Round<D>>, top: InvariantMap<D>)
  {
    && HasHead(cycle) && Head(cycle) in entry && up != []
    && Chain(p, order, cycle, Handed(entry, Head(cycle), start), up, false)
    && Arrives(p, up[|up| - 1], top)
  }

  /** The descending phase. */
  ghost predicate Descent<D(!new), S(!new), A(!new)>(p: Program<D, S, A>, order: seq<CycleOrLabel>, cycle: WtoCycle,
      top: InvariantMap<D>, down: seq<Round<D>>, last: InvariantMap<D>)
  {
    && down != []
    && Chain(p, order, cycle, top, down, true)
    && Rests(p, down[|down| - 1], |down|, last)
  }

  /** The cycle was processed as it should be: first guess, ascent, descent. */
  ghost predicate IsCycleRun<D(!new), S(!new), A(!new)>(p: Program<D, S, A>, order: seq<CycleOrLabel>, nesting: map<Label, seq<Label>>, r: CycleRun<D>) {
    && HasHead(r.cycle)
    && (if r.fromEntry then ENTRY in r.entry && ENTRY in LabelsOf(Nested(r.cycle)) && r.start == r.entry[ENTRY].pre
        else FirstGuess(p, nesting, r.entry, Head(r.cycle), r.start))
    && exists top :: Ascent(p, order, r.cycle, r.entry, r.start, r.up, top) && Descent(p, order, r.cycle, top, r.down, r.last)
  }

  /** The meet is a lower bound of both its arguments. */
  ghost predicate LowerMeet<D(!new), S, A>(p: Program<D, S, A>) {
    forall a, b :: p.domain.leq(p.domain.meet(a, b), b)
  }

  /** The post-invariant is the transfer of something within the pre-invariant. */
  ghost predicate Fresh<D(!new), S(!new), A(!new)>(p: Program<D, S, A>, l: Label, pair: InvariantMapPair<D>) {
    exists d :: p.transform(l, d) == Ok(pair.post) && p.domain.leq(d, pair.pre)
  }

  /** After a descent without error the head's post-invariant is the transfer of something within its pre-invariant. */
  lemma DescentIsFresh<D(!new), S(!new), A(!new)>(p: Program<D, S, A>, order: seq<CycleOrLabel>, cycle: WtoCycle,
      top: InvariantMap<D>, down: seq<Round<D>>, last: InvariantMap<D>)
    requires Sound(p) && Descent(p, order, cycle, top, down, last)
    ensures HasHead(cycle) && Head(cycle) in last && (last[Head(cycle)].error.None? ==> Fresh(p, Head(cycle), last[Head(cycle)]))
  {
    hide Sound, IsRound;
    SelfLeq(p);
    var r := down[|down| - 1];
    assert r.cycle == cycle && IsRound(p, order, r);
    RoundHeaded(p, order, r);
    if last[Head(cycle)].error.None? {
      assert p.transform(Head(cycle), Given(r)) == Ok(last[Head(cycle)].post) && p.domain.leq(Given(r), last[Head(cycle)].pre);
    }
  }

  /** The rounds only lower the head: what is left is within what the first round returned. */
  lemma DescentIsBelow<D(!new), S(!new), A(!new)>(p: Program<D, S, A>, order: seq<CycleOrLabel>, cycle: WtoCycle,
      top: InvariantMap<D>, down: seq<Round<D>>, last: InvariantMap<D>)
    requires Sound(p) && Ordered(p) && LowerMeet(p) && Descent(p, order, cycle, top, down, last)
    ensures HasHead(cycle) && Head(cycle) in last && Head(cycle) in top
    ensures p.domain.leq(last[Head(cycle)].pre, down[0].returned)
    ensures p.domain.leq(last[Head(cycle)].pre, top[Head(cycle)].pre)
  {
    hide Sound, Ordered, IsRound, LowerMeet, Chain;
    var n := |down|;
    ChainParts(p, order, cycle, top, down, true, 0);
    ChainParts(p, order, cycle, top, down, true, n - 1);
    RoundHeaded(p, order, down[n - 1]);
    RoundHeaded(p, order, down[0]);
    SelfLeq(p);
    if n > 1 {
      ChainFalls(p, order, cycle, top, down, n - 1);
    }
    RefinedIsBelow(p, down[n - 1], n);
    if !Exhausted(p, down[n - 1], n) && n > 1 {
      Transitive(p, last[Head(cycle)].pre, Given(down[n - 1]), down[0].returned);
      Transitive(p, last[Head(cycle)].pre, Given(down[n - 1]), Given(down[0]));
    }
  }

  lemma ChainParts<D(!new), S(!new), A(!new)>(p: Program<D, S, A>, order: seq<CycleOrLabel>, cycle: WtoCycle,
      first: InvariantMap<D>, rs: seq<Round<D>>, down: bool, i: nat)
    requires Chain(p, order, cycle, first, rs, down) && i < |rs|
    ensures rs[i].cycle == cycle && IsRound(p, order, rs[i]) && rs[0].before == first
    ensures i > 0 ==> Turn(p, rs[i - 1], i, rs[i].before, down)
  {
    hide IsRound, Turn;
    if i > 0 {
      var j := i - 1;
      assert Turn(p, rs[j], j + 1, rs[j + 1].before, down);
    }
  }

  lemma RefinedIsBelow<D(!new), S(!new), A(!new)>(p: Program<D, S, A>, r: Round<D>, n: nat)
    requires Ordered(p) && LowerMeet(p) && HeadKept(r)
    ensures p.domain.leq(RefinedBy(p, r, n), Given(r))
    ensures n == 1 ==> p.domain.leq(RefinedBy(p, r, n), r.returned)
  {
  }

  lemma {:induction false} ChainFalls<D(!new), S(!new), A(!new)>(p: Program<D, S, A>, order: seq<CycleOrLabel>, cycle: WtoCycle,
      top: InvariantMap<D>, down: seq<Round<D>>, i: nat)
    requires Ordered(p) && LowerMeet(p) && Chain(p, order, cycle, top, down, true) && 0 < i < |down|
    ensures HeadKept(down[0]) && HeadKept(down[i])
    ensures p.domain.leq(Given(down[i]), down[0].returned) && p.domain.leq(Given(down[i]), Given(down[0]))
  {
    hide Ordered, IsRound, LowerMeet, Chain;
    ChainParts(p, order, cycle, top, down, true, 0);
    ChainParts(p, order, cycle, top, down, true, i - 1);
    ChainParts(p, order, cycle, top, down, true, i);
    RoundHeaded(p, order, down[0]);
    RoundHeaded(p, order, down[i]);
    RefinedIsBelow(p, down[i - 1], i);
    if i > 1 {
      ChainFalls(p, order, cycle, top, down, i - 1);
      Transitive(p, Given(down[i]), Given(down[i - 1]), down[0].returned);
      Transitive(p, Given(down[i]), Given(down[i - 1]), Given(down[0]));
    }
  }

  /**
    What an ascent gives to the head: first the start, then once the join of that with what came back, on a
    lattice the least value above both; after that widenings, the first of them with thresholds.
  */
  lemma AscentSchedule<D(!new), S(!new), A(!new)>(p: Program<D, S, A>, order: seq<CycleOrLabel>, cycle: WtoCycle,
      entry: InvariantMap<D>, start: D, up: seq<Round<D>>, top: InvariantMap<D>, i: nat)
    requires Ascent(p, order, cycle, entry, start, up, top) && i < |up|
    ensures HeadKept(up[i]) && (i > 0 ==> HeadKept(up[i - 1]))
    ensures i == 0 ==> Given(up[i]) == start
    ensures i == 1 ==> Given(up[i]) == p.domain.join(start, up[0].returned)
    ensures i == 1 && Ordered(p) ==>
      p.domain.leq(start, Given(up[i])) && p.domain.leq(up[0].returned, Given(up[i]))
      && forall c :: p.domain.leq(start, c) && p.domain.leq(up[0].returned, c) ==> p.domain.leq(Given(up[i]), c)
    ensures i > 1 ==> Given(up[i]) == p.domain.widen(Given(up[i - 1]), up[i - 1].returned, i == 2)
    ensures p.domain.leq(up[i].returned, Given(up[i])) <==> i == |up| - 1
  {
    hide Ordered, Chain, IsRound;
    var first := Handed(entry, Head(cycle), start);
    ChainParts(p, order, cycle, first, up, false, i);
    RoundHeaded(p, order, up[i]);
    if i > 0 {
      ChainParts(p, order, cycle, first, up, false, i - 1);
      RoundHeaded(p, order, up[i - 1]);
    }
    if i < |up| - 1 {
      ChainParts(p, order, cycle, first, up, false, i + 1);
    }
    if Ordered(p) && i == 1 {
      JoinAbove(p, start, up[0].returned);
    }
  }

  /**
    When a descent ends: as much came back as was given, the turns are used up, or refining what was given by
    what came back makes no progress, which is the meet after the first round and the narrowing after the others.
  */
  lemma DescentEnds<D(!new), S(!new), A(!new)>(p: Program<D, S, A>, order: seq<CycleOrLabel>, cycle: WtoCycle,
      top: InvariantMap<D>, down: seq<Round<D>>, last: InvariantMap<D>)
    requires Descent(p, order, cycle, top, down, last)
    ensures var r := down[|down| - 1];
      HeadKept(r)
      && (p.domain.leq(Given(r), r.returned) || |down| > 2_000_000
        || (|down| == 1 && p.domain.leq(Given(r), p.domain.meet(Given(r), r.returned)))
        || (|down| > 1 && p.domain.leq(Given(r), p.domain.narrow(Given(r), r.returned))))
  {
    hide Chain;
  }

  /** What the next round is given, if there is one. */
  lemma DescentSchedule<D(!new), S(!new), A(!new)>(p: Program<D, S, A>, order: seq<CycleOrLabel>, cycle: WtoCycle,
      top: InvariantMap<D>, down: seq<Round<D>>, last: InvariantMap<D>, i: nat)
    requires Descent(p, order, cycle, top, down, last) && 0 < i < |down|
    ensures HeadKept(down[i - 1]) && HeadKept(down[i])
    ensures !p.domain.leq(Given(down[i - 1]), down[i - 1].returned) && !p.domain.leq(Given(down[i - 1]), Given(down[i]))
    ensures i == 1 ==> Given(down[i]) == p.domain.meet(Given(down[0]), down[0].returned)
    ensures i > 1 ==> Given(down[i]) == p.domain.narrow(Given(down[i - 1]), down[i - 1].returned)
  {
    hide Chain, IsRound;
    ChainParts(p, order, cycle, top, down, true, i - 1);
    ChainParts(p, order, cycle, top, down, true, i);
    RoundHeaded(p, order, down[i - 1]);
    RoundHeaded(p, order, down[i]);
  }

  // ------------------------------------------------------------------ what a visit leaves

  /** A vertex that heads no cycle: its pre-invariant is the join of its parents, its post-invariant the transfer of it. */
  ghost predicate Tight<D(!new), S(!new), A(!new)>(p: Program<D, S, A>, inv: InvariantMap<D>, l: Label) {
    && l in inv
    && p.transform(l, inv[l].pre) == Ok(inv[l].post)
    && Gathers(p, inv, l, inv[l].pre)
    && (Ordered(p) ==> Least(p, inv, l, inv[l].pre))
  }

  /** A run of the cycle ends with what `inv` holds at its head. */
  ghost predicate EndsIn<D(!new), S(!new), A(!new)>(p: Program<D, S, A>, order: seq<CycleOrLabel>, nesting: map<Label, seq<Label>>, r: CycleRun<D>, inv: InvariantMap<D>, w: WtoCycle)
    requires HasHead(w) && Head(w) in inv
  {
    IsCycleRun(p, order, nesting, r) && r.cycle == w && Head(w) in r.last && r.last[Head(w)] == inv[Head(w)]
  }

  /** The head of the cycle holds what a run of the cycle ended with. */
  ghost predicate Ran<D(!new), S(!new), A(!new)>(p: Program<D, S, A>, order: seq<CycleOrLabel>, nesting: map<Label, seq<Label>>, inv: InvariantMap<D>, w: WtoCycle) {
    HasHead(w) && Head(w) in inv && exists r :: EndsIn(p, order, nesting, r, inv, w)
  }

  ghost predicate HeadIn(c: CycleOrLabel, l: Label) {
    exists w :: OccursOne(c, w) && HasHead(w) && Head(w) == l
  }

  /** What visiting a component leaves: vertices that are tight, and heads whose cycles were run. */
  ghost predicate Visited<D(!new), S(!new), A(!new)>(p: Program<D, S, A>, order: seq<CycleOrLabel>, nesting: map<Label, seq<Label>>, inv: InvariantMap<D>, c: CycleOrLabel) {
    && (forall l :: l in LabelsOf(c) ==> Tight(p, inv, l) || HeadIn(c, l))
    && (forall w :: OccursOne(c, w) ==> Ran(p, order, nesting, inv, w) && Head(w) in LabelsOf(c))
  }

  /** So for the components `cs[lo..lim]`. */
  ghost predicate AllVisited<D(!new), S(!new), A(!new)>(p: Program<D, S, A>, order: seq<CycleOrLabel>, nesting: map<Label, seq<Label>>, inv: InvariantMap<D>,
      cs: seq<CycleOrLabel>, lo: nat, lim: nat)
    requires lo <= lim <= |cs|
  {
    forall i :: lo <= i < lim ==> Visited(p, order, nesting, inv, cs[i])
  }

  /** Only labels of `k` changed, and the entry kept its pre-invariant. */
  ghost predicate Frame<D>(inv: InvariantMap<D>, inv': InvariantMap<D>, k: set<Label>) {
    && inv'.Keys == inv.Keys
    && (forall l :: l in inv && l !in k ==> inv'[l] == inv[l])
    && (ENTRY in inv ==> inv'[ENTRY].pre == inv[ENTRY].pre)
  }

  lemma TightKept<D(!new), S(!new), A(!new)>(p: Program<D, S, A>, inv: InvariantMap<D>, inv': InvariantMap<D>, k: set<Label>, l: Label)
    requires Tight(p, inv, l) && Frame(inv, inv', k) && l !in k && forall u :: u in k ==> !Edge(p.graph, u, l)
    ensures Tight(p, inv', l)
  {
    hide Ordered, Edge;
    if Ordered(p) {
      forall d ensures Under(p, inv, l, d) <==> Under(p, inv', l, d) {
      }
    }
  }

  /** New pre-invariants elsewhere do not matter either. */
  lemma TightHanded<D(!new), S(!new), A(!new)>(p: Program<D, S, A>, inv: InvariantMap<D>, h: Label, d: D, l: Label)
    requires Tight(p, inv, l) && h in inv && l != h && (h == ENTRY ==> d == inv[ENTRY].pre)
    ensures Tight(p, Handed(inv, h, d), l)
  {
    hide Ordered, Edge;
    if Ordered(p) {
      forall e ensures Under(p, inv, l, e) <==> Under(p, Handed(inv, h, d), l, e) {
      }
    }
  }

  lemma VisitedKept<D(!new), S(!new), A(!new)>(p: Program<D, S, A>, order: seq<CycleOrLabel>, nesting: map<Label, seq<Label>>, inv: InvariantMap<D>,
      inv': InvariantMap<D>, k: set<Label>, c: CycleOrLabel)
    requires Visited(p, order, nesting, inv, c) && Frame(inv, inv', k) && LabelsOf(c) !! k
    requires forall u, v :: u in k && v in LabelsOf(c) ==> !Edge(p.graph, u, v)
    ensures Visited(p, order, nesting, inv', c)
  {
    hide Tight, LabelsOf, OccursOne, HeadIn, IsCycleRun, Edge;
    forall l | l in LabelsOf(c) && Tight(p, inv, l) ensures Tight(p, inv', l) {
      TightKept(p, inv, inv', k, l);
    }
    forall w | OccursOne(c, w) ensures Ran(p, order, nesting, inv', w) {
      assert Ran(p, order, nesting, inv, w) && Head(w) in LabelsOf(c);
      var r :| EndsIn(p, order, nesting, r, inv, w);
      assert EndsIn(p, order, nesting, r, inv', w);
    }
  }

  lemma VisitedHanded<D(!new), S(!new), A(!new)>(p: Program<D, S, A>, order: seq<CycleOrLabel>, nesting: map<Label, seq<Label>>, inv: InvariantMap<D>,
      h: Label, d: D, c: CycleOrLabel)
    requires Visited(p, order, nesting, inv, c) && h in inv && h !in LabelsOf(c) && (h == ENTRY ==> d == inv[ENTRY].pre)
    ensures Visited(p, order, nesting, Handed(inv, h, d), c)
  {
    hide Tight, LabelsOf, OccursOne, HeadIn, IsCycleRun;
    forall l | l in LabelsOf(c) && Tight(p, inv, l) ensures Tight(p, Handed(inv, h, d), l) {
      TightHanded(p, inv, h, d, l);
    }
    forall w | OccursOne(c, w) ensures Ran(p, order, nesting, Handed(inv, h, d), w) {
      assert Ran(p, order, nesting, inv, w) && Head(w) in LabelsOf(c);
      var r :| EndsIn(p, order, nesting, r, inv, w);
      assert EndsIn(p, order, nesting, r, Handed(inv, h, d), w);
    }
  }

  lemma VisitedNode<D(!new), S(!new), A(!new)>(p: Program<D, S, A>, order: seq<CycleOrLabel>, nesting: map<Label, seq<Label>>, inv: InvariantMap<D>, l: Label)
    requires Tight(p, inv, l)
    ensures Visited(p, order, nesting, inv, Node(l))
  {
    hide Tight;
  }

  /** A cycle whose body has been visited and whose run ends in the invariants at hand. */
  lemma VisitedCycle<D(!new), S(!new), A(!new)>(p: Program<D, S, A>, order: seq<CycleOrLabel>, nesting: map<Label, seq<Label>>, r: CycleRun<D>)
    requires IsCycleRun(p, order, nesting, r) && Head(r.cycle) in r.last
    requires AllVisited(p, order, nesting, r.last, r.cycle.components, 0, |r.cycle.components| - 1)
    ensures Visited(p, order, nesting, r.last, Nested(r.cycle))
  {
    hide Tight, IsCycleRun, EndsIn;
    RunHasHead(p, order, nesting, r);
    var cs, n := r.cycle.components, |r.cycle.components| - 1;
    var c := Nested(r.cycle);
    assert OccursOne(c, r.cycle);
    assert Ran(p, order, nesting, r.last, r.cycle) by { RanSelf(p, order, nesting, r); }
    forall l | l in LabelsOf(c) ensures Tight(p, r.last, l) || HeadIn(c, l) {
      FlattenIsHeld(l, cs);
      var i :| 0 <= i < |cs| && l in FlattenOne(cs[i]);
      if i < n {
        assert Visited(p, order, nesting, r.last, cs[i]) && l in LabelsOf(cs[i]);
        if !Tight(p, r.last, l) {
          HeadDeeper(cs, i, r.cycle, l);
        }
      }
    }
    forall w | OccursOne(c, w) ensures Ran(p, order, nesting, r.last, w) && HasHead(w) && Head(w) in LabelsOf(c) {
      if w == r.cycle {
        FlattenIsHeld(Head(w), cs);
        assert Head(w) in FlattenOne(cs[n]);
      } else {
        InnerVisited(p, order, nesting, r.last, r.cycle, w);
      }
    }
  }

  lemma InnerVisited<D(!new), S(!new), A(!new)>(p: Program<D, S, A>, order: seq<CycleOrLabel>, nesting: map<Label, seq<Label>>, inv: InvariantMap<D>, v: WtoCycle, w: WtoCycle)
    requires HasHead(v) && OccursOne(Nested(v), w) && w != v
    requires AllVisited(p, order, nesting, inv, v.components, 0, |v.components| - 1)
    ensures Ran(p, order, nesting, inv, w) && HasHead(w) && Head(w) in LabelsOf(Nested(v))
  {
    hide Tight, EndsIn;
    var cs := v.components;
    assert Occurs(cs, w);
    var i :| 0 <= i < |cs| && OccursOne(cs[i], w);
    assert Visited(p, order, nesting, inv, cs[i]);
    FlattenIsHeld(Head(w), cs);
  }

  lemma RunHasHead<D(!new), S(!new), A(!new)>(p: Program<D, S, A>, order: seq<CycleOrLabel>, nesting: map<Label, seq<Label>>, r: CycleRun<D>)
    requires IsCycleRun(p, order, nesting, r)
    ensures HasHead(r.cycle)
  {
  }

  lemma RanSelf<D(!new), S(!new), A(!new)>(p: Program<D, S, A>, order: seq<CycleOrLabel>, nesting: map<Label, seq<Label>>, r: CycleRun<D>)
    requires IsCycleRun(p, order, nesting, r) && HasHead(r.cycle) && Head(r.cycle) in r.last
    ensures Ran(p, order, nesting, r.last, r.cycle)
  {
    hide IsCycleRun;
    assert EndsIn(p, order, nesting, r, r.last, r.cycle);
  }

  lemma HeadDeeper(cs: seq<CycleOrLabel>, i: nat, w: WtoCycle, l: Label)
    requires i < |cs| && w.components == cs && HeadIn(cs[i], l)
    ensures HeadIn(Nested(w), l)
  {
    var v :| OccursOne(cs[i], v) && HasHead(v) && Head(v) == l;
    assert Occurs(cs, v);
    assert OccursOne(Nested(w), v);
  }

  // ------------------------------------------------------------------ what that says of the result

  /**
    What is left at every label the ordering holds. Every post-invariant is the transfer of something
    within its pre-invariant; a label that heads no cycle holds the join of its parents; and a head, where
    meets are lower bounds, no more than the first descending round of its cycle returned.
  */
  lemma VisitedMeans<D(!new), S(!new), A(!new)>(p: Program<D, S, A>, order: seq<CycleOrLabel>, nesting: map<Label, seq<Label>>, inv: InvariantMap<D>, c: CycleOrLabel, l: Label)
    requires Sound(p) && Visited(p, order, nesting, inv, c) && l in LabelsOf(c) && (l in inv ==> inv[l].error.None?)
    ensures l in inv && Fresh(p, l, inv[l])
    ensures !HeadIn(c, l) ==> Tight(p, inv, l)
  {
    hide LabelsOf, OccursOne, IsCycleRun, FirstGuess, Sound, Gathers, Least, Ordered;
    if Tight(p, inv, l) {
      SelfLeq(p);
    } else {
      var w :| OccursOne(c, w) && HasHead(w) && Head(w) == l;
      RanIsFresh(p, order, nesting, inv, w);
    }
  }

  lemma RanIsFresh<D(!new), S(!new), A(!new)>(p: Program<D, S, A>, order: seq<CycleOrLabel>, nesting: map<Label, seq<Label>>, inv: InvariantMap<D>, w: WtoCycle)
    requires Sound(p) && Ran(p, order, nesting, inv, w) && inv[Head(w)].error.None?
    ensures Fresh(p, Head(w), inv[Head(w)])
  {
    hide Sound, Ascent, Descent, FirstGuess;
    var r :| EndsIn(p, order, nesting, r, inv, w);
    var top :| Ascent(p, order, r.cycle, r.entry, r.start, r.up, top) && Descent(p, order, r.cycle, top, r.down, r.last);
    DescentIsFresh(p, order, w, top, r.down, r.last);
  }

  lemma RanIsBelow<D(!new), S(!new), A(!new)>(p: Program<D, S, A>, order: seq<CycleOrLabel>, nesting: map<Label, seq<Label>>, r: CycleRun<D>)
    requires Sound(p) && Ordered(p) && LowerMeet(p) && IsCycleRun(p, order, nesting, r)
    ensures Head(r.cycle) in r.last && r.down != [] && p.domain.leq(r.last[Head(r.cycle)].pre, r.down[0].returned)
  {
    hide Sound, Ordered, LowerMeet, Ascent, Descent, FirstGuess;
    var top :| Ascent(p, order, r.cycle, r.entry, r.start, r.up, top) && Descent(p, order, r.cycle, top, r.down, r.last);
    DescentNotEmpty(p, order, r.cycle, top, r.down, r.last);
    DescentIsBelow(p, order, r.cycle, top, r.down, r.last);
  }

  lemma DescentNotEmpty<D(!new), S(!new), A(!new)>(p: Program<D, S, A>, order: seq<CycleOrLabel>, cycle: WtoCycle,
      top: InvariantMap<D>, down: seq<Round<D>>, last: InvariantMap<D>)
    requires Descent(p, order, cycle, top, down, last)
    ensures down != []
  {
  }
}
