/**
  What a client that walks the ordering relies on: components visited later never point back into
  earlier ones, except to the head of a cycle around them.
*/
module WtoShape {
  import opened Wrappers
  import opened Graph
  import opened WtoOrder
  import opened WtoTree
  import opened Wto

  ghost function LabelsOf(c: CycleOrLabel): set<Label> {
    set l | l in FlattenOne(c)
  }

  ghost function LabelsIn(cs: seq<CycleOrLabel>): set<Label> {
    set l | l in Flatten(cs)
  }

  /** No edge from a component visited later into one visited earlier; `lim` shuts out a cycle's own head. */
  ghost predicate NoBackEdges(g: Neighbours, cs: seq<CycleOrLabel>, lim: nat)
    requires lim <= |cs|
  {
    && (forall i, j, u, v :: 0 <= i < j < lim && u in LabelsOf(cs[i]) && v in LabelsOf(cs[j]) ==> !Edge(g, u, v))
    && (forall i :: 0 <= i < lim ==> NoSelfEdge(g, cs[i]))
  }

  /** A vertex that stands alone has no edge to itself. */
  ghost predicate NoSelfEdge(g: Neighbours, c: CycleOrLabel) {
    c.Node? ==> !Edge(g, c.node, c.node)
  }

  ghost predicate Apart(cs: seq<CycleOrLabel>) {
    forall i, j :: 0 <= i < j < |cs| ==> LabelsOf(cs[i]) !! LabelsOf(cs[j])
  }

  /** A component that can be walked: nested cycles start with a head and have no backward edges but to it. */
  ghost predicate Walkable(g: Neighbours, c: CycleOrLabel) {
    match c
    case Node(l) => l in g
    case Nested(w) =>
      && HasHead(w)
      && Apart(w.components)
      && NoBackEdges(g, w.components, |w.components| - 1)
      && forall i :: 0 <= i < |w.components| ==> Walkable(g, w.components[i]) && !HeadedBy(w.components[i], ENTRY)
  }

  ghost predicate HeadedBy(c: CycleOrLabel, h: Label) {
    c.Nested? && HasHead(c.cycle) && Head(c.cycle) == h
  }

  ghost predicate AllWalkable(g: Neighbours, cs: seq<CycleOrLabel>) {
    && Apart(cs)
    && NoBackEdges(g, cs, |cs|)
    && forall i :: 0 <= i < |cs| ==> Walkable(g, cs[i]) && !HeadedBy(cs[i], ENTRY)
  }

  // ------------------------------------------------------------------ distinct labels

  lemma {:induction false} FlattenSplit(cs: seq<CycleOrLabel>, k: nat)
    requires k <= |cs|
    ensures Flatten(cs) == Flatten(cs[..k]) + Flatten(cs[k..])
    decreases |cs|
  {
    if k < |cs| {
      var init := cs[..|cs| - 1];
      FlattenSplit(init, k);
      assert init[..k] == cs[..k];
      assert init[k..] == cs[k..][..|cs| - k - 1];
      assert cs[k..][|cs| - k - 1] == cs[|cs| - 1];
    } else {
      assert cs[..k] == cs && cs[k..] == [];
    }
  }

  /** One component's labels as a stretch of the whole. */
  lemma FlattenAround(cs: seq<CycleOrLabel>, i: nat)
    requires i < |cs|
    ensures Flatten(cs) == Flatten(cs[..i]) + FlattenOne(cs[i]) + Flatten(cs[i + 1..])
  {
    FlattenSplit(cs, i + 1);
    assert cs[..i + 1][..i] == cs[..i];
  }

  lemma DistinctParts<T>(a: seq<T>, b: seq<T>, c: seq<T>)
    requires forall i, j :: 0 <= i < j < |a + b + c| ==> (a + b + c)[i] != (a + b + c)[j]
    ensures forall i, j :: 0 <= i < j < |b| ==> b[i] != b[j]
    ensures forall x :: x in b ==> x !in a && x !in c
  {
    var s := a + b + c;
    forall i | 0 <= i < |a| ensures s[i] == a[i] {}
    forall i | 0 <= i < |b| ensures s[|a| + i] == b[i] {}
    forall i | 0 <= i < |c| ensures s[|a| + |b| + i] == c[i] {}
  }

  lemma {:induction false} HeldByPrefix(cs: seq<CycleOrLabel>, j: nat, l: Label)
    requires j < |cs| && l in FlattenOne(cs[j])
    ensures l in Flatten(cs)
  {
    FlattenAround(cs, j);
  }

  lemma ComponentsApart(cs: seq<CycleOrLabel>, i: nat, j: nat, l: Label)
    requires Distinct(Flatten(cs)) && i < |cs| && j < |cs| && i != j
    requires l in FlattenOne(cs[i])
    ensures l !in FlattenOne(cs[j])
  {
    FlattenAround(cs, i);
    DistinctParts(Flatten(cs[..i]), FlattenOne(cs[i]), Flatten(cs[i + 1..]));
    if l in FlattenOne(cs[j]) {
      if j < i {
        HeldByPrefix(cs[..i], j, l);
      } else {
        HeldByPrefix(cs[i + 1..], j - i - 1, l);
      }
    }
  }

  lemma DistinctOne(cs: seq<CycleOrLabel>, i: nat)
    requires Distinct(Flatten(cs)) && i < |cs|
    ensures Distinct(FlattenOne(cs[i]))
  {
    FlattenAround(cs, i);
    DistinctParts(Flatten(cs[..i]), FlattenOne(cs[i]), Flatten(cs[i + 1..]));
  }

  // ------------------------------------------------------------------ edges, level by level

  /** In storage order, `v` stands before `u`. */
  ghost predicate Earlier(s: seq<Label>, v: Label, u: Label) {
    exists i, j :: 0 <= i < j < |s| && s[i] == v && s[j] == u
  }

  /** Edges between labels of `cs` respect the storage order, or lead to a head around their source, or to `h`. */
  ghost predicate Respects(g: Neighbours, cs: seq<CycleOrLabel>, h: Option<Label>) {
    forall u, v :: u in Flatten(cs) && v in Flatten(cs) && Edge(g, u, v) && h != Some(v) ==>
      Earlier(Flatten(cs), v, u) || HeadsCycleOf(cs, v, u)
  }

  /** Where the parts of a + b + c stand. */
  lemma PartsAt<T>(a: seq<T>, b: seq<T>, c: seq<T>)
    ensures forall i :: 0 <= i < |a| ==> (a + b + c)[i] == a[i]
    ensures forall i :: |a| <= i < |a| + |b| ==> (a + b + c)[i] == b[i - |a|]
    ensures forall i :: |a| + |b| <= i < |a + b + c| ==> (a + b + c)[i] == c[i - |a| - |b|]
  {
  }

  lemma EarlierInside(a: seq<Label>, b: seq<Label>, c: seq<Label>, v: Label, u: Label)
    requires Distinct(a + b + c) && u in b && v in b && Earlier(a + b + c, v, u)
    ensures Earlier(b, v, u)
  {
    var s := a + b + c;
    var i, j :| 0 <= i < j < |s| && s[i] == v && s[j] == u;
    DistinctParts(a, b, c);
    PartsAt(a, b, c);
    assert |a| <= i && j < |a| + |b|;
    assert b[i - |a|] == v && b[j - |a|] == u;
  }

  /** With distinct elements the first part comes first. */
  lemma FirstPartFirst(a: seq<Label>, b: seq<Label>, u: Label, v: Label)
    requires Distinct(a + b) && u in a && v in b
    ensures !Earlier(a + b, v, u)
  {
    var s := a + b;
    var p :| 0 <= p < |a| && a[p] == u;
    var q :| 0 <= q < |b| && b[q] == v;
    assert s[p] == u && s[|a| + q] == v;
    forall x, y | 0 <= x < y < |s| && s[x] == v ensures s[y] != u {
      assert x == |a| + q;
    }
  }

  lemma NotEarlier(cs: seq<CycleOrLabel>, i: nat, j: nat, u: Label, v: Label)
    requires Distinct(Flatten(cs)) && i < j < |cs| && u in FlattenOne(cs[i]) && v in FlattenOne(cs[j])
    ensures !Earlier(Flatten(cs), v, u)
  {
    hide Flatten, FlattenOne, Distinct, Earlier;
    FlattenSplit(cs, j);
    HeldByPrefix(cs[..j], i, u);
    HeldByPrefix(cs[j..], 0, v);
    FirstPartFirst(Flatten(cs[..j]), Flatten(cs[j..]), u, v);
  }

  /** The component that a cycle holding `u` stands in is the one that holds `u`. */
  lemma CycleStandsIn(cs: seq<CycleOrLabel>, i: nat, w: WtoCycle, u: Label)
    requires Distinct(Flatten(cs)) && Occurs(cs, w) && i < |cs| && u in FlattenOne(cs[i]) && u in Flatten(w.components)
    ensures OccursOne(cs[i], w)
  {
    var k :| 0 <= k < |cs| && OccursOne(cs[k], w);
    OccursHolds(cs[k], w, u);
    if k != i {
      ComponentsApart(cs, k, i, u);
    }
  }

  lemma {:induction false} OccursHolds(c: CycleOrLabel, w: WtoCycle, u: Label)
    requires OccursOne(c, w) && u in Flatten(w.components)
    ensures u in FlattenOne(c)
  {
    var cs := c.cycle.components;
    if c.cycle != w {
      var k :| 0 <= k < |cs| && OccursOne(cs[k], w);
      OccursHolds(cs[k], w, u);
      HeldByPrefix(cs, k, u);
    }
  }

  lemma HeadIsHeld(w: WtoCycle)
    requires HasHead(w)
    ensures Head(w) in Flatten(w.components)
  {
    HeldByPrefix(w.components, |w.components| - 1, Head(w));
  }

  lemma LevelHasNoBackEdges(g: Neighbours, cs: seq<CycleOrLabel>, h: Option<Label>, lim: nat)
    requires Distinct(Flatten(cs)) && Respects(g, cs, h) && lim <= |cs|
    requires h.Some? ==> lim == |cs| - 1 && cs[lim] == Node(h.value)
    ensures NoBackEdges(g, cs, lim)
  {
    hide Flatten, FlattenOne, Earlier, Occurs, Distinct, Respects;
    forall i, j, u, v | 0 <= i < j < lim && u in LabelsOf(cs[i]) && v in LabelsOf(cs[j])
      ensures !Edge(g, u, v)
    {
      NotBack(g, cs, h, lim, i, j, u, v);
    }
    forall i | 0 <= i < lim ensures NoSelfEdge(g, cs[i]) {
      if cs[i].Node? {
        NotSelf(g, cs, h, lim, i);
      }
    }
  }

  lemma NotSelf(g: Neighbours, cs: seq<CycleOrLabel>, h: Option<Label>, lim: nat, i: nat)
    requires Distinct(Flatten(cs)) && Respects(g, cs, h) && lim <= |cs|
    requires h.Some? ==> lim == |cs| - 1 && cs[lim] == Node(h.value)
    requires i < lim && cs[i].Node?
    ensures !Edge(g, cs[i].node, cs[i].node)
  {
    hide Flatten, Earlier, Occurs, Distinct, OccursOne, HeadsCycleOf;
    var l := cs[i].node;
    HeldByPrefix(cs, i, l);
    NotEarlierSelf(Flatten(cs), l);
    NodeHeadsNothing(cs, i);
    if h.Some? {
      ComponentsApart(cs, i, lim, l);
    }
  }

  lemma NotEarlierSelf(s: seq<Label>, l: Label)
    requires Distinct(s)
    ensures !Earlier(s, l, l)
  {
  }

  /** A vertex that is a component by itself heads no cycle. */
  lemma NodeHeadsNothing(cs: seq<CycleOrLabel>, i: nat)
    requires Distinct(Flatten(cs)) && i < |cs| && cs[i].Node?
    ensures !HeadsCycleOf(cs, cs[i].node, cs[i].node)
  {
    hide Flatten, Occurs, Distinct;
    forall w | Occurs(cs, w) ensures cs[i].node !in Flatten(w.components) {
      if cs[i].node in Flatten(w.components) {
        CycleStandsIn(cs, i, w, cs[i].node);
      }
    }
  }

  lemma NotBack(g: Neighbours, cs: seq<CycleOrLabel>, h: Option<Label>, lim: nat, i: nat, j: nat, u: Label, v: Label)
    requires Distinct(Flatten(cs)) && Respects(g, cs, h) && lim <= |cs|
    requires h.Some? ==> lim == |cs| - 1 && cs[lim] == Node(h.value)
    requires i < j < lim && u in FlattenOne(cs[i]) && v in FlattenOne(cs[j])
    ensures !Edge(g, u, v)
  {
    hide Flatten, Earlier, Occurs, Distinct, OccursOne, HeadsCycleOf;
    HeldByPrefix(cs, i, u);
    HeldByPrefix(cs, j, v);
    NotEarlier(cs, i, j, u, v);
    NotHead(cs, i, j, u, v);
    if h.Some? {
      ComponentsApart(cs, j, lim, v);
    }
  }

  /** A label of a later component heads no cycle around a label of an earlier one. */
  lemma NotHead(cs: seq<CycleOrLabel>, i: nat, j: nat, u: Label, v: Label)
    requires Distinct(Flatten(cs)) && i < j < |cs| && u in FlattenOne(cs[i]) && v in FlattenOne(cs[j])
    ensures !HeadsCycleOf(cs, v, u)
  {
    hide Flatten, Occurs, Distinct, OccursOne;
    ComponentsApart(cs, j, i, v);
    forall w | Occurs(cs, w) && HasHead(w) && u in Flatten(w.components) ensures Head(w) != v {
      HeadIsHeld(w);
      CycleStandsIn(cs, i, w, u);
      OccursHolds(cs[i], w, Head(w));
    }
  }

  /** The property passes to the inside of a nested cycle. */
  lemma RespectsInside(g: Neighbours, cs: seq<CycleOrLabel>, h: Option<Label>, i: nat)
    requires Distinct(Flatten(cs)) && Respects(g, cs, h) && i < |cs| && cs[i].Nested? && HasHead(cs[i].cycle)
    requires h.Some? ==> cs[|cs| - 1] == Node(h.value)
    ensures Respects(g, cs[i].cycle.components, Some(Head(cs[i].cycle)))
  {
    hide Flatten, Earlier, Occurs, Distinct, OccursOne, HeadsCycleOf;
    var c := cs[i].cycle;
    forall u, v | u in Flatten(c.components) && v in Flatten(c.components) && Edge(g, u, v) && v != Head(c)
      ensures Earlier(Flatten(c.components), v, u) || HeadsCycleOf(c.components, v, u)
    {
      HeldByPrefix(cs, i, u);
      HeldByPrefix(cs, i, v);
      if h == Some(v) {
        ComponentsApart(cs, i, |cs| - 1, v);
      }
      FlattenAround(cs, i);
      if Earlier(Flatten(cs), v, u) {
        EarlierInside(Flatten(cs[..i]), Flatten(c.components), Flatten(cs[i + 1..]), v, u);
      } else {
        HeadInside(cs, i, u, v);
      }
    }
  }

  lemma HeadInside(cs: seq<CycleOrLabel>, i: nat, u: Label, v: Label)
    requires Distinct(Flatten(cs)) && i < |cs| && cs[i].Nested? && HasHead(cs[i].cycle) && v != Head(cs[i].cycle)
    requires u in FlattenOne(cs[i]) && HeadsCycleOf(cs, v, u)
    ensures HeadsCycleOf(cs[i].cycle.components, v, u)
  {
    hide Flatten, Distinct, FlattenOne;
    var w :| Occurs(cs, w) && HasHead(w) && Head(w) == v && u in Flatten(w.components);
    CycleStandsIn(cs, i, w, u);
    assert w == cs[i].cycle || Occurs(cs[i].cycle.components, w);
  }

  // ------------------------------------------------------------------ the whole tree

  /** What holds of every cycle of the tree, in a form that passes to subtrees. */
  ghost predicate GoodCycles(cs: seq<CycleOrLabel>) {
    forall w :: Occurs(cs, w) ==> HasHead(w) && Head(w) != ENTRY
  }

  lemma ApartOf(cs: seq<CycleOrLabel>)
    requires Distinct(Flatten(cs))
    ensures Apart(cs)
  {
    hide Flatten, FlattenOne, Distinct;
    forall i, j | 0 <= i < j < |cs| ensures LabelsOf(cs[i]) !! LabelsOf(cs[j]) {
      forall l | l in LabelsOf(cs[i]) ensures l !in LabelsOf(cs[j]) {
        ComponentsApart(cs, i, j, l);
      }
    }
  }

  lemma {:induction false} ComponentWalkable(g: Neighbours, cs: seq<CycleOrLabel>, h: Option<Label>, i: nat)
    requires Distinct(Flatten(cs)) && Respects(g, cs, h) && GoodCycles(cs) && i < |cs|
    requires h.Some? ==> cs[|cs| - 1] == Node(h.value)
    requires forall l :: l in Flatten(cs) ==> l in g
    ensures Walkable(g, cs[i]) && !HeadedBy(cs[i], ENTRY)
    decreases cs[i]
  {
    hide Flatten, Distinct, Respects, Apart, NoBackEdges, LabelsIn;
    match cs[i] {
      case Node(l) => HeldByPrefix(cs, i, l);
      case Nested(w) =>
        var inner := w.components;
        OccursAt(cs, i, w);
        DistinctOne(cs, i);
        RespectsInside(g, cs, h, i);
        ApartOf(inner);
        LevelHasNoBackEdges(g, inner, Some(Head(w)), |inner| - 1);
        forall v | Occurs(inner, v) ensures HasHead(v) && Head(v) != ENTRY {
          OccursBelow(cs, i, w, v);
        }
        forall l | l in Flatten(inner) ensures l in g {
          HeldByPrefix(cs, i, l);
        }
        forall k | 0 <= k < |inner| ensures Walkable(g, inner[k]) && !HeadedBy(inner[k], ENTRY) {
          ComponentWalkable(g, inner, Some(Head(w)), k);
        }
    }
  }

  lemma ForwardToStorage(cs: seq<CycleOrLabel>, u: Label, v: Label)
    requires Precedes(Forward(cs), u, v)
    ensures Earlier(Flatten(cs), v, u)
  {
    ForwardIsReverse(cs);
    var o, s := Forward(cs), Flatten(cs);
    var i, j :| 0 <= i < j < |o| && o[i] == u && o[j] == v;
    assert s[|s| - 1 - j] == v && s[|s| - 1 - i] == u;
  }

  lemma StorageFacts(cs: seq<CycleOrLabel>)
    ensures forall l :: l in Flatten(cs) <==> l in Forward(cs)
    ensures Distinct(Forward(cs)) ==> Distinct(Flatten(cs))
  {
    hide Flatten, Forward;
    ForwardIsReverse(cs);
    ReverseHolds(Flatten(cs));
    var o, s := Forward(cs), Flatten(cs);
    if Distinct(o) {
      forall i, j | 0 <= i < j < |s| ensures s[i] != s[j] {
        assert o[|s| - 1 - i] == s[i] && o[|s| - 1 - j] == s[j];
      }
    }
  }

  /** A walk of two or more labels does not end in the entry. */
  lemma WalkEndsElsewhere(g: Neighbours, p: seq<Label>)
    requires WellFormed(g) && Walk(g, p) && |p| > 1
    ensures p[|p| - 1] != ENTRY
  {
    assert Edge(g, p[|p| - 2], p[|p| - 1]);
  }

  /** A vertex without parents is in no strongly connected cycle. */
  lemma EntryInNoCycle(g: Neighbours, h: Label, members: set<Label>)
    requires WellFormed(g) && StronglyConnected(g, h, members)
    ensures ENTRY !in members
  {
    hide WellFormed;
    if ENTRY in members {
      var p :| WalkIn(g, members, h, ENTRY, p);
      var q :| WalkIn(g, members, ENTRY, h, q) && |q| > 1;
      if |p| > 1 {
        WalkEndsElsewhere(g, p);
      } else {
        WalkEndsElsewhere(g, q);
      }
    }
  }

  /** A weak topological order with strongly connected cycles can be walked component by component. */
  lemma OrderIsWalkable(g: Neighbours, cs: seq<CycleOrLabel>)
    requires WellFormed(g) && IsWeakTopologicalOrder(g, cs) && CyclesAreStronglyConnected(g, cs)
    ensures AllWalkable(g, cs)
    ensures forall l :: l in Flatten(cs) <==> Reachable(g, l)
    ensures Distinct(Flatten(cs))
  {
    hide Flatten, Forward, Distinct, Occurs, HeadsCycleOf, Precedes, Earlier, StronglyConnected, Reachable, WellFormed, NoBackEdges;
    StorageFacts(cs);
    forall u, v | u in Flatten(cs) && v in Flatten(cs) && Edge(g, u, v)
      ensures Earlier(Flatten(cs), v, u) || HeadsCycleOf(cs, v, u)
    {
      if !HeadsCycleOf(cs, v, u) {
        ForwardToStorage(cs, u, v);
      }
    }
    forall l | l in Flatten(cs) ensures l in g {
      ReachableInGraph(g, l);
    }
    ApartOf(cs);
    LevelHasNoBackEdges(g, cs, None, |cs|);
    forall w | Occurs(cs, w) ensures HasHead(w) && Head(w) != ENTRY {
      EntryInNoCycle(g, Head(w), set l | l in Flatten(w.components));
      HeadIsHeld(w);
    }
    forall i | 0 <= i < |cs| ensures Walkable(g, cs[i]) && !HeadedBy(cs[i], ENTRY) {
      ComponentWalkable(g, cs, None, i);
    }
  }

  lemma ReachableInGraph(g: Neighbours, l: Label)
    requires WellFormed(g) && Reachable(g, l)
    ensures l in g
  {
    var p :| IsPath(g, p) && p[|p| - 1] == l;
    if |p| > 1 {
      assert Edge(g, p[|p| - 2], p[|p| - 1]);
    }
  }

  /** The entry is visited first, on its own. */
  lemma EntryComesFirst(g: Neighbours, cs: seq<CycleOrLabel>)
    requires WellFormed(g) && IsWeakTopologicalOrder(g, cs) && CyclesAreStronglyConnected(g, cs)
    ensures cs != [] && cs[|cs| - 1] == Node(ENTRY)
  {
    hide Flatten, Distinct, HeadsCycleOf, Precedes, StronglyConnected, Reachable, WellFormed;
    var c := cs[|cs| - 1];
    OccursLast(cs);
    FirstLabel(cs);
    if c.Nested? {
      EntryInNoCycle(g, Head(c.cycle), set l | l in Flatten(c.cycle.components));
      HeadIsHeld(c.cycle);
    }
  }

  lemma OccursLast(cs: seq<CycleOrLabel>)
    requires cs != []
    ensures cs[|cs| - 1].Nested? ==> Occurs(cs, cs[|cs| - 1].cycle)
  {
    if cs[|cs| - 1].Nested? {
      assert OccursOne(cs[|cs| - 1], cs[|cs| - 1].cycle);
    }
  }

  lemma FirstLabel(cs: seq<CycleOrLabel>)
    requires cs != [] && (cs[|cs| - 1].Nested? ==> HasHead(cs[|cs| - 1].cycle))
    ensures Forward(cs) != [] && Forward(cs)[0] == if cs[|cs| - 1].Node? then cs[|cs| - 1].node else Head(cs[|cs| - 1].cycle)
  {
    var c := cs[|cs| - 1];
    if c.Nested? {
      ForwardOfCycle(c.cycle);
    }
  }

  lemma ForwardOfCycle(w: WtoCycle)
    requires HasHead(w)
    ensures Forward(w.components) != [] && Forward(w.components)[0] == Head(w)
  {
  }
}
