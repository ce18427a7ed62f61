/** The weak topological ordering of a control-flow graph (src/cfg/wto.rs). */
module Wto {
  import opened Wrappers
  import opened Graph
  import opened WtoControl
  import opened WtoStartVisit
  import opened WtoPlace
  import opened WtoLayout
  import opened WtoOrder
  import opened WtoFlat
  import opened WtoInvariant
  import opened WtoBuilder
  import opened WtoTree

  /**
    The ordering. `arena` holds every cycle, `parents` the link each cycle has to the one around it,
    `containingCycle` the table from a label to the cycle that directly holds it.
  */
  datatype Ordering = Ordering(
    components: seq<CycleOrLabel>,
    arena: seq<WtoCycle>,
    parents: seq<Option<nat>>,
    containingCycle: map<Label, nat>,
    nesting: map<Label, seq<Label>>)

  /** The links are usable: parents come first, heads exist and are filed under their own cycle. */
  ghost predicate Linked(w: Ordering) {
    && |w.parents| == |w.arena|
    && (forall i :: 0 <= i < |w.arena| ==> LinkedCycle(w, i))
    && (forall l :: l in w.containingCycle ==> w.containingCycle[l] < |w.arena|)
  }

  ghost predicate LinkedCycle(w: Ordering, i: nat)
    requires i < |w.arena| == |w.parents|
  {
    && (w.parents[i].Some? ==> w.parents[i].value < i)
    && HasHead(w.arena[i])
    && Head(w.arena[i]) in w.containingCycle
    && w.containingCycle[Head(w.arena[i])] == i
  }

  /** Heads from cycle `sc` outwards. */
  ghost function OuterHeads(w: Ordering, sc: Option<nat>): seq<Label>
    requires Linked(w) && (sc.Some? ==> sc.value < |w.arena|)
    decreases if sc.Some? then sc.value + 1 else 0
  {
    if sc.None? then []
    else
      assert LinkedCycle(w, sc.value);
      [Head(w.arena[sc.value])] + OuterHeads(w, w.parents[sc.value])
  }

  /** The cycle around a label, skipping the one the label itself heads. */
  ghost function Around(w: Ordering, l: Label): (sc: Option<nat>)
    requires Linked(w)
    ensures sc.Some? ==> sc.value < |w.arena|
  {
    if l !in w.containingCycle then None
    else
      assert LinkedCycle(w, w.containingCycle[l]);
      if Head(w.arena[w.containingCycle[l]]) != l then Some(w.containingCycle[l]) else w.parents[w.containingCycle[l]]
  }

  /** The head of the component around a label, if any. */
  method HeadOf(w: Ordering, node: Label) returns (h: Option<Label>)
    requires Linked(w)
    ensures h.Some? <==> Around(w, node).Some?
    ensures h.Some? ==>
      && h.value in w.containingCycle && w.containingCycle[h.value] == Around(w, node).value
      && HasHead(w.arena[Around(w, node).value]) && h.value == Head(w.arena[Around(w, node).value])
  {
    if node !in w.containingCycle {
      return None;
    }
    var cycle := w.containingCycle[node];
    assert LinkedCycle(w, cycle);
    var first := Head(w.arena[cycle]);
    if first != node {
      return Some(first);
    }
    if w.parents[cycle].None? {
      return None;
    }
    assert LinkedCycle(w, w.parents[cycle].value);
    return Some(Head(w.arena[w.parents[cycle].value]));
  }

  /** The chain of heads from inner to outer. */
  method CollectHeads(w: Ordering, node: Label) returns (heads: seq<Label>)
    requires Linked(w)
    ensures heads == OuterHeads(w, Around(w, node))
  {
    heads := [];
    var h := HeadOf(w, node);
    ghost var sc := Around(w, node);
    while h.Some?
      invariant sc.Some? <==> h.Some?
      invariant sc.Some? ==> sc.value < |w.arena|
      invariant h.Some? ==>
        && h.value in w.containingCycle && w.containingCycle[h.value] == sc.value
        && HasHead(w.arena[sc.value]) && h.value == Head(w.arena[sc.value])
      invariant heads + OuterHeads(w, sc) == OuterHeads(w, Around(w, node))
      decreases if sc.Some? then sc.value + 1 else 0
    {
      assert LinkedCycle(w, sc.value);
      assert heads + ([h.value] + OuterHeads(w, w.parents[sc.value])) == (heads + [h.value]) + OuterHeads(w, w.parents[sc.value]);
      heads := heads + [h.value];
      sc := Around(w, h.value);
      h := HeadOf(w, h.value);
    }
    assert heads + [] == heads;
  }

  /** Strictly more heads, and the same ones outside: compared from the outermost end inwards. */
  method IsSupersetOf(this': seq<Label>, other: seq<Label>) returns (r: bool)
    ensures r <==> |other| < |this'| && this'[|this'| - |other|..] == other
  {
    if |this'| <= |other| {
      return false;
    }
    var index := 0;
    while index < |other|
      invariant 0 <= index <= |other|
      invariant forall i :: |other| - index <= i < |other| ==> this'[|this'| - |other| + i] == other[i]
    {
      if this'[|this'| - 1 - index] != other[|other| - 1 - index] {
        assert this'[|this'| - |other|..][|other| - 1 - index] == this'[|this'| - 1 - index];
        return false;
      }
      index := index + 1;
    }
    return true;
  }

  // ------------------------------------------------------------------ what a weak topological order is

  ghost predicate Precedes(order: seq<Label>, u: Label, v: Label) {
    exists i, j :: 0 <= i < j < |order| && order[i] == u && order[j] == v
  }

  /** Bourdoncle 1993, definitions 1 and 2, for the graph reachable from the entry. */
  ghost predicate IsWeakTopologicalOrder(g: Neighbours, cs: seq<CycleOrLabel>) {
    && Distinct(Forward(cs))
    && (forall l :: l in Forward(cs) <==> Reachable(g, l))
    && Forward(cs) != [] && Forward(cs)[0] == ENTRY
    && (forall w :: Occurs(cs, w) ==> HasHead(w))
    && (forall h, u :: HeadsCycleOf(cs, h, u) ==> h == u || Precedes(Forward(cs), h, u))
    && (forall u, v :: u in Forward(cs) && Edge(g, u, v) ==>
      (Precedes(Forward(cs), u, v) && !HeadsCycleOf(cs, v, u)) || HeadsCycleOf(cs, v, u))
  }

  /** No cycle is larger than it has to be: its members reach one another inside it. */
  ghost predicate CyclesAreStronglyConnected(g: Neighbours, cs: seq<CycleOrLabel>) {
    forall w :: Occurs(cs, w) && HasHead(w) ==> StronglyConnected(g, Head(w), set l | l in Flatten(w.components))
  }

  ghost predicate NestingIsEnclosingHeads(g: Neighbours, w: Ordering) {
    && w.nesting.Keys == g.Keys
    && forall l :: l in g ==> w.nesting[l] == HeadsAround(w.components, l)
  }

  // ------------------------------------------------------------------ reading the builder's end state

  /** The builder's partitions and the final ordering describe the same cycles. */
  ghost predicate Mirrors(lay: Layout, w: Ordering) {
    && w.components == Tree(lay.cycles, 0, lay.top)
    && |w.arena| == |lay.cycles| == |w.parents|
    && (forall d :: 0 <= d < |lay.cycles| ==> w.arena[d] == TreeCycle(lay.cycles, d) && w.parents[d] == lay.cycles[d].parent)
    && w.containingCycle == lay.containing
  }

  lemma MirrorsLinked(lay: Layout, order: seq<Label>, heads: seq<Label>, w: Ordering)
    requires Shelved(lay, [], order, heads) && Mirrors(lay, w)
    ensures Linked(w)
  {
    hide Tree, Shelved, Entries, CyclesPlaced;
    forall i | 0 <= i < |w.arena| ensures LinkedCycle(w, i) {
      TreeHead(lay, order, heads, i);
      FinalPlaced(lay, order, heads, i);
      FinalHead(lay, order, heads, i);
    }
    forall l | l in w.containingCycle ensures w.containingCycle[l] < |w.arena| {
      FinalTable(lay, order, heads, l);
    }
  }

  lemma FinalHead(lay: Layout, order: seq<Label>, heads: seq<Label>, d: nat)
    requires Shelved(lay, [], order, heads) && d < |lay.cycles|
    ensures |heads| == |lay.cycles| && Home(lay, heads[d]) == Some(d) && heads[d] in order
  {
    hide Tree, Entries, LabelsPlaced, Shelved;
    FinalPlaced(lay, order, heads, d);
    assert LabelComponent(heads[d]) in Part(lay, Some(d));
    FinalHome(lay, order, heads, Some(d), LabelComponent(heads[d]));
  }

  lemma FinalTable(lay: Layout, order: seq<Label>, heads: seq<Label>, l: Label)
    requires Shelved(lay, [], order, heads) && l in lay.containing
    ensures lay.containing[l] < |lay.cycles| && l in order
  {
    hide Entries, CyclesPlaced, Part;
    assert l in order;
  }

  // nesting

  /** A label is not found in a cycle nested in its own partition. */
  lemma NotInNested(lay: Layout, order: seq<Label>, heads: seq<Label>, sc: Option<nat>, d: nat, l: Label)
    requires Shelved(lay, [], order, heads) && d < |lay.cycles| && lay.cycles[d].parent == sc
    requires l in FlatCycle(lay.cycles, d)
    ensures Home(lay, l).Some? && Home(lay, l).value < |lay.cycles| && d <= Home(lay, l).value
    ensures Home(lay, l) != sc
  {
    hide Flat, Shelved, Encloses;
    FlatMembers(lay, order, heads, d, l);
    EnclosesSmaller(lay.cycles, d, lay.containing[l]);
    FinalPlaced(lay, order, heads, d);
    FinalTable(lay, order, heads, l);
  }

  /** Reading the nesting off the tree gives the chain of cycles the table and the parent links name. */
  lemma {:induction false} NestingAt(lay: Layout, order: seq<Label>, heads: seq<Label>, w: Ordering, sc: Option<nat>,
      comps: seq<BuilderComponent>, l: Label)
    requires Shelved(lay, [], order, heads) && Mirrors(lay, w) && Linked(w)
    requires ValidScope(lay, sc) && forall c :: c in comps ==> c in Part(lay, sc)
    requires Home(lay, l) != sc ==> l in Flat(lay.cycles, LowOf(sc), comps)
    ensures Home(lay, l) == sc ==> HeadsAround(Tree(lay.cycles, LowOf(sc), comps), l) == []
    ensures Home(lay, l) != sc ==>
      HeadsAround(Tree(lay.cycles, LowOf(sc), comps), l) + OuterHeads(w, sc) == OuterHeads(w, Around(w, l))
    decreases |lay.cycles| - LowOf(sc), |comps|
  {
    hide Shelved, Part, OuterHeads, Around, Linked;
    var low := LowOf(sc);
    if comps != [] {
      var z := comps[|comps| - 1];
      var init := comps[..|comps| - 1];
      var t := Tree(lay.cycles, low, comps);
      assert z in comps;
      FinalHome(lay, order, heads, sc, z);
      assert t[..|comps| - 1] == Tree(lay.cycles, low, init);
      if z.CycleIdx? {
        NestingInCycle(lay, order, heads, w, sc, z.idx, |comps|);
        FinalAscending(lay, order, heads);
        FlattenTree(lay.cycles, z.idx + 1, lay.cycles[z.idx].components);
        if l in FlatCycle(lay.cycles, z.idx) {
          NotInNested(lay, order, heads, sc, z.idx, l);
          NestingThrough(lay, order, heads, w, sc, z.idx, l);
          assert HeadsAround(t, l) == HeadsAroundOne(Nested(TreeCycle(lay.cycles, z.idx)), l);
        } else {
          NestingAt(lay, order, heads, w, sc, init, l);
        }
      } else {
        NestingAt(lay, order, heads, w, sc, init, l);
      }
    }
  }

  lemma NestingInCycle(lay: Layout, order: seq<Label>, heads: seq<Label>, w: Ordering, sc: Option<nat>, d: nat, n: nat)
    requires Shelved(lay, [], order, heads) && Mirrors(lay, w) && d < |lay.cycles| && lay.cycles[d].parent == sc
    ensures LowOf(sc) <= d
    ensures TreeOne(lay.cycles, LowOf(sc), CycleIdx(d), n) == Nested(TreeCycle(lay.cycles, d))
    ensures FlatOne(lay.cycles, LowOf(sc), CycleIdx(d), n) == FlatCycle(lay.cycles, d)
  {
    hide Entries, LabelsPlaced, CyclesPlaced;
    FinalPlaced(lay, order, heads, d);
  }

  lemma {:induction false} NestingThrough(lay: Layout, order: seq<Label>, heads: seq<Label>, w: Ordering, sc: Option<nat>, d: nat, l: Label)
    requires Shelved(lay, [], order, heads) && Mirrors(lay, w) && Linked(w)
    requires d < |lay.cycles| && lay.cycles[d].parent == sc && LowOf(sc) <= d && l in FlatCycle(lay.cycles, d)
    requires ValidScope(lay, sc)
    ensures HeadsAroundOne(Nested(TreeCycle(lay.cycles, d)), l) + OuterHeads(w, sc) == OuterHeads(w, Around(w, l))
    decreases |lay.cycles| - LowOf(Some(d)), |lay.cycles[d].components| + 1
  {
    hide Shelved, Flat, Tree, Linked;
    TreeHead(lay, order, heads, d);
    FinalHead(lay, order, heads, d);
    FinalPart(lay, d);
    assert LinkedCycle(w, d) by { LinkedAt(w, d); }
    NestingAt(lay, order, heads, w, Some(d), lay.cycles[d].components, l);
    var inner := HeadsAround(TreeCycle(lay.cycles, d).components, l);
    if Home(lay, l) == Some(d) {
      assert inner == [];
    }
    if heads[d] != l {
      assert inner + ([heads[d]] + OuterHeads(w, sc)) == (inner + [heads[d]]) + OuterHeads(w, sc);
    } else {
      assert Home(lay, l) == Some(d);
    }
  }

  lemma FinalPart(lay: Layout, d: nat)
    requires d < |lay.cycles|
    ensures Part(lay, Some(d)) == lay.cycles[d].components
  {
  }

  lemma LinkedAt(w: Ordering, d: nat)
    requires Linked(w) && d < |w.arena|
    ensures LinkedCycle(w, d)
  {
  }

  // the order

  lemma ReversePrecedes(order: seq<Label>, i: nat, j: nat)
    requires j < i < |order|
    ensures Precedes(Reverse(order), order[i], order[j])
  {
    var r := Reverse(order);
    assert r[|order| - 1 - i] == order[i] && r[|order| - 1 - j] == order[j];
  }

  lemma ReverseHolds(order: seq<Label>)
    ensures forall l :: l in Reverse(order) <==> l in order
    ensures |Reverse(order)| == |order|
    ensures Distinct(order) ==> Distinct(Reverse(order))
  {
    var r := Reverse(order);
    forall l | l in order ensures l in r {
      var i :| 0 <= i < |order| && order[i] == l;
      assert r[|order| - 1 - i] == l;
    }
  }

  /** A finished cycle of the builder, seen in the tree. */
  lemma CycleInTree(lay: Layout, order: seq<Label>, heads: seq<Label>, c: nat, u: Label)
    requires Shelved(lay, [], order, heads) && c < |heads| && u in order && InCycle(lay, c, u)
    ensures HeadsCycleOf(Tree(lay.cycles, 0, lay.top), heads[c], u)
  {
    hide Tree, Shelved, Flat, InCycle, Occurs, Flatten;
    FinalLength(lay, order, heads);
    CycleOccurs(lay, order, heads, c);
    TreeHead(lay, order, heads, c);
    FinalAscending(lay, order, heads);
    FlattenTree(lay.cycles, c + 1, lay.cycles[c].components);
    FlatMembers(lay, order, heads, c, u);
    assert u in Members(lay, order, c);
  }

  lemma FinalLength(lay: Layout, order: seq<Label>, heads: seq<Label>)
    requires Shelved(lay, [], order, heads)
    ensures |heads| == |lay.cycles|
  {
    hide Entries, LabelsPlaced, CyclesPlaced;
  }

  /** A cycle of the tree, seen in the builder. */
  lemma TreeCycleFacts(lay: Layout, order: seq<Label>, heads: seq<Label>, w: WtoCycle) returns (d: nat)
    requires Shelved(lay, [], order, heads) && Occurs(Tree(lay.cycles, 0, lay.top), w)
    ensures d < |lay.cycles| == |heads| && w == TreeCycle(lay.cycles, d)
    ensures HasHead(w) && Head(w) == heads[d]
    ensures forall l :: l in Flatten(w.components) <==> l in Members(lay, order, d)
  {
    hide Tree, Shelved, Flat, InCycle, Occurs, Flatten;
    FinalAscending(lay, order, heads);
    d := OccursIsCycle(lay.cycles, 0, lay.top, w);
    TreeHead(lay, order, heads, d);
    FlattenTree(lay.cycles, d + 1, lay.cycles[d].components);
    forall l ensures l in Flatten(w.components) <==> l in Members(lay, order, d) {
      FlatMembers(lay, order, heads, d, l);
    }
  }

  lemma FinalConnected(g: Neighbours, vd: Marks, lay: Layout, order: seq<Label>, heads: seq<Label>)
    requires Shelved(lay, [], order, heads) && Ordered(g, vd, lay, [], order, heads)
    ensures CyclesAreStronglyConnected(g, Tree(lay.cycles, 0, lay.top))
  {
    hide Tree, Shelved, InCycle, Occurs, Flatten, EdgesForward, OpenMembers, HeadsLast, Accounted, StronglyConnected, Members;
    forall w | Occurs(Tree(lay.cycles, 0, lay.top), w) && HasHead(w)
      ensures StronglyConnected(g, Head(w), set l | l in Flatten(w.components))
    {
      var d := TreeCycleFacts(lay, order, heads, w);
      assert !IsOpen([], d);
      assert (set l | l in Flatten(w.components)) == Members(lay, order, d);
    }
  }

  lemma HeadComesFirst(g: Neighbours, vd: Marks, lay: Layout, order: seq<Label>, heads: seq<Label>, h: Label, u: Label)
    requires Shelved(lay, [], order, heads) && Ordered(g, vd, lay, [], order, heads)
    requires HeadsCycleOf(Tree(lay.cycles, 0, lay.top), h, u)
    ensures h == u || Precedes(Reverse(order), h, u)
  {
    hide Tree, Shelved, InCycle, Occurs, Flatten, EdgesForward, OpenMembers, ClosedConnected, Accounted, Precedes, Reverse;
    var w :| Occurs(Tree(lay.cycles, 0, lay.top), w) && HasHead(w) && Head(w) == h && u in Flatten(w.components);
    var d := TreeCycleFacts(lay, order, heads, w);
    assert !IsOpen([], d);
    var i :| 0 <= i < |order| && order[i] == u;
    assert heads[d] in order[i..];
    var j :| 0 <= j < |order[i..]| && order[i..][j] == h;
    assert order[i + j] == h;
    if j > 0 {
      ReversePrecedes(order, i + j, i);
    }
  }

  lemma EdgeGoesForward(g: Neighbours, vd: Marks, lay: Layout, order: seq<Label>, heads: seq<Label>, u: Label, v: Label)
    requires Shelved(lay, [], order, heads) && Ordered(g, vd, lay, [], order, heads)
    requires u in order && Edge(g, u, v)
    ensures Precedes(Reverse(order), u, v) || HeadsCycleOf(Tree(lay.cycles, 0, lay.top), v, u)
  {
    hide Tree, Shelved, InCycle, Occurs, Flatten, HeadsLast, OpenMembers, ClosedConnected, Accounted, Precedes, Reverse, HeadsCycleOf;
    var i :| 0 <= i < |order| && order[i] == u;
    assert EdgeForward(lay, heads, order, i, v);
    if v in order[..i] {
      var j :| 0 <= j < |order[..i]| && order[..i][j] == v;
      ReversePrecedes(order, i, j);
    } else {
      var c :| 0 <= c < |heads| && heads[c] == v && InCycle(lay, c, order[i]);
      CycleInTree(lay, order, heads, c, u);
    }
  }

  lemma PlacedIsReachable(g: Neighbours, vd: Marks, lay: Layout, order: seq<Label>, heads: seq<Label>)
    requires Ordered(g, vd, lay, [], order, heads) && Seen(g, vd) && ENTRY in order
    ensures forall l :: l in order <==> Reachable(g, l)
  {
    hide EdgesForward, HeadsLast, OpenMembers, ClosedConnected;
    forall l | l in order ensures Reachable(g, l) {
      assert Done(vd, l);
    }
    var s := set l | l in order;
    forall a, b | a in s && Edge(g, a, b) ensures b in s {
      assert Done(vd, b);
    }
    forall l | Reachable(g, l) ensures l in order {
      var p :| IsPath(g, p) && p[|p| - 1] == l;
      ReachableIsLeast(g, s, p);
    }
  }

  /** The main result about the ordering, from the invariant at the end of the build. */
  lemma FinalOrder(g: Neighbours, vd: Marks, lay: Layout, order: seq<Label>, heads: seq<Label>)
    requires Shelved(lay, [], order, heads) && Ordered(g, vd, lay, [], order, heads) && Seen(g, vd)
    requires order == Flat(lay.cycles, 0, lay.top)
    requires order != [] && order[|order| - 1] == ENTRY
    ensures IsWeakTopologicalOrder(g, Tree(lay.cycles, 0, lay.top))
  {
    hide Tree, Shelved, Ordered, Seen, Flat, Occurs, Flatten, Forward, Precedes, HeadsCycleOf, Reachable, Distinct;
    var cs := Tree(lay.cycles, 0, lay.top);
    FinalAscending(lay, order, heads);
    FlattenTree(lay.cycles, 0, lay.top);
    ForwardIsReverse(cs);
    ReverseHolds(order);
    OrderDistinct(g, vd, lay, order, heads);
    PlacedIsReachable(g, vd, lay, order, heads);
    forall w | Occurs(cs, w) ensures HasHead(w) {
      var d := TreeCycleFacts(lay, order, heads, w);
    }
    forall h, u | HeadsCycleOf(cs, h, u) ensures h == u || Precedes(Forward(cs), h, u) {
      HeadComesFirst(g, vd, lay, order, heads, h, u);
    }
    forall u, v | u in Forward(cs) && Edge(g, u, v) ensures Precedes(Forward(cs), u, v) || HeadsCycleOf(cs, v, u) {
      EdgeGoesForward(g, vd, lay, order, heads, u, v);
    }
  }

  lemma OrderDistinct(g: Neighbours, vd: Marks, lay: Layout, order: seq<Label>, heads: seq<Label>)
    requires Ordered(g, vd, lay, [], order, heads)
    ensures Distinct(order)
  {
    hide EdgesForward, HeadsLast, OpenMembers, ClosedConnected, ChildrenDone;
  }

  /** With no task left only the bottom frame is left, and the entry is placed. */
  lemma NothingLeft(g: Neighbours, vd: Marks, num: nat, fs: seq<Frame>, lay: Layout, order: seq<Label>, heads: seq<Label>)
    requires Inv(g, vd, num, fs, lay, order, heads) && Tasks(fs, |fs|) == []
    ensures Opens(fs) == [] && |fs| == 1
    ensures order != [] && order[|order| - 1] == ENTRY
  {
    hide Shelved, Ordered, OpenFlat, Bounded, Seen, StackMarks, NestedFrames, VisitingInv, HeadingInv, Tasks;
    BottomFrame(g, vd, num, fs);
    TopFrame(g, vd, num, fs);
    TasksOfFrame(fs, |fs| - 1);
    var f := Top(fs);
    if f.pending != [] {
      PushAllLength(f.pending, InnerScope(f.kind));
      assert false;
    }
    LastOwnsTask(g, fs);
    if |fs| > 1 {
      assert false;
    }
    assert ENTRY in Targets(g, f.kind);
    StackBottom(fs, ENTRY);
    StackStep(fs, 0);
    HeadingsStep(fs, 0);
    HeadingsNone(fs);
  }

  lemma LastOwnsTask(g: Neighbours, fs: seq<Frame>)
    requires Shape(g, fs)
    ensures |fs| > 1 ==> |OwnTask(Top(fs).kind)| == 1
  {
  }

  lemma PushAllLength(ps: seq<Label>, sc: Option<nat>)
    requires ps != []
    ensures PushAll(ps, sc, sc) != []
  {
  }

  lemma NestingFinal(lay: Layout, order: seq<Label>, heads: seq<Label>, w: Ordering, l: Label)
    requires Shelved(lay, [], order, heads) && Mirrors(lay, w) && Linked(w) && order == Flat(lay.cycles, 0, lay.top)
    ensures HeadsAround(w.components, l) == OuterHeads(w, Around(w, l))
  {
    hide Shelved, Flat, Tree, Linked, Around;
    if Home(lay, l) != None {
      FinalTable(lay, order, heads, l);
    }
    AroundNone(w, l);
    NestingAt(lay, order, heads, w, None, lay.top, l);
    assert HeadsAround(w.components, l) + [] == HeadsAround(w.components, l);
  }

  lemma AroundNone(w: Ordering, l: Label)
    requires Linked(w)
    ensures l !in w.containingCycle ==> Around(w, l) == None
    ensures OuterHeads(w, None) == []
  {
  }

  // ------------------------------------------------------------------ the build

  method ConvertComponents(comps: seq<BuilderComponent>, rcCycles: seq<Option<WtoCycle>>, ghost cycles: seq<BuilderCycle>, ghost low: nat)
    returns (r: seq<CycleOrLabel>)
    requires Ascending(cycles, low, comps) && |rcCycles| == |cycles|
    requires forall d :: low <= d < |cycles| ==> rcCycles[d] == Some(TreeCycle(cycles, d))
    ensures r == Tree(cycles, low, comps)
  {
    hide Tree;
    r := [];
    var i := 0;
    while i < |comps|
      invariant 0 <= i <= |comps| && |r| == i
      invariant forall j :: 0 <= j < i ==> r[j] == Tree(cycles, low, comps)[j]
    {
      AscendingAt(cycles, low, comps, i);
      TreeAt(cycles, low, comps, i);
      match comps[i] {
        case LabelComponent(l) => r := r + [Node(l)];
        case CycleIdx(idx) => r := r + [Nested(rcCycles[idx].value)];
      }
      i := i + 1;
    }
  }

  /** Pass 1: children have higher indices, so going down every child is there when its parent needs it. */
  method BuildCycles(cycles: seq<BuilderCycle>) returns (rcCycles: seq<Option<WtoCycle>>)
    requires AllAscending(cycles)
    ensures |rcCycles| == |cycles|
    ensures forall d :: 0 <= d < |cycles| ==> rcCycles[d] == Some(TreeCycle(cycles, d))
  {
    hide Ascending, Tree;
    rcCycles := seq(|cycles|, _ => None);
    var i := |cycles|;
    while i > 0
      invariant 0 <= i <= |cycles| == |rcCycles|
      invariant forall d :: i <= d < |cycles| ==> rcCycles[d] == Some(TreeCycle(cycles, d))
    {
      i := i - 1;
      var components := ConvertComponents(cycles[i].components, rcCycles, cycles, i + 1);
      rcCycles := rcCycles[i := Some(WtoCycle(components))];
    }
  }

  /** From index-based cycles to nested ones, the parent links, and the nesting of every label. */
  method Finalize(b: Builder, g: Neighbours) returns (w: Ordering)
    requires Shelved(b.Shelves(), [], b.order, b.heads) && b.order == Flat(b.cycles, 0, b.topComponents)
    requires b.vertexData.Keys == g.Keys
    ensures w.components == Tree(b.cycles, 0, b.topComponents)
    ensures Mirrors(b.Shelves(), w) && Linked(w)
    ensures NestingIsEnclosingHeads(g, w)
  {
    hide Shelved, Tree, Flat, Linked, Around, OuterHeads, HeadsAround;
    ghost var lay := b.Shelves();
    FinalAscending(lay, b.order, b.heads);
    var rcCycles := BuildCycles(b.cycles);
    var cycles := b.cycles;
    var arena := seq(|cycles|, i requires 0 <= i < |cycles| => rcCycles[i].value);
    var parents := seq(|cycles|, i requires 0 <= i < |cycles| => cycles[i].parent);
    var topComponents := ConvertComponents(b.topComponents, rcCycles, cycles, 0);
    w := Ordering(topComponents, arena, parents, b.containingCycleMap, map[]);
    MirrorsLinked(lay, b.order, b.heads, w);
    var nesting: map<Label, seq<Label>> := map[];
    var todo := b.vertexData.Keys;
    while todo != {}
      invariant nesting.Keys + todo == g.Keys
      invariant forall l :: l in nesting ==> nesting[l] == HeadsAround(w.components, l)
    {
      var l :| l in todo;
      todo := todo - {l};
      var heads := CollectHeads(w, l);
      NestingFinal(lay, b.order, b.heads, w, l);
      nesting := nesting[l := heads];
    }
    var w' := w.(nesting := nesting);
    MirrorsLinked(lay, b.order, b.heads, w');
    w := w';
  }

  /**
    Builds the ordering of every graph: it terminates, the result is a weak topological order of what
    is reachable from the entry, its cycles are strongly connected, and the nesting table is right.
    The counter of visits stays below n * (n + 1).
  */
  method Build(cfg: Cfg) returns (w: Ordering, num: nat)
    requires cfg.Valid()
    ensures IsWeakTopologicalOrder(cfg.neighbours, w.components)
    ensures CyclesAreStronglyConnected(cfg.neighbours, w.components)
    ensures NestingIsEnclosingHeads(cfg.neighbours, w)
    ensures num <= |cfg.neighbours.Keys| * (|cfg.neighbours.Keys| + 1)
  {
    hide Inv, Stack, Tasks, PushAll, PendingOf, Scanned, Number, Opened, Placed, Numbered, IsWeakTopologicalOrder, Flat, Tree, Shelved;
    hide CyclesAreStronglyConnected, NestingIsEnclosingHeads, PlaceLayout, OpenLayout, CloseLayout, NotDone, WhiteSet, Linked, Mirrors;
    ghost var g := cfg.neighbours;
    var b := new Builder(cfg);
    while b.visitStack != []
      invariant fresh(b) && b.Valid(g) && cfg.neighbours == g
      decreases |NotDone(b.vertexData)|, |WhiteSet(b.vertexData)|, |b.visitStack|
    {
      Step(b, cfg);
    }
    assert b.visitStack + [] == [];
    BuildDone(g, b.vertexData, b.num, b.frames, b.Shelves(), b.order, b.heads);
    w := Finalize(b, cfg.neighbours);
    num := b.num;
  }

  lemma BuildDone(g: Neighbours, vd: Marks, num: nat, fs: seq<Frame>, lay: Layout, order: seq<Label>, heads: seq<Label>)
    requires Inv(g, vd, num, fs, lay, order, heads) && Tasks(fs, |fs|) == []
    ensures Shelved(lay, [], order, heads) && order == Flat(lay.cycles, 0, lay.top) && vd.Keys == g.Keys
    ensures IsWeakTopologicalOrder(g, Tree(lay.cycles, 0, lay.top))
    ensures CyclesAreStronglyConnected(g, Tree(lay.cycles, 0, lay.top))
    ensures num <= |g.Keys| * (|g.Keys| + 1)
  {
    hide Control, Shelved, Ordered, Flat, Tree, Seen, Tasks, IsWeakTopologicalOrder, CyclesAreStronglyConnected, NotDone, WhiteSet;
    NothingLeft(g, vd, num, fs, lay, order, heads);
    InvShape(g, vd, num, fs, lay, order, heads);
    FinalOrder(g, vd, lay, order, heads);
    FinalConnected(g, vd, lay, order, heads);
  }

  /** The termination measure: vertices not done, then unvisited ones, then tasks. */
  ghost predicate Progress(vd: Marks, vd': Marks, t: nat, t': nat) {
    || |NotDone(vd')| < |NotDone(vd)|
    || (|NotDone(vd')| == |NotDone(vd)| && |WhiteSet(vd')| < |WhiteSet(vd)|)
    || (|NotDone(vd')| == |NotDone(vd)| && |WhiteSet(vd')| == |WhiteSet(vd)| && t' < t)
  }

  lemma NumberedIs(vd: Marks, x: Label, n: nat)
    requires x in vd
    ensures vd[x := vd[x].(dfn := Fin(n))] == Numbered(vd, x, n)
  {
  }

  lemma VisitProgress(vd: Marks, x: Label, n: nat, t: nat, t': nat)
    requires White(vd, x) && n > 0
    ensures Progress(vd, Numbered(vd, x, n), t, t')
  {
    CountVisit(vd, x, n);
  }

  lemma StartProgress(vd: Marks, u: Label, head: nat, t: nat, t': nat)
    requires u in vd && t' < t
    ensures Progress(vd, vd[u := vd[u].(headDfn := head)], t, t')
  {
    CountLower(vd, u, head);
  }

  /** One turn of the visit loop. */
  method Step(b: Builder, cfg: Cfg)
    requires b.Valid(cfg.neighbours) && b.visitStack != []
    modifies b
    ensures b.Valid(cfg.neighbours)
    ensures Progress(old(b.vertexData), b.vertexData, |old(b.visitStack)|, |b.visitStack|)
  {
    hide Inv, Stack, Tasks, PushAll, PendingOf, Scanned, Number, Opened, Placed, Numbered, PlaceLayout, OpenLayout, CloseLayout;
    hide NotDone, WhiteSet, Lowered;
    ghost var vd := b.vertexData;
    var task := b.visitStack[|b.visitStack| - 1];
    assert b.visitStack + [] == b.visitStack[..|b.visitStack| - 1] + [task];
    b.visitStack := b.visitStack[..|b.visitStack| - 1];
    match task.taskType {
      case PushSuccessors =>
        ghost var ps := b.PushSuccessors(cfg, task.vertex, task.targetCycle, task.containingCycle);
        if White(vd, task.vertex) {
          NumberedIs(vd, task.vertex, b.num);
          VisitProgress(vd, task.vertex, b.num, |old(b.visitStack)|, |b.visitStack|);
        } else {
          assert b.vertexData == vd;
        }
      case StartVisit =>
        var headDfn, isLoop, popped, ps := b.StartVisit(cfg, task.vertex, task.targetCycle, task.containingCycle);
        ScannedHead(cfg.neighbours, vd, task.vertex, headDfn, isLoop);
        if headDfn < Number(vd, task.vertex) {
          StartProgress(vd, task.vertex, headDfn, |old(b.visitStack)|, |b.visitStack|);
        }
      case ContinueVisit =>
        b.ContinueVisit(cfg.neighbours, task.vertex, task.targetCycle, task.containingCycle);
    }
  }
}
