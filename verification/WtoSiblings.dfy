/**
  What it means that one nesting strictly extends another (src/cfg/wto.rs:141-154), as the iterator asks of
  a predecessor and a cycle head (src/fwd_analyzer.rs:368-381): some cycle strictly around the
  predecessor stands beside the head, with the same cycles around it. The head's own cycle is one
  such; a sibling of it is another.
*/
module WtoSiblings {
  import opened Wrappers
  import opened Graph
  import opened WtoOrder
  import opened WtoTree
  import opened Wto
  import opened WtoShape

  /** Strictly more heads, with the same ones outside. */
  ghost predicate Extends(inner: seq<Label>, outer: seq<Label>) {
    |outer| < |inner| && inner[|inner| - |outer|..] == outer
  }

  /** The cycle holds `u`, and `u` does not head it. */
  ghost predicate Holds(cs: seq<CycleOrLabel>, c: WtoCycle, u: Label) {
    Occurs(cs, c) && HasHead(c) && u in Flatten(c.components) && u != Head(c)
  }

  /** A cycle strictly around `u` whose head has the cycles around it that `h` has. */
  ghost predicate Beside(cs: seq<CycleOrLabel>, c: WtoCycle, u: Label, h: Label) {
    Holds(cs, c, u) && HeadsAround(cs, Head(c)) == HeadsAround(cs, h)
  }

  ghost predicate HeadedTree(cs: seq<CycleOrLabel>) {
    Distinct(Flatten(cs)) && forall w :: Occurs(cs, w) ==> HasHead(w)
  }

  lemma {:induction false} NoHeadsAround(cs: seq<CycleOrLabel>, u: Label)
    requires u !in Flatten(cs)
    ensures HeadsAround(cs, u) == []
  {
    if cs != [] {
      NoHeadsAround(cs[..|cs| - 1], u);
    }
  }

  /** The chain is read off the component that holds the label. */
  lemma {:induction false} HeadsAroundAt(cs: seq<CycleOrLabel>, k: nat, u: Label)
    requires Distinct(Flatten(cs)) && k < |cs| && u in FlattenOne(cs[k])
    ensures HeadsAround(cs, u) == HeadsAroundOne(cs[k], u)
  {
    hide Distinct;
    var n := |cs| - 1;
    if k < n {
      ComponentsApart(cs, k, n, u);
      DistinctInit(cs);
      HeadsAroundAt(cs[..n], k, u);
    } else if cs[n].Node? {
      NotInInit(cs, u);
      NoHeadsAround(cs[..n], u);
    }
  }

  lemma DistinctInit(cs: seq<CycleOrLabel>)
    requires cs != [] && Distinct(Flatten(cs))
    ensures Distinct(Flatten(cs[..|cs| - 1]))
  {
    hide Distinct, FlattenOne;
    var init, one := Flatten(cs[..|cs| - 1]), FlattenOne(cs[|cs| - 1]);
    assert Flatten(cs) == init + one;
    DistinctPrefix(init, one);
  }

  lemma DistinctPrefix<T>(a: seq<T>, b: seq<T>)
    requires Distinct(a + b)
    ensures Distinct(a)
  {
    forall i, j | 0 <= i < j < |a| ensures a[i] != a[j] {
      assert (a + b)[i] == a[i] && (a + b)[j] == a[j];
    }
  }

  lemma NotInInit(cs: seq<CycleOrLabel>, u: Label)
    requires cs != [] && Distinct(Flatten(cs)) && u in FlattenOne(cs[|cs| - 1])
    ensures u !in Flatten(cs[..|cs| - 1])
  {
    var a, b := Flatten(cs[..|cs| - 1]), FlattenOne(cs[|cs| - 1]);
    assert a + b + [] == Flatten(cs);
    DistinctParts(a, b, []);
  }

  /** No cycle inside a cycle holds its head. */
  lemma HeadStandsAlone(w: WtoCycle, u: Label, c: WtoCycle)
    requires HasHead(w) && Distinct(Flatten(w.components)) && Occurs(w.components, c) && u in Flatten(c.components)
    ensures u != Head(w)
  {
    hide Flatten, Distinct;
    var cs := w.components;
    var k :| 0 <= k < |cs| && OccursOne(cs[k], c);
    OccursHolds(cs[k], c, u);
    if u == Head(w) {
      assert Head(w) in FlattenOne(cs[|cs| - 1]);
      if k != |cs| - 1 {
        ComponentsApart(cs, k, |cs| - 1, u);
      }
    }
  }

  lemma HeadHasNoneAround(w: WtoCycle)
    requires HasHead(w) && Distinct(Flatten(w.components))
    ensures HeadsAround(w.components, Head(w)) == []
  {
    hide Flatten, Distinct;
    var cs := w.components;
    assert Head(w) in FlattenOne(cs[|cs| - 1]);
    HeadsAroundAt(cs, |cs| - 1, Head(w));
  }

  lemma Inside(cs: seq<CycleOrLabel>, k: nat)
    requires HeadedTree(cs) && k < |cs| && cs[k].Nested?
    ensures HeadedTree(cs[k].cycle.components) && HasHead(cs[k].cycle)
  {
    hide Flatten, Distinct;
    DistinctOne(cs, k);
    OccursAt(cs, k, cs[k].cycle);
    forall w | Occurs(cs[k].cycle.components, w) ensures HasHead(w) {
      OccursBelow(cs, k, cs[k].cycle, w);
    }
  }

  /** What the chains of two labels of one component have in common. */
  lemma ChainInside(cs: seq<CycleOrLabel>, k: nat, u: Label)
    requires HeadedTree(cs) && k < |cs| && cs[k].Nested? && u in Flatten(cs[k].cycle.components)
    ensures HasHead(cs[k].cycle)
    ensures HeadsAround(cs, u) == HeadsAround(cs[k].cycle.components, u) + (if Head(cs[k].cycle) != u then [Head(cs[k].cycle)] else [])
  {
    hide Flatten, Distinct, HeadsAround;
    Inside(cs, k);
    HeadsAroundAt(cs, k, u);
  }

  /** Position `i` of `u`'s chain is the head of `c`, and what follows is the chain of that head. */
  ghost predicate StandsAt(cs: seq<CycleOrLabel>, c: WtoCycle, u: Label, i: int) {
    && HasHead(c)
    && 0 <= i < |HeadsAround(cs, u)| && HeadsAround(cs, u)[i] == Head(c)
    && HeadsAround(cs, u)[i + 1..] == HeadsAround(cs, Head(c))
  }

  /** Every cycle around a label stands in its chain, with the cycles around the cycle behind it. */
  lemma {:induction false} HolderStands(cs: seq<CycleOrLabel>, c: WtoCycle, u: Label) returns (i: nat)
    requires HeadedTree(cs) && Holds(cs, c, u)
    ensures StandsAt(cs, c, u, i)
    decreases WtoCycle(cs)
  {
    hide Flatten, Distinct, HeadsAround;
    var k :| 0 <= k < |cs| && OccursOne(cs[k], c);
    var w := cs[k].cycle;
    OccursHolds(cs[k], c, u);
    HeadIsHeld(c);
    OccursHolds(cs[k], c, Head(c));
    Inside(cs, k);
    ChainInside(cs, k, u);
    ChainInside(cs, k, Head(c));
    if c == w {
      HeadHasNoneAround(w);
      i := |HeadsAround(w.components, u)|;
    } else {
      HeadStandsAlone(w, u, c);
      HeadStandsAlone(w, Head(c), c);
      i := HolderStands(w.components, c, u);
      var inner := HeadsAround(w.components, u);
      assert (inner + [Head(w)])[i + 1..] == inner[i + 1..] + [Head(w)];
    }
  }

  /** And everything in the chain is the head of such a cycle. */
  lemma {:induction false} StandingHolds(cs: seq<CycleOrLabel>, u: Label, i: nat) returns (c: WtoCycle)
    requires HeadedTree(cs) && u in Flatten(cs) && i < |HeadsAround(cs, u)|
    ensures Holds(cs, c, u) && StandsAt(cs, c, u, i)
    decreases WtoCycle(cs)
  {
    hide Flatten, Distinct, HeadsAround;
    var k := HeldAt(cs, u);
    HeadsAroundAt(cs, k, u);
    var w := cs[k].cycle;
    Inside(cs, k);
    ChainInside(cs, k, u);
    var inner := HeadsAround(w.components, u);
    OccursAt(cs, k, w);
    if i == |inner| {
      c := w;
      HeadIsHeld(w);
      ChainInside(cs, k, Head(w));
      HeadHasNoneAround(w);
    } else {
      c := StandingHolds(w.components, u, i);
      HeadStandsAlone(w, u, c);
      HeadIsHeld(c);
      HeadStandsAlone(w, Head(c), c);
      OccursHeld(w, c, Head(c));
      ChainInside(cs, k, Head(c));
      OccursBelow(cs, k, w, c);
      assert (inner + [Head(w)])[i + 1..] == inner[i + 1..] + [Head(w)];
    }
  }

  lemma OccursHeld(w: WtoCycle, c: WtoCycle, u: Label)
    requires Occurs(w.components, c) && u in Flatten(c.components)
    ensures u in Flatten(w.components)
  {
    hide Flatten;
    var k :| 0 <= k < |w.components| && OccursOne(w.components[k], c);
    OccursHolds(w.components[k], c, u);
    HeldByPrefix(w.components, k, u);
  }

  lemma {:induction false} HeldAt(cs: seq<CycleOrLabel>, u: Label) returns (k: nat)
    requires u in Flatten(cs)
    ensures k < |cs| && u in FlattenOne(cs[k])
  {
    if u in FlattenOne(cs[|cs| - 1]) {
      k := |cs| - 1;
    } else {
      k := HeldAt(cs[..|cs| - 1], u);
    }
  }

  /** One nesting strictly extends another exactly when a cycle strictly around its label stands beside the other label. */
  lemma ExtendsIsBeside(cs: seq<CycleOrLabel>, u: Label, h: Label)
    requires HeadedTree(cs)
    ensures Extends(HeadsAround(cs, u), HeadsAround(cs, h)) <==> exists c :: Beside(cs, c, u, h)
  {
    hide Flatten, Distinct, HeadsAround, HeadedTree;
    var inner, outer := HeadsAround(cs, u), HeadsAround(cs, h);
    if Extends(inner, outer) {
      if u !in Flatten(cs) {
        NoHeadsAround(cs, u);
      }
      var c := StandingHolds(cs, u, |inner| - |outer| - 1);
      assert Beside(cs, c, u, h);
    }
    if c :| Beside(cs, c, u, h) {
      var i := HolderStands(cs, c, u);
      assert |inner| - |outer| == i + 1;
    }
  }

  /** For an ordering the builder made: which predecessors of a head the first guess leaves out. */
  lemma LeftOutIsBeside(g: Neighbours, w: Ordering, u: Label, h: Label)
    requires IsWeakTopologicalOrder(g, w.components) && NestingIsEnclosingHeads(g, w) && u in g && h in g
    ensures Extends(w.nesting[u], w.nesting[h]) <==> exists c :: Beside(w.components, c, u, h)
  {
    hide Flatten, Forward, HeadsAround, HeadsCycleOf, Precedes;
    StorageDistinct(w.components);
    ExtendsIsBeside(w.components, u, h);
  }

  lemma StorageDistinct(cs: seq<CycleOrLabel>)
    requires Distinct(Forward(cs))
    ensures Distinct(Flatten(cs))
  {
    hide Flatten, Forward;
    ForwardIsReverse(cs);
    var s := Flatten(cs);
    forall i, j | 0 <= i < j < |s| ensures s[i] != s[j] {
      assert Forward(cs)[|s| - 1 - j] == s[j] && Forward(cs)[|s| - 1 - i] == s[i];
    }
  }

  // ------------------------------------------------------------------ two sibling loops

  const A := Label("", 0, -1, "")
  const B := Label("", 1, -1, "")
  const H := Label("", 2, -1, "")
  const C := Label("", 3, -1, "")

  /** The loop of A and B, left from B into the loop of H and C. */
  function TwoLoops(): Neighbours {
    map[ENTRY := Adjacent({}, {A}), A := Adjacent({ENTRY, B}, {B}), B := Adjacent({A}, {A, H}),
        H := Adjacent({B, C}, {C}), C := Adjacent({H}, {H}), EXIT := Adjacent({}, {})]
  }

  function FirstLoop(): WtoCycle {
    WtoCycle([Node(B), Node(A)])
  }

  function SecondLoop(): WtoCycle {
    WtoCycle([Node(C), Node(H)])
  }

  /** Both loops at top level, in storage order. */
  function TwoLoopsOrder(): seq<CycleOrLabel> {
    [Nested(SecondLoop()), Nested(FirstLoop()), Node(ENTRY)]
  }

  lemma FlattenPair(x: Label, y: Label)
    ensures Flatten([Node(x), Node(y)]) == [x, y] && Forward([Node(x), Node(y)]) == [y, x]
  {
    var cs := [Node(x), Node(y)];
    assert cs[..1] == [Node(x)] && cs[..1][..0] == [];
    assert Flatten(cs[..1]) == [x] && Forward(cs[..1]) == [x];
    assert FlattenOne(cs[1]) == [y] && ForwardOne(cs[1]) == [y];
  }

  lemma TwoLoopsLabels()
    ensures Flatten(TwoLoopsOrder()) == [C, H, B, A, ENTRY] && Forward(TwoLoopsOrder()) == [ENTRY, A, B, H, C]
  {
    var cs := TwoLoopsOrder();
    FlattenPair(B, A);
    FlattenPair(C, H);
    assert cs[..2] == [Nested(SecondLoop()), Nested(FirstLoop())] && cs[..2][..1] == [Nested(SecondLoop())] && cs[..1][..0] == [];
    assert Flatten(cs[..2][..1]) == [C, H];
    assert Flatten(cs[..2]) == [C, H, B, A];
    assert Forward(cs[..2][..1]) == [H, C];
    assert Forward(cs[..2]) == [A, B, H, C];
  }

  lemma TwoLoopsCycles(w: WtoCycle)
    ensures Occurs(TwoLoopsOrder(), w) <==> w == FirstLoop() || w == SecondLoop()
  {
    var cs := TwoLoopsOrder();
    if w == FirstLoop() {
      OccursAt(cs, 1, w);
    }
    if w == SecondLoop() {
      OccursAt(cs, 0, w);
    }
    NodesHoldNone(FirstLoop().components, w);
    NodesHoldNone(SecondLoop().components, w);
  }

  lemma NodesHoldNone(cs: seq<CycleOrLabel>, w: WtoCycle)
    requires forall i :: 0 <= i < |cs| ==> cs[i].Node?
    ensures !Occurs(cs, w)
  {
  }

  lemma TwoLoopsReach(l: Label)
    ensures Reachable(TwoLoops(), l) <==> l in [ENTRY, A, B, H, C]
  {
    hide Reachable, IsPath;
    var g := TwoLoops();
    ReachableEntry(g);
    ReachableStep(g, ENTRY, A);
    ReachableStep(g, A, B);
    ReachableStep(g, B, H);
    ReachableStep(g, H, C);
    if Reachable(g, l) {
      ReachablePath(g, l);
      var p :| IsPath(g, p) && |p| > 0 && p[|p| - 1] == l;
      ReachableIsLeast(g, {ENTRY, A, B, H, C}, p);
    }
  }

  lemma ReachablePath(g: Neighbours, l: Label)
    requires Reachable(g, l)
    ensures exists p :: IsPath(g, p) && |p| > 0 && p[|p| - 1] == l
  {
  }

  /** A place of each label in the forward order. */
  lemma TwoLoopsOrdered()
    ensures var f := Forward(TwoLoopsOrder());
      Precedes(f, ENTRY, A) && Precedes(f, A, B) && Precedes(f, B, H) && Precedes(f, H, C)
  {
    hide Forward;
    TwoLoopsLabels();
    var f := Forward(TwoLoopsOrder());
    assert f[0] == ENTRY && f[1] == A && f[2] == B && f[3] == H && f[4] == C;
  }

  lemma TwoLoopsHeads(h: Label, u: Label)
    ensures HeadsCycleOf(TwoLoopsOrder(), h, u) <==> (h == A && (u == A || u == B)) || (h == H && (u == H || u == C))
  {
    hide Flatten, Occurs;
    var cs := TwoLoopsOrder();
    FlattenPair(B, A);
    FlattenPair(C, H);
    TwoLoopsCycles(FirstLoop());
    TwoLoopsCycles(SecondLoop());
    if HeadsCycleOf(cs, h, u) {
      var w :| Occurs(cs, w) && HasHead(w) && Head(w) == h && u in Flatten(w.components);
      TwoLoopsCycles(w);
    }
  }

  lemma TwoLoopsIsOrder()
    ensures WellFormed(TwoLoops()) && IsWeakTopologicalOrder(TwoLoops(), TwoLoopsOrder())
  {
    hide TwoLoops, TwoLoopsOrder, Flatten, Forward, Reachable, HeadsCycleOf, Occurs, Precedes, Edge, WellFormed;
    var g, cs := TwoLoops(), TwoLoopsOrder();
    TwoLoopsGraph();
    TwoLoopsLabels();
    TwoLoopsOrdered();
    forall l ensures l in Forward(cs) <==> Reachable(g, l) {
      TwoLoopsReach(l);
    }
    forall w | Occurs(cs, w) ensures HasHead(w) {
      TwoLoopsCycles(w);
    }
    forall h, u | HeadsCycleOf(cs, h, u) ensures h == u || Precedes(Forward(cs), h, u) {
      TwoLoopsHeads(h, u);
    }
    forall u, v | u in Forward(cs) && Edge(g, u, v)
      ensures (Precedes(Forward(cs), u, v) && !HeadsCycleOf(cs, v, u)) || HeadsCycleOf(cs, v, u)
    {
      TwoLoopsHeads(v, u);
      TwoLoopsEdges(u, v);
    }
  }

  lemma TwoLoopsGraph()
    ensures WellFormed(TwoLoops())
  {
  }

  lemma TwoLoopsEdges(u: Label, v: Label)
    ensures Edge(TwoLoops(), u, v) <==> (u, v) in [(ENTRY, A), (A, B), (B, A), (B, H), (H, C), (C, H)]
  {
  }

  /**
    B hands states to the head H and is in no cycle of H, yet its nesting strictly extends that of H: the
    first guess for H leaves it out, and with it everything that enters the second loop.
  */
  lemma SiblingIsLeftOut(w: Ordering)
    requires w.components == TwoLoopsOrder() && NestingIsEnclosingHeads(TwoLoops(), w)
    ensures WellFormed(TwoLoops()) && IsWeakTopologicalOrder(TwoLoops(), w.components)
    ensures Edge(TwoLoops(), B, H) && !HeadsCycleOf(w.components, H, B)
    ensures Extends(w.nesting[B], w.nesting[H]) && forall u :: Edge(TwoLoops(), u, H) ==> Extends(w.nesting[u], w.nesting[H])
  {
    hide Flatten, Forward, HeadsAround, HeadsCycleOf, Occurs;
    TwoLoopsIsOrder();
    TwoLoopsHeads(H, B);
    TwoLoopsLabels();
    StorageDistinct(w.components);
    FlattenPair(B, A);
    FlattenPair(C, H);
    TwoLoopsCycles(FirstLoop());
    TwoLoopsCycles(SecondLoop());
    TopHeads();
    assert Beside(w.components, FirstLoop(), B, H) && Beside(w.components, SecondLoop(), C, H);
    LeftOutIsBeside(TwoLoops(), w, B, H);
    LeftOutIsBeside(TwoLoops(), w, C, H);
  }

  lemma TopHeads()
    ensures HeadsAround(TwoLoopsOrder(), A) == [] && HeadsAround(TwoLoopsOrder(), H) == []
  {
    hide Flatten, Forward, HeadsAround;
    var cs := TwoLoopsOrder();
    TwoLoopsLabels();
    FlattenPair(B, A);
    FlattenPair(C, H);
    TwoLoopsDistinct();
    HeadsAroundAt(cs, 1, A);
    HeadsAroundAt(cs, 0, H);
    HeadHasNoneAround(FirstLoop());
    HeadHasNoneAround(SecondLoop());
  }

  lemma TwoLoopsDistinct()
    ensures Distinct(Flatten(TwoLoopsOrder())) && Distinct(Flatten(FirstLoop().components)) && Distinct(Flatten(SecondLoop().components))
  {
    hide Flatten;
    TwoLoopsLabels();
    FlattenPair(B, A);
    FlattenPair(C, H);
  }
}
