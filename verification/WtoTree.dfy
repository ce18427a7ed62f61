/**
  The finished ordering: nested components stored in reverse order (src/cfg/wto.rs:33-66, 157-236), and
  how it reads off the builder's partitions.
*/
module WtoTree {
  import opened Wrappers
  import opened Graph
  import opened WtoControl
  import opened WtoLayout
  import opened WtoOrder
  import opened WtoFlat

  datatype CycleOrLabel = Node(node: Label) | Nested(cycle: WtoCycle)

  /** Sub-components in reverse order; the head is the last one. */
  datatype WtoCycle = WtoCycle(components: seq<CycleOrLabel>)

  predicate HasHead(c: WtoCycle) {
    |c.components| > 0 && c.components[|c.components| - 1].Node?
  }

  function Head(c: WtoCycle): Label
    requires HasHead(c)
  {
    c.components[|c.components| - 1].node
  }

  /** Labels in storage order. */
  ghost function Flatten(cs: seq<CycleOrLabel>): seq<Label> {
    if cs == [] then [] else Flatten(cs[..|cs| - 1]) + FlattenOne(cs[|cs| - 1])
  }

  ghost function FlattenOne(c: CycleOrLabel): seq<Label> {
    match c
    case Node(l) => [l]
    case Nested(w) => Flatten(w.components)
  }

  /** Labels in the order the iterators yield them: components from the back, cycles head first. */
  ghost function Forward(cs: seq<CycleOrLabel>): seq<Label> {
    if cs == [] then [] else ForwardOne(cs[|cs| - 1]) + Forward(cs[..|cs| - 1])
  }

  ghost function ForwardOne(c: CycleOrLabel): seq<Label> {
    match c
    case Node(l) => [l]
    case Nested(w) => Forward(w.components)
  }

  /** `w` occurs in `cs` at some depth. */
  ghost predicate Occurs(cs: seq<CycleOrLabel>, w: WtoCycle) {
    exists i :: 0 <= i < |cs| && OccursOne(cs[i], w)
  }

  ghost predicate OccursOne(c: CycleOrLabel, w: WtoCycle) {
    match c
    case Node(_) => false
    case Nested(v) => v == w || Occurs(v.components, w)
  }

  /** `h` heads a cycle of `cs`, at some depth, that holds `u`. */
  ghost predicate HeadsCycleOf(cs: seq<CycleOrLabel>, h: Label, u: Label) {
    exists w :: Occurs(cs, w) && HasHead(w) && Head(w) == h && u in Flatten(w.components)
  }

  /**
    The heads of the cycles of `cs` that strictly enclose `u`, innermost first; a cycle that `u`
    itself heads is left out.
  */
  ghost function HeadsAround(cs: seq<CycleOrLabel>, u: Label): seq<Label> {
    if cs == [] then []
    else if cs[|cs| - 1].Nested? && u in FlattenOne(cs[|cs| - 1]) then HeadsAroundOne(cs[|cs| - 1], u)
    else HeadsAround(cs[..|cs| - 1], u)
  }

  ghost function HeadsAroundOne(c: CycleOrLabel, u: Label): seq<Label> {
    match c
    case Node(_) => []
    case Nested(w) => HeadsAround(w.components, u) + (if HasHead(w) && Head(w) != u then [Head(w)] else [])
  }

  ghost function Reverse<T>(s: seq<T>): seq<T> {
    seq(|s|, i requires 0 <= i < |s| => s[|s| - 1 - i])
  }

  lemma ReverseConcat<T>(a: seq<T>, b: seq<T>)
    ensures Reverse(a + b) == Reverse(b) + Reverse(a)
  {
  }

  lemma {:induction false} ForwardIsReverse(cs: seq<CycleOrLabel>)
    ensures Forward(cs) == Reverse(Flatten(cs))
  {
    if cs != [] {
      var c := cs[|cs| - 1];
      ForwardIsReverse(cs[..|cs| - 1]);
      ForwardOneIsReverse(c);
      ReverseConcat(Flatten(cs[..|cs| - 1]), FlattenOne(c));
    }
  }

  lemma {:induction false} ForwardOneIsReverse(c: CycleOrLabel)
    ensures ForwardOne(c) == Reverse(FlattenOne(c))
  {
    match c
    case Node(_) =>
    case Nested(w) => ForwardIsReverse(w.components);
  }

  // ------------------------------------------------------------------ from partitions to the tree

  /** Every nested cycle has a higher index than the cycle it stands in. */
  ghost predicate Ascending(cycles: seq<BuilderCycle>, low: nat, comps: seq<BuilderComponent>) {
    forall c :: c in comps && c.CycleIdx? ==> low <= c.idx < |cycles|
  }

  ghost predicate AllAscending(cycles: seq<BuilderCycle>) {
    forall d :: 0 <= d < |cycles| ==> Ascending(cycles, d + 1, cycles[d].components)
  }

  ghost function Tree(cycles: seq<BuilderCycle>, low: nat, comps: seq<BuilderComponent>): (r: seq<CycleOrLabel>)
    ensures |r| == |comps|
    decreases if low < |cycles| then |cycles| - low else 0, |comps|, 1
  {
    if comps == [] then []
    else Tree(cycles, low, comps[..|comps| - 1]) + [TreeOne(cycles, low, comps[|comps| - 1], |comps|)]
  }

  ghost function TreeOne(cycles: seq<BuilderCycle>, low: nat, c: BuilderComponent, n: nat): CycleOrLabel
    decreases if low < |cycles| then |cycles| - low else 0, n, 0
  {
    match c
    case LabelComponent(l) => Node(l)
    case CycleIdx(d) =>
      if low <= d < |cycles| then Nested(WtoCycle(Tree(cycles, d + 1, cycles[d].components))) else Nested(WtoCycle([]))
  }

  ghost function TreeCycle(cycles: seq<BuilderCycle>, d: nat): WtoCycle
    requires d < |cycles|
  {
    WtoCycle(Tree(cycles, d + 1, cycles[d].components))
  }

  /** The tree of one component, whatever the lower bound it is read under. */
  ghost function TreeComponent(cycles: seq<BuilderCycle>, c: BuilderComponent): CycleOrLabel
    requires c.CycleIdx? ==> c.idx < |cycles|
  {
    match c
    case LabelComponent(l) => Node(l)
    case CycleIdx(d) => Nested(TreeCycle(cycles, d))
  }

  lemma {:induction false} TreeAt(cycles: seq<BuilderCycle>, low: nat, comps: seq<BuilderComponent>, i: nat)
    requires Ascending(cycles, low, comps) && i < |comps|
    ensures comps[i].CycleIdx? ==> comps[i].idx < |cycles|
    ensures Tree(cycles, low, comps)[i] == TreeComponent(cycles, comps[i])
    decreases |comps|
  {
    assert comps[i] in comps;
    if i < |comps| - 1 {
      TreeAt(cycles, low, comps[..|comps| - 1], i);
    }
  }

  lemma {:induction false} FlattenTree(cycles: seq<BuilderCycle>, low: nat, comps: seq<BuilderComponent>)
    ensures Flatten(Tree(cycles, low, comps)) == Flat(cycles, low, comps)
    decreases if low < |cycles| then |cycles| - low else 0, |comps|, 1
  {
    hide Flatten, FlattenOne, FlatOne, TreeOne;
    if comps == [] {
      FlattenNone();
    } else {
      var n := |comps| - 1;
      FlattenTree(cycles, low, comps[..n]);
      FlattenTreeOne(cycles, low, comps[n], |comps|);
      FlattenLast(Tree(cycles, low, comps[..n]), TreeOne(cycles, low, comps[n], |comps|));
    }
  }

  lemma {:induction false} FlattenTreeOne(cycles: seq<BuilderCycle>, low: nat, c: BuilderComponent, n: nat)
    ensures FlattenOne(TreeOne(cycles, low, c, n)) == FlatOne(cycles, low, c, n)
    decreases if low < |cycles| then |cycles| - low else 0, n, 0
  {
    hide Tree, Flat, Flatten;
    if c.CycleIdx? && low <= c.idx < |cycles| {
      FlattenTree(cycles, c.idx + 1, cycles[c.idx].components);
    } else {
      FlattenNone();
    }
  }

  lemma FlattenNone()
    ensures Flatten([]) == []
  {
  }

  lemma FlattenLast(cs: seq<CycleOrLabel>, c: CycleOrLabel)
    ensures Flatten(cs + [c]) == Flatten(cs) + FlattenOne(c)
  {
    assert (cs + [c])[..|cs|] == cs;
  }

  lemma FinalAscending(lay: Layout, order: seq<Label>, heads: seq<Label>)
    requires Shelved(lay, [], order, heads)
    ensures AllAscending(lay.cycles)
    ensures Ascending(lay.cycles, 0, lay.top)
  {
    hide IsOpen, CyclesPlaced, LabelsPlaced;
    forall d, c | 0 <= d < |lay.cycles| && c in lay.cycles[d].components && c.CycleIdx?
      ensures d + 1 <= c.idx < |lay.cycles|
    {
      assert c in Part(lay, Some(d));
      assert Entry(lay, [], order, Some(d), c);
      assert ParentFirst(lay.cycles, c.idx);
    }
    forall c | c in lay.top && c.CycleIdx?
      ensures c.idx < |lay.cycles|
    {
      assert c in Part(lay, None);
      assert Entry(lay, [], order, None, c);
    }
  }

  // ------------------------------------------------------------------ membership

  lemma {:induction false} FlatHolds(cycles: seq<BuilderCycle>, low: nat, comps: seq<BuilderComponent>, c: BuilderComponent)
    requires Ascending(cycles, low, comps) && c in comps
    ensures c.LabelComponent? ==> c.node in Flat(cycles, low, comps)
    ensures c.CycleIdx? ==> c.idx < |cycles| && forall l :: l in FlatCycle(cycles, c.idx) ==> l in Flat(cycles, low, comps)
    decreases |comps|
  {
    var z := comps[|comps| - 1];
    var init := comps[..|comps| - 1];
    assert z in comps;
    if c != z {
      assert c in init;
      FlatHolds(cycles, low, init, c);
    }
    assert Flat(cycles, low, comps) == Flat(cycles, low, init) + FlatOne(cycles, low, z, |comps|);
  }

  lemma {:induction false} FlatComesFrom(cycles: seq<BuilderCycle>, low: nat, comps: seq<BuilderComponent>, l: Label)
    returns (c: BuilderComponent)
    requires Ascending(cycles, low, comps) && l in Flat(cycles, low, comps)
    ensures c in comps
    ensures c.LabelComponent? ==> c.node == l
    ensures c.CycleIdx? ==> c.idx < |cycles| && low <= c.idx && l in FlatCycle(cycles, c.idx)
    decreases |comps|
  {
    var z := comps[|comps| - 1];
    var init := comps[..|comps| - 1];
    assert z in comps;
    if l in FlatOne(cycles, low, z, |comps|) {
      c := z;
    } else {
      c := FlatComesFrom(cycles, low, init, l);
    }
  }

  /** What an inner cycle holds, an enclosing one holds too. */
  lemma {:induction false} FlatGrows(lay: Layout, order: seq<Label>, heads: seq<Label>, d: nat, h: nat, l: Label)
    requires Shelved(lay, [], order, heads) && h < |lay.cycles| && Encloses(lay.cycles, d, h)
    requires l in FlatCycle(lay.cycles, h)
    ensures d < |lay.cycles| && l in FlatCycle(lay.cycles, d)
    decreases h
  {
    hide Flat, Entries, LabelsPlaced, Part, Shelved;
    if d != h {
      var p := lay.cycles[h].parent.value;
      FinalAscending(lay, order, heads);
      FinalPlaced(lay, order, heads, h);
      FlatHolds(lay.cycles, p + 1, lay.cycles[p].components, CycleIdx(h));
      FlatGrows(lay, order, heads, d, p, l);
    }
  }

  lemma FinalPlaced(lay: Layout, order: seq<Label>, heads: seq<Label>, d: nat)
    requires Shelved(lay, [], order, heads) && d < |lay.cycles|
    ensures |heads| == |lay.cycles| && CyclePlaced(lay, order, heads, d)
    ensures lay.cycles[d].parent.Some? ==>
      lay.cycles[d].parent.value < d && CycleIdx(d) in lay.cycles[lay.cycles[d].parent.value].components
    ensures lay.cycles[d].parent.None? ==> CycleIdx(d) in lay.top
  {
    hide Entries, LabelsPlaced;
    assert !IsOpen([], d);
    assert ParentFirst(lay.cycles, d);
  }

  lemma FinalHome(lay: Layout, order: seq<Label>, heads: seq<Label>, sc: Option<nat>, c: BuilderComponent)
    requires Shelved(lay, [], order, heads) && ValidScope(lay, sc) && c in Part(lay, sc)
    ensures c.LabelComponent? ==> Home(lay, c.node) == sc && c.node in order
    ensures c.CycleIdx? ==> c.idx < |lay.cycles| && lay.cycles[c.idx].parent == sc
  {
    hide CyclesPlaced, LabelsPlaced;
    assert Entry(lay, [], order, sc, c);
  }

  lemma FinalLabel(lay: Layout, order: seq<Label>, heads: seq<Label>, l: Label)
    requires Shelved(lay, [], order, heads) && l in order
    ensures ValidScope(lay, Home(lay, l)) && LabelComponent(l) in Part(lay, Home(lay, l))
  {
    hide CyclesPlaced, Entries;
  }

  /** The labels of a finished cycle are exactly those whose home it encloses. */
  lemma {:induction false} FlatMembers(lay: Layout, order: seq<Label>, heads: seq<Label>, d: nat, l: Label)
    requires Shelved(lay, [], order, heads) && d < |lay.cycles|
    ensures l in FlatCycle(lay.cycles, d) <==> l in Members(lay, order, d)
    decreases |lay.cycles| - d
  {
    hide Flat, Entries, LabelsPlaced, Shelved, Encloses;
    FinalAscending(lay, order, heads);
    if l in FlatCycle(lay.cycles, d) {
      var c := FlatComesFrom(lay.cycles, d + 1, lay.cycles[d].components, l);
      assert c in Part(lay, Some(d));
      FinalHome(lay, order, heads, Some(d), c);
      if c.LabelComponent? {
        SelfInCycle(lay, l);
      } else {
        FlatMembers(lay, order, heads, c.idx, l);
        ParentEncloses(lay, order, heads, c.idx);
        EnclosesUp(lay.cycles, d, c.idx, lay.containing[l]);
      }
    }
    if l in Members(lay, order, d) {
      var h := lay.containing[l];
      FinalLabel(lay, order, heads, l);
      FlatHolds(lay.cycles, h + 1, lay.cycles[h].components, LabelComponent(l));
      FlatGrows(lay, order, heads, d, h, l);
    }
  }

  lemma ParentEncloses(lay: Layout, order: seq<Label>, heads: seq<Label>, e: nat)
    requires Shelved(lay, [], order, heads) && e < |lay.cycles| && lay.cycles[e].parent.Some?
    ensures Encloses(lay.cycles, lay.cycles[e].parent.value, e)
  {
    hide Entries, LabelsPlaced, CyclesPlaced;
    assert ParentFirst(lay.cycles, e);
    assert Encloses(lay.cycles, lay.cycles[e].parent.value, lay.cycles[e].parent.value);
  }

  // ------------------------------------------------------------------ cycles in the tree

  lemma OccursAt(cs: seq<CycleOrLabel>, i: nat, w: WtoCycle)
    requires i < |cs| && cs[i] == Nested(w)
    ensures Occurs(cs, w)
  {
    assert OccursOne(cs[i], w);
  }

  lemma OccursBelow(cs: seq<CycleOrLabel>, i: nat, v: WtoCycle, w: WtoCycle)
    requires i < |cs| && cs[i] == Nested(v) && Occurs(v.components, w)
    ensures Occurs(cs, w)
  {
    assert OccursOne(cs[i], w);
  }

  lemma {:induction false} OccursTrans(cs: seq<CycleOrLabel>, v: WtoCycle, w: WtoCycle)
    requires Occurs(cs, v) && Occurs(v.components, w)
    ensures Occurs(cs, w)
  {
    var i :| 0 <= i < |cs| && OccursOne(cs[i], v);
    OccursOneTrans(cs[i], v, w);
  }

  lemma {:induction false} OccursOneTrans(c: CycleOrLabel, v: WtoCycle, w: WtoCycle)
    requires OccursOne(c, v) && Occurs(v.components, w)
    ensures OccursOne(c, w)
  {
    if c.cycle != v {
      OccursTrans(c.cycle.components, v, w);
    }
  }

  /** A nested cycle of a partition is a nested cycle of its tree. */
  lemma TreeHolds(cycles: seq<BuilderCycle>, low: nat, comps: seq<BuilderComponent>, d: nat)
    requires Ascending(cycles, low, comps) && CycleIdx(d) in comps
    ensures d < |cycles| && Occurs(Tree(cycles, low, comps), TreeCycle(cycles, d))
  {
    var i :| 0 <= i < |comps| && comps[i] == CycleIdx(d);
    TreeAt(cycles, low, comps, i);
    OccursAt(Tree(cycles, low, comps), i, TreeCycle(cycles, d));
  }

  /** Every cycle the builder made occurs in the final ordering. */
  lemma {:induction false} CycleOccurs(lay: Layout, order: seq<Label>, heads: seq<Label>, d: nat)
    requires Shelved(lay, [], order, heads) && d < |lay.cycles|
    ensures Occurs(Tree(lay.cycles, 0, lay.top), TreeCycle(lay.cycles, d))
    decreases d
  {
    hide Tree, Shelved, Occurs, CyclePlaced, Ascending;
    FinalAscending(lay, order, heads);
    FinalPlaced(lay, order, heads, d);
    if lay.cycles[d].parent.None? {
      TreeHolds(lay.cycles, 0, lay.top, d);
    } else {
      var p := lay.cycles[d].parent.value;
      CycleOccurs(lay, order, heads, p);
      TreeHolds(lay.cycles, p + 1, lay.cycles[p].components, d);
      OccursTrans(Tree(lay.cycles, 0, lay.top), TreeCycle(lay.cycles, p), TreeCycle(lay.cycles, d));
    }
  }

  /** Conversely, a cycle that occurs is one the builder made. */
  lemma {:induction false} OccursIsCycle(cycles: seq<BuilderCycle>, low: nat, comps: seq<BuilderComponent>, w: WtoCycle) returns (d: nat)
    requires AllAscending(cycles) && Ascending(cycles, low, comps) && Occurs(Tree(cycles, low, comps), w)
    ensures d < |cycles| && w == TreeCycle(cycles, d)
    decreases if low < |cycles| then |cycles| - low else 0
  {
    hide Tree, Ascending;
    var i :| 0 <= i < |comps| && OccursOne(Tree(cycles, low, comps)[i], w);
    TreeAt(cycles, low, comps, i);
    AscendingAt(cycles, low, comps, i);
    d := comps[i].idx;
    if w != TreeCycle(cycles, d) {
      d := OccursIsCycle(cycles, d + 1, cycles[d].components, w);
    }
  }

  lemma AscendingAt(cycles: seq<BuilderCycle>, low: nat, comps: seq<BuilderComponent>, i: nat)
    requires Ascending(cycles, low, comps) && i < |comps|
    ensures comps[i].CycleIdx? ==> low <= comps[i].idx < |cycles|
  {
    assert comps[i] in comps;
  }

  /** The head of a cycle in the tree is the head the builder gave it. */
  lemma TreeHead(lay: Layout, order: seq<Label>, heads: seq<Label>, d: nat)
    requires Shelved(lay, [], order, heads) && d < |lay.cycles|
    ensures |heads| == |lay.cycles| && HasHead(TreeCycle(lay.cycles, d)) && Head(TreeCycle(lay.cycles, d)) == heads[d]
  {
    hide Tree, Shelved;
    FinalAscending(lay, order, heads);
    FinalPlaced(lay, order, heads, d);
    TreeAt(lay.cycles, d + 1, lay.cycles[d].components, |lay.cycles[d].components| - 1);
  }
}
