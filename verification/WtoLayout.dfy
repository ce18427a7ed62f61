/**
  Where the builder puts what it finishes: the partitions, the cycles and the label table
  (src/cfg/wto.rs:255-264, 291-301, 366-371, 438-512).

  `hs` lists the open cycles, outermost first. `order` lists the placed labels in the order of
  placement, which is the reverse of the final order. `heads[c]` is the head of cycle `c`.
*/
module WtoLayout {
  import opened Wrappers
  import opened Graph
  import opened WtoControl

  datatype BuilderComponent = LabelComponent(node: Label) | CycleIdx(idx: nat)

  datatype BuilderCycle = BuilderCycle(components: seq<BuilderComponent>, parent: Option<nat>)

  datatype Layout = Layout(top: seq<BuilderComponent>, cycles: seq<BuilderCycle>, containing: map<Label, nat>)

  predicate ValidScope(lay: Layout, sc: Option<nat>) {
    sc.Some? ==> sc.value < |lay.cycles|
  }

  function Part(lay: Layout, sc: Option<nat>): seq<BuilderComponent>
    requires ValidScope(lay, sc)
  {
    if sc.None? then lay.top else lay.cycles[sc.value].components
  }

  function AddTo(lay: Layout, sc: Option<nat>, c: BuilderComponent): (r: Layout)
    requires ValidScope(lay, sc)
    ensures |r.cycles| == |lay.cycles| && r.containing == lay.containing
    ensures forall i :: 0 <= i < |lay.cycles| ==> r.cycles[i].parent == lay.cycles[i].parent
    ensures forall s :: ValidScope(lay, s) ==> Part(r, s) == if s == sc then Part(lay, s) + [c] else Part(lay, s)
  {
    if sc.None? then lay.(top := lay.top + [c])
    else lay.(cycles := lay.cycles[sc.value := lay.cycles[sc.value].(components := lay.cycles[sc.value].components + [c])])
  }

  /** The cycle that directly holds a label, if any. */
  ghost function Home(lay: Layout, l: Label): Option<nat> {
    if l in lay.containing then Some(lay.containing[l]) else None
  }

  /** `c` is `d` or encloses it. */
  ghost predicate Encloses(cycles: seq<BuilderCycle>, c: nat, d: nat)
    decreases d
  {
    || c == d
    || (d < |cycles| && cycles[d].parent.Some? && cycles[d].parent.value < d
        && Encloses(cycles, c, cycles[d].parent.value))
  }

  ghost predicate InCycle(lay: Layout, c: nat, l: Label) {
    l in lay.containing && Encloses(lay.cycles, c, lay.containing[l])
  }

  ghost function ScopeAt(hs: seq<Kind>, i: nat): Option<nat>
    requires i <= |hs| && forall j :: 0 <= j < |hs| ==> hs[j].Heading?
  {
    if i == 0 then None else Some(hs[i - 1].cycle)
  }

  ghost predicate AllHeadings(hs: seq<Kind>) {
    forall j :: 0 <= j < |hs| ==> hs[j].Heading?
  }

  ghost predicate IsOpen(hs: seq<Kind>, d: nat) {
    exists i :: 0 <= i < |hs| && hs[i].Heading? && hs[i].cycle == d
  }

  ghost predicate ParentFirst(cycles: seq<BuilderCycle>, i: nat)
    requires i < |cycles|
  {
    cycles[i].parent.Some? ==> cycles[i].parent.value < i
  }

  ghost predicate ChainLinked(hs: seq<Kind>, cycles: seq<BuilderCycle>, heads: seq<Label>, i: nat)
    requires |heads| == |cycles| && AllHeadings(hs) && i < |hs|
  {
    && hs[i].cycle < |cycles|
    && heads[hs[i].cycle] == hs[i].vertex
    && cycles[hs[i].cycle].parent == ScopeAt(hs, i)
  }

  /** The open cycles form one chain of parents. */
  ghost predicate Chain(hs: seq<Kind>, cycles: seq<BuilderCycle>, heads: seq<Label>) {
    && |heads| == |cycles|
    && AllHeadings(hs)
    && (forall i :: 0 <= i < |cycles| ==> ParentFirst(cycles, i))
    && (forall i :: 0 <= i < |hs| ==> ChainLinked(hs, cycles, heads, i))
  }

  /** Every entry of a partition belongs there. */
  ghost predicate Entry(lay: Layout, hs: seq<Kind>, order: seq<Label>, sc: Option<nat>, c: BuilderComponent) {
    match c
    case LabelComponent(l) => l in order && Home(lay, l) == sc
    case CycleIdx(d) => d < |lay.cycles| && lay.cycles[d].parent == sc && !IsOpen(hs, d)
  }

  ghost predicate Entries(lay: Layout, hs: seq<Kind>, order: seq<Label>) {
    forall sc, c :: ValidScope(lay, sc) && c in Part(lay, sc) ==> Entry(lay, hs, order, sc, c)
  }

  /** Every placed label is in the partition its table entry names. */
  ghost predicate LabelsPlaced(lay: Layout, order: seq<Label>) {
    && (forall l :: l in lay.containing ==> l in order)
    && (forall l :: l in order ==> ValidScope(lay, Home(lay, l)) && LabelComponent(l) in Part(lay, Home(lay, l)))
  }

  /** A finished cycle is in its parent's partition and ends with its head. */
  ghost predicate CyclePlaced(lay: Layout, order: seq<Label>, heads: seq<Label>, d: nat)
    requires d < |lay.cycles| == |heads|
  {
    && ValidScope(lay, lay.cycles[d].parent)
    && CycleIdx(d) in Part(lay, lay.cycles[d].parent)
    && |lay.cycles[d].components| > 0
    && lay.cycles[d].components[|lay.cycles[d].components| - 1] == LabelComponent(heads[d])
  }

  ghost predicate CyclesPlaced(lay: Layout, hs: seq<Kind>, order: seq<Label>, heads: seq<Label>)
    requires |lay.cycles| == |heads|
  {
    forall d :: 0 <= d < |lay.cycles| && !IsOpen(hs, d) ==> CyclePlaced(lay, order, heads, d)
  }

  ghost predicate Shelved(lay: Layout, hs: seq<Kind>, order: seq<Label>, heads: seq<Label>) {
    && Chain(hs, lay.cycles, heads)
    && Entries(lay, hs, order)
    && LabelsPlaced(lay, order)
    && CyclesPlaced(lay, hs, order, heads)
  }

  // ------------------------------------------------------------------ enclosing cycles

  ghost predicate SameParents(cycles: seq<BuilderCycle>, cycles': seq<BuilderCycle>) {
    && |cycles| <= |cycles'|
    && forall i :: 0 <= i < |cycles| ==> cycles'[i].parent == cycles[i].parent
  }

  lemma {:induction false} EnclosesSame(cycles: seq<BuilderCycle>, cycles': seq<BuilderCycle>, c: nat, d: nat)
    requires SameParents(cycles, cycles') && d < |cycles|
    ensures Encloses(cycles', c, d) == Encloses(cycles, c, d)
    decreases d
  {
    if c != d && cycles[d].parent.Some? && cycles[d].parent.value < d {
      EnclosesSame(cycles, cycles', c, cycles[d].parent.value);
    }
  }

  ghost predicate OpenUpTo(hs: seq<Kind>, i: nat, c: nat) {
    exists j :: 0 <= j <= i && j < |hs| && hs[j].Heading? && hs[j].cycle == c
  }

  lemma OpenUpToStep(hs: seq<Kind>, i: nat, c: nat)
    requires AllHeadings(hs) && i < |hs|
    ensures OpenUpTo(hs, i, c) <==> hs[i].cycle == c || (i > 0 && OpenUpTo(hs, i - 1, c))
  {
    if i > 0 && OpenUpTo(hs, i - 1, c) {
      var j :| 0 <= j <= i - 1 && j < |hs| && hs[j].Heading? && hs[j].cycle == c;
      assert j <= i;
    }
  }

  lemma EnclosesStep(cycles: seq<BuilderCycle>, c: nat, d: nat)
    requires d < |cycles| && (cycles[d].parent.Some? ==> cycles[d].parent.value < d)
    ensures Encloses(cycles, c, d) <==> c == d || (cycles[d].parent.Some? && Encloses(cycles, c, cycles[d].parent.value))
  {
  }

  lemma ChainLink(hs: seq<Kind>, cycles: seq<BuilderCycle>, heads: seq<Label>, i: nat)
    requires Chain(hs, cycles, heads) && i < |hs|
    ensures AllHeadings(hs) && hs[i].cycle < |cycles|
    ensures cycles[hs[i].cycle].parent == ScopeAt(hs, i)
    ensures i > 0 ==> hs[i - 1].cycle < hs[i].cycle
  {
    assert ChainLinked(hs, cycles, heads, i);
    assert ParentFirst(cycles, hs[i].cycle);
  }

  /** What encloses an open cycle is exactly the open cycles at or outside it. */
  lemma {:induction false} OpenEncloses(hs: seq<Kind>, cycles: seq<BuilderCycle>, heads: seq<Label>, c: nat, i: nat)
    requires Chain(hs, cycles, heads) && AllHeadings(hs) && i < |hs|
    ensures Encloses(cycles, c, hs[i].cycle) <==> OpenUpTo(hs, i, c)
    decreases i
  {
    hide Chain, Encloses, OpenUpTo;
    ChainLink(hs, cycles, heads, i);
    EnclosesStep(cycles, c, hs[i].cycle);
    OpenUpToStep(hs, i, c);
    if i > 0 {
      OpenEncloses(hs, cycles, heads, c, i - 1);
    }
  }

  lemma {:induction false} EnclosesUp(cycles: seq<BuilderCycle>, a: nat, c: nat, d: nat)
    requires Encloses(cycles, a, c) && Encloses(cycles, c, d)
    ensures Encloses(cycles, a, d)
    decreases d
  {
    if c != d {
      EnclosesUp(cycles, a, c, cycles[d].parent.value);
    }
  }

  lemma {:induction false} EnclosesSmaller(cycles: seq<BuilderCycle>, c: nat, d: nat)
    requires Encloses(cycles, c, d)
    ensures c <= d
    decreases d
  {
    if c != d {
      EnclosesSmaller(cycles, c, cycles[d].parent.value);
    }
  }

  // ------------------------------------------------------------------ a label on its own

  ghost function PlaceLayout(lay: Layout, sc: Option<nat>, u: Label): (r: Layout)
    requires ValidScope(lay, sc)
    ensures |r.cycles| == |lay.cycles| && SameParents(lay.cycles, r.cycles)
  {
    var a := AddTo(lay, sc, LabelComponent(u));
    if sc.Some? then a.(containing := a.containing[u := sc.value]) else a
  }

  ghost predicate PlacedBy(lay: Layout, lay': Layout, sc: Option<nat>, u: Label, c: BuilderComponent) {
    && ValidScope(lay, sc)
    && |lay'.cycles| == |lay.cycles| && SameParents(lay.cycles, lay'.cycles)
    && (forall s :: ValidScope(lay, s) ==> Part(lay', s) == if s == sc then Part(lay, s) + [c] else Part(lay, s))
    && (forall l :: l != u ==> Home(lay', l) == Home(lay, l))
  }

  lemma PlaceLayoutFacts(lay: Layout, sc: Option<nat>, u: Label)
    requires ValidScope(lay, sc) && u !in lay.containing
    ensures PlacedBy(lay, PlaceLayout(lay, sc, u), sc, u, LabelComponent(u))
    ensures Home(PlaceLayout(lay, sc, u), u) == sc
    ensures PlaceLayout(lay, sc, u).containing.Keys <= lay.containing.Keys + {u}
  {
    hide AddTo;
  }

  lemma PlaceKeepsShelved(lay: Layout, lay': Layout, hs: seq<Kind>, order: seq<Label>, heads: seq<Label>, sc: Option<nat>, u: Label)
    requires Shelved(lay, hs, order, heads)
    requires u !in order && sc == ScopeAt(hs, |hs|) && ValidScope(lay, sc)
    requires lay' == PlaceLayout(lay, sc, u)
    ensures Shelved(lay', hs, order + [u], heads)
  {
    hide PlaceLayout, Entry, Entries, LabelsPlaced, CyclesPlaced, Part, Chain;
    UnplacedFree(lay, order, u);
    PlaceLayoutFacts(lay, sc, u);
    ChainSame(hs, lay.cycles, lay'.cycles, heads);
    NewLabelEntry(lay', hs, order, sc, u);
    EntriesGrow(lay, lay', hs, order, sc, u, LabelComponent(u));
    PlacedLabels(lay, lay', order, sc, u);
    CyclesStayPlaced(lay, lay', hs, order, heads, sc, u, LabelComponent(u));
  }

  lemma TopScopeValid(lay: Layout, hs: seq<Kind>, heads: seq<Label>)
    requires Chain(hs, lay.cycles, heads)
    ensures AllHeadings(hs) && ValidScope(lay, ScopeAt(hs, |hs|))
  {
    if hs != [] {
      assert ChainLinked(hs, lay.cycles, heads, |hs| - 1);
    }
  }

  lemma UnplacedFree(lay: Layout, order: seq<Label>, u: Label)
    requires LabelsPlaced(lay, order) && u !in order
    ensures u !in lay.containing
  {
  }

  lemma ChainSame(hs: seq<Kind>, cycles: seq<BuilderCycle>, cycles': seq<BuilderCycle>, heads: seq<Label>)
    requires Chain(hs, cycles, heads) && |cycles'| == |cycles| && SameParents(cycles, cycles')
    ensures Chain(hs, cycles', heads)
  {
    forall i | 0 <= i < |cycles'| ensures ParentFirst(cycles', i) {
      assert ParentFirst(cycles, i);
    }
    forall i | 0 <= i < |hs| ensures ChainLinked(hs, cycles', heads, i) {
      assert ChainLinked(hs, cycles, heads, i);
    }
  }

  lemma EntriesGrow(lay: Layout, lay': Layout, hs: seq<Kind>, order: seq<Label>, sc: Option<nat>, u: Label, n: BuilderComponent)
    requires Entries(lay, hs, order) && PlacedBy(lay, lay', sc, u, n) && u !in order
    requires Entry(lay', hs, order + [u], sc, n)
    ensures Entries(lay', hs, order + [u])
  {
    hide Entry, Part;
    forall s, c | ValidScope(lay', s) && c in Part(lay', s)
      ensures Entry(lay', hs, order + [u], s, c)
    {
      assert ValidScope(lay, s);
      if c in Part(lay, s) {
        assert Entry(lay, hs, order, s, c);
        EntryKept(lay, lay', hs, order, sc, u, n, s, c);
      }
    }
  }

  lemma CyclesStayPlaced(lay: Layout, lay': Layout, hs: seq<Kind>, order: seq<Label>, heads: seq<Label>, sc: Option<nat>,
      u: Label, n: BuilderComponent)
    requires Chain(hs, lay.cycles, heads) && sc == ScopeAt(hs, |hs|)
    requires CyclesPlaced(lay, hs, order, heads) && PlacedBy(lay, lay', sc, u, n)
    ensures CyclesPlaced(lay', hs, order + [u], heads)
  {
    hide Chain, Part, IsOpen, ScopeAt;
    ChainLength(hs, lay.cycles, heads);
    forall d | 0 <= d < |lay'.cycles| && !IsOpen(hs, d)
      ensures CyclePlaced(lay', order + [u], heads, d)
    {
      assert CyclePlaced(lay, order, heads, d);
      ClosedNotScope(hs, lay.cycles, heads, sc, d);
      CycleStaysPlaced(lay, lay', order, heads, sc, u, n, d);
    }
  }

  lemma ChainLength(hs: seq<Kind>, cycles: seq<BuilderCycle>, heads: seq<Label>)
    requires Chain(hs, cycles, heads)
    ensures |heads| == |cycles| && AllHeadings(hs)
  {
  }

  lemma CycleStaysPlaced(lay: Layout, lay': Layout, order: seq<Label>, heads: seq<Label>, sc: Option<nat>,
      u: Label, n: BuilderComponent, d: nat)
    requires |heads| == |lay.cycles| && d < |lay.cycles| && sc != Some(d)
    requires PlacedBy(lay, lay', sc, u, n) && CyclePlaced(lay, order, heads, d)
    ensures CyclePlaced(lay', order + [u], heads, d)
  {
    assert Part(lay', Some(d)) == Part(lay, Some(d));
  }

  lemma PlacedLabels(lay: Layout, lay': Layout, order: seq<Label>, sc: Option<nat>, u: Label)
    requires LabelsPlaced(lay, order) && u !in order && PlacedBy(lay, lay', sc, u, LabelComponent(u))
    requires Home(lay', u) == sc && lay'.containing.Keys <= lay.containing.Keys + {u}
    ensures LabelsPlaced(lay', order + [u])
  {
    forall l | l in order + [u]
      ensures ValidScope(lay', Home(lay', l)) && LabelComponent(l) in Part(lay', Home(lay', l))
    {
      if l == u {
        assert Part(lay', sc) == Part(lay, sc) + [LabelComponent(u)];
      } else {
        assert l in order && Home(lay', l) == Home(lay, l);
      }
    }
  }

  lemma EntryKept(lay: Layout, lay': Layout, hs: seq<Kind>, order: seq<Label>, sc: Option<nat>, u: Label,
      n: BuilderComponent, s: Option<nat>, c: BuilderComponent)
    requires Entry(lay, hs, order, s, c) && PlacedBy(lay, lay', sc, u, n) && u !in order
    ensures Entry(lay', hs, order + [u], s, c)
  {
  }

  lemma NewLabelEntry(lay': Layout, hs: seq<Kind>, order: seq<Label>, sc: Option<nat>, u: Label)
    requires Home(lay', u) == sc
    ensures Entry(lay', hs, order + [u], sc, LabelComponent(u))
  {
  }

  lemma ClosedNotScope(hs: seq<Kind>, cycles: seq<BuilderCycle>, heads: seq<Label>, sc: Option<nat>, d: nat)
    requires Chain(hs, cycles, heads) && sc == ScopeAt(hs, |hs|) && !IsOpen(hs, d)
    ensures sc != Some(d)
  {
  }

  // ------------------------------------------------------------------ opening and closing a cycle

  ghost function OpenLayout(lay: Layout, sc: Option<nat>): Layout {
    lay.(cycles := lay.cycles + [BuilderCycle([], sc)])
  }

  lemma OpenKeepsShelved(lay: Layout, hs: seq<Kind>, order: seq<Label>, heads: seq<Label>, h: Kind)
    requires Shelved(lay, hs, order, heads)
    requires h.Heading? && h.cycle == |lay.cycles| && h.scope == ScopeAt(hs, |hs|)
    ensures Shelved(OpenLayout(lay, h.scope), hs + [h], order, heads + [h.vertex])
  {
    hide Entry, Entries, LabelsPlaced, CyclesPlaced, Part, Chain, OpenLayout;
    ChainLength(hs, lay.cycles, heads);
    OpenChain(lay, hs, heads, h);
    OpenEntries(lay, hs, order, heads, h);
    OpenLabels(lay, order, h.scope);
    OpenCyclesPlaced(lay, hs, order, heads, h);
  }

  lemma OpenChain(lay: Layout, hs: seq<Kind>, heads: seq<Label>, h: Kind)
    requires Chain(hs, lay.cycles, heads)
    requires h.Heading? && h.cycle == |lay.cycles| && h.scope == ScopeAt(hs, |hs|)
    ensures Chain(hs + [h], OpenLayout(lay, h.scope).cycles, heads + [h.vertex])
  {
    hide ParentFirst, ChainLinked;
    var cycles' := OpenLayout(lay, h.scope).cycles;
    TopScopeValid(lay, hs, heads);
    forall i | 0 <= i < |cycles'|
      ensures ParentFirst(cycles', i)
    {
      OpenParentFirst(lay.cycles, BuilderCycle([], h.scope), i);
    }
    forall i | 0 <= i < |hs + [h]|
      ensures ChainLinked(hs + [h], cycles', heads + [h.vertex], i)
    {
      OpenLinked(hs, lay.cycles, heads, h, i);
    }
  }

  lemma OpenParentFirst(cycles: seq<BuilderCycle>, c: BuilderCycle, i: nat)
    requires forall j :: 0 <= j < |cycles| ==> ParentFirst(cycles, j)
    requires c.parent.Some? ==> c.parent.value < |cycles|
    requires i <= |cycles|
    ensures ParentFirst(cycles + [c], i)
  {
    if i < |cycles| {
      assert ParentFirst(cycles, i);
    }
  }

  lemma OpenLinked(hs: seq<Kind>, cycles: seq<BuilderCycle>, heads: seq<Label>, h: Kind, i: nat)
    requires |heads| == |cycles| && AllHeadings(hs) && h.Heading? && i <= |hs|
    requires i < |hs| ==> ChainLinked(hs, cycles, heads, i)
    requires h.cycle == |cycles| && h.scope == ScopeAt(hs, |hs|)
    ensures ChainLinked(hs + [h], cycles + [BuilderCycle([], h.scope)], heads + [h.vertex], i)
  {
  }

  lemma OpenPart(lay: Layout, sc: Option<nat>, s: Option<nat>)
    requires ValidScope(OpenLayout(lay, sc), s)
    ensures if ValidScope(lay, s) then Part(OpenLayout(lay, sc), s) == Part(lay, s) else Part(OpenLayout(lay, sc), s) == []
    ensures SameParents(lay.cycles, OpenLayout(lay, sc).cycles)
    ensures forall l :: Home(OpenLayout(lay, sc), l) == Home(lay, l)
  {
  }

  lemma OpenEntries(lay: Layout, hs: seq<Kind>, order: seq<Label>, heads: seq<Label>, h: Kind)
    requires Entries(lay, hs, order)
    requires h.Heading? && h.cycle == |lay.cycles|
    ensures Entries(OpenLayout(lay, h.scope), hs + [h], order)
  {
    hide Part, OpenLayout, IsOpen, Home;
    var lay' := OpenLayout(lay, h.scope);
    OpenSet(hs, h);
    forall s, c | ValidScope(lay', s) && c in Part(lay', s)
      ensures Entry(lay', hs + [h], order, s, c)
    {
      OpenPart(lay, h.scope, s);
      assert Entry(lay, hs, order, s, c);
    }
  }

  lemma OpenLabels(lay: Layout, order: seq<Label>, sc: Option<nat>)
    requires LabelsPlaced(lay, order)
    ensures LabelsPlaced(OpenLayout(lay, sc), order)
  {
  }

  lemma OpenCyclesPlaced(lay: Layout, hs: seq<Kind>, order: seq<Label>, heads: seq<Label>, h: Kind)
    requires |heads| == |lay.cycles| && CyclesPlaced(lay, hs, order, heads)
    requires h.Heading? && h.cycle == |lay.cycles|
    ensures |heads + [h.vertex]| == |OpenLayout(lay, h.scope).cycles|
    ensures CyclesPlaced(OpenLayout(lay, h.scope), hs + [h], order, heads + [h.vertex])
  {
    hide IsOpen;
    var lay' := OpenLayout(lay, h.scope);
    OpenSet(hs, h);
    forall d | 0 <= d < |lay'.cycles| && !IsOpen(hs + [h], d)
      ensures CyclePlaced(lay', order, heads + [h.vertex], d)
    {
      assert CyclePlaced(lay, order, heads, d);
    }
  }

  lemma OpenSet(hs: seq<Kind>, h: Kind)
    requires h.Heading?
    ensures forall d :: IsOpen(hs + [h], d) <==> IsOpen(hs, d) || d == h.cycle
  {
    var hs' := hs + [h];
    forall d | IsOpen(hs, d) || d == h.cycle ensures IsOpen(hs', d) {
      if d == h.cycle {
        assert hs'[|hs|] == h;
      } else {
        var i :| 0 <= i < |hs| && hs[i].Heading? && hs[i].cycle == d;
        assert hs'[i].cycle == d;
      }
    }
  }

  /** The head goes last into its cycle, the cycle into its parent's partition. */
  ghost function CloseLayout(lay: Layout, c: nat, h: Label, outer: Option<nat>): Layout
    requires c < |lay.cycles| && ValidScope(lay, outer)
  {
    var a := AddTo(AddTo(lay, Some(c), LabelComponent(h)), outer, CycleIdx(c));
    a.(containing := a.containing[h := c])
  }

  ghost function ClosingEntries(c: nat, h: Label, outer: Option<nat>, s: Option<nat>): seq<BuilderComponent> {
    if s == Some(c) then [LabelComponent(h)] else if s == outer then [CycleIdx(c)] else []
  }

  ghost predicate ClosedBy(lay: Layout, lay': Layout, c: nat, h: Label, outer: Option<nat>) {
    && c < |lay.cycles| && ValidScope(lay, outer) && outer != Some(c)
    && |lay'.cycles| == |lay.cycles| && SameParents(lay.cycles, lay'.cycles)
    && (forall s :: ValidScope(lay, s) ==> Part(lay', s) == Part(lay, s) + ClosingEntries(c, h, outer, s))
    && (forall l :: Home(lay', l) == if l == h then Some(c) else Home(lay, l))
    && lay'.containing.Keys == lay.containing.Keys + {h}
  }

  lemma CloseLayoutFacts(lay: Layout, c: nat, h: Label, outer: Option<nat>)
    requires c < |lay.cycles| && ValidScope(lay, outer) && outer != Some(c)
    ensures ClosedBy(lay, CloseLayout(lay, c, h, outer), c, h, outer)
  {
    hide AddTo;
    var a1 := AddTo(lay, Some(c), LabelComponent(h));
    var a := AddTo(a1, outer, CycleIdx(c));
    forall s | ValidScope(lay, s)
      ensures Part(CloseLayout(lay, c, h, outer), s) == Part(a, s)
      ensures Part(a, s) == if s == outer then Part(a1, s) + [CycleIdx(c)] else Part(a1, s)
    {
      assert ValidScope(a1, s);
    }
  }

  lemma CloseKeepsShelved(lay: Layout, lay': Layout, hs: seq<Kind>, h: Kind, order: seq<Label>, heads: seq<Label>)
    requires Shelved(lay, hs + [h], order, heads)
    requires h.Heading? && h.vertex !in order && AllHeadings(hs)
    requires h.cycle < |lay.cycles| && ValidScope(lay, h.scope)
    requires h.scope == ScopeAt(hs, |hs|) && lay' == CloseLayout(lay, h.cycle, h.vertex, h.scope)
    ensures Shelved(lay', hs, order + [h.vertex], heads)
  {
    hide Entry, Entries, LabelsPlaced, CyclesPlaced, Part, Chain, CloseLayout, PlacedBy, ClosedBy;
    CloseChain(hs, h, lay.cycles, heads);
    CloseLayoutFacts(lay, h.cycle, h.vertex, h.scope);
    ClosedByParents(lay, lay', h.cycle, h.vertex, h.scope);
    ChainSame(hs, lay.cycles, lay'.cycles, heads);
    CloseEntries(lay, lay', hs, h, order);
    CloseLabels(lay, lay', order, h);
    CloseCyclesPlaced(lay, lay', hs, h, order, heads);
  }

  lemma ClosedByParents(lay: Layout, lay': Layout, c: nat, h: Label, outer: Option<nat>)
    requires ClosedBy(lay, lay', c, h, outer)
    ensures |lay'.cycles| == |lay.cycles| && SameParents(lay.cycles, lay'.cycles)
  {
  }

  lemma CloseChain(hs: seq<Kind>, h: Kind, cycles: seq<BuilderCycle>, heads: seq<Label>)
    requires Chain(hs + [h], cycles, heads)
    ensures Chain(hs, cycles, heads)
    ensures h.Heading? && h.cycle < |cycles| && !IsOpen(hs, h.cycle)
    ensures cycles[h.cycle].parent == ScopeAt(hs, |hs|)
    ensures ScopeAt(hs, |hs|).Some? ==> ScopeAt(hs, |hs|).value < h.cycle
    ensures |heads| == |cycles| && heads[h.cycle] == h.vertex
    ensures forall d :: ScopeAt(hs, |hs|) == Some(d) ==> IsOpen(hs, d)
  {
    hide ParentFirst;
    var hs' := hs + [h];
    assert hs'[|hs|] == h;
    forall i | 0 <= i < |hs|
      ensures hs'[i].cycle < h.cycle && hs'[i] == hs[i] && hs[i].Heading?
    {
      ChainIncreases(hs', cycles, heads, i, |hs|);
    }
    forall i | 0 <= i < |hs|
      ensures ChainLinked(hs, cycles, heads, i)
    {
      assert ChainLinked(hs', cycles, heads, i);
    }
    assert ChainLinked(hs', cycles, heads, |hs|);
    if hs != [] {
      assert IsOpen(hs, hs[|hs| - 1].cycle);
    }
  }

  lemma {:induction false} ChainIncreases(hs: seq<Kind>, cycles: seq<BuilderCycle>, heads: seq<Label>, i: nat, j: nat)
    requires Chain(hs, cycles, heads) && AllHeadings(hs) && i < j < |hs|
    ensures hs[i].cycle < hs[j].cycle
    decreases j
  {
    hide Chain;
    ChainLink(hs, cycles, heads, j);
    if i < j - 1 {
      ChainIncreases(hs, cycles, heads, i, j - 1);
    }
  }

  lemma CloseEntries(lay: Layout, lay': Layout, hs: seq<Kind>, h: Kind, order: seq<Label>)
    requires Entries(lay, hs + [h], order) && h.Heading? && h.vertex !in order
    requires ClosedBy(lay, lay', h.cycle, h.vertex, h.scope)
    requires !IsOpen(hs, h.cycle) && lay.cycles[h.cycle].parent == h.scope
    ensures Entries(lay', hs, order + [h.vertex])
  {
    hide Part, IsOpen, Home;
    OpenSet(hs, h);
    forall s, c | ValidScope(lay', s) && c in Part(lay', s)
      ensures Entry(lay', hs, order + [h.vertex], s, c)
    {
      assert ValidScope(lay, s);
      if c in Part(lay, s) {
        assert Entry(lay, hs + [h], order, s, c);
      }
    }
  }

  lemma CloseLabels(lay: Layout, lay': Layout, order: seq<Label>, h: Kind)
    requires LabelsPlaced(lay, order) && h.Heading? && h.vertex !in order
    requires ClosedBy(lay, lay', h.cycle, h.vertex, h.scope)
    ensures LabelsPlaced(lay', order + [h.vertex])
  {
    hide Part;
    forall l | l in order + [h.vertex]
      ensures ValidScope(lay', Home(lay', l)) && LabelComponent(l) in Part(lay', Home(lay', l))
    {
      if l == h.vertex {
        assert ValidScope(lay, Some(h.cycle));
        assert Part(lay', Some(h.cycle)) == Part(lay, Some(h.cycle)) + [LabelComponent(h.vertex)];
      } else {
        assert l in order;
      }
    }
  }

  lemma CloseCyclesPlaced(lay: Layout, lay': Layout, hs: seq<Kind>, h: Kind, order: seq<Label>, heads: seq<Label>)
    requires |heads| == |lay.cycles| && |heads| == |lay'.cycles| && CyclesPlaced(lay, hs + [h], order, heads) && h.Heading?
    requires ClosedBy(lay, lay', h.cycle, h.vertex, h.scope)
    requires lay.cycles[h.cycle].parent == h.scope && heads[h.cycle] == h.vertex
    requires forall d :: h.scope == Some(d) ==> IsOpen(hs, d)
    ensures CyclesPlaced(lay', hs, order + [h.vertex], heads)
  {
    hide IsOpen, Part;
    OpenSet(hs, h);
    forall d | 0 <= d < |lay'.cycles| && !IsOpen(hs, d)
      ensures CyclePlaced(lay', order + [h.vertex], heads, d)
    {
      if d == h.cycle {
        NewCyclePlaced(lay, lay', h, order, heads);
      } else {
        assert CyclePlaced(lay, order, heads, d);
        OldCyclePlaced(lay, lay', h, order, heads, d);
      }
    }
  }

  lemma NewCyclePlaced(lay: Layout, lay': Layout, h: Kind, order: seq<Label>, heads: seq<Label>)
    requires |heads| == |lay.cycles| && |heads| == |lay'.cycles| && h.Heading?
    requires ClosedBy(lay, lay', h.cycle, h.vertex, h.scope)
    requires lay.cycles[h.cycle].parent == h.scope && heads[h.cycle] == h.vertex
    ensures CyclePlaced(lay', order + [h.vertex], heads, h.cycle)
  {
    assert Part(lay', Some(h.cycle)) == Part(lay, Some(h.cycle)) + [LabelComponent(h.vertex)];
    assert Part(lay', h.scope) == Part(lay, h.scope) + [CycleIdx(h.cycle)];
  }

  lemma OldCyclePlaced(lay: Layout, lay': Layout, h: Kind, order: seq<Label>, heads: seq<Label>, d: nat)
    requires |heads| == |lay.cycles| && |heads| == |lay'.cycles| && h.Heading?
    requires ClosedBy(lay, lay', h.cycle, h.vertex, h.scope)
    requires d < |lay.cycles| && d != h.cycle && h.scope != Some(d) && CyclePlaced(lay, order, heads, d)
    ensures CyclePlaced(lay', order + [h.vertex], heads, d)
  {
    assert Part(lay', Some(d)) == Part(lay, Some(d));
  }
}
