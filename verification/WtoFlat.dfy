/**
  The labels of a partition, read through nested cycles: the placement order is what the partitions
  hold, open cycles last.
*/
module WtoFlat {
  import opened Wrappers
  import opened Graph
  import opened WtoControl
  import opened WtoLayout

  /** Labels of `comps` in storage order; nested cycles have an index of at least `low`. */
  ghost function Flat(cycles: seq<BuilderCycle>, low: nat, comps: seq<BuilderComponent>): seq<Label>
    decreases if low < |cycles| then |cycles| - low else 0, |comps|, 1
  {
    if comps == [] then []
    else Flat(cycles, low, comps[..|comps| - 1]) + FlatOne(cycles, low, comps[|comps| - 1], |comps|)
  }

  ghost function FlatOne(cycles: seq<BuilderCycle>, low: nat, c: BuilderComponent, n: nat): seq<Label>
    decreases if low < |cycles| then |cycles| - low else 0, n, 0
  {
    match c
    case LabelComponent(l) => [l]
    case CycleIdx(d) => if low <= d < |cycles| then Flat(cycles, d + 1, cycles[d].components) else []
  }

  ghost function FlatCycle(cycles: seq<BuilderCycle>, d: nat): seq<Label>
    requires d < |cycles|
  {
    Flat(cycles, d + 1, cycles[d].components)
  }

  /** What is placed so far: the top partition, then each open cycle from the outside in. */
  ghost function OpenFlat(lay: Layout, hs: seq<Kind>): seq<Label> {
    if hs == [] then Flat(lay.cycles, 0, lay.top) else OpenFlat(lay, hs[..|hs| - 1]) + FlatHeading(lay, hs[|hs| - 1])
  }

  ghost function FlatHeading(lay: Layout, h: Kind): seq<Label> {
    if h.Heading? && h.cycle < |lay.cycles| then FlatCycle(lay.cycles, h.cycle) else []
  }

  lemma FlatAppend(cycles: seq<BuilderCycle>, low: nat, comps: seq<BuilderComponent>, c: BuilderComponent)
    ensures Flat(cycles, low, comps + [c]) == Flat(cycles, low, comps) + FlatOne(cycles, low, c, |comps| + 1)
  {
    assert (comps + [c])[..|comps|] == comps;
  }

  /** Entries that are finished cycles read the same after a step that leaves finished cycles alone. */
  ghost predicate FinishedSame(cycles: seq<BuilderCycle>, cycles': seq<BuilderCycle>, hs: seq<Kind>) {
    && |cycles| <= |cycles'|
    && forall d :: 0 <= d < |cycles| && !IsOpen(hs, d) ==> cycles'[d].components == cycles[d].components
  }

  ghost predicate Finished(cycles: seq<BuilderCycle>, hs: seq<Kind>, c: BuilderComponent) {
    c.CycleIdx? ==> c.idx < |cycles| && !IsOpen(hs, c.idx)
  }

  ghost predicate AllFinished(cycles: seq<BuilderCycle>, hs: seq<Kind>) {
    forall d, c :: 0 <= d < |cycles| && c in cycles[d].components ==> Finished(cycles, hs, c)
  }

  lemma {:induction false} FlatSame(cycles: seq<BuilderCycle>, cycles': seq<BuilderCycle>, hs: seq<Kind>, low: nat, comps: seq<BuilderComponent>)
    requires FinishedSame(cycles, cycles', hs) && AllFinished(cycles, hs)
    requires forall c :: c in comps ==> Finished(cycles, hs, c)
    ensures Flat(cycles', low, comps) == Flat(cycles, low, comps)
    decreases if low < |cycles| then |cycles| - low else 0, |comps|
  {
    hide IsOpen;
    if comps != [] {
      var c := comps[|comps| - 1];
      FlatSame(cycles, cycles', hs, low, comps[..|comps| - 1]);
      if c.CycleIdx? && low <= c.idx {
        assert Finished(cycles, hs, c);
        FlatSame(cycles, cycles', hs, c.idx + 1, cycles[c.idx].components);
      }
    }
  }

  lemma EntriesFinished(lay: Layout, hs: seq<Kind>, order: seq<Label>, sc: Option<nat>)
    requires Entries(lay, hs, order) && ValidScope(lay, sc)
    ensures forall c :: c in Part(lay, sc) ==> Finished(lay.cycles, hs, c)
  {
    hide IsOpen;
    forall c | c in Part(lay, sc) ensures Finished(lay.cycles, hs, c) {
      assert Entry(lay, hs, order, sc, c);
    }
  }

  lemma EntriesAllFinished(lay: Layout, hs: seq<Kind>, order: seq<Label>)
    requires Entries(lay, hs, order)
    ensures AllFinished(lay.cycles, hs)
  {
    hide IsOpen, Entries, Finished;
    forall d, c | 0 <= d < |lay.cycles| && c in lay.cycles[d].components
      ensures Finished(lay.cycles, hs, c)
    {
      EntriesFinished(lay, hs, order, Some(d));
      assert c in Part(lay, Some(d));
    }
  }

  lemma PartSame(lay: Layout, lay': Layout, hs: seq<Kind>, order: seq<Label>, sc: Option<nat>, low: nat)
    requires Entries(lay, hs, order) && ValidScope(lay, sc) && ValidScope(lay', sc)
    requires FinishedSame(lay.cycles, lay'.cycles, hs) && Part(lay', sc) == Part(lay, sc)
    ensures Flat(lay'.cycles, low, Part(lay', sc)) == Flat(lay.cycles, low, Part(lay, sc))
  {
    hide IsOpen, Flat, Entries, AllFinished, Part;
    EntriesFinished(lay, hs, order, sc);
    EntriesAllFinished(lay, hs, order);
    FlatSame(lay.cycles, lay'.cycles, hs, low, Part(lay, sc));
  }

  ghost function LowOf(sc: Option<nat>): nat {
    if sc.None? then 0 else sc.value + 1
  }

  ghost function FlatPart(lay: Layout, sc: Option<nat>): seq<Label>
    requires ValidScope(lay, sc)
  {
    Flat(lay.cycles, LowOf(sc), Part(lay, sc))
  }

  /** The partition that receives the next label is read last. */
  lemma OpenFlatStep(lay: Layout, hs: seq<Kind>)
    requires AllHeadings(hs) && ValidScope(lay, ScopeAt(hs, |hs|))
    ensures OpenFlat(lay, hs) == (if hs == [] then [] else OpenFlat(lay, hs[..|hs| - 1])) + FlatPart(lay, ScopeAt(hs, |hs|))
  {
  }

  /** Partitions other than the receiving one are read as before. */
  lemma {:induction false} OpenFlatSame(lay: Layout, lay': Layout, hs: seq<Kind>, all: seq<Kind>, order: seq<Label>, heads: seq<Label>)
    requires Entries(lay, all, order) && FinishedSame(lay.cycles, lay'.cycles, all)
    requires AllHeadings(hs) && forall i :: 0 <= i < |hs| ==> hs[i].cycle < |lay.cycles|
    requires lay'.top == lay.top
    requires forall i :: 0 <= i < |hs| ==> lay'.cycles[hs[i].cycle].components == lay.cycles[hs[i].cycle].components
    ensures OpenFlat(lay', hs) == OpenFlat(lay, hs)
    decreases |hs|
  {
    hide IsOpen, Flat, Entries, FinishedSame, Chain;
    FinishedSameLength(lay.cycles, lay'.cycles, all);
    if hs == [] {
      PartSame(lay, lay', all, order, None, 0);
    } else {
      var d := hs[|hs| - 1].cycle;
      OpenFlatSame(lay, lay', hs[..|hs| - 1], all, order, heads);
      PartSame(lay, lay', all, order, Some(d), d + 1);
    }
  }

  lemma FinishedSameLength(cycles: seq<BuilderCycle>, cycles': seq<BuilderCycle>, hs: seq<Kind>)
    requires FinishedSame(cycles, cycles', hs)
    ensures |cycles| <= |cycles'|
  {
  }

  ghost function FlatUnder(lay: Layout, hs: seq<Kind>): seq<Label> {
    if hs == [] then [] else OpenFlat(lay, hs[..|hs| - 1])
  }

  ghost predicate OuterKept(lay: Layout, lay': Layout, hs: seq<Kind>) {
    && |lay'.cycles| >= |lay.cycles|
    && forall i :: 0 <= i < |hs| - 1 ==> SameCycle(lay, lay', hs[i])
  }

  ghost predicate SameCycle(lay: Layout, lay': Layout, h: Kind)
    requires |lay'.cycles| >= |lay.cycles|
  {
    h.Heading? && h.cycle < |lay.cycles| && lay'.cycles[h.cycle].components == lay.cycles[h.cycle].components
  }

  /** A change confined to the innermost partitions leaves the outer ones alone. */
  lemma UnderSame(lay: Layout, lay': Layout, hs: seq<Kind>, all: seq<Kind>, order: seq<Label>, heads: seq<Label>)
    requires Entries(lay, all, order) && FinishedSame(lay.cycles, lay'.cycles, all)
    requires Chain(hs, lay.cycles, heads)
    requires hs != [] ==> lay'.top == lay.top
    requires OuterKept(lay, lay', hs)
    ensures FlatUnder(lay', hs) == FlatUnder(lay, hs)
  {
    hide IsOpen, OpenFlat, Entries, Chain;
    if hs != [] {
      var us := hs[..|hs| - 1];
      forall i | 0 <= i < |us| ensures SameCycle(lay, lay', us[i]) {
        assert SameCycle(lay, lay', hs[i]);
      }
      OpenFlatSame(lay, lay', us, all, order, heads);
    }
  }

  lemma PlacedFinishedSame(lay: Layout, lay': Layout, hs: seq<Kind>, heads: seq<Label>, sc: Option<nat>, u: Label, n: BuilderComponent)
    requires Chain(hs, lay.cycles, heads) && AllHeadings(hs) && sc == ScopeAt(hs, |hs|) && PlacedBy(lay, lay', sc, u, n)
    ensures FinishedSame(lay.cycles, lay'.cycles, hs)
    ensures hs != [] ==> lay'.top == lay.top
    ensures OuterKept(lay, lay', hs)
  {
    hide Chain, IsOpen, Home, SameParents;
    assert hs != [] ==> Part(lay', None) == Part(lay, None);
    forall d | 0 <= d < |lay.cycles| && !IsOpen(hs, d) ensures lay'.cycles[d].components == lay.cycles[d].components {
      ClosedNotScope(hs, lay.cycles, heads, sc, d);
      assert Part(lay', Some(d)) == Part(lay, Some(d));
    }
    forall i | 0 <= i < |hs| - 1
      ensures SameCycle(lay, lay', hs[i])
    {
      ChainLink(hs, lay.cycles, heads, i);
      ChainIncreases(hs, lay.cycles, heads, i, |hs| - 1);
      assert Part(lay', Some(hs[i].cycle)) == Part(lay, Some(hs[i].cycle));
    }
  }

  lemma PartGrows(lay: Layout, lay': Layout, all: seq<Kind>, order: seq<Label>, sc: Option<nat>, n: BuilderComponent)
    requires Entries(lay, all, order) && ValidScope(lay, sc) && ValidScope(lay', sc)
    requires FinishedSame(lay.cycles, lay'.cycles, all) && Part(lay', sc) == Part(lay, sc) + [n]
    ensures FlatPart(lay', sc) == FlatPart(lay, sc) + FlatOne(lay'.cycles, LowOf(sc), n, |Part(lay, sc)| + 1)
  {
    hide IsOpen, Flat, FlatOne, Entries, AllFinished, Part;
    EntriesFinished(lay, all, order, sc);
    EntriesAllFinished(lay, all, order);
    FlatSame(lay.cycles, lay'.cycles, all, LowOf(sc), Part(lay, sc));
    FlatAppend(lay'.cycles, LowOf(sc), Part(lay, sc), n);
  }

  /** Placing a label appends it to the order the partitions hold. */
  lemma PlaceFlat(lay: Layout, lay': Layout, hs: seq<Kind>, order: seq<Label>, heads: seq<Label>, sc: Option<nat>, u: Label)
    requires Shelved(lay, hs, order, heads) && AllHeadings(hs) && sc == ScopeAt(hs, |hs|)
    requires PlacedBy(lay, lay', sc, u, LabelComponent(u))
    ensures OpenFlat(lay', hs) == OpenFlat(lay, hs) + [u]
  {
    hide IsOpen, Flat, Entries, Part, Chain, FlatPart, OpenFlat, FinishedSame, CyclesPlaced, LabelsPlaced;
    PlacedFinishedSame(lay, lay', hs, heads, sc, u, LabelComponent(u));
    UnderSame(lay, lay', hs, hs, order, heads);
    OpenFlatParts(lay, hs);
    OpenFlatParts(lay', hs);
    PartGrows(lay, lay', hs, order, sc, LabelComponent(u));
    assert FlatUnder(lay, hs) + (FlatPart(lay, sc) + [u]) == (FlatUnder(lay, hs) + FlatPart(lay, sc)) + [u];
  }

  lemma OpenFlatParts(lay: Layout, hs: seq<Kind>)
    requires AllHeadings(hs) && ValidScope(lay, ScopeAt(hs, |hs|))
    ensures OpenFlat(lay, hs) == FlatUnder(lay, hs) + FlatPart(lay, ScopeAt(hs, |hs|))
  {
    OpenFlatStep(lay, hs);
  }

  lemma OpenedFlat(lay: Layout, hs: seq<Kind>, order: seq<Label>, heads: seq<Label>, h: Kind)
    requires Shelved(lay, hs, order, heads) && h.Heading? && h.cycle == |lay.cycles|
    ensures OpenFlat(OpenLayout(lay, h.scope), hs + [h]) == OpenFlat(lay, hs)
  {
    hide IsOpen, Flat, Entries, Chain, CyclesPlaced, LabelsPlaced;
    var lay' := OpenLayout(lay, h.scope);
    forall i | 0 <= i < |hs| ensures hs[i].Heading? && hs[i].cycle < |lay.cycles| {
      ChainLink(hs, lay.cycles, heads, i);
    }
    OpenFlatSame(lay, lay', hs, hs, order, heads);
    assert (hs + [h])[..|hs|] == hs;
    EmptyFlat(lay'.cycles, h.cycle + 1);
    assert lay'.cycles[h.cycle].components == [];
    assert OpenFlat(lay', hs) + [] == OpenFlat(lay', hs);
  }

  lemma EmptyFlat(cycles: seq<BuilderCycle>, low: nat)
    ensures Flat(cycles, low, []) == []
  {
  }

  lemma ClosedFinishedSame(lay: Layout, lay': Layout, hs: seq<Kind>, h: Kind, heads: seq<Label>)
    requires h.Heading? && Chain(hs + [h], lay.cycles, heads) && ClosedBy(lay, lay', h.cycle, h.vertex, h.scope)
    requires AllHeadings(hs) && h.scope == ScopeAt(hs, |hs|)
    ensures FinishedSame(lay.cycles, lay'.cycles, hs + [h])
    ensures hs != [] ==> lay'.top == lay.top
    ensures OuterKept(lay, lay', hs)
  {
    hide Chain, IsOpen, Home, SameParents;
    CloseChain(hs, h, lay.cycles, heads);
    OpenSet(hs, h);
    assert hs != [] ==> Part(lay', None) == Part(lay, None) + [];
    forall d | 0 <= d < |lay.cycles| && !IsOpen(hs + [h], d) ensures lay'.cycles[d].components == lay.cycles[d].components {
      ClosedNotScope(hs, lay.cycles, heads, h.scope, d);
      assert Part(lay', Some(d)) == Part(lay, Some(d)) + [];
    }
    forall i | 0 <= i < |hs| - 1
      ensures SameCycle(lay, lay', hs[i])
    {
      ChainLink(hs, lay.cycles, heads, i);
      ChainIncreases(hs, lay.cycles, heads, i, |hs| - 1);
      ChainAllHeadings(hs + [h], lay.cycles, heads);
      assert (hs + [h])[i] == hs[i] && (hs + [h])[|hs|] == h;
      ChainIncreases(hs + [h], lay.cycles, heads, i, |hs|);
      assert Part(lay', Some(hs[i].cycle)) == Part(lay, Some(hs[i].cycle)) + [];
    }
  }

  lemma ChainAllHeadings(hs: seq<Kind>, cycles: seq<BuilderCycle>, heads: seq<Label>)
    requires Chain(hs, cycles, heads)
    ensures AllHeadings(hs)
  {
  }

  /** Closing a cycle appends its head. */
  lemma CloseFlat(lay: Layout, lay': Layout, hs: seq<Kind>, h: Kind, order: seq<Label>, heads: seq<Label>)
    requires Shelved(lay, hs + [h], order, heads) && h.Heading?
    requires AllHeadings(hs) && h.scope == ScopeAt(hs, |hs|)
    requires ClosedBy(lay, lay', h.cycle, h.vertex, h.scope)
    ensures OpenFlat(lay', hs) == OpenFlat(lay, hs + [h]) + [h.vertex]
  {
    hide IsOpen, Flat, Entries, Part, Chain, FlatPart, OpenFlat, FinishedSame, FlatCycle, FlatOne, CyclesPlaced, LabelsPlaced;
    var all := hs + [h];
    var c := h.cycle;
    ClosedFinishedSame(lay, lay', hs, h, heads);
    CloseChain(hs, h, lay.cycles, heads);
    UnderSame(lay, lay', hs, all, order, heads);
    OpenFlatParts(lay, hs);
    OpenFlatParts(lay', hs);
    assert Part(lay', h.scope) == Part(lay, h.scope) + [CycleIdx(c)];
    PartGrows(lay, lay', all, order, h.scope, CycleIdx(c));
    assert ValidScope(lay, Some(c));
    assert Part(lay', Some(c)) == Part(lay, Some(c)) + [LabelComponent(h.vertex)];
    PartGrows(lay, lay', all, order, Some(c), LabelComponent(h.vertex));
    ClosedCycleFlat(lay', h.scope, c, |Part(lay, h.scope)| + 1);
    LabelFlat(lay'.cycles, c + 1, h.vertex, |Part(lay, Some(c))| + 1);
    OpenFlatTop(lay, hs, h);
    assert OpenFlat(lay', hs) == FlatUnder(lay, hs) + (FlatPart(lay, h.scope) + (FlatPart(lay, Some(c)) + [h.vertex]));
    Regroup(FlatUnder(lay, hs), FlatPart(lay, h.scope), FlatPart(lay, Some(c)), [h.vertex]);
  }

  lemma Regroup<T>(a: seq<T>, b: seq<T>, c: seq<T>, d: seq<T>)
    ensures a + (b + (c + d)) == ((a + b) + c) + d
  {
  }

  lemma LabelFlat(cycles: seq<BuilderCycle>, low: nat, l: Label, n: nat)
    ensures FlatOne(cycles, low, LabelComponent(l), n) == [l]
  {
  }

  lemma ClosedCycleFlat(lay: Layout, sc: Option<nat>, c: nat, n: nat)
    requires c < |lay.cycles| && LowOf(sc) <= c
    ensures FlatOne(lay.cycles, LowOf(sc), CycleIdx(c), n) == FlatPart(lay, Some(c))
  {
  }

  lemma OpenFlatTop(lay: Layout, hs: seq<Kind>, h: Kind)
    requires h.Heading? && h.cycle < |lay.cycles|
    ensures OpenFlat(lay, hs + [h]) == OpenFlat(lay, hs) + FlatPart(lay, Some(h.cycle))
  {
    hide Flat;
    assert (hs + [h])[..|hs|] == hs;
  }
}
