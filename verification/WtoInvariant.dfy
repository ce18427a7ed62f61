/**
  The invariant of the whole builder, and the step lemmas that put the search, the partitions and the
  placement order together.
*/
module WtoInvariant {
  import opened Wrappers
  import opened Graph
  import opened WtoControl
  import opened WtoStartVisit
  import opened WtoPlace
  import opened WtoLayout
  import opened WtoOrder
  import opened WtoFlat

  /** The open cycles among the first `k` frames. */
  ghost function Headings(fs: seq<Frame>, k: nat): (r: seq<Kind>)
    requires k <= |fs|
    ensures AllHeadings(r)
  {
    if k == 0 then [] else Headings(fs, k - 1) + (if fs[k - 1].kind.Heading? then [fs[k - 1].kind] else [])
  }

  ghost function Opens(fs: seq<Frame>): (r: seq<Kind>)
    ensures AllHeadings(r)
  {
    Headings(fs, |fs|)
  }

  /** The cycle that pending tasks of the first `k` frames belong to. */
  ghost function Scope(fs: seq<Frame>, k: nat): Option<nat>
    requires k <= |fs|
  {
    ScopeAt(Headings(fs, k), |Headings(fs, k)|)
  }

  ghost predicate Scoped(fs: seq<Frame>) {
    forall k :: 1 <= k < |fs| ==> !fs[k].kind.Bottom? && fs[k].kind.scope == Scope(fs, k)
  }

  ghost function WhiteSet(vd: Marks): set<Label> {
    set l | l in vd && White(vd, l)
  }

  ghost function NotDone(vd: Marks): set<Label> {
    set l | l in vd && !Done(vd, l)
  }

  /** Each vertex can be numbered anew only after another vertex is done. */
  ghost predicate Bounded(g: Neighbours, vd: Marks, num: nat) {
    num + |WhiteSet(vd)| + |g.Keys| * |NotDone(vd)| <= |g.Keys| * (|g.Keys| + 1)
  }

  ghost predicate Seen(g: Neighbours, vd: Marks) {
    forall l :: l in vd && !White(vd, l) ==> Reachable(g, l)
  }

  /** Once its frame is gone, the entry is the last label placed. */
  ghost predicate EntryLast(vd: Marks, fs: seq<Frame>, order: seq<Label>) {
    |fs| == 1 ==> (White(vd, ENTRY) && order == []) || (order != [] && order[|order| - 1] == ENTRY)
  }

  lemma BottomFrame(g: Neighbours, vd: Marks, num: nat, fs: seq<Frame>)
    requires Control(g, vd, num, fs)
    ensures |fs| > 0 && fs[0].kind.Bottom?
  {
  }

  /** The frame above the bottom one is the entry's. */
  lemma SecondIsEntry(g: Neighbours, vd: Marks, num: nat, fs: seq<Frame>)
    requires Control(g, vd, num, fs) && |fs| > 1
    ensures fs[1].kind.vertex == ENTRY
  {
    hide FramesInv, NestedFrames, StackMarks, Closed;
    assert fs[1].kind.vertex in Targets(g, fs[0].kind);
  }

  ghost predicate Inv(g: Neighbours, vd: Marks, num: nat, fs: seq<Frame>, lay: Layout, order: seq<Label>, heads: seq<Label>) {
    && Control(g, vd, num, fs)
    && Scoped(fs)
    && Shelved(lay, Opens(fs), order, heads)
    && Ordered(g, vd, lay, Opens(fs), order, heads)
    && order == OpenFlat(lay, Opens(fs))
    && Bounded(g, vd, num)
    && Seen(g, vd)
    && EntryLast(vd, fs, order)
  }

  // ------------------------------------------------------------------ open cycles of a frame stack

  lemma {:induction false} HeadingsSame(fs: seq<Frame>, fs': seq<Frame>, m: nat, k: nat)
    requires m <= |fs| && m <= |fs'| && k <= m
    requires forall i :: 0 <= i < m ==> fs'[i].kind == fs[i].kind || (!fs[i].kind.Heading? && !fs'[i].kind.Heading?)
    ensures Headings(fs', k) == Headings(fs, k)
    decreases k
  {
    if k > 0 {
      HeadingsSame(fs, fs', m, k - 1);
    }
  }

  lemma HeadingsStep(fs: seq<Frame>, k: nat)
    requires k < |fs|
    ensures fs[k].kind.Heading? ==> Headings(fs, k + 1) == Headings(fs, k) + [fs[k].kind]
    ensures !fs[k].kind.Heading? ==> Headings(fs, k + 1) == Headings(fs, k)
  {
  }

  lemma {:induction false} HeadingIsFrame(fs: seq<Frame>, k: nat, i: nat) returns (j: nat)
    requires k <= |fs| && i < |Headings(fs, k)|
    ensures j < k && fs[j].kind == Headings(fs, k)[i]
    decreases k
  {
    if i < |Headings(fs, k - 1)| {
      j := HeadingIsFrame(fs, k - 1, i);
    } else {
      j := k - 1;
    }
  }

  /** Whatever stands above them lies inside all open cycles below. */
  lemma InsideHeadings(g: Neighbours, vd: Marks, num: nat, fs: seq<Frame>, k: nat, i: nat)
    requires Control(g, vd, num, fs) && k < |fs| && i < |Headings(fs, k)|
    ensures Inside(vd, Headings(fs, k)[i], fs[k].kind)
    ensures Headings(fs, k)[i].Heading? && Headings(fs, k)[i].vertex !in Headings(fs, k)[i].rest
    ensures Done(vd, Headings(fs, k)[i].vertex)
  {
    hide Inside, Stack, StackMarks, VisitingInv, PendingInv, Shape, Closed, StronglyConnected;
    var j := HeadingIsFrame(fs, k, i);
    assert Inside(vd, fs[j].kind, fs[k].kind);
    assert FrameInv(g, vd, num, Stack(fs, j + 1), fs[j], NextVertex(fs, j));
  }

  /** The vertex of the frame above, and what is set aside for it, lies in every open cycle. */
  lemma InHeadings(g: Neighbours, vd: Marks, num: nat, fs: seq<Frame>, k: nat)
    requires Control(g, vd, num, fs) && k < |fs| && !fs[k].kind.Bottom?
    ensures forall i :: 0 <= i < |Headings(fs, k)| ==> fs[k].kind.vertex in Headings(fs, k)[i].rest
    ensures fs[k].kind.Heading? ==> forall l :: l in fs[k].kind.rest ==> !OpenHead(Headings(fs, k), l)
    ensures !OpenHead(Headings(fs, k), fs[k].kind.vertex)
  {
    hide Stack, StackMarks, FrameInv, Shape, Closed, Control;
    var hs := Headings(fs, k);
    var f := fs[k].kind;
    forall i | 0 <= i < |hs|
      ensures f.vertex in hs[i].rest && hs[i].vertex != f.vertex
      ensures f.Heading? ==> hs[i].vertex !in f.rest
    {
      InsideHeadings(g, vd, num, fs, k, i);
      if f.Visiting? {
        VertexInSegment(f);
      }
    }
  }

  // ------------------------------------------------------------------ counting

  lemma CountVisit(vd: Marks, x: Label, n: nat)
    requires White(vd, x) && n > 0
    ensures NotDone(Numbered(vd, x, n)) == NotDone(vd)
    ensures WhiteSet(Numbered(vd, x, n)) == WhiteSet(vd) - {x}
    ensures x in WhiteSet(vd)
  {
  }

  lemma CountLower(vd: Marks, u: Label, head: nat)
    requires u in vd
    ensures NotDone(Lowered(vd, u, head)) == NotDone(vd)
    ensures WhiteSet(Lowered(vd, u, head)) == WhiteSet(vd)
  {
  }

  lemma CountPlace(vd: Marks, u: Label, head: nat)
    requires OnStack(vd, u)
    ensures NotDone(Placed(vd, u, head)) == NotDone(vd) - {u}
    ensures WhiteSet(Placed(vd, u, head)) == WhiteSet(vd)
    ensures u in NotDone(vd)
  {
  }

  lemma CountOpen(vd: Marks, u: Label, closed: seq<Label>, head: nat)
    requires OnStack(vd, u)
    requires forall x :: x in closed ==> OnStack(vd, x)
    ensures NotDone(Opened(vd, u, closed, head)) == NotDone(vd) - {u}
    ensures WhiteSet(Opened(vd, u, closed, head)) <= vd.Keys
    ensures u in NotDone(vd)
  {
  }

  lemma BoundedPlace(g: Neighbours, vd: Marks, vd': Marks, num: nat, u: Label)
    requires Bounded(g, vd, num) && u in NotDone(vd) && NotDone(vd') == NotDone(vd) - {u}
    requires |WhiteSet(vd')| <= |WhiteSet(vd)| + |g.Keys|
    ensures Bounded(g, vd', num)
  {
    var n, k := |g.Keys|, |NotDone(vd)|;
    assert |NotDone(vd')| == k - 1;
    assert n * (k - 1) == n * k - n;
  }

  lemma BoundedVisit(g: Neighbours, vd: Marks, vd': Marks, num: nat, x: Label)
    requires Bounded(g, vd, num) && x in WhiteSet(vd) && WhiteSet(vd') == WhiteSet(vd) - {x} && NotDone(vd') == NotDone(vd)
    ensures Bounded(g, vd', num + 1)
  {
  }

  // ------------------------------------------------------------------ steps that place nothing

  ghost predicate SameRole(f: Kind, f': Kind) {
    f' == f || (f.Visiting? && f'.Visiting? && f'.scope == f.scope)
  }

  lemma ScopedKept(fs: seq<Frame>, fs': seq<Frame>, m: nat)
    requires Scoped(fs) && m <= |fs| && m <= |fs'| <= m + 1
    requires forall i :: 0 <= i < m ==> SameRole(fs[i].kind, fs'[i].kind)
    requires 0 < m < |fs'| ==> !fs'[m].kind.Bottom? && fs'[m].kind.scope == Scope(fs, m)
    ensures Scoped(fs')
    ensures Headings(fs', m) == Headings(fs, m)
  {
    hide Headings;
    forall k | 0 <= k <= m ensures Headings(fs', k) == Headings(fs, k) {
      HeadingsSame(fs, fs', m, k);
    }
    forall k | 1 <= k < |fs'|
      ensures !fs'[k].kind.Bottom? && fs'[k].kind.scope == Scope(fs', k)
    {
      if k < m {
        assert !fs[k].kind.Bottom? && fs[k].kind.scope == Scope(fs, k);
      }
    }
  }

  /** What the partitions and the order read of the marks. */
  lemma OrderedSame(g: Neighbours, vd: Marks, vd': Marks, lay: Layout, hs: seq<Kind>, order: seq<Label>, heads: seq<Label>)
    requires Ordered(g, vd, lay, hs, order, heads)
    requires forall l :: Done(vd', l) <==> Done(vd, l)
    ensures Ordered(g, vd', lay, hs, order, heads)
  {
    hide Done, EdgesForward, OpenMembers, ClosedConnected, OpenHead, Distinct, HeadsLast;
  }

  lemma SkipKeeps(g: Neighbours, vd: Marks, num: nat, fs: seq<Frame>, lay: Layout, order: seq<Label>, heads: seq<Label>)
    requires Inv(g, vd, num, fs, lay, order, heads)
    requires |fs| > 0 && |Top(fs).pending| > 0 && !White(vd, LastPending(fs))
    ensures Inv(g, vd, num, DropPending(fs), lay, order, heads)
  {
    hide Control, Shelved, Ordered, OpenFlat, Bounded, Seen, Headings, Scoped, DropPending;
    SkipKeepsControl(g, vd, num, fs);
    ScopedKept(fs, DropPending(fs), |fs|);
  }

  lemma VisitReachable(g: Neighbours, vd: Marks, num: nat, fs: seq<Frame>)
    requires |fs| > 0 && Control(g, vd, num, fs) && Seen(g, vd)
    requires |Top(fs).pending| > 0
    ensures Reachable(g, LastPending(fs))
  {
    hide Stack, StackMarks, Shape, NestedFrames, Reachable, VisitingInv, PendingInv, StronglyConnected;
    TopFrame(g, vd, num, fs);
    LastPendingTarget(g, vd, num, fs);
    var f := Top(fs).kind;
    var x := LastPending(fs);
    if f.Bottom? {
      ReachableEntry(g);
    } else {
      TopVertexSeen(g, vd, num, fs);
      ReachableStep(g, f.vertex, x);
    }
  }

  lemma TopVertexSeen(g: Neighbours, vd: Marks, num: nat, fs: seq<Frame>)
    requires |fs| > 0 && Control(g, vd, num, fs) && !Top(fs).kind.Bottom?
    ensures Top(fs).kind.vertex in vd && !White(vd, Top(fs).kind.vertex)
    ensures Top(fs).kind.vertex in g
  {
    hide Stack, Shape, NestedFrames, VisitingInv, PendingInv, StronglyConnected, FramesInv, Number;
    TopFrame(g, vd, num, fs);
    if Top(fs).kind.Visiting? {
      VertexInSegment(Top(fs).kind);
      SegmentInStack(fs, |fs| - 1, |fs|);
    }
  }

  lemma SeenVisit(g: Neighbours, vd: Marks, x: Label, n: nat)
    requires Seen(g, vd) && x in vd && Reachable(g, x)
    ensures Seen(g, Numbered(vd, x, n))
  {
    hide Reachable;
  }

  lemma DoneVisit(vd: Marks, x: Label, n: nat)
    requires White(vd, x)
    ensures forall l :: Done(Numbered(vd, x, n), l) <==> Done(vd, l)
  {
  }

  lemma VisitScoped(fs: seq<Frame>, x: Label, ps: seq<Label>)
    requires |fs| > 0 && |Top(fs).pending| > 0 && Scoped(fs)
    ensures Scoped(PushFrame(fs, x, Scope(fs, |fs|), ps))
    ensures Opens(PushFrame(fs, x, Scope(fs, |fs|), ps)) == Opens(fs)
  {
    hide Headings, Scoped, DropPending, PushFrame, Scope;
    var fs' := PushFrame(fs, x, Scope(fs, |fs|), ps);
    ScopedKept(fs, fs', |fs|);
    HeadingsStep(fs', |fs|);
  }

  lemma VisitKeeps(g: Neighbours, vd: Marks, num: nat, fs: seq<Frame>, lay: Layout, order: seq<Label>, heads: seq<Label>, ps: seq<Label>)
    requires Inv(g, vd, num, fs, lay, order, heads)
    requires |fs| > 0 && |Top(fs).pending| > 0 && White(vd, LastPending(fs))
    requires PendingOf(Numbered(vd, LastPending(fs), num + 1), Targets(g, Visiting(LastPending(fs), Scope(fs, |fs|), [])), ps)
    ensures Inv(g, Numbered(vd, LastPending(fs), num + 1), num + 1, PushFrame(fs, LastPending(fs), Scope(fs, |fs|), ps), lay, order, heads)
  {
    hide Control, Shelved, Ordered, OpenFlat, Bounded, Seen, Headings, Scoped, DropPending, PushFrame, Scope, PendingOf, Done, Numbered;
    hide Reachable, Opens, WhiteSet, NotDone;
    var x := LastPending(fs);
    VisitKeepsControl(g, vd, num, fs, Scope(fs, |fs|), ps);
    VisitScoped(fs, x, ps);
    VisitReachable(g, vd, num, fs);
    SeenVisit(g, vd, x, num + 1);
    DoneVisit(vd, x, num + 1);
    OrderedSame(g, vd, Numbered(vd, x, num + 1), lay, Opens(fs), order, heads);
    CountVisit(vd, x, num + 1);
    BoundedVisit(g, vd, Numbered(vd, x, num + 1), num, x);
  }

  lemma LowerFacts(g: Neighbours, vd: Marks, u: Label, head: nat)
    requires u in vd && Seen(g, vd)
    ensures Seen(g, Lowered(vd, u, head))
    ensures forall l :: Done(Lowered(vd, u, head), l) <==> Done(vd, l)
  {
    hide Reachable;
  }

  lemma CloseScoped(fs: seq<Frame>)
    requires |fs| > 1 && fs[|fs| - 2].kind.Visiting? && Ready(fs) && Scoped(fs)
    ensures Scoped(CloseFrames(fs))
    ensures Opens(CloseFrames(fs)) == Opens(fs)
  {
    hide Headings, Scoped, CloseFrames, Scope;
    ScopedKept(fs, CloseFrames(fs), |fs| - 1);
    HeadingsStep(fs, |fs| - 1);
  }

  lemma BoundedSame(g: Neighbours, vd: Marks, vd': Marks, num: nat)
    requires Bounded(g, vd, num) && WhiteSet(vd') == WhiteSet(vd) && NotDone(vd') == NotDone(vd)
    ensures Bounded(g, vd', num)
  {
  }

  lemma CloseKeeps(g: Neighbours, vd: Marks, num: nat, fs: seq<Frame>, lay: Layout, order: seq<Label>, heads: seq<Label>,
      head: nat, isLoop: bool)
    requires Inv(g, vd, num, fs, lay, order, heads) && Ready(fs)
    requires Scanned(g, vd, Top(fs).kind.vertex, head, isLoop) && head < Number(vd, Top(fs).kind.vertex)
    ensures |fs| > 1 && fs[|fs| - 2].kind.Visiting? && Top(fs).kind.vertex in vd
    ensures Inv(g, Lowered(vd, Top(fs).kind.vertex, head), num, CloseFrames(fs), lay, order, heads)
  {
    hide Control, Shelved, Ordered, OpenFlat, Bounded, Seen, Headings, Scoped, CloseFrames, Scope, Done, Lowered, Scanned, Opens;
    hide WhiteSet, NotDone;
    var u := Top(fs).kind.vertex;
    CloseHasParent(g, vd, num, fs, head, isLoop);
    BottomFrame(g, vd, num, fs);
    HeadPositive(g, vd, num, fs, head, isLoop);
    CloseKeepsControl(g, vd, num, fs, head, isLoop);
    CloseScoped(fs);
    LowerFacts(g, vd, u, head);
    OrderedSame(g, vd, Lowered(vd, u, head), lay, Opens(fs), order, heads);
    CountLower(vd, u, head);
    BoundedSame(g, vd, Lowered(vd, u, head), num);
  }

  // ------------------------------------------------------------------ a vertex on its own

  lemma PlacingFacts(g: Neighbours, vd: Marks, num: nat, s: seq<Label>, u: Label, head: nat)
    requires StackMarks(g, vd, num, s) && u in s && Seen(g, vd)
    ensures Placing(g, vd, Placed(vd, u, head), u)
    ensures Seen(g, Placed(vd, u, head))
    ensures OnStack(vd, u)
  {
    hide Reachable;
  }

  lemma PlaceScoped(fs: seq<Frame>)
    requires Ready(fs) && |fs| > 1 && Scoped(fs)
    ensures Scoped(fs[..|fs| - 1])
    ensures Opens(fs[..|fs| - 1]) == Opens(fs) == Headings(fs, |fs| - 1)
    ensures Top(fs).kind.scope == Scope(fs, |fs| - 1)
  {
    hide Headings;
    ScopedKept(fs, fs[..|fs| - 1], |fs| - 1);
    HeadingsStep(fs, |fs| - 1);
    assert fs[|fs| - 1].kind.scope == Scope(fs, |fs| - 1);
  }

  lemma PlaceExtends(lay: Layout, lay': Layout, order: seq<Label>, sc: Option<nat>, u: Label, c: BuilderComponent)
    requires LabelsPlaced(lay, order) && PlacedBy(lay, lay', sc, u, c) && u !in order
    ensures Extends(lay, lay', order)
  {
    hide Part, SameParents;
  }

  lemma PlaceKeeps(g: Neighbours, vd: Marks, num: nat, fs: seq<Frame>, lay: Layout, order: seq<Label>, heads: seq<Label>,
      head: nat)
    requires Inv(g, vd, num, fs, lay, order, heads) && Ready(fs)
    requires Scanned(g, vd, Top(fs).kind.vertex, head, false) && head == Number(vd, Top(fs).kind.vertex)
    ensures |fs| > 1 && ValidScope(lay, Top(fs).kind.scope)
    ensures Inv(g, Placed(vd, Top(fs).kind.vertex, head), num, fs[..|fs| - 1],
                PlaceLayout(lay, Top(fs).kind.scope, Top(fs).kind.vertex), order + [Top(fs).kind.vertex], heads)
  {
    hide Control, OpenFlat, Bounded, Seen, Headings, Scoped, Scope, Done, Scanned, OnStack, Number, Placed, PlaceLayout, ScopeAt;
    hide Ordered, Entries, LabelsPlaced, CyclesPlaced, Chain, Extends, PlacedBy, Accounted, Placing, OpenHead, WhiteSet, NotDone;
    var u := Top(fs).kind.vertex;
    var vd' := Placed(vd, u, head);
    NoLoopIsAlone(g, vd, num, fs, head);
    PlaceKeepsControl(g, vd, num, fs, head);
    SecondIsEntry(g, vd, num, fs);
    PlaceScoped(fs);
    InHeadings(g, vd, num, fs, |fs| - 1);
    MarksOfStack(g, vd, num, fs);
    VertexStacked(fs);
    PlacingFacts(g, vd, num, Stack(fs, |fs|), u, head);
    CountPlace(vd, u, head);
    BoundedPlace(g, vd, vd', num, u);
    ScopeOfHeadings(fs, |fs| - 1);
    PlaceShelf(g, vd, vd', lay, Opens(fs), order, heads, u, Top(fs).kind.scope);
  }

  lemma MarksOfStack(g: Neighbours, vd: Marks, num: nat, fs: seq<Frame>)
    requires Control(g, vd, num, fs)
    ensures StackMarks(g, vd, num, Stack(fs, |fs|))
  {
  }

  /** The partitions, the order and the placement together. */
  lemma PlaceShelf(g: Neighbours, vd: Marks, vd': Marks, lay: Layout, hs: seq<Kind>, order: seq<Label>, heads: seq<Label>,
      u: Label, sc: Option<nat>)
    requires AllHeadings(hs) && sc == ScopeAt(hs, |hs|)
    requires Shelved(lay, hs, order, heads) && Ordered(g, vd, lay, hs, order, heads) && order == OpenFlat(lay, hs)
    requires Placing(g, vd, vd', u)
    requires forall y :: Edge(g, u, y) ==> Done(vd, y)
    requires forall k :: 0 <= k < |hs| ==> u in hs[k].rest
    ensures ValidScope(lay, sc)
    ensures Shelved(PlaceLayout(lay, sc, u), hs, order + [u], heads)
    ensures Ordered(g, vd', PlaceLayout(lay, sc, u), hs, order + [u], heads)
    ensures order + [u] == OpenFlat(PlaceLayout(lay, sc, u), hs)
  {
    hide Entries, CyclesPlaced, Chain, OpenFlat, PlaceLayout, Ordered, Extends, LabelsPlaced, PlacedBy, ScopeAt, Home;
    TopScopeValid(lay, hs, heads);
    NotYetPlaced(g, vd, vd', lay, hs, order, heads, u);
    var lay' := PlaceLayout(lay, sc, u);
    UnplacedFree(lay, order, u);
    PlaceLayoutFacts(lay, sc, u);
    PlaceKeepsShelved(lay, lay', hs, order, heads, sc, u);
    PlaceExtends(lay, lay', order, sc, u, LabelComponent(u));
    PlaceKeepsOrdered(g, vd, vd', lay, lay', hs, order, heads, u);
    PlaceFlat(lay, lay', hs, order, heads, sc, u);
  }

  lemma NotYetPlaced(g: Neighbours, vd: Marks, vd': Marks, lay: Layout, hs: seq<Kind>, order: seq<Label>, heads: seq<Label>, u: Label)
    requires Ordered(g, vd, lay, hs, order, heads) && Placing(g, vd, vd', u)
    ensures u !in order
  {
    hide Done, OpenHead, EdgesForward, OpenMembers, ClosedConnected, HeadsLast;
  }

  // ------------------------------------------------------------------ a new cycle

  lemma OpeningFacts(g: Neighbours, vd: Marks, num: nat, s: seq<Label>, f: Kind, head: nat)
    requires StackMarks(g, vd, num, s) && f.Visiting? && Seen(g, vd)
    requires forall x :: x in Segment(f) ==> x in s
    ensures Placing(g, vd, Opened(vd, f.vertex, f.closed, head), f.vertex)
    ensures Seen(g, Opened(vd, f.vertex, f.closed, head))
    ensures OnStack(vd, f.vertex)
    ensures forall x :: x in f.closed ==> OnStack(vd, x) && !Done(vd, x)
  {
    hide Reachable;
    VertexInSegment(f);
    assert forall x :: x in f.closed ==> x in Segment(f);
  }

  lemma OpenScoped(fs: seq<Frame>, cycle: nat, num: nat, ps: seq<Label>)
    requires Ready(fs) && |fs| > 1 && Scoped(fs)
    ensures Scoped(OpenFrames(fs, cycle, num, ps))
    ensures Opens(fs) == Headings(fs, |fs| - 1)
    ensures Opens(OpenFrames(fs, cycle, num, ps)) == Opens(fs) + [HeadingOf(Top(fs).kind, cycle, num)]
    ensures Top(fs).kind.scope == Scope(fs, |fs| - 1)
  {
    hide Headings, OpenFrames;
    assert fs[|fs| - 1].kind.scope == Scope(fs, |fs| - 1);
    ScopedKept(fs, OpenFrames(fs, cycle, num, ps), |fs| - 1);
    HeadingsStep(fs, |fs| - 1);
    HeadingsStep(OpenFrames(fs, cycle, num, ps), |fs| - 1);
  }

  lemma OpenExtends(lay: Layout, order: seq<Label>, sc: Option<nat>)
    requires LabelsPlaced(lay, order)
    ensures Extends(lay, OpenLayout(lay, sc), order)
  {
  }

  lemma OpenShelf(g: Neighbours, vd: Marks, vd': Marks, lay: Layout, hs: seq<Kind>, order: seq<Label>, heads: seq<Label>, h: Kind)
    requires AllHeadings(hs) && h.Heading? && h.cycle == |lay.cycles| && h.scope == ScopeAt(hs, |hs|)
    requires Shelved(lay, hs, order, heads) && Ordered(g, vd, lay, hs, order, heads) && order == OpenFlat(lay, hs)
    requires Placing(g, vd, vd', h.vertex)
    requires forall l :: l in h.rest ==> !Done(vd, l)
    ensures Shelved(OpenLayout(lay, h.scope), hs + [h], order, heads + [h.vertex])
    ensures Ordered(g, vd', OpenLayout(lay, h.scope), hs + [h], order, heads + [h.vertex])
    ensures order == OpenFlat(OpenLayout(lay, h.scope), hs + [h])
  {
    hide Entries, CyclesPlaced, Chain, OpenFlat, OpenLayout, Ordered, Extends, LabelsPlaced, ScopeAt;
    ChainLength(hs, lay.cycles, heads);
    OpenKeepsShelved(lay, hs, order, heads, h);
    OpenExtends(lay, order, h.scope);
    OpenKeepsOrdered(g, vd, vd', lay, OpenLayout(lay, h.scope), hs, order, heads, h);
    OpenedFlat(lay, hs, order, heads, h);
  }

  lemma OpenKeeps(g: Neighbours, vd: Marks, num: nat, fs: seq<Frame>, lay: Layout, order: seq<Label>, heads: seq<Label>,
      head: nat, ps: seq<Label>)
    requires Inv(g, vd, num, fs, lay, order, heads) && Ready(fs)
    requires Scanned(g, vd, Top(fs).kind.vertex, head, true) && head == Number(vd, Top(fs).kind.vertex)
    requires PendingOf(Opened(vd, Top(fs).kind.vertex, Top(fs).kind.closed, head), Targets(g, Top(fs).kind), ps)
    ensures |fs| > 1
    ensures Inv(g, Opened(vd, Top(fs).kind.vertex, Top(fs).kind.closed, head), num, OpenFrames(fs, |lay.cycles|, num, ps),
                OpenLayout(lay, Top(fs).kind.scope), order, heads + [Top(fs).kind.vertex])
  {
    hide Control, OpenFlat, Bounded, Seen, Headings, Scoped, Scope, Done, Scanned, OnStack, Number, Opened, OpenLayout, ScopeAt;
    hide Ordered, Shelved, Placing, WhiteSet, NotDone, OpenFrames, PendingOf, Targets, Segment;
    var f := Top(fs).kind;
    var vd' := Opened(vd, f.vertex, f.closed, head);
    OpenKeepsControl(g, vd, num, fs, head, |lay.cycles|, ps);
    OpenScoped(fs, |lay.cycles|, num, ps);
    MarksOfStack(g, vd, num, fs);
    SegmentInStack(fs, |fs| - 1, |fs|);
    OpeningFacts(g, vd, num, Stack(fs, |fs|), f, head);
    CountOpen(vd, f.vertex, f.closed, head);
    OpenBound(g, vd, vd', num, fs, f.vertex);
    ScopeOfHeadings(fs, |fs| - 1);
    OpenShelf(g, vd, vd', lay, Opens(fs), order, heads, HeadingOf(f, |lay.cycles|, num));
  }

  lemma ScopeOfHeadings(fs: seq<Frame>, k: nat)
    requires k <= |fs|
    ensures Scope(fs, k) == ScopeAt(Headings(fs, k), |Headings(fs, k)|)
  {
  }

  lemma OpenBound(g: Neighbours, vd: Marks, vd': Marks, num: nat, fs: seq<Frame>, u: Label)
    requires StackMarks(g, vd, num, Stack(fs, |fs|)) && Bounded(g, vd, num)
    requires u in NotDone(vd) && NotDone(vd') == NotDone(vd) - {u} && WhiteSet(vd') <= vd.Keys
    ensures Bounded(g, vd', num)
  {
    hide Bounded, NotDone, WhiteSet, Number, Stack;
    SubsetSize(WhiteSet(vd'), g.Keys);
    BoundedPlace(g, vd, vd', num, u);
  }

  lemma {:induction false} SubsetSize<T>(a: set<T>, b: set<T>)
    requires a <= b
    ensures |a| <= |b|
    decreases |a|
  {
    if a != {} {
      var x :| x in a;
      SubsetSize(a - {x}, b - {x});
    }
  }

  // ------------------------------------------------------------------ a finished cycle

  lemma FinishScoped(fs: seq<Frame>)
    requires |fs| > 1 && Top(fs).kind.Heading? && Scoped(fs)
    ensures Scoped(fs[..|fs| - 1])
    ensures Opens(fs[..|fs| - 1]) == Headings(fs, |fs| - 1)
    ensures Opens(fs) == Headings(fs, |fs| - 1) + [Top(fs).kind]
    ensures Top(fs).kind.scope == Scope(fs, |fs| - 1)
  {
    hide Headings;
    assert fs[|fs| - 1].kind.scope == Scope(fs, |fs| - 1);
    ScopedKept(fs, fs[..|fs| - 1], |fs| - 1);
    HeadingsStep(fs, |fs| - 1);
  }

  lemma CloseExtends(lay: Layout, lay': Layout, order: seq<Label>, c: nat, h: Label, outer: Option<nat>)
    requires LabelsPlaced(lay, order) && ClosedBy(lay, lay', c, h, outer) && h !in order
    ensures Extends(lay, lay', order)
    ensures Home(lay', h) == Some(c)
  {
    hide Part, SameParents;
  }

  lemma FinishShelf(g: Neighbours, vd: Marks, lay: Layout, hs: seq<Kind>, h: Kind, order: seq<Label>, heads: seq<Label>)
    requires AllHeadings(hs) && h.Heading? && h.scope == ScopeAt(hs, |hs|)
    requires Shelved(lay, hs + [h], order, heads) && Ordered(g, vd, lay, hs + [h], order, heads)
    requires order == OpenFlat(lay, hs + [h])
    requires forall y :: Edge(g, h.vertex, y) ==> Done(vd, y)
    requires forall k :: 0 <= k < |hs| ==> h.vertex in hs[k].rest
    requires h.vertex !in h.rest && !OpenHead(hs, h.vertex)
    requires forall l :: l in h.rest ==> l in order
    requires StronglyConnected(g, h.vertex, Region(h.vertex, h.rest))
    ensures h.cycle < |lay.cycles| && ValidScope(lay, h.scope)
    ensures Shelved(CloseLayout(lay, h.cycle, h.vertex, h.scope), hs, order + [h.vertex], heads)
    ensures Ordered(g, vd, CloseLayout(lay, h.cycle, h.vertex, h.scope), hs, order + [h.vertex], heads)
    ensures order + [h.vertex] == OpenFlat(CloseLayout(lay, h.cycle, h.vertex, h.scope), hs)
  {
    hide Entries, CyclesPlaced, Chain, OpenFlat, CloseLayout, Ordered, Extends, LabelsPlaced, ClosedBy, ScopeAt, Home;
    hide StronglyConnected, OpenHead, Done, IsOpen;
    CloseChain(hs, h, lay.cycles, heads);
    TopScopeValid(lay, hs, heads);
    var lay' := CloseLayout(lay, h.cycle, h.vertex, h.scope);
    HeadUnplaced(g, vd, lay, hs, h, order, heads);
    CloseLayoutFacts(lay, h.cycle, h.vertex, h.scope);
    CloseKeepsShelved(lay, lay', hs, h, order, heads);
    CloseExtends(lay, lay', order, h.cycle, h.vertex, h.scope);
    ClosedByParents(lay, lay', h.cycle, h.vertex, h.scope);
    ChainSame(hs + [h], lay.cycles, lay'.cycles, heads);
    ChainAllHeadings(hs + [h], lay.cycles, heads);
    CloseKeepsOrdered(g, vd, lay, lay', hs, h, order, heads);
    CloseFlat(lay, lay', hs, h, order, heads);
  }

  lemma HeadUnplaced(g: Neighbours, vd: Marks, lay: Layout, hs: seq<Kind>, h: Kind, order: seq<Label>, heads: seq<Label>)
    requires Ordered(g, vd, lay, hs + [h], order, heads) && h.Heading?
    ensures h.vertex !in order
  {
    hide Done, EdgesForward, OpenMembers, ClosedConnected, HeadsLast;
    assert (hs + [h])[|hs|] == h;
    assert OpenHead(hs + [h], h.vertex);
  }

  lemma HeadingFacts(g: Neighbours, vd: Marks, num: nat, fs: seq<Frame>)
    requires |fs| > 0 && Control(g, vd, num, fs) && Top(fs).kind.Heading?
    ensures Top(fs).kind.vertex !in Top(fs).kind.rest
    ensures StronglyConnected(g, Top(fs).kind.vertex, Region(Top(fs).kind.vertex, Top(fs).kind.rest))
  {
    hide Stack, StackMarks, VisitingInv, PendingInv, FramesInv, NestedFrames, StronglyConnected, Shape;
    TopFrame(g, vd, num, fs);
  }

  lemma FinishKeeps(g: Neighbours, vd: Marks, num: nat, fs: seq<Frame>, lay: Layout, order: seq<Label>, heads: seq<Label>)
    requires |fs| > 0 && Inv(g, vd, num, fs, lay, order, heads)
    requires Top(fs).kind.Heading? && Top(fs).pending == []
    ensures |fs| > 1 && Top(fs).kind.cycle < |lay.cycles| && ValidScope(lay, Top(fs).kind.scope)
    ensures Inv(g, vd, num, fs[..|fs| - 1],
                CloseLayout(lay, Top(fs).kind.cycle, Top(fs).kind.vertex, Top(fs).kind.scope), order + [Top(fs).kind.vertex], heads)
  {
    hide Control, OpenFlat, Bounded, Seen, Headings, Scoped, Scope, Done, CloseLayout, ScopeAt, Shelved, StronglyConnected, OpenHead;
    hide EdgesForward, OpenMembers, ClosedConnected, Accounted, ChildrenDone, HeadsLast;
    var n := |fs| - 1;
    var h := Top(fs).kind;
    FinishKeepsControl(g, vd, num, fs);
    SecondIsEntry(g, vd, num, fs);
    FinishScoped(fs);
    InHeadings(g, vd, num, fs, n);
    HeadingFacts(g, vd, num, fs);
    forall y | Edge(g, h.vertex, y) ensures Done(vd, y) {
      FinishedHead(g, vd, num, fs, y);
    }
    forall l | l in h.rest ensures l in order {
      forall x | x in h.rest ensures !OpenHead(Opens(fs), x) {
        OpenHeadSet(Headings(fs, n), h);
      }
      RestPlaced(g, vd, num, fs, Opens(fs), order, l);
    }
    ScopeOfHeadings(fs, n);
    FinishShelf(g, vd, lay, Headings(fs, n), h, order, heads);
  }
}
