/**
  The other two outcomes of `start_visit` (src/cfg/wto.rs:438-488), and `continue_visit`
  (src/cfg/wto.rs:491-512): a vertex is placed alone, opens a cycle, or closes one.
*/
module WtoPlace {
  import opened Wrappers
  import opened Graph
  import opened WtoControl
  import opened WtoStartVisit

  /** Nothing in the segment points below it. */
  ghost predicate SelfContained(g: Neighbours, vd: Marks, f: Kind) {
    forall x, y :: x in Segment(f) && Edge(g, x, y) ==> Done(vd, y) || y in Segment(f)
  }

  lemma HeadPositive(g: Neighbours, vd: Marks, num: nat, fs: seq<Frame>, head: nat, isLoop: bool)
    requires Control(g, vd, num, fs) && Ready(fs)
    requires Scanned(g, vd, Top(fs).kind.vertex, head, isLoop)
    ensures 0 < head
  {
    hide Stack, StackMarks, FramesInv, NestedFrames, Stacked, Closed;
    var u := Top(fs).kind.vertex;
    if head < Number(vd, u) {
      var y :| Offers(g, vd, u, y, head);
      OfferedIsStacked(g, vd, num, fs, y, head);
      OnStackOf(g, vd, num, Stack(fs, |fs|), y);
    }
  }

  lemma ClosedLowAtLeast(g: Neighbours, vd: Marks, s: seq<Label>, f: Kind, head: nat, isLoop: bool, x: Label)
    requires VisitingInv(g, vd, s, f) && f.Visiting? && x in f.closed
    requires Scanned(g, vd, f.vertex, head, isLoop)
    requires forall y :: y in f.closed ==> OnStack(vd, y)
    ensures head <= Low(vd, x)
  {
    hide LowTarget, LowCovers, TreeOrdered, Scanned;
    WitnessesOffered(g, vd, s, f, head, isLoop);
    assert ClosedVertex(g, vd, s, f.vertex, f.closed, x);
  }

  lemma CoveredByClosed(g: Neighbours, vd: Marks, s: seq<Label>, f: Kind, x: Label, y: Label)
    requires VisitingInv(g, vd, s, f) && f.Visiting? && x in f.closed && Edge(g, x, y)
    ensures Done(vd, y) || (y in s && Low(vd, x) <= Number(vd, y))
  {
    hide LowTarget, LowWitness, TreeOrdered;
    assert ClosedVertex(g, vd, s, f.vertex, f.closed, x);
  }

  lemma HeadIsSelfContained(g: Neighbours, vd: Marks, num: nat, fs: seq<Frame>, head: nat, isLoop: bool)
    requires Control(g, vd, num, fs) && Ready(fs)
    requires Scanned(g, vd, Top(fs).kind.vertex, head, isLoop) && head == Number(vd, Top(fs).kind.vertex)
    ensures SelfContained(g, vd, Top(fs).kind)
  {
    hide Stack, StackMarks, NestedFrames, Closed, Inside, VisitingInv, HeadingInv, PendingInv, Done, Number, Low, OnStack, Stacked, Offers;
    hide FramesInv, LowCovers, NextVertex, Shape;
    var n := |fs| - 1;
    var f := Top(fs).kind;
    var s := Stack(fs, n + 1);
    TopFrame(g, vd, num, fs);
    StackStep(fs, n);
    SegmentDistinct(g, vd, num, Stack(fs, n), f, s);
    forall x, y | x in Segment(f) && Edge(g, x, y)
      ensures Done(vd, y) || y in Segment(f)
    {
      if x == f.vertex {
        ChildrenSeen(g, vd, num, fs, y);
        if !Done(vd, y) {
          HeadReaches(g, vd, num, fs, head, isLoop, y);
          SegmentNumbers(g, vd, num, Stack(fs, n), f, s, y);
        }
      } else {
        ClosedLowAtLeast(g, vd, s, f, head, isLoop, x);
        CoveredByClosed(g, vd, s, f, x, y);
        if !Done(vd, y) {
          SegmentNumbers(g, vd, num, Stack(fs, n), f, s, y);
        }
      }
    }
  }

  /** A stacked child of the vertex is numbered no lower than the scan's result. */
  lemma HeadReaches(g: Neighbours, vd: Marks, num: nat, fs: seq<Frame>, head: nat, isLoop: bool, y: Label)
    requires Control(g, vd, num, fs) && Ready(fs)
    requires Scanned(g, vd, Top(fs).kind.vertex, head, isLoop)
    requires Edge(g, Top(fs).kind.vertex, y) && y in Stack(fs, |fs|)
    ensures head <= Number(vd, y)
    ensures Low(vd, y) == 0 ==> Offers(g, vd, Top(fs).kind.vertex, y, Number(vd, y))
  {
    hide Stack, StackMarks, FramesInv, NestedFrames, Stacked, Closed, FrameInv, Offers, OnStack;
    OnStackOf(g, vd, num, Stack(fs, |fs|), y);
    StackBottom(fs, y);
    var k := StackVertex(g, vd, num, fs, 0, y);
    StackedOffer(g, vd, Stack(fs, k + 1), fs[k].kind, Top(fs).kind.vertex, y);
  }

  /** Without a loop the vertex is alone on top of the stack and all its children are done. */
  lemma NoLoopIsAlone(g: Neighbours, vd: Marks, num: nat, fs: seq<Frame>, head: nat)
    requires Control(g, vd, num, fs) && Ready(fs)
    requires Scanned(g, vd, Top(fs).kind.vertex, head, false) && head == Number(vd, Top(fs).kind.vertex)
    ensures Top(fs).kind.closed == []
    ensures forall y :: Edge(g, Top(fs).kind.vertex, y) ==> Done(vd, y)
  {
    hide Stack, StackMarks, NestedFrames, Closed, Inside, VisitingInv, HeadingInv, PendingInv, Stacked, Offers, ClosedVertex;
    hide FramesInv, NextVertex, Shape, Done, OnStack;
    var n := |fs| - 1;
    var f := Top(fs).kind;
    TopFrame(g, vd, num, fs);
    StackStep(fs, n);
    SegmentDistinct(g, vd, num, Stack(fs, n), f, Stack(fs, n + 1));
    if f.closed != [] {
      FirstClosedLoops(g, vd, num, Stack(fs, n), f, Stack(fs, n + 1));
      assert false;
    }
    HeadIsSelfContained(g, vd, num, fs, head, false);
    forall y | Edge(g, f.vertex, y) ensures Done(vd, y) {
      VertexInSegment(f);
      if y == f.vertex {
        VertexStacked(fs);
        OpenLow(g, vd, Stack(fs, n + 1), f);
        HeadReaches(g, vd, num, fs, head, false, y);
      }
    }
  }

  lemma OpenLow(g: Neighbours, vd: Marks, s: seq<Label>, f: Kind)
    requires VisitingInv(g, vd, s, f) && f.Visiting?
    ensures Low(vd, f.vertex) == 0
  {
    hide ClosedVertex, TreeOrdered;
  }

  lemma ClosedFacts(g: Neighbours, vd: Marks, s: seq<Label>, f: Kind, x: Label)
    requires VisitingInv(g, vd, s, f) && f.Visiting? && x in f.closed
    ensures 0 < Low(vd, x) < Number(vd, x) && LowTarget(g, vd, s, x) && LowWitness(g, vd, f.vertex, f.closed, x)
  {
    hide LowTarget, LowWitness, LowCovers, TreeOrdered;
    assert ClosedVertex(g, vd, s, f.vertex, f.closed, x);
  }

  lemma FirstClosedLoops(g: Neighbours, vd: Marks, num: nat, below: seq<Label>, f: Kind, s: seq<Label>)
    requires f.Visiting? && f.closed != [] && s == below + Segment(f)
    requires StackMarks(g, vd, num, s) && VisitingInv(g, vd, s, f)
    requires forall y :: y in f.closed ==> OnStack(vd, y)
    ensures exists y, n: nat :: Offers(g, vd, f.vertex, y, n) && n <= Number(vd, f.vertex)
  {
    hide VisitingInv, LowTarget, StackMarks, OnStack;
    var x := f.closed[0];
    ClosedFacts(g, vd, s, f, x);
    var z := LowTargetEnd(g, vd, s, x);
    NothingBetween(g, vd, num, below, f, s, z);
    var y :| y in f.closed && Edge(g, f.vertex, y) && Low(vd, y) <= Low(vd, x);
    ClosedFacts(g, vd, s, f, y);
    ClosedOffer(g, vd, f.vertex, y);
  }

  lemma ClosedOffer(g: Neighbours, vd: Marks, u: Label, y: Label)
    requires OnStack(vd, y) && Low(vd, y) > 0 && Edge(g, u, y)
    ensures Offers(g, vd, u, y, Low(vd, y))
  {
  }

  lemma LowTargetEnd(g: Neighbours, vd: Marks, s: seq<Label>, x: Label) returns (z: Label)
    requires LowTarget(g, vd, s, x)
    ensures z in s && Number(vd, z) == Low(vd, x)
  {
    var p :| LowPath(g, vd, s, x, p);
    z := p[|p| - 1];
  }

  /** A stacked vertex numbered below the first closed one is numbered at most like the segment's vertex. */
  lemma NothingBetween(g: Neighbours, vd: Marks, num: nat, below: seq<Label>, f: Kind, s: seq<Label>, z: Label)
    requires f.Visiting? && f.closed != [] && s == below + Segment(f) && StackMarks(g, vd, num, s)
    requires z in s && Number(vd, z) < Number(vd, f.closed[0])
    ensures Number(vd, z) <= Number(vd, f.vertex)
  {
    var b := |below|;
    assert s[b] == f.vertex && s[b + 1] == Segment(f)[1] == f.closed[0];
    var i :| 0 <= i < |s| && s[i] == z;
    forall j | b + 1 < j < |s| ensures Number(vd, s[b + 1]) < Number(vd, s[j]) {
    }
  }

  // ------------------------------------------------------------------ placing a vertex

  ghost function Placed(vd: Marks, u: Label, head: nat): Marks {
    vd[u := VertexData(Inf, head)]
  }

  lemma PlacedMarks(g: Neighbours, vd: Marks, num: nat, below: seq<Label>, u: Label, head: nat)
    requires StackMarks(g, vd, num, below + [u])
    ensures StackMarks(g, Placed(vd, u, head), num, below)
    ensures Undisturbed(vd, Placed(vd, u, head), below)
    ensures Done(Placed(vd, u, head), u) && u in g && u in vd && u !in below
  {
    var vd' := Placed(vd, u, head);
    var s := below + [u];
    assert s[|below|] == u && u in s;
    forall i | 0 <= i < |below| ensures below[i] != u {
      assert s[i] == below[i] && Number(vd, s[i]) < Number(vd, s[|below|]);
    }
    forall l | l in g ensures OnStack(vd', l) <==> l in below {
      assert OnStack(vd, l) <==> l in s;
    }
    forall i, j | 0 <= i < j < |below| ensures Number(vd', below[i]) < Number(vd', below[j]) {
      assert s[i] == below[i] && s[j] == below[j];
    }
    forall l | l in below ensures l in g && Number(vd', l) <= num {
      assert l in s;
    }
    forall l | White(vd', l) ensures Low(vd', l) == 0 {
      assert White(vd, l);
    }
  }

  /** A vertex outside every new cycle leaves the stack for good. */
  lemma PlaceKeepsControl(g: Neighbours, vd: Marks, num: nat, fs: seq<Frame>, head: nat)
    requires Control(g, vd, num, fs) && Ready(fs)
    requires Top(fs).kind.closed == []
    ensures |fs| > 1
    ensures Control(g, Placed(vd, Top(fs).kind.vertex, head), num, fs[..|fs| - 1])
    ensures Stack(fs[..|fs| - 1], |fs| - 1) + [Top(fs).kind.vertex] == Stack(fs, |fs|)
  {
    hide Stack, StackMarks, FrameInv, Closed, Inside, Targets, Placed, Undisturbed;
    var n := |fs| - 1;
    var u := Top(fs).kind.vertex;
    var fs' := fs[..n];
    StackSame(fs, fs', n, n);
    StackStep(fs, n);
    assert [u] + [] == [u];
    PlacedMarks(g, vd, num, Stack(fs, n), u, head);
    LowerFrames(g, vd, Placed(vd, u, head), num, num, fs, fs', n);
    ShapeKept(g, fs, fs', n - 1);
  }

  // ------------------------------------------------------------------ opening a cycle

  /** The head is done; everything popped above it is unvisited again. */
  ghost function Opened(vd: Marks, u: Label, closed: seq<Label>, head: nat): Marks {
    map l | l in vd ::
      if l == u then VertexData(Inf, head) else if l in closed then VertexData(Fin(0), 0) else vd[l]
  }

  lemma OpenedMarks(g: Neighbours, vd: Marks, num: nat, below: seq<Label>, f: Kind, s: seq<Label>, head: nat)
    requires f.Visiting? && s == below + Segment(f) && StackMarks(g, vd, num, s)
    ensures StackMarks(g, Opened(vd, f.vertex, f.closed, head), num, below)
    ensures Undisturbed(vd, Opened(vd, f.vertex, f.closed, head), below)
    ensures Done(Opened(vd, f.vertex, f.closed, head), f.vertex)
    ensures forall x :: x in f.closed ==> x in g && White(Opened(vd, f.vertex, f.closed, head), x) && x !in below
    ensures forall x :: x in below ==> Number(Opened(vd, f.vertex, f.closed, head), x) <= num
    ensures f.vertex in g && f.vertex !in f.closed
  {
    var vd' := Opened(vd, f.vertex, f.closed, head);
    SegmentDistinct(g, vd, num, below, f, s);
    VertexInSegment(f);
    forall x | x in f.closed ensures x in Segment(f) {
    }
    forall l | l in below ensures l in vd && l in vd' && vd'[l] == vd[l] {
    }
    forall l | l in g ensures OnStack(vd', l) <==> l in below {
      assert OnStack(vd, l) <==> l in s;
      assert l in s <==> l in below || l in Segment(f);
    }
    forall i, j | 0 <= i < j < |below| ensures Number(vd', below[i]) < Number(vd', below[j]) {
      assert s[i] == below[i] && s[j] == below[j];
    }
    forall l | l in below ensures l in g && Number(vd', l) <= num {
      assert l in s;
    }
    forall l | White(vd', l) ensures Low(vd', l) == 0 {
      assert White(vd, l) || l in f.closed;
    }
  }

  /** Each closed vertex is reached from the head inside the segment. */
  lemma {:induction false} ReachedFromHead(g: Neighbours, u: Label, closed: seq<Label>, i: nat)
    requires TreeOrdered(g, u, closed) && i < |closed|
    ensures From(g, Region(u, closed), u, closed[i])
    decreases i
  {
    var r := Region(u, closed);
    if Edge(g, u, closed[i]) {
      WalkEdge(g, r, u, closed[i]);
    } else {
      var j :| 0 <= j < i && Edge(g, closed[j], closed[i]);
      ReachedFromHead(g, u, closed, j);
      var p :| WalkIn(g, r, u, closed[j], p);
      WalkEdge(g, r, closed[j], closed[i]);
      WalkJoin(g, r, u, closed[j], closed[i], p, [closed[j], closed[i]]);
    }
  }

  /** Each closed vertex comes back to the head inside the segment, by descending low numbers. */
  lemma {:induction false} BackToHead(g: Neighbours, vd: Marks, num: nat, below: seq<Label>, f: Kind, s: seq<Label>,
      head: nat, isLoop: bool, x: Label)
    requires f.Visiting? && s == below + Segment(f) && StackMarks(g, vd, num, s) && VisitingInv(g, vd, s, f)
    requires Scanned(g, vd, f.vertex, head, isLoop) && head == Number(vd, f.vertex)
    requires forall y :: y in f.closed ==> OnStack(vd, y)
    requires x in f.closed
    ensures Back(g, Region(f.vertex, f.closed), x, f.vertex)
    decreases Number(vd, x)
  {
    hide VisitingInv, StackMarks, OnStack, Scanned, Walk;
    var r := Region(f.vertex, f.closed);
    ClosedFacts(g, vd, s, f, x);
    ClosedLowAtLeast(g, vd, s, f, head, isLoop, x);
    var p :| LowPath(g, vd, s, x, p);
    var z := p[|p| - 1];
    forall y | y in p ensures y in r {
      SegmentNumbers(g, vd, num, below, f, s, y);
      assert y in Segment(f);
    }
    assert WalkIn(g, r, x, z, p);
    if z != f.vertex {
      assert z in p && z in f.closed;
      BackToHead(g, vd, num, below, f, s, head, isLoop, z);
      var q :| WalkIn(g, r, z, f.vertex, q) && |q| > 1;
      WalkJoin(g, r, x, z, f.vertex, p, q);
    }
  }

  /** With a loop, the head itself comes back to itself. */
  lemma LoopBack(g: Neighbours, vd: Marks, num: nat, fs: seq<Frame>, head: nat)
    requires Control(g, vd, num, fs) && Ready(fs)
    requires Scanned(g, vd, Top(fs).kind.vertex, head, true) && head == Number(vd, Top(fs).kind.vertex)
    ensures Back(g, Region(Top(fs).kind.vertex, Top(fs).kind.closed), Top(fs).kind.vertex, Top(fs).kind.vertex)
  {
    hide Stack, StackMarks, NestedFrames, Closed, Inside, VisitingInv, HeadingInv, PendingInv, Offers, FramesInv, NextVertex, Shape, Done;
    hide OnStack, Walk;
    var n := |fs| - 1;
    var f := Top(fs).kind;
    var u := f.vertex;
    var r := Region(u, f.closed);
    TopFrame(g, vd, num, fs);
    StackStep(fs, n);
    SegmentDistinct(g, vd, num, Stack(fs, n), f, Stack(fs, n + 1));
    HeadIsSelfContained(g, vd, num, fs, head, true);
    var y, m: nat :| Offers(g, vd, u, y, m) && m <= Number(vd, u);
    OfferFacts(g, vd, u, y, m);
    VertexInSegment(f);
    assert y in Segment(f);
    WalkEdge(g, r, u, y);
    if y != u {
      BackToHead(g, vd, num, Stack(fs, n), f, Stack(fs, n + 1), head, true, y);
      var q :| WalkIn(g, r, y, u, q) && |q| > 1;
      WalkJoin(g, r, u, y, u, [u, y], q);
    }
  }

  lemma SegmentStronglyConnected(g: Neighbours, vd: Marks, num: nat, fs: seq<Frame>, head: nat)
    requires Control(g, vd, num, fs) && Ready(fs)
    requires Scanned(g, vd, Top(fs).kind.vertex, head, true) && head == Number(vd, Top(fs).kind.vertex)
    ensures StronglyConnected(g, Top(fs).kind.vertex, Region(Top(fs).kind.vertex, Top(fs).kind.closed))
  {
    hide Stack, StackMarks, NestedFrames, Closed, Inside, HeadingInv, PendingInv, FramesInv, NextVertex, Shape, Done, ClosedVertex;
    hide TreeOrdered, Scanned, OnStack, Walk;
    var n := |fs| - 1;
    var f := Top(fs).kind;
    var u := f.vertex;
    var r := Region(u, f.closed);
    TopFrame(g, vd, num, fs);
    StackStep(fs, n);
    SegmentDistinct(g, vd, num, Stack(fs, n), f, Stack(fs, n + 1));
    LoopBack(g, vd, num, fs, head);
    WalkStay(g, r, u);
    forall x | x in r ensures From(g, r, u, x) && Back(g, r, x, u) {
      if x != u {
        var i :| 0 <= i < |f.closed| && f.closed[i] == x;
        ReachedFromHead(g, u, f.closed, i);
        BackToHead(g, vd, num, Stack(fs, n), f, Stack(fs, n + 1), head, true, x);
      }
    }
  }

  lemma WalkStay(g: Neighbours, members: set<Label>, u: Label)
    requires u in members
    ensures WalkIn(g, members, u, u, [u])
  {
  }

  ghost function HeadingOf(f: Kind, cycle: nat, num: nat): Kind
    requires f.Visiting?
  {
    Heading(f.vertex, f.scope, cycle, f.closed, num)
  }

  lemma HeadingFrame(g: Neighbours, vd: Marks, num: nat, below: seq<Label>, f: Kind, s: seq<Label>, head: nat,
      cycle: nat, ps: seq<Label>)
    requires f.Visiting? && s == below + Segment(f) && StackMarks(g, vd, num, s)
    requires SelfContained(g, vd, f)
    requires StronglyConnected(g, f.vertex, Region(f.vertex, f.closed))
    requires PendingOf(Opened(vd, f.vertex, f.closed, head), Targets(g, f), ps)
    ensures FrameInv(g, Opened(vd, f.vertex, f.closed, head), num, below, Frame(HeadingOf(f, cycle, num), ps), None)
  {
    hide StackMarks, StronglyConnected, Opened, White, Number, Undisturbed;
    var vd' := Opened(vd, f.vertex, f.closed, head);
    OpenedMarks(g, vd, num, below, f, s, head);
    OpenedDone(vd, f.vertex, f.closed, head);
    forall x, y | (x == f.vertex || x in f.closed) && Edge(g, x, y)
      ensures Done(vd', y) || y in f.closed
    {
      assert x in Segment(f);
      assert Done(vd, y) || y in Segment(f);
      if Done(vd, y) && y !in f.closed {
        assert Done(vd', y);
      }
    }
    forall y | y in Targets(g, f) ensures Done(vd', y) || y in ps {
      assert Edge(g, f.vertex, y);
      if y in f.closed {
        assert White(vd', y);
      }
    }
  }

  lemma OpenedDone(vd: Marks, u: Label, closed: seq<Label>, head: nat)
    ensures forall y :: Done(vd, y) && y !in closed ==> Done(Opened(vd, u, closed, head), y)
  {
  }

  lemma HeadingInside(vd: Marks, vd': Marks, outer: Kind, f: Kind, cycle: nat, num: nat)
    requires f.Visiting? && Inside(vd, outer, f)
    ensures Inside(vd', outer, HeadingOf(f, cycle, num))
  {
    VertexInSegment(f);
    assert forall x :: x in f.closed ==> x in Segment(f);
  }

  ghost function OpenFrames(fs: seq<Frame>, cycle: nat, num: nat, ps: seq<Label>): (r: seq<Frame>)
    requires Ready(fs)
    ensures |r| == |fs|
    ensures SamePrefix(fs, r, |fs| - 1)
    ensures r[|fs| - 1] == Frame(HeadingOf(Top(fs).kind, cycle, num), ps)
  {
    fs[|fs| - 1 := Frame(HeadingOf(Top(fs).kind, cycle, num), ps)]
  }

  /** A new cycle: its head is done, everything above it starts over inside the cycle. */
  lemma OpenKeepsControl(g: Neighbours, vd: Marks, num: nat, fs: seq<Frame>, head: nat, cycle: nat, ps: seq<Label>)
    requires Control(g, vd, num, fs) && Ready(fs)
    requires Scanned(g, vd, Top(fs).kind.vertex, head, true) && head == Number(vd, Top(fs).kind.vertex)
    requires PendingOf(Opened(vd, Top(fs).kind.vertex, Top(fs).kind.closed, head), Targets(g, Top(fs).kind), ps)
    ensures Control(g, Opened(vd, Top(fs).kind.vertex, Top(fs).kind.closed, head), num, OpenFrames(fs, cycle, num, ps))
    ensures |fs| > 1
    ensures Stack(OpenFrames(fs, cycle, num, ps), |fs|) == Stack(fs, |fs| - 1)
    ensures Stack(fs, |fs|) == Stack(fs, |fs| - 1) + Segment(Top(fs).kind)
  {
    hide Stack, StackMarks, FrameInv, Closed, Inside, Targets, Opened, Undisturbed, Scanned, SelfContained, StronglyConnected;
    hide PendingOf, OpenFrames;
    var n := |fs| - 1;
    var f := Top(fs).kind;
    var vd' := Opened(vd, f.vertex, f.closed, head);
    var fs' := OpenFrames(fs, cycle, num, ps);
    StackStep(fs, n);
    StackSame(fs, fs', n, n);
    StackStep(fs', n);
    assert Stack(fs, n) + [] == Stack(fs, n);
    HeadIsSelfContained(g, vd, num, fs, head, true);
    SegmentStronglyConnected(g, vd, num, fs, head);
    OpenedMarks(g, vd, num, Stack(fs, n), f, Stack(fs, n + 1), head);
    HeadingFrame(g, vd, num, Stack(fs, n), f, Stack(fs, n + 1), head, cycle, ps);
    LowerFrames(g, vd, vd', num, num, fs, fs', n);
    forall k | 0 <= k < n ensures Inside(vd', fs'[k].kind, fs'[n].kind) {
      assert Inside(vd, fs[k].kind, fs[n].kind);
      HeadingInside(vd, vd', fs[k].kind, f, cycle, num);
    }
    OneMoreFrame(g, vd', num, fs', n);
    ShapeKept(g, fs, fs', n);
  }

  // ------------------------------------------------------------------ closing a cycle

  lemma FinishKeepsControl(g: Neighbours, vd: Marks, num: nat, fs: seq<Frame>)
    requires Control(g, vd, num, fs) && Top(fs).kind.Heading?
    ensures |fs| > 1
    ensures Control(g, vd, num, fs[..|fs| - 1])
    ensures Stack(fs[..|fs| - 1], |fs| - 1) == Stack(fs, |fs|)
  {
    hide Stack, StackMarks, VisitingInv, PendingInv, Closed, Inside, Targets, Undisturbed, StronglyConnected, FramesInv, NestedFrames;
    var n := |fs| - 1;
    var fs' := fs[..n];
    StackSame(fs, fs', n, n);
    StackStep(fs, n);
    assert Stack(fs, n) + [] == Stack(fs, n);
    UndisturbedSame(g, vd, num, fs, n);
    TopFrame(g, vd, num, fs);
    LowerFrames(g, vd, vd, num, num, fs, fs', n);
    ShapeKept(g, fs, fs', n - 1);
  }

  /** When nothing is pending in an open cycle, every child of its head is done. */
  lemma FinishedHead(g: Neighbours, vd: Marks, num: nat, fs: seq<Frame>, y: Label)
    requires Control(g, vd, num, fs) && Top(fs).kind.Heading? && Top(fs).pending == []
    requires Edge(g, Top(fs).kind.vertex, y)
    ensures Done(vd, y)
  {
    hide Stack, StackMarks, VisitingInv, Closed, NestedFrames, StronglyConnected, FramesInv;
    TopFrame(g, vd, num, fs);
  }
}
