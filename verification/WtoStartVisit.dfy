/**
  What `start_visit` decides (src/cfg/wto.rs:414-489): a vertex whose children are all visited either
  waits on the stack, or is placed alone, or becomes the head of a cycle made of everything above it.
*/
module WtoStartVisit {
  import opened Wrappers
  import opened Graph
  import opened WtoControl

  /** The number a successor contributes: its own, or its low number once it has one. */
  function MinDfn(vd: Marks, y: Label): Dfn
    requires y in vd
  {
    if vd[y].headDfn != 0 && vd[y].dfn != Inf then Fin(vd[y].headDfn) else vd[y].dfn
  }

  ghost predicate Offers(g: Neighbours, vd: Marks, u: Label, y: Label, n: nat) {
    Edge(g, u, y) && y in vd && MinDfn(vd, y) == Fin(n)
  }

  /** The outcome of the scan over the successors of `u`. */
  ghost predicate Scanned(g: Neighbours, vd: Marks, u: Label, head: nat, isLoop: bool) {
    && OnStack(vd, u)
    && head <= Number(vd, u)
    && (forall y, n: nat :: Offers(g, vd, u, y, n) ==> head <= n)
    && (head < Number(vd, u) ==> exists y :: Offers(g, vd, u, y, head))
    && (isLoop <==> exists y, n: nat :: Offers(g, vd, u, y, n) && n <= Number(vd, u))
  }

  /** A frame whose vertex is about to have its `StartVisit`. */
  ghost predicate Ready(fs: seq<Frame>) {
    |fs| > 0 && Top(fs).kind.Visiting? && Top(fs).pending == []
  }

  lemma ChildrenSeen(g: Neighbours, vd: Marks, num: nat, fs: seq<Frame>, y: Label)
    requires Control(g, vd, num, fs) && Ready(fs)
    requires Edge(g, Top(fs).kind.vertex, y)
    ensures Done(vd, y) || y in Stack(fs, |fs|)
  {
    hide FramesInv, VisitingInv, HeadingInv, Stack, StackMarks, Done;
    TopFrame(g, vd, num, fs);
  }

  // ------------------------------------------------------------------ vertices on the stack

  /** A stacked vertex is a frame's own vertex, or a closed one with all that is known of those. */
  lemma StackVertex(g: Neighbours, vd: Marks, num: nat, fs: seq<Frame>, m: nat, y: Label) returns (k: nat)
    requires Control(g, vd, num, fs) && m <= |fs|
    requires y in Stack(fs, |fs|) && y !in Stack(fs, m)
    ensures m <= k < |fs| && fs[k].kind.Visiting? && y in Segment(fs[k].kind)
    ensures Stacked(g, vd, Stack(fs, k + 1), fs[k].kind, y)
    ensures FrameInv(g, vd, num, Stack(fs, k + 1), fs[k], NextVertex(fs, k))
  {
    hide Stack, StackMarks, FrameInv, Stacked;
    k := StackMember(fs, m, |fs|, y);
    assert FrameInv(g, vd, num, Stack(fs, k + 1), fs[k], NextVertex(fs, k));
    FrameStacked(g, vd, num, Stack(fs, k + 1), fs[k], NextVertex(fs, k), y);
  }

  ghost predicate Stacked(g: Neighbours, vd: Marks, below: seq<Label>, f: Kind, y: Label) {
    f.Visiting? && ((y == f.vertex && Low(vd, y) == 0)
                    || (y in f.closed && ClosedVertex(g, vd, below, f.vertex, f.closed, y)))
  }

  lemma FrameStacked(g: Neighbours, vd: Marks, num: nat, below: seq<Label>, f: Frame, next: Option<Label>, y: Label)
    requires FrameInv(g, vd, num, below, f, next) && y in Segment(f.kind)
    ensures f.kind.Visiting? && Stacked(g, vd, below, f.kind, y)
  {
    hide ClosedVertex, TreeOrdered, PendingInv, HeadingInv;
  }

  /** What a stacked vertex offers is its number while open and its low number once closed. */
  lemma StackedOffer(g: Neighbours, vd: Marks, below: seq<Label>, f: Kind, u: Label, y: Label)
    requires Stacked(g, vd, below, f, y) && OnStack(vd, y)
    ensures Edge(g, u, y) ==> Offers(g, vd, u, y, if Low(vd, y) == 0 then Number(vd, y) else Low(vd, y))
    ensures Low(vd, y) == 0 || Low(vd, y) < Number(vd, y)
  {
    hide LowTarget, LowWitness, LowCovers;
  }

  lemma OnStackOf(g: Neighbours, vd: Marks, num: nat, s: seq<Label>, y: Label)
    requires StackMarks(g, vd, num, s) && y in s
    ensures OnStack(vd, y) && y in g && y in vd && Number(vd, y) <= num
  {
  }

  lemma OfferedIsStacked(g: Neighbours, vd: Marks, num: nat, fs: seq<Frame>, y: Label, n: nat)
    requires Control(g, vd, num, fs) && Ready(fs)
    requires Offers(g, vd, Top(fs).kind.vertex, y, n)
    ensures y in Stack(fs, |fs|)
  {
    hide FramesInv, NestedFrames, Stack, StackMarks, Shape;
    ChildrenSeen(g, vd, num, fs, y);
  }

  lemma StackBottom(fs: seq<Frame>, y: Label)
    ensures y !in Stack(fs, 0)
  {
  }

  // ------------------------------------------------------------------ waiting on the stack

  ghost function Lowered(vd: Marks, u: Label, head: nat): Marks
    requires u in vd
  {
    vd[u := vd[u].(headDfn := head)]
  }

  lemma LoweredMarks(g: Neighbours, vd: Marks, num: nat, s: seq<Label>, u: Label, head: nat)
    requires StackMarks(g, vd, num, s) && u in s
    ensures u in vd && StackMarks(g, Lowered(vd, u, head), num, s)
    ensures LoweredOnly(vd, Lowered(vd, u, head), u, head)
  {
    var vd' := Lowered(vd, u, head);
    assert forall l :: Number(vd', l) == Number(vd, l);
    assert forall l :: OnStack(vd', l) <==> OnStack(vd, l);
    assert forall l :: White(vd', l) <==> White(vd, l);
  }

  /** The change as the proofs read it. */
  ghost predicate LoweredOnly(vd: Marks, vd': Marks, u: Label, head: nat) {
    && (forall l :: Number(vd', l) == Number(vd, l))
    && (forall l :: Done(vd', l) <==> Done(vd, l))
    && (forall l :: Low(vd', l) == if l == u then head else Low(vd, l))
    && (forall l :: l in vd && l != u ==> l in vd' && vd'[l] == vd[l])
  }

  lemma LowPathKept(g: Neighbours, vd: Marks, vd': Marks, below: seq<Label>, below': seq<Label>, x: Label)
    requires LowTarget(g, vd, below, x)
    requires forall y :: y in below ==> y in below' && Number(vd', y) == Number(vd, y)
    requires Low(vd', x) == Low(vd, x)
    ensures LowTarget(g, vd', below', x)
  {
    var p :| LowPath(g, vd, below, x, p);
    assert LowPath(g, vd', below', x, p);
  }

  /** The new low number is witnessed by a walk. */
  lemma NewLowTarget(g: Neighbours, vd: Marks, vd': Marks, num: nat, fs: seq<Frame>, head: nat, isLoop: bool)
    requires Control(g, vd, num, fs) && Ready(fs)
    requires Scanned(g, vd, Top(fs).kind.vertex, head, isLoop) && head < Number(vd, Top(fs).kind.vertex)
    requires LoweredOnly(vd, vd', Top(fs).kind.vertex, head)
    requires Top(fs).kind.vertex in Stack(fs, |fs|)
    ensures LowTarget(g, vd', Stack(fs, |fs|), Top(fs).kind.vertex)
  {
    hide FramesInv, NestedFrames, Stack, StackMarks, Shape, FrameInv, Stacked, LoweredOnly;
    var u := Top(fs).kind.vertex;
    var s := Stack(fs, |fs|);
    var y :| Offers(g, vd, u, y, head);
    OfferedIsStacked(g, vd, num, fs, y, head);
    OnStackOf(g, vd, num, s, y);
    StackBottom(fs, y);
    var k := StackVertex(g, vd, num, fs, 0, y);
    StackedOffer(g, vd, Stack(fs, k + 1), fs[k].kind, u, y);
    StackGrows(fs, k + 1, |fs|);
    ExtendLowPath(g, vd, vd', Stack(fs, k + 1), s, fs[k].kind, u, y, head);
  }

  lemma ExtendLowPath(g: Neighbours, vd: Marks, vd': Marks, below: seq<Label>, s: seq<Label>, f: Kind, u: Label, y: Label, head: nat)
    requires Stacked(g, vd, below, f, y) && Edge(g, u, y) && u in s && y in s
    requires head == if Low(vd, y) == 0 then Number(vd, y) else Low(vd, y)
    requires head < Number(vd, u) && head <= Number(vd, y)
    requires LoweredOnly(vd, vd', u, head)
    requires forall z :: z in below ==> z in s
    ensures LowTarget(g, vd', s, u)
  {
    hide LowWitness, LowCovers;
    if Low(vd, y) == 0 {
      assert LowPath(g, vd', s, u, [u, y]);
    } else {
      var p :| LowPath(g, vd, below, y, p);
      var q := [u] + p;
      assert Walk(g, q);
      assert q[|q| - 1] == p[|p| - 1];
      assert LowPath(g, vd', s, u, q);
    }
  }

  lemma NewLowCovers(g: Neighbours, vd: Marks, vd': Marks, num: nat, fs: seq<Frame>, head: nat, isLoop: bool)
    requires Control(g, vd, num, fs) && Ready(fs)
    requires Scanned(g, vd, Top(fs).kind.vertex, head, isLoop)
    requires LoweredOnly(vd, vd', Top(fs).kind.vertex, head)
    ensures LowCovers(g, vd', Stack(fs, |fs|), Top(fs).kind.vertex)
  {
    hide FramesInv, NestedFrames, Stack, StackMarks, Shape, FrameInv, Stacked, Offers, OnStack;
    var u := Top(fs).kind.vertex;
    forall y | Edge(g, u, y)
      ensures Done(vd', y) || (y in Stack(fs, |fs|) && Low(vd', u) <= Number(vd', y))
    {
      ChildrenSeen(g, vd, num, fs, y);
      if !Done(vd, y) {
        OnStackOf(g, vd, num, Stack(fs, |fs|), y);
    StackBottom(fs, y);
        var k := StackVertex(g, vd, num, fs, 0, y);
        StackedOffer(g, vd, Stack(fs, k + 1), fs[k].kind, u, y);
      }
    }
  }

  // the frame below takes the vertex over

  /** The frame below, after the top vertex and what is closed above it joined its segment. */
  ghost function Merged(w: Frame, u: Kind): Frame
    requires w.kind.Visiting? && u.Visiting?
  {
    Frame(w.kind.(closed := w.kind.closed + Segment(u)), w.pending)
  }

  ghost function CloseFrames(fs: seq<Frame>): (r: seq<Frame>)
    requires |fs| > 1 && fs[|fs| - 2].kind.Visiting? && Ready(fs)
    ensures |r| == |fs| - 1
    ensures SamePrefix(fs, r, |fs| - 2)
    ensures r[|fs| - 2] == Merged(fs[|fs| - 2], Top(fs).kind)
  {
    fs[..|fs| - 2] + [Merged(fs[|fs| - 2], Top(fs).kind)]
  }

  lemma CloseStack(fs: seq<Frame>)
    requires |fs| > 1 && fs[|fs| - 2].kind.Visiting? && Ready(fs)
    ensures Stack(CloseFrames(fs), |fs| - 1) == Stack(fs, |fs|)
  {
    hide CloseFrames, Stack;
    var n := |fs| - 1;
    var w, u := fs[n - 1].kind, fs[n].kind;
    StackSame(fs, CloseFrames(fs), n - 1, n - 1);
    StackStep(fs, n - 1);
    StackStep(fs, n);
    StackStep(CloseFrames(fs), n - 1);
    Regroup(Stack(fs, n - 1), [w.vertex], w.closed, Segment(u));
    assert Segment(CloseFrames(fs)[n - 1].kind) == [w.vertex] + (w.closed + Segment(u));
  }

  lemma Regroup<T>(a: seq<T>, b: seq<T>, c: seq<T>, d: seq<T>)
    ensures a + (b + (c + d)) == (a + (b + c)) + d
  {
  }

  lemma MergedOrder(g: Neighbours, w: Kind, u: Kind)
    requires w.Visiting? && u.Visiting?
    requires TreeOrdered(g, w.vertex, w.closed) && TreeOrdered(g, u.vertex, u.closed) && Edge(g, w.vertex, u.vertex)
    ensures TreeOrdered(g, w.vertex, w.closed + Segment(u))
  {
    hide Edge;
    var m := w.closed + Segment(u);
    forall i | 0 <= i < |m|
      ensures Edge(g, w.vertex, m[i]) || exists j :: 0 <= j < i && Edge(g, m[j], m[i])
    {
      MergedOrderAt(g, w.vertex, w.closed, u.vertex, u.closed, m, i);
    }
  }

  lemma MergedOrderAt(g: Neighbours, v: Label, a: seq<Label>, u: Label, b: seq<Label>, m: seq<Label>, i: nat)
    requires TreeOrdered(g, v, a) && TreeOrdered(g, u, b) && Edge(g, v, u)
    requires m == a + ([u] + b) && i < |m|
    ensures Edge(g, v, m[i]) || exists j :: 0 <= j < i && Edge(g, m[j], m[i])
  {
    hide Edge;
    var n := |a|;
    if i < n {
      assert m[i] == a[i];
      if !Edge(g, v, a[i]) {
        var j :| 0 <= j < i && Edge(g, a[j], a[i]);
        assert m[j] == a[j];
      }
    } else if i > n {
      var k := i - n - 1;
      assert m[i] == b[k] && m[n] == u;
      if !Edge(g, u, b[k]) {
        var j :| 0 <= j < k && Edge(g, b[j], b[k]);
        assert m[j + n + 1] == b[j];
      }
    }
  }

  /** A vertex that was closed in the lower frame stays closed in the merged one. */
  lemma ClosedInLower(g: Neighbours, vd: Marks, vd': Marks, below: seq<Label>, s: seq<Label>, v: Label,
      closed: seq<Label>, closed': seq<Label>, u: Label, head: nat, x: Label)
    requires ClosedVertex(g, vd, below, v, closed, x)
    requires LoweredOnly(vd, vd', u, head) && x != u
    requires forall y :: y in below ==> y in s
    requires forall y :: y in closed ==> y in closed' && y != u
    ensures ClosedVertex(g, vd', s, v, closed', x)
  {
    hide LowTarget;
    LowPathKept(g, vd, vd', below, s, x);
    assert LowWitness(g, vd', v, closed', x) by {
      var y :| y in closed && Edge(g, v, y) && Low(vd, y) <= Low(vd, x);
      assert y in closed' && Low(vd', y) <= Low(vd', x);
    }
  }

  /** A vertex that was closed above `u` has `u` itself as its witness after the merge. */
  lemma ClosedInUpper(g: Neighbours, vd: Marks, vd': Marks, s: seq<Label>, v: Label,
      closed: seq<Label>, closed': seq<Label>, u: Label, head: nat, x: Label)
    requires ClosedVertex(g, vd, s, u, closed, x)
    requires LoweredOnly(vd, vd', u, head) && x != u
    requires Edge(g, v, u) && u in closed'
    requires forall y :: y in closed && Edge(g, u, y) ==> head <= Low(vd, y)
    ensures ClosedVertex(g, vd', s, v, closed', x)
  {
    hide LowTarget;
    LowPathKept(g, vd, vd', s, s, x);
    assert LowWitness(g, vd', v, closed', x) by {
      var y :| y in closed && Edge(g, u, y) && Low(vd, y) <= Low(vd, x);
      assert u in closed' && Edge(g, v, u) && Low(vd', u) <= Low(vd', x);
    }
  }

  lemma MergedVisiting(g: Neighbours, vd: Marks, vd': Marks, below: seq<Label>, s: seq<Label>, w: Kind, u: Kind, head: nat)
    requires w.Visiting? && u.Visiting? && Edge(g, w.vertex, u.vertex)
    requires VisitingInv(g, vd, below, w) && VisitingInv(g, vd, s, u)
    requires LoweredOnly(vd, vd', u.vertex, head)
    requires forall y :: y in below ==> y in s && y !in Segment(u)
    requires forall y :: y in Segment(w) ==> y in below
    requires u.vertex !in u.closed
    requires forall y :: y in u.closed && Edge(g, u.vertex, y) ==> head <= Low(vd, y)
    requires 0 < head < Number(vd, u.vertex)
    requires LowTarget(g, vd', s, u.vertex) && LowCovers(g, vd', s, u.vertex)
    ensures VisitingInv(g, vd', s, w.(closed := w.closed + Segment(u)))
  {
    hide ClosedVertex, LowTarget, LowCovers, TreeOrdered;
    var closed' := w.closed + Segment(u);
    MergedOrder(g, w, u);
    assert w.vertex in Segment(w) && u.vertex in Segment(u);
    forall x | x in closed'
      ensures ClosedVertex(g, vd', s, w.vertex, closed', x)
    {
      if x in w.closed {
        assert x in Segment(w);
        forall y | y in w.closed ensures y in closed' && y != u.vertex {
          assert y in Segment(w);
        }
        ClosedInLower(g, vd, vd', below, s, w.vertex, w.closed, closed', u.vertex, head, x);
      } else if x in u.closed {
        ClosedInUpper(g, vd, vd', s, w.vertex, u.closed, closed', u.vertex, head, x);
      } else {
        assert x == u.vertex;
        ClosedSelf(g, vd', s, w.vertex, closed', x);
        assert Low(vd', x) == head && Number(vd', x) == Number(vd, x);
      }
    }
  }

  lemma ClosedSelf(g: Neighbours, vd: Marks, s: seq<Label>, v: Label, closed: seq<Label>, x: Label)
    requires x in closed && Edge(g, v, x)
    requires LowTarget(g, vd, s, x) && LowCovers(g, vd, s, x)
    requires 0 < Low(vd, x) < Number(vd, x)
    ensures ClosedVertex(g, vd, s, v, closed, x)
  {
    hide LowTarget, LowCovers;
    assert x in closed && Edge(g, v, x) && Low(vd, x) <= Low(vd, x);
  }

  lemma WitnessesOffered(g: Neighbours, vd: Marks, below: seq<Label>, f: Kind, head: nat, isLoop: bool)
    requires VisitingInv(g, vd, below, f) && f.Visiting?
    requires Scanned(g, vd, f.vertex, head, isLoop)
    requires forall y :: y in f.closed ==> OnStack(vd, y)
    ensures forall y :: y in f.closed && Edge(g, f.vertex, y) ==> head <= Low(vd, y)
  {
    hide LowTarget, LowWitness, LowCovers, TreeOrdered;
    forall y | y in f.closed && Edge(g, f.vertex, y)
      ensures head <= Low(vd, y)
    {
      assert ClosedVertex(g, vd, below, f.vertex, f.closed, y);
      assert Offers(g, vd, f.vertex, y, Low(vd, y));
    }
  }

  /** Above an open cycle nothing reaches below its mark. */
  lemma HeadAboveMark(g: Neighbours, vd: Marks, num: nat, fs: seq<Frame>, head: nat, isLoop: bool, k: nat)
    requires Control(g, vd, num, fs) && Ready(fs)
    requires Scanned(g, vd, Top(fs).kind.vertex, head, isLoop)
    requires k < |fs| - 1 && fs[k].kind.Heading?
    ensures head > fs[k].kind.mark
  {
    hide Stack, StackMarks, FrameInv, Inside, Closed, Targets, Stacked, Offers, OnStack, Shape;
    var u := Top(fs).kind.vertex;
    var s := Stack(fs, |fs|);
    assert Inside(vd, fs[k].kind, fs[|fs| - 1].kind);
    InsideTop(vd, fs[k].kind, Top(fs).kind);
    if head < Number(vd, u) {
      var y :| Offers(g, vd, u, y, head);
      OfferedIsStacked(g, vd, num, fs, y, head);
      OnStackOf(g, vd, num, s, y);
      assert FrameInv(g, vd, num, Stack(fs, k + 1), fs[k], NextVertex(fs, k));
      OfferFacts(g, vd, u, y, head);
      InRegion(g, vd, num, Stack(fs, k + 1), fs[k], NextVertex(fs, k), u, y);
      var j := StackVertex(g, vd, num, fs, k + 1, y);
      StackedOffer(g, vd, Stack(fs, j + 1), fs[j].kind, u, y);
      SameOffer(g, vd, u, y, head, if Low(vd, y) == 0 then Number(vd, y) else Low(vd, y));
      assert Inside(vd, fs[k].kind, fs[j].kind);
      InsideStacked(g, vd, Stack(fs, j + 1), fs[k].kind, fs[j].kind, y);
    }
  }

  lemma SameOffer(g: Neighbours, vd: Marks, u: Label, y: Label, n: nat, m: nat)
    requires Offers(g, vd, u, y, n) && Offers(g, vd, u, y, m)
    ensures n == m
  {
  }

  lemma OfferFacts(g: Neighbours, vd: Marks, u: Label, y: Label, n: nat)
    requires Offers(g, vd, u, y, n)
    ensures Edge(g, u, y) && y in vd && !Done(vd, y)
  {
  }

  lemma InsideTop(vd: Marks, outer: Kind, f: Kind)
    requires Inside(vd, outer, f) && outer.Heading? && f.Visiting?
    ensures f.vertex in outer.rest && Number(vd, f.vertex) > outer.mark
  {
    assert f.vertex in Segment(f);
  }

  lemma InsideStacked(g: Neighbours, vd: Marks, below: seq<Label>, outer: Kind, f: Kind, y: Label)
    requires Inside(vd, outer, f) && outer.Heading? && Stacked(g, vd, below, f, y) && y in Segment(f)
    ensures Number(vd, y) > outer.mark && (Low(vd, y) != 0 ==> Low(vd, y) > outer.mark)
  {
    hide ClosedVertex;
  }

  lemma InRegion(g: Neighbours, vd: Marks, num: nat, below: seq<Label>, f: Frame, next: Option<Label>, u: Label, y: Label)
    requires FrameInv(g, vd, num, below, f, next) && f.kind.Heading?
    requires u in f.kind.rest && Edge(g, u, y) && !Done(vd, y)
    ensures y in f.kind.rest && y !in below
  {
    hide VisitingInv, PendingInv, StronglyConnected;
  }

  /** Where the low number points below the top vertex, the frame below is a vertex under visit. */
  lemma CloseHasParent(g: Neighbours, vd: Marks, num: nat, fs: seq<Frame>, head: nat, isLoop: bool)
    requires Control(g, vd, num, fs) && Ready(fs)
    requires Scanned(g, vd, Top(fs).kind.vertex, head, isLoop) && head < Number(vd, Top(fs).kind.vertex)
    ensures |fs| > 1 && fs[|fs| - 2].kind.Visiting?
  {
    hide Stack, StackMarks, FrameInv, Inside, Closed, Targets, Offers, OnStack, LowTarget, Lowered;
    var n := |fs| - 1;
    var u := Top(fs).kind.vertex;
    var s := Stack(fs, n + 1);
    StackStep(fs, n);
    VertexStacked(fs);
    LoweredMarks(g, vd, num, s, u, head);
    NewLowTarget(g, vd, Lowered(vd, u, head), num, fs, head, isLoop);
    var z := LowEnd(g, vd, Lowered(vd, u, head), s, u, head);
    SegmentNumbers(g, vd, num, Stack(fs, n), Top(fs).kind, s, z);
    if n == 0 {
      assert false;
    }
    if fs[n - 1].kind.Heading? {
      HeadAboveMark(g, vd, num, fs, head, isLoop, n - 1);
      assert FrameInv(g, vd, num, Stack(fs, n), fs[n - 1], NextVertex(fs, n - 1));
      BelowMark(g, vd, num, Stack(fs, n), fs[n - 1], NextVertex(fs, n - 1), z);
      assert false;
    } else if fs[n - 1].kind.Bottom? {
      BottomFirst(g, fs, n - 1);
      StackStep(fs, 0);
      StackBottom(fs, z);
      assert false;
    }
  }

  lemma VertexStacked(fs: seq<Frame>)
    requires Ready(fs)
    ensures Top(fs).kind.vertex in Stack(fs, |fs|)
  {
    hide Stack;
    SegmentInStack(fs, |fs| - 1, |fs|);
    assert Top(fs).kind.vertex in Segment(Top(fs).kind);
  }

  lemma BottomFirst(g: Neighbours, fs: seq<Frame>, k: nat)
    requires Shape(g, fs) && k < |fs| && fs[k].kind.Bottom?
    ensures k == 0 && Segment(fs[0].kind) == []
  {
  }

  lemma BelowMark(g: Neighbours, vd: Marks, num: nat, below: seq<Label>, f: Frame, next: Option<Label>, z: Label)
    requires FrameInv(g, vd, num, below, f, next) && f.kind.Heading? && z in below
    ensures Number(vd, z) <= f.kind.mark
  {
    hide VisitingInv, PendingInv, StronglyConnected;
  }

  lemma LowEnd(g: Neighbours, vd: Marks, vd': Marks, s: seq<Label>, u: Label, head: nat) returns (z: Label)
    requires LoweredOnly(vd, vd', u, head) && LowTarget(g, vd', s, u)
    ensures z in s && Number(vd, z) == head
  {
    var p :| LowPath(g, vd', s, u, p);
    z := p[|p| - 1];
  }

  /** A stacked vertex numbered below the top vertex is under its segment. */
  lemma SegmentNumbers(g: Neighbours, vd: Marks, num: nat, below: seq<Label>, f: Kind, s: seq<Label>, z: Label)
    requires f.Visiting? && s == below + Segment(f) && StackMarks(g, vd, num, s) && z in s
    ensures z in below <==> Number(vd, z) < Number(vd, f.vertex)
    ensures z in Segment(f) <==> Number(vd, z) >= Number(vd, f.vertex)
  {
    var b := |below|;
    assert s[b] == f.vertex;
    var i :| 0 <= i < |s| && s[i] == z;
    if i < b {
      assert below[i] == z;
    } else {
      assert Segment(f)[i - b] == z;
    }
    forall j | 0 <= j < b ensures below[j] != z || i < b { assert s[j] == below[j]; }
    forall j | 0 <= j < |Segment(f)| ensures Segment(f)[j] != z || i >= b { assert s[b + j] == Segment(f)[j]; }
  }

  lemma SegmentDistinct(g: Neighbours, vd: Marks, num: nat, below: seq<Label>, f: Kind, s: seq<Label>)
    requires f.Visiting? && s == below + Segment(f) && StackMarks(g, vd, num, s)
    ensures f.vertex !in f.closed
    ensures forall x :: x in Segment(f) ==> x in s && x !in below && OnStack(vd, x)
    ensures forall x :: x in below ==> x in s && x !in Segment(f)
    ensures forall x :: x in f.closed ==> x in s && OnStack(vd, x)
  {
    var b := |below|;
    assert s[b] == f.vertex;
    forall x | x in f.closed ensures x != f.vertex && x in s {
      var i :| 0 <= i < |f.closed| && f.closed[i] == x;
      assert s[b + 1 + i] == Segment(f)[1 + i] == x;
      assert Number(vd, s[b]) < Number(vd, s[b + 1 + i]);
    }
    forall x | x in s ensures !(x in below && x in Segment(f)) {
      SegmentNumbers(g, vd, num, below, f, s, x);
    }
  }

  lemma LoweredUndisturbed(g: Neighbours, vd: Marks, num: nat, s: seq<Label>, below: seq<Label>, u: Label, head: nat)
    requires StackMarks(g, vd, num, s) && u in s && u in vd
    requires forall x :: x in below ==> x in s && x != u
    ensures Undisturbed(vd, Lowered(vd, u, head), below)
  {
  }

  /** The merged frame still has every target in view. */
  lemma MergedPending(g: Neighbours, vd: Marks, vd': Marks, below: seq<Label>, s: seq<Label>, w: Frame, u: Kind, head: nat)
    requires w.kind.Visiting? && u.Visiting? && LoweredOnly(vd, vd', u.vertex, head)
    requires PendingInv(g, vd, below, w, Some(u.vertex))
    requires u.vertex in s && forall x :: x in below ==> x in s
    ensures PendingInv(g, vd', s, Merged(w, u), None)
  {
  }

  lemma MergedInside(vd: Marks, vd': Marks, outer: Kind, w: Kind, u: Kind, head: nat)
    requires w.Visiting? && u.Visiting? && LoweredOnly(vd, vd', u.vertex, head)
    requires Inside(vd, outer, w) && Inside(vd, outer, u)
    requires outer.Heading? ==> head > outer.mark
    ensures Inside(vd', outer, w.(closed := w.closed + Segment(u)))
  {
    var m := w.(closed := w.closed + Segment(u));
    forall x | x in Segment(m) ensures x in Segment(w) || x in Segment(u) {
    }
    assert forall x :: x in w.closed ==> x in Segment(w);
  }

  lemma MergedFrame(g: Neighbours, vd: Marks, num: nat, fs: seq<Frame>, head: nat, isLoop: bool)
    requires Control(g, vd, num, fs) && Ready(fs)
    requires Scanned(g, vd, Top(fs).kind.vertex, head, isLoop) && head < Number(vd, Top(fs).kind.vertex)
    requires 0 < head
    requires |fs| > 1 && fs[|fs| - 2].kind.Visiting?
    ensures Top(fs).kind.vertex in vd
    ensures FrameInv(g, Lowered(vd, Top(fs).kind.vertex, head), num, Stack(fs, |fs|), Merged(fs[|fs| - 2], Top(fs).kind), None)
  {
    hide Stack, StackMarks, Inside, Closed, Offers, OnStack, LowTarget, LowCovers, Lowered, LoweredOnly, ClosedVertex, TreeOrdered;
    hide Scanned, Number;
    var n := |fs| - 1;
    var u := Top(fs).kind;
    var s := Stack(fs, n + 1);
    StackStep(fs, n);
    StackStep(fs, n - 1);
    VertexStacked(fs);
    SegmentInStack(fs, n - 1, n);
    SegmentDistinct(g, vd, num, Stack(fs, n), u, s);
    LoweredMarks(g, vd, num, s, u.vertex, head);
    var vd' := Lowered(vd, u.vertex, head);
    NewLowTarget(g, vd, vd', num, fs, head, isLoop);
    NewLowCovers(g, vd, vd', num, fs, head, isLoop);
    TopFrame(g, vd, num, fs);
    assert FrameInv(g, vd, num, Stack(fs, n), fs[n - 1], NextVertex(fs, n - 1));
    WitnessesOffered(g, vd, s, u, head, isLoop);
    assert Edge(g, fs[n - 1].kind.vertex, u.vertex);
    MergedVisiting(g, vd, vd', Stack(fs, n), s, fs[n - 1].kind, u, head);
    MergedPending(g, vd, vd', Stack(fs, n), s, fs[n - 1], u, head);
  }

  /** Waiting on the stack for a head further down. */
  lemma CloseKeepsControl(g: Neighbours, vd: Marks, num: nat, fs: seq<Frame>, head: nat, isLoop: bool)
    requires Control(g, vd, num, fs) && Ready(fs)
    requires Scanned(g, vd, Top(fs).kind.vertex, head, isLoop) && head < Number(vd, Top(fs).kind.vertex)
    requires 0 < head
    requires |fs| > 1 && fs[|fs| - 2].kind.Visiting?
    ensures Top(fs).kind.vertex in vd
    ensures Control(g, Lowered(vd, Top(fs).kind.vertex, head), num, CloseFrames(fs))
    ensures Stack(CloseFrames(fs), |fs| - 1) == Stack(fs, |fs|)
  {
    hide Stack, StackMarks, Inside, FrameInv, Closed, Offers, OnStack, Lowered, LoweredOnly, Scanned, Number, CloseFrames, Targets;
    hide Undisturbed, Segment;
    var n := |fs| - 1;
    var u := Top(fs).kind;
    var fs' := CloseFrames(fs);
    MergedFrame(g, vd, num, fs, head, isLoop);
    var vd' := Lowered(vd, u.vertex, head);
    CloseStack(fs);
    VertexStacked(fs);
    LoweredMarks(g, vd, num, Stack(fs, n + 1), u.vertex, head);
    StackStep(fs, n);
    SegmentDistinct(g, vd, num, Stack(fs, n), u, Stack(fs, n + 1));
    VertexInSegment(u);
    LoweredUndisturbed(g, vd, num, Stack(fs, n + 1), Stack(fs, n), u.vertex, head);
    UndisturbedPrefix(vd, vd', fs, n - 1, n);
    LowerFrames(g, vd, vd', num, num, fs, fs', n - 1);
    forall k | 0 <= k < n - 1 ensures Inside(vd', fs'[k].kind, fs'[n - 1].kind) {
      assert Inside(vd, fs[k].kind, fs[n - 1].kind) && Inside(vd, fs[k].kind, fs[n].kind);
      if fs[k].kind.Heading? {
        HeadAboveMark(g, vd, num, fs, head, isLoop, k);
      }
      MergedInside(vd, vd', fs[k].kind, fs[n - 1].kind, u, head);
    }
    OneMoreFrame(g, vd', num, fs', n - 1);
    ShapeKept(g, fs, fs', n - 1);
  }

  lemma VertexInSegment(f: Kind)
    requires f.Visiting?
    ensures f.vertex in Segment(f)
  {
  }
}
