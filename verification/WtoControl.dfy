/**
  The depth-first search inside the builder of a weak topological order
  (src/cfg/wto.rs:367-512).

  The source keeps one flat stack of tasks and one flat stack of vertices. Both are read here as the
  concatenation of *frames*: a frame is a vertex whose `StartVisit` is still to come, or a cycle whose
  `ContinueVisit` is still to come, together with the `PushSuccessors` tasks above it. `Control` says
  what holds between any two tasks, and one lemma per kind of step shows that the step keeps it.
*/
module WtoControl {
  import opened Wrappers
  import opened Graph

  /** A depth-first number. 0 is "not visited"; `Inf` is the source's DFN_INF. */
  datatype Dfn = Fin(n: nat) | Inf

  datatype VertexData = VertexData(dfn: Dfn, headDfn: nat)

  type Marks = map<Label, VertexData>

  predicate White(vd: Marks, l: Label) {
    l in vd && vd[l].dfn == Fin(0)
  }

  ghost predicate OnStack(vd: Marks, l: Label) {
    l in vd && vd[l].dfn.Fin? && vd[l].dfn.n > 0
  }

  ghost predicate Done(vd: Marks, l: Label) {
    l in vd && vd[l].dfn.Inf?
  }

  ghost function Number(vd: Marks, l: Label): nat {
    if l in vd && vd[l].dfn.Fin? then vd[l].dfn.n else 0
  }

  ghost function Low(vd: Marks, l: Label): nat {
    if l in vd then vd[l].headDfn else 0
  }

  /** Vertices in `closed` had their `StartVisit` and still wait on the vertex stack for a head. */
  datatype Kind =
    | Bottom
    | Visiting(vertex: Label, scope: Option<nat>, closed: seq<Label>)
    | Heading(vertex: Label, scope: Option<nat>, cycle: nat, rest: seq<Label>, mark: nat)

  datatype Frame = Frame(kind: Kind, pending: seq<Label>)

  ghost function Segment(f: Kind): seq<Label> {
    if f.Visiting? then [f.vertex] + f.closed else []
  }

  /** The part of the vertex stack that belongs to the first `k` frames. */
  ghost function Stack(fs: seq<Frame>, k: nat): seq<Label>
    requires k <= |fs|
  {
    if k == 0 then [] else Stack(fs, k - 1) + Segment(fs[k - 1].kind)
  }

  ghost function Targets(g: Neighbours, f: Kind): set<Label> {
    if f.Bottom? then {ENTRY} else if f.vertex in g then g[f.vertex].children else {}
  }

  ghost function NextVertex(fs: seq<Frame>, k: nat): Option<Label> {
    if k + 1 < |fs| && !fs[k + 1].kind.Bottom? then Some(fs[k + 1].kind.vertex) else None
  }

  /** Each vertex of `rest` has a parent before it, `root` coming first. */
  ghost predicate TreeOrdered(g: Neighbours, root: Label, rest: seq<Label>) {
    forall i :: 0 <= i < |rest| ==> Edge(g, root, rest[i]) || exists j :: 0 <= j < i && Edge(g, rest[j], rest[i])
  }

  /** A walk on the stack from `x` down to the vertex its low number names, never passing below that. */
  ghost predicate LowPath(g: Neighbours, vd: Marks, below: seq<Label>, x: Label, p: seq<Label>) {
    && Walk(g, p)
    && |p| > 1
    && p[0] == x
    && (forall y :: y in p ==> y in below && Number(vd, y) >= Low(vd, x))
    && Number(vd, p[|p| - 1]) == Low(vd, x)
  }

  ghost predicate LowTarget(g: Neighbours, vd: Marks, below: seq<Label>, x: Label) {
    exists p :: LowPath(g, vd, below, x, p)
  }

  /** A child of `v` in the same segment reaches at least as far down as `x`. */
  ghost predicate LowWitness(g: Neighbours, vd: Marks, v: Label, closed: seq<Label>, x: Label) {
    exists y :: y in closed && Edge(g, v, y) && Low(vd, y) <= Low(vd, x)
  }

  ghost predicate LowCovers(g: Neighbours, vd: Marks, below: seq<Label>, x: Label) {
    forall y :: Edge(g, x, y) ==> Done(vd, y) || (y in below && Low(vd, x) <= Number(vd, y))
  }

  ghost predicate ClosedVertex(g: Neighbours, vd: Marks, below: seq<Label>, v: Label, closed: seq<Label>, x: Label) {
    && 0 < Low(vd, x) < Number(vd, x)
    && LowTarget(g, vd, below, x)
    && LowWitness(g, vd, v, closed, x)
    && LowCovers(g, vd, below, x)
  }

  ghost predicate VisitingInv(g: Neighbours, vd: Marks, below: seq<Label>, f: Kind) {
    f.Visiting? ==>
      && f.vertex in g
      && Low(vd, f.vertex) == 0
      && TreeOrdered(g, f.vertex, f.closed)
      && forall x :: x in f.closed ==> ClosedVertex(g, vd, below, f.vertex, f.closed, x)
  }

  ghost function Region(h: Label, rest: seq<Label>): set<Label> {
    {h} + set x | x in rest
  }

  ghost predicate HeadingInv(g: Neighbours, vd: Marks, num: nat, below: seq<Label>, f: Kind) {
    f.Heading? ==>
      && Done(vd, f.vertex)
      && f.vertex in g
      && f.vertex !in f.rest
      && f.mark <= num
      && StronglyConnected(g, f.vertex, Region(f.vertex, f.rest))
      && (forall x, y :: (x == f.vertex || x in f.rest) && Edge(g, x, y) ==> Done(vd, y) || y in f.rest)
      && (forall x :: x in f.rest ==> x in g && x !in below)
      && (forall z :: z in below ==> Number(vd, z) <= f.mark)
  }

  /** No target of the frame is forgotten. */
  ghost predicate PendingInv(g: Neighbours, vd: Marks, below: seq<Label>, f: Frame, next: Option<Label>) {
    && (forall y :: y in f.pending ==> y in Targets(g, f.kind))
    && (forall y :: y in Targets(g, f.kind) ==> Done(vd, y) || y in f.pending || y in below || next == Some(y))
  }

  ghost predicate FrameInv(g: Neighbours, vd: Marks, num: nat, below: seq<Label>, f: Frame, next: Option<Label>) {
    && VisitingInv(g, vd, below, f.kind)
    && HeadingInv(g, vd, num, below, f.kind)
    && PendingInv(g, vd, below, f, next)
  }

  /** Everything above an open cycle lives inside it. */
  ghost predicate Inside(vd: Marks, outer: Kind, f: Kind) {
    outer.Heading? ==>
      && (f.Visiting? ==>
        && (forall x :: x in Segment(f) ==> x in outer.rest && Number(vd, x) > outer.mark)
        && (forall x :: x in f.closed ==> Low(vd, x) > outer.mark))
      && (f.Heading? ==> f.vertex in outer.rest && forall x :: x in f.rest ==> x in outer.rest)
  }

  ghost predicate Shape(g: Neighbours, fs: seq<Frame>) {
    && |fs| > 0
    && fs[0].kind.Bottom?
    && forall k :: 1 <= k < |fs| ==> !fs[k].kind.Bottom? && fs[k].kind.vertex in Targets(g, fs[k - 1].kind)
  }

  ghost predicate StackMarks(g: Neighbours, vd: Marks, num: nat, s: seq<Label>) {
    && vd.Keys == g.Keys
    && (forall l :: l in g ==> (OnStack(vd, l) <==> l in s))
    && (forall l :: l in s ==> l in g && Number(vd, l) <= num)
    && (forall i, j :: 0 <= i < j < |s| ==> Number(vd, s[i]) < Number(vd, s[j]))
    && (forall l :: White(vd, l) ==> Low(vd, l) == 0)
  }

  ghost predicate FramesInv(g: Neighbours, vd: Marks, num: nat, fs: seq<Frame>, m: nat) {
    forall k :: 0 <= k < m <= |fs| ==> FrameInv(g, vd, num, Stack(fs, k + 1), fs[k], NextVertex(fs, k))
  }

  ghost predicate NestedFrames(vd: Marks, fs: seq<Frame>, m: nat) {
    forall k, j :: 0 <= k < j < m <= |fs| ==> Inside(vd, fs[k].kind, fs[j].kind)
  }

  /** What holds between any two tasks. */
  ghost predicate Control(g: Neighbours, vd: Marks, num: nat, fs: seq<Frame>) {
    && Closed(g)
    && ENTRY in g
    && Shape(g, fs)
    && StackMarks(g, vd, num, Stack(fs, |fs|))
    && FramesInv(g, vd, num, fs, |fs|)
    && NestedFrames(vd, fs, |fs|)
  }

  // ------------------------------------------------------------------ frames and the stack

  ghost predicate SamePrefix(fs: seq<Frame>, fs': seq<Frame>, m: nat) {
    && m <= |fs|
    && m <= |fs'|
    && forall i :: 0 <= i < m ==> fs'[i] == fs[i]
  }

  lemma {:induction false} StackSame(fs: seq<Frame>, fs': seq<Frame>, m: nat, k: nat)
    requires SamePrefix(fs, fs', m) && k <= m
    ensures Stack(fs', k) == Stack(fs, k)
    decreases k
  {
    if k > 0 {
      StackSame(fs, fs', m, k - 1);
    }
  }

  lemma {:induction false} StackGrows(fs: seq<Frame>, k: nat, m: nat)
    requires k <= m <= |fs|
    ensures forall x :: x in Stack(fs, k) ==> x in Stack(fs, m)
    decreases m
  {
    hide Stack, Segment;
    if k < m {
      StackGrows(fs, k, m - 1);
      StackStep(fs, m - 1);
    }
  }

  lemma StackStep(fs: seq<Frame>, k: nat)
    requires k < |fs|
    ensures Stack(fs, k + 1) == Stack(fs, k) + Segment(fs[k].kind)
  {
  }

  lemma SegmentInStack(fs: seq<Frame>, k: nat, m: nat)
    requires k < m <= |fs|
    ensures forall x :: x in Segment(fs[k].kind) ==> x in Stack(fs, m)
  {
    hide Stack, Segment;
    StackStep(fs, k);
    StackGrows(fs, k + 1, m);
  }

  /** The frame of a stacked vertex, above any prefix that does not hold the vertex. */
  lemma {:induction false} StackMember(fs: seq<Frame>, m: nat, n: nat, y: Label) returns (k: nat)
    requires m <= n <= |fs| && y in Stack(fs, n) && y !in Stack(fs, m)
    ensures m <= k < n && y in Segment(fs[k].kind)
    decreases n
  {
    hide Segment, Stack;
    if n == m {
      assert false;
    }
    StackStep(fs, n - 1);
    if y in Segment(fs[n - 1].kind) {
      k := n - 1;
    } else {
      k := StackMember(fs, m, n - 1, y);
    }
  }

  /** The vertex a frame was waiting for is still the next one, or has been dealt with. */
  ghost predicate Handed(vd': Marks, next: Option<Label>, next': Option<Label>) {
    next == next' || next == None || Done(vd', next.value)
  }

  /** What a step must leave alone for the frames on the stack `s` to stay as they are. */
  ghost predicate Undisturbed(vd: Marks, vd': Marks, s: seq<Label>) {
    && (forall l :: Done(vd, l) ==> Done(vd', l))
    && (forall l :: l in s ==> l in vd && l in vd' && vd'[l] == vd[l])
  }

  lemma ClosedStable(g: Neighbours, vd: Marks, vd': Marks, below: seq<Label>, v: Label, closed: seq<Label>, x: Label)
    requires ClosedVertex(g, vd, below, v, closed, x)
    requires Undisturbed(vd, vd', below)
    requires x in closed && forall y :: y in closed ==> y in below
    ensures ClosedVertex(g, vd', below, v, closed, x)
  {
    assert LowTarget(g, vd', below, x) by {
      var p :| LowPath(g, vd, below, x, p);
      assert LowPath(g, vd', below, x, p);
    }
    assert LowWitness(g, vd', v, closed, x) by {
      var y :| y in closed && Edge(g, v, y) && Low(vd, y) <= Low(vd, x);
      assert Low(vd', y) <= Low(vd', x);
    }
  }

  lemma VisitingStable(g: Neighbours, vd: Marks, vd': Marks, below: seq<Label>, f: Kind)
    requires VisitingInv(g, vd, below, f)
    requires Undisturbed(vd, vd', below)
    requires forall x :: x in Segment(f) ==> x in below
    ensures VisitingInv(g, vd', below, f)
  {
    hide ClosedVertex, TreeOrdered;
    if f.Visiting? {
      assert f.vertex in Segment(f);
      forall x | x in f.closed
        ensures ClosedVertex(g, vd', below, f.vertex, f.closed, x)
      {
        forall y | y in f.closed ensures y in below {
          assert y in Segment(f);
        }
        ClosedStable(g, vd, vd', below, f.vertex, f.closed, x);
      }
    }
  }

  /** A lower frame does not notice a step that leaves its part of the stack alone. */
  lemma FrameStable(g: Neighbours, vd: Marks, vd': Marks, num: nat, num': nat, below: seq<Label>, f: Frame,
      next: Option<Label>, next': Option<Label>)
    requires FrameInv(g, vd, num, below, f, next)
    requires num <= num'
    requires Undisturbed(vd, vd', below)
    requires forall x :: x in Segment(f.kind) ==> x in below
    requires Handed(vd', next, next')
    ensures FrameInv(g, vd', num', below, f, next')
  {
    hide VisitingInv, StronglyConnected, Segment;
    VisitingStable(g, vd, vd', below, f.kind);
  }

  lemma LowerFrame(g: Neighbours, vd: Marks, vd': Marks, num: nat, num': nat, fs: seq<Frame>, fs': seq<Frame>, m: nat, k: nat)
    requires SamePrefix(fs, fs', m) && k < m
    requires FrameInv(g, vd, num, Stack(fs, k + 1), fs[k], NextVertex(fs, k))
    requires num <= num'
    requires Undisturbed(vd, vd', Stack(fs, m))
    requires Handed(vd', NextVertex(fs, m - 1), NextVertex(fs', m - 1))
    ensures FrameInv(g, vd', num', Stack(fs', k + 1), fs'[k], NextVertex(fs', k))
  {
    hide FrameInv, Done, Segment;
    SegmentInStack(fs, k, k + 1);
    StackGrows(fs, k + 1, m);
    StackSame(fs, fs', m, k + 1);
    FrameStable(g, vd, vd', num, num', Stack(fs, k + 1), fs[k], NextVertex(fs, k), NextVertex(fs', k));
  }

  lemma LowerFrames(g: Neighbours, vd: Marks, vd': Marks, num: nat, num': nat, fs: seq<Frame>, fs': seq<Frame>, m: nat)
    requires SamePrefix(fs, fs', m)
    requires FramesInv(g, vd, num, fs, |fs|)
    requires NestedFrames(vd, fs, |fs|)
    requires num <= num'
    requires Undisturbed(vd, vd', Stack(fs, m))
    requires m > 0 ==> Handed(vd', NextVertex(fs, m - 1), NextVertex(fs', m - 1))
    ensures FramesInv(g, vd', num', fs', m)
    ensures NestedFrames(vd', fs', m)
  {
    hide FrameInv, Inside, Segment, Undisturbed, Handed;
    forall k | 0 <= k < m
      ensures FrameInv(g, vd', num', Stack(fs', k + 1), fs'[k], NextVertex(fs', k))
    {
      LowerFrame(g, vd, vd', num, num', fs, fs', m, k);
    }
    forall k, j | 0 <= k < j < m
      ensures Inside(vd', fs'[k].kind, fs'[j].kind)
    {
      SegmentInStack(fs, j, m);
      InsideStable(vd, vd', fs[k].kind, fs[j].kind, Stack(fs, m));
    }
  }

  lemma InsideStable(vd: Marks, vd': Marks, outer: Kind, f: Kind, s: seq<Label>)
    requires Inside(vd, outer, f)
    requires Undisturbed(vd, vd', s)
    requires forall x :: x in Segment(f) ==> x in s
    ensures Inside(vd', outer, f)
  {
    assert f.Visiting? ==> forall x :: x in f.closed ==> x in Segment(f);
  }

  lemma UndisturbedSame(g: Neighbours, vd: Marks, num: nat, fs: seq<Frame>, m: nat)
    requires StackMarks(g, vd, num, Stack(fs, |fs|)) && m <= |fs|
    ensures Undisturbed(vd, vd, Stack(fs, m))
  {
    StackGrows(fs, m, |fs|);
  }

  lemma TopFrame(g: Neighbours, vd: Marks, num: nat, fs: seq<Frame>)
    requires |fs| > 0 && FramesInv(g, vd, num, fs, |fs|)
    ensures FrameInv(g, vd, num, Stack(fs, |fs|), Top(fs), None)
  {
    hide FrameInv;
    var n := |fs| - 1;
    assert FrameInv(g, vd, num, Stack(fs, n + 1), fs[n], NextVertex(fs, n));
  }

  lemma OneMoreFrame(g: Neighbours, vd: Marks, num: nat, fs: seq<Frame>, n: nat)
    requires n < |fs|
    requires FramesInv(g, vd, num, fs, n)
    requires NestedFrames(vd, fs, n)
    requires FrameInv(g, vd, num, Stack(fs, n + 1), fs[n], NextVertex(fs, n))
    requires forall k :: 0 <= k < n ==> Inside(vd, fs[k].kind, fs[n].kind)
    ensures FramesInv(g, vd, num, fs, n + 1)
    ensures NestedFrames(vd, fs, n + 1)
  {
    hide FrameInv, Inside, Stack, NextVertex;
  }

  ghost function Top(fs: seq<Frame>): Frame
    requires |fs| > 0
  {
    fs[|fs| - 1]
  }

  // ------------------------------------------------------------------ PushSuccessors

  ghost function LastPending(fs: seq<Frame>): Label
    requires |fs| > 0 && |Top(fs).pending| > 0
  {
    Top(fs).pending[|Top(fs).pending| - 1]
  }

  /** The frames after the topmost task, a `PushSuccessors`, is taken off. */
  ghost function DropPending(fs: seq<Frame>): (r: seq<Frame>)
    requires |fs| > 0 && |Top(fs).pending| > 0
    ensures |r| == |fs|
    ensures SamePrefix(fs, r, |fs| - 1)
    ensures Top(r) == Top(fs).(pending := Top(fs).pending[..|Top(fs).pending| - 1])
  {
    fs[|fs| - 1 := Top(fs).(pending := Top(fs).pending[..|Top(fs).pending| - 1])]
  }

  lemma DropPendingStack(fs: seq<Frame>)
    requires |fs| > 0 && |Top(fs).pending| > 0
    ensures Stack(DropPending(fs), |fs|) == Stack(fs, |fs|)
  {
    hide Stack, DropPending, Segment;
    StackSame(fs, DropPending(fs), |fs| - 1, |fs| - 1);
    StackStep(fs, |fs| - 1);
    StackStep(DropPending(fs), |fs| - 1);
  }

  lemma ShapeKept(g: Neighbours, fs: seq<Frame>, fs': seq<Frame>, m: nat)
    requires Shape(g, fs) && SamePrefix(fs, fs', m) && |fs'| <= m + 1
    requires if m == 0 then |fs'| == 1 && fs'[0].kind.Bottom?
      else |fs'| == m + 1 ==> !fs'[m].kind.Bottom? && fs'[m].kind.vertex in Targets(g, fs[m - 1].kind)
    ensures Shape(g, fs')
  {
    forall k | 1 <= k < |fs'|
      ensures !fs'[k].kind.Bottom? && fs'[k].kind.vertex in Targets(g, fs'[k - 1].kind)
    {
      assert fs'[k - 1] == fs[k - 1];
      if k < m {
        assert fs'[k] == fs[k];
      }
    }
  }

  lemma DropPendingShape(g: Neighbours, fs: seq<Frame>)
    requires Shape(g, fs) && |Top(fs).pending| > 0
    ensures Shape(g, DropPending(fs))
  {
    ShapeKept(g, fs, DropPending(fs), |fs| - 1);
  }

  lemma SkippedTop(g: Neighbours, vd: Marks, num: nat, s: seq<Label>, f: Frame)
    requires Closed(g) && ENTRY in g && StackMarks(g, vd, num, s)
    requires FrameInv(g, vd, num, s, f, None)
    requires |f.pending| > 0 && !White(vd, f.pending[|f.pending| - 1])
    ensures FrameInv(g, vd, num, s, f.(pending := f.pending[..|f.pending| - 1]), None)
  {
    var x := f.pending[|f.pending| - 1];
    assert x in Targets(g, f.kind) && x in g;
    assert f.pending == f.pending[..|f.pending| - 1] + [x];
  }

  /** `ps` holds exactly the unvisited members of `targets`. */
  ghost predicate PendingOf(vd: Marks, targets: set<Label>, ps: seq<Label>) {
    forall y :: y in ps <==> y in targets && White(vd, y)
  }

  ghost function Numbered(vd: Marks, x: Label, n: nat): Marks
    requires x in vd
  {
    vd[x := vd[x].(dfn := Fin(n))]
  }

  ghost function PushFrame(fs: seq<Frame>, x: Label, scope: Option<nat>, ps: seq<Label>): (r: seq<Frame>)
    requires |fs| > 0 && |Top(fs).pending| > 0
    ensures |r| == |fs| + 1
    ensures SamePrefix(DropPending(fs), r, |fs|)
    ensures r[|fs|] == Frame(Visiting(x, scope, []), ps)
  {
    DropPending(fs) + [Frame(Visiting(x, scope, []), ps)]
  }

  lemma VisitMarks(g: Neighbours, vd: Marks, num: nat, s: seq<Label>, x: Label)
    requires StackMarks(g, vd, num, s) && White(vd, x)
    ensures StackMarks(g, Numbered(vd, x, num + 1), num + 1, s + [x])
    ensures Undisturbed(vd, Numbered(vd, x, num + 1), s)
    ensures x !in s && x in g && Low(Numbered(vd, x, num + 1), x) == 0
  {
    var vd' := Numbered(vd, x, num + 1);
    var t := s + [x];
    assert x !in s by {
      assert !OnStack(vd, x);
    }
    forall l | l in g ensures OnStack(vd', l) <==> l in t {
      if l != x { assert OnStack(vd', l) <==> OnStack(vd, l); }
    }
    forall l | l in t ensures l in g && Number(vd', l) <= num + 1 {
      if l != x { assert l in s; }
    }
    forall i, j | 0 <= i < j < |t| ensures Number(vd', t[i]) < Number(vd', t[j]) {
      assert t[i] == s[i] && s[i] in s;
      if j < |s| { assert t[j] == s[j] && s[j] in s; }
    }
    forall l | White(vd', l) ensures Low(vd', l) == 0 {
      assert White(vd, l);
    }
  }

  lemma VisitedPending(vd: Marks, vd': Marks, g: Neighbours, s: seq<Label>, f: Frame, f': Frame, x: Label)
    requires Undisturbed(vd, vd', s)
    requires PendingInv(g, vd, s, f, None)
    requires |f.pending| > 0 && x == f.pending[|f.pending| - 1]
    requires f' == f.(pending := f.pending[..|f.pending| - 1])
    ensures PendingInv(g, vd', s, f', Some(x))
  {
    assert f.pending == f'.pending + [x];
  }

  /** The frame whose task was taken, right after a first visit of `x`. */
  lemma VisitedTop(g: Neighbours, vd: Marks, num: nat, s: seq<Label>, f: Frame, x: Label)
    requires StackMarks(g, vd, num, s)
    requires FrameInv(g, vd, num, s, f, None)
    requires forall y :: y in Segment(f.kind) ==> y in s
    requires |f.pending| > 0 && x == f.pending[|f.pending| - 1] && White(vd, x)
    ensures FrameInv(g, Numbered(vd, x, num + 1), num + 1, s, f.(pending := f.pending[..|f.pending| - 1]), Some(x))
  {
    hide StackMarks, Numbered, Segment, Undisturbed, HeadingInv, VisitingInv, PendingInv;
    var vd' := Numbered(vd, x, num + 1);
    var f' := f.(pending := f.pending[..|f.pending| - 1]);
    VisitMarks(g, vd, num, s, x);
    FrameStable(g, vd, vd', num, num + 1, s, f, None, None);
    VisitedPending(vd, vd', g, s, f, f', x);
  }

  lemma NewFrame(g: Neighbours, vd: Marks, num: nat, s: seq<Label>, x: Label, scope: Option<nat>, ps: seq<Label>)
    requires Closed(g) && StackMarks(g, vd, num, s)
    requires x in s && Low(vd, x) == 0
    requires PendingOf(vd, Targets(g, Visiting(x, scope, [])), ps)
    ensures FrameInv(g, vd, num, s, Frame(Visiting(x, scope, []), ps), None)
  {
    var f := Frame(Visiting(x, scope, []), ps);
    forall y | y in Targets(g, f.kind) ensures Done(vd, y) || y in f.pending || y in s {
      assert y in g;
      assert White(vd, y) || OnStack(vd, y) || Done(vd, y);
    }
  }

  /** What the top frame may push lies inside every open cycle. */
  lemma TargetInside(g: Neighbours, vd: Marks, num: nat, fs: seq<Frame>, k: nat, x: Label)
    requires |fs| > 0 && k < |fs| && fs[k].kind.Heading?
    requires FrameInv(g, vd, num, Stack(fs, k + 1), fs[k], NextVertex(fs, k))
    requires k < |fs| - 1 ==> Inside(vd, fs[k].kind, Top(fs).kind) && !Top(fs).kind.Bottom?
    requires x in Targets(g, Top(fs).kind) && !Done(vd, x)
    ensures x in fs[k].kind.rest && fs[k].kind.mark <= num
  {
    hide Stack, VisitingInv, PendingInv, StronglyConnected;
    var f := Top(fs);
    if k < |fs| - 1 {
      assert f.kind.Visiting? ==> f.kind.vertex in Segment(f.kind);
      assert f.kind.vertex in fs[k].kind.rest;
    }
    assert Edge(g, f.kind.vertex, x);
  }

  lemma PushFrameStack(fs: seq<Frame>, x: Label, scope: Option<nat>, ps: seq<Label>)
    requires |fs| > 0 && |Top(fs).pending| > 0
    ensures Stack(PushFrame(fs, x, scope, ps), |fs|) == Stack(fs, |fs|)
    ensures Stack(PushFrame(fs, x, scope, ps), |fs| + 1) == Stack(fs, |fs|) + [x]
    ensures x in Stack(PushFrame(fs, x, scope, ps), |fs| + 1)
  {
    hide PushFrame, DropPending, Stack;
    var fs' := PushFrame(fs, x, scope, ps);
    DropPendingStack(fs);
    StackSame(DropPending(fs), fs', |fs|, |fs|);
    StackStep(fs', |fs|);
    assert [x] + [] == [x];
  }

  /** The first visit of a vertex. */
  lemma VisitKeepsControl(g: Neighbours, vd: Marks, num: nat, fs: seq<Frame>, scope: Option<nat>, ps: seq<Label>)
    requires Control(g, vd, num, fs)
    requires |Top(fs).pending| > 0 && White(vd, LastPending(fs))
    requires PendingOf(Numbered(vd, LastPending(fs), num + 1), Targets(g, Visiting(LastPending(fs), scope, [])), ps)
    ensures Control(g, Numbered(vd, LastPending(fs), num + 1), num + 1, PushFrame(fs, LastPending(fs), scope, ps))
    ensures Stack(PushFrame(fs, LastPending(fs), scope, ps), |fs| + 1) == Stack(fs, |fs|) + [LastPending(fs)]
  {
    hide FrameInv, Inside, StackMarks, PendingOf, Stack, Numbered, Targets, FramesInv, NestedFrames, Closed, PushFrame, DropPending;
    var x := LastPending(fs);
    TopFrame(g, vd, num, fs);
    VisitShape(g, vd, num, fs, PushFrame(fs, x, scope, ps));
    VisitMarks(g, vd, num, Stack(fs, |fs|), x);
    PushFrameStack(fs, x, scope, ps);
    VisitLower(g, vd, num, fs, PushFrame(fs, x, scope, ps), x);
    VisitUpper(g, vd, num, fs, x, scope, ps);
  }

  /** The frame the visit adds. */
  lemma VisitUpper(g: Neighbours, vd: Marks, num: nat, fs: seq<Frame>, x: Label, scope: Option<nat>, ps: seq<Label>)
    requires Control(g, vd, num, fs)
    requires |Top(fs).pending| > 0 && x == LastPending(fs) && White(vd, x)
    requires PendingOf(Numbered(vd, x, num + 1), Targets(g, Visiting(x, scope, [])), ps)
    requires FramesInv(g, Numbered(vd, x, num + 1), num + 1, PushFrame(fs, x, scope, ps), |fs|)
    requires NestedFrames(Numbered(vd, x, num + 1), PushFrame(fs, x, scope, ps), |fs|)
    ensures FramesInv(g, Numbered(vd, x, num + 1), num + 1, PushFrame(fs, x, scope, ps), |fs| + 1)
    ensures NestedFrames(Numbered(vd, x, num + 1), PushFrame(fs, x, scope, ps), |fs| + 1)
  {
    hide FrameInv, Inside, StackMarks, PendingOf, Stack, Numbered, Targets, FramesInv, NestedFrames, Closed, PushFrame;
    hide DropPending, Low;
    var vd' := Numbered(vd, x, num + 1);
    var fs' := PushFrame(fs, x, scope, ps);
    var n := |fs| - 1;
    VisitMarks(g, vd, num, Stack(fs, n + 1), x);
    PushFrameStack(fs, x, scope, ps);
    NewFrame(g, vd', num + 1, Stack(fs', n + 2), x, scope, ps);
    forall k | 0 <= k < n + 1 ensures Inside(vd', fs'[k].kind, fs'[n + 1].kind) {
      VisitInside(g, vd, num, fs, k, x, scope);
    }
    OneMoreFrame(g, vd', num + 1, fs', n + 1);
  }

  lemma UndisturbedPrefix(vd: Marks, vd': Marks, fs: seq<Frame>, k: nat, m: nat)
    requires k <= m <= |fs| && Undisturbed(vd, vd', Stack(fs, m))
    ensures Undisturbed(vd, vd', Stack(fs, k))
  {
    hide Stack;
    StackGrows(fs, k, m);
  }

  /** A step that changes only the pending tasks of frame `n` and may hand it a next vertex. */
  lemma TopChanged(g: Neighbours, vd: Marks, vd': Marks, num: nat, num': nat, fs: seq<Frame>, fs': seq<Frame>, n: nat)
    requires |fs| == n + 1 && n < |fs'| && num <= num' && SamePrefix(fs, fs', n)
    requires fs'[n] == fs[n].(pending := fs'[n].pending)
    requires Undisturbed(vd, vd', Stack(fs, n + 1))
    requires FramesInv(g, vd, num, fs, n + 1) && NestedFrames(vd, fs, n + 1)
    requires FrameInv(g, vd', num', Stack(fs, n + 1), fs'[n], NextVertex(fs', n))
    ensures FramesInv(g, vd', num', fs', n + 1) && NestedFrames(vd', fs', n + 1)
    ensures Stack(fs', n + 1) == Stack(fs, n + 1)
  {
    hide FrameInv, Inside, Stack, Undisturbed, Segment;
    StackSame(fs, fs', n, n);
    StackStep(fs, n);
    StackStep(fs', n);
    assert n > 0 ==> NextVertex(fs, n - 1) == NextVertex(fs', n - 1);
    UndisturbedPrefix(vd, vd', fs, n, n + 1);
    LowerFrames(g, vd, vd', num, num', fs, fs', n);
    SegmentInStack(fs, n, n + 1);
    forall k | 0 <= k < n ensures Inside(vd', fs'[k].kind, fs'[n].kind) {
      assert Inside(vd, fs[k].kind, fs[n].kind);
      InsideStable(vd, vd', fs[k].kind, fs[n].kind, Stack(fs, n + 1));
    }
    OneMoreFrame(g, vd', num', fs', n);
  }

  /** A stale entry: the vertex was visited after it was queued. */
  lemma SkipKeepsControl(g: Neighbours, vd: Marks, num: nat, fs: seq<Frame>)
    requires Control(g, vd, num, fs)
    requires |Top(fs).pending| > 0 && !White(vd, LastPending(fs))
    ensures Control(g, vd, num, DropPending(fs))
    ensures Stack(DropPending(fs), |fs|) == Stack(fs, |fs|)
  {
    hide FrameInv, Inside, FramesInv, NestedFrames, Stack, White, StackMarks, Closed, Targets, Undisturbed, Done, DropPending;
    var n := |fs| - 1;
    DropPendingShape(g, fs);
    UndisturbedSame(g, vd, num, fs, n + 1);
    TopFrame(g, vd, num, fs);
    SkippedTop(g, vd, num, Stack(fs, n + 1), Top(fs));
    TopChanged(g, vd, vd, num, num, fs, DropPending(fs), n);
  }

  /** The frames that were there before the visit. */
  lemma VisitLower(g: Neighbours, vd: Marks, num: nat, fs: seq<Frame>, fs': seq<Frame>, x: Label)
    requires Control(g, vd, num, fs)
    requires |Top(fs).pending| > 0 && x == LastPending(fs) && White(vd, x)
    requires |fs'| == |fs| + 1 && SamePrefix(DropPending(fs), fs', |fs|) && NextVertex(fs', |fs| - 1) == Some(x)
    ensures FramesInv(g, Numbered(vd, x, num + 1), num + 1, fs', |fs|)
    ensures NestedFrames(Numbered(vd, x, num + 1), fs', |fs|)
  {
    hide Stack, Numbered, FrameInv, Inside, FramesInv, NestedFrames, Closed, DropPending, Segment, StackMarks, Undisturbed;
    var n := |fs| - 1;
    VisitMarks(g, vd, num, Stack(fs, n + 1), x);
    TopFrame(g, vd, num, fs);
    SegmentInStack(fs, n, n + 1);
    VisitedTop(g, vd, num, Stack(fs, n + 1), Top(fs), x);
    TopChanged(g, vd, Numbered(vd, x, num + 1), num, num + 1, fs, fs', n);
  }

  lemma VisitShape(g: Neighbours, vd: Marks, num: nat, fs: seq<Frame>, fs': seq<Frame>)
    requires Shape(g, fs) && |Top(fs).pending| > 0
    requires FrameInv(g, vd, num, Stack(fs, |fs|), Top(fs), None)
    requires |fs'| == |fs| + 1 && SamePrefix(DropPending(fs), fs', |fs|)
    requires fs'[|fs|].kind.Visiting? && fs'[|fs|].kind.vertex == LastPending(fs)
    ensures Shape(g, fs')
  {
    hide VisitingInv, HeadingInv, Stack, DropPending;
    DropPendingShape(g, fs);
    assert LastPending(fs) in Targets(g, Top(fs).kind);
    ShapeKept(g, DropPending(fs), fs', |fs|);
  }

  lemma LastPendingTarget(g: Neighbours, vd: Marks, num: nat, fs: seq<Frame>)
    requires |fs| > 0 && FramesInv(g, vd, num, fs, |fs|) && |Top(fs).pending| > 0
    ensures LastPending(fs) in Targets(g, Top(fs).kind)
  {
    hide FramesInv, VisitingInv, HeadingInv, Stack, Targets;
    TopFrame(g, vd, num, fs);
  }

  lemma VisitInside(g: Neighbours, vd: Marks, num: nat, fs: seq<Frame>, k: nat, x: Label, scope: Option<nat>)
    requires Control(g, vd, num, fs) && k < |fs| && |Top(fs).pending| > 0
    requires x == LastPending(fs) && White(vd, x)
    ensures Inside(Numbered(vd, x, num + 1), fs[k].kind, Visiting(x, scope, []))
  {
    hide Stack, StackMarks, FrameInv, Closed, Targets, Inside, Numbered;
    LastPendingTarget(g, vd, num, fs);
    OuterInside(Numbered(vd, x, num + 1), fs[k].kind, Visiting(x, scope, []));
    if fs[k].kind.Heading? {
      assert FrameInv(g, vd, num, Stack(fs, k + 1), fs[k], NextVertex(fs, k));
      assert k < |fs| - 1 ==> Inside(vd, fs[k].kind, fs[|fs| - 1].kind);
      TargetInside(g, vd, num, fs, k, x);
      FreshInside(vd, num, fs[k].kind, x, scope);
    }
  }

  lemma OuterInside(vd: Marks, outer: Kind, f: Kind)
    ensures !outer.Heading? ==> Inside(vd, outer, f)
  {
  }

  lemma FreshInside(vd: Marks, num: nat, outer: Kind, x: Label, scope: Option<nat>)
    requires outer.Heading? && x in outer.rest && outer.mark <= num && x in vd
    ensures Inside(Numbered(vd, x, num + 1), outer, Visiting(x, scope, []))
  {
  }
}
