/** The iterative builder of a weak topological order (src/cfg/wto.rs:245-512). */
module WtoBuilder {
  import opened Wrappers
  import opened Graph
  import opened WtoControl
  import opened WtoStartVisit
  import opened WtoPlace
  import opened WtoLayout
  import opened WtoOrder
  import opened WtoFlat
  import opened WtoInvariant

  datatype VisitTaskType = PushSuccessors | StartVisit | ContinueVisit

  datatype VisitTask = VisitTask(taskType: VisitTaskType, vertex: Label, targetCycle: Option<nat>, containingCycle: Option<nat>)

  // ------------------------------------------------------------------ tasks and frames

  ghost function PushAll(ps: seq<Label>, target: Option<nat>, containing: Option<nat>): seq<VisitTask> {
    if ps == [] then []
    else PushAll(ps[..|ps| - 1], target, containing) + [VisitTask(PushSuccessors, ps[|ps| - 1], target, containing)]
  }

  ghost function InnerScope(f: Kind): Option<nat> {
    match f
    case Bottom => None
    case Visiting(_, scope, _) => scope
    case Heading(_, _, cycle, _, _) => Some(cycle)
  }

  ghost function OwnTask(f: Kind): seq<VisitTask> {
    match f
    case Bottom => []
    case Visiting(v, scope, _) => [VisitTask(StartVisit, v, scope, scope)]
    case Heading(v, scope, cycle, _, _) => [VisitTask(ContinueVisit, v, scope, Some(cycle))]
  }

  /** The flat task stack that the first `k` frames stand for. */
  ghost function Tasks(fs: seq<Frame>, k: nat): seq<VisitTask>
    requires k <= |fs|
  {
    if k == 0 then []
    else Tasks(fs, k - 1) + (OwnTask(fs[k - 1].kind) + PushAll(fs[k - 1].pending, InnerScope(fs[k - 1].kind), InnerScope(fs[k - 1].kind)))
  }

  lemma {:induction false} TasksSame(fs: seq<Frame>, fs': seq<Frame>, m: nat, k: nat)
    requires SamePrefix(fs, fs', m) && k <= m
    ensures Tasks(fs', k) == Tasks(fs, k)
    decreases k
  {
    if k > 0 {
      TasksSame(fs, fs', m, k - 1);
    }
  }

  /** The topmost task, when the top frame still has pending vertices. */
  lemma TopPushTask(fs: seq<Frame>)
    requires |fs| > 0 && |Top(fs).pending| > 0
    ensures Tasks(fs, |fs|) ==
      Tasks(DropPending(fs), |fs|)
      + [VisitTask(PushSuccessors, LastPending(fs), InnerScope(Top(fs).kind), InnerScope(Top(fs).kind))]
  {
    hide DropPending;
    var n := |fs| - 1;
    var f := fs[n];
    var sc := InnerScope(f.kind);
    TasksSame(fs, DropPending(fs), n, n);
    Regroup3(Tasks(fs, n), OwnTask(f.kind), PushAll(f.pending[..|f.pending| - 1], sc, sc), [VisitTask(PushSuccessors, LastPending(fs), sc, sc)]);
  }

  lemma Regroup3<T>(a: seq<T>, b: seq<T>, c: seq<T>, d: seq<T>)
    ensures a + (b + (c + d)) == (a + (b + c)) + d
  {
  }

  /** The topmost task, when the top frame has none pending. */
  lemma TopOwnTask(fs: seq<Frame>)
    requires |fs| > 0 && Top(fs).pending == []
    ensures Tasks(fs, |fs|) == Tasks(fs, |fs| - 1) + OwnTask(Top(fs).kind)
  {
    assert OwnTask(Top(fs).kind) + [] == OwnTask(Top(fs).kind);
  }

  lemma InnerScopeIs(fs: seq<Frame>)
    requires |fs| > 0 && Scoped(fs) && fs[0].kind.Bottom?
    ensures InnerScope(Top(fs).kind) == Scope(fs, |fs|)
  {
    hide Headings, Scoped;
    var n := |fs| - 1;
    ScopedAt(fs, n);
    HeadingsNone(fs);
    HeadingsStep(fs, n);
  }

  lemma ScopedAt(fs: seq<Frame>, n: nat)
    requires Scoped(fs) && n < |fs|
    ensures n > 0 ==> !fs[n].kind.Bottom? && fs[n].kind.scope == Scope(fs, n)
  {
    hide Headings, Scope;
  }

  lemma HeadingsNone(fs: seq<Frame>)
    ensures Headings(fs, 0) == []
  {
  }

  /** The frame that a task just taken off the visit stack belongs to. */
  lemma TopTask(g: Neighbours, fs: seq<Frame>, ts: seq<VisitTask>, task: VisitTask)
    requires Shape(g, fs) && Scoped(fs) && ts + [task] == Tasks(fs, |fs|)
    ensures task.taskType.PushSuccessors? ==>
      && |Top(fs).pending| > 0 && task.vertex == LastPending(fs)
      && task.targetCycle == Scope(fs, |fs|) && task.containingCycle == Scope(fs, |fs|)
      && ts == Tasks(DropPending(fs), |fs|)
    ensures task.taskType.StartVisit? ==>
      && Ready(fs) && task.vertex == Top(fs).kind.vertex
      && task.targetCycle == Top(fs).kind.scope && task.containingCycle == Top(fs).kind.scope
      && |fs| > 1 && ts == Tasks(fs, |fs| - 1)
    ensures task.taskType.ContinueVisit? ==>
      && Top(fs).kind.Heading? && Top(fs).pending == [] && task.vertex == Top(fs).kind.vertex
      && task.targetCycle == Top(fs).kind.scope && task.containingCycle == Some(Top(fs).kind.cycle)
      && |fs| > 1 && ts == Tasks(fs, |fs| - 1)
  {
    hide Tasks, Scope, DropPending, Scoped;
    InnerScopeIs(fs);
    assert |ts + [task]| == |ts| + 1;
    if |Top(fs).pending| > 0 {
      TopPushTask(fs);
      LastOfConcat(ts, task, Tasks(DropPending(fs), |fs|), VisitTask(PushSuccessors, LastPending(fs), Scope(fs, |fs|), Scope(fs, |fs|)));
    } else {
      TopOwnTask(fs);
      if Top(fs).kind.Bottom? {
        NoTasks(fs);
        assert false;
      }
      LastOfConcat(ts, task, Tasks(fs, |fs| - 1), OwnTask(Top(fs).kind)[0]);
    }
  }

  lemma NoTasks(fs: seq<Frame>)
    ensures Tasks(fs, 0) == []
  {
  }

  lemma LastOfConcat<T>(a: seq<T>, x: T, b: seq<T>, y: T)
    requires a + [x] == b + [y]
    ensures a == b && x == y
  {
    assert (a + [x])[|a|] == x && (b + [y])[|b|] == y && |a| == |b|;
    assert a == (a + [x])[..|a|] && b == (b + [y])[..|b|];
  }

  lemma PushAllStep(ps: seq<Label>, x: Label, t: Option<nat>, c: Option<nat>)
    ensures PushAll(ps + [x], t, c) == PushAll(ps, t, c) + [VisitTask(PushSuccessors, x, t, c)]
  {
    assert (ps + [x])[..|ps|] == ps;
  }

  lemma PendingOfStep(vd: Marks, seen: set<Label>, ps: seq<Label>, x: Label)
    requires PendingOf(vd, seen, ps)
    ensures PendingOf(vd, seen + {x}, if White(vd, x) then ps + [x] else ps)
  {
  }

  /** One more frame adds its own task and its pending ones. */
  lemma TasksOfFrame(fs: seq<Frame>, n: nat)
    requires n < |fs|
    ensures Tasks(fs, n + 1) == Tasks(fs, n) + (OwnTask(fs[n].kind) + PushAll(fs[n].pending, InnerScope(fs[n].kind), InnerScope(fs[n].kind)))
  {
  }

  lemma NothingPending(vd: Marks, t: Option<nat>, c: Option<nat>)
    ensures PendingOf(vd, {}, []) && PushAll([], t, c) == []
  {
  }

  lemma InvShape(g: Neighbours, vd: Marks, num: nat, fs: seq<Frame>, lay: Layout, order: seq<Label>, heads: seq<Label>)
    requires Inv(g, vd, num, fs, lay, order, heads)
    ensures Shape(g, fs) && Scoped(fs) && |fs| > 0 && Closed(g)
    ensures vd.Keys == g.Keys
    ensures StackMarks(g, vd, num, Stack(fs, |fs|))
  {
    hide Shelved, Ordered, OpenFlat, Bounded, Seen, Scoped, FramesInv, NestedFrames;
  }

  lemma PendingKnown(g: Neighbours, vd: Marks, num: nat, fs: seq<Frame>, lay: Layout, order: seq<Label>, heads: seq<Label>)
    requires Inv(g, vd, num, fs, lay, order, heads) && |fs| > 0 && |Top(fs).pending| > 0
    ensures LastPending(fs) in g && g[LastPending(fs)].children <= vd.Keys && LastPending(fs) in vd
    ensures Stack(DropPending(fs), |fs|) == Stack(fs, |fs|)
  {
    hide Shelved, Ordered, OpenFlat, Bounded, Seen, Scoped, FramesInv, NestedFrames, Stack, DropPending;
    LastPendingTarget(g, vd, num, fs);
    DropPendingStack(fs);
    assert vd.Keys == g.Keys;
  }

  lemma PushedTasks(fs: seq<Frame>, x: Label, sc: Option<nat>, ps: seq<Label>)
    requires |fs| > 0 && |Top(fs).pending| > 0
    ensures Tasks(PushFrame(fs, x, sc, ps), |fs| + 1) ==
      Tasks(DropPending(fs), |fs|) + [VisitTask(StartVisit, x, sc, sc)] + PushAll(ps, sc, sc)
  {
    hide PushFrame, DropPending, PushAll;
    TasksSame(DropPending(fs), PushFrame(fs, x, sc, ps), |fs|, |fs|);
    var a, b, c := Tasks(DropPending(fs), |fs|), [VisitTask(StartVisit, x, sc, sc)], PushAll(ps, sc, sc);
    assert a + (b + c) == a + b + c;
  }

  /** Facts about the vertex that a `StartVisit` task names. */
  lemma ReadyFacts(g: Neighbours, vd: Marks, num: nat, fs: seq<Frame>, lay: Layout, order: seq<Label>, heads: seq<Label>)
    requires Inv(g, vd, num, fs, lay, order, heads) && Ready(fs) && |fs| > 1
    ensures Top(fs).kind.vertex in g && g[Top(fs).kind.vertex].children <= vd.Keys
    ensures OnStack(vd, Top(fs).kind.vertex)
    ensures Stack(fs, |fs|) == Stack(fs, |fs| - 1) + Segment(Top(fs).kind)
    ensures forall x :: x in Segment(Top(fs).kind) ==> x in vd && OnStack(vd, x)
    ensures Top(fs).kind.vertex !in Top(fs).kind.closed
    ensures Distinct(Segment(Top(fs).kind))
  {
    hide Shelved, Ordered, OpenFlat, Bounded, Seen, Scoped, FramesInv, NestedFrames, Stack, StackMarks, OnStack;
    InvShape(g, vd, num, fs, lay, order, heads);
    StackStep(fs, |fs| - 1);
    var below := Stack(fs, |fs| - 1);
    var f := Top(fs).kind;
    SegmentDistinct(g, vd, num, below, f, Stack(fs, |fs|));
    VertexInSegment(f);
    forall x | x in Segment(f) ensures x in vd && x in g {
      OnStackOf(g, vd, num, Stack(fs, |fs|), x);
    }
    SegmentNoRepeat(g, vd, num, below, f, Stack(fs, |fs|));
  }

  lemma SegmentNoRepeat(g: Neighbours, vd: Marks, num: nat, below: seq<Label>, f: Kind, s: seq<Label>)
    requires s == below + Segment(f) && StackMarks(g, vd, num, s)
    ensures Distinct(Segment(f))
  {
    var t := Segment(f);
    forall i, j | 0 <= i < j < |t| ensures t[i] != t[j] {
      assert s[|below| + i] == t[i] && s[|below| + j] == t[j];
      assert Number(vd, s[|below| + i]) < Number(vd, s[|below| + j]);
    }
  }

  lemma ClosedTasks(fs: seq<Frame>)
    requires |fs| > 1 && fs[|fs| - 2].kind.Visiting? && Ready(fs)
    ensures Tasks(CloseFrames(fs), |fs| - 1) == Tasks(fs, |fs| - 1)
  {
    hide CloseFrames;
    TasksSame(fs, CloseFrames(fs), |fs| - 2, |fs| - 2);
  }

  lemma OpenedTasks(fs: seq<Frame>, cycle: nat, num: nat, ps: seq<Label>)
    requires Ready(fs)
    ensures Tasks(OpenFrames(fs, cycle, num, ps), |fs|) ==
      Tasks(fs, |fs| - 1) + [VisitTask(ContinueVisit, Top(fs).kind.vertex, Top(fs).kind.scope, Some(cycle))]
      + PushAll(ps, Some(cycle), Some(cycle))
  {
    hide OpenFrames, PushAll;
    var n := |fs| - 1;
    TasksSame(fs, OpenFrames(fs, cycle, num, ps), n, n);
    var a, b, c := Tasks(fs, n), [VisitTask(ContinueVisit, Top(fs).kind.vertex, Top(fs).kind.scope, Some(cycle))],
      PushAll(ps, Some(cycle), Some(cycle));
    assert a + (b + c) == a + b + c;
  }

  ghost function PoppedData(vd: Marks, u: Label, reset: seq<Label>, l: Label): VertexData
    requires l in vd
  {
    if l == u then vd[l].(dfn := Inf) else if l in reset then VertexData(Fin(0), 0) else vd[l]
  }

  /** The marks part-way through popping: the head is done, everything above position `i` is reset. */
  ghost predicate Popping(vd: Marks, vd': Marks, u: Label, closed: seq<Label>, i: nat) {
    && i <= |closed|
    && vd'.Keys == vd.Keys
    && forall l :: l in vd ==> vd'[l] == PoppedData(vd, u, closed[i..], l)
  }

  lemma PoppedStep(vd: Marks, vd': Marks, u: Label, closed: seq<Label>, i: nat)
    requires Popping(vd, vd', u, closed, i) && 0 < i && closed[i - 1] in vd && closed[i - 1] != u
    ensures Popping(vd, vd'[closed[i - 1] := VertexData(Fin(0), 0)], u, closed, i - 1)
  {
    assert closed[i - 1..] == [closed[i - 1]] + closed[i..];
  }

  lemma PoppedAll(vd: Marks, vd': Marks, u: Label, closed: seq<Label>, head: nat)
    requires Popping(vd, vd', u, closed, 0) && u in vd && u !in closed
    ensures vd'[u := vd'[u].(headDfn := head)] == Opened(vd, u, closed, head)
  {
    assert closed[0..] == closed;
  }

  lemma PoppingStart(vd: Marks, u: Label, closed: seq<Label>)
    requires u in vd
    ensures Popping(vd, vd[u := vd[u].(dfn := Inf)], u, closed, |closed|)
  {
  }

  lemma StartInv(g: Neighbours, vd: Marks)
    requires WellFormed(g) && vd.Keys == g.Keys && forall l :: l in vd ==> vd[l] == VertexData(Fin(0), 0)
    ensures Inv(g, vd, 0, [Frame(Bottom, [ENTRY])], Layout([], [], map[]), [], [])
    ensures Stack([Frame(Bottom, [ENTRY])], 1) == []
    ensures Tasks([Frame(Bottom, [ENTRY])], 1) == [VisitTask(PushSuccessors, ENTRY, None, None)]
  {
    var fs := [Frame(Bottom, [ENTRY])];
    assert Stack(fs, 1) == [];
    StartControl(g, vd, fs);
    StartShelves(g, vd);
    assert Headings(fs, 1) == [];
    assert PushAll([ENTRY], None, None) == [VisitTask(PushSuccessors, ENTRY, None, None)];
    assert WhiteSet(vd) == g.Keys && NotDone(vd) == g.Keys;
    var n := |g.Keys|;
    assert n + n * n == n * (n + 1);
  }

  lemma StartControl(g: Neighbours, vd: Marks, fs: seq<Frame>)
    requires WellFormed(g) && vd.Keys == g.Keys && forall l :: l in vd ==> vd[l] == VertexData(Fin(0), 0)
    requires fs == [Frame(Bottom, [ENTRY])]
    ensures Control(g, vd, 0, fs)
  {
    assert Stack(fs, 1) == [];
    assert FrameInv(g, vd, 0, Stack(fs, 0 + 1), fs[0], NextVertex(fs, 0));
  }

  lemma StartShelves(g: Neighbours, vd: Marks)
    requires forall l :: l in vd ==> vd[l] == VertexData(Fin(0), 0)
    ensures Shelved(Layout([], [], map[]), [], [], [])
    ensures Ordered(g, vd, Layout([], [], map[]), [], [], [])
  {
  }

  // ------------------------------------------------------------------ the builder

  class Builder {
    var vertexData: Marks
    var num: nat
    var stack: seq<Label>
    var topComponents: seq<BuilderComponent>
    var cycles: seq<BuilderCycle>
    var containingCycleMap: map<Label, nat>
    var visitStack: seq<VisitTask>

    ghost var frames: seq<Frame>
    ghost var order: seq<Label>
    ghost var heads: seq<Label>

    constructor (cfg: Cfg)
      requires cfg.Valid()
      ensures Valid(cfg.neighbours)
    {
      vertexData := map l | l in cfg.neighbours :: VertexData(Fin(0), 0);
      num, stack, topComponents, cycles, containingCycleMap := 0, [], [], [], map[];
      visitStack := [VisitTask(VisitTaskType.PushSuccessors, ENTRY, None, None)];
      frames, order, heads := [Frame(Bottom, [ENTRY])], [], [];
      new;
      hide Inv, Stack, Tasks;
      StartInv(cfg.neighbours, vertexData);
      assert visitStack + [] == visitStack;
    }

    ghost function Shelves(): Layout
      reads this
    {
      Layout(topComponents, cycles, containingCycleMap)
    }

    /** The invariant, with `extra` still on the visit stack. */
    ghost predicate ValidWith(g: Neighbours, extra: seq<VisitTask>)
      reads this
    {
      && Inv(g, vertexData, num, frames, Shelves(), order, heads)
      && stack == Stack(frames, |frames|)
      && visitStack + extra == Tasks(frames, |frames|)
    }

    ghost predicate Valid(g: Neighbours)
      reads this
    {
      ValidWith(g, [])
    }

    /** Pushes onto a partition (`get_partition_mut(..).push`). */
    method PushComponent(targetCycle: Option<nat>, c: BuilderComponent)
      requires ValidScope(Shelves(), targetCycle)
      modifies this`topComponents, this`cycles
      ensures Shelves() == AddTo(old(Shelves()), targetCycle, c)
    {
      match targetCycle {
        case None => topComponents := topComponents + [c];
        case Some(idx) => cycles := cycles[idx := cycles[idx].(components := cycles[idx].components + [c])];
      }
    }

    /** Pushes a task for every unvisited child of `vertex`. */
    method EnqueueUnvisitedSuccs(cfg: Cfg, vertex: Label, targetCycle: Option<nat>, containingCycle: Option<nat>)
      returns (ghost ps: seq<Label>)
      requires vertex in cfg.neighbours && cfg.neighbours[vertex].children <= vertexData.Keys
      modifies this`visitStack
      ensures visitStack == old(visitStack) + PushAll(ps, targetCycle, containingCycle)
      ensures PendingOf(vertexData, cfg.neighbours[vertex].children, ps)
    {
      hide PushAll, PendingOf;
      ps := [];
      var todo := cfg.neighbours[vertex].children;
      ghost var seen: set<Label> := {};
      NothingPending(vertexData, targetCycle, containingCycle);
      while todo != {}
        invariant seen + todo == cfg.neighbours[vertex].children
        invariant visitStack == old(visitStack) + PushAll(ps, targetCycle, containingCycle)
        invariant PendingOf(vertexData, seen, ps)
      {
        var succ :| succ in todo;
        PendingOfStep(vertexData, seen, ps, succ);
        todo := todo - {succ};
        seen := seen + {succ};
        if vertexData[succ].dfn == Fin(0) {
          PushAllStep(ps, succ, targetCycle, containingCycle);
          visitStack := visitStack + [VisitTask(VisitTaskType.PushSuccessors, succ, targetCycle, containingCycle)];
          ps := ps + [succ];
        }
      }
      assert seen == cfg.neighbours[vertex].children;
    }

    /** A task for a vertex: skip it when visited meanwhile, else number it and queue its children. */
    method PushSuccessors(cfg: Cfg, vertex: Label, targetCycle: Option<nat>, containingCycle: Option<nat>)
      returns (ghost ps: seq<Label>)
      requires ValidWith(cfg.neighbours, [VisitTask(VisitTaskType.PushSuccessors, vertex, targetCycle, containingCycle)])
      modifies this`vertexData, this`num, this`stack, this`visitStack, this`frames
      ensures Valid(cfg.neighbours)
      ensures !White(old(vertexData), vertex) ==>
        vertexData == old(vertexData) && num == old(num) && stack == old(stack) && visitStack == old(visitStack)
      ensures White(old(vertexData), vertex) ==>
        && vertexData == old(vertexData)[vertex := old(vertexData)[vertex].(dfn := Fin(old(num) + 1))]
        && num == old(num) + 1
        && stack == old(stack) + [vertex]
        && visitStack == old(visitStack) + [VisitTask(VisitTaskType.StartVisit, vertex, targetCycle, containingCycle)]
                         + PushAll(ps, targetCycle, containingCycle)
        && vertex in cfg.neighbours && PendingOf(vertexData, cfg.neighbours[vertex].children, ps)
    {
      hide Inv, Stack, Tasks, PushAll, PendingOf, DropPending, PushFrame, Scope;
      ps := [];
      ghost var g := cfg.neighbours;
      ghost var fs := frames;
      ghost var vd := vertexData;
      InvShape(g, vertexData, num, frames, Shelves(), order, heads);
      TopTask(g, fs, visitStack, VisitTask(VisitTaskType.PushSuccessors, vertex, targetCycle, containingCycle));
      PendingKnown(g, vertexData, num, fs, Shelves(), order, heads);
      if vertexData[vertex].dfn != Fin(0) {
        SkipKeeps(g, vertexData, num, fs, Shelves(), order, heads);
        DropPendingStack(fs);
        frames := DropPending(fs);
        assert visitStack + [] == visitStack;
        return;
      }
      num := num + 1;
      vertexData := vertexData[vertex := vertexData[vertex].(dfn := Fin(num))];
      stack := stack + [vertex];
      visitStack := visitStack + [VisitTask(VisitTaskType.StartVisit, vertex, targetCycle, containingCycle)];
      ps := EnqueueUnvisitedSuccs(cfg, vertex, targetCycle, containingCycle);
      VisitKeeps(g, vd, old(num), fs, Shelves(), order, heads, ps);
      PushFrameStack(fs, vertex, targetCycle, ps);
      frames := PushFrame(fs, vertex, targetCycle, ps);
      PushedTasks(fs, vertex, targetCycle, ps);
      assert visitStack + [] == visitStack;
    }
  
    /** The scan over the successors: the lowest number any of them offers, and whether one loops back. */
    method ScanSuccessors(cfg: Cfg, vertex: Label) returns (headDfn: nat, isLoop: bool)
      requires vertex in cfg.neighbours && cfg.neighbours[vertex].children <= vertexData.Keys
      requires OnStack(vertexData, vertex)
      ensures Scanned(cfg.neighbours, vertexData, vertex, headDfn, isLoop)
    {
      headDfn := vertexData[vertex].dfn.n;
      isLoop := false;
      var todo := cfg.neighbours[vertex].children;
      ghost var seen: set<Label> := {};
      while todo != {}
        invariant seen + todo == cfg.neighbours[vertex].children
        invariant headDfn <= vertexData[vertex].dfn.n
        invariant forall y, n: nat :: y in seen && MinDfn(vertexData, y) == Fin(n) ==> headDfn <= n
        invariant headDfn < vertexData[vertex].dfn.n ==> exists y :: y in seen && MinDfn(vertexData, y) == Fin(headDfn)
        invariant isLoop <==> exists y, n: nat :: y in seen && MinDfn(vertexData, y) == Fin(n) && n <= vertexData[vertex].dfn.n
      {
        var succ :| succ in todo;
        todo := todo - {succ};
        seen := seen + {succ};
        var data := vertexData[succ];
        var minDfn := data.dfn;
        if data.headDfn != 0 && data.dfn != Inf {
          minDfn := Fin(data.headDfn);
        }
        assert minDfn == MinDfn(vertexData, succ);
        if minDfn.Fin? && minDfn.n <= headDfn {
          headDfn := minDfn.n;
          isLoop := true;
        }
      }
      assert seen == cfg.neighbours[vertex].children;
      ScanDone(cfg.neighbours, vertexData, vertex, seen, headDfn, isLoop);
    }
  
    /** Pops the vertex stack down to and including `vertex`, resetting everything above it. */
    method PopDownTo(vertex: Label, ghost vd: Marks, ghost below: seq<Label>, ghost closed: seq<Label>)
      requires stack == below + ([vertex] + closed)
      requires vertex !in closed && forall x :: x in closed ==> x in vd
      requires Popping(vd, vertexData, vertex, closed, |closed|)
      modifies this`vertexData, this`stack
      ensures stack == below
      ensures Popping(vd, vertexData, vertex, closed, 0)
    {
      hide Popping;
      ghost var i := |closed|;
      var element := stack[|stack| - 1];
      stack := stack[..|stack| - 1];
      while element != vertex
        invariant 0 <= i <= |closed|
        invariant element == ([vertex] + closed)[i]
        invariant stack == below + ([vertex] + closed)[..i]
        invariant Popping(vd, vertexData, vertex, closed, i)
        decreases i
      {
        assert closed[i - 1] in closed;
        PoppedStep(vd, vertexData, vertex, closed, i);
        vertexData := vertexData[element := VertexData(Fin(0), 0)];
        element := stack[|stack| - 1];
        stack := stack[..|stack| - 1];
        i := i - 1;
      }
    }

    /** The loop branch: reset what is above, start a cycle, queue the head's children again. */
    method OpenCycle(cfg: Cfg, vertex: Label, targetCycle: Option<nat>, containingCycle: Option<nat>, headDfn: nat)
      returns (ghost ps: seq<Label>)
      requires ValidWith(cfg.neighbours, [VisitTask(VisitTaskType.StartVisit, vertex, targetCycle, containingCycle)])
      requires Scanned(cfg.neighbours, vertexData, vertex, headDfn, true) && headDfn == Number(vertexData, vertex)
      requires Ready(frames) && Top(frames).kind.vertex == vertex
      modifies this`vertexData, this`stack, this`cycles, this`visitStack, this`frames, this`heads
      ensures Valid(cfg.neighbours)
      ensures old(stack) == stack + ([vertex] + old(Top(frames).kind.closed))
      ensures vertexData == Opened(old(vertexData), vertex, old(Top(frames).kind.closed), headDfn)
      ensures |NotDone(vertexData)| < |NotDone(old(vertexData))|
      ensures Shelves() == OpenLayout(old(Shelves()), containingCycle)
      ensures visitStack == old(visitStack)
             + [VisitTask(VisitTaskType.ContinueVisit, vertex, targetCycle, Some(|old(cycles)|))]
             + PushAll(ps, Some(|old(cycles)|), Some(|old(cycles)|))
      ensures vertex in cfg.neighbours && PendingOf(vertexData, cfg.neighbours[vertex].children, ps)
    {
      hide Inv, Stack, Tasks, PushAll, PendingOf, Scope, Scanned, OpenFrames, Opened, OpenLayout, Popping, Number, NotDone;
      ghost var fs := frames;
      ghost var vd := vertexData;
      ghost var lay := Shelves();
      ghost var popped := Top(fs).kind.closed;
      StartFacts(cfg.neighbours, vd, num, fs, lay, order, heads, visitStack, vertex, targetCycle, containingCycle);
      OpenShrinks(vd, vertex, popped, headDfn);
      PoppingStart(vd, vertex, popped);
      vertexData := vertexData[vertex := vertexData[vertex].(dfn := Inf)];
      PopDownTo(vertex, vd, Stack(fs, |fs| - 1), popped);
      PoppedAll(vd, vertexData, vertex, popped, headDfn);
      PoppedKeys(vd, vertexData, vertex, popped);
      vertexData := vertexData[vertex := vertexData[vertex].(headDfn := headDfn)];
      OpenedKeys(vd, vertex, popped, headDfn);
      var cycleIdx := |cycles|;
      cycles := cycles + [BuilderCycle([], containingCycle)];
      visitStack := visitStack + [VisitTask(VisitTaskType.ContinueVisit, vertex, targetCycle, Some(cycleIdx))];
      ps := EnqueueUnvisitedSuccs(cfg, vertex, Some(cycleIdx), Some(cycleIdx));
      OpenedState(cfg.neighbours, vd, num, fs, lay, order, heads, headDfn, ps, Shelves());
      frames := OpenFrames(fs, cycleIdx, num, ps);
      heads := heads + [vertex];
      assert visitStack + [] == visitStack;
    }

    /** The branch without a loop: the vertex leaves the stack and goes into its partition. */
    method PlaceAlone(g: Neighbours, vertex: Label, targetCycle: Option<nat>, containingCycle: Option<nat>, headDfn: nat)
      requires ValidWith(g, [VisitTask(VisitTaskType.StartVisit, vertex, targetCycle, containingCycle)])
      requires Scanned(g, vertexData, vertex, headDfn, false) && headDfn == Number(vertexData, vertex)
      requires Ready(frames) && Top(frames).kind.vertex == vertex
      modifies this`vertexData, this`stack, this`topComponents, this`cycles, this`containingCycleMap, this`frames, this`order
      ensures Valid(g)
      ensures vertexData == old(vertexData)[vertex := VertexData(Inf, headDfn)]
      ensures |NotDone(vertexData)| < |NotDone(old(vertexData))|
      ensures stack + [vertex] == old(stack)
      ensures ValidScope(old(Shelves()), targetCycle) && Shelves() == PlaceLayout(old(Shelves()), targetCycle, vertex)
      ensures order == old(order) + [vertex]
    {
      hide Inv, Stack, Tasks, Scope, Scanned, PlaceLayout, Number, AddTo, NotDone;
      ghost var fs := frames;
      ghost var lay := Shelves();
      StartFacts(g, vertexData, num, fs, lay, order, heads, visitStack, vertex, targetCycle, containingCycle);
      PlaceKeeps(g, vertexData, num, fs, lay, order, heads, headDfn);
      AloneOnStack(g, vertexData, num, fs, lay, order, heads, headDfn);
      PlaceShrinks(vertexData, vertex, headDfn);
      TasksBelow(fs);
      vertexData := vertexData[vertex := vertexData[vertex].(dfn := Inf)];
      stack := stack[..|stack| - 1];
      PushComponent(targetCycle, LabelComponent(vertex));
      if containingCycle.Some? {
        containingCycleMap := containingCycleMap[vertex := containingCycle.value];
      }
      vertexData := vertexData[vertex := vertexData[vertex].(headDfn := headDfn)];
      assert vertexData == Placed(old(vertexData), vertex, headDfn);
      PlacedShelves(lay, targetCycle, vertex, Shelves());
      frames := fs[..|fs| - 1];
      order := order + [vertex];
      assert visitStack + [] == visitStack;
    }

    /**
      All children of `vertex` are visited. Depending on the scan it waits on the stack, is placed
      alone, or becomes the head of a new cycle whose other vertices start over.
    */
    method StartVisit(cfg: Cfg, vertex: Label, targetCycle: Option<nat>, containingCycle: Option<nat>)
      returns (headDfn: nat, isLoop: bool, ghost popped: seq<Label>, ghost ps: seq<Label>)
      requires ValidWith(cfg.neighbours, [VisitTask(VisitTaskType.StartVisit, vertex, targetCycle, containingCycle)])
      modifies this
      ensures Valid(cfg.neighbours)
      ensures Scanned(cfg.neighbours, old(vertexData), vertex, headDfn, isLoop)
      ensures num == old(num)
      ensures headDfn == Number(old(vertexData), vertex) ==> |NotDone(vertexData)| < |NotDone(old(vertexData))|
      // waits on the stack
      ensures headDfn < Number(old(vertexData), vertex) ==>
        && vertexData == old(vertexData)[vertex := old(vertexData)[vertex].(headDfn := headDfn)]
        && stack == old(stack) && Shelves() == old(Shelves()) && visitStack == old(visitStack)
        && order == old(order)
      // placed alone
      ensures headDfn == Number(old(vertexData), vertex) && !isLoop ==>
        && vertexData == old(vertexData)[vertex := VertexData(Inf, headDfn)]
        && stack + [vertex] == old(stack) && visitStack == old(visitStack)
        && ValidScope(old(Shelves()), targetCycle) && Shelves() == PlaceLayout(old(Shelves()), targetCycle, vertex)
        && order == old(order) + [vertex]
      // heads a new cycle
      ensures headDfn == Number(old(vertexData), vertex) && isLoop ==>
        && old(stack) == stack + ([vertex] + popped)
        && vertexData == Opened(old(vertexData), vertex, popped, headDfn)
        && Shelves() == OpenLayout(old(Shelves()), containingCycle)
        && order == old(order)
        && visitStack == old(visitStack)
             + [VisitTask(VisitTaskType.ContinueVisit, vertex, targetCycle, Some(|old(cycles)|))]
             + PushAll(ps, Some(|old(cycles)|), Some(|old(cycles)|))
        && vertex in cfg.neighbours && PendingOf(vertexData, cfg.neighbours[vertex].children, ps)
    {
      hide Inv, Stack, Tasks, PushAll, PendingOf, Scope, Scanned, OpenFrames, CloseFrames, Opened, PlaceLayout, OpenLayout;
      hide Number, AddTo, NotDone;
      ghost var fs := frames;
      popped, ps := [], [];
      StartFacts(cfg.neighbours, vertexData, num, fs, Shelves(), order, heads, visitStack, vertex, targetCycle, containingCycle);
      headDfn, isLoop := ScanSuccessors(cfg, vertex);
      ScannedHead(cfg.neighbours, vertexData, vertex, headDfn, isLoop);
      if Fin(headDfn) == vertexData[vertex].dfn {
        if isLoop {
          popped := Top(fs).kind.closed;
          ps := OpenCycle(cfg, vertex, targetCycle, containingCycle, headDfn);
        } else {
          PlaceAlone(cfg.neighbours, vertex, targetCycle, containingCycle, headDfn);
        }
      } else {
        CloseKeeps(cfg.neighbours, vertexData, num, fs, Shelves(), order, heads, headDfn, isLoop);
        CloseStack(fs);
        ClosedTasks(fs);
        vertexData := vertexData[vertex := vertexData[vertex].(headDfn := headDfn)];
        frames := CloseFrames(fs);
        assert visitStack + [] == visitStack;
      }
    }

    /** All of a cycle is placed: its head goes last, the cycle into the partition around it. */
    method ContinueVisit(g: Neighbours, vertex: Label, targetCycle: Option<nat>, containingCycle: Option<nat>)
      requires ValidWith(g, [VisitTask(VisitTaskType.ContinueVisit, vertex, targetCycle, containingCycle)])
      modifies this`topComponents, this`cycles, this`containingCycleMap, this`frames, this`order
      ensures Valid(g)
      ensures stack == old(stack) && vertexData == old(vertexData) && visitStack == old(visitStack) && num == old(num)
      ensures containingCycle.Some? && containingCycle.value < |old(cycles)| && ValidScope(old(Shelves()), targetCycle)
      ensures Shelves() == CloseLayout(old(Shelves()), containingCycle.value, vertex, targetCycle)
      ensures order == old(order) + [vertex]
    {
      hide Inv, Stack, Tasks, Scope, AddTo, CloseLayout;
      ghost var fs := frames;
      ghost var lay := Shelves();
      InvShape(g, vertexData, num, fs, lay, order, heads);
      TopTask(g, fs, visitStack, VisitTask(VisitTaskType.ContinueVisit, vertex, targetCycle, containingCycle));
      FinishKeeps(g, vertexData, num, fs, lay, order, heads);
      FinishStack(g, vertexData, num, fs, lay, order, heads);
      TasksBelow(fs);
      var cycleIdx := containingCycle.value;
      cycles := cycles[cycleIdx := cycles[cycleIdx].(components := cycles[cycleIdx].components + [LabelComponent(vertex)])];
      HeadAdded(lay, cycleIdx, vertex, Shelves());
      PushComponent(targetCycle, CycleIdx(cycleIdx));
      containingCycleMap := containingCycleMap[vertex := cycleIdx];
      ClosedShelves(lay, cycleIdx, vertex, targetCycle, Shelves());
      frames := fs[..|fs| - 1];
      order := order + [vertex];
      assert visitStack + [] == visitStack;
    }
  }

  /** What a `StartVisit` task just taken off the stack tells. */
  lemma StartFacts(g: Neighbours, vd: Marks, num: nat, fs: seq<Frame>, lay: Layout, order: seq<Label>, heads: seq<Label>,
      ts: seq<VisitTask>, vertex: Label, targetCycle: Option<nat>, containingCycle: Option<nat>)
    requires Inv(g, vd, num, fs, lay, order, heads)
    requires ts + [VisitTask(StartVisit, vertex, targetCycle, containingCycle)] == Tasks(fs, |fs|)
    ensures Ready(fs) && |fs| > 1 && vertex == Top(fs).kind.vertex
    ensures targetCycle == Top(fs).kind.scope && containingCycle == Top(fs).kind.scope
    ensures ts == Tasks(fs, |fs| - 1)
    ensures vertex in g && vertex in vd && g[vertex].children <= vd.Keys && OnStack(vd, vertex)
    ensures Stack(fs, |fs|) == Stack(fs, |fs| - 1) + ([vertex] + Top(fs).kind.closed)
    ensures forall x :: x in Top(fs).kind.closed ==> x in vd && OnStack(vd, x)
    ensures vertex !in Top(fs).kind.closed
  {
    hide Inv, Stack, Tasks, Scope, Distinct, OnStack;
    InvShape(g, vd, num, fs, lay, order, heads);
    TopTask(g, fs, ts, VisitTask(StartVisit, vertex, targetCycle, containingCycle));
    ReadyFacts(g, vd, num, fs, lay, order, heads);
    forall x | x in Top(fs).kind.closed ensures x in vd && OnStack(vd, x) {
      assert x in Segment(Top(fs).kind);
    }
  }

  lemma OpenShrinks(vd: Marks, u: Label, closed: seq<Label>, head: nat)
    requires OnStack(vd, u) && forall x :: x in closed ==> OnStack(vd, x)
    ensures |NotDone(Opened(vd, u, closed, head))| < |NotDone(vd)|
  {
    hide Opened, OnStack;
    CountOpen(vd, u, closed, head);
  }

  lemma PlaceShrinks(vd: Marks, u: Label, head: nat)
    requires OnStack(vd, u)
    ensures |NotDone(Placed(vd, u, head))| < |NotDone(vd)|
  {
    hide OnStack;
    CountPlace(vd, u, head);
  }

  lemma PoppedKeys(vd: Marks, vd': Marks, u: Label, closed: seq<Label>)
    requires Popping(vd, vd', u, closed, 0) && u in vd
    ensures u in vd'
  {
  }

  lemma OpenedState(g: Neighbours, vd: Marks, num: nat, fs: seq<Frame>, lay: Layout, order: seq<Label>, heads: seq<Label>,
      head: nat, ps: seq<Label>, lay': Layout)
    requires Inv(g, vd, num, fs, lay, order, heads) && Ready(fs) && |fs| > 1
    requires Scanned(g, vd, Top(fs).kind.vertex, head, true) && head == Number(vd, Top(fs).kind.vertex)
    requires Top(fs).kind.vertex in g
    requires PendingOf(Opened(vd, Top(fs).kind.vertex, Top(fs).kind.closed, head), g[Top(fs).kind.vertex].children, ps)
    requires lay' == Layout(lay.top, lay.cycles + [BuilderCycle([], Top(fs).kind.scope)], lay.containing)
    ensures lay' == OpenLayout(lay, Top(fs).kind.scope)
    ensures Inv(g, Opened(vd, Top(fs).kind.vertex, Top(fs).kind.closed, head), num, OpenFrames(fs, |lay.cycles|, num, ps),
                lay', order, heads + [Top(fs).kind.vertex])
    ensures Stack(OpenFrames(fs, |lay.cycles|, num, ps), |fs|) == Stack(fs, |fs| - 1)
    ensures Tasks(OpenFrames(fs, |lay.cycles|, num, ps), |fs|) ==
      Tasks(fs, |fs| - 1) + [VisitTask(ContinueVisit, Top(fs).kind.vertex, Top(fs).kind.scope, Some(|lay.cycles|))]
      + PushAll(ps, Some(|lay.cycles|), Some(|lay.cycles|))
    ensures |OpenFrames(fs, |lay.cycles|, num, ps)| == |fs|
  {
    hide Inv, Stack, Tasks, PushAll, PendingOf, Scanned, OpenFrames, Opened, Number;
    OpenKeeps(g, vd, num, fs, lay, order, heads, head, ps);
    OpenKeepsControlStack(g, vd, num, fs, lay, order, heads, head, |lay.cycles|, ps);
    OpenedTasks(fs, |lay.cycles|, num, ps);
  }

  lemma ScannedHead(g: Neighbours, vd: Marks, u: Label, head: nat, isLoop: bool)
    requires Scanned(g, vd, u, head, isLoop)
    ensures u in vd && vd[u].dfn == Fin(Number(vd, u)) && head <= Number(vd, u)
  {
  }

  lemma OpenedKeys(vd: Marks, u: Label, closed: seq<Label>, head: nat)
    ensures Opened(vd, u, closed, head).Keys == vd.Keys
  {
  }

  lemma PlacedShelves(lay: Layout, sc: Option<nat>, u: Label, lay': Layout)
    requires ValidScope(lay, sc)
    requires lay'.top == AddTo(lay, sc, LabelComponent(u)).top && lay'.cycles == AddTo(lay, sc, LabelComponent(u)).cycles
    requires lay'.containing == if sc.Some? then lay.containing[u := sc.value] else lay.containing
    ensures lay' == PlaceLayout(lay, sc, u)
  {
  }

  lemma HeadAdded(lay: Layout, c: nat, h: Label, lay': Layout)
    requires c < |lay.cycles|
    requires lay'.top == lay.top && lay'.containing == lay.containing
    requires lay'.cycles == lay.cycles[c := lay.cycles[c].(components := lay.cycles[c].components + [LabelComponent(h)])]
    ensures lay' == AddTo(lay, Some(c), LabelComponent(h))
  {
  }

  lemma ClosedShelves(lay: Layout, c: nat, h: Label, outer: Option<nat>, lay': Layout)
    requires c < |lay.cycles| && ValidScope(lay, outer)
    requires var a := AddTo(AddTo(lay, Some(c), LabelComponent(h)), outer, CycleIdx(c));
             lay'.top == a.top && lay'.cycles == a.cycles && lay'.containing == a.containing[h := c]
    ensures lay' == CloseLayout(lay, c, h, outer)
  {
  }

  lemma TasksBelow(fs: seq<Frame>)
    requires |fs| > 0
    ensures Tasks(fs[..|fs| - 1], |fs| - 1) == Tasks(fs, |fs| - 1)
  {
    TasksSame(fs, fs[..|fs| - 1], |fs| - 1, |fs| - 1);
  }

  lemma FinishStack(g: Neighbours, vd: Marks, num: nat, fs: seq<Frame>, lay: Layout, order: seq<Label>, heads: seq<Label>)
    requires |fs| > 0 && Inv(g, vd, num, fs, lay, order, heads) && Top(fs).kind.Heading?
    ensures Stack(fs[..|fs| - 1], |fs| - 1) == Stack(fs, |fs|)
  {
    hide Control, Shelved, Ordered, OpenFlat, Bounded, Seen, Scoped, Stack;
    FinishKeepsControl(g, vd, num, fs);
  }

  lemma AloneOnStack(g: Neighbours, vd: Marks, num: nat, fs: seq<Frame>, lay: Layout, order: seq<Label>, heads: seq<Label>, head: nat)
    requires Inv(g, vd, num, fs, lay, order, heads) && Ready(fs) && |fs| > 1
    requires Scanned(g, vd, Top(fs).kind.vertex, head, false) && head == Number(vd, Top(fs).kind.vertex)
    ensures Stack(fs, |fs|) == Stack(fs[..|fs| - 1], |fs| - 1) + [Top(fs).kind.vertex]
  {
    hide Control, Shelved, Ordered, OpenFlat, Bounded, Seen, Scoped, Stack, Scanned, Number;
    NoLoopIsAlone(g, vd, num, fs, head);
    PlaceKeepsControl(g, vd, num, fs, head);
  }

  lemma OpenKeepsControlStack(g: Neighbours, vd: Marks, num: nat, fs: seq<Frame>, lay: Layout, order: seq<Label>, heads: seq<Label>,
      head: nat, cycle: nat, ps: seq<Label>)
    requires Inv(g, vd, num, fs, lay, order, heads) && Ready(fs) && |fs| > 1
    ensures Stack(OpenFrames(fs, cycle, num, ps), |fs|) == Stack(fs, |fs| - 1)
  {
    hide Inv, Stack, OpenFrames;
    StackSame(fs, OpenFrames(fs, cycle, num, ps), |fs| - 1, |fs| - 1);
    StackStep(OpenFrames(fs, cycle, num, ps), |fs| - 1);
    assert Stack(fs, |fs| - 1) + [] == Stack(fs, |fs| - 1);
  }

  lemma ScanDone(g: Neighbours, vd: Marks, u: Label, seen: set<Label>, head: nat, isLoop: bool)
    requires u in g && seen == g[u].children && seen <= vd.Keys && OnStack(vd, u)
    requires head <= vd[u].dfn.n
    requires forall y, n: nat :: y in seen && MinDfn(vd, y) == Fin(n) ==> head <= n
    requires head < vd[u].dfn.n ==> exists y :: y in seen && MinDfn(vd, y) == Fin(head)
    requires isLoop <==> exists y, n: nat :: y in seen && MinDfn(vd, y) == Fin(n) && n <= vd[u].dfn.n
    ensures Scanned(g, vd, u, head, isLoop)
  {
    hide MinDfn;
    if head < vd[u].dfn.n {
      var y :| y in seen && MinDfn(vd, y) == Fin(head);
      assert Offers(g, vd, u, y, head);
    }
    if isLoop {
      var y, n: nat :| y in seen && MinDfn(vd, y) == Fin(n) && n <= vd[u].dfn.n;
      assert Offers(g, vd, u, y, n);
    }
  }
}
