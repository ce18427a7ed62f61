/** The backward slicing worklist and the expansion of join points (src/result.rs:454-660). */
module Slicer {
  import opened Graph
  import opened SliceSpec
  import opened SliceCarried

  datatype Item = Item(node: Label, after: RelevantState)

  type Relevance = map<Label, RelevantState>

  function Acc(m: Relevance, l: Label): RelevantState {
    if l in m then m[l] else EMPTY
  }

  // ------------------------------------------------------------------ what the loop keeps

  /** Items carry exactly the relevance of some trail. */
  ghost predicate Traces(q: Query, it: Item)
    requires q.target in q.graph
  {
    exists path :: Trail(q, it.node, path) && Traced(q, path) == it.after
  }

  /** Nothing is recorded that no trail accounts for. */
  ghost predicate Accounted(q: Query, visited: Relevance, slice: Relevance, work: seq<Item>)
    requires q.target in q.graph
  {
    && (forall it :: it in work ==> Traces(q, it))
    && (forall l :: l in visited ==> Reached(q, l))
    && (forall l, x :: l in visited && Has(visited[l], x) ==> RelevantAfter(q, l, x))
    && (forall l :: l in slice ==> l in visited && OnSlice(q, l))
    && (forall l, x :: l in slice && Has(slice[l], x) ==> RelevantBefore(q, l, x))
  }

  ghost predicate Pending(work: seq<Item>, l: Label, x: Location) {
    exists it :: it in work && it.node == l && Has(it.after, x)
  }

  ghost predicate Queued(work: seq<Item>, l: Label) {
    exists it :: it in work && it.node == l
  }

  ghost predicate Awaited(visited: Relevance, work: seq<Item>, l: Label, x: Location) {
    Has(Acc(visited, l), x) || Pending(work, l, x)
  }

  ghost predicate Flows(q: Query, visited: Relevance, work: seq<Item>, l: Label, p: Label)
    requires q.target in q.graph && l in visited
  {
    && (forall x :: Has(Transfer(q, l, visited[l]), x) ==> Awaited(visited, work, p, x))
    && (Conservative(q) ==> p in visited || Queued(work, p))
  }

  /** What a visited label passes on has arrived at its parents or waits to be processed there. */
  ghost predicate Closed(q: Query, visited: Relevance, work: seq<Item>)
    requires q.target in q.graph
  {
    && (forall l, p :: l in visited && Edge(q.graph, p, l) ==> Flows(q, visited, work, l, p))
    && (q.target in visited || Queued(work, q.target))
    && (forall x :: Has(q.seed, x) ==> Awaited(visited, work, q.target, x))
  }

  /** A visited label that acts on its relevance is on the slice, with all it reads. */
  ghost predicate Sliced(q: Query, visited: Relevance, slice: Relevance)
    requires q.target in q.graph
  {
    && (forall l :: l in visited && Contributes(q, l, visited[l]) ==> l in slice)
    && (forall l :: l in slice && l in q.deps ==> Within(Reads(q.deps[l]), slice[l]))
  }

  // ------------------------------------------------------------------ dropping an item

  /** An item whose relevance has already arrived can be dropped. */
  lemma DropClosed(q: Query, visited: Relevance, work: seq<Item>, it: Item)
    requires q.target in q.graph && Closed(q, visited, work + [it])
    requires Within(it.after, Acc(visited, it.node))
    requires it.node in visited || Skips(q, it.node, it.after)
    ensures Closed(q, visited, work)
  {
    hide Transfer, Has, Acc;
    assert forall x :: Has(it.after, x) ==> Has(Acc(visited, it.node), x);
    forall l, x | Awaited(visited, work + [it], l, x) ensures Awaited(visited, work, l, x) {
    }
    forall l | Queued(work + [it], l) && l != it.node ensures Queued(work, l) {
    }
    forall l, p | l in visited && Edge(q.graph, p, l) ensures Flows(q, visited, work, l, p) {
      assert Flows(q, visited, work + [it], l, p);
    }
  }

  // ------------------------------------------------------------------ processing an item

  function Visit(visited: Relevance, it: Item): Relevance {
    visited[it.node := Merge(Acc(visited, it.node), it.after)]
  }

  lemma VisitHas(visited: Relevance, it: Item, l: Label, x: Location)
    ensures Has(Acc(Visit(visited, it), l), x) <==> Has(Acc(visited, l), x) || (l == it.node && Has(it.after, x))
  {
  }

  lemma VisitTransfer(q: Query, visited: Relevance, it: Item, x: Location)
    requires q.target in q.graph && Has(Transfer(q, it.node, Visit(visited, it)[it.node]), x)
    ensures Has(Transfer(q, it.node, it.after), x) || (it.node in visited && Has(Transfer(q, it.node, visited[it.node]), x))
  {
    hide Transfer;
    if it.node in visited {
      TransferUnion(q, it.node, visited[it.node], it.after);
    } else {
      assert Merge(EMPTY, it.after) == it.after;
    }
  }

  lemma VisitContributes(q: Query, visited: Relevance, it: Item)
    requires q.target in q.graph && Contributes(q, it.node, Visit(visited, it)[it.node])
    ensures Contributes(q, it.node, it.after) || (it.node in visited && Contributes(q, it.node, visited[it.node]))
  {
    hide Contributes;
    if it.node in visited {
      ContributesUnion(q, it.node, visited[it.node], it.after);
    } else {
      assert Merge(EMPTY, it.after) == it.after;
    }
  }

  ghost predicate Pushed(q: Query, work: seq<Item>, it: Item, work': seq<Item>)
    requires q.target in q.graph
  {
    && (forall i :: i in work ==> i in work')
    && (forall p :: Edge(q.graph, p, it.node) ==> Item(p, Transfer(q, it.node, it.after)) in work')
    && (forall i :: i in work' ==> i in work || (Edge(q.graph, i.node, it.node) && i.after == Transfer(q, it.node, it.after)))
  }

  lemma ProcessAwaits(q: Query, visited: Relevance, work: seq<Item>, it: Item, work': seq<Item>, l: Label, x: Location)
    requires q.target in q.graph && Pushed(q, work, it, work') && Awaited(visited, work + [it], l, x)
    ensures Awaited(Visit(visited, it), work', l, x)
  {
    hide Transfer, Has, Acc, Visit;
    VisitHas(visited, it, l, x);
  }

  lemma ProcessQueued(q: Query, visited: Relevance, work: seq<Item>, it: Item, work': seq<Item>, l: Label)
    requires q.target in q.graph && Pushed(q, work, it, work') && (l in visited || Queued(work + [it], l))
    ensures l in Visit(visited, it) || Queued(work', l)
  {
    hide Transfer, Has, Acc;
  }

  lemma ProcessFlows(q: Query, visited: Relevance, work: seq<Item>, it: Item, work': seq<Item>, l: Label, p: Label)
    requires q.target in q.graph && Pushed(q, work, it, work')
    requires l == it.node || (l in visited && Flows(q, visited, work + [it], l, p))
    requires l in visited ==> Flows(q, visited, work + [it], l, p)
    requires Edge(q.graph, p, l)
    ensures Flows(q, Visit(visited, it), work', l, p)
  {
    hide Transfer, Has, Acc;
    var visited' := Visit(visited, it);
    forall x | Has(Transfer(q, l, visited'[l]), x) ensures Awaited(visited', work', p, x) {
      if l == it.node {
        VisitTransfer(q, visited, it, x);
      }
      if l in visited && Has(Transfer(q, l, visited[l]), x) {
        assert Awaited(visited, work + [it], p, x);
        ProcessAwaits(q, visited, work, it, work', p, x);
      } else {
        var i := Item(p, Transfer(q, l, it.after));
        assert i in work' && Has(i.after, x);
      }
    }
    if Conservative(q) {
      if l in visited {
        ProcessQueued(q, visited, work, it, work', p);
      } else {
        assert Item(p, Transfer(q, l, it.after)) in work';
      }
    }
  }

  lemma ProcessClosed(q: Query, visited: Relevance, work: seq<Item>, it: Item, work': seq<Item>)
    requires q.target in q.graph && Closed(q, visited, work + [it]) && Pushed(q, work, it, work')
    ensures Closed(q, Visit(visited, it), work')
  {
    hide Flows, Awaited, Pushed, Has, Acc;
    var visited' := Visit(visited, it);
    forall l, p | l in visited' && Edge(q.graph, p, l) ensures Flows(q, visited', work', l, p) {
      ProcessFlows(q, visited, work, it, work', l, p);
    }
    ProcessQueued(q, visited, work, it, work', q.target);
    forall x | Has(q.seed, x) ensures Awaited(visited', work', q.target, x) {
      ProcessAwaits(q, visited, work, it, work', q.target, x);
    }
  }

  /** What is recorded for the item's label once the item is known to contribute. */
  function Record(q: Query, slice: Relevance, it: Item): Relevance
    requires q.target in q.graph
  {
    if Contributes(q, it.node, it.after) then slice[it.node := Merge(Acc(slice, it.node), Transfer(q, it.node, it.after))]
    else slice
  }

  lemma ReadsArrive(q: Query, l: Label, r: RelevantState)
    requires q.target in q.graph && l in q.deps && Contributes(q, l, r)
    ensures Within(Reads(q.deps[l]), Transfer(q, l, r))
  {
  }

  lemma ProcessSliced(q: Query, visited: Relevance, slice: Relevance, it: Item)
    requires q.target in q.graph && Sliced(q, visited, slice)
    ensures Sliced(q, Visit(visited, it), Record(q, slice, it))
  {
    hide Transfer, Contributes, Has, Acc;
    var visited', slice' := Visit(visited, it), Record(q, slice, it);
    forall l | l in visited' && Contributes(q, l, visited'[l]) ensures l in slice' {
      if l == it.node {
        VisitContributes(q, visited, it);
      }
    }
    forall l | l in slice' && l in q.deps ensures Within(Reads(q.deps[l]), slice'[l]) {
      if l == it.node && Contributes(q, l, it.after) {
        ReadsArrive(q, l, it.after);
        RecordHas(q, slice, it);
      }
    }
  }

  lemma RecordHas(q: Query, slice: Relevance, it: Item)
    requires q.target in q.graph && Contributes(q, it.node, it.after)
    ensures forall x :: Has(Record(q, slice, it)[it.node], x) <==> Has(Acc(slice, it.node), x) || Has(Transfer(q, it.node, it.after), x)
  {
    hide Transfer, Contributes;
  }

  /** An item that is processed leaves only accounted entries behind. */
  lemma ProcessAccounted(q: Query, visited: Relevance, slice: Relevance, work: seq<Item>, it: Item, work': seq<Item>)
    requires q.target in q.graph && Accounted(q, visited, slice, work + [it]) && Pushed(q, work, it, work')
    requires !Skips(q, it.node, it.after)
    ensures Accounted(q, Visit(visited, it), Record(q, slice, it), work')
  {
    hide Transfer, Contributes, Has, Acc, Skips;
    var l, visited', slice' := it.node, Visit(visited, it), Record(q, slice, it);
    assert it in work + [it];
    var path :| Trail(q, l, path) && Traced(q, path) == it.after;
    assert Arrives(q, l, path);
    forall i | i in work' ensures Traces(q, i) {
      if i !in work {
        TrailExtends(q, l, path, i.node);
      } else {
        assert i in work + [it];
      }
    }
    forall m, x | m in visited' && Has(visited'[m], x) ensures RelevantAfter(q, m, x) {
      AccHas(visited, visited', m, it, x);
    }
    if Contributes(q, l, it.after) {
      RecordHas(q, slice, it);
      assert OnSlice(q, l);
      forall x | Has(slice'[l], x) ensures RelevantBefore(q, l, x) {
        AccSome(slice, l, x);
      }
    }
  }

  lemma AccSome(m: Relevance, l: Label, x: Location)
    ensures Has(Acc(m, l), x) <==> l in m && Has(m[l], x)
  {
  }

  lemma AccHas(visited: Relevance, visited': Relevance, m: Label, it: Item, x: Location)
    requires visited' == Visit(visited, it) && m in visited' && Has(visited'[m], x)
    ensures (m in visited && Has(visited[m], x)) || (m == it.node && Has(it.after, x))
  {
  }

  // ------------------------------------------------------------------ counting

  /** One mark for each item processed: what it newly made relevant where, or the first visit with nothing relevant. */
  datatype Mark = At(node: Label, x: Location) | Bare(node: Label)

  ghost function Grid(ls: set<Label>, xs: set<Location>): set<Mark> {
    (set l | l in ls :: Bare(l)) + set l, x | l in ls && x in xs :: At(l, x)
  }

  ghost function Row(l: Label, xs: set<Location>): set<Mark> {
    {Bare(l)} + set x | x in xs :: At(l, x)
  }

  lemma RowSize(l: Label, xs: set<Location>)
    ensures |Row(l, xs)| <= |xs| + 1
  {
    if xs == {} {
      assert Row(l, xs) == {Bare(l)};
    } else {
      var x :| x in xs;
      RowSize(l, xs - {x});
      assert Row(l, xs) == Row(l, xs - {x}) + {At(l, x)};
    }
  }

  lemma UnionSize(a: set<Mark>, b: set<Mark>)
    ensures |a + b| <= |a| + |b|
  {
    assert a + b == a + (b - a);
  }

  lemma {:induction false} GridSize(ls: set<Label>, xs: set<Location>)
    ensures |Grid(ls, xs)| <= |ls| * (|xs| + 1)
  {
    hide Grid, Row;
    if ls == {} {
      GridEmpty(xs);
    } else {
      var l :| l in ls;
      GridSize(ls - {l}, xs);
      RowSize(l, xs);
      GridStep(ls, xs, l);
      UnionSize(Grid(ls - {l}, xs), Row(l, xs));
      OneMore(|ls - {l}|, |xs| + 1);
    }
  }

  lemma GridEmpty(xs: set<Location>)
    ensures Grid({}, xs) == {}
  {
  }

  lemma GridStep(ls: set<Label>, xs: set<Location>, l: Label)
    requires l in ls
    ensures Grid(ls, xs) == Grid(ls - {l}, xs) + Row(l, xs)
  {
    forall m ensures m in Grid(ls, xs) <==> m in Grid(ls - {l}, xs) + Row(l, xs) {
      match m
      case At(n, x) =>
      case Bare(n) =>
    }
  }

  lemma OneMore(n: nat, row: nat)
    ensures (n + 1) * row == n * row + row
  {
  }

  /** Labels times the relevance universe plus one. */
  ghost function Bound(q: Query): nat {
    |q.graph.Keys| * (|Universe(q)| + 1)
  }

  ghost predicate Marked(q: Query, visited: Relevance, bare: set<Label>, marks: set<Mark>) {
    && marks <= Grid(q.graph.Keys, Universe(q))
    && (forall l, x :: At(l, x) in marks ==> Has(Acc(visited, l), x))
    && (forall l :: Bare(l) in marks ==> l in bare)
    && bare <= visited.Keys
  }

  lemma MarksBound(q: Query, visited: Relevance, bare: set<Label>, marks: set<Mark>)
    requires Marked(q, visited, bare, marks)
    ensures |marks| <= Bound(q)
  {
    var g := Grid(q.graph.Keys, Universe(q));
    GridSize(q.graph.Keys, Universe(q));
    assert g == marks + (g - marks);
  }

  lemma SizeGrows(a: RelevantState, b: RelevantState)
    ensures Size(Merge(a, b)) == Size(a) <==> Within(b, a)
    ensures Size(Merge(a, b)) == Size(a) ==> Merge(a, b) == a
  {
    SubsetGrows(a.registers, b.registers);
    SubsetGrows(a.stackOffsets, b.stackOffsets);
    if Within(b, a) {
      WithinMerge(b, a);
      assert Merge(a, b) == Merge(b, a);
    }
  }

  lemma SubsetGrows(a: set<int>, b: set<int>)
    ensures |a + b| >= |a|
    ensures |a + b| == |a| ==> b <= a && a + b == a
  {
    assert a + b == a + (b - a);
  }

  /** A processed item has a mark of its own. */
  lemma NewMark(q: Query, visited: Relevance, bare: set<Label>, marks: set<Mark>, it: Item) returns (m: Mark)
    requires q.target in q.graph && Marked(q, visited, bare, marks) && Traces(q, it)
    requires it.node in bare ==> !Within(it.after, Acc(visited, it.node))
    ensures m !in marks
    ensures Marked(q, Visit(visited, it), if Within(it.after, Acc(visited, it.node)) then bare + {it.node} else bare, marks + {m})
  {
    hide Has, Acc, Universe;
    var path :| Trail(q, it.node, path) && Traced(q, path) == it.after;
    NodeInGraph(q, it.node, path);
    forall l, x | Has(Acc(visited, l), x) ensures Has(Acc(Visit(visited, it), l), x) {
      VisitHas(visited, it, l, x);
    }
    if Within(it.after, Acc(visited, it.node)) {
      m := Bare(it.node);
    } else {
      var x :| Has(it.after, x) && !Has(Acc(visited, it.node), x);
      TracedStays(q, path, x);
      VisitHas(visited, it, it.node, x);
      m := At(it.node, x);
    }
  }

  lemma NodeInGraph(q: Query, l: Label, path: seq<Label>)
    requires q.target in q.graph && Trail(q, l, path)
    ensures l in q.graph
  {
    if |path| > 1 {
      assert Edge(q.graph, path[0], path[1]);
    }
  }

  // ------------------------------------------------------------------ the loop

  method PushParents(q: Query, work: seq<Item>, it: Item) returns (work': seq<Item>)
    requires q.target in q.graph && WellFormed(q.graph) && it.node in q.graph
    ensures Pushed(q, work, it, work')
  {
    hide Transfer;
    var before := Transfer(q, it.node, it.after);
    var parents := q.graph[it.node].parents;
    var left := parents;
    work' := work;
    while left != {}
      invariant left <= parents
      invariant forall i :: i in work ==> i in work'
      invariant forall p :: p in parents - left ==> Item(p, before) in work'
      invariant forall i :: i in work' ==> i in work || (i.node in parents && i.after == before)
    {
      var p :| p in left;
      left := left - {p};
      work' := work' + [Item(p, before)];
    }
    assert forall p :: Edge(q.graph, p, it.node) ==> p in parents - left;
  }

  /** What a visited label passes on is contained in what is relevant at each parent. */
  ghost predicate Stable(q: Query, visited: Relevance)
    requires q.target in q.graph
  {
    && q.target in visited
    && Within(q.seed, visited[q.target])
    && (forall l, p :: l in visited && Edge(q.graph, p, l) ==> Within(Transfer(q, l, visited[l]), Acc(visited, p)))
    && (Conservative(q) ==> forall l, p :: l in visited && Edge(q.graph, p, l) ==> p in visited)
  }

  lemma ClosedIsStable(q: Query, visited: Relevance)
    requires q.target in q.graph && Closed(q, visited, [])
    ensures Stable(q, visited)
  {
    hide Transfer, Has;
    forall l, p | l in visited && Edge(q.graph, p, l)
      ensures Within(Transfer(q, l, visited[l]), Acc(visited, p)) && (Conservative(q) ==> p in visited)
    {
      assert Flows(q, visited, [], l, p);
    }
    forall x | Has(q.seed, x) ensures Has(visited[q.target], x) {
      assert Awaited(visited, [], q.target, x);
    }
  }

  /** A stable map holds the relevance of every trail, whatever was skipped on the way. */
  lemma {:induction false} StableHoldsTrails(q: Query, visited: Relevance, l: Label, path: seq<Label>)
    requires q.target in q.graph && Stable(q, visited) && Trail(q, l, path)
    ensures Within(Traced(q, path), Acc(visited, l))
    ensures !Skips(q, l, Traced(q, path)) ==> l in visited
    decreases |path|
  {
    hide Transfer, Contributes;
    if |path| > 1 {
      var m, rest := path[1], path[1..];
      TrailRest(q, l, path);
      StableHoldsTrails(q, visited, m, rest);
      if Skips(q, m, Traced(q, rest)) {
        assert Traced(q, path) == EMPTY;
      } else {
        FlowMonotone(q, m, Traced(q, rest), visited[m]);
      }
      SomethingHas(Traced(q, path));
    }
  }

  lemma SomethingHas(r: RelevantState)
    ensures r == EMPTY || exists x :: Has(r, x)
  {
    SomeMember(r.registers);
    SomeMember(r.stackOffsets);
    if r != EMPTY && forall x :: !Has(r, x) {
      assert forall v :: v in r.registers ==> Has(r, Register(v));
      assert forall o :: o in r.stackOffsets ==> Has(r, StackOffset(o));
    }
  }

  /** The worklist computes, for every label, exactly the relevance and the membership that trails give it. */
  ghost predicate Exact(q: Query, visited: Relevance, slice: Relevance)
    requires q.target in q.graph
  {
    && (forall l :: l in visited <==> Reached(q, l))
    && (forall l, x :: Has(Acc(visited, l), x) <==> RelevantAfter(q, l, x))
    && (forall l :: l in slice <==> OnSlice(q, l))
  }

  lemma StableIsExact(q: Query, visited: Relevance, slice: Relevance)
    requires q.target in q.graph && Stable(q, visited) && Accounted(q, visited, slice, []) && Sliced(q, visited, slice)
    ensures Exact(q, visited, slice)
  {
    hide Transfer, Contributes, Has, Stable, Skips;
    forall l | Reached(q, l) ensures l in visited {
      var path :| Arrives(q, l, path);
      StableHoldsTrails(q, visited, l, path);
    }
    forall l, x | RelevantAfter(q, l, x) ensures Has(Acc(visited, l), x) {
      var path :| Trail(q, l, path) && Has(Traced(q, path), x);
      StableHoldsTrails(q, visited, l, path);
    }
    forall l, x | Has(Acc(visited, l), x) ensures RelevantAfter(q, l, x) {
      AccSome(visited, l, x);
    }
    forall l | OnSlice(q, l) ensures l in slice {
      var path :| Arrives(q, l, path) && Contributes(q, l, Traced(q, path));
      StableHoldsTrails(q, visited, l, path);
      FlowMonotone(q, l, Traced(q, path), visited[l]);
    }
  }

  // ------------------------------------------------------------------ join points

  ghost predicate SeveralWays(parents: set<Label>) {
    exists a, b :: a in parents && b in parents && a != b
  }

  lemma SeveralAreTwo(parents: set<Label>)
    ensures SeveralWays(parents) <==> |parents| >= 2
  {
    if parents != {} {
      var a :| a in parents;
      if parents - {a} != {} {
        var b :| b in parents - {a};
        assert |{a, b}| == 2;
        assert {a, b} <= parents;
        assert parents == {a, b} + (parents - {a, b});
      } else {
        assert parents == {a};
      }
    }
  }

  /** A visited label with several parents, one of them on the slice. */
  ghost predicate JoinPoint(q: Query, visited: set<Label>, slice: set<Label>, v: Label) {
    && v in visited && v in q.graph
    && SeveralWays(q.graph[v].parents)
    && exists p :: p in q.graph[v].parents && p in slice
  }

  ghost predicate Near(q: Query, v: Label, l: Label) {
    l == v || (v in q.graph && l in q.graph[v].parents)
  }

  ghost predicate JoinNeighbour(q: Query, visited: set<Label>, slice: set<Label>, l: Label) {
    exists v :: JoinPoint(q, visited, slice, v) && Near(q, v, l)
  }

  /** What is shown at a label that only a join point brings in. */
  ghost predicate Shown(q: Query, visited: Relevance, l: Label, r: RelevantState) {
    if l in visited then r == visited[l] else exists v :: v in visited && v in q.graph && l in q.graph[v].parents && r == visited[v]
  }

  method ExpandJoin(q: Query, visited: Relevance, slice: Relevance, v: Label, e: Relevance) returns (e': Relevance)
    requires v in visited && v in q.graph
    requires forall l :: l in e ==> l !in slice && Shown(q, visited, l, e[l])
    ensures forall l :: l in e' ==> l !in slice && Shown(q, visited, l, e'[l])
    ensures forall l :: l in e' <==> l in e || (l !in slice && JoinPoint(q, visited.Keys, slice.Keys, v) && Near(q, v, l))
  {
    var parents := q.graph[v].parents;
    SeveralAreTwo(parents);
    if |parents| < 2 || parents * slice.Keys == {} {
      assert forall p :: p in parents && p in slice ==> p in parents * slice.Keys;
      return e;
    }
    var some :| some in parents * slice.Keys;
    assert JoinPoint(q, visited.Keys, slice.Keys, v);
    e' := if v in slice then e else e[v := visited[v]];
    ghost var first := e';
    var left := parents;
    while left != {}
      invariant left <= parents
      invariant forall l :: l in e' ==> l !in slice && Shown(q, visited, l, e'[l])
      invariant forall l :: l in e' <==> l in first || (l in parents - left && l !in slice)
    {
      var p :| p in left;
      left := left - {p};
      if p !in slice && p !in e' {
        e' := e'[p := if p in visited then visited[p] else visited[v]];
      }
    }
  }

  method ExpandJoins(q: Query, visited: Relevance, slice: Relevance) returns (relevance: Relevance)
    requires WellFormed(q.graph) && forall l :: l in visited ==> l in q.graph
    ensures forall l :: l in relevance <==> l in slice || JoinNeighbour(q, visited.Keys, slice.Keys, l)
    ensures forall l :: l in slice ==> relevance[l] == slice[l]
    ensures forall l :: l in relevance && l !in slice ==> Shown(q, visited, l, relevance[l])
  {
    hide Shown, JoinPoint, Near;
    var e: Relevance := map[];
    var left := visited.Keys;
    while left != {}
      invariant left <= visited.Keys
      invariant forall l :: l in e ==> l !in slice && Shown(q, visited, l, e[l])
      invariant forall l :: l in e ==> exists v :: v !in left && JoinPoint(q, visited.Keys, slice.Keys, v) && Near(q, v, l)
      invariant forall v, l :: v in visited && v !in left && JoinPoint(q, visited.Keys, slice.Keys, v) && Near(q, v, l) ==> l in e || l in slice
    {
      var v :| v in left;
      left := left - {v};
      e := ExpandJoin(q, visited, slice, v, e);
    }
    relevance := slice + e;
    JoinsVisited(q, visited.Keys, slice.Keys);
  }

  lemma JoinsVisited(q: Query, visited: set<Label>, slice: set<Label>)
    ensures forall v :: JoinPoint(q, visited, slice, v) ==> v in visited
  {
  }

  // ------------------------------------------------------------------ the slicer

  /** A join point, by trails. */
  ghost predicate TrailJoin(q: Query, v: Label)
    requires q.target in q.graph
  {
    && v in q.graph && Reached(q, v)
    && SeveralWays(q.graph[v].parents)
    && exists p :: p in q.graph[v].parents && OnSlice(q, p)
  }

  /** The labels a full slice shows: those acting on relevant state, and the surroundings of joins below them. */
  ghost predicate Sliceable(q: Query, l: Label)
    requires q.target in q.graph
  {
    OnSlice(q, l) || exists v :: TrailJoin(q, v) && Near(q, v, l)
  }

  /** What the loop keeps. */
  ghost predicate Kept(q: Query, visited: Relevance, slice: Relevance, bare: set<Label>, marks: set<Mark>, work: seq<Item>)
    requires q.target in q.graph
  {
    && Accounted(q, visited, slice, work)
    && Closed(q, visited, work)
    && Sliced(q, visited, slice)
    && Marked(q, visited, bare, marks)
  }

  lemma Started(q: Query)
    requires q.target in q.graph
    ensures Kept(q, map[], map[], {}, {}, [Item(q.target, q.seed)])
  {
    hide Has;
    assert Trail(q, q.target, [q.target]) && Traced(q, [q.target]) == q.seed;
    assert Item(q.target, q.seed) in [Item(q.target, q.seed)];
  }

  lemma Popped(q: Query, visited: Relevance, slice: Relevance, work: seq<Item>, it: Item)
    requires q.target in q.graph && Accounted(q, visited, slice, work + [it])
    ensures Accounted(q, visited, slice, work) && Traces(q, it) && it.node in q.graph
  {
    hide Has;
    assert it in work + [it];
    forall i | i in work ensures Traces(q, i) {
      assert i in work + [it];
    }
    var path :| Trail(q, it.node, path) && Traced(q, path) == it.after;
    NodeInGraph(q, it.node, path);
  }

  lemma Dropped(q: Query, visited: Relevance, slice: Relevance, bare: set<Label>, marks: set<Mark>, work: seq<Item>, it: Item)
    requires q.target in q.graph && Kept(q, visited, slice, bare, marks, work + [it])
    requires Within(it.after, Acc(visited, it.node))
    requires it.node in visited || Skips(q, it.node, it.after)
    ensures Kept(q, visited, slice, bare, marks, work)
  {
    hide Accounted, Closed, Sliced, Marked, Within, Acc, Skips;
    Popped(q, visited, slice, work, it);
    DropClosed(q, visited, work, it);
  }

  lemma Processed(q: Query, visited: Relevance, slice: Relevance, bare: set<Label>, marks: set<Mark>, work: seq<Item>, it: Item, work': seq<Item>)
      returns (m: Mark)
    requires q.target in q.graph && Kept(q, visited, slice, bare, marks, work + [it])
    requires !Skips(q, it.node, it.after) && Pushed(q, work, it, work')
    requires it.node in bare ==> !Within(it.after, Acc(visited, it.node))
    ensures m !in marks
    ensures Kept(q, Visit(visited, it), Record(q, slice, it),
      if Within(it.after, Acc(visited, it.node)) then bare + {it.node} else bare, marks + {m}, work')
  {
    hide Accounted, Closed, Sliced, Marked, Within, Acc, Skips, Pushed, Visit, Record;
    Popped(q, visited, slice, work, it);
    ProcessClosed(q, visited, work, it, work');
    ProcessSliced(q, visited, slice, it);
    ProcessAccounted(q, visited, slice, work, it, work');
    m := NewMark(q, visited, bare, marks, it);
  }

  /** What the end of the loop means for the labels found. */
  lemma Ended(q: Query, visited: Relevance, slice: Relevance, bare: set<Label>, marks: set<Mark>)
    requires q.target in q.graph && Kept(q, visited, slice, bare, marks, [])
    ensures Stable(q, visited) && Exact(q, visited, slice)
    ensures forall l :: l in slice && l in q.deps ==> Within(Reads(q.deps[l]), slice[l])
  {
    hide Accounted, Closed, Marked, Within, Stable, Exact, Contributes, Reads;
    ClosedIsStable(q, visited);
    StableIsExact(q, visited, slice);
  }

  lemma SkipDrops(q: Query, visited: Relevance, it: Item)
    requires Skips(q, it.node, it.after)
    ensures Within(it.after, Acc(visited, it.node))
  {
  }

  /** A label with a non-empty entry, or one visited bare, is in the map; merging what it has changes nothing. */
  lemma SeenBefore(q: Query, visited: Relevance, bare: set<Label>, marks: set<Mark>, it: Item)
    requires Marked(q, visited, bare, marks)
    requires Size(Acc(visited, it.node)) > 0 || it.node in bare
    requires Within(it.after, Acc(visited, it.node))
    ensures it.node in visited && Visit(visited, it) == visited
  {
    hide Within, Has;
    WithinMerge(it.after, Acc(visited, it.node));
    MergeSwaps(it.after, Acc(visited, it.node));
  }

  lemma MergeSwaps(a: RelevantState, b: RelevantState)
    ensures Merge(a, b) == Merge(b, a)
  {
  }

  lemma InGraph(q: Query, visited: Relevance, slice: Relevance, work: seq<Item>)
    requires q.target in q.graph && Accounted(q, visited, slice, work)
    ensures forall l :: l in visited ==> l in q.graph
  {
    hide Has;
    forall l | l in visited ensures l in q.graph {
      var path :| Arrives(q, l, path);
      NodeInGraph(q, l, path);
    }
  }

  lemma PartialSlice(q: Query, visited: Relevance, slice: Relevance, work: seq<Item>, relevance: Relevance)
    requires q.target in q.graph && Accounted(q, visited, slice, work)
    requires forall l :: l in relevance <==> l in slice || JoinNeighbour(q, visited.Keys, slice.Keys, l)
    ensures forall l :: l in relevance ==> Sliceable(q, l)
  {
    hide Has, Reached, OnSlice, Near;
    forall l | l in relevance ensures Sliceable(q, l) {
      if l !in slice {
        var v :| JoinPoint(q, visited.Keys, slice.Keys, v) && Near(q, v, l);
        assert TrailJoin(q, v);
      }
    }
  }

  /** A location is shown at a label because a path makes it relevant there, before the label or at a join near it. */
  ghost predicate Grounded(q: Query, l: Label, x: Location)
    requires q.target in q.graph
  {
    RelevantBefore(q, l, x) || exists v :: Near(q, v, l) && RelevantAfter(q, v, x)
  }

  lemma AllGrounded(q: Query, visited: Relevance, slice: Relevance, work: seq<Item>, relevance: Relevance)
    requires q.target in q.graph && Accounted(q, visited, slice, work)
    requires forall l :: l in slice ==> l in relevance && relevance[l] == slice[l]
    requires forall l :: l in relevance && l !in slice ==> Shown(q, visited, l, relevance[l])
    ensures forall l, x :: l in relevance && Has(relevance[l], x) ==> Grounded(q, l, x)
  {
    hide Has, Reached, OnSlice, RelevantAfter, RelevantBefore;
    forall l, x | l in relevance && Has(relevance[l], x) ensures Grounded(q, l, x) {
      if l !in slice {
        if l in visited {
          assert Near(q, l, l) && RelevantAfter(q, l, x);
        } else {
          var v :| v in visited && v in q.graph && l in q.graph[v].parents && relevance[l] == visited[v];
          assert Near(q, v, l) && RelevantAfter(q, v, x);
        }
      }
    }
  }

  lemma FullSlice(q: Query, visited: Relevance, slice: Relevance, relevance: Relevance)
    requires q.target in q.graph && Exact(q, visited, slice)
    requires forall l :: l in relevance <==> l in slice || JoinNeighbour(q, visited.Keys, slice.Keys, l)
    ensures forall l :: Sliceable(q, l) ==> l in relevance
  {
    hide Has, Reached, OnSlice, Near;
    forall l | Sliceable(q, l) ensures l in relevance {
      if l !in slice {
        var v :| TrailJoin(q, v) && Near(q, v, l);
        assert JoinPoint(q, visited.Keys, slice.Keys, v);
      }
    }
  }

  /** Before the first step only the failing label waits; afterwards it has been visited. */
  ghost predicate Begun(q: Query, count: nat, seen: Relevance, bare: set<Label>, work: seq<Item>) {
    if count == 0 then seen == map[] && bare == {} && work == [Item(q.target, q.seed)] else q.target in seen
  }

  lemma BegunStart(q: Query)
    ensures Begun(q, 0, map[], {}, [Item(q.target, q.seed)])
  {
  }

  /** The first item is not dropped. */
  lemma BegunFirst(q: Query, count: nat, seen: Relevance, bare: set<Label>, work: seq<Item>, it: Item)
    requires Begun(q, count, seen, bare, work + [it])
    ensures count == 0 ==> !Skips(q, it.node, it.after) && Size(Acc(seen, it.node)) == 0 && it.node !in bare
  {
    assert (work + [it])[|work|] == it;
  }

  lemma BegunKept(q: Query, count: nat, seen: Relevance, bare: set<Label>, work: seq<Item>, seen': Relevance, work': seq<Item>)
    requires Begun(q, count, seen, bare, work) && count > 0 && seen.Keys <= seen'.Keys
    ensures Begun(q, count, seen', bare, work')
  {
  }

  lemma BegunStep(q: Query, count: nat, seen: Relevance, bare: set<Label>, work: seq<Item>, it: Item, r: RelevantState, bare': set<Label>, work': seq<Item>)
    requires Begun(q, count, seen, bare, work + [it])
    ensures Begun(q, count + 1, seen[it.node := r], bare', work')
  {
    assert (work + [it])[|work|] == it;
  }

  lemma BegunEnds(q: Query, count: nat, seen: Relevance, bare: set<Label>, work: seq<Item>)
    requires Begun(q, count, seen, bare, work) && count > 0
    ensures q.target in seen
  {
  }

  /** The worklist, in at most `maxSteps` steps. */
  method TraceBack(q: Query, maxSteps: nat)
    returns (seen: Relevance, slice: Relevance, emptied: bool, ghost bare: set<Label>, ghost marks: set<Mark>, ghost work: seq<Item>)
    requires q.target in q.graph && WellFormed(q.graph)
    ensures Kept(q, seen, slice, bare, marks, work) && (emptied ==> work == [])
    ensures |marks| <= maxSteps && (!emptied ==> |marks| == maxSteps)
    ensures Begun(q, |marks|, seen, bare, work)
  {
    hide Transfer, Contributes, Has, Kept, Accounted, Skips, Stable, Pushed, Size, Within, Bound, Reads, Begun, Acc;
    var todo := [Item(q.target, q.seed)];
    seen, slice := map[], map[];
    var bareLabels: set<Label> := {};
    marks := {};
    var count := 0;
    Started(q);
    BegunStart(q);
    emptied, work, bare := true, todo, bareLabels;
    while todo != []
      invariant count == |marks| <= maxSteps && work == todo && bare == bareLabels
      invariant Kept(q, seen, slice, bareLabels, marks, todo)
      invariant Begun(q, count, seen, bareLabels, todo)
      decreases maxSteps - count, |todo|
    {
      var it := todo[|todo| - 1];
      assert todo == todo[..|todo| - 1] + [it];
      if count >= maxSteps {
        emptied := false;
        return;
      }
      ghost var full := todo;
      todo := todo[..|todo| - 1];
      work := todo;
      Known(q, seen, slice, bareLabels, marks, todo + [it]);
      Popped(q, seen, slice, todo, it);
      BegunFirst(q, count, seen, bareLabels, todo, it);
      if Skips(q, it.node, it.after) {
        SkipDrops(q, seen, it);
        Dropped(q, seen, slice, bareLabels, marks, todo, it);
        BegunKept(q, count, seen, bareLabels, full, seen, todo);
        continue;
      }
      ghost var was, rest := seen, todo;
      var prev := Acc(seen, it.node);
      var existing := Merge(prev, it.after);
      seen := seen[it.node := existing];
      SizeGrows(prev, it.after);
      if Size(existing) == Size(prev) && (Size(prev) > 0 || it.node in bareLabels) {
        SeenBefore(q, was, bareLabels, marks, it);
        Dropped(q, seen, slice, bareLabels, marks, todo, it);
        BegunKept(q, count, was, bareLabels, full, seen, todo);
        continue;
      }
      todo := PushParents(q, todo, it);
      ghost var m := Processed(q, was, slice, bareLabels, marks, rest, it, todo);
      BegunStep(q, count, was, bareLabels, rest, it, existing, if Size(existing) == Size(prev) then bareLabels + {it.node} else bareLabels, todo);
      if Size(existing) == Size(prev) {
        bareLabels := bareLabels + {it.node};
      }
      if Contributes(q, it.node, it.after) {
        slice := slice[it.node := Merge(Acc(slice, it.node), Transfer(q, it.node, it.after))];
      }
      marks := marks + {m};
      count := count + 1;
      work, bare := todo, bareLabels;
    }
  }

  /**
    Slices backwards from `q.target` in at most `maxSteps` steps. No label outside the full slice is ever
    shown; more steps than `Bound` always suffice, and then the whole slice is.
  */
  method ComputeSliceFromLabel(q: Query, maxSteps: nat)
    returns (relevance: Relevance, ghost visited: Relevance, ghost steps: nat, ghost emptied: bool)
    requires q.target in q.graph && WellFormed(q.graph)
    ensures forall l :: l in relevance ==> Sliceable(q, l)
    ensures forall l, x :: l in relevance && Has(relevance[l], x) ==> Grounded(q, l, x)
    ensures steps <= maxSteps && steps <= Bound(q)
    ensures maxSteps > Bound(q) ==> emptied
    ensures !emptied ==> steps == maxSteps
    // even then everything that was looked at and acts on what was known to be relevant is shown, the failing label first
    ensures forall l :: l in visited && Contributes(q, l, visited[l]) ==> l in relevance
    ensures maxSteps > 0 ==> q.target in visited && q.target in relevance
    ensures emptied ==> Stable(q, visited) && forall l, x :: Has(Acc(visited, l), x) <==> RelevantAfter(q, l, x)
    ensures emptied ==> forall l :: l in relevance <==> Sliceable(q, l)
    ensures emptied ==> forall l, path :: ActsOn(q, l, path) ==> l in relevance
    ensures forall l :: l in relevance ==> (exists path :: ActsOn(q, l, path)) || (exists v :: TrailJoin(q, v) && Near(q, v, l))
    ensures emptied ==> forall l :: OnSlice(q, l) && l in q.deps ==> l in relevance && Within(Reads(q.deps[l]), relevance[l])
  {
    hide Transfer, Contributes, Has, Kept, Accounted, Skips, Stable, Pushed, Size, Within, Bound, Shown, Sliceable, Reads, RelevantAfter, OnSlice, JoinNeighbour, Reached, Grounded, ActsOn, TrailJoin, Near, Begun, Acc;
    var seen, slice, done;
    ghost var bare, marks, work;
    seen, slice, done, bare, marks, work := TraceBack(q, maxSteps);
    visited, steps, emptied := seen, |marks|, done;
    Known(q, seen, slice, bare, marks, work);
    MarksBound(q, seen, bare, marks);
    SlicedNow(q, seen, slice, bare, marks, work);
    if steps > 0 {
      BegunEnds(q, steps, seen, bare, work);
    } else if emptied {
      NotBegun(q, seen, bare);
    }
    InGraph(q, seen, slice, work);
    relevance := ExpandJoins(q, seen, slice);
    PartialSlice(q, seen, slice, work, relevance);
    AllGrounded(q, seen, slice, work, relevance);
    if emptied {
      Ended(q, seen, slice, bare, marks);
      FullSlice(q, seen, slice, relevance);
    }
    SliceableExactly(q);
  }

  lemma NotBegun(q: Query, seen: Relevance, bare: set<Label>)
    ensures !Begun(q, 0, seen, bare, [])
  {
  }

  /** The full slice, with the contribution test spelled out. */
  lemma SliceableExactly(q: Query)
    requires q.target in q.graph
    ensures forall l, path :: ActsOn(q, l, path) ==> Sliceable(q, l)
    ensures forall l :: Sliceable(q, l) ==> (exists path :: ActsOn(q, l, path)) || (exists v :: TrailJoin(q, v) && Near(q, v, l))
  {
    hide OnSlice, ActsOn, TrailJoin, Near;
    forall l ensures OnSlice(q, l) <==> exists path :: ActsOn(q, l, path) {
      OnSliceExactly(q, l);
    }
  }

  lemma SlicedNow(q: Query, visited: Relevance, slice: Relevance, bare: set<Label>, marks: set<Mark>, work: seq<Item>)
    requires q.target in q.graph && Kept(q, visited, slice, bare, marks, work)
    ensures forall l :: l in visited && Contributes(q, l, visited[l]) ==> l in slice
    ensures forall r :: Contributes(q, q.target, r)
  {
  }

  lemma Known(q: Query, visited: Relevance, slice: Relevance, bare: set<Label>, marks: set<Mark>, work: seq<Item>)
    requires q.target in q.graph && Kept(q, visited, slice, bare, marks, work)
    ensures Accounted(q, visited, slice, work) && Marked(q, visited, bare, marks)
  {
  }
}
