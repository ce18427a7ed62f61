/** Labels and the control-flow graph (src/cfg/label.rs, src/cfg/graph.rs). */
module Graph {

  /** A node: one instruction, or one jump edge when `to` is not -1. */
  datatype Label = Label(stackFramePrefix: string, from: int, to: int, specialLabel: string)

  const ENTRY := Label("", -1, -1, "")
  const EXIT := Label("", 0x7FFF_FFFF, 0x7FFF_FFFF, "")

  /** Adjacency of one node. The source iterates both sets in label order; here every order is allowed. */
  datatype Adjacent = Adjacent(parents: set<Label>, children: set<Label>)

  type Neighbours = map<Label, Adjacent>

  /** Every child and every parent is itself a node. */
  ghost predicate Closed(g: Neighbours) {
    forall l :: l in g ==> g[l].children <= g.Keys && g[l].parents <= g.Keys
  }

  /** Children and parents are two views of one edge set. */
  ghost predicate Mirrored(g: Neighbours) {
    forall a, b :: a in g && b in g ==> (b in g[a].children <==> a in g[b].parents)
  }

  /** What every graph built through `Cfg` keeps. */
  ghost predicate WellFormed(g: Neighbours) {
    && ENTRY in g
    && EXIT in g
    && Closed(g)
    && Mirrored(g)
    && g[ENTRY].parents == {}
    && g[EXIT].children == {}
  }

  ghost predicate Edge(g: Neighbours, a: Label, b: Label) {
    a in g && b in g[a].children
  }

  /** A non-empty walk along edges. */
  ghost predicate Walk(g: Neighbours, p: seq<Label>) {
    |p| > 0 && forall i :: 0 <= i < |p| - 1 ==> Edge(g, p[i], p[i + 1])
  }

  /** A walk from the entry. */
  ghost predicate IsPath(g: Neighbours, p: seq<Label>) {
    Walk(g, p) && p[0] == ENTRY
  }

  /** A walk from `a` to `b` that stays inside `members`. */
  ghost predicate WalkIn(g: Neighbours, members: set<Label>, a: Label, b: Label, p: seq<Label>) {
    Walk(g, p) && p[0] == a && p[|p| - 1] == b && forall x :: x in p ==> x in members
  }

  /** Every member is reached from `h` and comes back to it by at least one edge, all inside `members`. */
  ghost predicate StronglyConnected(g: Neighbours, h: Label, members: set<Label>) {
    forall x :: x in members ==> From(g, members, h, x) && Back(g, members, x, h)
  }

  ghost predicate From(g: Neighbours, members: set<Label>, h: Label, x: Label) {
    exists p :: WalkIn(g, members, h, x, p)
  }

  ghost predicate Back(g: Neighbours, members: set<Label>, x: Label, h: Label) {
    exists p :: WalkIn(g, members, x, h, p) && |p| > 1
  }

  lemma WalkJoin(g: Neighbours, members: set<Label>, a: Label, b: Label, c: Label, p: seq<Label>, q: seq<Label>)
    requires WalkIn(g, members, a, b, p) && WalkIn(g, members, b, c, q)
    ensures WalkIn(g, members, a, c, p + q[1..])
  {
    var r := p + q[1..];
    forall i | 0 <= i < |r| - 1 ensures Edge(g, r[i], r[i + 1]) {
      if i >= |p| - 1 {
        assert r[i] == q[i - |p| + 1] && r[i + 1] == q[i - |p| + 2];
      }
    }
    forall x | x in r ensures x in members {
      if x !in p { assert x in q; }
    }
  }

  lemma WalkEdge(g: Neighbours, members: set<Label>, a: Label, b: Label)
    requires Edge(g, a, b) && a in members && b in members
    ensures WalkIn(g, members, a, b, [a, b])
  {
  }

  ghost predicate Reachable(g: Neighbours, l: Label) {
    exists p :: IsPath(g, p) && p[|p| - 1] == l
  }

  lemma ReachableEntry(g: Neighbours)
    ensures Reachable(g, ENTRY)
  {
    assert IsPath(g, [ENTRY]) && [ENTRY][0] == ENTRY;
  }

  lemma ReachableStep(g: Neighbours, a: Label, b: Label)
    requires Reachable(g, a) && Edge(g, a, b)
    ensures Reachable(g, b)
  {
    var p :| IsPath(g, p) && p[|p| - 1] == a;
    var q := p + [b];
    assert forall i :: 0 <= i < |q| - 1 ==> Edge(g, q[i], q[i + 1]);
    assert IsPath(g, q) && q[|q| - 1] == b;
  }

  /** A set that holds the entry and is closed under edges holds everything reachable. */
  lemma {:induction false} ReachableIsLeast(g: Neighbours, s: set<Label>, p: seq<Label>)
    requires ENTRY in s
    requires forall a, b :: a in s && Edge(g, a, b) ==> b in s
    requires IsPath(g, p)
    ensures p[|p| - 1] in s
  {
    if |p| > 1 {
      var q := p[..|p| - 1];
      assert IsPath(g, q);
      ReachableIsLeast(g, s, q);
      assert Edge(g, p[|p| - 2], p[|p| - 1]);
    }
  }

  function Linked(g: Neighbours, a: Label, b: Label): Neighbours
    requires a in g && b in g
  {
    var h := g[a := g[a].(children := g[a].children + {b})];
    h[b := h[b].(parents := h[b].parents + {a})]
  }

  function Unlinked(g: Neighbours, a: Label, b: Label): Neighbours
    requires a in g && b in g
  {
    var h := g[a := g[a].(children := g[a].children - {b})];
    h[b := h[b].(parents := h[b].parents - {a})]
  }

  lemma LinkedAdjacency(g: Neighbours, a: Label, b: Label, x: Label)
    requires a in g && b in g && x in g
    ensures Linked(g, a, b)[x].children == g[x].children + (if x == a then {b} else {})
    ensures Linked(g, a, b)[x].parents == g[x].parents + (if x == b then {a} else {})
    ensures Unlinked(g, a, b)[x].children == g[x].children - (if x == a then {b} else {})
    ensures Unlinked(g, a, b)[x].parents == g[x].parents - (if x == b then {a} else {})
  {
  }

  lemma LinkedKeys(g: Neighbours, a: Label, b: Label)
    requires a in g && b in g
    ensures Linked(g, a, b).Keys == g.Keys
  {
  }

  lemma LinkedEdges(g: Neighbours, a: Label, b: Label)
    requires WellFormed(g) && a in g && b in g && b != ENTRY && a != EXIT
    ensures WellFormed(Linked(g, a, b)) && Linked(g, a, b).Keys == g.Keys
    ensures forall x, y :: Edge(Linked(g, a, b), x, y) <==> Edge(g, x, y) || (x == a && y == b)
  {
    hide Linked;
    var h := Linked(g, a, b);
    LinkedKeys(g, a, b);
    forall x | x in g
      ensures h[x].children == g[x].children + (if x == a then {b} else {})
      ensures h[x].parents == g[x].parents + (if x == b then {a} else {})
    {
      LinkedAdjacency(g, a, b, x);
    }
  }

  lemma UnlinkedEdges(g: Neighbours, a: Label, b: Label)
    requires WellFormed(g) && a in g && b in g
    ensures WellFormed(Unlinked(g, a, b)) && Unlinked(g, a, b).Keys == g.Keys
    ensures forall x, y :: Edge(Unlinked(g, a, b), x, y) <==> Edge(g, x, y) && !(x == a && y == b)
  {
    var h := Unlinked(g, a, b);
    assert h.Keys == g.Keys;
    forall x | x in g
      ensures h[x].children == g[x].children - (if x == a then {b} else {})
      ensures h[x].parents == g[x].parents - (if x == b then {a} else {})
    {
      LinkedAdjacency(g, a, b, x);
    }
  }

  /** `prev` loses its outgoing edges, and the far ends forget it. */
  function Detached(g: Neighbours, prev: Label): Neighbours
    requires prev in g
  {
    var h := g[prev := g[prev].(children := {})];
    map l | l in h :: if l in g[prev].children then h[l].(parents := h[l].parents - {prev}) else h[l]
  }

  lemma DetachedEdges(g: Neighbours, prev: Label)
    requires WellFormed(g) && prev in g
    ensures WellFormed(Detached(g, prev)) && Detached(g, prev).Keys == g.Keys
    ensures forall x, y :: Edge(Detached(g, prev), x, y) <==> Edge(g, x, y) && x != prev
  {
    var h := Detached(g, prev);
    assert h.Keys == g.Keys;
    forall x | x in g
      ensures h[x].children == if x == prev then {} else g[x].children
      ensures h[x].parents == g[x].parents - {prev}
    {
      assert prev in g[x].parents ==> x in g[prev].children;
    }
  }

  /** The control-flow graph object. */
  class Cfg {
    var neighbours: Neighbours

    ghost predicate Valid()
      reads this
    {
      WellFormed(neighbours)
    }

    constructor ()
      ensures Valid()
      ensures neighbours == map[ENTRY := Adjacent({}, {}), EXIT := Adjacent({}, {})]
    {
      neighbours := map[ENTRY := Adjacent({}, {}), EXIT := Adjacent({}, {})];
    }

    /** Adds a node without edges. */
    method Insert(node: Label)
      requires Valid() && node !in neighbours
      modifies this
      ensures Valid()
      ensures neighbours == old(neighbours)[node := Adjacent({}, {})]
    {
      neighbours := neighbours[node := Adjacent({}, {})];
    }

    /** Adds the edge a -> b; the two asserts of the source are the preconditions. */
    method AddChild(a: Label, b: Label)
      requires Valid() && a in neighbours && b in neighbours
      requires b != ENTRY && a != EXIT
      modifies this
      ensures Valid()
      ensures neighbours.Keys == old(neighbours).Keys
      ensures forall x, y :: Edge(neighbours, x, y) <==> Edge(old(neighbours), x, y) || (x == a && y == b)
    {
      LinkedEdges(neighbours, a, b);
      neighbours := neighbours[a := neighbours[a].(children := neighbours[a].children + {b})];
      neighbours := neighbours[b := neighbours[b].(parents := neighbours[b].parents + {a})];
    }

    /** Removes the edge a -> b if it is there. */
    method RemoveChild(a: Label, b: Label)
      requires Valid() && a in neighbours && b in neighbours
      modifies this
      ensures Valid()
      ensures neighbours.Keys == old(neighbours).Keys
      ensures forall x, y :: Edge(neighbours, x, y) <==> Edge(old(neighbours), x, y) && !(x == a && y == b)
    {
      UnlinkedEdges(neighbours, a, b);
      neighbours := neighbours[a := neighbours[a].(children := neighbours[a].children - {b})];
      neighbours := neighbours[b := neighbours[b].(parents := neighbours[b].parents - {a})];
    }

    /** Splices a new node into all outgoing edges of `prev`. */
    method InsertAfter(prev: Label, newLabel: Label)
      requires Valid() && prev in neighbours && newLabel !in neighbours
      modifies this
      ensures Valid()
      ensures neighbours.Keys == old(neighbours).Keys + {newLabel}
      // prev keeps only the new node, and only if it had a child at all
      ensures forall y :: Edge(neighbours, prev, y) <==> y == newLabel && old(neighbours)[prev].children != {}
      ensures forall y :: Edge(neighbours, newLabel, y) <==> y in old(neighbours)[prev].children
      ensures forall x, y :: x != prev && x != newLabel ==>
        (Edge(neighbours, x, y) <==> Edge(old(neighbours), x, y))
    {
      DetachedEdges(neighbours, prev);
      var prevChildren := neighbours[prev].children;
      neighbours := neighbours[prev := neighbours[prev].(children := {})];
      neighbours := map l | l in neighbours ::
        if l in prevChildren then neighbours[l].(parents := neighbours[l].parents - {prev}) else neighbours[l];
      ghost var cut := neighbours;
      assert cut == Detached(old(neighbours), prev);
      Insert(newLabel);
      Rewire(prev, newLabel, prevChildren);
    }

    /** The loop of the splice: prev -> new node -> each former child. */
    method Rewire(prev: Label, newLabel: Label, prevChildren: set<Label>)
      requires Valid() && prev in neighbours && newLabel in neighbours && prevChildren <= neighbours.Keys
      requires prev != newLabel && newLabel != ENTRY && newLabel != EXIT
      requires prevChildren != {} ==> prev != EXIT
      requires ENTRY !in prevChildren
      modifies this
      ensures Valid()
      ensures neighbours.Keys == old(neighbours).Keys
      ensures forall x, y :: Edge(neighbours, x, y) <==>
        || Edge(old(neighbours), x, y)
        || (x == prev && y == newLabel && prevChildren != {})
        || (x == newLabel && y in prevChildren)
    {
      var todo := prevChildren;
      while todo != {}
        invariant todo <= prevChildren
        invariant Valid() && neighbours.Keys == old(neighbours).Keys
        invariant forall x, y :: Edge(neighbours, x, y) <==>
          || Edge(old(neighbours), x, y)
          || (x == prev && y == newLabel && todo != prevChildren)
          || (x == newLabel && y in prevChildren && y !in todo)
      {
        var child :| child in todo;
        AddChild(prev, newLabel);
        AddChild(newLabel, child);
        todo := todo - {child};
      }
    }
  }
}
