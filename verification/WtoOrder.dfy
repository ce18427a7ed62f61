/**
  The order in which the builder places labels: no child is lost, every edge goes forward or to an
  enclosing head, and the members of a finished cycle are strongly connected.
*/
module WtoOrder {
  import opened Wrappers
  import opened Graph
  import opened WtoControl
  import opened WtoPlace
  import opened WtoLayout

  ghost predicate OpenHead(hs: seq<Kind>, l: Label) {
    exists i :: 0 <= i < |hs| && hs[i].Heading? && hs[i].vertex == l
  }

  /** Done vertices are the placed ones and the heads still open. */
  ghost predicate Accounted(vd: Marks, hs: seq<Kind>, order: seq<Label>) {
    && (forall l :: Done(vd, l) <==> l in order || OpenHead(hs, l))
    && (forall l :: l in order ==> !OpenHead(hs, l))
    && Distinct(order)
  }

  ghost predicate ChildrenDone(g: Neighbours, vd: Marks, order: seq<Label>) {
    forall u, y :: u in order && Edge(g, u, y) ==> Done(vd, y)
  }

  /** `y` heads a cycle that holds `u`. */
  ghost predicate HeadAround(lay: Layout, heads: seq<Label>, y: Label, u: Label) {
    exists c :: 0 <= c < |heads| && heads[c] == y && InCycle(lay, c, u)
  }

  ghost predicate EdgeForward(lay: Layout, heads: seq<Label>, order: seq<Label>, i: nat, y: Label)
    requires i < |order|
  {
    y in order[..i] || HeadAround(lay, heads, y, order[i])
  }

  ghost predicate EdgesForward(g: Neighbours, lay: Layout, heads: seq<Label>, order: seq<Label>) {
    forall i, y :: 0 <= i < |order| && Edge(g, order[i], y) ==> EdgeForward(lay, heads, order, i, y)
  }

  ghost function Members(lay: Layout, order: seq<Label>, c: nat): set<Label> {
    set l | l in order && InCycle(lay, c, l)
  }

  /** What an open cycle has collected so far is what was set aside for it. */
  ghost predicate OpenMembers(lay: Layout, hs: seq<Kind>, order: seq<Label>) {
    forall k, l :: 0 <= k < |hs| && hs[k].Heading? && l in order ==> (l in hs[k].rest <==> InCycle(lay, hs[k].cycle, l))
  }

  ghost predicate ClosedConnected(g: Neighbours, lay: Layout, hs: seq<Kind>, order: seq<Label>, heads: seq<Label>) {
    forall d :: 0 <= d < |heads| && !IsOpen(hs, d) ==> StronglyConnected(g, heads[d], Members(lay, order, d))
  }

  /** The head of a finished cycle is placed after everything else in it. */
  ghost predicate HeadsLast(lay: Layout, hs: seq<Kind>, order: seq<Label>, heads: seq<Label>) {
    forall d, i :: 0 <= d < |heads| && !IsOpen(hs, d) && 0 <= i < |order| && InCycle(lay, d, order[i]) ==> heads[d] in order[i..]
  }

  ghost predicate Ordered(g: Neighbours, vd: Marks, lay: Layout, hs: seq<Kind>, order: seq<Label>, heads: seq<Label>) {
    && Accounted(vd, hs, order)
    && ChildrenDone(g, vd, order)
    && EdgesForward(g, lay, heads, order)
    && OpenMembers(lay, hs, order)
    && ClosedConnected(g, lay, hs, order, heads)
    && HeadsLast(lay, hs, order, heads)
  }

  /** Placed labels keep their home when a step adds to the layout. */
  ghost predicate Extends(lay: Layout, lay': Layout, order: seq<Label>) {
    && SameParents(lay.cycles, lay'.cycles)
    && (forall l :: l in order ==> Home(lay', l) == Home(lay, l) && ValidScope(lay, Home(lay, l)))
  }

  lemma InCycleKept(lay: Layout, lay': Layout, order: seq<Label>, c: nat, l: Label)
    requires Extends(lay, lay', order) && l in order
    ensures InCycle(lay', c, l) == InCycle(lay, c, l)
  {
    hide Encloses;
    assert Home(lay', l) == Home(lay, l);
    if l in lay.containing {
      EnclosesSame(lay.cycles, lay'.cycles, c, lay.containing[l]);
    }
  }

  lemma EdgesKept(g: Neighbours, lay: Layout, lay': Layout, heads: seq<Label>, heads': seq<Label>, order: seq<Label>, i: nat, y: Label)
    requires Extends(lay, lay', order) && heads <= heads'
    requires i < |order| && EdgeForward(lay, heads, order, i, y)
    ensures EdgeForward(lay', heads', order, i, y)
  {
    hide InCycle;
    if y !in order[..i] {
      var c :| 0 <= c < |heads| && heads[c] == y && InCycle(lay, c, order[i]);
      InCycleKept(lay, lay', order, c, order[i]);
      assert heads'[c] == y;
    }
  }

  /** One more placed label whose own edges are in order. */
  lemma EdgesExtended(g: Neighbours, lay: Layout, lay': Layout, heads: seq<Label>, order: seq<Label>, u: Label)
    requires EdgesForward(g, lay, heads, order) && Extends(lay, lay', order)
    requires forall y :: Edge(g, u, y) ==> y in order || HeadAround(lay', heads, y, u)
    ensures EdgesForward(g, lay', heads, order + [u])
  {
    hide HeadAround;
    var order' := order + [u];
    forall i, y | 0 <= i < |order'| && Edge(g, order'[i], y)
      ensures EdgeForward(lay', heads, order', i, y)
    {
      if i < |order| {
        assert EdgeForward(lay, heads, order, i, y);
        EdgesKept(g, lay, lay', heads, heads, order, i, y);
        assert order'[..i] == order[..i];
      } else {
        assert order'[..i] == order;
      }
    }
  }

  // ------------------------------------------------------------------ placing a label

  /** What the placing steps need from the search. */
  ghost predicate Placing(g: Neighbours, vd: Marks, vd': Marks, u: Label) {
    && (forall l :: Done(vd', l) <==> Done(vd, l) || l == u)
    && !Done(vd, u)
  }

  lemma PlaceAccounted(vd: Marks, vd': Marks, g: Neighbours, hs: seq<Kind>, order: seq<Label>, u: Label)
    requires Accounted(vd, hs, order) && Placing(g, vd, vd', u)
    ensures Accounted(vd', hs, order + [u])
    ensures u !in order && !OpenHead(hs, u)
  {
    hide OpenHead, Done;
  }

  lemma PlacedInCycle(lay: Layout, hs: seq<Kind>, heads: seq<Label>, u: Label, c: nat)
    requires Chain(hs, lay.cycles, heads) && AllHeadings(hs) && Home(lay, u) == ScopeAt(hs, |hs|)
    ensures InCycle(lay, c, u) <==> IsOpen(hs, c)
  {
    hide Chain, Encloses;
    if |hs| > 0 {
      OpenEncloses(hs, lay.cycles, heads, c, |hs| - 1);
      OpenUpToAll(hs, c);
    }
  }

  lemma OpenUpToAll(hs: seq<Kind>, c: nat)
    requires |hs| > 0
    ensures OpenUpTo(hs, |hs| - 1, c) <==> IsOpen(hs, c)
  {
    if IsOpen(hs, c) {
      var j :| 0 <= j < |hs| && hs[j].Heading? && hs[j].cycle == c;
      assert 0 <= j <= |hs| - 1;
    }
  }

  lemma HeadAroundOpen(lay: Layout, hs: seq<Kind>, heads: seq<Label>, y: Label, u: Label)
    requires Chain(hs, lay.cycles, heads) && AllHeadings(hs) && Home(lay, u) == ScopeAt(hs, |hs|)
    requires OpenHead(hs, y)
    ensures HeadAround(lay, heads, y, u)
  {
    hide Encloses, InCycle;
    var i :| 0 <= i < |hs| && hs[i].Heading? && hs[i].vertex == y;
    assert ChainLinked(hs, lay.cycles, heads, i);
    PlacedInCycle(lay, hs, heads, u, hs[i].cycle);
    assert IsOpen(hs, hs[i].cycle);
  }

  lemma MembersKept(lay: Layout, lay': Layout, order: seq<Label>, u: Label, c: nat)
    requires Extends(lay, lay', order) && !InCycle(lay', c, u)
    ensures Members(lay', order + [u], c) == Members(lay, order, c)
  {
    hide InCycle;
    forall l | l in order ensures InCycle(lay', c, l) == InCycle(lay, c, l) {
      InCycleKept(lay, lay', order, c, l);
    }
  }

  lemma PlaceConnected(g: Neighbours, lay: Layout, lay': Layout, hs: seq<Kind>, order: seq<Label>, heads: seq<Label>, u: Label)
    requires ClosedConnected(g, lay, hs, order, heads) && Extends(lay, lay', order)
    requires Chain(hs, lay'.cycles, heads) && AllHeadings(hs) && Home(lay', u) == ScopeAt(hs, |hs|)
    ensures ClosedConnected(g, lay', hs, order + [u], heads)
  {
    hide InCycle, Chain, IsOpen, Members, StronglyConnected, Extends, ScopeAt;
    forall d | 0 <= d < |heads| && !IsOpen(hs, d)
      ensures StronglyConnected(g, heads[d], Members(lay', order + [u], d))
    {
      PlacedInCycle(lay', hs, heads, u, d);
      MembersKept(lay, lay', order, u, d);
    }
  }

  lemma PlaceMembers(lay: Layout, lay': Layout, hs: seq<Kind>, order: seq<Label>, heads: seq<Label>, u: Label)
    requires OpenMembers(lay, hs, order) && Extends(lay, lay', order)
    requires Chain(hs, lay'.cycles, heads) && AllHeadings(hs) && Home(lay', u) == ScopeAt(hs, |hs|)
    requires forall k :: 0 <= k < |hs| ==> u in hs[k].rest
    ensures OpenMembers(lay', hs, order + [u])
  {
    hide InCycle, Chain, Extends, ScopeAt;
    forall k, l | 0 <= k < |hs| && hs[k].Heading? && l in order + [u]
      ensures l in hs[k].rest <==> InCycle(lay', hs[k].cycle, l)
    {
      if l == u {
        PlacedInCycle(lay', hs, heads, u, hs[k].cycle);
        assert IsOpen(hs, hs[k].cycle);
      } else {
        InCycleKept(lay, lay', order, hs[k].cycle, l);
      }
    }
  }

  lemma PlaceKeepsOrdered(g: Neighbours, vd: Marks, vd': Marks, lay: Layout, lay': Layout, hs: seq<Kind>,
      order: seq<Label>, heads: seq<Label>, u: Label)
    requires Ordered(g, vd, lay, hs, order, heads) && Placing(g, vd, vd', u)
    requires Extends(lay, lay', order)
    requires Chain(hs, lay'.cycles, heads) && AllHeadings(hs) && Home(lay', u) == ScopeAt(hs, |hs|)
    requires forall y :: Edge(g, u, y) ==> Done(vd, y)
    requires forall k :: 0 <= k < |hs| ==> u in hs[k].rest
    ensures Ordered(g, vd', lay', hs, order + [u], heads)
    ensures u !in order && !OpenHead(hs, u)
  {
    hide InCycle, Chain, IsOpen, Members, OpenHead, HeadAround, StronglyConnected, EdgesForward, OpenMembers, ClosedConnected, HeadsLast;
    hide Extends, ScopeAt, Done, Distinct;
    forall y | Edge(g, u, y) ensures y in order || HeadAround(lay', heads, y, u) {
      if y !in order {
        HeadAroundOpen(lay', hs, heads, y, u);
      }
    }
    PlaceAccounted(vd, vd', g, hs, order, u);
    EdgesExtended(g, lay, lay', heads, order, u);
    PlaceMembers(lay, lay', hs, order, heads, u);
    PlaceConnected(g, lay, lay', hs, order, heads, u);
    PlaceHeadsLast(lay, lay', hs, order, heads, u);
  }

  lemma PlaceHeadsLast(lay: Layout, lay': Layout, hs: seq<Kind>, order: seq<Label>, heads: seq<Label>, u: Label)
    requires HeadsLast(lay, hs, order, heads) && Extends(lay, lay', order)
    requires Chain(hs, lay'.cycles, heads) && AllHeadings(hs) && Home(lay', u) == ScopeAt(hs, |hs|)
    ensures HeadsLast(lay', hs, order + [u], heads)
  {
    hide InCycle, Chain, IsOpen, Extends, ScopeAt;
    var order' := order + [u];
    forall d, i | 0 <= d < |heads| && !IsOpen(hs, d) && 0 <= i < |order'| && InCycle(lay', d, order'[i])
      ensures heads[d] in order'[i..]
    {
      PlacedInCycle(lay', hs, heads, u, d);
      assert i < |order| && order'[i] == order[i];
      InCycleKept(lay, lay', order, d, order[i]);
      assert order'[i..] == order[i..] + [u];
    }
  }

  // ------------------------------------------------------------------ opening a cycle

  lemma OpenHeadSet(hs: seq<Kind>, h: Kind)
    requires h.Heading?
    ensures forall l :: OpenHead(hs + [h], l) <==> OpenHead(hs, l) || l == h.vertex
  {
    var hs' := hs + [h];
    forall l | OpenHead(hs, l) || l == h.vertex ensures OpenHead(hs', l) {
      if l == h.vertex {
        assert hs'[|hs|] == h;
      } else {
        var i :| 0 <= i < |hs| && hs[i].Heading? && hs[i].vertex == l;
        assert hs'[i].vertex == l;
      }
    }
  }

  lemma OpenAccounted(g: Neighbours, vd: Marks, vd': Marks, hs: seq<Kind>, order: seq<Label>, h: Kind)
    requires h.Heading? && Accounted(vd, hs, order) && Placing(g, vd, vd', h.vertex)
    ensures Accounted(vd', hs + [h], order)
  {
    hide OpenHead, Done, Distinct;
    OpenHeadSet(hs, h);
  }

  lemma NewCycleEmpty(lay: Layout, lay': Layout, order: seq<Label>, l: Label)
    requires Extends(lay, lay', order) && l in order
    ensures !InCycle(lay', |lay.cycles|, l)
  {
    if l in lay'.containing && Encloses(lay'.cycles, |lay.cycles|, lay'.containing[l]) {
      assert Home(lay', l) == Home(lay, l);
      EnclosesSmaller(lay'.cycles, |lay.cycles|, lay'.containing[l]);
    }
  }

  lemma OpenMembersStep(lay: Layout, lay': Layout, hs: seq<Kind>, order: seq<Label>, h: Kind)
    requires h.Heading? && OpenMembers(lay, hs, order) && Extends(lay, lay', order)
    requires h.cycle == |lay.cycles|
    requires forall l :: l in order ==> l !in h.rest
    ensures OpenMembers(lay', hs + [h], order)
  {
    hide InCycle, Extends;
    var hs' := hs + [h];
    forall k, l | 0 <= k < |hs'| && hs'[k].Heading? && l in order
      ensures l in hs'[k].rest <==> InCycle(lay', hs'[k].cycle, l)
    {
      if k < |hs| {
        assert hs'[k] == hs[k];
        InCycleKept(lay, lay', order, hs[k].cycle, l);
      } else {
        NewCycleEmpty(lay, lay', order, l);
      }
    }
  }

  lemma MembersSame(lay: Layout, lay': Layout, order: seq<Label>, c: nat)
    requires Extends(lay, lay', order)
    ensures Members(lay', order, c) == Members(lay, order, c)
  {
    hide InCycle, Extends;
    forall l | l in order ensures InCycle(lay', c, l) == InCycle(lay, c, l) {
      InCycleKept(lay, lay', order, c, l);
    }
  }

  lemma OpenConnected(g: Neighbours, lay: Layout, lay': Layout, hs: seq<Kind>, order: seq<Label>, heads: seq<Label>, h: Kind)
    requires h.Heading? && ClosedConnected(g, lay, hs, order, heads) && Extends(lay, lay', order)
    requires h.cycle == |heads|
    ensures ClosedConnected(g, lay', hs + [h], order, heads + [h.vertex])
  {
    hide IsOpen, Members, StronglyConnected, Extends;
    OpenSet(hs, h);
    forall d | 0 <= d < |heads + [h.vertex]| && !IsOpen(hs + [h], d)
      ensures StronglyConnected(g, (heads + [h.vertex])[d], Members(lay', order, d))
    {
      assert d < |heads| && !IsOpen(hs, d);
      MembersSame(lay, lay', order, d);
    }
  }

  lemma OpenKeepsOrdered(g: Neighbours, vd: Marks, vd': Marks, lay: Layout, lay': Layout, hs: seq<Kind>,
      order: seq<Label>, heads: seq<Label>, h: Kind)
    requires Ordered(g, vd, lay, hs, order, heads) && h.Heading? && Placing(g, vd, vd', h.vertex)
    requires Extends(lay, lay', order)
    requires h.cycle == |lay.cycles| == |heads|
    requires forall l :: l in h.rest ==> !Done(vd, l)
    ensures Ordered(g, vd', lay', hs + [h], order, heads + [h.vertex])
  {
    hide InCycle, IsOpen, Members, OpenHead, StronglyConnected, OpenMembers, ClosedConnected, EdgeForward, Extends, Done, Distinct;
    hide HeadsLast;
    OpenAccounted(g, vd, vd', hs, order, h);
    OpenMembersStep(lay, lay', hs, order, h);
    OpenConnected(g, lay, lay', hs, order, heads, h);
    OpenHeadsLast(lay, lay', hs, order, heads, h);
    forall i, y | 0 <= i < |order| && Edge(g, order[i], y)
      ensures EdgeForward(lay', heads + [h.vertex], order, i, y)
    {
      assert EdgeForward(lay, heads, order, i, y);
      EdgesKept(g, lay, lay', heads, heads + [h.vertex], order, i, y);
    }
  }

  lemma OpenHeadsLast(lay: Layout, lay': Layout, hs: seq<Kind>, order: seq<Label>, heads: seq<Label>, h: Kind)
    requires h.Heading? && HeadsLast(lay, hs, order, heads) && Extends(lay, lay', order)
    requires h.cycle == |heads|
    ensures HeadsLast(lay', hs + [h], order, heads + [h.vertex])
  {
    hide IsOpen, InCycle, Extends;
    OpenSet(hs, h);
    forall d, i | 0 <= d < |heads + [h.vertex]| && !IsOpen(hs + [h], d) && 0 <= i < |order| && InCycle(lay', d, order[i])
      ensures (heads + [h.vertex])[d] in order[i..]
    {
      InCycleKept(lay, lay', order, d, order[i]);
      assert d < |heads| && !IsOpen(hs, d);
    }
  }

  // ------------------------------------------------------------------ closing a cycle

  lemma CloseHeadsLast(lay: Layout, lay': Layout, hs: seq<Kind>, h: Kind, order: seq<Label>, heads: seq<Label>)
    requires h.Heading? && HeadsLast(lay, hs + [h], order, heads) && Extends(lay, lay', order)
    requires Chain(hs + [h], lay'.cycles, heads) && AllHeadings(hs + [h]) && Home(lay', h.vertex) == Some(h.cycle)
    requires h.cycle < |heads| && heads[h.cycle] == h.vertex
    ensures HeadsLast(lay', hs, order + [h.vertex], heads)
  {
    hide IsOpen, Extends, Chain, InCycle;
    OpenSet(hs, h);
    var order' := order + [h.vertex];
    forall d, i | 0 <= d < |heads| && !IsOpen(hs, d) && 0 <= i < |order'| && InCycle(lay', d, order'[i])
      ensures heads[d] in order'[i..]
    {
      assert order'[i..] == order'[i..|order|] + [h.vertex];
      if d != h.cycle {
        PlacedInCycle(lay', hs + [h], heads, h.vertex, d);
        assert i < |order| && order'[i] == order[i];
        InCycleKept(lay, lay', order, d, order[i]);
        assert order'[i..] == order[i..] + [h.vertex];
      }
    }
  }

  lemma CloseAccounted(vd: Marks, hs: seq<Kind>, order: seq<Label>, h: Kind)
    requires h.Heading? && Accounted(vd, hs + [h], order) && !OpenHead(hs, h.vertex)
    ensures Accounted(vd, hs, order + [h.vertex])
    ensures h.vertex !in order
  {
    hide OpenHead, Done;
    OpenHeadSet(hs, h);
    assert OpenHead(hs + [h], h.vertex);
  }

  /** The members of a cycle that closes: its head and everything set aside for it. */
  lemma CloseMembersOf(lay: Layout, lay': Layout, hs: seq<Kind>, h: Kind, order: seq<Label>)
    requires h.Heading? && OpenMembers(lay, hs + [h], order) && Extends(lay, lay', order)
    requires Home(lay', h.vertex) == Some(h.cycle) && h.vertex !in h.rest
    requires forall l :: l in h.rest ==> l in order
    ensures Members(lay', order + [h.vertex], h.cycle) == Region(h.vertex, h.rest)
  {
    hide Encloses, Extends;
    forall l | l in order ensures InCycle(lay', h.cycle, l) <==> l in h.rest {
      InCycleKept(lay, lay', order, h.cycle, l);
      assert (hs + [h])[|hs|] == h;
    }
    SelfInCycle(lay', h.vertex);
  }

  lemma SelfInCycle(lay: Layout, l: Label)
    requires Home(lay, l).Some?
    ensures InCycle(lay, Home(lay, l).value, l)
  {
  }

  lemma CloseConnected(g: Neighbours, lay: Layout, lay': Layout, hs: seq<Kind>, h: Kind, order: seq<Label>, heads: seq<Label>)
    requires h.Heading? && ClosedConnected(g, lay, hs + [h], order, heads) && Extends(lay, lay', order)
    requires Chain(hs + [h], lay'.cycles, heads) && AllHeadings(hs + [h]) && Home(lay', h.vertex) == Some(h.cycle)
    requires h.cycle < |heads| && heads[h.cycle] == h.vertex
    requires Members(lay', order + [h.vertex], h.cycle) == Region(h.vertex, h.rest)
    requires StronglyConnected(g, h.vertex, Region(h.vertex, h.rest))
    ensures ClosedConnected(g, lay', hs, order + [h.vertex], heads)
  {
    hide IsOpen, Members, StronglyConnected, Extends, Chain, InCycle;
    OpenSet(hs, h);
    forall d | 0 <= d < |heads| && !IsOpen(hs, d)
      ensures StronglyConnected(g, heads[d], Members(lay', order + [h.vertex], d))
    {
      if d != h.cycle {
        assert !IsOpen(hs + [h], d);
        PlacedInCycle(lay', hs + [h], heads, h.vertex, d);
        MembersKept(lay, lay', order, h.vertex, d);
      }
    }
  }

  lemma CloseMembersStep(lay: Layout, lay': Layout, hs: seq<Kind>, h: Kind, order: seq<Label>, heads: seq<Label>)
    requires h.Heading? && OpenMembers(lay, hs + [h], order) && Extends(lay, lay', order)
    requires Chain(hs + [h], lay'.cycles, heads) && AllHeadings(hs + [h]) && Home(lay', h.vertex) == Some(h.cycle)
    requires forall k :: 0 <= k < |hs| && hs[k].Heading? ==> h.vertex in hs[k].rest
    ensures OpenMembers(lay', hs, order + [h.vertex])
  {
    hide InCycle, Chain, Extends;
    var hs' := hs + [h];
    forall k, l | 0 <= k < |hs| && hs[k].Heading? && l in order + [h.vertex]
      ensures l in hs[k].rest <==> InCycle(lay', hs[k].cycle, l)
    {
      assert hs'[k] == hs[k];
      if l == h.vertex {
        PlacedInCycle(lay', hs', heads, l, hs[k].cycle);
        assert IsOpen(hs', hs'[k].cycle);
      } else {
        InCycleKept(lay, lay', order, hs[k].cycle, l);
      }
    }
  }

  lemma CloseKeepsOrdered(g: Neighbours, vd: Marks, lay: Layout, lay': Layout, hs: seq<Kind>, h: Kind,
      order: seq<Label>, heads: seq<Label>)
    requires h.Heading? && Ordered(g, vd, lay, hs + [h], order, heads)
    requires Extends(lay, lay', order)
    requires Chain(hs + [h], lay'.cycles, heads) && AllHeadings(hs + [h]) && Home(lay', h.vertex) == Some(h.cycle)
    requires h.cycle < |heads| && heads[h.cycle] == h.vertex
    requires forall y :: Edge(g, h.vertex, y) ==> Done(vd, y)
    requires forall k :: 0 <= k < |hs| && hs[k].Heading? ==> h.vertex in hs[k].rest
    requires h.vertex !in h.rest && !OpenHead(hs, h.vertex)
    requires forall l :: l in h.rest ==> l in order
    requires StronglyConnected(g, h.vertex, Region(h.vertex, h.rest))
    ensures Ordered(g, vd, lay', hs, order + [h.vertex], heads)
    ensures h.vertex !in order
  {
    hide InCycle, Chain, IsOpen, Members, OpenHead, HeadAround, StronglyConnected, EdgesForward, OpenMembers, ClosedConnected, HeadsLast;
    hide Extends, Done, Distinct;
    assert (hs + [h])[|hs|] == h;
    forall y | Edge(g, h.vertex, y) ensures y in order || HeadAround(lay', heads, y, h.vertex) {
      if y !in order {
        HeadAroundOpen(lay', hs + [h], heads, y, h.vertex);
      }
    }
    CloseAccounted(vd, hs, order, h);
    EdgesExtended(g, lay, lay', heads, order, h.vertex);
    CloseMembersStep(lay, lay', hs, h, order, heads);
    CloseMembersOf(lay, lay', hs, h, order);
    CloseConnected(g, lay, lay', hs, h, order, heads);
    CloseHeadsLast(lay, lay', hs, h, order, heads);
  }

  /** When the pending tasks of an open cycle are done, everything set aside for it has been placed. */
  lemma RestPlaced(g: Neighbours, vd: Marks, num: nat, fs: seq<Frame>, hs: seq<Kind>, order: seq<Label>, x: Label)
    requires |fs| > 0 && Control(g, vd, num, fs) && Top(fs).kind.Heading? && Top(fs).pending == []
    requires Accounted(vd, hs, order) && ChildrenDone(g, vd, order)
    requires forall l :: l in Top(fs).kind.rest ==> !OpenHead(hs, l)
    requires x in Top(fs).kind.rest
    ensures x in order
  {
    hide Control, Accounted, ChildrenDone, Walk, OpenHead;
    RestReached(g, vd, num, fs, x);
    var f := Top(fs).kind;
    var p :| WalkIn(g, Region(f.vertex, f.rest), f.vertex, x, p);
    WalkEnds(g, Region(f.vertex, f.rest), f.vertex, x, p);
    WalkPlaced(g, vd, num, fs, hs, order, x, p, |p| - 1);
    DonePlaced(vd, hs, order, x);
  }

  lemma WalkEnds(g: Neighbours, members: set<Label>, a: Label, b: Label, p: seq<Label>)
    requires WalkIn(g, members, a, b, p)
    ensures |p| > 0 && p[|p| - 1] == b
  {
  }

  lemma DonePlaced(vd: Marks, hs: seq<Kind>, order: seq<Label>, x: Label)
    requires Accounted(vd, hs, order) && Done(vd, x) && !OpenHead(hs, x)
    ensures x in order
  {
  }

  lemma RestReached(g: Neighbours, vd: Marks, num: nat, fs: seq<Frame>, x: Label)
    requires Control(g, vd, num, fs) && Top(fs).kind.Heading? && x in Top(fs).kind.rest
    ensures From(g, Region(Top(fs).kind.vertex, Top(fs).kind.rest), Top(fs).kind.vertex, x)
    ensures Done(vd, Top(fs).kind.vertex)
  {
    hide Stack, StackMarks, VisitingInv, PendingInv, FramesInv, NestedFrames, WalkIn;
    TopFrame(g, vd, num, fs);
  }

  lemma {:induction false} WalkPlaced(g: Neighbours, vd: Marks, num: nat, fs: seq<Frame>, hs: seq<Kind>, order: seq<Label>,
      x: Label, p: seq<Label>, i: nat)
    requires |fs| > 0 && Control(g, vd, num, fs) && Top(fs).kind.Heading? && Top(fs).pending == []
    requires Accounted(vd, hs, order) && ChildrenDone(g, vd, order)
    requires forall l :: l in Top(fs).kind.rest ==> !OpenHead(hs, l)
    requires x in Top(fs).kind.rest
    requires WalkIn(g, Region(Top(fs).kind.vertex, Top(fs).kind.rest), Top(fs).kind.vertex, x, p) && i < |p|
    ensures Done(vd, p[i])
    decreases i
  {
    hide FramesInv, NestedFrames, StackMarks, Shape, Accounted, OpenHead, Done, Closed, Stack;
    var f := Top(fs).kind;
    if i == 0 {
      RestReached(g, vd, num, fs, x);
    } else {
      WalkPlaced(g, vd, num, fs, hs, order, x, p, i - 1);
      assert Edge(g, p[i - 1], p[i]);
      if p[i - 1] == f.vertex {
        FinishedHead(g, vd, num, fs, p[i]);
      } else {
        assert p[i - 1] in Region(f.vertex, f.rest);
        DonePlaced(vd, hs, order, p[i - 1]);
      }
    }
  }
}
