/** The two work-stack searches over a finished ordering (src/cfg/wto.rs:68-123). */
module WtoQuery {
  import opened Graph
  import opened WtoTree
  import opened WtoShape

  /** Every cycle, at any depth, starts with a vertex. */
  ghost predicate Headed(c: CycleOrLabel) {
    match c
    case Node(_) => true
    case Nested(w) => HasHead(w) && forall i :: 0 <= i < |w.components| ==> Headed(w.components[i])
  }

  ghost predicate AllHeaded(cs: seq<CycleOrLabel>) {
    forall i :: 0 <= i < |cs| ==> Headed(cs[i])
  }

  ghost function Size(cs: seq<CycleOrLabel>): nat {
    if cs == [] then 0 else Size(cs[..|cs| - 1]) + SizeOne(cs[|cs| - 1])
  }

  ghost function SizeOne(c: CycleOrLabel): nat {
    match c
    case Node(_) => 1
    case Nested(w) => 1 + Size(w.components)
  }

  ghost predicate Held(l: Label, cs: seq<CycleOrLabel>) {
    exists i :: 0 <= i < |cs| && l in FlattenOne(cs[i])
  }

  lemma {:induction false} FlattenIsHeld(l: Label, cs: seq<CycleOrLabel>)
    ensures l in Flatten(cs) <==> Held(l, cs)
  {
    if cs != [] {
      var z := |cs| - 1;
      FlattenIsHeld(l, cs[..z]);
      if Held(l, cs) {
        var i :| 0 <= i < |cs| && l in FlattenOne(cs[i]);
        if i < z {
          assert l in FlattenOne(cs[..z][i]);
        }
      }
      if Held(l, cs[..z]) {
        var i :| 0 <= i < z && l in FlattenOne(cs[..z][i]);
        assert l in FlattenOne(cs[i]);
      }
    }
  }

  lemma HeldSnoc(l: Label, cs: seq<CycleOrLabel>, c: CycleOrLabel)
    ensures Held(l, cs + [c]) <==> Held(l, cs) || l in FlattenOne(c)
  {
    FlattenIsHeld(l, cs + [c]);
    FlattenIsHeld(l, cs);
    assert (cs + [c])[..|cs|] == cs;
  }

  lemma SizeSnoc(cs: seq<CycleOrLabel>, c: CycleOrLabel)
    ensures Size(cs + [c]) == Size(cs) + SizeOne(c)
  {
    assert (cs + [c])[..|cs|] == cs;
  }

  lemma WalkableHeaded(g: Neighbours, c: CycleOrLabel)
    requires Walkable(g, c)
    ensures Headed(c)
  {
  }

  /** Pushes the parts of a cycle in forward order, the head first. */
  method PushParts(stack: seq<CycleOrLabel>, parts: seq<CycleOrLabel>, ghost l: Label) returns (r: seq<CycleOrLabel>)
    requires AllHeaded(stack) && AllHeaded(parts)
    ensures AllHeaded(r)
    ensures Size(r) == Size(stack) + Size(parts)
    ensures Held(l, r) <==> Held(l, stack) || Held(l, parts)
  {
    hide Size, Held, Headed;
    r := stack;
    var i := |parts|;
    assert parts[..i] == parts;
    NothingHeld(l);
    while i > 0
      invariant 0 <= i <= |parts| && AllHeaded(r)
      invariant Size(r) + Size(parts[..i]) == Size(stack) + Size(parts)
      invariant Held(l, r) || Held(l, parts[..i]) <==> Held(l, stack) || Held(l, parts)
    {
      i := i - 1;
      HeldSnoc(l, r, parts[i]);
      SizeSnoc(r, parts[i]);
      assert parts[..i + 1] == parts[..i] + [parts[i]];
      HeldSnoc(l, parts[..i], parts[i]);
      SizeSnoc(parts[..i], parts[i]);
      r := r + [parts[i]];
    }
    assert parts[..0] == [];
  }

  lemma NothingHeld(l: Label)
    ensures !Held(l, []) && Size([]) == 0
  {
  }

  lemma {:induction false} PartSizes(w: WtoCycle)
    ensures SizeOne(Nested(w)) == 1 + Size(w.components)
    ensures forall l :: l in FlattenOne(Nested(w)) <==> Held(l, w.components)
  {
    forall l ensures l in FlattenOne(Nested(w)) <==> Held(l, w.components) {
      FlattenIsHeld(l, w.components);
    }
  }

  /** Whether a label stands anywhere inside a component. */
  method IsComponentMember(node: Label, component: CycleOrLabel) returns (r: bool)
    requires Headed(component)
    ensures r <==> node in FlattenOne(component)
  {
    hide Size, Held;
    var stack := [component];
    assert [] + [component] == stack;
    NothingHeld(node);
    HeldSnoc(node, [], component);
    while stack != []
      invariant AllHeaded(stack)
      invariant Held(node, stack) <==> node in FlattenOne(component)
      decreases Size(stack)
    {
      var current := stack[|stack| - 1];
      assert stack == stack[..|stack| - 1] + [current];
      HeldSnoc(node, stack[..|stack| - 1], current);
      SizeSnoc(stack[..|stack| - 1], current);
      stack := stack[..|stack| - 1];
      match current {
        case Node(l) =>
          if l == node {
            return true;
          }
        case Nested(cycle) =>
          PartSizes(cycle);
          if Head(cycle) == node {
            HeadIsHeld(cycle);
            FlattenIsHeld(node, cycle.components);
            return true;
          }
          stack := PushParts(stack, cycle.components, node);
      }
    }
    return false;
  }

  // ------------------------------------------------------------------ loop heads

  /** The heads of all cycles, at every depth. */
  ghost function LoopHeads(cs: seq<CycleOrLabel>): multiset<Label> {
    if cs == [] then multiset{} else LoopHeads(cs[..|cs| - 1]) + LoopHeadsOne(cs[|cs| - 1])
  }

  ghost function LoopHeadsOne(c: CycleOrLabel): multiset<Label> {
    match c
    case Node(_) => multiset{}
    case Nested(w) => (if HasHead(w) then multiset{Head(w)} else multiset{}) + LoopHeads(w.components)
  }

  lemma LoopHeadsSnoc(cs: seq<CycleOrLabel>, c: CycleOrLabel)
    ensures LoopHeads(cs + [c]) == LoopHeads(cs) + LoopHeadsOne(c)
  {
    assert (cs + [c])[..|cs|] == cs;
  }

  lemma NoLoopHeads()
    ensures LoopHeads([]) == multiset{} && Size([]) == 0
  {
  }

  /** Keeps the cycles among `parts`, in forward order, on top of `stack`. */
  method PushCycles(stack: seq<CycleOrLabel>, parts: seq<CycleOrLabel>) returns (r: seq<CycleOrLabel>)
    requires AllHeaded(stack) && AllHeaded(parts)
    requires forall i :: 0 <= i < |stack| ==> stack[i].Nested?
    ensures AllHeaded(r) && forall i :: 0 <= i < |r| ==> r[i].Nested?
    ensures Size(r) <= Size(stack) + Size(parts)
    ensures LoopHeads(r) == LoopHeads(stack) + LoopHeads(parts)
  {
    hide Size, LoopHeads, Headed;
    r := stack;
    var i := |parts|;
    assert parts[..i] == parts;
    NoLoopHeads();
    while i > 0
      invariant 0 <= i <= |parts| && AllHeaded(r)
      invariant forall i :: 0 <= i < |r| ==> r[i].Nested?
      invariant Size(r) + Size(parts[..i]) <= Size(stack) + Size(parts)
      invariant LoopHeads(r) + LoopHeads(parts[..i]) == LoopHeads(stack) + LoopHeads(parts)
    {
      i := i - 1;
      assert parts[..i + 1] == parts[..i] + [parts[i]];
      LoopHeadsSnoc(parts[..i], parts[i]);
      SizeSnoc(parts[..i], parts[i]);
      if parts[i].Nested? {
        LoopHeadsSnoc(r, parts[i]);
        SizeSnoc(r, parts[i]);
        r := r + [parts[i]];
      }
    }
    assert parts[..0] == [];
  }

  /** Calls the visitor on the head of every cycle, once per cycle; `heads` records the calls. */
  method VisitLoopHeads(components: seq<CycleOrLabel>) returns (heads: seq<Label>)
    requires AllHeaded(components)
    ensures multiset(heads) == LoopHeads(components)
  {
    hide Size, LoopHeads;
    NoLoopHeads();
    var stack := PushCycles([], components);
    heads := [];
    while stack != []
      invariant AllHeaded(stack) && forall i :: 0 <= i < |stack| ==> stack[i].Nested?
      invariant multiset(heads) + LoopHeads(stack) == LoopHeads(components)
      decreases Size(stack)
    {
      var cycle := stack[|stack| - 1].cycle;
      assert stack == stack[..|stack| - 1] + [Nested(cycle)];
      LoopHeadsSnoc(stack[..|stack| - 1], Nested(cycle));
      SizeSnoc(stack[..|stack| - 1], Nested(cycle));
      assert Headed(stack[|stack| - 1]);
      stack := stack[..|stack| - 1];
      heads := heads + [Head(cycle)];
      stack := PushCycles(stack, cycle.components);
    }
  }

  /** `h` heads a cycle exactly when it is among the loop heads. */
  lemma {:induction false} LoopHeadsOccur(cs: seq<CycleOrLabel>, h: Label)
    ensures h in LoopHeads(cs) <==> exists w :: Occurs(cs, w) && HasHead(w) && Head(w) == h
  {
    if cs != [] {
      var z := |cs| - 1;
      LoopHeadsOccur(cs[..z], h);
      LoopHeadsOneOccur(cs[z], h);
      forall w ensures Occurs(cs, w) <==> Occurs(cs[..z], w) || OccursOne(cs[z], w) {
        OccursSplit(cs, w);
      }
    }
  }

  lemma {:induction false} LoopHeadsOneOccur(c: CycleOrLabel, h: Label)
    ensures h in LoopHeadsOne(c) <==> exists w :: OccursOne(c, w) && HasHead(w) && Head(w) == h
  {
    match c
    case Node(_) =>
    case Nested(v) =>
      LoopHeadsOccur(v.components, h);
      forall w ensures OccursOne(c, w) <==> w == v || Occurs(v.components, w) {
      }
  }

  lemma OccursSplit(cs: seq<CycleOrLabel>, w: WtoCycle)
    requires cs != []
    ensures Occurs(cs, w) <==> Occurs(cs[..|cs| - 1], w) || OccursOne(cs[|cs| - 1], w)
  {
    var z := |cs| - 1;
    if Occurs(cs, w) {
      var i :| 0 <= i < |cs| && OccursOne(cs[i], w);
      if i < z {
        assert OccursOne(cs[..z][i], w);
      }
    }
    if Occurs(cs[..z], w) {
      var i :| 0 <= i < z && OccursOne(cs[..z][i], w);
      assert OccursOne(cs[i], w);
    }
  }
}
