/**
  Covers: the certificate that the invariants of a region of the graph account for every concrete run
  through it. A cover `x` is a set of concrete states per label that no step leaves; it is what stays
  true of a cycle when the descending iterations shrink the invariants without any monotonicity.
*/
module FwdCover {
  import opened Graph
  import opened FwdDomain

  /** The states of the cover satisfy the pre-invariants and the checks. */
  ghost predicate Inside<D(!new), S(!new), A(!new)>(p: Program<D, S, A>, inv: InvariantMap<D>, k: set<Label>, x: (Label, S) -> bool)
    requires k <= inv.Keys
  {
    forall l, s :: l in k && x(l, s) ==> p.domain.mem(inv[l].pre, s) && SafeAt(p, l, s)
  }

  /** A step from the cover ends in the post-invariant. */
  ghost predicate IntoPost<D(!new), S(!new), A>(p: Program<D, S, A>, inv: InvariantMap<D>, k: set<Label>, x: (Label, S) -> bool)
    requires k <= inv.Keys
  {
    forall l, s, t :: l in k && x(l, s) && p.step(l, s, t) ==> p.domain.mem(inv[l].post, t)
  }

  /** A step along an edge of the region stays in the cover. */
  ghost predicate Stays<D(!new), S(!new), A>(p: Program<D, S, A>, k: set<Label>, x: (Label, S) -> bool) {
    forall l, v, s, t :: l in k && v in k && Edge(p.graph, l, v) && x(l, s) && p.step(l, s, t) ==> x(v, t)
  }

  /** What comes in from outside, through a post-invariant or at the entry, is in the cover. */
  ghost predicate Fed<D(!new), S(!new), A>(p: Program<D, S, A>, inv: InvariantMap<D>, k: set<Label>, x: (Label, S) -> bool)
    requires k <= inv.Keys
  {
    && (forall u, v, s :: u in inv && u !in k && v in k && Edge(p.graph, u, v) && p.domain.mem(inv[u].post, s) ==> x(v, s))
    && (ENTRY in k ==> forall s :: p.domain.mem(inv[ENTRY].pre, s) ==> x(ENTRY, s))
  }

  ghost predicate Covers<D(!new), S(!new), A(!new)>(p: Program<D, S, A>, inv: InvariantMap<D>, k: set<Label>, x: (Label, S) -> bool) {
    k <= inv.Keys && Inside(p, inv, k, x) && IntoPost(p, inv, k, x) && Stays(p, k, x) && Fed(p, inv, k, x)
  }

  /** Changes elsewhere do not matter, as long as they do not touch what feeds the region. */
  lemma CoverFrame<D(!new), S(!new), A(!new)>(p: Program<D, S, A>, inv: InvariantMap<D>, inv': InvariantMap<D>, k: set<Label>, x: (Label, S) -> bool)
    requires Covers(p, inv, k, x) && inv'.Keys == inv.Keys
    requires forall l :: l in k ==> inv'[l] == inv[l]
    requires forall u, v :: u in inv && u !in k && v in k && Edge(p.graph, u, v) ==> inv'[u].post == inv[u].post
    ensures Covers(p, inv', k, x)
  {
  }

  ghost function Choose<S>(k: set<Label>, x: (Label, S) -> bool, y: (Label, S) -> bool): (Label, S) -> bool {
    (l, s) => if l in k then x(l, s) else y(l, s)
  }

  /** Two regions, the second reached only forward from the first. */
  lemma CoverUnion<D(!new), S(!new), A(!new)>(p: Program<D, S, A>, inv: InvariantMap<D>,
      k: set<Label>, x: (Label, S) -> bool, k': set<Label>, x': (Label, S) -> bool)
    requires Covers(p, inv, k, x) && Covers(p, inv, k', x') && k !! k'
    requires forall u, v :: u in k' && v in k ==> !Edge(p.graph, u, v)
    ensures Covers(p, inv, k + k', Choose(k, x, x'))
  {
    var y := Choose(k, x, x');
    forall l, v, s, t | l in k + k' && v in k + k' && Edge(p.graph, l, v) && y(l, s) && p.step(l, s, t)
      ensures y(v, t)
    {
      if l in k && v in k' {
        assert p.domain.mem(inv[l].post, t);
      }
    }
  }

  lemma CoverNothing<D(!new), S(!new), A(!new)>(p: Program<D, S, A>, inv: InvariantMap<D>, x: (Label, S) -> bool)
    ensures Covers(p, inv, {}, x)
  {
  }

  /** `d` holds what the parents of a label hand on, or the entry states. */
  ghost predicate Gathers<D(!new), S(!new), A>(p: Program<D, S, A>, inv: InvariantMap<D>, l: Label, d: D) {
    && (forall u, s :: u in inv && Edge(p.graph, u, l) && p.domain.mem(inv[u].post, s) ==> p.domain.mem(d, s))
    && (l == ENTRY ==> ENTRY in inv && d == inv[ENTRY].pre)
  }

  ghost function Members<D, S, A>(p: Program<D, S, A>, d: D): (Label, S) -> bool {
    (l, s) => p.domain.mem(d, s)
  }

  /** One vertex, transformed from what its parents handed on. */
  lemma CoverNode<D(!new), S(!new), A(!new)>(p: Program<D, S, A>, inv: InvariantMap<D>, l: Label)
    requires l in inv && Gathers(p, inv, l, inv[l].pre) && Passes(p, l, inv[l].pre, inv[l].post)
    requires !Edge(p.graph, l, l)
    ensures Covers(p, inv, {l}, Members(p, inv[l].pre))
  {
  }

  // ------------------------------------------------------------------ cycles

  ghost function HeadAnd<D, S, A>(p: Program<D, S, A>, h: Label, d: D, xb: (Label, S) -> bool): (Label, S) -> bool {
    (l, s) => if l == h then p.domain.mem(d, s) else xb(l, s)
  }

  /** The ascending phase ends: what comes back to the head is within what it was given. */
  lemma CoverCycle<D(!new), S(!new), A(!new)>(p: Program<D, S, A>, inv: InvariantMap<D>, h: Label, kb: set<Label>, xb: (Label, S) -> bool, a: D, n: D)
    requires Sound(p) && h in inv && h !in kb && Covers(p, inv, kb, xb)
    requires Passes(p, h, a, inv[h].post) && Gathers(p, inv, h, n) && p.domain.leq(n, a)
    ensures Covers(p, inv[h := inv[h].(pre := n)], kb + {h}, HeadAnd(p, h, n, xb))
  {
    var inv' := inv[h := inv[h].(pre := n)];
    var x := HeadAnd(p, h, n, xb);
    var k := kb + {h};
    assert forall s :: p.domain.mem(n, s) ==> p.domain.mem(a, s);
    assert IntoPost(p, inv', k, x);
    forall l, v, s, t | l in k && v in k && Edge(p.graph, l, v) && x(l, s) && p.step(l, s, t) ensures x(v, t) {
      assert p.domain.mem(inv'[l].post, t);
    }
  }

  ghost function Cut<S>(h: Label, x: (Label, S) -> bool, xb: (Label, S) -> bool): (Label, S) -> bool {
    (l, s) => x(l, s) && (l != h ==> xb(l, s))
  }

  /** After another pass over head and body, the states of the old cover that the new body cover has too. */
  lemma CoverPass<D(!new), S(!new), A(!new)>(p: Program<D, S, A>, inv: InvariantMap<D>, inv': InvariantMap<D>,
      h: Label, kb: set<Label>, x: (Label, S) -> bool, xb: (Label, S) -> bool)
    requires h in inv && h !in kb && inv.Keys == inv'.Keys
    requires Covers(p, inv, kb + {h}, x) && Covers(p, inv', kb, xb)
    requires inv'[h].pre == inv[h].pre && Passes(p, h, inv[h].pre, inv'[h].post)
    requires forall l :: l in inv && l !in kb + {h} ==> inv'[l] == inv[l]
    requires ENTRY in inv ==> inv'[ENTRY].pre == inv[ENTRY].pre
    ensures Covers(p, inv', kb + {h}, Cut(h, x, xb))
  {
    var x' := Cut(h, x, xb);
    var k := kb + {h};
    forall l, s, t | l in k && x'(l, s) && p.step(l, s, t) ensures p.domain.mem(inv'[l].post, t) {
      assert l == h ==> p.domain.mem(inv[h].pre, s);
    }
    forall l, v, s, t | l in k && v in k && Edge(p.graph, l, v) && x'(l, s) && p.step(l, s, t) ensures x'(v, t) {
      assert x(v, t);
      assert p.domain.mem(inv'[l].post, t);
    }
  }

  ghost function CutHead<D, S, A>(p: Program<D, S, A>, h: Label, n: D, x: (Label, S) -> bool): (Label, S) -> bool {
    (l, s) => x(l, s) && (l == h ==> p.domain.mem(n, s))
  }

  /** Everything that reaches the head is gathered, so the cover of the head can be cut down to it. */
  lemma CoverGather<D(!new), S(!new), A(!new)>(p: Program<D, S, A>, inv: InvariantMap<D>, h: Label, k: set<Label>, x: (Label, S) -> bool, n: D)
    requires h in k && Covers(p, inv, k, x) && Gathers(p, inv, h, n)
    ensures Covers(p, inv, k, CutHead(p, h, n, x))
  {
    var x' := CutHead(p, h, n, x);
    forall l, v, s, t | l in k && v in k && Edge(p.graph, l, v) && x'(l, s) && p.step(l, s, t) ensures x'(v, t) {
      assert p.domain.mem(inv[l].post, t);
    }
  }

  /** A new invariant at the head that keeps the gathered states. */
  lemma CoverRefine<D(!new), S(!new), A(!new)>(p: Program<D, S, A>, inv: InvariantMap<D>, h: Label, k: set<Label>, x: (Label, S) -> bool, n: D, r: D)
    requires h in k && h != ENTRY && Covers(p, inv, k, CutHead(p, h, n, x))
    requires forall s :: p.domain.mem(inv[h].pre, s) && p.domain.mem(n, s) ==> p.domain.mem(r, s)
    ensures Covers(p, inv[h := inv[h].(pre := r)], k, CutHead(p, h, n, x))
  {
  }

  // ------------------------------------------------------------------ runs

  datatype State<+S> = State(at: Label, value: S)

  /** A concrete run along the edges of the graph; it may stop anywhere. */
  ghost predicate IsRun<D, S, A>(p: Program<D, S, A>, run: seq<State<S>>) {
    forall i :: 0 <= i < |run| - 1 ==>
      Edge(p.graph, run[i].at, run[i + 1].at) && p.step(run[i].at, run[i].value, run[i + 1].value)
  }

  /** A run from an entry state never leaves a cover that is closed under edges. */
  lemma {:induction false} RunStays<D(!new), S(!new), A(!new)>(p: Program<D, S, A>, inv: InvariantMap<D>, k: set<Label>, x: (Label, S) -> bool,
      run: seq<State<S>>, i: nat)
    requires Covers(p, inv, k, x) && ENTRY in k && ENTRY in inv
    requires forall u, v :: u in k && Edge(p.graph, u, v) ==> v in k
    requires IsRun(p, run) && i < |run| && run[0].at == ENTRY && p.domain.mem(inv[ENTRY].pre, run[0].value)
    ensures run[i].at in k && x(run[i].at, run[i].value)
  {
    if i > 0 {
      RunStays(p, inv, k, x, run, i - 1);
    }
  }
}
