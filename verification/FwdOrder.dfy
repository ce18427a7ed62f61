/**
  Post-fixpoints. When the domain is a lattice with monotone transfer, a visited region is settled: every
  label's post-invariant contains the transfer of its pre-invariant, and its pre-invariant contains the
  post-invariants of all its parents. The descending phase keeps this for cycles without inner cycles. The
  widening inside an inner cycle may give more for a smaller input; a head to which a descending round
  returned more than it had been given is called loose, and set apart. If no body pass does that, none is.
*/
module FwdOrder {
  import opened Wrappers
  import opened Graph
  import opened WtoTree
  import opened FwdDomain

  /** The order laws: a lattice, a decreasing narrowing, monotone transfer. */
  ghost predicate Ordered<D(!new), S(!new), A(!new)>(p: Program<D, S, A>) {
    var d := p.domain;
    && (forall a, b, c :: d.leq(a, b) && d.leq(b, c) ==> d.leq(a, c))
    && (forall a, b :: d.leq(a, d.join(a, b)) && d.leq(b, d.join(a, b)))
    && (forall a, b, c :: d.leq(a, c) && d.leq(b, c) ==> d.leq(d.join(a, b), c))
    && (forall a :: d.leq(d.bottom, a))
    && (forall a, b :: d.leq(d.meet(a, b), a) && (d.leq(b, a) ==> d.leq(b, d.meet(a, b))))
    && (forall a, b :: d.leq(d.narrow(a, b), a) && (d.leq(b, a) ==> d.leq(b, d.narrow(a, b))))
    && (forall l, a, b :: d.leq(a, b) && p.transform(l, b).Ok? ==>
      p.transform(l, a).Ok? && d.leq(p.transform(l, a).value, p.transform(l, b).value))
  }

  /** `d` contains what every parent of `v` hands on. */
  ghost predicate Under<D(!new), S(!new), A(!new)>(p: Program<D, S, A>, inv: InvariantMap<D>, v: Label, d: D) {
    forall u :: u in inv && Edge(p.graph, u, v) ==> p.domain.leq(inv[u].post, d)
  }

  /** `d` is the least such value; the entry keeps its own. */
  ghost predicate Least<D(!new), S(!new), A(!new)>(p: Program<D, S, A>, inv: InvariantMap<D>, v: Label, d: D) {
    && Under(p, inv, v, d)
    && forall e :: Under(p, inv, v, e) && (v == ENTRY ==> ENTRY in inv && e == inv[ENTRY].pre) ==> p.domain.leq(d, e)
  }

  /** The transfer of `d` ends in `post`. */
  ghost predicate Into<D(!new), S(!new), A(!new)>(p: Program<D, S, A>, v: Label, d: D, post: D) {
    p.transform(v, d).Ok? && p.domain.leq(p.transform(v, d).value, post)
  }

  /** A cycle of the ordering that is headed by `l` holds another cycle. */
  ghost predicate HoldsCycles(order: seq<CycleOrLabel>, l: Label) {
    exists w :: Occurs(order, w) && HasHead(w) && Head(w) == l && !Simple(w)
  }

  /** No cycle inside. */
  ghost predicate Simple(w: WtoCycle) {
    forall i :: 0 <= i < |w.components| ==> w.components[i].Node?
  }

  ghost predicate Settled<D(!new), S(!new), A(!new)>(p: Program<D, S, A>, inv: InvariantMap<D>, k: set<Label>, loose: set<Label>) {
    && k <= inv.Keys
    && forall v :: v in k ==> Into(p, v, inv[v].pre, inv[v].post) && (Under(p, inv, v, inv[v].pre) || v in loose)
  }

  /** Settled with no exception. */
  ghost predicate Firm<D(!new), S(!new), A(!new)>(p: Program<D, S, A>, inv: InvariantMap<D>, k: set<Label>) {
    && k <= inv.Keys
    && forall v :: v in k ==> Into(p, v, inv[v].pre, inv[v].post) && Under(p, inv, v, inv[v].pre)
  }

  /** No post-invariant has grown. */
  ghost predicate Shrunk<D(!new), S(!new), A(!new)>(p: Program<D, S, A>, inv: InvariantMap<D>, inv': InvariantMap<D>) {
    inv'.Keys == inv.Keys && forall l :: l in inv ==> p.domain.leq(inv'[l].post, inv[l].post)
  }

  /**
    What visiting the labels `k` does: they are settled, and if there is no cycle among them, they are
    firm, and firm labels only shrink.
  */
  ghost predicate Improves<D(!new), S(!new), A(!new)>(p: Program<D, S, A>, inv: InvariantMap<D>, inv': InvariantMap<D>,
      k: set<Label>, loose: set<Label>, simple: bool)
  {
    Ordered(p) ==>
      && Settled(p, inv', k, loose)
      && (simple ==> Firm(p, inv', k))
      && (simple && Firm(p, inv, k) ==> Shrunk(p, inv, inv'))
  }

  // ------------------------------------------------------------------ order

  lemma Transitive<D(!new), S(!new), A(!new)>(p: Program<D, S, A>, a: D, b: D, c: D)
    requires Ordered(p) && p.domain.leq(a, b) && p.domain.leq(b, c)
    ensures p.domain.leq(a, c)
  {
  }

  lemma JoinAbove<D(!new), S(!new), A(!new)>(p: Program<D, S, A>, a: D, b: D)
    requires Ordered(p)
    ensures p.domain.leq(a, p.domain.join(a, b)) && p.domain.leq(b, p.domain.join(a, b))
    ensures forall c :: p.domain.leq(a, c) && p.domain.leq(b, c) ==> p.domain.leq(p.domain.join(a, b), c)
    ensures forall x :: p.domain.leq(x, a) ==> p.domain.leq(x, p.domain.join(a, b))
  {
  }

  lemma BottomBelow<D(!new), S(!new), A(!new)>(p: Program<D, S, A>)
    requires Ordered(p)
    ensures forall a :: p.domain.leq(p.domain.bottom, a)
  {
  }

  lemma IntoSmaller<D(!new), S(!new), A(!new)>(p: Program<D, S, A>, v: Label, a: D, b: D, post: D)
    requires Ordered(p) && p.domain.leq(a, b) && Into(p, v, b, post)
    ensures Into(p, v, a, post)
  {
  }

  lemma UnderShrunk<D(!new), S(!new), A(!new)>(p: Program<D, S, A>, inv: InvariantMap<D>, inv': InvariantMap<D>, v: Label, d: D)
    requires Ordered(p) && Shrunk(p, inv, inv') && Under(p, inv, v, d)
    ensures Under(p, inv', v, d)
  {
    hide Ordered;
    forall u | u in inv' && Edge(p.graph, u, v) ensures p.domain.leq(inv'[u].post, d) {
      Transitive(p, inv'[u].post, inv[u].post, d);
    }
  }

  lemma UnderGrows<D(!new), S(!new), A(!new)>(p: Program<D, S, A>, inv: InvariantMap<D>, v: Label, d: D, e: D)
    requires Ordered(p) && Under(p, inv, v, d) && p.domain.leq(d, e)
    ensures Under(p, inv, v, e)
  {
    hide Ordered;
    forall u | u in inv && Edge(p.graph, u, v) ensures p.domain.leq(inv[u].post, e) {
      Transitive(p, inv[u].post, d, e);
    }
  }

  lemma ShrunkTrans<D(!new), S(!new), A(!new)>(p: Program<D, S, A>, a: InvariantMap<D>, b: InvariantMap<D>, c: InvariantMap<D>)
    requires Ordered(p) && Shrunk(p, a, b) && Shrunk(p, b, c)
    ensures Shrunk(p, a, c)
  {
    hide Ordered;
    forall l | l in a ensures p.domain.leq(c[l].post, a[l].post) {
      Transitive(p, c[l].post, b[l].post, a[l].post);
    }
  }

  /** Only the labels of `k` differ. */
  ghost predicate Elsewhere<D>(inv: InvariantMap<D>, inv': InvariantMap<D>, k: set<Label>) {
    inv'.Keys == inv.Keys && forall l :: l in inv && l !in k ==> inv'[l] == inv[l]
  }

  // ------------------------------------------------------------------ one vertex

  lemma NodeImproves<D(!new), S(!new), A(!new)>(p: Program<D, S, A>, inv: InvariantMap<D>, inv': InvariantMap<D>, v: Label, pre: D, post: D, loose: set<Label>)
    requires Sound(p) && v in inv && !Edge(p.graph, v, v) && (Ordered(p) ==> Least(p, inv, v, pre))
    requires Elsewhere(inv, inv', {v}) && inv'[v].pre == pre && inv'[v].post == post
    requires p.transform(v, pre) == Ok(post)
    ensures Improves(p, inv, inv', {v}, loose, true)
  {
    hide Ordered, Edge, Least, Sound, Under, Into;
    if Ordered(p) {
      SelfLeq(p);
      LeastIs(p, inv, v, pre);
      UnderElsewhere(p, inv, inv', v, pre);
      TransferInto(p, v, pre, post);
      if Firm(p, inv, {v}) {
        assert v in {v};
        LeastBelow(p, inv, v, pre);
        IntoSmaller(p, v, pre, inv[v].pre, inv[v].post);
        IntoLeq(p, v, pre, inv[v].post);
      }
    }
  }

  lemma UnderElsewhere<D(!new), S(!new), A(!new)>(p: Program<D, S, A>, inv: InvariantMap<D>, inv': InvariantMap<D>, v: Label, d: D)
    requires Elsewhere(inv, inv', {v}) && !Edge(p.graph, v, v) && Under(p, inv, v, d)
    ensures Under(p, inv', v, d)
  {
    hide Edge;
  }

  lemma TransferInto<D(!new), S(!new), A(!new)>(p: Program<D, S, A>, v: Label, d: D, post: D)
    requires p.transform(v, d) == Ok(post) && p.domain.leq(post, post)
    ensures Into(p, v, d, post)
  {
  }

  lemma IntoLeq<D(!new), S(!new), A(!new)>(p: Program<D, S, A>, v: Label, d: D, post: D)
    requires Into(p, v, d, post)
    ensures p.transform(v, d).Ok? && p.domain.leq(p.transform(v, d).value, post)
  {
  }

  lemma SelfLeq<D(!new), S(!new), A(!new)>(p: Program<D, S, A>)
    requires Sound(p)
    ensures forall a :: p.domain.leq(a, a)
  {
  }

  lemma LeastIs<D(!new), S(!new), A(!new)>(p: Program<D, S, A>, inv: InvariantMap<D>, v: Label, d: D)
    requires Least(p, inv, v, d)
    ensures Under(p, inv, v, d)
  {
  }

  lemma LeastBelow<D(!new), S(!new), A(!new)>(p: Program<D, S, A>, inv: InvariantMap<D>, v: Label, d: D)
    requires Least(p, inv, v, d) && v in inv && Under(p, inv, v, inv[v].pre)
    ensures p.domain.leq(d, inv[v].pre)
  {
  }

  // ------------------------------------------------------------------ stretches

  lemma SettledFrame<D(!new), S(!new), A(!new)>(p: Program<D, S, A>, inv: InvariantMap<D>, inv': InvariantMap<D>, k: set<Label>, changed: set<Label>, loose: set<Label>)
    requires Settled(p, inv, k, loose) && Elsewhere(inv, inv', changed) && k !! changed
    requires forall u, v :: u in changed && v in k ==> !Edge(p.graph, u, v)
    ensures Settled(p, inv', k, loose)
    ensures Firm(p, inv, k) ==> Firm(p, inv', k)
  {
    hide Into, Edge;
    forall v | v in k && Under(p, inv, v, inv[v].pre) ensures Under(p, inv', v, inv'[v].pre) {
    }
  }

  /** Visiting `k2` after `k1`, when no edge leads back. */
  lemma ImprovesJoin<D(!new), S(!new), A(!new)>(p: Program<D, S, A>, a: InvariantMap<D>, b: InvariantMap<D>, c: InvariantMap<D>,
      k1: set<Label>, k2: set<Label>, loose: set<Label>, simple: bool, simple2: bool)
    requires Sound(p) && Improves(p, a, b, k1, loose, simple) && Improves(p, b, c, k2, loose, simple2) && (simple ==> simple2)
    requires Elsewhere(a, b, k1) && Elsewhere(b, c, k2) && k1 !! k2 && k1 + k2 <= a.Keys
    requires forall u, v :: u in k2 && v in k1 ==> !Edge(p.graph, u, v)
    ensures Improves(p, a, c, k1 + k2, loose, simple)
  {
    hide Ordered, Into, Under, Edge, Sound;
    if Ordered(p) {
      SettledFrame(p, b, c, k1, k2, loose);
      if simple && Firm(p, a, k1 + k2) {
        assert Firm(p, a, k1);
        forall v | v in k2 ensures Into(p, v, b[v].pre, b[v].post) && Under(p, b, v, b[v].pre) {
          assert v in k1 + k2 && b[v] == a[v];
          UnderShrunk(p, a, b, v, a[v].pre);
        }
        ShrunkTrans(p, a, b, c);
      }
    }
  }

  lemma ImprovesNothing<D(!new), S(!new), A(!new)>(p: Program<D, S, A>, inv: InvariantMap<D>, loose: set<Label>, simple: bool)
    requires Sound(p)
    ensures Improves(p, inv, inv, {}, loose, simple)
  {
    SelfLeq(p);
  }

  // ------------------------------------------------------------------ cycles

  /** One round: head from `a`, then the body. */
  ghost predicate Rounds<D(!new), S(!new), A(!new)>(p: Program<D, S, A>, inv: InvariantMap<D>, inv': InvariantMap<D>,
      h: Label, body: set<Label>, loose: set<Label>, simple: bool, a: D)
  {
    Ordered(p) ==>
      && h in inv && h in inv'
      && Settled(p, inv', body, loose)
      && (simple ==> Firm(p, inv', body))
      && Into(p, h, a, inv'[h].post)
      && (simple && Firm(p, inv, body) && Into(p, h, a, inv[h].post) ==> Shrunk(p, inv, inv'))
  }

  lemma RoundOf<D(!new), S(!new), A(!new)>(p: Program<D, S, A>, inv: InvariantMap<D>, mid: InvariantMap<D>, inv': InvariantMap<D>,
      h: Label, body: set<Label>, loose: set<Label>, simple: bool, a: D)
    requires Sound(p) && h in inv && h !in body && Elsewhere(inv, mid, {h}) && Elsewhere(mid, inv', body)
    requires p.transform(h, a) == Ok(mid[h].post) && mid[h].pre == inv[h].pre
    requires Improves(p, mid, inv', body, loose, simple)
    ensures Rounds(p, inv, inv', h, body, loose, simple, a)
  {
    hide Ordered, Under, Edge, Sound;
    SelfLeq(p);
    if Ordered(p) && simple && Firm(p, inv, body) && Into(p, h, a, inv[h].post) {
      assert Shrunk(p, inv, mid);
      forall v | v in body ensures Under(p, mid, v, mid[v].pre) {
        UnderShrunk(p, inv, mid, v, inv[v].pre);
      }
      assert Firm(p, mid, body);
      ShrunkTrans(p, inv, mid, inv');
    }
  }

  /** A cycle between rounds: settled, with the loose labels set apart. */
  ghost predicate Poised<D(!new), S(!new), A(!new)>(p: Program<D, S, A>, inv: InvariantMap<D>, h: Label, body: set<Label>, loose: set<Label>, simple: bool) {
    Ordered(p) ==>
      && h in inv
      && Settled(p, inv, body, loose)
      && Into(p, h, inv[h].pre, inv[h].post)
      && (h in loose || Under(p, inv, h, inv[h].pre))
      && (simple ==> Firm(p, inv, body) && Under(p, inv, h, inv[h].pre))
  }

  lemma NewPre<D(!new), S(!new), A(!new)>(p: Program<D, S, A>, inv: InvariantMap<D>, h: Label, pre: D, k: set<Label>, loose: set<Label>)
    requires h in inv && h !in k
    ensures var inv' := inv[h := inv[h].(pre := pre)];
      && (Settled(p, inv, k, loose) ==> Settled(p, inv', k, loose))
      && (Firm(p, inv, k) ==> Firm(p, inv', k))
      && (forall v, d :: Under(p, inv, v, d) ==> Under(p, inv', v, d))
  {
    hide Into, Edge;
    var inv' := inv[h := inv[h].(pre := pre)];
    forall v, d | Under(p, inv, v, d) ensures Under(p, inv', v, d) {
    }
  }

  /** The ascending phase ends poised: what comes back is within what was given. */
  lemma AscendPoises<D(!new), S(!new), A(!new)>(p: Program<D, S, A>, inv: InvariantMap<D>, last: InvariantMap<D>,
      h: Label, body: set<Label>, loose: set<Label>, simple: bool, a: D, n: D)
    requires Rounds(p, inv, last, h, body, loose, simple, a) && h in last && h !in body
    requires p.domain.leq(n, a) && (Ordered(p) ==> Least(p, last, h, n))
    ensures Poised(p, last[h := last[h].(pre := n)], h, body, loose, simple)
  {
    hide Ordered, Settled, Firm, Under, Into, Least, Shrunk;
    if Ordered(p) {
      IntoSmaller(p, h, n, a, last[h].post);
      LeastIs(p, last, h, n);
      NewPre(p, last, h, n, body, loose);
    }
  }

  /**
    A descending round stays poised, once a head that got more back than it was given counts as loose.
    Without inner cycles that never happens.
  */
  lemma RoundPoised<D(!new), S(!new), A(!new)>(p: Program<D, S, A>, inv: InvariantMap<D>, inv': InvariantMap<D>,
      h: Label, body: set<Label>, before: set<Label>, loose: set<Label>, after: set<Label>, simple: bool, n: D)
    requires Poised(p, inv, h, body, before, simple) && h in inv && h in inv' && inv'[h].pre == inv[h].pre
    requires Rounds(p, inv, inv', h, body, loose, simple, inv[h].pre) && before <= loose <= after
    requires Ordered(p) ==> Least(p, inv', h, n)
    requires !simple && !p.domain.leq(n, inv[h].pre) ==> h in after
    ensures Poised(p, inv', h, body, after, simple)
    ensures Ordered(p) && h !in after ==> p.domain.leq(n, inv'[h].pre)
    ensures Ordered(p) && simple ==> p.domain.leq(n, inv'[h].pre)
  {
    hide Ordered, Settled, Firm, Under, Into, Least, Shrunk;
    if Ordered(p) {
      LooseGrows(p, inv', body, loose, after);
      if simple {
        UnderShrunk(p, inv, inv', h, inv[h].pre);
        LeastBelow(p, inv', h, n);
      } else if p.domain.leq(n, inv[h].pre) {
        LeastIs(p, inv', h, n);
        UnderGrows(p, inv', h, n, inv[h].pre);
      }
    }
  }

  /** Where a body pass returns no more for no more, that is, no post-invariant grows in a round, no head becomes loose. */
  lemma SteadyRound<D(!new), S(!new), A(!new)>(p: Program<D, S, A>, inv: InvariantMap<D>, inv': InvariantMap<D>,
      h: Label, body: set<Label>, loose: set<Label>, simple: bool, n: D)
    requires Ordered(p) && Poised(p, inv, h, body, loose, simple) && h in inv && h !in loose
    requires Shrunk(p, inv, inv') && inv'[h].pre == inv[h].pre && Least(p, inv', h, n)
    ensures p.domain.leq(n, inv[h].pre)
  {
    hide Ordered, Settled, Firm, Under, Into, Least, Shrunk;
    UnderShrunk(p, inv, inv', h, inv[h].pre);
    ShrunkKeys(p, inv, inv');
    LeastBelow(p, inv', h, n);
  }

  lemma ShrunkKeys<D(!new), S(!new), A(!new)>(p: Program<D, S, A>, inv: InvariantMap<D>, inv': InvariantMap<D>)
    requires Shrunk(p, inv, inv')
    ensures inv'.Keys == inv.Keys
  {
  }

  lemma LooseGrows<D(!new), S(!new), A(!new)>(p: Program<D, S, A>, inv: InvariantMap<D>, k: set<Label>, loose: set<Label>, loose': set<Label>)
    requires Settled(p, inv, k, loose) && loose <= loose'
    ensures Settled(p, inv, k, loose')
  {
    hide Under, Into;
  }

  lemma ImprovesGrows<D(!new), S(!new), A(!new)>(p: Program<D, S, A>, inv: InvariantMap<D>, inv': InvariantMap<D>, k: set<Label>,
      loose: set<Label>, loose': set<Label>, simple: bool)
    requires Improves(p, inv, inv', k, loose, simple) && loose <= loose'
    ensures Improves(p, inv, inv', k, loose', simple)
  {
    hide Ordered, Settled, Firm, Shrunk;
    if Ordered(p) {
      LooseGrows(p, inv', k, loose, loose');
    }
  }

  /** Taking in a refined value at the head. */
  lemma RefinePoised<D(!new), S(!new), A(!new)>(p: Program<D, S, A>, inv: InvariantMap<D>, h: Label, body: set<Label>, loose: set<Label>, simple: bool, n: D, r: D)
    requires Poised(p, inv, h, body, loose, simple) && h in inv && h !in body
    requires Ordered(p) ==> Least(p, inv, h, n) && p.domain.leq(r, inv[h].pre)
    requires Ordered(p) && p.domain.leq(n, inv[h].pre) ==> p.domain.leq(n, r)
    requires Ordered(p) && (simple || h !in loose) ==> p.domain.leq(n, inv[h].pre)
    ensures Poised(p, inv[h := inv[h].(pre := r)], h, body, loose, simple)
  {
    hide Ordered, Settled, Firm, Under, Into, Least, Shrunk;
    if Ordered(p) {
      IntoSmaller(p, h, r, inv[h].pre, inv[h].post);
      NewPre(p, inv, h, r, body, loose);
      if simple || h !in loose {
        LeastIs(p, inv, h, n);
        UnderGrows(p, inv, h, n, r);
      }
    }
  }

  /** The end of the descending phase. */
  lemma PoisedSettles<D(!new), S(!new), A(!new)>(p: Program<D, S, A>, start: InvariantMap<D>, inv: InvariantMap<D>, h: Label, body: set<Label>, loose: set<Label>, simple: bool)
    requires Poised(p, inv, h, body, loose, simple)
    ensures Improves(p, start, inv, body + {h}, loose, false)
  {
    hide Ordered, Under, Into;
  }

  lemma ImprovesFrom<D(!new), S(!new), A(!new)>(p: Program<D, S, A>, mid: InvariantMap<D>, start: InvariantMap<D>, inv: InvariantMap<D>, k: set<Label>, loose: set<Label>)
    requires Improves(p, mid, inv, k, loose, false)
    ensures Improves(p, start, inv, k, loose, false)
  {
  }
}
