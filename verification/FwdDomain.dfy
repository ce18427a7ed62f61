/**
  What the forward analyzer needs from the abstract domain and from the program (src/fwd_analyzer.rs:38-48).
  `D` is the type of abstract states, `S` of concrete states, `A` of assertions.
*/
module FwdDomain {
  import opened Wrappers
  import opened Graph

  /** The operations of the domain; `mem` says which concrete states an abstract state stands for. */
  datatype Domain<!D, !S> = Domain(
    bottom: D,
    isBottom: D -> bool,
    leq: (D, D) -> bool,
    join: (D, D) -> D,
    widen: (D, D, bool) -> D,
    meet: (D, D) -> D,
    narrow: (D, D) -> D,
    mem: (D, S) -> bool,
    rank: D -> nat)

  /**
    The laws. Nothing is asked of the widening but progress: what it returns is compared with the
    joined predecessors before it is trusted. No operation has to be monotone.
  */
  ghost predicate Lawful<D(!new), S(!new)>(d: Domain<D, S>) {
    && (forall a, s :: d.isBottom(a) ==> !d.mem(a, s))
    && (forall a :: d.leq(a, a))
    && (forall a, b, s :: d.leq(a, b) && d.mem(a, s) ==> d.mem(b, s))
    && (forall a, b, s :: d.mem(a, s) || d.mem(b, s) ==> d.mem(d.join(a, b), s))
    && (forall a, b, s :: d.mem(a, s) && d.mem(b, s) ==> d.mem(d.meet(a, b), s))
    && (forall a, b, s :: d.mem(a, s) && d.mem(b, s) ==> d.mem(d.narrow(a, b), s))
    && (forall a, b, t :: !d.leq(b, a) ==> d.rank(d.widen(a, b, t)) < d.rank(a))
  }

  datatype VerificationError = VerificationError(where: Option<Label>, message: string)

  /** A program with its abstract and its concrete semantics. */
  datatype Program<!D, !S, !A> = Program(
    graph: Neighbours,
    domain: Domain<D, S>,
    isLoopCounter: Label -> bool,
    assertionsAt: Label -> seq<A>,
    check: (D, A, Label) -> Option<VerificationError>,
    transform: (Label, D) -> Result<D, VerificationError>,
    initializeLoopCounter: (D, Label) -> D,
    step: (Label, S, S) -> bool,
    holds: (A, S) -> bool,
    resetCounter: (Label, S) -> S)

  /** The checker and the transformers are sound; a loop counter carries exactly its loop bound. */
  ghost predicate Sound<D(!new), S(!new), A(!new)>(p: Program<D, S, A>) {
    && WellFormed(p.graph)
    && Lawful(p.domain)
    && (forall d, a, l, s :: p.check(d, a, l).None? && p.domain.mem(d, s) ==> p.holds(a, s))
    && (forall l, d, s, t :: p.transform(l, d).Ok? && p.domain.mem(d, s) && p.step(l, s, t) ==>
      p.domain.mem(p.transform(l, d).value, t))
    && (forall d, l, s :: p.domain.mem(d, s) ==> p.domain.mem(p.initializeLoopCounter(d, l), p.resetCounter(l, s)))
    && (forall l :: p.isLoopCounter(l) ==> |p.assertionsAt(l)| == 1)
  }

  datatype InvariantMapPair<+D> = InvariantMapPair(pre: D, error: Option<VerificationError>, post: D)

  type InvariantMap<+D> = map<Label, InvariantMapPair<D>>

  /** The assertions the analyzer checks on the way; loop bounds wait for the end. */
  ghost predicate SafeAt<D, S, A(!new)>(p: Program<D, S, A>, l: Label, s: S) {
    p.isLoopCounter(l) || forall a :: a in p.assertionsAt(l) ==> p.holds(a, s)
  }

  /** The loop-bound assertion of a loop counter. */
  ghost predicate BoundedAt<D, S, A(!new)>(p: Program<D, S, A>, l: Label, s: S) {
    p.isLoopCounter(l) ==> forall a :: a in p.assertionsAt(l) ==> p.holds(a, s)
  }

  /** The first assertion of `as'` that the checker cannot discharge. */
  function FirstError<D, S, A>(p: Program<D, S, A>, l: Label, d: D, as': seq<A>): Option<VerificationError> {
    if as' == [] then None
    else if p.check(d, as'[0], l).Some? then p.check(d, as'[0], l)
    else FirstError(p, l, d, as'[1..])
  }

  lemma {:induction false} NoErrorIsSafe<D(!new), S(!new), A(!new)>(p: Program<D, S, A>, l: Label, d: D, as': seq<A>, s: S)
    requires Sound(p) && FirstError(p, l, d, as').None? && p.domain.mem(d, s)
    ensures forall a :: a in as' ==> p.holds(a, s)
  {
    if as' != [] {
      NoErrorIsSafe(p, l, d, as'[1..], s);
    }
  }

  /** The error is that of the first assertion with one; there is none exactly if every assertion is discharged. */
  lemma {:induction false} FirstErrorIsFirst<D, S, A>(p: Program<D, S, A>, l: Label, d: D, as': seq<A>, i: nat)
    requires i < |as'| && p.check(d, as'[i], l).Some?
    ensures (forall j :: 0 <= j < i ==> p.check(d, as'[j], l).None?) ==> FirstError(p, l, d, as') == p.check(d, as'[i], l)
    ensures FirstError(p, l, d, as').Some?
  {
    if i > 0 {
      FirstErrorIsFirst(p, l, d, as'[1..], i - 1);
    }
  }

  /** What the checker and the transformer leave at a label: its error or its new post-invariant. */
  function Transformed<D, S, A>(p: Program<D, S, A>, l: Label, d: D, pair: InvariantMapPair<D>): InvariantMapPair<D> {
    if !p.isLoopCounter(l) && pair.error.Some? then pair
    else if !p.isLoopCounter(l) && FirstError(p, l, d, p.assertionsAt(l)).Some? then
      pair.(error := FirstError(p, l, d, p.assertionsAt(l)))
    else match p.transform(l, d)
      case Err(e) => pair.(error := Some(e.(where := Some(l))))
      case Ok(post) => pair.(post := post)
  }

  /** Whether the checker or the transformer reported an error at a label. */
  predicate Fails<D, S, A>(p: Program<D, S, A>, l: Label, d: D, pair: InvariantMapPair<D>) {
    !(!p.isLoopCounter(l) && pair.error.Some?)
    && ((!p.isLoopCounter(l) && FirstError(p, l, d, p.assertionsAt(l)).Some?) || p.transform(l, d).Err?)
  }

  /** What is at a label once it has been looked at with each of `ds` in turn. */
  ghost function LookedAt<D, S, A>(p: Program<D, S, A>, l: Label, ds: seq<D>, pair: InvariantMapPair<D>): InvariantMapPair<D> {
    if ds == [] then pair else Transformed(p, l, ds[|ds| - 1], LookedAt(p, l, ds[..|ds| - 1], pair))
  }

  /** However often a label is looked at later, its first error and the post-invariant it had then stay; only loop counters are looked at again. */
  lemma {:induction false} FirstErrorStays<D, S, A>(p: Program<D, S, A>, l: Label, ds: seq<D>, pair: InvariantMapPair<D>, n: nat)
    requires !p.isLoopCounter(l) && n <= |ds| && LookedAt(p, l, ds[..n], pair).error.Some?
    ensures LookedAt(p, l, ds, pair) == LookedAt(p, l, ds[..n], pair)
  {
    if n < |ds| {
      assert ds[..|ds| - 1][..n] == ds[..n];
      FirstErrorStays(p, l, ds[..|ds| - 1], pair, n);
    } else {
      assert ds[..n] == ds;
    }
  }

  /** The label's error is one that the checker or the transformer reports of `d`. */
  ghost predicate Reports<D, S, A>(p: Program<D, S, A>, l: Label, d: D, e: VerificationError) {
    || (!p.isLoopCounter(l) && FirstError(p, l, d, p.assertionsAt(l)) == Some(e))
    || (p.transform(l, d).Err? && e == p.transform(l, d).error.(where := Some(l)))
  }

  /** `post` covers every step from `d` at a label, and every state of `d` passes the label's checks. */
  ghost predicate Passes<D(!new), S(!new), A(!new)>(p: Program<D, S, A>, l: Label, d: D, post: D) {
    && (forall s :: p.domain.mem(d, s) ==> SafeAt(p, l, s))
    && (forall s, t :: p.domain.mem(d, s) && p.step(l, s, t) ==> p.domain.mem(post, t))
  }

  lemma TransformedPasses<D(!new), S(!new), A(!new)>(p: Program<D, S, A>, l: Label, d: D, pair: InvariantMapPair<D>)
    requires Sound(p) && pair.error.None? && !Fails(p, l, d, pair)
    ensures Passes(p, l, d, Transformed(p, l, d, pair).post)
  {
    forall s | p.domain.mem(d, s) ensures SafeAt(p, l, s) {
      if !p.isLoopCounter(l) {
        NoErrorIsSafe(p, l, d, p.assertionsAt(l), s);
      }
    }
  }
}
