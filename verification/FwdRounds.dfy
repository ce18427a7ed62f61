/**
  The record of the descending phase (src/fwd_analyzer.rs:406-432): which rounds it made, what they gave to
  a head and what came back, and which heads are loose on account of them.
*/
module FwdRounds {
  import opened Wrappers
  import opened Graph
  import opened WtoTree
  import opened WtoShape
  import opened FwdDomain
  import opened FwdCover
  import opened FwdOrder

  /** One round: the invariants before and after it, and the join of what the parents of the head hold after it. */
  datatype Round<+D> = Round(cycle: WtoCycle, before: InvariantMap<D>, after: InvariantMap<D>, returned: D)

  /**
    The head was transformed from its pre-invariant, which stays, nothing outside the cycle changed, and
    what is returned gathers the parents of the head.
  */
  ghost predicate IsRound<D(!new), S(!new), A(!new)>(p: Program<D, S, A>, order: seq<CycleOrLabel>, r: Round<D>) {
    && Occurs(order, r.cycle) && HasHead(r.cycle)
    && var h := Head(r.cycle);
      && h in r.before && h in r.after && r.after[h].pre == r.before[h].pre
      && Elsewhere(r.before, r.after, LabelsOf(Nested(r.cycle)))
      && r.after[h] == Transformed(p, h, r.before[h].pre, r.before[h])
      && Gathers(p, r.after, h, r.returned)
      && (Ordered(p) ==> Least(p, r.after, h, r.returned))
  }

  /** On a lattice the round led from a settled cycle to a settled cycle. */
  ghost predicate SettledRound<D(!new), S(!new), A(!new)>(p: Program<D, S, A>, r: Round<D>, loose: set<Label>) {
    Ordered(p) ==> Settled(p, r.before, LabelsOf(Nested(r.cycle)), loose) && Settled(p, r.after, LabelsOf(Nested(r.cycle)), loose)
  }

  /** The head got back more than it had been given, in a cycle with inner cycles. */
  ghost predicate Loosens<D(!new), S(!new), A(!new)>(p: Program<D, S, A>, r: Round<D>) {
    && HasHead(r.cycle) && !Simple(r.cycle) && Head(r.cycle) in r.before
    && !p.domain.leq(r.returned, r.before[Head(r.cycle)].pre)
  }

  /** A round that loosened `l` is on record, and on a lattice it is one in which a post-invariant has grown. */
  ghost predicate LoosenedBy<D(!new), S(!new), A(!new)>(p: Program<D, S, A>, rounds: set<Round<D>>, l: Label) {
    exists r :: r in rounds && Loosens(p, r) && Head(r.cycle) == l && (Ordered(p) ==> !Shrunk(p, r.before, r.after))
  }

  /** The loose heads are exactly the heads some recorded round gave back more than it had been given. */
  ghost predicate Blamed<D(!new), S(!new), A(!new)>(p: Program<D, S, A>, order: seq<CycleOrLabel>, rounds: set<Round<D>>, loose: set<Label>) {
    && (forall r :: r in rounds ==> IsRound(p, order, r) && SettledRound(p, r, loose))
    && (forall r :: r in rounds && Loosens(p, r) ==> Head(r.cycle) in loose)
    && (forall l :: l in loose ==> LoosenedBy(p, rounds, l))
  }

  /** In none of the rounds has a post-invariant grown. */
  ghost predicate AllShrunk<D(!new), S(!new), A(!new)>(p: Program<D, S, A>, rounds: set<Round<D>>) {
    forall r :: r in rounds ==> Shrunk(p, r.before, r.after)
  }

  lemma NoneBlamed<D(!new), S(!new), A(!new)>(p: Program<D, S, A>, order: seq<CycleOrLabel>)
    ensures Blamed(p, order, {}, {})
  {
  }

  /** A round that gives back more than was given, to a head that had been firm, has raised a post-invariant. */
  lemma GrownRound<D(!new), S(!new), A(!new)>(p: Program<D, S, A>, order: seq<CycleOrLabel>, r: Round<D>, body: set<Label>, loose: set<Label>)
    requires IsRound(p, order, r) && Loosens(p, r)
    requires Poised(p, r.before, Head(r.cycle), body, loose, false) && Head(r.cycle) !in loose
    ensures Ordered(p) ==> !Shrunk(p, r.before, r.after)
  {
    hide Ordered, Poised, Occurs, Simple, Gathers, Least, Shrunk, Elsewhere;
    if Ordered(p) && Shrunk(p, r.before, r.after) {
      SteadyRound(p, r.before, r.after, Head(r.cycle), body, loose, false, r.returned);
      assert false;
    }
  }

  lemma SettledEnds<D(!new), S(!new), A(!new)>(p: Program<D, S, A>, r: Round<D>, body: set<Label>, before: set<Label>, loose: set<Label>, simple: bool)
    requires HasHead(r.cycle) && LabelsOf(Nested(r.cycle)) == body + {Head(r.cycle)} && before <= loose
    requires Poised(p, r.before, Head(r.cycle), body, before, simple) && Poised(p, r.after, Head(r.cycle), body, loose, simple)
    ensures SettledRound(p, r, loose)
  {
    hide Ordered, LabelsOf, Under, Into, Firm;
  }

  lemma SettledGrows<D(!new), S(!new), A(!new)>(p: Program<D, S, A>, r: Round<D>, loose: set<Label>, loose': set<Label>)
    requires SettledRound(p, r, loose) && loose <= loose'
    ensures SettledRound(p, r, loose')
  {
    hide Ordered, LabelsOf, Settled;
    if Ordered(p) {
      LooseGrows(p, r.before, LabelsOf(Nested(r.cycle)), loose, loose');
      LooseGrows(p, r.after, LabelsOf(Nested(r.cycle)), loose, loose');
    }
  }

  lemma RoundRecorded<D(!new), S(!new), A(!new)>(p: Program<D, S, A>, order: seq<CycleOrLabel>, rounds: set<Round<D>>,
      loose: set<Label>, r: Round<D>, loose': set<Label>)
    requires Blamed(p, order, rounds, loose) && IsRound(p, order, r) && SettledRound(p, r, loose')
    requires loose' == if Loosens(p, r) then loose + {Head(r.cycle)} else loose
    requires Ordered(p) && Loosens(p, r) && Head(r.cycle) !in loose ==> !Shrunk(p, r.before, r.after)
    ensures Blamed(p, order, rounds + {r}, loose')
  {
    hide Ordered, Shrunk, IsRound, Simple, SettledRound;
    forall r' | r' in rounds ensures SettledRound(p, r', loose') {
      SettledGrows(p, r', loose, loose');
    }
    forall l | l in loose' ensures LoosenedBy(p, rounds + {r}, l) {
      if l in loose {
        var r' :| r' in rounds && Loosens(p, r') && Head(r'.cycle) == l && (Ordered(p) ==> !Shrunk(p, r'.before, r'.after));
        assert r' in rounds + {r};
      } else {
        assert r in rounds + {r};
      }
    }
  }

  /** Only heads of cycles with inner cycles are loose, and none is if no round has raised a post-invariant. */
  lemma LooseHeads<D(!new), S(!new), A(!new)>(p: Program<D, S, A>, order: seq<CycleOrLabel>, rounds: set<Round<D>>, loose: set<Label>)
    requires Blamed(p, order, rounds, loose)
    ensures forall l :: l in loose ==> HoldsCycles(order, l)
    ensures Ordered(p) && AllShrunk(p, rounds) ==> loose == {}
  {
    hide Ordered, Shrunk, Simple, Occurs, Gathers, Least, Elsewhere, SettledRound;
    forall l | l in loose ensures HoldsCycles(order, l) && !(Ordered(p) && AllShrunk(p, rounds)) {
      var r :| r in rounds && Loosens(p, r) && Head(r.cycle) == l && (Ordered(p) ==> !Shrunk(p, r.before, r.after));
      assert IsRound(p, order, r);
    }
  }
}
