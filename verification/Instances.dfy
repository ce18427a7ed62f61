/**
  The laws asked of the abstract domains can be met: sets of states with the exact operations meet those of
  the numeric domains, and a lattice of two points meets those of the iterator.
*/
module Instances {
  import opened Wrappers
  import opened Numbers
  import opened Intervals
  import opened Graph
  import opened FwdDomain
  import opened FwdOrder
  import opened FwdRuns
  import opened StackMemory
  import opened OffsetMaps
  import Constraints
  import FiniteDomain
  import Shifts
  import Stack = StackSimulation
  import StackPrecision

  // ------------------------------------------------------------------ the iterator's domain

  /** Nothing or everything; every instruction may lead from any state to any other. */
  function TwoPoint(g: Neighbours): Program<bool, int, int> {
    Program(g,
      Domain(false, a => !a, (a, b) => a ==> b, (a, b) => a || b, (a, b, t) => a || b, (a, b) => a && b, (a, b) => a && b,
        (a, s) => a, a => if a then 0 else 1),
      l => false, l => [], (a, x, l) => None, (l, a) => Ok(a), (a, l) => a, (l, s, t) => true, (x, s) => true, (l, s) => s)
  }

  lemma IteratorLawsMet(g: Neighbours)
    requires WellFormed(g)
    ensures Sound(TwoPoint(g)) && Ordered(TwoPoint(g)) && LowerMeet(TwoPoint(g))
  {
    hide WellFormed;
  }

  // ------------------------------------------------------------------ the stack's numeric domain

  type States = iset<Stack.Env>

  const ALL := Interval(None, None)

  /** Sets of valuations; nothing is claimed of a single variable's range. */
  ghost function StateSets(): Stack.NumOps<States> {
    Stack.NumOps(
      (d: States, v: Stack.NumVar) => ALL,
      (d: States, v: Stack.NumVar, x: Stack.NumExpr) => iset e | Assigned(d, v, x, e),
      (d: States, v: Stack.NumVar) => iset e | Changed(d, v, e),
      (d: States, v: Stack.NumVar, w: nat, s: bool) => iset e | Wrapped(d, v, w, s, e),
      (a: States, b: States) => a + b,
      (a: States, b: States) => a * b,
      (d: States, e: Stack.Env) => e in d)
  }

  ghost predicate Assigned(d: States, v: Stack.NumVar, x: Stack.NumExpr, e: Stack.Env) {
    exists e0 :: e0 in d && Stack.Total(e0) && e == Stack.Updated(e0, v, Stack.Val(x, e0))
  }

  ghost predicate Changed(d: States, v: Stack.NumVar, e: Stack.Env) {
    exists e0, n :: e0 in d && e == Stack.Updated(e0, v, n)
  }

  ghost predicate Wrapped(d: States, v: Stack.NumVar, w: nat, s: bool, e: Stack.Env) {
    exists e0 :: e0 in d && Stack.Total(e0) && e == Stack.Updated(e0, v, Shifts.Wrap(e0[v], w, s))
  }

  lemma StackLawsMet()
    ensures Stack.SoundNum(StateSets()) && Stack.ExactAssign(StateSets())
  {
    hide Shifts.Wrap;
    var ops := StateSets();
    forall d, v, n, e | ops.mem(ops.assign(d, v, Stack.Constant(n)), e) && Stack.Total(e) ensures e[v] == n {
      assert Assigned(d, v, Stack.Constant(n), e);
    }
  }

  // ------------------------------------------------------------------ constants, kept precisely

  type Constants = map<Stack.NumVar, int>

  /** The variables known to be one number; everything else may be anything. */
  ghost function ConstantStates(): Stack.NumOps<Constants> {
    Stack.NumOps(
      (d: Constants, v: Stack.NumVar) => if v in d then Interval(Some(d[v]), Some(d[v])) else ALL,
      (d: Constants, v: Stack.NumVar, x: Stack.NumExpr) => AssignedConstant(d, v, x),
      (d: Constants, v: Stack.NumVar) => d - {v},
      (d: Constants, v: Stack.NumVar, w: nat, s: bool) => if v in d then d[v := Shifts.Wrap(d[v], w, s)] else d,
      (a: Constants, b: Constants) => map v | v in a && v in b && a[v] == b[v] :: a[v],
      (a: Constants, b: Constants) => a,
      (d: Constants, e: Stack.Env) => Stack.Total(e) ==> forall v :: v in d ==> e[v] == d[v])
  }

  ghost function AssignedConstant(d: Constants, v: Stack.NumVar, x: Stack.NumExpr): Constants {
    match x
    case Constant(n) => d[v := n]
    case Variable(w) => if w in d then d[v := d[w]] else d - {v}
  }

  lemma ConstantsAreSound()
    ensures Stack.SoundNum(ConstantStates())
  {
    hide Shifts.Wrap;
  }

  lemma PrecisionLawsMet()
    ensures Stack.SoundNum(ConstantStates()) && StackPrecision.Precise(ConstantStates())
  {
    hide Stack.SoundNum, Shifts.Wrap;
    ConstantsAreSound();
  }

  /** The states a machine allows, when no cell is live, simulate it. */
  ghost function Allowed(k: Stack.Machine): States {
    iset e | Stack.Agrees(e, {}, k)
  }

  /** An eight-byte cell at the very end of an eight-byte stack: it is not inserted, and giving its scalar the right number breaks the simulation. */
  lemma CellPastTheEnd(k: Stack.Machine)
    ensures var om, c := OffsetMap(8, map[]), Cell(8, 8);
      var n := Stack.Reading(Stack.Svalues, c, k);
      && InsertCell(om, c) == om
      && Stack.Simulates(StateSets(), Allowed(k), Live(om), k)
      && !Stack.Simulates(StateSets(), StateSets().assign(Allowed(k), Stack.Scalar(Stack.Svalues, c), Stack.Constant(n)), Live(InsertCell(om, c)), k)
  {
    hide Stack.Reading;
    var om, c := OffsetMap(8, map[]), Cell(8, 8);
    assert ValidMap(om) && Live(om) == {};
    StackLawsMet();
    Stack.AssignNeedsLiveCell(StateSets(), Allowed(k), Stack.Svalues, om, c, Stack.Reading(Stack.Svalues, c, k), {}, k);
  }

  // ------------------------------------------------------------------ the zone domain

  type ZoneStates = iset<Constraints.Env>

  ghost function ZoneSets(): FiniteDomain.ZoneOps<ZoneStates> {
    FiniteDomain.ZoneOps(
      (z: ZoneStates, x: Constraints.Expr) => ALL,
      (z: ZoneStates, v: Constraints.Variable, i: Interval) => iset e | Set(z, v, i, e),
      (z: ZoneStates, v: Constraints.Variable, x: Constraints.Expr) => iset e | Given(z, v, x, e),
      (z: ZoneStates, v: Constraints.Variable) => iset e | Set(z, v, ALL, e),
      (z: ZoneStates, e: Constraints.Env) => e in z)
  }

  ghost predicate Set(z: ZoneStates, v: Constraints.Variable, i: Interval, e: Constraints.Env) {
    exists e0, n :: e0 in z && Contains(i, n) && e == FiniteDomain.Updated(e0, v, n)
  }

  ghost predicate Given(z: ZoneStates, v: Constraints.Variable, x: Constraints.Expr, e: Constraints.Env) {
    exists e0, n :: e0 in z && e == FiniteDomain.Updated(e0, v, n) && (Constraints.Defined(x, e0) ==> n == Constraints.Value(x, e0))
  }

  lemma ZoneLawsMet()
    ensures FiniteDomain.SoundZone(ZoneSets())
  {
    var ops := ZoneSets();
    forall z, e, v, i, n | ops.mem(z, e) && Contains(i, n) ensures ops.mem(ops.setInterval(z, v, i), e[v := n]) {
      assert FiniteDomain.Updated(e, v, n) == e[v := n];
    }
    forall z, e, v, x | ops.mem(z, e) && Constraints.Defined(x, e) ensures ops.mem(ops.assign(z, v, x), e[v := Constraints.Value(x, e)]) {
      assert FiniteDomain.Updated(e, v, Constraints.Value(x, e)) == e[v := Constraints.Value(x, e)];
    }
    forall z, e, v, n | ops.mem(z, e) ensures ops.mem(ops.havoc(z, v), FiniteDomain.Updated(e, v, n)) {
      assert Contains(ALL, n);
    }
  }
}
