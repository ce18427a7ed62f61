/**
  What a slice is good for: along every trail, running only the labels of the slice gives the failing
  label the same values in the relevant places as running the whole program (src/result.rs:183-192).
*/
module SliceMeaning {
  import opened Graph
  import opened SliceSpec

  datatype State = State(registers: int -> int, stack: int -> int)

  function Value(s: State, x: Location): int {
    match x
    case Register(v) => s.registers(v)
    case StackOffset(o) => s.stack(o)
  }

  ghost predicate Agree(s: State, t: State, r: RelevantState) {
    forall x :: Has(r, x) ==> Value(s, x) == Value(t, x)
  }

  predicate Clobbers(d: InstructionDeps, x: Location) {
    x.Register? && x.v in d.regsClobbered
  }

  type Step = (Label, State, State) -> bool

  /** Only what is written or clobbered changes. */
  ghost predicate Frames(q: Query, step: Step) {
    forall l, s, s', x {:trigger step(l, s, s'), Value(s', x)} ::
      l in q.deps && step(l, s, s') && !Has(Writes(q.deps[l]), x) && !Clobbers(q.deps[l], x) ==> Value(s', x) == Value(s, x)
  }

  /** What is written is settled by what is read. */
  ghost predicate Local(q: Query, step: Step) {
    forall l, s, s', t, t' {:trigger step(l, s, s'), step(l, t, t')} ::
      l in q.deps && step(l, s, s') && step(l, t, t') && Agree(s, t, Reads(q.deps[l])) ==> Agree(s', t', Writes(q.deps[l]))
  }

  /** A label without recorded dependencies acts on every location by itself. */
  ghost predicate Pointwise(q: Query, step: Step) {
    forall l, s, s', t, t', x {:trigger step(l, s, s'), step(l, t, t'), Value(s', x)} ::
      l !in q.deps && step(l, s, s') && step(l, t, t') && Value(s, x) == Value(t, x) ==> Value(s', x) == Value(t', x)
  }

  /** The recorded dependencies describe the instructions. */
  ghost predicate Described(q: Query, step: Step) {
    Frames(q, step) && Local(q, step) && Pointwise(q, step)
  }

  ghost predicate FullRun(step: Step, path: seq<Label>, ss: seq<State>) {
    |ss| == |path| + 1 && forall i :: 0 <= i < |path| ==> step(path[i], ss[i], ss[i + 1])
  }

  /** One step of the program cut down to the slice: other labels do nothing. */
  ghost predicate SlicedStep(step: Step, slice: set<Label>, l: Label, t: State, t': State) {
    if l in slice then step(l, t, t') else t' == t
  }

  ghost predicate SlicedRun(step: Step, slice: set<Label>, path: seq<Label>, ts: seq<State>) {
    |ts| == |path| + 1 && forall i :: 0 <= i < |path| ==> SlicedStep(step, slice, path[i], ts[i], ts[i + 1])
  }

  /** No register that matters after a label is clobbered by it; a verified program reads no clobbered register. */
  ghost predicate Spares(q: Query, l: Label, r: RelevantState) {
    l in q.deps ==> r.registers !! (q.deps[l].regsClobbered - q.deps[l].regsWritten)
  }

  ghost predicate SparesTrail(q: Query, path: seq<Label>)
    requires q.target in q.graph
  {
    forall i :: 0 <= i < |path| ==> Spares(q, path[i], Traced(q, path[i..]))
  }

  lemma TransferKeeps(q: Query, l: Label, r: RelevantState, x: Location)
    requires q.target in q.graph && l in q.deps && Has(r, x) && Spares(q, l, r) && !Has(Writes(q.deps[l]), x)
    ensures Has(Transfer(q, l, r), x) && !Clobbers(q.deps[l], x)
  {
    hide Contributes;
  }

  lemma IdleWritesNothing(q: Query, l: Label, r: RelevantState, x: Location)
    requires q.target in q.graph && !Contributes(q, l, r) && Has(r, x)
    ensures l in q.deps && !Has(Writes(q.deps[l]), x)
  {
    hide Contributes, Transfer;
    IdleTransfer(q, l, r);
  }

  lemma ReadsPass(q: Query, l: Label, r: RelevantState)
    requires q.target in q.graph && l in q.deps && Contributes(q, l, r)
    ensures forall x :: Has(Reads(q.deps[l]), x) ==> Has(Transfer(q, l, r), x)
  {
    hide Contributes;
  }

  lemma StepAgrees(q: Query, step: Step, slice: set<Label>, l: Label, r: RelevantState, s: State, s': State, t: State, t': State)
    requires q.target in q.graph && Described(q, step) && Spares(q, l, r)
    requires Contributes(q, l, r) && !Skips(q, l, r) ==> l in slice
    requires step(l, s, s') && SlicedStep(step, slice, l, t, t') && Agree(s, t, Flow(q, l, r))
    ensures Agree(s', t', r)
  {
    hide Contributes, Transfer, Has, Reads, Writes, Clobbers, Value, Spares;
    if Skips(q, l, r) {
      NothingRelevant(s', t');
    } else {
      forall x | Has(r, x) ensures Value(s', x) == Value(t', x) {
        if Contributes(q, l, r) && l in q.deps && Has(Writes(q.deps[l]), x) {
          ReadsPass(q, l, r);
        } else if l in q.deps {
          if !Contributes(q, l, r) {
            IdleWritesNothing(q, l, r, x);
          }
          TransferKeeps(q, l, r, x);
        } else {
          Unknown(q, l, r);
        }
      }
    }
  }

  lemma Unknown(q: Query, l: Label, r: RelevantState)
    requires q.target in q.graph && l !in q.deps
    ensures Contributes(q, l, r) && Transfer(q, l, r) == r
  {
  }

  lemma NothingRelevant(s: State, t: State)
    ensures Agree(s, t, EMPTY)
  {
  }

  lemma SuffixIsTrail(q: Query, l: Label, path: seq<Label>, i: nat)
    requires Trail(q, l, path) && i < |path|
    ensures Trail(q, path[i], path[i..])
  {
    var rest := path[i..];
    forall j | 0 <= j < |rest| - 1 ensures Edge(q.graph, rest[j], rest[j + 1]) {
      assert Edge(q.graph, path[i + j], path[i + j + 1]);
    }
  }

  lemma SuffixTraced(q: Query, path: seq<Label>, i: nat)
    requires q.target in q.graph && i < |path|
    ensures Traced(q, path[i..]) == if i == |path| - 1 then q.seed else Flow(q, path[i + 1], Traced(q, path[i + 1..]))
  {
    hide Flow;
    if i < |path| - 1 {
      assert path[i..][1..] == path[i + 1..];
    }
  }

  /** What agrees before the `i`th label of a trail makes what is relevant after it agree. The runs take the first `n` labels. */
  lemma RunAgrees(q: Query, step: Step, slice: set<Label>, l: Label, path: seq<Label>, n: nat, ss: seq<State>, ts: seq<State>, i: nat)
    requires q.target in q.graph && Described(q, step) && Trail(q, l, path) && SparesTrail(q, path)
    requires forall m :: OnSlice(q, m) ==> m in slice
    requires i < n <= |path| && FullRun(step, path[..n], ss) && SlicedRun(step, slice, path[..n], ts)
    requires Agree(ss[i], ts[i], Flow(q, path[i], Traced(q, path[i..])))
    ensures Agree(ss[i + 1], ts[i + 1], Traced(q, path[i..]))
  {
    hide Contributes, Transfer, Traced, Flow, Agree, Described, Spares, Skips, SlicedStep, Trail;
    var m, r := path[i], Traced(q, path[i..]);
    assert path[..n][i] == m;
    if Contributes(q, m, r) && !Skips(q, m, r) {
      SuffixIsTrail(q, l, path, i);
      assert Arrives(q, m, path[i..]);
      assert OnSlice(q, m);
    }
    StepAgrees(q, step, slice, m, r, ss[i], ss[i + 1], ts[i], ts[i + 1]);
  }

  /**
    If the slice holds every label that acts on relevant state, the sliced run agrees with the full run
    before every label of the trail on all that is relevant there.
  */
  lemma {:induction false} SliceAgrees(q: Query, step: Step, slice: set<Label>, l: Label, path: seq<Label>, n: nat, ss: seq<State>, ts: seq<State>, i: nat)
    requires q.target in q.graph && Described(q, step) && Trail(q, l, path) && SparesTrail(q, path)
    requires forall m :: OnSlice(q, m) ==> m in slice
    requires i < n <= |path| && FullRun(step, path[..n], ss) && SlicedRun(step, slice, path[..n], ts)
    requires Agree(ss[0], ts[0], Flow(q, l, Traced(q, path)))
    ensures Agree(ss[i], ts[i], Flow(q, path[i], Traced(q, path[i..])))
  {
    hide Transfer, Traced, Flow, Agree, Described, SparesTrail, SlicedRun, OnSlice;
    if i == 0 {
      assert path[0..] == path;
    } else {
      var j := i - 1;
      SliceAgrees(q, step, slice, l, path, n, ss, ts, j);
      RunAgrees(q, step, slice, l, path, n, ss, ts, j);
      SuffixTraced(q, path, j);
    }
  }

  /**
    The failing label sees the same values, before it and after it: a sliced run that starts where the full
    run starts reproduces what the failure depends on.
  */
  lemma SliceExplains(q: Query, step: Step, slice: set<Label>, l: Label, path: seq<Label>, ss: seq<State>, ts: seq<State>)
    requires q.target in q.graph && Described(q, step) && Trail(q, l, path) && SparesTrail(q, path)
    requires forall m :: OnSlice(q, m) ==> m in slice
    requires FullRun(step, path, ss) && SlicedRun(step, slice, path, ts)
    requires Agree(ss[0], ts[0], Flow(q, l, Traced(q, path)))
    ensures Agree(ss[|path| - 1], ts[|path| - 1], Transfer(q, q.target, q.seed))
    ensures Agree(ss[|path|], ts[|path|], q.seed)
  {
    hide Transfer, Traced, Agree, Described, SparesTrail, SlicedRun, FullRun, OnSlice;
    var n := |path| - 1;
    assert path[..|path|] == path;
    SliceAgrees(q, step, slice, l, path, |path|, ss, ts, n);
    RunAgrees(q, step, slice, l, path, |path|, ss, ts, n);
    SuffixTraced(q, path, n);
  }

  // ------------------------------------------------------------------ when a slice explains

  const ZERO := State(_ => 0, _ => 0)

  function Bumped(v: int): State {
    State(u => if u == v then 1 else 0, _ => 0)
  }

  /** Whatever a label writes becomes zero, and `l` may leave anything in the register `v`. */
  ghost predicate Disturbs(q: Query, l: Label, v: int, m: Label, s: State, s': State) {
    forall x :: !(m == l && x == Register(v)) ==>
      Value(s', x) == if m in q.deps && Has(Writes(q.deps[m]), x) then 0 else Value(s, x)
  }

  ghost function Disturbing(q: Query, l: Label, v: int): Step {
    (m, s, s') => Disturbs(q, l, v, m, s, s')
  }

  lemma DisturbingIsDescribed(q: Query, l: Label, v: int)
    requires l in q.deps && Clobbers(q.deps[l], Register(v)) && !Has(Writes(q.deps[l]), Register(v))
    ensures Described(q, Disturbing(q, l, v))
  {
    hide Writes, Has, Clobbers, Value;
    var step := Disturbing(q, l, v);
    forall m, s, s', t, t' | m in q.deps && step(m, s, s') && step(m, t, t') ensures Agree(s', t', Writes(q.deps[m])) {
      forall x | Has(Writes(q.deps[m]), x) ensures Value(s', x) == Value(t', x) {
        assert Disturbs(q, l, v, m, s, s') && Disturbs(q, l, v, m, t, t');
      }
    }
    forall m, s, s', t, t', x | m !in q.deps && step(m, s, s') && step(m, t, t') && Value(s, x) == Value(t, x)
      ensures Value(s', x) == Value(t', x)
    {
      assert Disturbs(q, l, v, m, s, s') && Disturbs(q, l, v, m, t, t');
    }
    forall m, s, s', x | m in q.deps && step(m, s, s') && !Has(Writes(q.deps[m]), x) && !Clobbers(q.deps[m], x)
      ensures Value(s', x) == Value(s, x)
    {
      assert Disturbs(q, l, v, m, s, s');
    }
  }

  lemma DisturbsZero(q: Query, l: Label, v: int)
    ensures forall m :: Disturbs(q, l, v, m, ZERO, ZERO)
    ensures Disturbs(q, l, v, l, ZERO, Bumped(v))
  {
    forall x ensures Value(ZERO, x) == 0 && (x != Register(v) ==> Value(Bumped(v), x) == 0) {
    }
  }

  lemma Shared(a: set<int>, b: set<int>) returns (v: int)
    requires !(a !! b)
    ensures v in a && v in b
  {
    var s := a * b;
    SomeMember(s);
    if s == {} {
      forall x | x in a ensures x !in b {
        assert x !in s;
      }
      assert false;
    }
    v :| v in s;
  }

  /** A clobbered register that matters: two runs from the same state, one sliced, part there. */
  lemma ClobberedDiffers(q: Query, slice: set<Label>, path: seq<Label>, i: nat)
    requires q.target in q.graph && i < |path| && !Spares(q, path[i], Traced(q, path[i..]))
    ensures !Explains(q, slice, path)
  {
    hide Traced, Flow, Described, Transfer;
    var l, r := path[i], Traced(q, path[i..]);
    var v := Shared(r.registers, q.deps[l].regsClobbered - q.deps[l].regsWritten);
    var step := Disturbing(q, l, v);
    DisturbingIsDescribed(q, l, v);
    DisturbsZero(q, l, v);
    var ss := seq(i + 2, j => if j == i + 1 then Bumped(v) else ZERO);
    var ts := seq(i + 2, _ => ZERO);
    assert FullRun(step, path[..i + 1], ss) && SlicedRun(step, slice, path[..i + 1], ts);
    assert Has(r, Register(v)) && Value(ss[i + 1], Register(v)) != Value(ts[i + 1], Register(v));
  }

  /**
    A slice explains a trail: whatever the described instructions do, a sliced run that starts where the full
    run starts holds, after every label, the values that are relevant there.
  */
  ghost predicate Explains(q: Query, slice: set<Label>, path: seq<Label>)
    requires q.target in q.graph && |path| > 0
  {
    forall step: Step, ss: seq<State>, ts: seq<State>, i: nat
      {:trigger FullRun(step, path[..i + 1], ss), SlicedRun(step, slice, path[..i + 1], ts)} ::
      i < |path| && Described(q, step) && FullRun(step, path[..i + 1], ss) && SlicedRun(step, slice, path[..i + 1], ts)
      && Agree(ss[0], ts[0], Flow(q, path[0], Traced(q, path)))
      ==> Agree(ss[i + 1], ts[i + 1], Traced(q, path[i..]))
  }

  /**
    A slice that holds every label that acts on relevant state explains a trail exactly when no label of the
    trail clobbers, without writing it, a register that matters after it.
  */
  lemma ExplainsExactly(q: Query, slice: set<Label>, l: Label, path: seq<Label>)
    requires q.target in q.graph && Trail(q, l, path)
    requires forall m :: OnSlice(q, m) ==> m in slice
    ensures Explains(q, slice, path) <==> SparesTrail(q, path)
  {
    hide Traced, Flow, Agree, Described, OnSlice, Spares, Transfer;
    if SparesTrail(q, path) {
      forall step: Step, ss: seq<State>, ts: seq<State>, i: nat |
        i < |path| && Described(q, step) && FullRun(step, path[..i + 1], ss) && SlicedRun(step, slice, path[..i + 1], ts)
        && Agree(ss[0], ts[0], Flow(q, path[0], Traced(q, path)))
        ensures Agree(ss[i + 1], ts[i + 1], Traced(q, path[i..]))
      {
        SliceAgrees(q, step, slice, l, path, i + 1, ss, ts, i);
        RunAgrees(q, step, slice, l, path, i + 1, ss, ts, i);
      }
    } else {
      var i :| 0 <= i < |path| && !Spares(q, path[i], Traced(q, path[i..]));
      ClobberedDiffers(q, slice, path, i);
    }
  }

  // ------------------------------------------------------------------ clobbered registers

  /** What an idle label passes on is everything that matters after it, exactly when it clobbers none of it. */
  lemma IdlePassesAll(q: Query, l: Label, r: RelevantState)
    requires q.target in q.graph && !Contributes(q, l, r)
    ensures Within(r, Transfer(q, l, r)) <==> Spares(q, l, r)
  {
    hide Contributes, Transfer;
    IdleTransfer(q, l, r);
    var d := q.deps[l];
    if Within(r, Transfer(q, l, r)) {
      forall v | v in r.registers ensures v !in d.regsClobbered {
        assert Has(r, Register(v));
      }
    }
  }

  const CALL := Label("", 0, -1, "")
  const FAIL := Label("", 1, -1, "")

  /** A helper call reads r1 to r5, writes r0 and clobbers r1 to r5; then an assertion on r1 fails. */
  function CallThenFail(): Query {
    Query(
      map[ENTRY := Adjacent({}, {CALL}), CALL := Adjacent({ENTRY}, {FAIL}), FAIL := Adjacent({CALL}, {EXIT}), EXIT := Adjacent({FAIL}, {})],
      map[CALL := InstructionDeps({1, 2, 3, 4, 5}, {0}, {1, 2, 3, 4, 5}, {}, {}), FAIL := InstructionDeps({1}, {}, {}, {}, {})],
      _ => false, _ => false, FAIL, RelevantState({1}, {}))
  }

  /** The call leaves 7 in the argument registers; nothing else changes anything. */
  ghost predicate CallLeavesSeven(l: Label, s: State, s': State) {
    && s'.stack == s.stack
    && forall v :: s'.registers(v) == if l == CALL && 0 <= v <= 5 then 7 else s.registers(v)
  }

  lemma CallTrail(path: seq<Label>)
    ensures Trail(CallThenFail(), CALL, path) ==> path == [CALL, FAIL]
  {
    var q := CallThenFail();
    if Trail(q, CALL, path) {
      WalkStep(q, path, 0);
      WalkStep(q, path, 1);
      WalkStep(q, path, 2);
    }
  }

  function CallState(): State {
    State(v => if 0 <= v <= 5 then 7 else 0, _ => 0)
  }

  /** What matters after the call is r1, which the call clobbers and does not write; so it is not on the slice. */
  lemma CallIsIdle()
    ensures var q := CallThenFail();
      Traced(q, [CALL, FAIL]) == RelevantState({1}, {}) && !Contributes(q, CALL, RelevantState({1}, {})) && !Spares(q, CALL, RelevantState({1}, {}))
  {
    var q := CallThenFail();
    assert [CALL, FAIL][1..] == [FAIL];
    assert Traced(q, [FAIL]) == q.seed && Flow(q, FAIL, q.seed) == RelevantState({1}, {});
    assert 1 in q.deps[CALL].regsClobbered - q.deps[CALL].regsWritten;
    assert q.deps[CALL].regsWritten * {1} == {};
  }

  lemma CallIsOffSlice()
    ensures !OnSlice(CallThenFail(), CALL)
  {
    hide Traced, Contributes, Spares;
    var q := CallThenFail();
    CallIsIdle();
    if OnSlice(q, CALL) {
      var path :| Arrives(q, CALL, path) && Contributes(q, CALL, Traced(q, path));
      CallTrail(path);
    }
  }

  /** The full run and the sliced run over the call end in states that differ in r1. */
  lemma CallRunsDiffer()
    ensures var step: Step := (l, s, s') => CallLeavesSeven(l, s, s');
      && FullRun(step, [CALL], [ZERO, CallState()])
      && (forall slice :: CALL !in slice ==> SlicedRun(step, slice, [CALL], [ZERO, ZERO]))
      && !Agree(CallState(), ZERO, RelevantState({1}, {}))
  {
    assert CallState().stack == ZERO.stack;
    assert Has(RelevantState({1}, {}), Register(1)) && Value(CallState(), Register(1)) != Value(ZERO, Register(1));
  }

  /** The call decides r1, is not on the slice, and the sliced run sees another value: r1 was dropped without the call counting. */
  lemma ClobberIsNotSliced()
    ensures var q := CallThenFail();
      var step: Step := (l, s, s') => CallLeavesSeven(l, s, s');
      && WellFormed(q.graph) && !OnSlice(q, CALL) && !Spares(q, CALL, Traced(q, [CALL, FAIL]))
      && FullRun(step, [CALL], [ZERO, CallState()]) && (forall slice :: CALL !in slice ==> SlicedRun(step, slice, [CALL], [ZERO, ZERO]))
      && !Agree(CallState(), ZERO, q.seed)
  {
    hide Traced, OnSlice, Spares, FullRun, SlicedRun, Agree, Contributes;
    CallIsIdle();
    CallIsOffSlice();
    CallRunsDiffer();
  }
}
