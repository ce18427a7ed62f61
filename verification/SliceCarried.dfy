/**
  What a path carries to its first label, and which labels act on it (src/result.rs:533-654), said without the
  transfer: who reads a place, who kills it on the way, and what makes a label part of the slice.
*/
module SliceCarried {
  import opened Graph
  import opened SliceSpec

  /** What was there before the label does not matter: a register written or clobbered, an offset written and not read. */
  predicate Kills(q: Query, l: Label, x: Location) {
    l in q.deps && match x
      case Register(v) => v in q.deps[l].regsWritten || v in q.deps[l].regsClobbered
      case StackOffset(o) => o in q.deps[l].stackWritten && o !in q.deps[l].stackRead
  }

  /** The label at `j` acts on what is relevant after it. */
  ghost predicate Acts(q: Query, path: seq<Label>, j: nat)
    requires q.target in q.graph && j < |path|
  {
    var r := Traced(q, path[j..]);
    Contributes(q, path[j], r) && !Skips(q, path[j], r)
  }

  ghost predicate ReadsPlace(q: Query, l: Label, x: Location) {
    l in q.deps && Has(Reads(q.deps[l]), x)
  }

  /** A later label that acts reads `x`, or the seed names it, and no label on the way kills it. */
  ghost predicate Carries(q: Query, path: seq<Label>, x: Location)
    requires q.target in q.graph && |path| > 0
  {
    || (Has(q.seed, x) && forall i :: 0 < i < |path| ==> !Kills(q, path[i], x))
    || exists j: nat :: ReadsAt(q, path, j, x)
  }

  ghost predicate ReadsAt(q: Query, path: seq<Label>, j: nat, x: Location)
    requires q.target in q.graph
  {
    0 < j < |path| && Acts(q, path, j) && ReadsPlace(q, path[j], x) && forall i :: 0 < i < j ==> !Kills(q, path[i], x)
  }

  lemma TransferPlace(q: Query, l: Label, r: RelevantState, x: Location)
    requires q.target in q.graph
    ensures Has(Transfer(q, l, r), x) <==>
      (Contributes(q, l, r) && ReadsPlace(q, l, x)) || (Has(r, x) && !Kills(q, l, x))
  {
    hide Contributes;
  }

  lemma FlowPlace(q: Query, l: Label, r: RelevantState, x: Location)
    requires q.target in q.graph
    ensures Has(Flow(q, l, r), x) <==>
      (Contributes(q, l, r) && !Skips(q, l, r) && ReadsPlace(q, l, x)) || (Has(r, x) && !Kills(q, l, x))
  {
    hide Contributes, Transfer;
    TransferPlace(q, l, r, x);
  }

  /** Which places a path makes relevant. */
  lemma {:induction false} CarriedPlace(q: Query, path: seq<Label>, x: Location)
    requires q.target in q.graph && |path| > 0
    ensures Has(Traced(q, path), x) <==> Carries(q, path, x)
    decreases |path|
  {
    hide Acts, Kills, ReadsPlace, Flow;
    if |path| > 1 {
      var rest := path[1..];
      CarriedPlace(q, rest, x);
      FlowPlace(q, path[1], Traced(q, rest), x);
      assert Acts(q, path, 1) <==> Contributes(q, path[1], Traced(q, rest)) && !Skips(q, path[1], Traced(q, rest)) by {
        ActsIs(q, path, 1);
      }
      CarriesStep(q, path, x);
    }
  }

  lemma ActsIs(q: Query, path: seq<Label>, j: nat)
    requires q.target in q.graph && j < |path|
    ensures Acts(q, path, j) <==> Contributes(q, path[j], Traced(q, path[j..])) && !Skips(q, path[j], Traced(q, path[j..]))
  {
  }

  lemma ActsShift(q: Query, path: seq<Label>, j: nat)
    requires q.target in q.graph && 0 < j < |path|
    ensures Acts(q, path, j) <==> Acts(q, path[1..], j - 1)
  {
    assert path[1..][j - 1..] == path[j..];
  }

  /** What is carried to the first label is read by the second, or carried to the second and not killed there. */
  lemma CarriesStep(q: Query, path: seq<Label>, x: Location)
    requires q.target in q.graph && |path| > 1
    ensures Carries(q, path, x) <==>
      (Acts(q, path, 1) && ReadsPlace(q, path[1], x)) || (Carries(q, path[1..], x) && !Kills(q, path[1], x))
  {
    hide Acts, Kills, ReadsPlace;
    var rest := path[1..];
    assert forall i :: 0 < i < |rest| ==> rest[i] == path[i + 1];
    assert forall i :: 1 < i < |path| ==> path[i] == rest[i - 1];
    if j: nat :| ReadsAt(q, path, j, x) {
      if j > 1 {
        ActsShift(q, path, j);
        assert ReadsAt(q, rest, j - 1, x);
      }
    }
    if !Kills(q, path[1], x) {
      if j: nat :| ReadsAt(q, rest, j, x) {
        ActsShift(q, path, j + 1);
        assert forall i :: 0 < i < j + 1 ==> i == 1 || path[i] == rest[i - 1];
        assert ReadsAt(q, path, j + 1, x);
      }
    }
    if Acts(q, path, 1) && ReadsPlace(q, path[1], x) {
      assert ReadsAt(q, path, 1, x);
    }
  }

  // ------------------------------------------------------------------ what is on the slice

  /** The label writes something the path carries to it. */
  ghost predicate WritesCarried(q: Query, l: Label, path: seq<Label>)
    requires q.target in q.graph && |path| > 0
  {
    l in q.deps && exists x :: Has(Writes(q.deps[l]), x) && Carries(q, path, x)
  }

  /** The label is a jump or an assumption and reads a register the path carries to it. */
  ghost predicate BranchesOn(q: Query, l: Label, path: seq<Label>)
    requires q.target in q.graph && |path| > 0
  {
    l in q.deps && (q.isJmp(l) || q.isAssume(l)) && exists v :: v in q.deps[l].regsRead && Carries(q, path, Register(v))
  }

  /** Acts on anything: a label without dependencies, an assumption just before the failing label, or that label. */
  predicate ActsAnyway(q: Query, l: Label)
    requires q.target in q.graph
  {
    l !in q.deps || (q.isAssume(l) && l in q.graph[q.target].parents) || l == q.target
  }

  ghost predicate SomethingCarried(q: Query, path: seq<Label>)
    requires q.target in q.graph && |path| > 0
  {
    exists x :: Carries(q, path, x)
  }

  /** Along the trail the label belongs to the slice. */
  ghost predicate ActsOn(q: Query, l: Label, path: seq<Label>)
    requires q.target in q.graph
  {
    && Trail(q, l, path)
    && (Conservative(q) || l == q.target || WritesCarried(q, l, path) || BranchesOn(q, l, path)
      || (ActsAnyway(q, l) && SomethingCarried(q, path)))
  }

  lemma CarriedPlaces(q: Query, path: seq<Label>)
    requires q.target in q.graph && |path| > 0
    ensures forall x :: Has(Traced(q, path), x) <==> Carries(q, path, x)
  {
    hide Carries, Traced, Has;
    forall x ensures Has(Traced(q, path), x) <==> Carries(q, path, x) {
      CarriedPlace(q, path, x);
    }
  }

  lemma NothingCarried(q: Query, path: seq<Label>)
    requires q.target in q.graph && |path| > 0
    ensures SomethingCarried(q, path) <==> Traced(q, path) != EMPTY
  {
    hide Carries, Traced;
    CarriedPlaces(q, path);
    SomePlace(Traced(q, path));
  }

  lemma SomePlace(r: RelevantState)
    ensures r != EMPTY <==> exists x :: Has(r, x)
  {
    SomeMember(r.registers);
    SomeMember(r.stackOffsets);
    if v :| v in r.registers {
      assert Has(r, Register(v));
    }
    if o :| o in r.stackOffsets {
      assert Has(r, StackOffset(o));
    }
  }

  lemma CommonPlace(d: InstructionDeps, r: RelevantState)
    ensures d.regsWritten * r.registers != {} || d.stackWritten * r.stackOffsets != {} <==> exists x :: Has(Writes(d), x) && Has(r, x)
  {
    SomeMember(d.regsWritten * r.registers);
    SomeMember(d.stackWritten * r.stackOffsets);
    if v :| v in d.regsWritten * r.registers {
      assert Has(Writes(d), Register(v)) && Has(r, Register(v));
    }
    if o :| o in d.stackWritten * r.stackOffsets {
      assert Has(Writes(d), StackOffset(o)) && Has(r, StackOffset(o));
    }
    if x :| Has(Writes(d), x) && Has(r, x) {
      match x
      case Register(v) => assert v in d.regsWritten * r.registers;
      case StackOffset(o) => assert o in d.stackWritten * r.stackOffsets;
    }
  }

  lemma CommonRegister(s: set<int>, r: RelevantState)
    ensures s * r.registers != {} <==> exists v :: v in s && Has(r, Register(v))
  {
    SomeMember(s * r.registers);
    if v :| v in s * r.registers {
      assert v in s && Has(r, Register(v));
    }
    if v :| v in s && Has(r, Register(v)) {
      assert v in s * r.registers;
    }
  }

  /** One trail, with the contribution test spelled out. */
  lemma ActsOnTrail(q: Query, l: Label, path: seq<Label>)
    requires q.target in q.graph && Trail(q, l, path)
    ensures Arrives(q, l, path) && Contributes(q, l, Traced(q, path)) <==> ActsOn(q, l, path)
  {
    hide Carries, Traced, Has;
    var r := Traced(q, path);
    CarriedPlaces(q, path);
    NothingCarried(q, path);
    if l in q.deps {
      CommonPlace(q.deps[l], r);
      CommonRegister(q.deps[l].regsRead, r);
    }
    SomePlace(r);
  }

  /**
    What is on the slice: along some path a label writes what the path carries to it, or is a branch that reads
    a register carried to it, or acts on anything and something is carried; and the failing label always.
  */
  lemma OnSliceExactly(q: Query, l: Label)
    requires q.target in q.graph
    ensures OnSlice(q, l) <==> exists path :: ActsOn(q, l, path)
  {
    hide Contributes, ActsOn, Traced;
    if path :| Arrives(q, l, path) && Contributes(q, l, Traced(q, path)) {
      ActsOnTrail(q, l, path);
    }
    if path :| ActsOn(q, l, path) {
      ActsOnIsTrail(q, l, path);
      ActsOnTrail(q, l, path);
    }
  }

  lemma ActsOnIsTrail(q: Query, l: Label, path: seq<Label>)
    requires q.target in q.graph && ActsOn(q, l, path)
    ensures Trail(q, l, path)
  {
  }
}
