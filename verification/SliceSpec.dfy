/**
  What a backward slice is (src/result.rs:74-132, src/result.rs:454-660): the relevance a path carries
  back from the failing label, and the labels that act on it.
*/
module SliceSpec {
  import opened Graph

  /** What one instruction reads and writes; stack offsets count from R10. */
  datatype InstructionDeps = InstructionDeps(
    regsRead: set<int>,
    regsWritten: set<int>,
    regsClobbered: set<int>,
    stackRead: set<int>,
    stackWritten: set<int>)

  datatype RelevantState = RelevantState(registers: set<int>, stackOffsets: set<int>)

  const EMPTY := RelevantState({}, {})

  datatype Location = Register(v: int) | StackOffset(offset: int)

  /** A slicing question: the program, the recorded dependencies, the failing label and what matters there. */
  datatype Query = Query(
    graph: Neighbours,
    deps: map<Label, InstructionDeps>,
    isJmp: Label -> bool,
    isAssume: Label -> bool,
    target: Label,
    seed: RelevantState)

  function Merge(a: RelevantState, b: RelevantState): RelevantState {
    RelevantState(a.registers + b.registers, a.stackOffsets + b.stackOffsets)
  }

  function Size(r: RelevantState): nat {
    |r.registers| + |r.stackOffsets|
  }

  predicate Has(r: RelevantState, x: Location) {
    match x
    case Register(v) => v in r.registers
    case StackOffset(o) => o in r.stackOffsets
  }

  ghost predicate Within(a: RelevantState, b: RelevantState) {
    forall x :: Has(a, x) ==> Has(b, x)
  }

  /** A seed that names nothing asks for the whole control flow leading to the failure. */
  predicate Conservative(q: Query) {
    q.seed == EMPTY
  }

  predicate Contributes(q: Query, l: Label, r: RelevantState)
    requires q.target in q.graph
  {
    || l !in q.deps
    || q.deps[l].regsWritten * r.registers != {}
    || q.deps[l].stackWritten * r.stackOffsets != {}
    || ((q.isJmp(l) || q.isAssume(l)) && q.deps[l].regsRead * r.registers != {})
    || (q.isAssume(l) && l in q.graph[q.target].parents)
    || l == q.target
    || Conservative(q)
  }

  /** What is relevant before a label, given what is relevant after it. */
  function Transfer(q: Query, l: Label, r: RelevantState): RelevantState
    requires q.target in q.graph
  {
    if l !in q.deps then r
    else
      var d := q.deps[l];
      var c := Contributes(q, l, r);
      RelevantState(
        r.registers - d.regsWritten - d.regsClobbered + (if c then d.regsRead else {}),
        r.stackOffsets + (if c then d.stackRead else {}) - (d.stackWritten - d.stackRead))
  }

  /** A label at which nothing is relevant is not looked at. */
  predicate Skips(q: Query, l: Label, r: RelevantState) {
    !Conservative(q) && l != q.target && r == EMPTY
  }

  function Flow(q: Query, l: Label, r: RelevantState): RelevantState
    requires q.target in q.graph
  {
    if Skips(q, l, r) then EMPTY else Transfer(q, l, r)
  }

  // ------------------------------------------------------------------ trails

  /** A walk to the failing label. */
  ghost predicate Trail(q: Query, l: Label, path: seq<Label>) {
    Walk(q.graph, path) && path[0] == l && path[|path| - 1] == q.target
  }

  /** What is relevant after the first label of a trail, by this trail alone. */
  ghost function Traced(q: Query, path: seq<Label>): RelevantState
    requires q.target in q.graph && |path| > 0
  {
    if |path| == 1 then q.seed else Flow(q, path[1], Traced(q, path[1..]))
  }

  /** Along this trail something is relevant at its first label. */
  ghost predicate Arrives(q: Query, l: Label, path: seq<Label>)
    requires q.target in q.graph
  {
    Trail(q, l, path) && !Skips(q, l, Traced(q, path))
  }

  ghost predicate Reached(q: Query, l: Label)
    requires q.target in q.graph
  {
    exists path :: Arrives(q, l, path)
  }

  /** Along some trail the label acts on what is relevant. */
  ghost predicate OnSlice(q: Query, l: Label)
    requires q.target in q.graph
  {
    exists path :: Arrives(q, l, path) && Contributes(q, l, Traced(q, path))
  }

  ghost predicate RelevantAfter(q: Query, l: Label, x: Location)
    requires q.target in q.graph
  {
    exists path :: Trail(q, l, path) && Has(Traced(q, path), x)
  }

  ghost predicate RelevantBefore(q: Query, l: Label, x: Location)
    requires q.target in q.graph
  {
    exists path :: Arrives(q, l, path) && Contributes(q, l, Traced(q, path)) && Has(Transfer(q, l, Traced(q, path)), x)
  }

  // ------------------------------------------------------------------ the transfer

  lemma MergeHas(a: RelevantState, b: RelevantState, x: Location)
    ensures Has(Merge(a, b), x) <==> Has(a, x) || Has(b, x)
  {
  }

  lemma ContributesUnion(q: Query, l: Label, a: RelevantState, b: RelevantState)
    requires q.target in q.graph
    ensures Contributes(q, l, Merge(a, b)) <==> Contributes(q, l, a) || Contributes(q, l, b)
  {
    if l in q.deps {
      var d := q.deps[l];
      assert d.regsWritten * (a.registers + b.registers) == d.regsWritten * a.registers + d.regsWritten * b.registers;
      assert d.stackWritten * (a.stackOffsets + b.stackOffsets) == d.stackWritten * a.stackOffsets + d.stackWritten * b.stackOffsets;
      assert d.regsRead * (a.registers + b.registers) == d.regsRead * a.registers + d.regsRead * b.registers;
    }
  }

  /** The transfer of a union is the union of the transfers, so items may be transferred one by one. */
  lemma TransferUnion(q: Query, l: Label, a: RelevantState, b: RelevantState)
    requires q.target in q.graph
    ensures Transfer(q, l, Merge(a, b)) == Merge(Transfer(q, l, a), Transfer(q, l, b))
  {
    hide Contributes;
    ContributesUnion(q, l, a, b);
  }

  lemma WithinMerge(a: RelevantState, b: RelevantState)
    requires Within(a, b)
    ensures Merge(a, b) == b
  {
    forall v | v in a.registers ensures v in b.registers {
      assert Has(a, Register(v));
    }
    forall o | o in a.stackOffsets ensures o in b.stackOffsets {
      assert Has(a, StackOffset(o));
    }
    assert a.registers + b.registers == b.registers && a.stackOffsets + b.stackOffsets == b.stackOffsets;
  }

  /** More relevance after a label means more before it. */
  lemma FlowMonotone(q: Query, l: Label, a: RelevantState, b: RelevantState)
    requires q.target in q.graph && Within(a, b)
    ensures Within(Flow(q, l, a), Transfer(q, l, b))
    ensures Contributes(q, l, a) ==> Contributes(q, l, b)
  {
    hide Contributes, Transfer, Within;
    WithinMerge(a, b);
    TransferUnion(q, l, a, b);
    ContributesUnion(q, l, a, b);
    forall x | Has(Flow(q, l, a), x) ensures Has(Transfer(q, l, b), x) {
      MergeHas(Transfer(q, l, a), Transfer(q, l, b), x);
    }
    WithinIntro(Flow(q, l, a), Transfer(q, l, b));
  }

  lemma WithinIntro(a: RelevantState, b: RelevantState)
    requires forall x :: Has(a, x) ==> Has(b, x)
    ensures Within(a, b)
  {
  }

  /** A label that does not contribute passes on what it neither writes nor clobbers, and nothing else. */
  lemma IdleTransfer(q: Query, l: Label, r: RelevantState)
    requires q.target in q.graph && !Contributes(q, l, r)
    ensures l in q.deps && r.registers !! q.deps[l].regsWritten && r.stackOffsets !! q.deps[l].stackWritten
    ensures Transfer(q, l, r) == RelevantState(r.registers - q.deps[l].regsClobbered, r.stackOffsets)
  {
    var d := q.deps[l];
    assert r.registers - d.regsWritten == r.registers by {
      forall v | v in r.registers ensures v !in d.regsWritten {
        assert v !in d.regsWritten * r.registers;
      }
    }
    forall o | o in r.stackOffsets ensures o !in d.stackWritten {
      assert o !in d.stackWritten * r.stackOffsets;
    }
  }

  // ------------------------------------------------------------------ the relevance universe

  ghost function Locations(r: RelevantState): set<Location> {
    (set v | v in r.registers :: Register(v)) + (set o | o in r.stackOffsets :: StackOffset(o))
  }

  function Reads(d: InstructionDeps): RelevantState {
    RelevantState(d.regsRead, d.stackRead)
  }

  function Writes(d: InstructionDeps): RelevantState {
    RelevantState(d.regsWritten, d.stackWritten)
  }

  /** Everything that can ever become relevant: the seed and what some instruction reads. */
  ghost function Universe(q: Query): set<Location> {
    Locations(q.seed) + set l, x | l in q.deps && x in Locations(Reads(q.deps[l])) :: x
  }

  lemma LocationsHas(r: RelevantState, x: Location)
    ensures x in Locations(r) <==> Has(r, x)
  {
  }

  lemma TransferStays(q: Query, l: Label, r: RelevantState, x: Location)
    requires q.target in q.graph && Has(Transfer(q, l, r), x)
    ensures Has(r, x) || (l in q.deps && Has(Reads(q.deps[l]), x))
  {
  }

  lemma {:induction false} TracedStays(q: Query, path: seq<Label>, x: Location)
    requires q.target in q.graph && |path| > 0 && Has(Traced(q, path), x)
    ensures x in Universe(q)
  {
    hide Transfer, Locations;
    if |path| == 1 {
      LocationsHas(q.seed, x);
    } else {
      var r := Traced(q, path[1..]);
      TransferStays(q, path[1], r, x);
      if Has(r, x) {
        TracedStays(q, path[1..], x);
      } else {
        LocationsHas(Reads(q.deps[path[1]]), x);
      }
    }
  }

  lemma TrailExtends(q: Query, l: Label, path: seq<Label>, parent: Label)
    requires q.target in q.graph && Trail(q, l, path) && Edge(q.graph, parent, l) && !Skips(q, l, Traced(q, path))
    ensures Trail(q, parent, [parent] + path)
    ensures Traced(q, [parent] + path) == Transfer(q, l, Traced(q, path))
  {
    var longer := [parent] + path;
    assert longer[1..] == path;
    forall i | 0 <= i < |longer| - 1 ensures Edge(q.graph, longer[i], longer[i + 1]) {
      if i > 0 {
        assert longer[i] == path[i - 1] && longer[i + 1] == path[i];
      }
    }
  }

  lemma WalkStep(q: Query, path: seq<Label>, i: nat)
    requires Walk(q.graph, path)
    ensures i + 1 < |path| ==> Edge(q.graph, path[i], path[i + 1])
  {
  }

  lemma TrailRest(q: Query, l: Label, path: seq<Label>)
    requires Trail(q, l, path) && |path| > 1
    ensures Trail(q, path[1], path[1..]) && Edge(q.graph, l, path[1])
  {
    var rest := path[1..];
    assert Edge(q.graph, path[0], path[1]);
    forall i | 0 <= i < |rest| - 1 ensures Edge(q.graph, rest[i], rest[i + 1]) {
      assert Edge(q.graph, path[i + 1], path[i + 2]);
    }
  }

  /** An empty seed puts every label from which the failing label can be reached on the slice. */
  lemma ConservativeSlice(q: Query, l: Label)
    requires q.target in q.graph && Conservative(q)
    ensures OnSlice(q, l) <==> exists path :: Trail(q, l, path)
  {
    if path :| Trail(q, l, path) {
      assert Arrives(q, l, path) && Contributes(q, l, Traced(q, path));
    }
  }

  lemma SomeMember(s: set<int>)
    ensures s == {} || exists v :: v in s
  {
    if forall v :: v !in s {
      assert s == {};
    }
  }
}
