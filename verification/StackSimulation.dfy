/**
  The numeric domain over stack cells, and what it means for it to simulate byte memory: every
  valuation that reads the live cells off memory, and is otherwise arbitrary, is described. So a live
  cell is constrained to nothing but its bytes, and a cell that is not live is not constrained at all.
*/
module StackSimulation {
  import opened Wrappers
  import opened Numbers
  import opened Intervals
  import opened Shifts
  import opened StackMemory
  import opened OffsetMaps

  /** The kinds of scalar a cell has: its type, its two numeric views, and one per kind of pointer attribute. */
  datatype DataKind = Types | Svalues | Uvalues | Pointer(index: nat)

  /** A scalar of a cell, or any other variable of the numeric domain. */
  datatype NumVar = Scalar(kind: DataKind, cell: Cell) | Outer(id: int)

  datatype NumExpr = Variable(v: NumVar) | Constant(n: int)

  type Env = imap<NumVar, int>

  ghost predicate Total(e: Env) {
    forall v: NumVar :: v in e
  }

  ghost function Val(x: NumExpr, e: Env): int
    requires Total(e)
  {
    match x
    case Variable(v) => e[v]
    case Constant(n) => n
  }

  ghost function Updated(e: Env, v: NumVar, n: int): Env {
    e[v := n]
  }

  /** The numeric domain through the operations the stack domain uses; `mem` is its meaning. */
  datatype NumOps<!N> = NumOps(
    eval: (N, NumVar) -> Interval,
    assign: (N, NumVar, NumExpr) -> N,
    havoc: (N, NumVar) -> N,
    overflowBounds: (N, NumVar, nat, bool) -> N,
    join: (N, N) -> N,
    meet: (N, N) -> N,
    mem: (N, Env) -> bool)

  /** Each operation describes at least the states it should. */
  ghost predicate SoundNum<N(!new)>(ops: NumOps<N>) {
    && (forall d, e, v :: Total(e) && ops.mem(d, e) ==> Contains(ops.eval(d, v), e[v]))
    && (forall d, e, v, x :: Total(e) && ops.mem(d, e) ==> ops.mem(ops.assign(d, v, x), Updated(e, v, Val(x, e))))
    && (forall d, e, v, n :: Total(e) && ops.mem(d, e) ==> ops.mem(ops.havoc(d, v), Updated(e, v, n)))
    && (forall d, e, v, w, s :: Total(e) && ops.mem(d, e) ==> ops.mem(ops.overflowBounds(d, v, w, s), Updated(e, v, Wrap(e[v], w, s))))
    && (forall a, b, e :: ops.mem(a, e) || ops.mem(b, e) ==> ops.mem(ops.join(a, b), e))
    && (forall a, b, e :: ops.mem(a, e) && ops.mem(b, e) ==> ops.mem(ops.meet(a, b), e))
  }

  /** A pointer attribute stored in a cell, such as the offset into the region pointed to. */
  datatype Held = Held(index: nat, cell: Cell)

  /**
    The concrete side: byte order, memory, the values of the other variables, and the pointer attributes
    that the stack holds. Bytes do not determine an attribute; a store of a pointer puts it there.
  */
  datatype Machine = Machine(bigEndian: bool, memory: Memory, outer: int -> int, shadow: map<Held, int>)

  function ScalarOf(p: Held): NumVar {
    Scalar(Pointer(p.index), p.cell)
  }

  /** What a numeric scalar of a cell stands for: 8-byte signed values are two's complement, narrower ones zero-extended. */
  ghost function Reading(kind: DataKind, c: Cell, k: Machine): int {
    var u := Read(k.memory, k.bigEndian, c.offset, c.size);
    if kind == Svalues && c.size == 8 then SignExtend(u, 64) else u
  }

  /** The valuation reads the numeric scalars of the live cells off memory, and the pointer attributes off the shadow. */
  ghost predicate Agrees(e: Env, live: set<Cell>, k: Machine) {
    && Total(e)
    && (forall c :: c in live ==> e[Scalar(Svalues, c)] == Reading(Svalues, c, k) && e[Scalar(Uvalues, c)] == Reading(Uvalues, c, k))
    && (forall i :: e[Outer(i)] == k.outer(i))
    && (forall p :: p in k.shadow ==> e[ScalarOf(p)] == k.shadow[p])
  }

  ghost predicate Simulates<N>(ops: NumOps<N>, d: N, live: set<Cell>, k: Machine) {
    forall e :: Agrees(e, live, k) ==> ops.mem(d, e)
  }

  // ------------------------------------------------------------------ what keeps the simulation

  /** Declaring more cells live asks for less. */
  lemma SimGrow<N>(ops: NumOps<N>, d: N, live: set<Cell>, live': set<Cell>, k: Machine)
    requires Simulates(ops, d, live, k) && live <= live'
    ensures Simulates(ops, d, live', k)
  {
    forall e | Agrees(e, live', k) ensures ops.mem(d, e) {
      assert Agrees(e, live, k);
    }
  }

  lemma SimForget<N(!new)>(ops: NumOps<N>, d: N, v: NumVar, live: set<Cell>, k: Machine)
    requires SoundNum(ops) && Simulates(ops, d, live, k)
    ensures Simulates(ops, ops.havoc(d, v), live, k)
  {
    forall e | Agrees(e, live, k) ensures ops.mem(ops.havoc(d, v), e) {
      assert Updated(e, v, e[v]) == e;
    }
  }

  /** The value of `x` is what the scalar `v` of a live cell stands for. */
  ghost predicate Means(x: NumExpr, kind: DataKind, c: Cell, live: set<Cell>, k: Machine) {
    forall e :: Agrees(e, live, k) ==> Val(x, e) == Reading(kind, c, k)
  }

  /** Giving a live cell's scalar its true value keeps the simulation. */
  lemma SimLearn<N(!new)>(ops: NumOps<N>, d: N, kind: DataKind, c: Cell, x: NumExpr, live: set<Cell>, k: Machine)
    requires SoundNum(ops) && Simulates(ops, d, live, k) && c in live
    requires kind == Svalues || kind == Uvalues
    requires Means(x, kind, c, live, k)
    ensures Simulates(ops, ops.assign(d, Scalar(kind, c), x), live, k)
  {
    forall e | Agrees(e, live, k) ensures ops.mem(ops.assign(d, Scalar(kind, c), x), e) {
      assert Updated(e, Scalar(kind, c), Val(x, e)) == e;
    }
  }

  lemma AgreesRestored(e: Env, c: Cell, first: DataKind, second: DataKind, live: set<Cell>, k: Machine)
    requires Agrees(e, live - {c}, k)
    requires (first == Svalues && second == Uvalues) || (first == Uvalues && second == Svalues)
    ensures Agrees(Updated(Updated(e, Scalar(first, c), Reading(first, c, k)), Scalar(second, c), Reading(second, c, k)), live, k)
  {
    hide Reading;
  }

  lemma UpdatedBack(e: Env, v: NumVar, w: NumVar, a: int, b: int)
    requires Total(e) && v != w
    ensures Updated(Updated(Updated(Updated(e, v, a), w, b), v, e[v]), w, e[w]) == e
  {
  }

  /** Forgetting both numeric scalars of a cell, it need not be live any more. */
  lemma SimKill<N(!new)>(ops: NumOps<N>, d: N, c: Cell, first: DataKind, second: DataKind, live: set<Cell>, k: Machine)
    requires SoundNum(ops) && Simulates(ops, d, live, k)
    requires (first == Svalues && second == Uvalues) || (first == Uvalues && second == Svalues)
    ensures Simulates(ops, ops.havoc(ops.havoc(d, Scalar(first, c)), Scalar(second, c)), live - {c}, k)
  {
    hide SoundNum, Updated, Reading;
    var v, w := Scalar(first, c), Scalar(second, c);
    forall e | Agrees(e, live - {c}, k) ensures ops.mem(ops.havoc(ops.havoc(d, v), w), e) {
      AgreesRestored(e, c, first, second, live, k);
      var e0 := Updated(Updated(e, v, Reading(first, c, k)), w, Reading(second, c, k));
      HavocHolds(ops, d, e0, v, e[v]);
      var e1 := Updated(e0, v, e[v]);
      TotalUpdated(e0, v, e[v]);
      HavocHolds(ops, ops.havoc(d, v), e1, w, e[w]);
      UpdatedBack(e, v, w, Reading(first, c, k), Reading(second, c, k));
    }
  }

  lemma TotalUpdated(e: Env, v: NumVar, n: int)
    requires Total(e)
    ensures Total(Updated(e, v, n))
  {
  }

  lemma HavocHolds<N(!new)>(ops: NumOps<N>, d: N, e: Env, v: NumVar, n: int)
    requires SoundNum(ops) && Total(e) && ops.mem(d, e)
    ensures ops.mem(ops.havoc(d, v), Updated(e, v, n))
  {
  }

  lemma SameReadings(k: Machine, k': Machine)
    requires k'.memory == k.memory && k'.bigEndian == k.bigEndian
    ensures forall kind, c :: Reading(kind, c, k') == Reading(kind, c, k)
  {
  }

  /** Forgetting the scalar of a pointer attribute, the shadow need not hold it any more. */
  lemma SimKillPointer<N(!new)>(ops: NumOps<N>, d: N, p: Held, live: set<Cell>, k: Machine)
    requires SoundNum(ops) && Simulates(ops, d, live, k)
    ensures Simulates(ops, ops.havoc(d, ScalarOf(p)), live, k.(shadow := k.shadow - {p}))
  {
    hide Reading;
    var v, k' := ScalarOf(p), k.(shadow := k.shadow - {p});
    forall e | Agrees(e, live, k') ensures ops.mem(ops.havoc(d, v), e) {
      var e0 := Updated(e, v, if p in k.shadow then k.shadow[p] else e[v]);
      SameReadings(k, k');
      forall q | q in k.shadow ensures e0[ScalarOf(q)] == k.shadow[q] {
        assert q != p ==> q in k'.shadow;
      }
      assert Agrees(e0, live, k);
      assert Updated(e0, v, e[v]) == e;
    }
  }

  /** Giving the scalar of a pointer attribute that is not held the value that is stored there. */
  lemma SimLearnPointer<N(!new)>(ops: NumOps<N>, d: N, p: Held, x: NumExpr, n: int, live: set<Cell>, k: Machine)
    requires SoundNum(ops) && Simulates(ops, d, live, k) && p !in k.shadow
    requires forall e :: Agrees(e, live, k) ==> Val(x, e) == n
    ensures Simulates(ops, ops.assign(d, ScalarOf(p), x), live, k.(shadow := k.shadow[p := n]))
  {
    hide Reading;
    var k' := k.(shadow := k.shadow[p := n]);
    forall e | Agrees(e, live, k') ensures ops.mem(ops.assign(d, ScalarOf(p), x), e) {
      SameReadings(k, k');
      assert forall q :: q in k.shadow ==> q in k'.shadow && k'.shadow[q] == k.shadow[q];
      assert Agrees(e, live, k);
      assert e[ScalarOf(p)] == n;
      assert Updated(e, ScalarOf(p), Val(x, e)) == e;
    }
  }

  /** Memory may change where no live cell is. */
  lemma SimElsewhere<N>(ops: NumOps<N>, d: N, live: set<Cell>, k: Machine, k': Machine, offset: int, size: int)
    requires Simulates(ops, d, live, k) && k'.bigEndian == k.bigEndian
    requires forall i :: k'.outer(i) == k.outer(i)
    requires forall p :: p in k.shadow ==> p in k'.shadow && k'.shadow[p] == k.shadow[p]
    requires forall i :: !(offset <= i < offset + size) ==> k'.memory(i) == k.memory(i)
    requires forall c :: c in live ==> c.size > 0 && !Meets(c, offset, size)
    ensures Simulates(ops, d, live, k')
  {
    forall e | Agrees(e, live, k') ensures ops.mem(d, e) {
      forall c | c in live
        ensures Reading(Svalues, c, k) == Reading(Svalues, c, k') && Reading(Uvalues, c, k) == Reading(Uvalues, c, k')
      {
        ReadLocal(k.memory, k'.memory, k.bigEndian, c.offset, c.size);
      }
      assert Agrees(e, live, k);
    }
  }

  /** A store of a known value through a narrow view: assign, then wrap to the width. */
  lemma SimLearnWrapped<N(!new)>(ops: NumOps<N>, d: N, kind: DataKind, c: Cell, x: NumExpr, isSigned: bool, live: set<Cell>, k: Machine)
    requires SoundNum(ops) && Simulates(ops, d, live, k) && c in live
    requires kind == Svalues || kind == Uvalues
    requires forall e :: Agrees(e, live, k) ==> Wrap(Val(x, e), 8 * c.size, isSigned) == Reading(kind, c, k)
    requires x.Variable? ==> x.v != Scalar(kind, c)
    ensures Simulates(ops, ops.overflowBounds(ops.assign(d, Scalar(kind, c), x), Scalar(kind, c), 8 * c.size, isSigned), live, k)
  {
    hide Wrap, Reading;
    var v := Scalar(kind, c);
    forall e | Agrees(e, live, k)
      ensures ops.mem(ops.overflowBounds(ops.assign(d, v, x), v, 8 * c.size, isSigned), e)
    {
      var e1 := Updated(e, v, Val(x, e));
      assert ops.mem(ops.assign(d, v, x), e1);
      assert Updated(e1, v, Wrap(e1[v], 8 * c.size, isSigned)) == e;
    }
  }

  /** Branches: each side's cells survive, and the joined domain simulates what either side did. */
  lemma SimJoin<N(!new)>(ops: NumOps<N>, a: N, b: N, la: set<Cell>, lb: set<Cell>, k: Machine)
    requires SoundNum(ops) && (Simulates(ops, a, la, k) || Simulates(ops, b, lb, k))
    ensures Simulates(ops, ops.join(a, b), la + lb, k)
  {
    if Simulates(ops, a, la, k) {
      SimGrow(ops, a, la, la + lb, k);
    } else {
      SimGrow(ops, b, lb, la + lb, k);
    }
  }

  lemma SimMeet<N(!new)>(ops: NumOps<N>, a: N, b: N, la: set<Cell>, lb: set<Cell>, k: Machine)
    requires SoundNum(ops) && Simulates(ops, a, la, k) && Simulates(ops, b, lb, k)
    ensures Simulates(ops, ops.meet(a, b), la + lb, k)
  {
    SimGrow(ops, a, la, la + lb, k);
    SimGrow(ops, b, lb, la + lb, k);
  }

  // ------------------------------------------------------------------ what a known scalar says

  /** A valuation that agrees, with a chosen value for one scalar that is not live. */
  ghost function SomeEnv(live: set<Cell>, k: Machine, v: NumVar, n: int): (e: Env)
  {
    imap w: NumVar | true ::
      if w.Outer? then k.outer(w.id)
      else if w.kind.Pointer? && Held(w.kind.index, w.cell) in k.shadow then k.shadow[Held(w.kind.index, w.cell)]
      else if w.cell in live && (w.kind == Svalues || w.kind == Uvalues) then Reading(w.kind, w.cell, k)
      else if w == v then n else 0
  }

  /**
    A scalar known to be one number belongs to a live cell, and the number is what memory holds there:
    no cell is constrained without being in the maps.
  */
  lemma SingletonIsReading<N(!new)>(ops: NumOps<N>, d: N, kind: DataKind, c: Cell, live: set<Cell>, k: Machine)
    requires SoundNum(ops) && Simulates(ops, d, live, k)
    requires kind == Svalues || kind == Uvalues
    requires Singleton(ops.eval(d, Scalar(kind, c))).Some?
    ensures c in live && Singleton(ops.eval(d, Scalar(kind, c))).value == Reading(kind, c, k)
  {
    hide Reading;
    var v := Scalar(kind, c);
    var n := Singleton(ops.eval(d, v)).value;
    var e := SomeEnv(live, k, v, n + 1);
    assert Agrees(e, live, k);
    assert Contains(ops.eval(d, v), e[v]);
  }

  /** Any scalar that some number is ruled out for belongs to a live cell. */
  lemma ConstrainedIsLive<N(!new)>(ops: NumOps<N>, d: N, kind: DataKind, c: Cell, live: set<Cell>, k: Machine, n: int)
    requires SoundNum(ops) && Simulates(ops, d, live, k) && (kind == Svalues || kind == Uvalues)
    requires !Contains(ops.eval(d, Scalar(kind, c)), n)
    ensures c in live
  {
    hide Reading, Contains;
    var v := Scalar(kind, c);
    var e := SomeEnv(live, k, v, n);
    assert Agrees(e, live, k);
    assert Contains(ops.eval(d, v), e[v]);
  }

  /** Assigning a number leaves the scalar with that number. */
  ghost predicate ExactAssign<N(!new)>(ops: NumOps<N>) {
    forall d, v, n, e :: ops.mem(ops.assign(d, v, Constant(n)), e) && Total(e) ==> e[v] == n
  }

  /**
    When a scalar may be given a number: exactly when its cell is live. A cell that starts at or past the
    end of the stack is dropped from the maps although its scalar is assigned, and then the domain
    claims to know a cell that no later store will find.
  */
  lemma AssignNeedsLiveCell<N(!new)>(ops: NumOps<N>, d: N, kind: DataKind, om: OffsetMap, c: Cell, n: int, live: set<Cell>, k: Machine)
    requires SoundNum(ops) && ExactAssign(ops) && ValidMap(om) && Simulates(ops, d, live, k)
    requires (kind == Svalues || kind == Uvalues) && n == Reading(kind, c, k) && c !in live
    ensures Simulates(ops, ops.assign(d, Scalar(kind, c), Constant(n)), live + (Live(InsertCell(om, c)) - Live(om)), k)
      <==> (c.offset < om.totalStackSize && !Has(om, c))
  {
    hide Reading, Live, Has;
    InsertLive(om, c);
    LiveIsHas(om, c);
    var live' := live + (Live(InsertCell(om, c)) - Live(om));
    var v := Scalar(kind, c);
    if c in live' {
      SimGrow(ops, d, live, live', k);
      SimLearn(ops, d, kind, c, Constant(n), live', k);
    } else {
      var e := SomeEnv(live', k, v, n + 1);
      assert Agrees(e, live', k);
      assert e[v] == n + 1;
      assert !ops.mem(ops.assign(d, v, Constant(n)), e);
    }
  }
}
