/** Storing a register to the stack (src/crab/ebpf_transformer.rs:785-905), and what it does to byte memory. */
module StackStore {
  import opened Wrappers
  import opened Numbers
  import opened Intervals
  import opened Shifts
  import opened StackMemory
  import opened OffsetMaps
  import opened StackSimulation
  import opened ArrayDomain
  import opened StackPrecision
  import Bitset

  /** The value stored: an immediate, or a variable that is not a stack cell. */
  ghost predicate Stored(x: NumExpr) {
    x.Variable? ==> x.v.Outer?
  }

  ghost function ValueOf(x: NumExpr, k: Machine): int
    requires Stored(x)
  {
    match x
    case Variable(v) => k.outer(v.id)
    case Constant(n) => n
  }

  /** The machine after the low `size` bytes of `w` have been written: an attribute that loses a byte is gone. */
  ghost function Written(k: Machine, at: int, size: nat, w: int): Machine {
    k.(memory := Write(k.memory, k.bigEndian, at, size, w),
       shadow := map p | p in k.shadow && !Meets(p.cell, at, size) :: k.shadow[p])
  }

  /**
    A value a register may have besides its two numeric views: an attribute of a kind of pointer, or, when it may
    be a number as well as a pointer, its signed value once more; with the variable that holds it.
  */
  datatype Attribute = Attribute(kind: DataKind, source: int)

  ghost predicate OnlyPointers(attributes: seq<Attribute>) {
    forall i :: 0 <= i < |attributes| ==> attributes[i].kind.Pointer?
  }

  /** Each is an attribute of a listed kind of pointer, or the signed value. */
  ghost predicate Known(attributes: seq<Attribute>, kinds: seq<nat>, k: Machine, signed: int) {
    forall i :: 0 <= i < |attributes| ==>
      (attributes[i].kind.Pointer? && attributes[i].kind.index in kinds)
      || (attributes[i].kind == Svalues && k.outer(attributes[i].source) == signed)
  }

  /** The attributes a stored pointer leaves in its cell, each with the value of its register's variable. */
  ghost function WithAttributes(k: Machine, c: Cell, attributes: seq<Attribute>): Machine {
    if attributes == [] then k
    else
      var a := attributes[|attributes| - 1];
      var before := WithAttributes(k, c, attributes[..|attributes| - 1]);
      if a.kind.Pointer? then before.(shadow := before.shadow[Held(a.kind.index, c) := k.outer(a.source)]) else before
  }

  /** The same machine, except that fewer attributes are accounted for. */
  ghost predicate Within(k: Machine, k': Machine) {
    && k.bigEndian == k'.bigEndian && k.memory == k'.memory && k.outer == k'.outer
    && forall p :: p in k.shadow ==> p in k'.shadow && k'.shadow[p] == k.shadow[p]
  }

  /** An attribute has at least one byte. */
  ghost predicate Solid(k: Machine) {
    forall p :: p in k.shadow ==> p.cell.size > 0
  }

  /** What simulates a machine with fewer attributes simulates the machine. */
  lemma SimWithin<N>(ops: NumOps<N>, d: N, live: set<Cell>, k: Machine, k': Machine)
    requires Simulates(ops, d, live, k) && Within(k, k')
    ensures Simulates(ops, d, live, k')
  {
    hide Reading;
    SameReadings(k, k');
    forall e | Agrees(e, live, k') ensures ops.mem(d, e) {
      assert Agrees(e, live, k);
    }
  }

  /** The two views of the stored word. */
  ghost predicate Holds64(valS: NumExpr, valU: NumExpr, k: Machine, w: int) {
    && Stored(valS) && Stored(valU)
    && 0 <= w < Pow2(64)
    && ValueOf(valU, k) == w && ValueOf(valS, k) == SignExtend(w, 64)
  }

  lemma IsWord(valS: NumExpr, valU: NumExpr, k: Machine, w: int)
    requires Holds64(valS, valU, k, w)
    ensures 0 <= w < Pow2(64)
  {
  }

  lemma ValueAgrees(x: NumExpr, e: Env, live: set<Cell>, k: Machine)
    requires Stored(x) && Agrees(e, live, k)
    ensures Val(x, e) == ValueOf(x, k)
  {
  }

  /** What is read back from where the word was written. */
  lemma WrittenReading(c: Cell, k: Machine, w: int)
    requires 1 <= c.size <= 8 && 0 <= w < Pow2(64)
    ensures Reading(Uvalues, c, Written(k, c.offset, c.size, w)) == Wrap(w, 8 * c.size, false)
    ensures Reading(Svalues, c, Written(k, c.offset, c.size, w)) == Wrap(SignExtend(w, 64), 8 * c.size, true)
    ensures c.size == 8 ==> Reading(Uvalues, c, Written(k, c.offset, c.size, w)) == w
    ensures c.size == 8 ==> Reading(Svalues, c, Written(k, c.offset, c.size, w)) == SignExtend(w, 64)
  {
    hide Pow2, SignExtend, Read;
    ReadWritten(k.memory, k.bigEndian, c.offset, c.size, w);
    SignExtendMod(w, 64);
    ModUnique(w, 0, w, Pow2(64));
    var s := SignExtend(w, 64);
    if c.size == 8 {
      assert Wrap(s, 64, true) == SignExtend(w, 64);
    } else {
      WrapNarrow(s, 8 * c.size);
      ModMod(s, 8 * c.size, 64);
      ModMod(w, 8 * c.size, 64);
    }
  }

  /** Once the range is clear, of cells and of attributes, the bytes may change. */
  lemma SimWritten<N>(ops: NumOps<N>, d: N, live: set<Cell>, k: Machine, addr: Interval, width: nat, at: int, w: int)
    requires Simulates(ops, d, live, k) && Clear(live, addr, Interval(Some(width), Some(width)))
    requires Contains(addr, at) && width > 0 && forall c :: c in live ==> c.size > 0
    requires forall p :: p in k.shadow ==> !Meets(p.cell, at, width)
    ensures Simulates(ops, d, live, Written(k, at, width, w)) && Written(k, at, width, w).shadow == k.shadow
  {
    hide Agrees, Simulates, Read, Meets;
    assert Contains(Interval(Some(width), Some(width)), width);
    SimElsewhere(ops, d, live, k, Written(k, at, width, w), at, width);
  }

  /** One scalar given its value; a narrow one is wrapped to its width. */
  ghost function Give<N>(ops: NumOps<N>, d: N, kind: DataKind, c: Cell, x: NumExpr): N {
    var v := Scalar(kind, c);
    if c.size == 8 then ops.assign(d, v, x) else ops.overflowBounds(ops.assign(d, v, x), v, 8 * c.size, kind == Svalues)
  }

  /** What one store ends with: the value in the signed scalar, then in the unsigned one, on top of `base`. */
  ghost function Updates<N>(ops: NumOps<N>, base: N, c: Cell, valS: NumExpr, valU: NumExpr): N {
    Give(ops, Give(ops, base, Svalues, c, valS), Uvalues, c, valU)
  }

  /** Giving a live cell the bytes that were written keeps the simulation of the new memory. */
  lemma GiveSim<N(!new)>(ops: NumOps<N>, d: N, kind: DataKind, c: Cell, valS: NumExpr, valU: NumExpr, live: set<Cell>, k: Machine, w: int)
    requires SoundNum(ops) && c in live && 1 <= c.size <= 8 && Numeric(kind) && Holds64(valS, valU, k, w)
    requires Simulates(ops, d, live, Written(k, c.offset, c.size, w))
    ensures Simulates(ops, Give(ops, d, kind, c, if kind == Svalues then valS else valU), live, Written(k, c.offset, c.size, w))
  {
    hide SoundNum, Simulates, Wrap, Reading, SignExtend, Pow2;
    var k' := Written(k, c.offset, c.size, w);
    var x := if kind == Svalues then valS else valU;
    WrittenReading(c, k, w);
    forall e | Agrees(e, live, k')
      ensures Val(x, e) == if kind == Svalues then SignExtend(w, 64) else w
    {
      ValueAgrees(x, e, live, k');
    }
    if c.size == 8 {
      SimLearn(ops, d, kind, c, x, live, k');
    } else {
      SimLearnWrapped(ops, d, kind, c, x, kind == Svalues, live, k');
    }
  }

  lemma ClearVacant(cells: set<Cell>, addr: Interval, width: Interval)
    requires Strong(addr, width).Some? && Strong(addr, width).value.size > 0
    requires Clear(cells, addr, width) && forall c :: c in cells ==> c.size > 0
    ensures Vacant(cells, Strong(addr, width).value)
  {
    var t := Strong(addr, width).value;
    forall c | c in cells ensures !Overlaps(c, t.offset, t.size) && c != t {
      assert !Meets(c, t.offset, t.size);
      OverlapsIsMeets(c, t.offset, t.size);
    }
  }

  /** The place of an access of constant width. */
  function At(addr: Interval, exactWidth: nat): Option<Cell> {
    Strong(addr, Interval(Some(exactWidth), Some(exactWidth)))
  }

  /** The bytes an access of constant width may touch. */
  ghost function Near(addr: Interval, exactWidth: nat): Interval {
    TouchedRange(addr, Interval(Some(exactWidth), Some(exactWidth)))
  }

  lemma PlaceIsNear(addr: Interval, exactWidth: nat)
    requires At(addr, exactWidth).Some? && exactWidth > 0
    ensures Contains(Near(addr, exactWidth), At(addr, exactWidth).value.offset)
  {
    hide TouchedRange, Contains;
    StrongInRange(addr, Interval(Some(exactWidth), Some(exactWidth)));
  }

  lemma PlaceSize(addr: Interval, exactWidth: nat)
    ensures At(addr, exactWidth).Some? ==> At(addr, exactWidth).value.size == exactWidth
  {
  }

  /** Giving the scalar of the cell its value leaves what is far alone. */
  lemma GiveFar<N(!new)>(ops: NumOps<N>, d: N, kind: DataKind, c: Cell, x: NumExpr, range: Interval)
    requires Precise(ops) && Contains(range, c.offset)
    ensures FarKept(ops, d, Give(ops, d, kind, c, x), range)
  {
    hide Precise, FarKept, Contains;
    AssignFar(ops, d, kind, c, x, range);
    if c.size != 8 {
      WrapFar(ops, ops.assign(d, Scalar(kind, c), x), kind, c, 8 * c.size, kind == Svalues, range);
      FarThen(ops, d, ops.assign(d, Scalar(kind, c), x), Give(ops, d, kind, c, x), range);
    }
  }

  /** What the scalar of a cell should be known to be once a known value has been stored. */
  ghost function StoredValue<N>(ops: NumOps<N>, d: N, kind: DataKind, c: Cell, x: NumExpr): Option<int> {
    var n := match x
      case Constant(n) => Some(n)
      case Variable(v) => ValueIn(ops, d, v);
    if n.None? || c.size == 8 then n else Some(Wrap(n.value, 8 * c.size, kind == Svalues))
  }

  /** A known value that was stored is known to be in the cell, cut to its size, in both views. */
  ghost predicate StoreKnown<N>(ops: NumOps<N>, d: N, d': N, c: Cell, valS: NumExpr, valU: NumExpr) {
    && (StoredValue(ops, d, Svalues, c, valS).Some? ==> ValueIn(ops, d', Scalar(Svalues, c)) == StoredValue(ops, d, Svalues, c, valS))
    && (StoredValue(ops, d, Uvalues, c, valU).Some? ==> ValueIn(ops, d', Scalar(Uvalues, c)) == StoredValue(ops, d, Uvalues, c, valU))
  }

  lemma GiveKnown<N(!new)>(ops: NumOps<N>, d: N, kind: DataKind, c: Cell, x: NumExpr)
    requires Precise(ops)
    ensures StoredValue(ops, d, kind, c, x).Some? ==> ValueIn(ops, Give(ops, d, kind, c, x), Scalar(kind, c)) == StoredValue(ops, d, kind, c, x)
    ensures KnownKept(ops, d, Give(ops, d, kind, c, x), {Scalar(kind, c)})
  {
    hide Wrap;
  }

  lemma StoredKept<N>(ops: NumOps<N>, d: N, d': N, kind: DataKind, c: Cell, x: NumExpr)
    requires Stored(x) && forall i :: ValueIn(ops, d, Outer(i)).Some? ==> ValueIn(ops, d', Outer(i)) == ValueIn(ops, d, Outer(i))
    ensures StoredValue(ops, d, kind, c, x).Some? ==> StoredValue(ops, d', kind, c, x) == StoredValue(ops, d, kind, c, x)
  {
    hide ValueIn, Wrap;
  }

  /** A store of known values ends with both known in the cell. */
  lemma UpdatesKnown<N(!new)>(ops: NumOps<N>, d: N, base: N, c: Cell, valS: NumExpr, valU: NumExpr, range: Interval)
    requires Precise(ops) && FarKept(ops, d, base, range) && Stored(valS) && Stored(valU)
    ensures StoreKnown(ops, d, Updates(ops, base, c, valS, valU), c, valS, valU)
  {
    hide Precise, Give, StoredValue, ValueIn;
    var mid := Give(ops, base, Svalues, c, valS);
    GiveKnown(ops, base, Svalues, c, valS);
    GiveKnown(ops, mid, Uvalues, c, valU);
    StoredKept(ops, d, base, Svalues, c, valS);
    StoredKept(ops, d, base, Uvalues, c, valU);
    StoredKept(ops, base, mid, Uvalues, c, valU);
  }

  lemma StoreKnownBefore<N(!new)>(ops: NumOps<N>, d: N, mid: N, d': N, c: Cell, valS: NumExpr, valU: NumExpr, range: Interval)
    requires FarKept(ops, d, mid, range) && Stored(valS) && Stored(valU) && StoreKnown(ops, mid, d', c, valS, valU)
    ensures StoreKnown(ops, d, d', c, valS, valU)
  {
    hide StoredValue, ValueIn;
    StoredKept(ops, d, mid, Svalues, c, valS);
    StoredKept(ops, d, mid, Uvalues, c, valU);
  }

  /** Attributes of known value are known to be in the cell. */
  ghost predicate AttributesKnown<N>(ops: NumOps<N>, d: N, d': N, c: Cell, attributes: seq<Attribute>) {
    forall i :: 0 <= i < |attributes| && ValueIn(ops, d, Outer(attributes[i].source)).Some? ==>
      ValueIn(ops, d', Scalar(attributes[i].kind, c)) == ValueIn(ops, d, Outer(attributes[i].source))
  }

  ghost predicate OutersKept<N>(ops: NumOps<N>, d: N, d': N) {
    forall i :: ValueIn(ops, d, Outer(i)).Some? ==> ValueIn(ops, d', Outer(i)) == ValueIn(ops, d, Outer(i))
  }

  lemma FarOuters<N>(ops: NumOps<N>, d: N, d': N, range: Interval)
    requires FarKept(ops, d, d', range)
    ensures OutersKept(ops, d, d')
  {
    hide ValueIn;
  }

  lemma {:induction false} AssignedAttributes<N(!new)>(ops: NumOps<N>, d: N, d': N, c: Cell, attributes: seq<Attribute>)
    requires Precise(ops) && DistinctKinds(attributes) && OutersKept(ops, d, d')
    ensures AttributesKnown(ops, d, Assigned(ops, d', c, attributes), c, attributes) && OutersKept(ops, d, Assigned(ops, d', c, attributes))
  {
    hide Precise, ValueIn;
    if attributes != [] {
      var a, before := attributes[|attributes| - 1], attributes[..|attributes| - 1];
      AssignedAttributes(ops, d, d', c, before);
      AssignKeeps(ops, Assigned(ops, d', c, before), Scalar(a.kind, c), Variable(Outer(a.source)));
    }
  }

  lemma AttributesKnownBefore<N>(ops: NumOps<N>, d: N, mid: N, d': N, c: Cell, attributes: seq<Attribute>)
    requires OutersKept(ops, d, mid) && AttributesKnown(ops, mid, d', c, attributes)
    ensures AttributesKnown(ops, d, d', c, attributes)
  {
    hide ValueIn;
  }

  /** Attributes that are assigned afterwards take nothing away. */
  lemma {:induction false} AssignedKnown<N(!new)>(ops: NumOps<N>, d: N, d': N, c: Cell, attributes: seq<Attribute>, valS: NumExpr, valU: NumExpr)
    requires Precise(ops) && OnlyPointers(attributes) && StoreKnown(ops, d, d', c, valS, valU)
    ensures StoreKnown(ops, d, Assigned(ops, d', c, attributes), c, valS, valU)
  {
    hide Precise, ValueIn, StoredValue;
    if attributes != [] {
      var a, before := attributes[|attributes| - 1], attributes[..|attributes| - 1];
      AssignedKnown(ops, d, d', c, before, valS, valU);
      AssignKeeps(ops, Assigned(ops, d', c, before), Scalar(a.kind, c), Variable(Outer(a.source)));
    }
  }

  lemma GiveStays<N(!new)>(ops: NumOps<N>, d: N, kind: DataKind, c: Cell, x: NumExpr)
    requires Precise(ops) && c.size > 0
    ensures NumbersStay(ops, d, Give(ops, d, kind, c, x), Some(c))
  {
    hide Precise, NumbersStay;
    AssignStays(ops, d, kind, c, x);
    if c.size != 8 {
      WrapStays(ops, ops.assign(d, Scalar(kind, c), x), kind, c, 8 * c.size, kind == Svalues);
      StayThen(ops, d, ops.assign(d, Scalar(kind, c), x), Give(ops, d, kind, c, x), Some(c));
    }
  }

  /** Stores both views of the word, once nothing overlaps: neither store undoes the other. */
  method StoreViews<N(!new)>(stack: ArrayDomain<N>, inv: N, addr: Interval, exactWidth: nat, valS: NumExpr, valU: NumExpr,
      ghost k: Machine, ghost at: int, ghost w: int)
    returns (inv': N)
    requires stack.Valid() && k.bigEndian == stack.bigEndian && 1 <= exactWidth <= 8
    requires Simulates(stack.ops, inv, stack.LiveCells(), Written(k, at, exactWidth, w))
    requires Contains(addr, at) && Holds64(valS, valU, k, w)
    requires At(addr, exactWidth).Some? ==> stack.InBounds(At(addr, exactWidth).value)
    requires At(addr, exactWidth).Some? ==>
      Vacant(stack.LiveOf(Svalues), At(addr, exactWidth).value) && Vacant(stack.LiveOf(Uvalues), At(addr, exactWidth).value)
    modifies stack`cells
    ensures stack.Valid() && Simulates(stack.ops, inv', stack.LiveCells(), Written(k, at, exactWidth, w))
    ensures forall index: nat :: stack.LiveOf(Pointer(index)) == old(stack.LiveOf(Pointer(index)))
    ensures At(addr, exactWidth).Some? ==> var c := At(addr, exactWidth).value;
      c in stack.LiveOf(Svalues) && c in stack.LiveOf(Uvalues) && inv' == Updates(stack.ops, inv, c, valS, valU)
    ensures Precise(stack.ops) ==> FarKept(stack.ops, inv, inv', Near(addr, exactWidth))
    ensures Precise(stack.ops) && At(addr, exactWidth).Some? ==> NumbersStay(stack.ops, inv, inv', At(addr, exactWidth))
  {
    hide SoundNum, Simulates, Strong, Contains, LiveIn, Holds64, Written, Vacant, Precise, FarKept, TouchedRange, NumbersStay;
    var width := Interval(Some(exactWidth), Some(exactWidth));
    HoldsItself(exactWidth);
    StrongHere(addr, width, at, exactWidth);
    ghost var k' := Written(k, at, exactWidth, w);
    SameOrder(k, at, exactWidth, w);
    var sv, uv;
    ghost var same;
    inv', sv, same := stack.Store(inv, Svalues, addr, width, k');
    ghost var stored := inv';
    PlaceSize(addr, exactWidth);
    if sv.Some? {
      GiveSim(stack.ops, inv', Svalues, At(addr, exactWidth).value, valS, valU, stack.LiveCells(), k, w);
      inv' := stack.ops.assign(inv', sv.value, valS);
      if exactWidth != 8 {
        inv' := stack.ops.overflowBounds(inv', sv.value, exactWidth * 8, true);
      }
    }
    ghost var given := inv';
    inv', uv, same := stack.Store(inv', Uvalues, addr, width, k');
    ghost var stored' := inv';
    if uv.Some? {
      GiveSim(stack.ops, inv', Uvalues, At(addr, exactWidth).value, valS, valU, stack.LiveCells(), k, w);
      inv' := stack.ops.assign(inv', uv.value, valU);
      if exactWidth != 8 {
        inv' := stack.ops.overflowBounds(inv', uv.value, exactWidth * 8, false);
      }
    }
    if Precise(stack.ops) {
      FarNothing(stack.ops, stored, Near(addr, exactWidth));
      FarNothing(stack.ops, stored', Near(addr, exactWidth));
      if At(addr, exactWidth).Some? {
        PlaceIsNear(addr, exactWidth);
        GiveFar(stack.ops, stored, Svalues, At(addr, exactWidth).value, valS, Near(addr, exactWidth));
        GiveFar(stack.ops, stored', Uvalues, At(addr, exactWidth).value, valU, Near(addr, exactWidth));
        GiveStays(stack.ops, stored, Svalues, At(addr, exactWidth).value, valS);
        GiveStays(stack.ops, stored', Uvalues, At(addr, exactWidth).value, valU);
        StayThen(stack.ops, stored, given, inv', At(addr, exactWidth));
      }
      FarThen(stack.ops, inv, stored, given, Near(addr, exactWidth));
      FarThen(stack.ops, inv, given, stored', Near(addr, exactWidth));
      FarThen(stack.ops, inv, stored', inv', Near(addr, exactWidth));
    }
  }

  /** The machine after the attributes of the first `n` kinds that the access may meet are forgotten. */
  ghost predicate Forgotten(k: Machine, k': Machine, kinds: seq<nat>, n: nat, addr: Interval, width: nat)
    requires n <= |kinds|
  {
    && Within(k', k)
    && (forall p, at :: p in k'.shadow && p.index in kinds[..n] && Contains(addr, at) ==> !Meets(p.cell, at, width))
    && (At(addr, width).Some? ==> forall p :: p in k.shadow && p !in k'.shadow ==> Meets(p.cell, At(addr, width).value.offset, width))
  }

  /** The first `n` kinds are clear of the access. */
  ghost predicate KindsClear(cells: map<DataKind, OffsetMap>, kinds: seq<nat>, n: nat, addr: Interval, width: nat)
    requires n <= |kinds|
  {
    forall index :: index in kinds[..n] ==> Clear(LiveIn(cells, Pointer(index)), addr, Interval(Some(width), Some(width)))
  }

  lemma ForgottenStep(k: Machine, before: Machine, k': Machine, kinds: seq<nat>, i: nat, addr: Interval, width: nat, live: set<Cell>, live': set<Cell>)
    requires i < |kinds| && width > 0 && Forgotten(k, before, kinds, i, addr, width) && Solid(k)
    requires live' <= live && k' == Dropped(before, Pointer(kinds[i]), live - live')
    requires Clear(live', addr, Interval(Some(width), Some(width)))
    requires forall p :: p in before.shadow && p.index == kinds[i] ==> p.cell in live
    requires At(addr, width).Some? ==> live' == live - Struck(live, At(addr, width).value)
    ensures Forgotten(k, k', kinds, i + 1, addr, width)
  {
    hide Meets, Overlaps;
    assert kinds[..i + 1] == kinds[..i] + [kinds[i]];
    HoldsItself(width);
    if At(addr, width).Some? {
      forall p | p in k.shadow && p !in k'.shadow ensures Meets(p.cell, At(addr, width).value.offset, width) {
        if p in before.shadow {
          OverlapsIsMeets(p.cell, At(addr, width).value.offset, width);
          ExactMeets(p.cell);
        }
      }
    }
    forall p, at | p in k'.shadow && p.index in kinds[..i + 1] && Contains(addr, at) ensures !Meets(p.cell, at, width) {
      assert p in before.shadow && p in k.shadow;
    }
  }

  lemma ExactMeets(c: Cell)
    requires c.size > 0
    ensures Meets(c, c.offset, c.size)
  {
  }

  lemma ClearStep(cells: map<DataKind, OffsetMap>, cells': map<DataKind, OffsetMap>, kinds: seq<nat>, i: nat, addr: Interval, width: nat)
    requires i < |kinds| && KindsClear(cells, kinds, i, addr, width)
    requires Clear(LiveIn(cells', Pointer(kinds[i])), addr, Interval(Some(width), Some(width)))
    requires forall kind :: kind != Pointer(kinds[i]) ==> LiveIn(cells', kind) == LiveIn(cells, kind)
    ensures KindsClear(cells', kinds, i + 1, addr, width)
  {
    hide Clear, LiveIn;
    assert kinds[..i + 1] == kinds[..i] + [kinds[i]];
  }

  /** Forgets the pointer attributes the store may overwrite, kind by kind. */
  method HavocPointers<N(!new)>(stack: ArrayDomain<N>, inv: N, addr: Interval, exactWidth: nat, kinds: seq<nat>, ghost k: Machine)
    returns (inv': N, ghost k': Machine)
    requires stack.Valid() && Simulates(stack.ops, inv, stack.LiveCells(), k) && k.bigEndian == stack.bigEndian
    requires stack.Backed(k) && exactWidth > 0
    modifies stack`cells
    ensures stack.Valid() && Simulates(stack.ops, inv', stack.LiveCells(), k') && stack.Backed(k')
    ensures Forgotten(k, k', kinds, |kinds|, addr, exactWidth) && KindsClear(stack.cells, kinds, |kinds|, addr, exactWidth)
    ensures stack.LiveCells() == old(stack.LiveCells()) && stack.LiveOf(Svalues) == old(stack.LiveOf(Svalues))
    ensures Precise(stack.ops) ==> FarKept(stack.ops, inv, inv', Near(addr, exactWidth)) && NumbersStay(stack.ops, inv, inv', None)
  {
    hide SoundNum, Simulates, Clear, Strong, Contains, LiveIn, Meets, Struck, Dropped, Solid, Precise, FarKept, TouchedRange, NumbersStay;
    StayNothing(stack.ops, inv, None);
    var width := Interval(Some(exactWidth), Some(exactWidth));
    BackedIsSolid(stack, k);
    inv', k' := inv, k;
    FarNothing(stack.ops, inv, Near(addr, exactWidth));
    PlaceSize(addr, exactWidth);
    var i := 0;
    while i < |kinds|
      invariant 0 <= i <= |kinds| && stack.Valid() && Simulates(stack.ops, inv', stack.LiveCells(), k') && stack.Backed(k')
      invariant Forgotten(k, k', kinds, i, addr, exactWidth) && KindsClear(stack.cells, kinds, i, addr, exactWidth)
      invariant stack.LiveCells() == old(stack.LiveCells()) && stack.LiveOf(Svalues) == old(stack.LiveOf(Svalues))
      invariant Precise(stack.ops) ==> FarKept(stack.ops, inv, inv', Near(addr, exactWidth)) && NumbersStay(stack.ops, inv, inv', None)
    {
      ghost var before, cells0, d := k', stack.cells, inv';
      inv', k' := stack.Havoc(inv', Pointer(kinds[i]), addr, width, k');
      ForgottenStep(k, before, k', kinds, i, addr, exactWidth, LiveIn(cells0, Pointer(kinds[i])), stack.LiveOf(Pointer(kinds[i])));
      forall kind | kind != Pointer(kinds[i]) ensures LiveIn(stack.cells, kind) == LiveIn(cells0, kind) {
        assert stack.LiveOf(kind) == LiveIn(cells0, kind);
      }
      ClearStep(cells0, stack.cells, kinds, i, addr, exactWidth);
      if Precise(stack.ops) {
        FarThen(stack.ops, inv, d, inv', Near(addr, exactWidth));
        StayThen(stack.ops, inv, d, inv', None);
      }
      i := i + 1;
    }
  }

  /** Assigns one attribute after the other to the scalars of the cell. */
  ghost function Assigned<N>(ops: NumOps<N>, d: N, c: Cell, attributes: seq<Attribute>): N {
    if attributes == [] then d
    else
      var a := attributes[|attributes| - 1];
      ops.assign(Assigned(ops, d, c, attributes[..|attributes| - 1]), Scalar(a.kind, c), Variable(Outer(a.source)))
  }

  ghost predicate DistinctKinds(attributes: seq<Attribute>) {
    OnlyPointers(attributes) && forall i, j :: 0 <= i < j < |attributes| ==> attributes[i].kind != attributes[j].kind
  }

  /** The cell is not in use yet for the attributes from the `i`th on. */
  ghost predicate Free(cells: map<DataKind, OffsetMap>, c: Cell, attributes: seq<Attribute>, i: nat) {
    forall j :: i <= j < |attributes| ==> c !in LiveIn(cells, attributes[j].kind)
  }

  /** Besides the cell itself, no cell of the kind is in the way. */
  ghost predicate RoomFor(cells: map<DataKind, OffsetMap>, c: Cell, index: nat) {
    forall x :: x in LiveIn(cells, Pointer(index)) && x != c ==> x.size > 0 && !Meets(x, c.offset, c.size)
  }

  ghost predicate Roomy(cells: map<DataKind, OffsetMap>, c: Cell, attributes: seq<Attribute>) {
    forall i :: 0 <= i < |attributes| && attributes[i].kind.Pointer? ==> RoomFor(cells, c, attributes[i].kind.index)
  }

  /** Stores one attribute: with the place known, its scalar of the cell is assigned and no other attribute is lost. */
  method StoreAttribute<N(!new)>(stack: ArrayDomain<N>, inv: N, addr: Interval, exactWidth: nat, index: nat, source: int, ghost k: Machine)
    returns (inv': N, ghost k': Machine)
    requires stack.Valid() && Simulates(stack.ops, inv, stack.LiveCells(), k) && k.bigEndian == stack.bigEndian
    requires stack.Backed(k) && exactWidth > 0
    requires At(addr, exactWidth).Some? ==> stack.InBounds(At(addr, exactWidth).value)
    requires At(addr, exactWidth).Some? ==> RoomFor(stack.cells, At(addr, exactWidth).value, index)
    modifies stack`cells
    ensures stack.Valid() && Simulates(stack.ops, inv', stack.LiveCells(), k') && stack.Backed(k')
    ensures if At(addr, exactWidth).Some? then k' == k.(shadow := k.shadow[Held(index, At(addr, exactWidth).value) := k.outer(source)])
      else Within(k', k)
    ensures forall other :: other != Pointer(index) ==> LiveIn(stack.cells, other) == LiveIn(old(stack.cells), other)
    ensures At(addr, exactWidth).Some? ==>
      LiveIn(stack.cells, Pointer(index)) <= LiveIn(old(stack.cells), Pointer(index)) + {At(addr, exactWidth).value}
    ensures At(addr, exactWidth).Some? && At(addr, exactWidth).value !in LiveIn(old(stack.cells), Pointer(index)) ==>
      inv' == stack.ops.assign(inv, ScalarOf(Held(index, At(addr, exactWidth).value)), Variable(Outer(source)))
    ensures Precise(stack.ops) ==> FarKept(stack.ops, inv, inv', Near(addr, exactWidth))
    ensures Precise(stack.ops) && At(addr, exactWidth).Some? ==> NumbersStay(stack.ops, inv, inv', At(addr, exactWidth))
  {
    hide SoundNum, Simulates, Clear, Strong, Contains, LiveIn, Meets, Struck, Dropped, RoomFor, Overlaps, Precise, FarKept, TouchedRange, NumbersStay;
    var width := Interval(Some(exactWidth), Some(exactWidth));
    ghost var place, cells0 := At(addr, exactWidth), stack.cells;
    PointerKind(index);
    SizesOfLive(stack);
    BackedIsSolid(stack, k);
    if place.Some? {
      RoomyDrops(cells0, k, place.value, index);
      RoomIsVacant(cells0, place.value, index);
    }
    var v;
    inv', v, k' := stack.Store(inv, Pointer(index), addr, width, k);
    ghost var stored := inv';
    PlaceSize(addr, exactWidth);
    forall other | other != Pointer(index) ensures LiveIn(stack.cells, other) == LiveIn(cells0, other) {
      assert stack.LiveOf(other) == LiveIn(cells0, other);
    }
    if v.Some? {
      ghost var p := Held(index, place.value);
      OuterValue(source, stack.LiveCells(), k');
      SimLearnPointer(stack.ops, inv', p, Variable(Outer(source)), k.outer(source), stack.LiveCells(), k');
      inv' := stack.ops.assign(inv', v.value, Variable(Outer(source)));
      k' := k'.(shadow := k'.shadow[p := k.outer(source)]);
      DropThenAdd(k.shadow, p, k.outer(source));
    } else {
      DroppedWithin(k, Pointer(index), LiveIn(cells0, Pointer(index)) - stack.LiveOf(Pointer(index)));
    }
    if Precise(stack.ops) && v.Some? {
      PlaceIsNear(addr, exactWidth);
      AssignFar(stack.ops, stored, Pointer(index), place.value, Variable(Outer(source)), Near(addr, exactWidth));
      FarThen(stack.ops, inv, stored, inv', Near(addr, exactWidth));
      AssignStays(stack.ops, stored, Pointer(index), place.value, Variable(Outer(source)));
      StayBeside(stack.ops, inv, stored, place.value);
      StayThen(stack.ops, inv, stored, inv', place);
    }
  }

  lemma DropThenAdd(m: map<Held, int>, p: Held, n: int)
    ensures (m - {p})[p := n] == m[p := n]
  {
  }

  /** Stores the signed value once more. The place is in use by then, so both numeric scalars are forgotten first. */
  method StoreSigned<N(!new)>(stack: ArrayDomain<N>, inv: N, addr: Interval, exactWidth: nat, source: int, ghost k: Machine)
    returns (inv': N)
    requires stack.Valid() && Simulates(stack.ops, inv, stack.LiveCells(), k) && k.bigEndian == stack.bigEndian
    requires stack.Backed(k) && exactWidth > 0
    requires At(addr, exactWidth).Some? ==> stack.InBounds(At(addr, exactWidth).value)
    requires At(addr, exactWidth).Some? ==> k.outer(source) == Reading(Svalues, At(addr, exactWidth).value, k)
    modifies stack`cells
    ensures stack.Valid() && Simulates(stack.ops, inv', stack.LiveCells(), k) && stack.Backed(k)
    ensures forall index: nat :: LiveIn(stack.cells, Pointer(index)) == LiveIn(old(stack.cells), Pointer(index))
    ensures At(addr, exactWidth).Some? ==>
      At(addr, exactWidth).value in stack.LiveOf(Svalues) && old(stack.LiveOf(Uvalues)) <= stack.LiveOf(Uvalues)
    ensures Precise(stack.ops) ==> FarKept(stack.ops, inv, inv', Near(addr, exactWidth))
    ensures Precise(stack.ops) && At(addr, exactWidth).Some? ==> NumbersStay(stack.ops, inv, inv', At(addr, exactWidth))
  {
    hide SoundNum, Simulates, Clear, Strong, Contains, LiveIn, Meets, Struck, Dropped, Reading, Precise, FarKept, TouchedRange, NumbersStay;
    ghost var cells0 := stack.cells;
    var v;
    ghost var k';
    inv', v, k' := stack.Store(inv, Svalues, addr, Interval(Some(exactWidth), Some(exactWidth)), k);
    ghost var stored := inv';
    PlaceSize(addr, exactWidth);
    forall index: nat ensures LiveIn(stack.cells, Pointer(index)) == LiveIn(cells0, Pointer(index)) {
      PointerKind(index);
      assert stack.LiveOf(Pointer(index)) == LiveIn(cells0, Pointer(index));
    }
    if v.Some? {
      OuterValue(source, stack.LiveCells(), k);
      SimLearn(stack.ops, inv', Svalues, At(addr, exactWidth).value, Variable(Outer(source)), stack.LiveCells(), k);
      inv' := stack.ops.assign(inv', v.value, Variable(Outer(source)));
    }
    if Precise(stack.ops) && v.Some? {
      PlaceIsNear(addr, exactWidth);
      AssignFar(stack.ops, stored, Svalues, At(addr, exactWidth).value, Variable(Outer(source)), Near(addr, exactWidth));
      FarThen(stack.ops, inv, stored, inv', Near(addr, exactWidth));
      AssignStays(stack.ops, stored, Svalues, At(addr, exactWidth).value, Variable(Outer(source)));
      StayThen(stack.ops, inv, stored, inv', At(addr, exactWidth));
    }
  }

  /** Stores the attributes of a pointer beside its bytes: with the place known, each ends up in its own scalar of the cell. */
  method StoreAttributes<N(!new)>(stack: ArrayDomain<N>, inv: N, addr: Interval, exactWidth: nat, attributes: seq<Attribute>,
      ghost kinds: seq<nat>, ghost k: Machine)
    returns (inv': N, ghost k': Machine)
    requires stack.Valid() && Simulates(stack.ops, inv, stack.LiveCells(), k) && k.bigEndian == stack.bigEndian
    requires stack.Backed(k) && exactWidth > 0
    requires At(addr, exactWidth).Some? ==> stack.InBounds(At(addr, exactWidth).value)
    requires At(addr, exactWidth).Some? ==> Roomy(stack.cells, At(addr, exactWidth).value, attributes)
    requires At(addr, exactWidth).Some? ==>
      At(addr, exactWidth).value in stack.LiveOf(Svalues) && At(addr, exactWidth).value in stack.LiveOf(Uvalues)
    requires var signed := if At(addr, exactWidth).Some? then Reading(Svalues, At(addr, exactWidth).value, k) else 0;
      At(addr, exactWidth).Some? ==> Known(attributes, kinds, k, signed)
    modifies stack`cells
    ensures stack.Valid() && Simulates(stack.ops, inv', stack.LiveCells(), k') && stack.Backed(k')
    ensures if At(addr, exactWidth).Some? then k' == WithAttributes(k, At(addr, exactWidth).value, attributes) else Within(k', k)
    ensures At(addr, exactWidth).Some? ==>
      At(addr, exactWidth).value in stack.LiveOf(Svalues) && At(addr, exactWidth).value in stack.LiveOf(Uvalues)
    ensures At(addr, exactWidth).Some? && DistinctKinds(attributes) && Free(old(stack.cells), At(addr, exactWidth).value, attributes, 0) ==>
      inv' == Assigned(stack.ops, inv, At(addr, exactWidth).value, attributes)
    ensures Precise(stack.ops) ==> FarKept(stack.ops, inv, inv', Near(addr, exactWidth))
    ensures Precise(stack.ops) && At(addr, exactWidth).Some? ==> NumbersStay(stack.ops, inv, inv', At(addr, exactWidth))
  {
    hide SoundNum, Simulates, Clear, Strong, Contains, LiveIn, Meets, RoomFor, Overlaps, Within, Roomy, Free, WithAttributes, Assigned, DistinctKinds, Known, Reading, Precise, FarKept, TouchedRange, NumbersStay;
    StayNothing(stack.ops, inv, At(addr, exactWidth));
    ghost var place := At(addr, exactWidth);
    ghost var exact := place.Some? && DistinctKinds(attributes) && Free(stack.cells, place.value, attributes, 0);
    inv', k' := inv, k;
    WithinSelf(k);
    FarNothing(stack.ops, inv, Near(addr, exactWidth));
    var i := 0;
    assert attributes[..0] == [];
    if place.Some? {
      NothingStored(stack.ops, inv, k, place.value);
    }
    while i < |attributes|
      invariant 0 <= i <= |attributes| && stack.Valid() && Simulates(stack.ops, inv', stack.LiveCells(), k') && stack.Backed(k')
      invariant Precise(stack.ops) ==> FarKept(stack.ops, inv, inv', Near(addr, exactWidth))
      invariant Precise(stack.ops) && place.Some? ==> NumbersStay(stack.ops, inv, inv', place)
      invariant k'.bigEndian == k.bigEndian && k'.outer == k.outer && k'.memory == k.memory
      invariant if place.Some? then k' == WithAttributes(k, place.value, attributes[..i]) else Within(k', k)
      invariant place.Some? ==> Roomy(stack.cells, place.value, attributes)
      invariant place.Some? ==> place.value in stack.LiveOf(Svalues) && place.value in stack.LiveOf(Uvalues)
      invariant exact ==> Free(stack.cells, place.value, attributes, i) && inv' == Assigned(stack.ops, inv, place.value, attributes[..i])
    {
      ghost var before, cells0, d := k', stack.cells, inv';
      if place.Some? {
        NextAttribute(cells0, place.value, attributes, i);
        NextKnown(attributes, kinds, k, Reading(Svalues, place.value, k), i);
        SameReadings(k, k');
      }
      if attributes[i].kind.Pointer? {
        inv', k' := StoreAttribute(stack, inv', addr, exactWidth, attributes[i].kind.index, attributes[i].source, k');
        if place.Some? {
          RoomyKept(cells0, stack.cells, place.value, attributes, attributes[i].kind.index);
          AssignedStep(stack.ops, inv, place.value, attributes, i);
          if exact {
            FreeKept(cells0, stack.cells, place.value, attributes, i);
          }
        }
      } else {
        inv' := StoreSigned(stack, inv', addr, exactWidth, attributes[i].source, k');
        WithinSelf(k');
        if place.Some? {
          RoomySame(cells0, stack.cells, place.value, attributes);
          OnlyPointersAt(attributes, i);
        }
      }
      if place.Some? {
        AttributeStep(k, before, k', place.value, attributes, i);
      } else {
        WithinTrans(k', before, k);
        WithinFacts(k', k);
      }
      if Precise(stack.ops) {
        FarThen(stack.ops, inv, d, inv', Near(addr, exactWidth));
        if place.Some? {
          StayThen(stack.ops, inv, d, inv', place);
        }
      }
      i := i + 1;
    }
    assert attributes[..|attributes|] == attributes;
  }

  lemma OnlyPointersAt(attributes: seq<Attribute>, i: nat)
    requires i < |attributes| && !attributes[i].kind.Pointer?
    ensures !DistinctKinds(attributes)
  {
  }

  /** What is known of the attributes does not depend on memory. */
  lemma KnownHere(attributes: seq<Attribute>, kinds: seq<nat>, k: Machine, k': Machine, w: int)
    requires Known(attributes, kinds, k, SignExtend(w, 64)) && k'.outer == k.outer
    ensures Known(attributes, kinds, k', SignExtend(w, 64))
    ensures forall i :: 0 <= i < |attributes| && attributes[i].kind.Pointer? ==> attributes[i].kind.index in kinds
  {
    hide SignExtend;
  }

  lemma NextKnown(attributes: seq<Attribute>, kinds: seq<nat>, k: Machine, signed: int, i: nat)
    requires i < |attributes| && Known(attributes, kinds, k, signed)
    ensures !attributes[i].kind.Pointer? ==> k.outer(attributes[i].source) == signed
  {
  }

  lemma RoomySame(cells: map<DataKind, OffsetMap>, cells': map<DataKind, OffsetMap>, c: Cell, attributes: seq<Attribute>)
    requires Roomy(cells, c, attributes)
    requires forall index: nat :: LiveIn(cells', Pointer(index)) == LiveIn(cells, Pointer(index))
    ensures Roomy(cells', c, attributes)
  {
    hide LiveIn, Meets;
    forall i | 0 <= i < |attributes| && attributes[i].kind.Pointer? ensures RoomFor(cells', c, attributes[i].kind.index) {
      assert RoomFor(cells, c, attributes[i].kind.index);
    }
  }

  lemma PointerKind(index: nat)
    ensures !Numeric(Pointer(index)) && Pointer(index) != Types
  {
  }

  lemma DroppedWithin(k: Machine, kind: DataKind, gone: set<Cell>)
    ensures Within(Dropped(k, kind, gone), k)
  {
  }

  lemma OuterValue(source: int, live: set<Cell>, k: Machine)
    ensures forall e :: Agrees(e, live, k) ==> Val(Variable(Outer(source)), e) == k.outer(source)
  {
    hide Reading;
  }

  /** Making room for the next attribute costs no other one. */
  lemma RoomyDrops(cells: map<DataKind, OffsetMap>, k: Machine, c: Cell, index: nat)
    requires RoomFor(cells, c, index) && c.size > 0
    requires forall p :: p in k.shadow ==> p.cell in LiveIn(cells, Pointer(p.index))
    ensures Dropped(k, Pointer(index), Struck(LiveIn(cells, Pointer(index)), c)) == k.(shadow := k.shadow - {Held(index, c)})
    ensures LiveIn(cells, Pointer(index)) - Struck(LiveIn(cells, Pointer(index)), c) + {c} <= LiveIn(cells, Pointer(index)) + {c}
  {
    hide LiveIn, Meets, Overlaps;
    var live := LiveIn(cells, Pointer(index));
    forall x | x in live && x != c ensures x !in Struck(live, c) {
      OverlapsIsMeets(x, c.offset, c.size);
    }
    assert Dropped(k, Pointer(index), Struck(live, c)).shadow == k.shadow - {Held(index, c)};
  }

  /** A place with room that is not in use is vacant: storing there kills nothing. */
  lemma RoomIsVacant(cells: map<DataKind, OffsetMap>, c: Cell, index: nat)
    requires RoomFor(cells, c, index) && c.size > 0
    ensures c !in LiveIn(cells, Pointer(index)) ==> Vacant(LiveIn(cells, Pointer(index)), c)
  {
    hide LiveIn, Meets, Overlaps;
    forall x | x in LiveIn(cells, Pointer(index)) && x != c ensures !Overlaps(x, c.offset, c.size) {
      OverlapsIsMeets(x, c.offset, c.size);
    }
  }

  lemma WithinFacts(k: Machine, k': Machine)
    requires Within(k, k')
    ensures k.bigEndian == k'.bigEndian && k.outer == k'.outer
  {
  }

  lemma FreeKept(cells: map<DataKind, OffsetMap>, cells': map<DataKind, OffsetMap>, c: Cell, attributes: seq<Attribute>, i: nat)
    requires i < |attributes| && Free(cells, c, attributes, i) && DistinctKinds(attributes)
    requires forall other :: other != attributes[i].kind ==> LiveIn(cells', other) == LiveIn(cells, other)
    ensures Free(cells', c, attributes, i + 1)
  {
    hide LiveIn;
  }

  lemma NextAttribute(cells: map<DataKind, OffsetMap>, c: Cell, attributes: seq<Attribute>, i: nat)
    requires i < |attributes| && Roomy(cells, c, attributes)
    ensures attributes[i].kind.Pointer? ==> RoomFor(cells, c, attributes[i].kind.index)
    ensures Free(cells, c, attributes, i) ==> c !in LiveIn(cells, attributes[i].kind)
  {
  }

  lemma NothingStored<N>(ops: NumOps<N>, d: N, k: Machine, c: Cell)
    ensures WithAttributes(k, c, []) == k && Assigned(ops, d, c, []) == d
  {
  }

  lemma AssignedStep<N>(ops: NumOps<N>, d: N, c: Cell, attributes: seq<Attribute>, i: nat)
    requires i < |attributes|
    ensures Assigned(ops, d, c, attributes[..i + 1]) ==
      ops.assign(Assigned(ops, d, c, attributes[..i]), Scalar(attributes[i].kind, c), Variable(Outer(attributes[i].source)))
  {
    assert attributes[..i + 1][..i] == attributes[..i] && attributes[..i + 1][i] == attributes[i];
  }

  lemma AttributeStep(k: Machine, before: Machine, k': Machine, c: Cell, attributes: seq<Attribute>, i: nat)
    requires i < |attributes| && before == WithAttributes(k, c, attributes[..i]) && before.outer == k.outer
    requires var a := attributes[i];
      k' == if a.kind.Pointer? then before.(shadow := before.shadow[Held(a.kind.index, c) := before.outer(a.source)]) else before
    ensures k' == WithAttributes(k, c, attributes[..i + 1])
  {
    assert attributes[..i + 1][..i] == attributes[..i] && attributes[..i + 1][i] == attributes[i];
  }

  lemma RoomyKept(cells: map<DataKind, OffsetMap>, cells': map<DataKind, OffsetMap>, c: Cell, attributes: seq<Attribute>, index: nat)
    requires Roomy(cells, c, attributes)
    requires forall other: nat :: other != index ==> LiveIn(cells', Pointer(other)) == LiveIn(cells, Pointer(other))
    requires LiveIn(cells', Pointer(index)) <= LiveIn(cells, Pointer(index)) + {c}
    ensures Roomy(cells', c, attributes)
  {
    hide LiveIn, Meets;
    forall i | 0 <= i < |attributes| && attributes[i].kind.Pointer? ensures RoomFor(cells', c, attributes[i].kind.index) {
      assert RoomFor(cells, c, attributes[i].kind.index);
    }
  }

  /** What the machine becomes: the bytes are written, and with the place known a pointer brings its attributes. */
  ghost function AfterStore(k: Machine, addr: Interval, at: int, width: nat, w: int, attributes: seq<Attribute>): Machine {
    if At(addr, width).Some? then WithAttributes(Written(k, at, width, w), At(addr, width).value, attributes) else Written(k, at, width, w)
  }

  /** Forgetting the attributes first, the bytes may be written. */
  lemma ForgottenWritten(k: Machine, k': Machine, kinds: seq<nat>, addr: Interval, width: nat, at: int, w: int)
    requires Forgotten(k, k', kinds, |kinds|, addr, width) && Contains(addr, at) && forall p :: p in k.shadow ==> p.index in kinds
    ensures forall p :: p in k'.shadow ==> !Meets(p.cell, at, width)
    ensures Within(Written(k', at, width, w), Written(k, at, width, w))
    ensures At(addr, width).Some? ==> Written(k', at, width, w) == Written(k, at, width, w)
  {
    hide Meets, Write, Contains;
    assert kinds[..|kinds|] == kinds;
    HoldsItself(width);
    if At(addr, width).Some? {
      StrongHere(addr, Interval(Some(width), Some(width)), at, width);
      assert Written(k', at, width, w).shadow == Written(k, at, width, w).shadow;
    }
  }

  /** After the kinds are cleared there is room for the attributes, and the cell is free. */
  lemma ClearIsRoomy(cells: map<DataKind, OffsetMap>, kinds: seq<nat>, addr: Interval, width: nat, attributes: seq<Attribute>)
    requires KindsClear(cells, kinds, |kinds|, addr, width) && At(addr, width).Some? && width > 0
    requires forall kind, c :: kind != Types && c in LiveIn(cells, kind) ==> c.size > 0
    requires forall i :: 0 <= i < |attributes| && attributes[i].kind.Pointer? ==> attributes[i].kind.index in kinds
    ensures Roomy(cells, At(addr, width).value, attributes)
    ensures OnlyPointers(attributes) ==> Free(cells, At(addr, width).value, attributes, 0)
  {
    hide Meets, LiveIn;
    assert kinds[..|kinds|] == kinds;
    var t := At(addr, width).value;
    StrongHolds(addr, Interval(Some(width), Some(width)));
    ExactMeets(t);
    forall i, x | 0 <= i < |attributes| && attributes[i].kind.Pointer? && x in LiveIn(cells, attributes[i].kind)
      ensures x.size > 0 && !Meets(x, t.offset, t.size)
    {
      assert Clear(LiveIn(cells, Pointer(attributes[i].kind.index)), addr, Interval(Some(width), Some(width)));
    }
  }

  lemma ForgottenFacts(k: Machine, k': Machine, kinds: seq<nat>, n: nat, addr: Interval, width: nat)
    requires n <= |kinds| && Forgotten(k, k', kinds, n, addr, width) && Solid(k)
    ensures Solid(k') && k'.bigEndian == k.bigEndian && k'.outer == k.outer
  {
  }

  lemma NoAttributes(k: Machine, addr: Interval, at: int, width: nat, w: int)
    ensures AfterStore(k, addr, at, width, w, []) == Written(k, at, width, w)
  {
  }

  lemma SameOuter(k: Machine, k': Machine, valS: NumExpr, valU: NumExpr, w: int)
    requires Holds64(valS, valU, k, w) && k'.outer == k.outer
    ensures Holds64(valS, valU, k', w)
  {
  }

  lemma WithinTrans(a: Machine, b: Machine, c: Machine)
    requires Within(a, b) && Within(b, c)
    ensures Within(a, c)
  {
  }

  lemma WithinSelf(k: Machine)
    ensures Within(k, k)
  {
  }

  lemma WrittenFacts(k: Machine, at: int, size: nat, w: int)
    ensures var k' := Written(k, at, size, w); k'.bigEndian == k.bigEndian && k'.outer == k.outer
  {
  }

  lemma KindsClearKept(cells: map<DataKind, OffsetMap>, cells': map<DataKind, OffsetMap>, kinds: seq<nat>, addr: Interval, width: nat)
    requires KindsClear(cells, kinds, |kinds|, addr, width)
    requires forall index: nat :: LiveIn(cells', Pointer(index)) == LiveIn(cells, Pointer(index))
    ensures KindsClear(cells', kinds, |kinds|, addr, width)
  {
    hide Clear, LiveIn;
  }

  lemma StrongHolds(addr: Interval, width: Interval)
    requires Strong(addr, width).Some?
    ensures Contains(addr, Strong(addr, width).value.offset) && Contains(width, Strong(addr, width).value.size)
  {
  }

  lemma AreStored(valS: NumExpr, valU: NumExpr, k: Machine, w: int)
    requires Holds64(valS, valU, k, w)
    ensures Stored(valS) && Stored(valU)
  {
  }

  lemma HasBytes(addr: Interval, at: int, width: nat)
    requires Contains(addr, at) && width > 0
    ensures Proper(addr, Interval(Some(width), Some(width)))
  {
  }

  /** The bytes of an initialised register: types, numeric cells, and with the place known both views of the value. */
  method StoreBytes<N(!new)>(stack: ArrayDomain<N>, inv: N, addr: Interval, exactWidth: nat,
      valS: NumExpr, valU: NumExpr, mustBeNum: bool, ghost k: Machine, ghost at: int, ghost w: int)
    returns (inv': N, ghost base: N)
    requires stack.Valid() && Simulates(stack.ops, inv, stack.LiveCells(), k) && k.bigEndian == stack.bigEndian
    requires stack.Backed(k)
    requires forall p :: p in k.shadow ==> !Meets(p.cell, at, exactWidth)
    requires 1 <= exactWidth <= 8 && Contains(addr, at) && Holds64(valS, valU, k, w)
    requires At(addr, exactWidth).Some? ==> stack.InBounds(At(addr, exactWidth).value)
    modifies stack
    ensures stack.Valid() && Simulates(stack.ops, inv', stack.LiveCells(), Written(k, at, exactWidth, w)) && stack.Backed(Written(k, at, exactWidth, w))
    ensures forall tags, i :: Contains(addr, i) && Bitset.TagsHold(old(stack.numBytes), tags) ==>
      Bitset.TagsHold(stack.numBytes, Bitset.Tagged(tags, i, exactWidth, mustBeNum))
    ensures TypeStored(old(stack.numBytes), stack.numBytes, addr, Interval(Some(exactWidth), Some(exactWidth)), mustBeNum)
    ensures forall index: nat :: LiveIn(stack.cells, Pointer(index)) == LiveIn(old(stack.cells), Pointer(index))
    ensures At(addr, exactWidth).Some? && (exactWidth == 8 || mustBeNum) ==> var c := At(addr, exactWidth).value;
      c in stack.LiveOf(Svalues) && c in stack.LiveOf(Uvalues) && inv' == Updates(stack.ops, base, c, valS, valU)
      && (Precise(stack.ops) ==> StoreKnown(stack.ops, inv, inv', c, valS, valU))
    ensures Precise(stack.ops) ==> FarKept(stack.ops, inv, inv', Near(addr, exactWidth))
    ensures Precise(stack.ops) && At(addr, exactWidth).Some? ==>
      NumbersStay(stack.ops, inv, inv', At(addr, exactWidth))
      && NumbersSurvive(stack.ops, inv, inv', Svalues, old(stack.LiveOf(Svalues)), old(stack.LiveOf(Svalues)), At(addr, exactWidth).value, stack.numBytes)
  {
    hide SoundNum, Simulates, Clear, Strong, Contains, LiveIn, Bitset.TagsHold, Bitset.Tagged, Holds64, Written, Vacant, Updates, Precise, FarKept, TouchedRange;
    hide NumbersStay, NumbersSurvive, Solid, Meets, TypeStored, Touched, Proper, StoreKnown;
    var width := Interval(Some(exactWidth), Some(exactWidth));
    HoldsItself(exactWidth);
    BackedIsSolid(stack, k);
    ghost var cells1, signed := stack.cells, stack.LiveOf(Svalues);
    HasBytes(addr, at, exactWidth);
    stack.StoreType(addr, width, mustBeNum);
    inv' := stack.HavocNumbers(inv, addr, width, k);
    base := inv';
    PlaceSize(addr, exactWidth);
    SizesOfLive(stack);
    SimWritten(stack.ops, inv', stack.LiveCells(), k, addr, exactWidth, at, w);
    WrittenFacts(k, at, exactWidth, w);
    if exactWidth == 8 || mustBeNum {
      if Strong(addr, width).Some? {
        ClearSubset(stack.LiveCells(), stack.LiveOf(Svalues), addr, width);
        ClearSubset(stack.LiveCells(), stack.LiveOf(Uvalues), addr, width);
        ClearVacant(stack.LiveOf(Svalues), addr, width);
        ClearVacant(stack.LiveOf(Uvalues), addr, width);
      }
      inv' := StoreViews(stack, inv', addr, exactWidth, valS, valU, k, at, w);
      if Precise(stack.ops) {
        FarThen(stack.ops, inv, base, inv', Near(addr, exactWidth));
        if Strong(addr, width).Some? {
          AreStored(valS, valU, k, w);
          UpdatesKnown(stack.ops, inv, base, At(addr, exactWidth).value, valS, valU, Near(addr, exactWidth));
          StayThen(stack.ops, inv, base, inv', At(addr, exactWidth));
          SurviveStay(stack.ops, inv, base, inv', Svalues, signed, signed, At(addr, exactWidth).value, stack.numBytes);
        }
      }
    }
    forall index: nat ensures LiveIn(stack.cells, Pointer(index)) == LiveIn(cells1, Pointer(index)) {
      PointerKind(index);
      assert stack.LiveOf(Pointer(index)) == LiveIn(cells1, Pointer(index));
    }
  }

  /** The part of a store that an initialised register or an immediate goes through. */
  method StoreInitialised<N(!new)>(stack: ArrayDomain<N>, inv: N, addr: Interval, exactWidth: nat,
      valS: NumExpr, valU: NumExpr, mustBeNum: bool, ghost kinds: seq<nat>, attributes: seq<Attribute>,
      ghost k: Machine, ghost at: int, ghost w: int)
    returns (inv': N, ghost base: N, ghost k': Machine)
    requires stack.Valid() && Simulates(stack.ops, inv, stack.LiveCells(), k) && k.bigEndian == stack.bigEndian
    requires stack.Backed(k) && KindsClear(stack.cells, kinds, |kinds|, addr, exactWidth)
    requires forall p :: p in k.shadow ==> !Meets(p.cell, at, exactWidth)
    requires Known(attributes, kinds, k, SignExtend(w, 64))
    requires 1 <= exactWidth <= 8 && Contains(addr, at) && Holds64(valS, valU, k, w)
    requires At(addr, exactWidth).Some? ==> stack.InBounds(At(addr, exactWidth).value)
    modifies stack
    ensures stack.Valid() && Simulates(stack.ops, inv', stack.LiveCells(), k') && stack.Backed(k')
    ensures Within(k', AfterStore(k, addr, at, exactWidth, w, if exactWidth == 8 && !mustBeNum then attributes else []))
    ensures At(addr, exactWidth).Some? ==>
      k' == AfterStore(k, addr, at, exactWidth, w, if exactWidth == 8 && !mustBeNum then attributes else [])
    ensures forall tags, i :: Contains(addr, i) && Bitset.TagsHold(old(stack.numBytes), tags) ==>
      Bitset.TagsHold(stack.numBytes, Bitset.Tagged(tags, i, exactWidth, mustBeNum))
    ensures TypeStored(old(stack.numBytes), stack.numBytes, addr, Interval(Some(exactWidth), Some(exactWidth)), mustBeNum)
    ensures At(addr, exactWidth).Some? && (exactWidth == 8 || mustBeNum) ==> var c := At(addr, exactWidth).value;
      c in stack.LiveOf(Svalues) && c in stack.LiveOf(Uvalues) && (mustBeNum ==> inv' == Updates(stack.ops, base, c, valS, valU))
      && (!mustBeNum && DistinctKinds(attributes) ==> inv' == Assigned(stack.ops, Updates(stack.ops, base, c, valS, valU), c, attributes))
      && (Precise(stack.ops) && (mustBeNum || DistinctKinds(attributes)) ==> StoreKnown(stack.ops, inv, inv', c, valS, valU))
      && (Precise(stack.ops) && !mustBeNum && DistinctKinds(attributes) ==> AttributesKnown(stack.ops, inv, inv', c, attributes))
    ensures Precise(stack.ops) ==> FarKept(stack.ops, inv, inv', Near(addr, exactWidth))
    ensures Precise(stack.ops) && At(addr, exactWidth).Some? ==>
      NumbersStay(stack.ops, inv, inv', At(addr, exactWidth))
      && NumbersSurvive(stack.ops, inv, inv', Svalues, old(stack.LiveOf(Svalues)), old(stack.LiveOf(Svalues)), At(addr, exactWidth).value, stack.numBytes)
  {
    hide SoundNum, Simulates, Clear, Strong, Contains, LiveIn, Bitset.TagsHold, Bitset.Tagged, Holds64, Written, Vacant, Updates, Precise, FarKept, TouchedRange;
    hide NumbersStay, NumbersSurvive, KindsClear, Roomy, Within, Solid, WithAttributes, Meets, AfterStore, Known, DistinctKinds, Reading, Free, Assigned, Numeric, TypeStored, StoreKnown, AttributesKnown, OutersKept;
    var width := Interval(Some(exactWidth), Some(exactWidth));
    ghost var cells1, signed := stack.cells, stack.LiveOf(Svalues);
    inv', base := StoreBytes(stack, inv, addr, exactWidth, valS, valU, mustBeNum, k, at, w);
    k' := Written(k, at, exactWidth, w);
    WrittenFacts(k, at, exactWidth, w);
    NoAttributes(k, addr, at, exactWidth, w);
    WithinSelf(k');
    if exactWidth == 8 && !mustBeNum {
      ghost var kw := k';
      KindsClearKept(cells1, stack.cells, kinds, addr, exactWidth);
      SizesOfLive(stack);
      KnownHere(attributes, kinds, k, kw, w);
      if At(addr, exactWidth).Some? {
        StrongHere(addr, width, at, exactWidth);
        IsWord(valS, valU, k, w);
        WrittenReading(At(addr, exactWidth).value, k, w);
        ClearIsRoomy(stack.cells, kinds, addr, exactWidth, attributes);
        PointersOnly(attributes);
      }
      ghost var viewed := inv';
      inv', k' := StoreAttributes(stack, inv', addr, exactWidth, attributes, kinds, kw);
      if Precise(stack.ops) {
        FarThen(stack.ops, inv, viewed, inv', Near(addr, exactWidth));
        if At(addr, exactWidth).Some? {
          StayThen(stack.ops, inv, viewed, inv', At(addr, exactWidth));
          SurviveStay(stack.ops, inv, viewed, inv', Svalues, signed, signed, At(addr, exactWidth).value, stack.numBytes);
        }
        if At(addr, exactWidth).Some? && DistinctKinds(attributes) {
          AssignedKnown(stack.ops, inv, viewed, At(addr, exactWidth).value, attributes, valS, valU);
          FarOuters(stack.ops, inv, viewed, Near(addr, exactWidth));
          AssignedAttributes(stack.ops, inv, viewed, At(addr, exactWidth).value, attributes);
        }
      }
      AfterAttributes(k, addr, at, exactWidth, w, attributes);
      WithinSelf(k');
    }
  }

  lemma PointersOnly(attributes: seq<Attribute>)
    ensures DistinctKinds(attributes) ==> OnlyPointers(attributes)
  {
  }

  lemma AfterAttributes(k: Machine, addr: Interval, at: int, width: nat, w: int, attributes: seq<Attribute>)
    ensures AfterStore(k, addr, at, width, w, attributes) ==
      if At(addr, width).Some? then WithAttributes(Written(k, at, width, w), At(addr, width).value, attributes) else Written(k, at, width, w)
  {
  }

  /**
    One store of a register or an immediate. The simulation moves from the old memory and its pointer
    attributes to the new ones, wherever in `addr` the word really goes and whatever its value; and so does
    the record of numeric bytes, except for an uninitialised register at an unknown place. A strong store
    of a number leaves exactly the two scalars of its cell updated. `kinds` lists every kind of pointer
    attribute, `attributes` what the types of the stored register call for, with the variables that hold it.
  */
  method DoStoreStack<N(!new)>(stack: ArrayDomain<N>, inv: N, addr: Interval, exactWidth: nat,
      valS: NumExpr, valU: NumExpr, initialised: bool, mustBeNum: bool, kinds: seq<nat>, attributes: seq<Attribute>,
      ghost k: Machine, ghost at: int, ghost w: int)
    returns (inv': N, ghost base: N, ghost k': Machine)
    requires stack.Valid() && Simulates(stack.ops, inv, stack.LiveCells(), k) && k.bigEndian == stack.bigEndian
    requires stack.Backed(k) && forall p :: p in k.shadow ==> p.index in kinds
    requires initialised ==> Known(attributes, kinds, k, SignExtend(w, 64))
    requires exactWidth == 1 || exactWidth == 2 || exactWidth == 4 || exactWidth == 8
    requires Contains(addr, at) && (initialised ==> Holds64(valS, valU, k, w))
    // the access has been accepted: a constant address is inside the stack
    requires At(addr, exactWidth).Some? ==> stack.InBounds(At(addr, exactWidth).value)
    modifies stack
    // nothing is claimed that the new machine does not hold, and with the place known nothing is lost but what was overwritten
    ensures stack.Valid() && Simulates(stack.ops, inv', stack.LiveCells(), k') && stack.Backed(k')
    ensures var pointer := initialised && exactWidth == 8 && !mustBeNum;
      var truth := AfterStore(k, addr, at, exactWidth, w, if pointer then attributes else []);
      Within(k', truth) && (At(addr, exactWidth).Some? ==> k' == truth) && Simulates(stack.ops, inv', stack.LiveCells(), truth)
    ensures initialised || At(addr, exactWidth).Some? ==> forall tags :: Bitset.TagsHold(old(stack.numBytes), tags) ==>
      Bitset.TagsHold(stack.numBytes, Bitset.Tagged(tags, at, exactWidth, initialised && mustBeNum))
    // an uninitialised register at an unknown place: right exactly when no byte written counted as a number
    ensures !initialised && At(addr, exactWidth).None? ==> forall tags :: Bitset.TagsHold(old(stack.numBytes), tags) ==>
      (Bitset.TagsHold(stack.numBytes, Bitset.Tagged(tags, at, exactWidth, false)) <==> Bitset.AllMarked(old(stack.numBytes), at, exactWidth))
    // no bit moves that need not
    ensures var width := Interval(Some(exactWidth), Some(exactWidth));
      if initialised then TypeStored(old(stack.numBytes), stack.numBytes, addr, width, mustBeNum)
      else TypeHavocked(old(stack.numBytes), stack.numBytes, addr, width)
    ensures At(addr, exactWidth).Some? && initialised && (exactWidth == 8 || mustBeNum) ==> var c := At(addr, exactWidth).value;
      c in stack.LiveOf(Svalues) && c in stack.LiveOf(Uvalues) && (mustBeNum ==> inv' == Updates(stack.ops, base, c, valS, valU))
      && (!mustBeNum && DistinctKinds(attributes) ==> inv' == Assigned(stack.ops, Updates(stack.ops, base, c, valS, valU), c, attributes))
      && (Precise(stack.ops) && (mustBeNum || DistinctKinds(attributes)) ==> StoreKnown(stack.ops, inv, inv', c, valS, valU))
      && (Precise(stack.ops) && !mustBeNum && DistinctKinds(attributes) ==> AttributesKnown(stack.ops, inv, inv', c, attributes))
    ensures Precise(stack.ops) ==> FarKept(stack.ops, inv, inv', Near(addr, exactWidth))
    // at a known place: aligned numbers beside the access stay known, and so do, under a number, the parts of those it overlaps
    ensures Precise(stack.ops) && At(addr, exactWidth).Some? ==> NumbersStay(stack.ops, inv, inv', At(addr, exactWidth))
    ensures Precise(stack.ops) && At(addr, exactWidth).Some? && initialised && mustBeNum ==>
      NumbersSurvive(stack.ops, inv, inv', Svalues, old(stack.LiveOf(Svalues)), old(stack.LiveOf(Svalues)), At(addr, exactWidth).value, old(stack.numBytes))
  {
    hide SoundNum, Simulates, Clear, Strong, Contains, LiveIn, Bitset.TagsHold, Bitset.Tagged, Holds64, Written, Vacant, Updates, Precise, FarKept, TouchedRange;
    hide NumbersStay, NumbersSurvive, Forgotten, KindsClear, Roomy, Within, Solid, WithAttributes, TypeStored, TypeHavocked, StoreKnown, Assigned, AttributesKnown, OutersKept;
    var width := Interval(Some(exactWidth), Some(exactWidth));
    HoldsItself(exactWidth);
    StrongHere(addr, width, at, exactWidth);
    BackedIsSolid(stack, k);
    ghost var bits, signed := stack.numBytes, stack.LiveOf(Svalues);
    stack.HavocType(addr, width);
    ghost var k1;
    inv', k1 := HavocPointers(stack, inv, addr, exactWidth, kinds, k);
    ghost var pointed := inv';
    PlaceSize(addr, exactWidth);
    ForgottenWritten(k, k1, kinds, addr, exactWidth, at, w);
    ForgottenFacts(k, k1, kinds, |kinds|, addr, exactWidth);
    ghost var cells1 := stack.cells;
    k' := Written(k1, at, exactWidth, w);
    WithinSelf(k');
    WrittenFacts(k1, at, exactWidth, w);
    if !initialised {
      UninitialisedTags(bits, stack.numBytes, addr, at, exactWidth);
      inv' := StoreUninitialised(stack, inv', addr, exactWidth, k1, at, w);
      if Precise(stack.ops) {
        FarThen(stack.ops, inv, pointed, inv', Near(addr, exactWidth));
        if At(addr, exactWidth).Some? {
          StayBeside(stack.ops, inv, pointed, At(addr, exactWidth).value);
          StayThen(stack.ops, inv, pointed, inv', At(addr, exactWidth));
        }
      }
      base := inv';
      SimWithin(stack.ops, inv', stack.LiveCells(), k', Written(k, at, exactWidth, w));
      NoAttributes(k, addr, at, exactWidth, w);
      WithinSelf(k');
      return;
    }
    ghost var mid := stack.numBytes;
    SameOuter(k, k1, valS, valU, w);
    KnownHere(attributes, kinds, k, k1, w);
    inv', base, k' := StoreInitialised(stack, inv', addr, exactWidth, valS, valU, mustBeNum, kinds, attributes, k1, at, w);
    if Precise(stack.ops) {
      FarThen(stack.ops, inv, pointed, inv', Near(addr, exactWidth));
      if At(addr, exactWidth).Some? {
        NumbersAround(stack.ops, inv, pointed, inv', signed, At(addr, exactWidth).value, bits, mid, stack.numBytes, addr, width, mustBeNum);
        AreStored(valS, valU, k, w);
        KnownBefore(stack.ops, inv, pointed, inv', At(addr, exactWidth).value, valS, valU, attributes, Near(addr, exactWidth));
      }
    }
    TagsMoved(bits, mid, stack.numBytes, addr, width, at, exactWidth, mustBeNum);
    HavockedThenStored(bits, mid, stack.numBytes, addr, width, mustBeNum);
    AfterForgotten(k, k1, k', addr, at, exactWidth, w, if exactWidth == 8 && !mustBeNum then attributes else []);
    SimWithin(stack.ops, inv', stack.LiveCells(), k', AfterStore(k, addr, at, exactWidth, w, if exactWidth == 8 && !mustBeNum then attributes else []));
  }

  /** What is known to be stored is what was known before the pointers were forgotten. */
  lemma KnownBefore<N(!new)>(ops: NumOps<N>, d: N, mid: N, d': N, c: Cell, valS: NumExpr, valU: NumExpr, attributes: seq<Attribute>, range: Interval)
    requires FarKept(ops, d, mid, range) && Stored(valS) && Stored(valU)
    ensures StoreKnown(ops, mid, d', c, valS, valU) ==> StoreKnown(ops, d, d', c, valS, valU)
    ensures AttributesKnown(ops, mid, d', c, attributes) ==> AttributesKnown(ops, d, d', c, attributes)
  {
    hide FarKept, StoreKnown, AttributesKnown, OutersKept;
    if StoreKnown(ops, mid, d', c, valS, valU) {
      StoreKnownBefore(ops, d, mid, d', c, valS, valU, range);
    }
    if AttributesKnown(ops, mid, d', c, attributes) {
      FarOuters(ops, d, mid, range);
      AttributesKnownBefore(ops, d, mid, d', c, attributes);
    }
  }

  lemma UninitialisedTags(bits: seq<bool>, bits': seq<bool>, addr: Interval, at: int, width: nat)
    requires TypeHavocked(bits, bits', addr, Interval(Some(width), Some(width))) && Contains(addr, at)
    ensures forall tags :: Bitset.TagsHold(bits, tags) ==>
      (Bitset.TagsHold(bits', Bitset.Tagged(tags, at, width, false)) <==> At(addr, width).Some? || Bitset.AllMarked(bits, at, width))
  {
    hide TypeHavocked, Strong, Bitset.TagsHold, Bitset.Tagged, Bitset.AllMarked;
    forall tags | Bitset.TagsHold(bits, tags)
      ensures Bitset.TagsHold(bits', Bitset.Tagged(tags, at, width, false)) <==> At(addr, width).Some? || Bitset.AllMarked(bits, at, width)
    {
      HavockedWrite(bits, bits', addr, Interval(Some(width), Some(width)), tags, at, width);
    }
  }

  /** The part of a store that an uninitialised register goes through: both numeric views of the place are forgotten. */
  method StoreUninitialised<N(!new)>(stack: ArrayDomain<N>, inv: N, addr: Interval, exactWidth: nat, ghost k: Machine, ghost at: int, ghost w: int)
    returns (inv': N)
    requires stack.Valid() && Simulates(stack.ops, inv, stack.LiveCells(), k) && k.bigEndian == stack.bigEndian && stack.Backed(k)
    requires exactWidth > 0 && Contains(addr, at) && forall p :: p in k.shadow ==> !Meets(p.cell, at, exactWidth)
    modifies stack`cells
    ensures stack.Valid() && Simulates(stack.ops, inv', stack.LiveCells(), Written(k, at, exactWidth, w)) && stack.Backed(Written(k, at, exactWidth, w))
    ensures Precise(stack.ops) ==> FarKept(stack.ops, inv, inv', Near(addr, exactWidth))
    ensures Precise(stack.ops) && At(addr, exactWidth).Some? ==> NumbersStay(stack.ops, inv, inv', At(addr, exactWidth))
  {
    hide SoundNum, Simulates, Clear, Strong, Contains, LiveIn, Written, Meets, Precise, FarKept, TouchedRange, NumbersStay, NumbersSurvive;
    PlaceSize(addr, exactWidth);
    inv' := stack.HavocNumbers(inv, addr, Interval(Some(exactWidth), Some(exactWidth)), k);
    SizesOfLive(stack);
    SimWritten(stack.ops, inv', stack.LiveCells(), k, addr, exactWidth, at, w);
  }

  /** What a store keeps of the numbers around it, from before the pointers were forgotten. */
  lemma NumbersAround<N>(ops: NumOps<N>, d: N, mid: N, d': N, live: set<Cell>, t: Cell, bits: seq<bool>, midBits: seq<bool>, bits': seq<bool>,
      addr: Interval, width: Interval, isNum: bool)
    requires NumbersStay(ops, d, mid, None) && NumbersStay(ops, mid, d', Some(t))
    requires NumbersSurvive(ops, mid, d', Svalues, live, live, t, bits')
    requires TypeHavocked(bits, midBits, addr, width) && TypeStored(midBits, bits', addr, width, isNum)
    ensures NumbersStay(ops, d, d', Some(t))
    ensures isNum ==> NumbersSurvive(ops, d, d', Svalues, live, live, t, bits)
  {
    hide NumbersStay, NumbersSurvive, TypeHavocked, TypeStored, AllNumbers;
    StayBeside(ops, d, mid, t);
    StayThen(ops, d, mid, d', Some(t));
    if isNum {
      HavockedThenStored(bits, midBits, bits', addr, width, isNum);
      forall c | AllNumbers(bits, c) ensures AllNumbers(bits', c) {
        StoredNumbers(bits, bits', addr, width, c);
      }
      SurviveFrom(ops, d, mid, d', live, live, t, bits, bits');
    }
  }

  lemma StoredNumbers(bits: seq<bool>, bits': seq<bool>, addr: Interval, width: Interval, c: Cell)
    requires TypeStored(bits, bits', addr, width, true) && AllNumbers(bits, c)
    ensures AllNumbers(bits', c)
  {
    hide Touched, Strong;
  }

  /** The store starts from the machine with the attributes forgotten; what it claims holds of the whole machine. */
  lemma AfterForgotten(k: Machine, k1: Machine, k': Machine, addr: Interval, at: int, width: nat, w: int, attributes: seq<Attribute>)
    requires Within(k', AfterStore(k1, addr, at, width, w, attributes)) && Within(Written(k1, at, width, w), Written(k, at, width, w))
    requires At(addr, width).Some? ==> Written(k1, at, width, w) == Written(k, at, width, w)
    ensures Within(k', AfterStore(k, addr, at, width, w, attributes))
    ensures At(addr, width).Some? ==> AfterStore(k1, addr, at, width, w, attributes) == AfterStore(k, addr, at, width, w, attributes)
  {
    hide Within, Written;
    if At(addr, width).None? {
      WithinTrans(k', Written(k1, at, width, w), Written(k, at, width, w));
    }
  }

  lemma SameOrder(k: Machine, at: int, size: nat, w: int)
    ensures Written(k, at, size, w).bigEndian == k.bigEndian
  {
  }

  /** Forgetting the type first and recording it afterwards comes to recording it. */
  lemma TagsMoved(bits: seq<bool>, mid: seq<bool>, bits': seq<bool>, addr: Interval, width: Interval, at: int, w: int, isNum: bool)
    requires Contains(addr, at) && Contains(width, w) && |bits| == |mid| == |bits'|
    requires Strong(addr, width).None? ==> mid == bits
    requires Strong(addr, width).Some? ==> forall tags, t :: Bitset.TagsHold(bits, tags) ==>
      Bitset.TagsHold(mid, Bitset.Tagged(tags, Strong(addr, width).value.offset, Strong(addr, width).value.size, t))
    requires forall tags, i :: Contains(addr, i) && Bitset.TagsHold(mid, tags) ==> Bitset.TagsHold(bits', Bitset.Tagged(tags, i, w, isNum))
    ensures forall tags :: Bitset.TagsHold(bits, tags) ==> Bitset.TagsHold(bits', Bitset.Tagged(tags, at, w, isNum))
  {
    hide Contains, Strong;
    StrongHere(addr, width, at, w);
    forall tags | Bitset.TagsHold(bits, tags) ensures Bitset.TagsHold(bits', Bitset.Tagged(tags, at, w, isNum)) {
      if Strong(addr, width).Some? {
        var once := Bitset.Tagged(tags, at, w, isNum);
        assert Bitset.TagsHold(mid, once);
        assert Bitset.TagsHold(bits', Bitset.Tagged(once, at, w, isNum));
      } else {
        assert Bitset.TagsHold(mid, tags);
      }
    }
  }

  /** A strong access lands exactly where it is known to. */
  lemma StrongHere(addr: Interval, width: Interval, at: int, w: int)
    requires Contains(addr, at) && Contains(width, w)
    ensures Strong(addr, width).Some? ==> at >= 0 && w >= 0 && Strong(addr, width).value == Cell(at, w)
  {
  }

  /** An attribute belongs to a live cell, and so to at least one byte. */
  lemma BackedIsSolid<N(!new)>(stack: ArrayDomain<N>, k: Machine)
    requires stack.Valid() && stack.Backed(k)
    ensures Solid(k)
  {
    forall p | p in k.shadow ensures p.cell.size > 0 {
      assert p.cell in LiveIn(stack.cells, Pointer(p.index)) && stack.InBounds(p.cell);
    }
  }

  lemma SizesOfLive<N(!new)>(stack: ArrayDomain<N>)
    requires stack.Valid()
    ensures forall kind, c :: kind != Types && c in stack.LiveOf(kind) ==> c.size > 0
    ensures forall kind, c :: kind != Types && c in LiveIn(stack.cells, kind) ==> c.size > 0
    ensures forall c :: c in stack.LiveCells() ==> c.size > 0
  {
    forall kind, c | kind != Types && c in stack.LiveOf(kind) ensures c.size > 0 {
      assert stack.InBounds(c);
    }
    forall kind, c | kind != Types && c in LiveIn(stack.cells, kind) ensures c.size > 0 {
      assert c in stack.LiveOf(kind);
    }
  }
}
