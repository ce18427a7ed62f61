/** The stack cell domain (src/crab/array_domain.rs): sparse, possibly overlapping cells over byte memory. */
module ArrayDomain {
  import opened Wrappers
  import opened Numbers
  import opened Intervals
  import opened Shifts
  import opened StackMemory
  import opened OffsetMaps
  import opened StackSimulation
  import opened StackBytes
  import opened StackPrecision
  import Bitset

  predicate Numeric(kind: DataKind) {
    kind == Svalues || kind == Uvalues
  }

  function OtherNumeric(kind: DataKind): DataKind
    requires Numeric(kind)
  {
    if kind == Svalues then Uvalues else Svalues
  }

  /** A constant offset and a constant size that fit the cell types: the case of a strong update. */
  function Strong(ii: Interval, elemSize: Interval): Option<Cell> {
    var o, s := Singleton(ii), Singleton(elemSize);
    if o.Some? && 0 <= o.value < TWO64 && s.Some? && 0 <= s.value < TWO32 then Some(Cell(o.value, s.value)) else None
  }

  /** An access is strong exactly when one offset and one size, of the machine's widths, are all its intervals allow. */
  lemma StrongIsOnly(ii: Interval, elemSize: Interval, c: Cell)
    ensures Strong(ii, elemSize) == Some(c) <==>
      c.offset < TWO64 && c.size < TWO32 && (forall n :: Contains(ii, n) <==> n == c.offset) && (forall n :: Contains(elemSize, n) <==> n == c.size)
  {
    if (forall n :: Contains(ii, n) <==> n == c.offset) && (forall n :: Contains(elemSize, n) <==> n == c.size) {
      OnlyMember(ii, c.offset);
      OnlyMember(elemSize, c.size);
    }
  }

  lemma OnlyMember(i: Interval, m: int)
    requires forall n :: Contains(i, n) <==> n == m
    ensures i == Interval(Some(m), Some(m))
  {
    assert Contains(i, m) && !Contains(i, m - 1) && !Contains(i, m + 1);
  }

  /** No cell meets an access that the index and the width allow; a cell without bytes meets none. */
  ghost predicate Clear(cells: set<Cell>, ii: Interval, elemSize: Interval) {
    forall c, i, w :: c in cells && c.size > 0 && Contains(ii, i) && Contains(elemSize, w) && w > 0 ==> !Meets(c, i, w)
  }

  ghost predicate NoneOverlap(cells: set<Cell>, t: Cell) {
    forall c :: c in cells ==> !Overlaps(c, t.offset, t.size)
  }

  lemma ClearSubset(cells: set<Cell>, cells': set<Cell>, ii: Interval, elemSize: Interval)
    requires Clear(cells, ii, elemSize) && cells' <= cells
    ensures Clear(cells', ii, elemSize)
  {
  }

  lemma ClearUnion(cells: set<Cell>, cells': set<Cell>, ii: Interval, elemSize: Interval)
    requires Clear(cells, ii, elemSize) && Clear(cells', ii, elemSize)
    ensures Clear(cells + cells', ii, elemSize)
  {
  }

  /** The bytes an access may touch: from the index to the last byte, inclusive. */
  function TouchedRange(ii: Interval, elemSize: Interval): Interval {
    Intervals.Join(ii, Add(Add(ii, elemSize), Interval(Some(-1), Some(-1))))
  }

  lemma TouchedHolds(ii: Interval, elemSize: Interval, i: int, w: int, n: int)
    requires Contains(ii, i) && Contains(elemSize, w) && i <= n < i + w
    ensures Contains(TouchedRange(ii, elemSize), n)
  {
    hide Add, Intervals.Join, Contains;
    var minusOne := Interval(Some(-1), Some(-1));
    var ends := Add(ii, elemSize);
    assert Contains(ends, i + w);
    HoldsItself(-1);
    assert Contains(Add(ends, minusOne), i + w + -1);
    Convex(TouchedRange(ii, elemSize), i, n, i + w - 1);
  }

  /** Some cell of the set that starts where `c` does has a byte in the range. */
  ghost predicate NearRange(live: set<Cell>, c: Cell, range: Interval) {
    exists d :: d in live && d.offset == c.offset && HasByteIn(d, range)
  }

  lemma NearIsTouched(om: OffsetMap, range: Interval)
    requires ValidMap(om)
    ensures forall c :: NearRange(Live(om), c, range) <==> TouchedAt(om, c.offset, range)
  {
    hide Live, Has, HasByteIn;
    LiveMeansHas(om);
    forall c ensures NearRange(Live(om), c, range) <==> TouchedAt(om, c.offset, range) {
      if d :| d in Live(om) && d.offset == c.offset && HasByteIn(d, range) {
        assert d == Cell(c.offset, d.size);
      }
      if s :| Has(om, Cell(c.offset, s)) && HasByteIn(Cell(c.offset, s), range) {
        assert Cell(c.offset, s) in Live(om);
      }
    }
  }

  lemma HoldsItself(n: int)
    ensures Contains(Interval(Some(n), Some(n)), n)
  {
  }

  lemma Convex(r: Interval, a: int, n: int, b: int)
    requires Contains(r, a) && Contains(r, b) && a <= n <= b
    ensures Contains(r, n)
  {
  }

  lemma MeetsHasByte(c: Cell, i: int, w: int) returns (n: int)
    requires Meets(c, i, w) && c.size > 0 && w > 0
    ensures c.offset <= n < c.offset + c.size && i <= n < i + w
  {
    n := if c.offset >= i then c.offset else i;
  }

  /** A strong kill that removed every overlap and the exact cell leaves the range clear. */
  lemma StrongClear(cells: set<Cell>, ii: Interval, elemSize: Interval)
    requires Strong(ii, elemSize).Some?
    requires var t := Strong(ii, elemSize).value; forall c :: c in cells ==> !Overlaps(c, t.offset, t.size) && c != t
    ensures Clear(cells, ii, elemSize)
  {
    var t := Strong(ii, elemSize).value;
    forall c, i, w | c in cells && c.size > 0 && Contains(ii, i) && Contains(elemSize, w) && w > 0 ensures !Meets(c, i, w) {
      assert i == t.offset && w == t.size;
      OverlapsIsMeets(c, t.offset, t.size);
    }
  }

  lemma WeakClear(cells: set<Cell>, ii: Interval, elemSize: Interval)
    requires forall c, n :: c in cells && c.offset <= n < c.offset + c.size ==> !Contains(TouchedRange(ii, elemSize), n)
    ensures Clear(cells, ii, elemSize)
  {
    hide TouchedRange, Contains;
    forall c, i, w | c in cells && c.size > 0 && Contains(ii, i) && Contains(elemSize, w) && w > 0 ensures !Meets(c, i, w) {
      if Meets(c, i, w) {
        var n := MeetsHasByte(c, i, w);
        TouchedHolds(ii, elemSize, i, w, n);
      }
    }
  }

  lemma LiveMeansHas(om: OffsetMap)
    requires ValidMap(om)
    ensures forall c :: c in Live(om) <==> Has(om, c)
  {
    forall c ensures c in Live(om) <==> Has(om, c) {
      LiveIsHas(om, c);
    }
  }

  /** Removing what either scan finds leaves the range clear. */
  lemma RemovedClear(live: set<Cell>, removed: seq<Cell>, ii: Interval, elemSize: Interval)
    requires Strong(ii, elemSize).Some? ==> var t := Strong(ii, elemSize).value;
      forall c :: c in removed <==> c in live && (Overlaps(c, t.offset, t.size) || c == t)
    requires Strong(ii, elemSize).None? ==>
      forall c, n :: c in live && c.offset <= n < c.offset + c.size && Contains(TouchedRange(ii, elemSize), n) ==> c in removed
    ensures Clear(live - SetOf(removed), ii, elemSize)
  {
    hide Strong, Overlaps, TouchedRange, Contains, Clear;
    if Strong(ii, elemSize).Some? {
      StrongClear(live - SetOf(removed), ii, elemSize);
    } else {
      WeakClear(live - SetOf(removed), ii, elemSize);
    }
  }

  lemma MeansGrow(x: NumExpr, kind: DataKind, c: Cell, live: set<Cell>, live': set<Cell>, k: Machine)
    requires Means(x, kind, c, live, k) && live <= live'
    ensures Means(x, kind, c, live', k)
  {
    forall e | Agrees(e, live', k) ensures Val(x, e) == Reading(kind, c, k) {
      assert Agrees(e, live, k);
    }
  }

  ghost function LiveIn(cells: map<DataKind, OffsetMap>, kind: DataKind): set<Cell> {
    if kind in cells then Live(cells[kind]) else {}
  }

  /** From `before` to `after` cells have only been added, and only cells of `extra`. */
  ghost predicate GrownBy(before: map<DataKind, OffsetMap>, after: map<DataKind, OffsetMap>, extra: set<Cell>) {
    forall kind :: LiveIn(before, kind) <= LiveIn(after, kind) <= LiveIn(before, kind) + extra
  }

  lemma GrownTrans(a: map<DataKind, OffsetMap>, b: map<DataKind, OffsetMap>, c: map<DataKind, OffsetMap>, extra: set<Cell>)
    requires GrownBy(a, b, extra) && GrownBy(b, c, extra)
    ensures GrownBy(a, c, extra)
  {
    hide LiveIn;
  }

  lemma GrownOf(a: map<DataKind, OffsetMap>, b: map<DataKind, OffsetMap>, extra: set<Cell>, kind: DataKind)
    requires GrownBy(a, b, extra)
    ensures LiveIn(a, kind) <= LiveIn(b, kind) <= LiveIn(a, kind) + extra
  {
    hide LiveIn;
  }

  lemma GrownLive(a: map<DataKind, OffsetMap>, b: map<DataKind, OffsetMap>, extra: set<Cell>)
    requires GrownBy(a, b, extra)
    ensures LiveIn(a, Svalues) + LiveIn(a, Uvalues) <= LiveIn(b, Svalues) + LiveIn(b, Uvalues)
  {
    hide LiveIn;
  }

  /** Cells have only been added, and none that touches the stretch. */
  ghost predicate GrownAround(before: map<DataKind, OffsetMap>, after: map<DataKind, OffsetMap>, t: Cell) {
    forall kind :: LiveIn(before, kind) <= LiveIn(after, kind) && NewAround(LiveIn(before, kind), LiveIn(after, kind), t)
  }

  ghost predicate NewAround(before: set<Cell>, after: set<Cell>, t: Cell) {
    t.size > 0 ==> forall c :: c in after && c !in before ==> !Meets(c, t.offset, t.size)
  }

  lemma NothingNew()
    ensures forall cells, t :: NewAround(cells, cells, t)
  {
  }

  lemma GrownNone(cells: map<DataKind, OffsetMap>, t: Cell)
    ensures GrownAround(cells, cells, t)
  {
    hide LiveIn;
  }

  lemma GrownAgainAround(a: map<DataKind, OffsetMap>, b: map<DataKind, OffsetMap>, c: map<DataKind, OffsetMap>, t: Cell)
    requires GrownAround(a, b, t) && GrownAround(b, c, t)
    ensures GrownAround(a, c, t)
  {
    hide LiveIn;
    forall kind ensures LiveIn(a, kind) <= LiveIn(c, kind) && NewAround(LiveIn(a, kind), LiveIn(c, kind), t) {
      assert LiveIn(a, kind) <= LiveIn(b, kind) && NewAround(LiveIn(a, kind), LiveIn(b, kind), t);
      assert LiveIn(b, kind) <= LiveIn(c, kind) && NewAround(LiveIn(b, kind), LiveIn(c, kind), t);
    }
  }

  lemma GrownAgain(a: map<DataKind, OffsetMap>, b: map<DataKind, OffsetMap>, c: map<DataKind, OffsetMap>, t: Cell, added: Cell)
    requires GrownAround(a, b, t) && GrownBy(b, c, {added})
    requires t.size > 0 ==> !Meets(added, t.offset, t.size)
    ensures GrownAround(a, c, t)
  {
    hide LiveIn;
    forall kind ensures LiveIn(a, kind) <= LiveIn(c, kind) && NewAround(LiveIn(a, kind), LiveIn(c, kind), t) {
      assert LiveIn(a, kind) <= LiveIn(b, kind) && NewAround(LiveIn(a, kind), LiveIn(b, kind), t);
    }
  }

  /** The machine without the pointer attributes of `kind` that the cells of `gone` held. */
  ghost function Dropped(k: Machine, kind: DataKind, gone: set<Cell>): Machine {
    if kind.Pointer? then k.(shadow := map p | p in k.shadow && !(p.index == kind.index && p.cell in gone) :: k.shadow[p]) else k
  }

  /** The cells a strong access kills. */
  ghost function Struck(cells: set<Cell>, t: Cell): set<Cell> {
    set c | c in cells && (Overlaps(c, t.offset, t.size) || c == t)
  }

  /** What is still to be read off memory once the cells of `gone` have lost their scalars. */
  ghost function Remaining(kind: DataKind, live: set<Cell>, gone: set<Cell>): set<Cell> {
    if Numeric(kind) then live - gone else live
  }

  lemma GoneIs(before: set<Cell>, after: set<Cell>, removed: seq<Cell>)
    requires after == before - SetOf(removed) && SetOf(removed) <= before
    ensures before - after == SetOf(removed)
  {
  }

  lemma RemovedIsStruck(before: set<Cell>, removed: seq<Cell>, t: Cell)
    requires forall c :: c in removed <==> c in before && (Overlaps(c, t.offset, t.size) || c == t)
    ensures SetOf(removed) == Struck(before, t)
  {
    hide Overlaps;
  }

  lemma DroppedNone(k: Machine, kind: DataKind)
    ensures Dropped(k, kind, {}) == k
  {
    if kind.Pointer? {
      assert Dropped(k, kind, {}).shadow == k.shadow;
    }
  }

  lemma DroppedOne(k: Machine, kind: DataKind, gone: set<Cell>, c: Cell)
    requires kind.Pointer?
    ensures var d := Dropped(k, kind, gone); Dropped(k, kind, gone + {c}) == d.(shadow := d.shadow - {Held(kind.index, c)})
  {
    var d := Dropped(k, kind, gone);
    assert Dropped(k, kind, gone + {c}).shadow == d.shadow - {Held(kind.index, c)};
  }

  lemma IsNumeric(kind: DataKind)
    ensures Numeric(kind) <==> kind == Svalues || kind == Uvalues
    ensures kind == Svalues ==> OtherNumeric(kind) == Uvalues
    ensures kind == Uvalues ==> OtherNumeric(kind) == Svalues
  {
  }

  lemma RemainingIs(kind: DataKind, live: set<Cell>, gone: set<Cell>)
    ensures Remaining(kind, live, gone) == if Numeric(kind) then live - gone else live
  {
  }

  lemma RemainingNone(kind: DataKind, live: set<Cell>)
    ensures Remaining(kind, live, {}) == live
  {
  }

  /** What stays of the dropped attributes belongs to cells that stay. */
  lemma DroppedBacked(k: Machine, kind: DataKind, before: set<Cell>, after: set<Cell>)
    ensures forall p :: p in Dropped(k, kind, before - after).shadow ==>
      p in k.shadow && (Pointer(p.index) == kind && p.cell in before ==> p.cell in after)
  {
  }

  /** One more cell has its scalar forgotten, a number both its numeric scalars. */
  lemma KillStep<N(!new)>(ops: NumOps<N>, d: N, kind: DataKind, c: Cell, live: set<Cell>, gone: set<Cell>, k: Machine)
    requires SoundNum(ops) && Simulates(ops, d, Remaining(kind, live, gone), Dropped(k, kind, gone))
    ensures var one := ops.havoc(d, Scalar(kind, c));
      Simulates(ops, if Numeric(kind) then ops.havoc(one, Scalar(OtherNumeric(kind), c)) else one,
        Remaining(kind, live, gone + {c}), Dropped(k, kind, gone + {c}))
  {
    hide SoundNum, Simulates;
    if Numeric(kind) {
      SimKill(ops, d, c, kind, OtherNumeric(kind), live - gone, k);
      assert live - gone - {c} == live - (gone + {c});
    } else if kind.Pointer? {
      hide Dropped;
      SimKillPointer(ops, d, Held(kind.index, c), live, Dropped(k, kind, gone));
      DroppedOne(k, kind, gone, c);
    } else {
      SimForget(ops, d, Scalar(kind, c), live, k);
    }
  }

  class ArrayDomain<N(!new)> {
    const ops: NumOps<N>
    const totalStackSize: nat
    const bigEndian: bool
    /** One bit per stack byte; set when the byte is not known to be a number. */
    var numBytes: seq<bool>
    var cells: map<DataKind, OffsetMap>

    constructor (ops: NumOps<N>, totalStackSize: nat, bigEndian: bool)
      requires SoundNum(ops)
      ensures this.ops == ops && this.totalStackSize == totalStackSize && this.bigEndian == bigEndian
      ensures Valid() && LiveCells() == {}
      ensures forall tags :: Bitset.TagsHold(numBytes, tags)
    {
      this.ops, this.totalStackSize, this.bigEndian := ops, totalStackSize, bigEndian;
      numBytes := seq(totalStackSize, _ => true);
      cells := map[];
    }

    /** The map of a kind, empty until it is first used. */
    function Entry(kind: DataKind): OffsetMap
      reads this
    {
      if kind in cells then cells[kind] else OffsetMap(totalStackSize, map[])
    }

    ghost function LiveOf(kind: DataKind): set<Cell>
      reads this
    {
      LiveIn(cells, kind)
    }

    /** A cell of either numeric kind: both its numeric scalars may be constrained. */
    ghost function LiveCells(): set<Cell>
      reads this
    {
      LiveOf(Svalues) + LiveOf(Uvalues)
    }

    /** Every pointer attribute the stack holds has its cell in the maps. */
    ghost predicate Backed(k: Machine)
      reads this
    {
      forall p :: p in k.shadow ==> p.cell in LiveOf(Pointer(p.index))
    }

    /** Cells lie inside the stack and are at most eight bytes wide. */
    ghost predicate InBounds(c: Cell) {
      1 <= c.size <= 8 && c.offset + c.size <= totalStackSize
    }

    ghost predicate Valid()
      reads this
    {
      && SoundNum(ops)
      && |numBytes| == totalStackSize
      && (forall kind :: kind in cells ==> ValidMap(cells[kind]) && cells[kind].totalStackSize == totalStackSize)
      && (forall kind, c :: kind != Types && c in LiveIn(cells, kind) ==> InBounds(c))
    }

    lemma EntryValid(kind: DataKind)
      requires Valid()
      ensures ValidMap(Entry(kind)) && Entry(kind).totalStackSize == totalStackSize && Live(Entry(kind)) == LiveOf(kind)
    {
    }

    /** Creates a cell, unless it starts past the end of the stack. */
    method MkCell(kind: DataKind, offset: nat, size: nat)
      requires Valid() && (kind != Types && offset < totalStackSize ==> InBounds(Cell(offset, size)))
      modifies this`cells
      ensures Valid()
      ensures LiveOf(kind) == old(LiveOf(kind)) + if offset < totalStackSize then {Cell(offset, size)} else {}
      ensures forall other :: other != kind ==> LiveOf(other) == old(LiveOf(other))
      ensures GrownBy(old(cells), cells, {Cell(offset, size)})
    {
      hide SoundNum, Live;
      EntryValid(kind);
      InsertLive(Entry(kind), Cell(offset, size));
      ghost var before := cells;
      cells := cells[kind := InsertCell(Entry(kind), Cell(offset, size))];
      forall k, c | k != Types && c in LiveIn(cells, k) ensures InBounds(c) {
        assert c in LiveIn(before, k) || (k == kind && c == Cell(offset, size));
      }
    }

    /**
      Removes from the maps every cell an access may touch, the exactly matching one included. A negative
      constant offset is imprecise: it can still reach into the stack.
    */
    method FindAndRemoveOverlap(kind: DataKind, ii: Interval, elemSize: Interval) returns (res: Option<Cell>, removed: seq<Cell>)
      requires Valid()
      modifies this`cells
      ensures Valid() && res == Strong(ii, elemSize)
      ensures LiveOf(kind) == old(LiveOf(kind)) - SetOf(removed)
      ensures SetOf(removed) <= old(LiveOf(kind))
      ensures forall other :: other != kind ==> LiveOf(other) == old(LiveOf(other))
      ensures Clear(LiveOf(kind), ii, elemSize)
      ensures res.Some? ==> forall c :: c in removed <==>
        c in old(LiveOf(kind)) && (Overlaps(c, res.value.offset, res.value.size) || c == res.value)
      ensures res.None? ==> forall c :: c in removed <==> c in old(LiveOf(kind)) && NearRange(old(LiveOf(kind)), c, TouchedRange(ii, elemSize))
    {
      hide SoundNum, Live, Has, Overlaps, Clear, TouchedRange, Strong, Contains, ValidMap, TouchedAt, NearRange;
      var om := Entry(kind);
      EntryValid(kind);
      res := Strong(ii, elemSize);
      LiveMeansHas(om);
      if res.Some? {
        var target := res.value;
        removed := GetOverlapCells(om, target.offset, target.size);
        var exact := GetCell(om, target.offset, target.size);
        if exact.Some? {
          removed := removed + [exact.value];
        }
      } else {
        removed := GetOverlapCellsSymbolic(om, TouchedRange(ii, elemSize));
        NearIsTouched(om, TouchedRange(ii, elemSize));
      }
      var om' := RemoveCells(om, removed);
      ghost var before := cells;
      cells := cells[kind := om'];
      forall k, c | k != Types && c in LiveIn(cells, k) ensures InBounds(c) {
        assert c in LiveIn(before, k);
      }
      RemovedClear(Live(om), removed, ii, elemSize);
    }

    /** Forgets the scalars of the cells; of a number both numeric ones. */
    method ForgetCells(inv: N, kind: DataKind, removed: seq<Cell>, ghost live: set<Cell>, ghost k: Machine) returns (inv': N)
      requires SoundNum(ops) && Simulates(ops, inv, live, k)
      ensures Simulates(ops, inv', Remaining(kind, live, SetOf(removed)), Dropped(k, kind, SetOf(removed)))
      ensures removed == [] ==> inv' == inv
      ensures Precise(ops) ==> KeptBut(ops, inv, inv', kind, SetOf(removed))
    {
      hide SoundNum, Simulates, Dropped, Remaining, Numeric, Precise, KeptBut;
      inv' := inv;
      DroppedNone(k, kind);
      RemainingNone(kind, live);
      assert SetOf(removed[..0]) == {};
      KeptButNothing(ops, inv, kind);
      var i := 0;
      while i < |removed|
        invariant 0 <= i <= |removed|
        invariant Simulates(ops, inv', Remaining(kind, live, SetOf(removed[..i])), Dropped(k, kind, SetOf(removed[..i])))
        invariant i == 0 ==> inv' == inv
        invariant Precise(ops) ==> KeptBut(ops, inv, inv', kind, SetOf(removed[..i]))
      {
        KillStep(ops, inv', kind, removed[i], live, SetOf(removed[..i]), k);
        assert removed[..i + 1] == removed[..i] + [removed[i]];
        assert SetOf(removed[..i + 1]) == SetOf(removed[..i]) + {removed[i]};
        IsNumeric(kind);
        ghost var before := inv';
        inv' := ops.havoc(inv', Scalar(kind, removed[i]));
        if kind == Svalues {
          inv' := ops.havoc(inv', Scalar(Uvalues, removed[i]));
        } else if kind == Uvalues {
          inv' := ops.havoc(inv', Scalar(Svalues, removed[i]));
        }
        if Precise(ops) {
          KeptButOne(ops, inv, before, inv', kind, SetOf(removed[..i]), removed[i]);
        }
        i := i + 1;
      }
      assert removed[..|removed|] == removed;
    }

    /** Kills the overlapping cells of one kind, and forgets the scalar of each, of a number both numeric ones. */
    method KillAndFindVar(inv: N, kind: DataKind, ii: Interval, elemSize: Interval, ghost k: Machine)
      returns (inv': N, res: Option<Cell>, ghost k': Machine)
      requires Valid() && Simulates(ops, inv, LiveCells(), k)
      modifies this`cells
      ensures Valid() && Simulates(ops, inv', LiveCells(), k') && res == Strong(ii, elemSize)
      ensures k' == Dropped(k, kind, old(LiveOf(kind)) - LiveOf(kind)) && (old(Backed(k)) ==> Backed(k'))
      ensures LiveOf(kind) <= old(LiveOf(kind)) && Clear(LiveOf(kind), ii, elemSize)
      ensures forall other :: other != kind ==> LiveOf(other) == old(LiveOf(other))
      ensures res.Some? ==> LiveOf(kind) == old(LiveOf(kind)) - Struck(old(LiveOf(kind)), res.value)
      ensures res.None? ==> forall c :: c in LiveOf(kind) <==> c in old(LiveOf(kind)) && !NearRange(old(LiveOf(kind)), c, TouchedRange(ii, elemSize))
      ensures LiveOf(kind) == old(LiveOf(kind)) ==> inv' == inv
      ensures Precise(ops) ==> KeptBut(ops, inv, inv', kind, old(LiveOf(kind)) - LiveOf(kind))
    {
      hide SoundNum, Live, LiveIn, Simulates, Overlaps, Clear, Strong, Dropped, Remaining, Numeric, NearRange, TouchedRange, Precise, KeptBut;
      ghost var live := LiveCells();
      ghost var before := LiveOf(kind);
      var removed;
      res, removed := FindAndRemoveOverlap(kind, ii, elemSize);
      inv' := ForgetCells(inv, kind, removed, live, k);
      GoneIs(before, LiveOf(kind), removed);
      k' := Dropped(k, kind, SetOf(removed));
      IsNumeric(kind);
      RemainingIs(kind, live, SetOf(removed));
      SimGrow(ops, inv', Remaining(kind, live, SetOf(removed)), LiveCells(), k');
      assert removed != [] ==> removed[0] in SetOf(removed);
      if old(Backed(k)) {
        DroppedBacked(k, kind, before, LiveOf(kind));
      }
      if res.Some? {
        RemovedIsStruck(before, removed, res.value);
      }
    }

    /** No cell of its own, no value from known bytes, and other cells in the way. */
    ghost predicate LoadFails(inv: N, live: set<Cell>, kind: DataKind, c: Cell)
      reads this
    {
      c !in live && !(Numeric(kind) && Rebuildable(ops, inv, c.offset, c.size)) && !NoneOverlap(live, c)
    }

    /**
      Loads a value at a constant index: an exact cell, a value rebuilt from known bytes, or a fresh
      cell where nothing overlaps. What is returned stands for the bytes of memory there.
    */
    method Load(inv: N, kind: DataKind, i: Interval, width: nat, ghost k: Machine) returns (r: Option<NumExpr>)
      requires Valid() && Simulates(ops, inv, LiveCells(), k) && k.bigEndian == bigEndian
      requires 1 <= width <= 8
      requires Singleton(i).Some? ==> 0 <= Singleton(i).value && Singleton(i).value + width <= totalStackSize
      modifies this`cells
      ensures Valid() && old(LiveCells()) <= LiveCells()
      ensures r.Some? && Numeric(kind) ==> Singleton(i).Some? && Means(r.value, kind, Cell(Singleton(i).value, width), LiveCells(), k)
      ensures r.Some? ==> Singleton(i).Some?
      ensures r.Some? && !Numeric(kind) ==> Cell(Singleton(i).value, width) in LiveOf(kind)
      ensures r.Some? && !Numeric(kind) ==> r.value == Variable(Scalar(kind, Cell(Singleton(i).value, width)))
      ensures Singleton(i).Some? && Cell(Singleton(i).value, width) in old(LiveOf(kind)) ==>
        r == Some(Variable(Scalar(kind, Cell(Singleton(i).value, width)))) && cells == old(cells)
      ensures if Singleton(i).Some? then GrownBy(old(cells), cells, {Cell(Singleton(i).value, width)}) else cells == old(cells)
      ensures forall other :: other != kind ==> LiveOf(other) == old(LiveOf(other))
      ensures r.None? <==> Singleton(i).None? || LoadFails(inv, old(LiveOf(kind)), kind, Cell(Singleton(i).value, width))
      ensures Singleton(i).Some? && Cell(Singleton(i).value, width) !in old(LiveOf(kind)) && Numeric(kind) && Rebuildable(ops, inv, Singleton(i).value, width) ==>
        r.Some? && r.value.Constant? && cells == old(cells)
    {
      hide SoundNum, Live, LiveIn, Simulates, Reading, Read, Overlaps, Rebuildable;
      if Singleton(i).None? {
        return None;
      }
      var offset: nat := Singleton(i).value;
      var cell := Cell(offset, width);
      EntryValid(kind);
      LiveIsHas(Entry(kind), cell);
      var existing := if kind in cells then GetCell(cells[kind], offset, width) else None;
      if existing.Some? {
        return Some(Variable(Scalar(kind, existing.value)));
      }
      if Numeric(kind) {
        var value := ReconstructValueFromBytes(ops, inv, offset, width, bigEndian, LiveCells(), k);
        if value.Some? {
          RebuiltMeans(value.value, kind, cell, LiveCells(), k);
          return Some(Constant(if kind == Uvalues then value.value else SignExtend(value.value, 64)));
        }
      }
      var overlapCells := GetOverlapCells(Entry(kind), offset, width);
      OverlapsListed(kind, overlapCells, cell);
      if overlapCells == [] {
        MkCell(kind, offset, width);
        return Some(Variable(Scalar(kind, cell)));
      }
      return None;
    }

    lemma OverlapsListed(kind: DataKind, cs: seq<Cell>, c: Cell)
      requires forall x :: x in cs <==> Has(Entry(kind), x) && Overlaps(x, c.offset, c.size)
      ensures cs == [] <==> NoneOverlap(LiveOf(kind), c)
    {
      hide Overlaps;
      forall x ensures x in LiveOf(kind) <==> Has(Entry(kind), x) {
        LiveIsHas(Entry(kind), x);
      }
      assert cs != [] ==> cs[0] in cs;
    }

    /** Gives one part of a numeric cell a cell of its own, with the value it has. */
    method SplitCell(inv: N, kind: DataKind, cellStartIndex: nat, len: nat, ghost k: Machine) returns (inv': N)
      requires Valid() && Numeric(kind) && Simulates(ops, inv, LiveCells(), k) && k.bigEndian == bigEndian
      requires 1 <= len <= 8 && cellStartIndex + len <= totalStackSize
      modifies this`cells
      ensures Valid() && Simulates(ops, inv', LiveCells(), k)
      ensures GrownBy(old(cells), cells, {Cell(cellStartIndex, len)})
      ensures forall other :: !Numeric(other) ==> LiveOf(other) == old(LiveOf(other))
      ensures Cell(cellStartIndex, len) in LiveOf(kind)
      ensures Precise(ops) ==> KnownKept(ops, inv, inv', Pair(Cell(cellStartIndex, len)))
      ensures Precise(ops) && Rebuildable(ops, inv, cellStartIndex, len) && Cell(cellStartIndex, len) !in old(LiveOf(Svalues)) ==>
        ValueIn(ops, inv', Scalar(Svalues, Cell(cellStartIndex, len))).Some?
      ensures Precise(ops) ==> NumbersStay(ops, inv, inv', None)
    {
      hide SoundNum, LiveIn, Simulates, Means, GrownBy, Precise, KnownKept, Rebuildable, ValueIn, NumbersStay, Aligned;
      ghost var start := cells;
      var idx := Interval(Some(cellStartIndex), Some(cellStartIndex));
      var cell := Cell(cellStartIndex, len);
      var svalue := Load(inv, Svalues, idx, len, k);
      ghost var cells1 := cells;
      ghost var live1 := LiveCells();
      SimGrow(ops, inv, old(LiveCells()), live1, k);
      var uvalue := Load(inv, Uvalues, idx, len, k);
      GrownTrans(start, cells1, cells, {cell});
      ghost var cells2 := cells;
      ghost var live2 := LiveCells();
      MkCell(kind, cellStartIndex, len);
      GrownTrans(start, cells2, cells, {cell});
      GrownLive(cells2, cells, {cell});
      ghost var live := LiveCells();
      assert cell in live;
      SimGrow(ops, inv, old(LiveCells()), live, k);
      if svalue.Some? {
        MeansGrow(svalue.value, Svalues, cell, live1, live, k);
        SimLearn(ops, inv, Svalues, cell, svalue.value, live, k);
      } else {
        SimForget(ops, inv, Scalar(Svalues, cell), live, k);
      }
      inv' := AssignOrHavoc(inv, Scalar(Svalues, cell), svalue);
      if uvalue.Some? {
        MeansGrow(uvalue.value, Uvalues, cell, live2, live, k);
        SimLearn(ops, inv', Uvalues, cell, uvalue.value, live, k);
      } else {
        SimForget(ops, inv', Scalar(Uvalues, cell), live, k);
      }
      ghost var mid := inv';
      inv' := AssignOrHavoc(inv', Scalar(Uvalues, cell), uvalue);
      if Precise(ops) {
        AssignOrHavocKeeps(inv, Scalar(Svalues, cell), svalue);
        AssignOrHavocKeeps(mid, Scalar(Uvalues, cell), uvalue);
        KeptThen(ops, inv, mid, inv', {Scalar(Svalues, cell)}, {Scalar(Uvalues, cell)});
        assert {Scalar(Svalues, cell)} + {Scalar(Uvalues, cell)} == Pair(cell);
        StillKnown(mid, inv', Scalar(Svalues, cell), {Scalar(Uvalues, cell)});
        if Aligned(cell) && ValueIn(ops, inv, Scalar(Svalues, cell)).Some? {
          KnownRebuilds(inv, cell);
        }
        PairStays(ops, inv, inv', cell);
      }
    }

    lemma KnownRebuilds(d: N, c: Cell)
      requires Aligned(c) && ValueIn(ops, d, Scalar(Svalues, c)).Some?
      ensures Rebuildable(ops, d, c.offset, c.size)
    {
      hide Rebuildable;
      PartOfKnownCell(ops, d, c, c.offset, c.size);
    }

    lemma StillKnown(d: N, d': N, w: NumVar, lost: set<NumVar>)
      requires KnownKept(ops, d, d', lost) && w !in lost
      ensures ValueIn(ops, d, w).Some? ==> ValueIn(ops, d', w) == ValueIn(ops, d, w)
    {
    }

    lemma AssignOrHavocKeeps(d: N, v: NumVar, x: Option<NumExpr>)
      requires Precise(ops)
      ensures KnownKept(ops, d, AssignOrHavoc(d, v, x), {v})
      ensures x.Some? && x.value.Constant? ==> ValueIn(ops, AssignOrHavoc(d, v, x), v).Some?
      ensures x.Some? && x.value.Variable? && ValueIn(ops, d, x.value.v).Some? ==> ValueIn(ops, AssignOrHavoc(d, v, x), v).Some?
    {
      hide Precise, KnownKept, ValueIn;
      if x.Some? {
        AssignKeeps(ops, d, v, x.value);
      } else {
        HavocKeeps(ops, d, v);
      }
    }

    function AssignOrHavoc(inv: N, v: NumVar, x: Option<NumExpr>): N {
      if x.Some? then ops.assign(inv, v, x.value) else ops.havoc(inv, v)
    }

    /** Before bytes are overwritten, keeps the parts of the eight-byte numbers around them that stay. */
    method SplitNumberVar(inv: N, kind: DataKind, ii: Interval, elemSize: Interval, ghost k: Machine) returns (inv': N)
      requires Valid() && Numeric(kind) && Simulates(ops, inv, LiveCells(), k) && k.bigEndian == bigEndian
      modifies this`cells
      ensures Valid() && Simulates(ops, inv', LiveCells(), k)
      ensures Strong(ii, elemSize).None? ==> cells == old(cells) && inv' == inv
      ensures Strong(ii, elemSize).Some? ==> GrownAround(old(cells), cells, Strong(ii, elemSize).value)
      ensures Strong(ii, elemSize).Some? && NoneOverlap(old(LiveOf(kind)), Strong(ii, elemSize).value) ==>
        cells == old(cells) && inv' == inv
      ensures forall other :: !Numeric(other) ==> LiveOf(other) == old(LiveOf(other))
      ensures Precise(ops) && Strong(ii, elemSize).Some? && Strong(ii, elemSize).value.size > 0 ==>
        SplitKeeps(ops, inv, inv', kind, old(LiveOf(kind)), old(LiveOf(Svalues)), Strong(ii, elemSize).value, numBytes)
      ensures Precise(ops) ==> NumbersStay(ops, inv, inv', None)
    {
      hide SoundNum, LiveIn, Live, Simulates, Overlaps, GrownAround, GrownBy, Strong, Has, Precise, SplitSoFar, SplitDone, SplitKeeps, AllOverlap, NumbersStay;
      inv' := inv;
      StayNothing(ops, inv, None);
      var strong := Strong(ii, elemSize);
      if strong.None? {
        return;
      }
      var offset, size := strong.value.offset, strong.value.size;
      EntryValid(kind);
      var overlap := GetOverlapCells(Entry(kind), offset, size);
      ghost var before := cells;
      forall c ensures c in LiveOf(kind) <==> Has(Entry(kind), c) {
        LiveIsHas(Entry(kind), c);
      }
      forall c | c in overlap ensures c in LiveOf(kind) && c in LiveCells() {
      }
      GrownNone(cells, strong.value);
      OverlapFacts(overlap, strong.value);
      SplitStarts(ops, inv, kind, LiveOf(Svalues), overlap, strong.value, numBytes);
      var i := 0;
      while i < |overlap|
        invariant 0 <= i <= |overlap|
        invariant Valid() && Simulates(ops, inv', LiveCells(), k)
        invariant GrownAround(before, cells, strong.value)
        invariant forall other :: !Numeric(other) ==> LiveOf(other) == LiveIn(before, other)
        invariant i == 0 ==> inv' == inv && cells == before
        invariant Precise(ops) && size > 0 ==>
          SplitSoFar(ops, inv, inv', kind, LiveIn(before, Svalues), LiveOf(Svalues), overlap, i, strong.value, numBytes)
        invariant Precise(ops) ==> NumbersStay(ops, inv, inv', None)
      {
        ghost var d, mid := inv', cells;
        inv' := SplitAround(inv', kind, overlap[i], strong.value, k);
        GrownAgainAround(before, mid, cells, strong.value);
        if Precise(ops) {
          StayThen(ops, inv, d, inv', None);
        }
        if Precise(ops) && size > 0 {
          OneMoreSplit(ops, inv, d, inv', kind, LiveIn(before, Svalues), LiveIn(mid, Svalues), LiveOf(Svalues), overlap, i, strong.value, numBytes);
        }
        i := i + 1;
      }
      if overlap != [] {
        assert overlap[0] in overlap;
      }
      if Precise(ops) && size > 0 {
        AllSplit(ops, inv, inv', kind, LiveIn(before, kind), LiveIn(before, Svalues), LiveOf(Svalues), overlap, strong.value, numBytes);
      }
    }

    lemma OverlapFacts(overlap: seq<Cell>, t: Cell)
      requires Distinct(overlap) && forall c :: c in overlap ==> Overlaps(c, t.offset, t.size)
      ensures AllOverlap(overlap, t)
    {
      hide Overlaps;
      forall i | 0 <= i < |overlap| ensures Overlaps(overlap[i], t.offset, t.size) {
        assert overlap[i] in overlap;
      }
    }

    /** Splits one cell around the bytes of `t`, if it is eight bytes of a known number. */
    method SplitAround(inv: N, kind: DataKind, c: Cell, t: Cell, ghost k: Machine) returns (inv': N)
      requires Valid() && Numeric(kind) && Simulates(ops, inv, LiveCells(), k) && k.bigEndian == bigEndian
      requires InBounds(c) && Overlaps(c, t.offset, t.size)
      modifies this`cells
      ensures Valid() && Simulates(ops, inv', LiveCells(), k)
      ensures GrownAround(old(cells), cells, t)
      ensures forall other :: !Numeric(other) ==> LiveOf(other) == old(LiveOf(other))
      ensures Precise(ops) ==> SplitDone(ops, inv, inv', kind, old(LiveOf(Svalues)), LiveOf(Svalues), c, t, numBytes)
      ensures Precise(ops) ==> NumbersStay(ops, inv, inv', None)
    {
      hide SoundNum, LiveIn, Live, Simulates, Overlaps, GrownAround, GrownBy, Precise, SplitDone, Rebuildable, KnownKept, PartsKnown, NumbersStay;
      inv' := inv;
      StayNothing(ops, inv, None);
      ghost var before := cells;
      GrownNone(cells, t);
      OverlapBounds(c, t.offset, t.size);
      var cellStart, cellEnd := c.offset, c.offset + c.size - 1;
      var allNum := Bitset.AllNum(numBytes, cellStart, cellEnd + 1);
      if !allNum || cellEnd + 1 < cellStart + 8 || Singleton(ops.eval(inv, Scalar(kind, c))).None? {
        NotSplit(ops, inv, kind, LiveOf(Svalues), c, t, numBytes);
        return;
      }
      ghost var first, last := Cell(c.offset, if c.offset < t.offset then t.offset - c.offset else 0), Cell(t.offset + t.size, if t.offset + t.size < c.offset + c.size then c.offset + c.size - (t.offset + t.size) else 0);
      if cellStart < t.offset {
        inv' := SplitCell(inv', kind, cellStart, t.offset - cellStart, k);
        GrownAgain(before, before, cells, t, first);
        GrownOf(before, cells, {first}, Svalues);
      }
      ghost var d, mid := inv', cells;
      if t.offset + t.size < cellEnd + 1 {
        inv' := SplitCell(inv', kind, t.offset + t.size, cellEnd + 1 - (t.offset + t.size), k);
        GrownAgain(before, mid, cells, t, last);
        GrownOf(mid, cells, {last}, Svalues);
      }
      if Precise(ops) {
        BothSplit(ops, inv, d, inv', kind, LiveIn(before, Svalues), LiveIn(mid, Svalues), LiveOf(Svalues), c, t, numBytes);
        StayNothing(ops, d, None);
        StayThen(ops, inv, d, inv', None);
      }
    }

    lemma OverlapBounds(c: Cell, offset: nat, size: nat)
      requires Overlaps(c, offset, size) && InBounds(c)
      ensures offset < c.offset + c.size && (c.offset < offset ==> offset - c.offset < 8)
      ensures offset + size < c.offset + c.size ==> 1 <= c.offset + c.size - (offset + size) <= 8
    {
    }

    lemma CellsAreSmall(kind: DataKind)
      requires Valid() && kind != Types
      ensures forall c :: c in LiveOf(kind) ==> 0 < c.size <= 8
    {
      hide LiveIn;
      forall c | c in LiveOf(kind) ensures 0 < c.size <= 8 {
        assert InBounds(c);
      }
    }

    lemma NumbersHaveBytes(kind: DataKind)
      requires Valid() && Numeric(kind)
      ensures forall c :: c in LiveOf(kind) ==> c.size > 0
    {
      hide LiveIn;
      forall c | c in LiveOf(kind) ensures c.size > 0 {
        assert InBounds(c);
      }
    }

    lemma StruckMeets(live: set<Cell>, t: Cell)
      requires t.size > 0 && forall c :: c in live ==> c.size > 0
      ensures forall c :: c in Struck(live, t) ==> Meets(c, t.offset, t.size)
    {
      forall c | c in Struck(live, t) ensures Meets(c, t.offset, t.size) {
        OverlapsIsMeets(c, t.offset, t.size);
      }
    }

    /** Splits numbers, then kills. */
    method SplitAndFindVar(inv: N, kind: DataKind, idx: Interval, elemSize: Interval, ghost k: Machine)
      returns (inv': N, res: Option<Cell>, ghost k': Machine)
      requires Valid() && Simulates(ops, inv, LiveCells(), k) && k.bigEndian == bigEndian
      modifies this`cells
      ensures Valid() && Simulates(ops, inv', LiveCells(), k') && res == Strong(idx, elemSize)
      ensures Numeric(kind) ==> k' == k
      ensures k' == Dropped(k, kind, old(LiveOf(kind)) - LiveOf(kind)) && (old(Backed(k)) ==> Backed(k'))
      ensures Clear(LiveOf(kind), idx, elemSize) && (LiveOf(kind) <= old(LiveOf(kind)) || Numeric(kind))
      ensures Strong(idx, elemSize).None? ==>
        forall c :: c in LiveOf(kind) <==> c in old(LiveOf(kind)) && !NearRange(old(LiveOf(kind)), c, TouchedRange(idx, elemSize))
      ensures res.None? || !Numeric(kind) ==> forall other :: other != kind ==> LiveOf(other) == old(LiveOf(other))
      ensures res.Some? ==> forall other :: other != kind ==>
        old(LiveOf(other)) <= LiveOf(other) && NewAround(old(LiveOf(other)), LiveOf(other), res.value)
      ensures res.Some? && !Numeric(kind) ==> LiveOf(kind) == old(LiveOf(kind)) - Struck(old(LiveOf(kind)), res.value)
      ensures forall other :: !Numeric(other) && other != kind ==> LiveOf(other) == old(LiveOf(other))
      ensures res.Some? && NoneOverlap(old(LiveOf(kind)), res.value) && res.value !in old(LiveOf(kind)) ==>
        inv' == inv && LiveOf(kind) == old(LiveOf(kind))
        && forall other :: other != kind ==> LiveOf(other) == old(LiveOf(other))
      ensures Precise(ops) && Numeric(kind) && res.Some? && res.value.size > 0 ==>
        NumbersSurvive(ops, inv, inv', kind, old(LiveOf(kind)), old(LiveOf(Svalues)), res.value, numBytes)
      ensures Precise(ops) && kind != Types && (Strong(idx, elemSize).Some? ==> Strong(idx, elemSize).value.size > 0) ==>
        FarKept(ops, inv, inv', TouchedRange(idx, elemSize))
      ensures Precise(ops) && (res.None? || !Numeric(kind)) ==> KeptBut(ops, inv, inv', kind, old(LiveOf(kind)) - LiveOf(kind))
      ensures Precise(ops) && (!Numeric(kind) || (res.Some? && res.value.size > 0)) ==> NumbersStay(ops, inv, inv', if Numeric(kind) then res else None)
    {
      hide SoundNum, LiveIn, Live, Simulates, Overlaps, NewAround, Clear, Strong, NearRange, TouchedRange, Precise, KeptBut, SplitKeeps, NumbersSurvive, KnownNumber, FarKept, NumbersStay;
      inv' := inv;
      NothingNew();
      if Numeric(kind) {
        inv' := SplitNumberVar(inv, kind, idx, elemSize, k);
        NumbersHaveBytes(kind);
      }
      ghost var split, mid := inv', LiveOf(kind);
      if kind != Types {
        CellsAreSmall(kind);
      }
      inv', res, k' := KillAndFindVar(inv', kind, idx, elemSize, k);
      if Precise(ops) && Numeric(kind) && res.Some? && res.value.size > 0 {
        StruckMeets(mid, res.value);
        SplitSurvives(ops, inv, split, inv', kind, old(LiveOf(kind)), old(LiveOf(Svalues)), mid - LiveOf(kind), res.value, numBytes);
        KillStays(ops, split, inv', kind, mid - LiveOf(kind), res.value);
        StayBeside(ops, inv, split, res.value);
        StayThen(ops, inv, split, inv', res);
      }
      if Precise(ops) && !Numeric(kind) {
        KillStays(ops, split, inv', kind, mid - LiveOf(kind), Cell(0, 0));
      }
      if Precise(ops) && kind != Types && (res.Some? ==> res.value.size > 0) {
        FarNothing(ops, inv, TouchedRange(idx, elemSize));
        if res.Some? {
          StrongInRange(idx, elemSize);
          if Numeric(kind) {
            SplitFar(ops, inv, split, kind, old(LiveOf(kind)), old(LiveOf(Svalues)), res.value, numBytes, TouchedRange(idx, elemSize));
          }
        }
        GoneIsNear(mid, LiveOf(kind), idx, elemSize);
        KillFar(ops, split, inv', kind, mid - LiveOf(kind), TouchedRange(idx, elemSize));
        FarThen(ops, inv, split, inv', TouchedRange(idx, elemSize));
      }
    }

    /** Makes room for a value and returns the scalar to give it to, if the place is known. */
    method Store(inv: N, kind: DataKind, idx: Interval, elemSize: Interval, ghost k: Machine)
      returns (inv': N, v: Option<NumVar>, ghost k': Machine)
      requires Valid() && Simulates(ops, inv, LiveCells(), k) && k.bigEndian == bigEndian
      requires Strong(idx, elemSize).Some? ==> InBounds(Strong(idx, elemSize).value)
      modifies this`cells
      ensures Valid() && Simulates(ops, inv', LiveCells(), k')
      ensures Numeric(kind) ==> k' == k
      ensures old(Backed(k)) ==> Backed(k')
      ensures Strong(idx, elemSize).None? ==> k' == Dropped(k, kind, old(LiveOf(kind)) - LiveOf(kind))
      ensures !Numeric(kind) && Strong(idx, elemSize).Some? ==> var t := Strong(idx, elemSize).value;
        k' == Dropped(k, kind, Struck(old(LiveOf(kind)), t)) && LiveOf(kind) == old(LiveOf(kind)) - Struck(old(LiveOf(kind)), t) + {t}
      ensures forall other :: !Numeric(other) && other != kind ==> LiveOf(other) == old(LiveOf(other))
      ensures v == match Strong(idx, elemSize) case Some(c) => Some(Scalar(kind, c)) case None => None
      ensures Strong(idx, elemSize).None? ==> Clear(LiveOf(kind), idx, elemSize)
      ensures Strong(idx, elemSize).None? ==>
        forall c :: c in LiveOf(kind) <==> c in old(LiveOf(kind)) && !NearRange(old(LiveOf(kind)), c, TouchedRange(idx, elemSize))
      ensures Strong(idx, elemSize).None? || !Numeric(kind) ==> forall other :: other != kind ==> LiveOf(other) == old(LiveOf(other))
      ensures Strong(idx, elemSize).Some? ==> Strong(idx, elemSize).value in LiveOf(kind)
      ensures Strong(idx, elemSize).Some? ==> forall other :: other != kind ==> old(LiveOf(other)) <= LiveOf(other)
      ensures Precise(ops) && kind != Types && (Strong(idx, elemSize).Some? ==> Strong(idx, elemSize).value.size > 0) ==>
        FarKept(ops, inv, inv', TouchedRange(idx, elemSize))
      ensures Precise(ops) && Numeric(kind) && Strong(idx, elemSize).Some? && Strong(idx, elemSize).value.size > 0 ==>
        NumbersSurvive(ops, inv, inv', kind, old(LiveOf(kind)), old(LiveOf(Svalues)), Strong(idx, elemSize).value, numBytes)
      ensures Precise(ops) && (!Numeric(kind) || (Strong(idx, elemSize).Some? && Strong(idx, elemSize).value.size > 0)) ==>
        NumbersStay(ops, inv, inv', if Numeric(kind) then Strong(idx, elemSize) else None)
      ensures Strong(idx, elemSize).Some? && Vacant(old(LiveOf(kind)), Strong(idx, elemSize).value) ==>
        inv' == inv && k' == k && forall other :: other != kind ==> LiveOf(other) == old(LiveOf(other))
    {
      hide SoundNum, LiveIn, Live, Simulates, Overlaps, NewAround, Clear, Strong, NearRange, TouchedRange, Precise, NumbersSurvive, FarKept, NumbersStay;
      var res;
      inv', res, k' := SplitAndFindVar(inv, kind, idx, elemSize, k);
      if res.None? {
        return inv', None, k';
      }
      ghost var live := LiveCells();
      ghost var gone := old(LiveOf(kind)) - LiveOf(kind);
      if !Numeric(kind) {
        assert gone == Struck(old(LiveOf(kind)), res.value);
      }
      if Vacant(old(LiveOf(kind)), res.value) {
        assert gone == {};
        DroppedNone(k, kind);
      }
      MkCell(kind, res.value.offset, res.value.size);
      SimGrow(ops, inv', live, LiveCells(), k');
      v := Some(Scalar(kind, res.value));
    }

    /** Forgets whatever the access may touch. */
    method Havoc(inv: N, kind: DataKind, idx: Interval, elemSize: Interval, ghost k: Machine) returns (inv': N, ghost k': Machine)
      requires Valid() && Simulates(ops, inv, LiveCells(), k) && k.bigEndian == bigEndian
      modifies this`cells
      ensures Valid() && Simulates(ops, inv', LiveCells(), k') && Clear(LiveOf(kind), idx, elemSize)
      ensures Numeric(kind) ==> k' == k
      ensures k' == Dropped(k, kind, old(LiveOf(kind)) - LiveOf(kind)) && (old(Backed(k)) ==> Backed(k'))
      ensures forall other :: !Numeric(other) && other != kind ==> LiveOf(other) == old(LiveOf(other))
      ensures Strong(idx, elemSize).Some? && !Numeric(kind) ==>
        LiveOf(kind) == old(LiveOf(kind)) - Struck(old(LiveOf(kind)), Strong(idx, elemSize).value)
      ensures Strong(idx, elemSize).None? ==>
        forall c :: c in LiveOf(kind) <==> c in old(LiveOf(kind)) && !NearRange(old(LiveOf(kind)), c, TouchedRange(idx, elemSize))
      ensures Precise(ops) && kind != Types && (Strong(idx, elemSize).Some? ==> Strong(idx, elemSize).value.size > 0) ==>
        FarKept(ops, inv, inv', TouchedRange(idx, elemSize))
      ensures Precise(ops) && Numeric(kind) && Strong(idx, elemSize).Some? && Strong(idx, elemSize).value.size > 0 ==>
        NumbersSurvive(ops, inv, inv', kind, old(LiveOf(kind)), old(LiveOf(Svalues)), Strong(idx, elemSize).value, numBytes)
      ensures Precise(ops) && (!Numeric(kind) || (Strong(idx, elemSize).Some? && Strong(idx, elemSize).value.size > 0)) ==>
        NumbersStay(ops, inv, inv', if Numeric(kind) then Strong(idx, elemSize) else None)
      ensures LiveOf(kind) <= old(LiveOf(kind)) || Numeric(kind)
      ensures Strong(idx, elemSize).None? || !Numeric(kind) ==> forall other :: other != kind ==> LiveOf(other) == old(LiveOf(other))
      ensures Strong(idx, elemSize).Some? ==> forall other :: other != kind ==>
        old(LiveOf(other)) <= LiveOf(other) && NewAround(old(LiveOf(other)), LiveOf(other), Strong(idx, elemSize).value)
    {
      hide SoundNum, LiveIn, Live, Simulates, Overlaps, NewAround, Clear, Strong, NearRange, TouchedRange, Precise, NumbersSurvive, FarKept, NumbersStay;
      var res;
      inv', res, k' := SplitAndFindVar(inv, kind, idx, elemSize, k);
    }

    /** Forgets both numeric views, as every caller does: then memory may change there. */
    method HavocNumbers(inv: N, idx: Interval, elemSize: Interval, ghost k: Machine) returns (inv': N)
      requires Valid() && Simulates(ops, inv, LiveCells(), k) && k.bigEndian == bigEndian
      modifies this`cells
      ensures Valid() && Simulates(ops, inv', LiveCells(), k) && Clear(LiveCells(), idx, elemSize)
      ensures forall other :: !Numeric(other) ==> LiveOf(other) == old(LiveOf(other))
      ensures Precise(ops) && (Strong(idx, elemSize).Some? ==> Strong(idx, elemSize).value.size > 0) ==>
        FarKept(ops, inv, inv', TouchedRange(idx, elemSize))
      ensures Precise(ops) && Strong(idx, elemSize).Some? && Strong(idx, elemSize).value.size > 0 ==>
        NumbersStay(ops, inv, inv', Strong(idx, elemSize))
        && NumbersSurvive(ops, inv, inv', Svalues, old(LiveOf(Svalues)), old(LiveOf(Svalues)), Strong(idx, elemSize).value, numBytes)
    {
      hide SoundNum, LiveIn, Live, Simulates, NewAround, Clear, Strong, NearRange, TouchedRange, Precise, NumbersSurvive, FarKept, NumbersStay;
      ghost var k';
      inv', k' := Havoc(inv, Svalues, idx, elemSize, k);
      ghost var signed, mid := LiveOf(Svalues), inv';
      inv', k' := Havoc(inv', Uvalues, idx, elemSize, k);
      if Precise(ops) && (Strong(idx, elemSize).Some? ==> Strong(idx, elemSize).value.size > 0) {
        FarThen(ops, inv, mid, inv', TouchedRange(idx, elemSize));
        if Strong(idx, elemSize).Some? {
          StayThen(ops, inv, mid, inv', Strong(idx, elemSize));
          SurviveStay(ops, inv, mid, inv', Svalues, old(LiveOf(Svalues)), old(LiveOf(Svalues)), Strong(idx, elemSize).value, numBytes);
        }
      }
      if Strong(idx, elemSize).Some? {
        ClearGrown(signed, LiveOf(Svalues), idx, elemSize);
      }
      ClearUnion(LiveOf(Svalues), LiveOf(Uvalues), idx, elemSize);
    }

    // ---------------------------------------------------------------- which bytes are numbers

    /** The bytes a weak access may touch, cut to the stack. */
    function AsNumBytesRange(idx: Interval, width: Interval): (r: (int, int))
      ensures forall i, w :: Contains(idx, i) && Contains(width, w) ==> r.0 <= i || (r.0 == 0 && i < 0)
      ensures forall i, w :: Contains(idx, i) && Contains(width, w) ==> i + w <= r.1 || totalStackSize <= r.1
      ensures 0 <= r.0 && r.1 <= totalStackSize
      ensures Proper(idx, width) ==> forall n :: r.0 <= n < r.1 <==> 0 <= n < totalStackSize && Touched(idx, width, n)
    {
      assert Proper(idx, width) ==> forall n :: Touched(idx, width, n) <==>
        (idx.lb.Some? ==> idx.lb.value <= n) && (idx.ub.Some? && width.ub.Some? ==> n < idx.ub.value + width.ub.value) by
      {
        forall n | Proper(idx, width) ensures Touched(idx, width, n) <==>
          (idx.lb.Some? ==> idx.lb.value <= n) && (idx.ub.Some? && width.ub.Some? ==> n < idx.ub.value + width.ub.value)
        {
          TouchedIsHull(idx, width, n);
        }
      }
      hide Touched;
      var j := Intervals.Join(idx, Add(idx, width));
      (if j.lb.Some? && j.lb.value > 0 then j.lb.value else 0,
       if j.ub.Some? && j.ub.value < totalStackSize then j.ub.value else totalStackSize)
    }

    /** Forgets types; the bytes are marked only when the place is known. */
    method HavocType(idx: Interval, elemSize: Interval)
      requires Valid()
      modifies this
      ensures Valid() && LiveCells() == old(LiveCells())
      ensures TypeHavocked(old(numBytes), numBytes, idx, elemSize)
      ensures forall other :: other != Types ==> LiveOf(other) == old(LiveOf(other))
      ensures Clear(LiveOf(Types), idx, elemSize)
      ensures Strong(idx, elemSize).None? ==> numBytes == old(numBytes)
      ensures Strong(idx, elemSize).Some? ==> forall tags, t :: Bitset.TagsHold(old(numBytes), tags) ==>
        Bitset.TagsHold(numBytes, Bitset.Tagged(tags, Strong(idx, elemSize).value.offset, Strong(idx, elemSize).value.size, t))
    {
      hide SoundNum, LiveIn, Live, Overlaps, Clear, Strong, Touched, Contains;
      StrongTouches(idx, elemSize);
      var res, removed := FindAndRemoveOverlap(Types, idx, elemSize);
      if res.Some? {
        numBytes := Bitset.Havoc(numBytes, res.value.offset, res.value.size);
      }
    }

    /** Records whether what is written are numbers, wherever the access lands. */
    method StoreType(idx: Interval, width: Interval, isNum: bool)
      requires Valid()
      modifies this
      ensures Valid() && LiveCells() == old(LiveCells())
      ensures forall tags, i, w :: Contains(idx, i) && Contains(width, w) && Bitset.TagsHold(old(numBytes), tags) ==>
        Bitset.TagsHold(numBytes, Bitset.Tagged(tags, i, w, isNum))
      ensures Clear(LiveOf(Types), idx, width) || Strong(idx, width).Some?
      ensures forall other :: other != Types ==> LiveOf(other) == old(LiveOf(other))
      ensures isNum || Proper(idx, width) ==> TypeStored(old(numBytes), numBytes, idx, width, isNum)
    {
      hide SoundNum, LiveIn, Live, Overlaps, Clear, Add, Intervals.Join, Strong, Contains, Bitset.TagsHold, Bitset.Tagged, Bitset.Havoc, Bitset.Reset, Touched, Proper;
      StrongTouches(idx, width);
      ghost var before := numBytes;
      var res, removed := FindAndRemoveOverlap(Types, idx, width);
      if res.Some? {
        var offset, size := res.value.offset, res.value.size;
        StrongOnly(idx, width);
        if isNum {
          numBytes := Bitset.Reset(numBytes, offset, size);
        } else {
          numBytes := Bitset.Havoc(numBytes, offset, size);
        }
        MkCell(Types, offset, size);
      } else if !isNum {
        var (lb, ub) := AsNumBytesRange(idx, width);
        if lb < ub {
          forall tags, i, w | Contains(idx, i) && Contains(width, w) && Bitset.TagsHold(before, tags)
            ensures Bitset.TagsHold(Bitset.Havoc(before, lb, ub - lb), Bitset.Tagged(tags, i, w, false))
          {
            Bitset.HavocCovers(before, lb, ub - lb, tags, i, w, false);
          }
          numBytes := Bitset.Havoc(numBytes, lb, ub - lb);
        } else {
          forall tags, i, w | Contains(idx, i) && Contains(width, w) && Bitset.TagsHold(before, tags)
            ensures Bitset.TagsHold(before, Bitset.Tagged(tags, i, w, false))
          {
            Bitset.OutsideStack(before, tags, i, w, false);
          }
        }
      } else {
        forall tags, i, w | Contains(idx, i) && Contains(width, w) && Bitset.TagsHold(before, tags)
          ensures Bitset.TagsHold(before, Bitset.Tagged(tags, i, w, true))
        {
          Bitset.NumbersAnywhere(before, tags, i, w);
        }
      }
    }

    /** The bytes of [i, i + w) that are in the stack are known to be numbers. */
    ghost predicate NumbersWithin(i: int, w: int)
      requires Valid()
      reads this
    {
      forall n :: i <= n < i + w && 0 <= n < totalStackSize ==> !numBytes[n]
    }

    /** Whether every byte an access may touch is a number; an access that touches no stack byte is not. */
    method AllNumWidth(index: Interval, width: Interval) returns (r: bool)
      requires Valid()
      ensures r ==> forall i, w :: Contains(index, i) && Contains(width, w) ==> NumbersWithin(i, w)
      ensures Proper(index, width) ==> (r <==>
        (exists n :: 0 <= n < totalStackSize && Touched(index, width, n))
        && forall n :: 0 <= n < totalStackSize && Touched(index, width, n) ==> !numBytes[n])
    {
      hide SoundNum, Add, Intervals.Join, Contains, Touched, Proper;
      var (minLb, maxUb) := AsNumBytesRange(index, width);
      if minLb >= maxUb {
        return false;
      }
      assert Proper(index, width) ==> Touched(index, width, minLb);
      r := Bitset.AllNum(numBytes, minLb, maxUb);
    }

    ghost predicate IsNumber(n: int)
      requires Valid()
      reads this
    {
      0 <= n < totalStackSize && !numBytes[n]
    }

    /** The `size` bytes from `o` on are in the stack and known to be numbers. */
    ghost predicate NumbersFrom(o: int, size: nat)
      requires Valid()
      reads this
    {
      forall n :: o <= n < o + size ==> IsNumber(n)
    }

    /** How many bytes are numbers from the offset on, whichever value of the interval the offset has. */
    method MinAllNumSize(offset: Interval) returns (size: nat)
      requires Valid()
      ensures forall o :: Contains(offset, o) ==> NumbersFrom(o, size)
      ensures !IsBottom(offset) ==> exists o :: Contains(offset, o) && !NumbersFrom(o, size + 1)
    {
      hide SoundNum, ValidMap, Live;
      if offset.lb.None? || offset.ub.None? || offset.lb.value < 0 {
        if !IsBottom(offset) {
          NoNumbersOutside(offset);
        }
        return 0;
      }
      var lb := offset.lb.value;
      var w := Bitset.AllNumWidth(numBytes, lb);
      var slack := offset.ub.value - offset.lb.value;
      size := if w - slack > 0 then w - slack else 0;
      forall o | Contains(offset, o) ensures NumbersFrom(o, size) {
        assert lb <= o && (size == 0 || o + size <= lb + w);
      }
      if !IsBottom(offset) {
        // the byte that ends the longest stretch
        ghost var end := lb + w;
        ghost var o := if end <= offset.ub.value then end else offset.ub.value;
        assert !IsNumber(end);
        assert Contains(offset, o) && o <= end < o + (size + 1);
      }
    }

    /** An interval that reaches out of the stack on one side holds an offset outside. */
    lemma NoNumbersOutside(offset: Interval)
      requires Valid() && !IsBottom(offset)
      requires offset.lb.None? || offset.ub.None? || offset.lb.value < 0
      ensures exists o :: Contains(offset, o) && !NumbersFrom(o, 1)
    {
      hide SoundNum, ValidMap, Live;
      var o := if offset.lb.None? then (if offset.ub.Some? && offset.ub.value < -1 then offset.ub.value else -1)
        else if offset.lb.value < 0 then offset.lb.value
        else if offset.lb.value > totalStackSize then offset.lb.value else totalStackSize;
      assert Contains(offset, o) && !IsNumber(o);
    }

    /** Union of the cells, and of the bytes not known to be numbers. */
    method JoinAssign(other: ArrayDomain<N>)
      requires Valid() && other.Valid() && other.totalStackSize == totalStackSize && other != this
      modifies this
      ensures Valid()
      ensures forall kind :: LiveOf(kind) == old(LiveOf(kind)) + old(other.LiveOf(kind))
      ensures forall tags :: Bitset.TagsHold(old(numBytes), tags) || Bitset.TagsHold(old(other.numBytes), tags) ==>
        Bitset.TagsHold(numBytes, tags)
      ensures forall n :: 0 <= n < totalStackSize ==> (numBytes[n] <==> old(numBytes)[n] || old(other.numBytes)[n])
    {
      hide SoundNum, Live, ValidMap;
      numBytes := Bitset.Join(numBytes, other.numBytes);
      ghost var mine := cells;
      var kinds := other.cells.Keys;
      while kinds != {}
        invariant kinds <= other.cells.Keys && other.cells == old(other.cells)
        invariant |numBytes| == totalStackSize
        invariant forall kind :: kind in cells ==> ValidMap(cells[kind]) && cells[kind].totalStackSize == totalStackSize
        invariant forall kind :: kind in kinds ==> LiveIn(cells, kind) == LiveIn(mine, kind)
        invariant forall kind :: kind !in kinds ==> LiveIn(cells, kind) == LiveIn(mine, kind) + LiveIn(other.cells, kind)
        invariant numBytes == Bitset.Join(old(numBytes), old(other.numBytes))
      {
        var kind :| kind in kinds;
        kinds := kinds - {kind};
        var dst := if kind in cells then cells[kind] else OffsetMap(totalStackSize, map[]);
        EmptyMap(totalStackSize);
        var merged := MergeFrom(dst, other.cells[kind]);
        cells := cells[kind := merged];
      }
      forall kind, c | kind != Types && c in LiveIn(cells, kind) ensures InBounds(c) {
        assert c in LiveIn(mine, kind) || c in LiveIn(other.cells, kind);
        assert c in LiveIn(other.cells, kind) ==> other.InBounds(c);
      }
    }
  }

  lemma EmptyMap(total: nat)
    ensures ValidMap(OffsetMap(total, map[])) && Live(OffsetMap(total, map[])) == {}
  {
  }

  /** A strong access is the only one its intervals allow. */
  lemma StrongOnly(idx: Interval, width: Interval)
    requires Strong(idx, width).Some?
    ensures forall i :: Contains(idx, i) ==> i == Strong(idx, width).value.offset
    ensures forall w :: Contains(width, w) ==> w == Strong(idx, width).value.size
  {
  }

  lemma StrongInRange(idx: Interval, width: Interval)
    requires Strong(idx, width).Some? && Strong(idx, width).value.size > 0
    ensures var t := Strong(idx, width).value; forall n :: t.offset <= n < t.offset + t.size ==> Contains(TouchedRange(idx, width), n)
  {
    hide TouchedRange;
    var t := Strong(idx, width).value;
    forall n | t.offset <= n < t.offset + t.size ensures Contains(TouchedRange(idx, width), n) {
      TouchedHolds(idx, width, t.offset, t.size, n);
    }
  }

  /** The cells an access removes lie near it. */
  lemma GoneIsNear(before: set<Cell>, after: set<Cell>, idx: Interval, width: Interval)
    requires forall c :: c in before ==> 0 < c.size <= 8
    requires Strong(idx, width).Some? ==> Strong(idx, width).value.size > 0 && after == before - Struck(before, Strong(idx, width).value)
    requires Strong(idx, width).None? ==> forall c :: c in after <==> c in before && !NearRange(before, c, TouchedRange(idx, width))
    ensures forall c :: c in before - after ==> !FarFrom(c, TouchedRange(idx, width))
  {
    hide TouchedRange, Contains, FarFrom, Overlaps;
    if Strong(idx, width).Some? {
      StrongInRange(idx, width);
    }
    forall c | c in before - after ensures !FarFrom(c, TouchedRange(idx, width)) {
      if Strong(idx, width).Some? {
        var t := Strong(idx, width).value;
        OverlapsIsMeets(c, t.offset, t.size);
        MeetingIsNear(c, t, TouchedRange(idx, width));
      } else {
        var d :| d in before && d.offset == c.offset && HasByteIn(d, TouchedRange(idx, width));
        ByteIsNear(c, d, TouchedRange(idx, width));
      }
    }
  }

  /** A free place: no cell of the kind overlaps it, and it is no cell itself. */
  ghost predicate Vacant(cells: set<Cell>, t: Cell) {
    NoneOverlap(cells, t) && t !in cells
  }

  lemma ClearGrown(before: set<Cell>, after: set<Cell>, ii: Interval, elemSize: Interval)
    requires Strong(ii, elemSize).Some? && Clear(before, ii, elemSize) && NewAround(before, after, Strong(ii, elemSize).value)
    ensures Clear(after, ii, elemSize)
  {
    var t := Strong(ii, elemSize).value;
    forall c, i, w | c in after && c.size > 0 && Contains(ii, i) && Contains(elemSize, w) && w > 0 ensures !Meets(c, i, w) {
      assert i == t.offset && w == t.size;
    }
  }

  // ------------------------------------------------------------------ the bytes an access may touch

  /** Some access that the index and the width allow has the byte `n`. */
  ghost predicate Touched(idx: Interval, width: Interval, n: int) {
    exists i, w :: Contains(idx, i) && Contains(width, w) && i <= n < i + w
  }

  /** A non-empty interval of offsets, and one of byte counts that are not all zero. */
  ghost predicate Proper(idx: Interval, width: Interval) {
    && !IsBottom(idx) && !IsBottom(width)
    && width.lb.Some? && width.lb.value >= 0
    && (width.ub.Some? ==> width.ub.value >= 1)
  }

  lemma TouchedIsHull(idx: Interval, width: Interval, n: int)
    requires Proper(idx, width)
    ensures Touched(idx, width, n) <==>
      (idx.lb.Some? ==> idx.lb.value <= n) && (idx.ub.Some? && width.ub.Some? ==> n < idx.ub.value + width.ub.value)
  {
    if (idx.lb.Some? ==> idx.lb.value <= n) && (idx.ub.Some? && width.ub.Some? ==> n < idx.ub.value + width.ub.value) {
      var i := if idx.ub.Some? && idx.ub.value < n then idx.ub.value else n;
      var w := if width.ub.Some? then width.ub.value
        else if width.lb.value > n - i + 1 then width.lb.value else n - i + 1;
      assert Contains(idx, i) && Contains(width, w) && i <= n < i + w;
    }
  }

  /** The range the scan is given is exactly the bytes the access may touch, when it has at least one byte. */
  lemma TouchedRangeIsExact(idx: Interval, width: Interval, n: int)
    requires Proper(idx, width) && width.lb.value >= 1
    ensures Contains(TouchedRange(idx, width), n) <==> Touched(idx, width, n)
  {
    hide Touched;
    TouchedIsHull(idx, width, n);
  }

  lemma StrongTouches(idx: Interval, width: Interval)
    ensures Strong(idx, width).Some? ==> var c := Strong(idx, width).value;
      forall n :: Touched(idx, width, n) <==> c.offset <= n < c.offset + c.size
  {
    if Strong(idx, width).Some? {
      var c := Strong(idx, width).value;
      assert Contains(idx, c.offset) && Contains(width, c.size);
    }
  }

  /** What `havoc_type` makes of the bits: the bytes of a strong access are marked, a weak one changes nothing. */
  ghost predicate TypeHavocked(bits: seq<bool>, bits': seq<bool>, idx: Interval, width: Interval) {
    && |bits'| == |bits|
    && forall n :: 0 <= n < |bits| ==> (bits'[n] <==> bits[n] || (Strong(idx, width).Some? && Touched(idx, width, n)))
  }

  /** What `store_type` makes of the bits: a number unmarks the bytes of a strong access only, anything else marks every byte it may touch. */
  ghost predicate TypeStored(bits: seq<bool>, bits': seq<bool>, idx: Interval, width: Interval, isNum: bool) {
    && |bits'| == |bits|
    && forall n :: 0 <= n < |bits| ==>
      (bits'[n] <==> if isNum then bits[n] && !(Strong(idx, width).Some? && Touched(idx, width, n)) else bits[n] || Touched(idx, width, n))
  }

  /** Forgetting the type first and recording it afterwards comes to recording it. */
  lemma HavockedThenStored(bits: seq<bool>, mid: seq<bool>, bits': seq<bool>, idx: Interval, width: Interval, isNum: bool)
    requires TypeHavocked(bits, mid, idx, width) && TypeStored(mid, bits', idx, width, isNum)
    ensures TypeStored(bits, bits', idx, width, isNum)
  {
  }

  /**
    What becomes of the record when something else than numbers is then written at `i`: it is right after a
    strong access, and after a weak one exactly when every byte written was marked before.
  */
  lemma HavockedWrite(bits: seq<bool>, bits': seq<bool>, idx: Interval, width: Interval, tags: Bitset.Tags, i: int, w: int)
    requires TypeHavocked(bits, bits', idx, width) && Bitset.TagsHold(bits, tags) && Contains(idx, i) && Contains(width, w)
    ensures Bitset.TagsHold(bits', Bitset.Tagged(tags, i, w, false)) <==>
      Strong(idx, width).Some? || Bitset.AllMarked(bits, i, w)
  {
    if Strong(idx, width).None? {
      assert bits' == bits;
      Bitset.UnmarkedWrite(bits, tags, i, w);
    } else {
      forall n | 0 <= n < |bits'| && !bits'[n] ensures Bitset.Tagged(tags, i, w, false)(n) {
        assert !Touched(idx, width, n);
      }
    }
  }

  /** One byte known to be a number, an uninitialised byte stored at offset 0 or 1: the record goes on calling byte 0 a number. */
  lemma WeakHavocForgets(bits': seq<bool>)
    requires var unknown, one := Interval(Some(0), Some(1)), Interval(Some(1), Some(1)); TypeHavocked([false, true], bits', unknown, one)
    ensures var tags: Bitset.Tags := _ => true;
      Bitset.TagsHold([false, true], tags) && !Bitset.TagsHold(bits', Bitset.Tagged(tags, 0, 1, false))
  {
    var unknown, one := Interval(Some(0), Some(1)), Interval(Some(1), Some(1));
    assert Contains(unknown, 0) && Contains(one, 1) && ![false, true][0];
    HavockedWrite([false, true], bits', unknown, one, _ => true, 0, 1);
  }

  /** The rebuilt bytes, re-read as two's complement for a signed scalar. */
  lemma RebuiltMeans(value: int, kind: DataKind, c: Cell, live: set<Cell>, k: Machine)
    requires Numeric(kind) && 1 <= c.size <= 8 && value == Read(k.memory, k.bigEndian, c.offset, c.size)
    ensures Means(Constant(if kind == Uvalues then value else SignExtend(value, 64)), kind, c, live, k)
  {
    hide Pow2, SignExtend, Read;
    if c.size < 8 {
      Pow2Monotone(8 * c.size, 63);
      SignedSmall(value, 64);
    }
  }
}
