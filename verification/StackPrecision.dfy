/**
  What splitting numbers is for (src/crab/array_domain.rs:404-470): before part of a known eight-byte number is
  overwritten, the parts that stay get cells of their own, and their bytes stay known.
*/
module StackPrecision {
  import opened Wrappers
  import opened Numbers
  import opened Intervals
  import opened OffsetMaps
  import opened StackSimulation
  import opened StackBytes
  import opened Shifts

  /** The one value the domain knows for a variable. */
  function ValueIn<N>(ops: NumOps<N>, d: N, v: NumVar): Option<int> {
    Singleton(ops.eval(d, v))
  }

  /** The domain keeps constants: updates leave other variables' constants alone, and an assigned constant is known, and wrapped it is known too. */
  ghost predicate Precise<N(!new)>(ops: NumOps<N>) {
    && (forall d, v, x, w :: v != w && ValueIn(ops, d, w).Some? ==> ValueIn(ops, ops.assign(d, v, x), w) == ValueIn(ops, d, w))
    && (forall d, v, w :: v != w && ValueIn(ops, d, w).Some? ==> ValueIn(ops, ops.havoc(d, v), w) == ValueIn(ops, d, w))
    && (forall d, v, n :: ValueIn(ops, ops.assign(d, v, Constant(n)), v) == Some(n))
    && (forall d, v, w :: ValueIn(ops, d, w).Some? ==> ValueIn(ops, ops.assign(d, v, Variable(w)), v) == ValueIn(ops, d, w))
    && (forall d, v, n, s, w :: v != w && ValueIn(ops, d, w).Some? ==> ValueIn(ops, ops.overflowBounds(d, v, n, s), w) == ValueIn(ops, d, w))
    && (forall d, v, n, s :: ValueIn(ops, d, v).Some? ==> ValueIn(ops, ops.overflowBounds(d, v, n, s), v) == Some(Wrap(ValueIn(ops, d, v).value, n, s)))
  }

  /** Every constant is still known but those of the variables in `lost`. */
  ghost predicate KnownKept<N>(ops: NumOps<N>, d: N, d': N, lost: set<NumVar>) {
    forall w :: w !in lost && ValueIn(ops, d, w).Some? ==> ValueIn(ops, d', w) == ValueIn(ops, d, w)
  }

  lemma KeptThen<N>(ops: NumOps<N>, a: N, b: N, c: N, lost: set<NumVar>, more: set<NumVar>)
    requires KnownKept(ops, a, b, lost) && KnownKept(ops, b, c, more)
    ensures KnownKept(ops, a, c, lost + more)
  {
  }

  lemma KeptNothing<N>(ops: NumOps<N>, d: N)
    ensures forall lost :: KnownKept(ops, d, d, lost)
  {
  }

  lemma AssignKeeps<N(!new)>(ops: NumOps<N>, d: N, v: NumVar, x: NumExpr)
    requires Precise(ops)
    ensures KnownKept(ops, d, ops.assign(d, v, x), {v})
    ensures x.Constant? ==> ValueIn(ops, ops.assign(d, v, x), v) == Some(x.n)
    ensures x.Variable? && ValueIn(ops, d, x.v).Some? ==> ValueIn(ops, ops.assign(d, v, x), v) == ValueIn(ops, d, x.v)
  {
  }

  lemma HavocKeeps<N(!new)>(ops: NumOps<N>, d: N, v: NumVar)
    requires Precise(ops)
    ensures KnownKept(ops, d, ops.havoc(d, v), {v})
  {
  }

  /** Both numeric scalars of a cell. */
  ghost function Pair(c: Cell): set<NumVar> {
    {Scalar(Svalues, c), Scalar(Uvalues, c)}
  }

  predicate Usual(size: nat) {
    size == 1 || size == 2 || size == 4 || size == 8
  }

  /** What stays of `c` on either side of `t`. */
  ghost predicate IsPart(part: Cell, c: Cell, t: Cell) {
    || (c.offset < t.offset && part == Cell(c.offset, t.offset - c.offset))
    || (t.offset + t.size < c.offset + c.size && part == Cell(t.offset + t.size, c.offset + c.size - (t.offset + t.size)))
  }

  /** Shorter than eight bytes and right beside `t`. */
  predicate Adjoins(c: Cell, t: Cell) {
    c.size < 8 && (c.offset + c.size == t.offset || c.offset == t.offset + t.size)
  }

  /** Parts of different eight-byte cells are different, and shorter than eight bytes. */
  lemma PartsApart(part: Cell, c: Cell, c': Cell, t: Cell)
    requires c.size == 8 && c'.size == 8 && Overlaps(c, t.offset, t.size) && Overlaps(c', t.offset, t.size) && t.size > 0
    requires IsPart(part, c, t) && IsPart(part, c', t)
    ensures c == c' && part.size < 8
  {
    OverlapsIsMeets(c, t.offset, t.size);
    OverlapsIsMeets(c', t.offset, t.size);
  }

  lemma PartIsInside(part: Cell, c: Cell, t: Cell)
    requires c.size == 8 && Overlaps(c, t.offset, t.size) && IsPart(part, c, t) && t.size > 0
    ensures c.offset <= part.offset && part.offset + part.size <= c.offset + c.size && 0 < part.size < 8
    ensures !Meets(part, t.offset, t.size)
  {
    OverlapsIsMeets(c, t.offset, t.size);
  }

  /** An aligned eight-byte cell whose signed scalar, and whose scalar of the kind at hand, are constants. */
  ghost predicate KnownNumber<N>(ops: NumOps<N>, d: N, kind: DataKind, c: Cell) {
    c.size == 8 && c.offset % 8 == 0 && ValueIn(ops, d, Scalar(Svalues, c)).Some? && ValueIn(ops, d, Scalar(kind, c)).Some?
  }

  /** The parts of `c` of a usual size that had no signed cell before have a known signed scalar. */
  ghost predicate PartsKnown<N>(ops: NumOps<N>, d: N, before: set<Cell>, c: Cell, t: Cell) {
    forall part :: IsPart(part, c, t) && Usual(part.size) && part !in before ==> ValueIn(ops, d, Scalar(Svalues, part)).Some?
  }

  /** Of a known number, every part of a usual size can be rebuilt. */
  lemma PartRebuildable<N>(ops: NumOps<N>, d: N, kind: DataKind, c: Cell, part: Cell, t: Cell)
    requires KnownNumber(ops, d, kind, c) && Overlaps(c, t.offset, t.size) && t.size > 0 && IsPart(part, c, t) && Usual(part.size)
    ensures Rebuildable(ops, d, part.offset, part.size)
  {
    hide Rebuildable;
    PartIsInside(part, c, t);
    PartOfKnownCell(ops, d, c, part.offset, part.size);
  }

  /** The parts of `c`, as cells and as the variables of those cells. */
  ghost function PartsOf(c: Cell, t: Cell): set<Cell> {
    (if c.offset < t.offset then {Cell(c.offset, t.offset - c.offset)} else {})
    + (if t.offset + t.size < c.offset + c.size then {Cell(t.offset + t.size, c.offset + c.size - (t.offset + t.size))} else {})
  }

  ghost predicate PartVar(v: NumVar, c: Cell, t: Cell) {
    v.Scalar? && IsPart(v.cell, c, t)
  }

  ghost predicate KeptButParts<N>(ops: NumOps<N>, d: N, d': N, c: Cell, t: Cell) {
    forall w :: !PartVar(w, c, t) && ValueIn(ops, d, w).Some? ==> ValueIn(ops, d', w) == ValueIn(ops, d, w)
  }

  lemma PartsListed(c: Cell, t: Cell, part: Cell)
    ensures part in PartsOf(c, t) <==> IsPart(part, c, t)
  {
  }

  /** Every byte of the cell is recorded as a number. */
  ghost predicate AllNumbers(bits: seq<bool>, c: Cell) {
    forall i :: c.offset <= i < c.offset + c.size && i < |bits| ==> !bits[i]
  }

  /** One overlapping cell has been seen to. */
  ghost predicate SplitDone<N>(ops: NumOps<N>, d: N, d': N, kind: DataKind, before: set<Cell>, after: set<Cell>, c: Cell, t: Cell, bits: seq<bool>) {
    && (if c.size == 8 then KeptButParts(ops, d, d', c, t) else d' == d)
    && (t.size > 0 && KnownNumber(ops, d, kind, c) && AllNumbers(bits, c) ==> PartsKnown(ops, d', before, c, t))
    && (if c.size == 8 then after <= before + PartsOf(c, t) else after <= before)
  }

  /** The first `i` overlapping cells have been seen to. */
  ghost predicate SplitSoFar<N>(ops: NumOps<N>, d0: N, d: N, kind: DataKind, before: set<Cell>, now: set<Cell>,
      overlap: seq<Cell>, i: nat, t: Cell, bits: seq<bool>)
    requires i <= |overlap|
  {
    && (forall w :: ValueIn(ops, d0, w).Some? && !(w.Scalar? && Adjoins(w.cell, t)) ==> ValueIn(ops, d, w) == ValueIn(ops, d0, w))
    && (forall j :: 0 <= j < i && KnownNumber(ops, d0, kind, overlap[j]) && AllNumbers(bits, overlap[j]) ==> PartsKnown(ops, d, before, overlap[j], t))
    && (forall c :: c in now && c !in before ==> PartOfEarlier(overlap, i, c, t))
  }

  ghost predicate PartOfEarlier(overlap: seq<Cell>, i: nat, c: Cell, t: Cell)
    requires i <= |overlap|
  {
    exists j :: 0 <= j < i && overlap[j].size == 8 && IsPart(c, overlap[j], t)
  }

  lemma SplitStarts<N>(ops: NumOps<N>, d: N, kind: DataKind, now: set<Cell>, overlap: seq<Cell>, t: Cell, bits: seq<bool>)
    ensures SplitSoFar(ops, d, d, kind, now, now, overlap, 0, t, bits)
  {
  }

  ghost predicate AllOverlap(overlap: seq<Cell>, t: Cell) {
    && (forall i :: 0 <= i < |overlap| ==> Overlaps(overlap[i], t.offset, t.size))
    && forall i, j :: 0 <= i < j < |overlap| ==> overlap[i] != overlap[j]
  }

  lemma KeptKnown<N>(ops: NumOps<N>, d0: N, d: N, d': N, kind: DataKind, c: Cell, t: Cell)
    requires if c.size == 8 then KeptButParts(ops, d, d', c, t) else d' == d
    requires Overlaps(c, t.offset, t.size) && t.size > 0
    requires forall w :: ValueIn(ops, d0, w).Some? && !(w.Scalar? && Adjoins(w.cell, t)) ==> ValueIn(ops, d, w) == ValueIn(ops, d0, w)
    ensures forall w :: ValueIn(ops, d0, w).Some? && !(w.Scalar? && Adjoins(w.cell, t)) ==> ValueIn(ops, d', w) == ValueIn(ops, d0, w)
  {
    hide ValueIn;
    forall w | ValueIn(ops, d0, w).Some? && !(w.Scalar? && Adjoins(w.cell, t)) ensures ValueIn(ops, d', w) == ValueIn(ops, d0, w) {
      if c.size == 8 && PartVar(w, c, t) {
        PartIsInside(w.cell, c, t);
      }
    }
  }

  lemma EarlierPartsKept<N>(ops: NumOps<N>, d: N, d': N, before: set<Cell>, c: Cell, e: Cell, t: Cell)
    requires if c.size == 8 then KeptButParts(ops, d, d', c, t) else d' == d
    requires Overlaps(c, t.offset, t.size) && Overlaps(e, t.offset, t.size) && t.size > 0 && e.size == 8 && e != c
    requires PartsKnown(ops, d, before, e, t)
    ensures PartsKnown(ops, d', before, e, t)
  {
    hide ValueIn, Overlaps;
    forall part | IsPart(part, e, t) && Usual(part.size) && part !in before ensures ValueIn(ops, d', Scalar(Svalues, part)).Some? {
      if c.size == 8 && IsPart(part, c, t) {
        PartsApart(part, c, e, t);
      }
      assert !PartVar(Scalar(Svalues, part), c, t) || c.size != 8;
    }
  }

  lemma OneMoreSplit<N>(ops: NumOps<N>, d0: N, d: N, d': N, kind: DataKind, before: set<Cell>, now: set<Cell>, now': set<Cell>,
      overlap: seq<Cell>, i: nat, t: Cell, bits: seq<bool>)
    requires i < |overlap| && AllOverlap(overlap, t) && t.size > 0
    requires SplitSoFar(ops, d0, d, kind, before, now, overlap, i, t, bits)
    requires SplitDone(ops, d, d', kind, now, now', overlap[i], t, bits)
    ensures SplitSoFar(ops, d0, d', kind, before, now', overlap, i + 1, t, bits)
  {
    hide ValueIn, Overlaps, PartsKnown, AllNumbers, IsPart, KeptButParts;
    var c := overlap[i];
    KeptKnown(ops, d0, d, d', kind, c, t);
    forall j | 0 <= j < i + 1 && KnownNumber(ops, d0, kind, overlap[j]) && AllNumbers(bits, overlap[j]) ensures PartsKnown(ops, d', before, overlap[j], t) {
      if j < i {
        EarlierPartsKept(ops, d, d', before, c, overlap[j], t);
      } else {
        assert KnownNumber(ops, d, kind, c);
        NewPartsKnown(ops, d', before, now, overlap, i, t);
      }
    }
    forall x | x in now' && x !in before ensures PartOfEarlier(overlap, i + 1, x, t) {
      if x in now {
        var j :| 0 <= j < i && overlap[j].size == 8 && IsPart(x, overlap[j], t);
        assert IsPart(x, overlap[j], t);
      } else {
        PartsListed(c, t, x);
        assert overlap[i].size == 8 && IsPart(x, overlap[i], t);
      }
    }
  }

  lemma NewPartsKnown<N>(ops: NumOps<N>, d: N, before: set<Cell>, now: set<Cell>, overlap: seq<Cell>, i: nat, t: Cell)
    requires i < |overlap| && AllOverlap(overlap, t) && t.size > 0 && overlap[i].size == 8
    requires PartsKnown(ops, d, now, overlap[i], t)
    requires forall c :: c in now && c !in before ==> PartOfEarlier(overlap, i, c, t)
    ensures PartsKnown(ops, d, before, overlap[i], t)
  {
    hide ValueIn, Overlaps, IsPart;
    forall part | IsPart(part, overlap[i], t) && Usual(part.size) && part !in before ensures part !in now {
      if part in now {
        var j :| 0 <= j < i && overlap[j].size == 8 && IsPart(part, overlap[j], t);
        PartsApart(part, overlap[i], overlap[j], t);
      }
    }
  }

  lemma NotSplit<N>(ops: NumOps<N>, d: N, kind: DataKind, now: set<Cell>, c: Cell, t: Cell, bits: seq<bool>)
    requires !KnownNumber(ops, d, kind, c) || !AllNumbers(bits, c)
    ensures SplitDone(ops, d, d, kind, now, now, c, t, bits)
  {
  }

  /** What giving one part its own cell does. */
  ghost predicate PartGiven<N>(ops: NumOps<N>, d: N, d': N, before: set<Cell>, after: set<Cell>, part: Cell) {
    && KnownKept(ops, d, d', Pair(part)) && after <= before + {part}
    && (Rebuildable(ops, d, part.offset, part.size) && part !in before ==> ValueIn(ops, d', Scalar(Svalues, part)).Some?)
  }

  /** The part before `t`, if there is one, and then the part behind it. */
  ghost predicate Halves<N>(ops: NumOps<N>, d: N, mid: N, d': N, s0: set<Cell>, s1: set<Cell>, s2: set<Cell>, c: Cell, t: Cell) {
    && (if c.offset < t.offset then PartGiven(ops, d, mid, s0, s1, Cell(c.offset, t.offset - c.offset)) else mid == d && s1 == s0)
    && (if t.offset + t.size < c.offset + c.size
        then PartGiven(ops, mid, d', s1, s2, Cell(t.offset + t.size, c.offset + c.size - (t.offset + t.size)))
        else d' == mid && s2 == s1)
  }

  lemma BothSplit<N>(ops: NumOps<N>, d: N, mid: N, d': N, kind: DataKind, s0: set<Cell>, s1: set<Cell>, s2: set<Cell>, c: Cell, t: Cell, bits: seq<bool>)
    requires c.size == 8 && Overlaps(c, t.offset, t.size) && (kind == Svalues || kind == Uvalues)
    requires Halves(ops, d, mid, d', s0, s1, s2, c, t)
    ensures SplitDone(ops, d, d', kind, s0, s2, c, t, bits)
  {
    hide ValueIn, Rebuildable, Overlaps, AllNumbers;
    if t.size > 0 && KnownNumber(ops, d, kind, c) {
      forall part | IsPart(part, c, t) && Usual(part.size) && part !in s0 ensures ValueIn(ops, d', Scalar(Svalues, part)).Some? {
        PartIsInside(part, c, t);
        if part.offset < t.offset {
          PartRebuildable(ops, d, kind, c, part, t);
        } else {
          assert KnownNumber(ops, mid, kind, c);
          PartRebuildable(ops, mid, kind, c, part, t);
        }
      }
    }
  }

  // ------------------------------------------------------------------ what forgetting costs

  /** A scalar that goes with a cell of the kind: both numeric ones of a number. */
  ghost predicate GoesWith(v: NumVar, kind: DataKind, gone: set<Cell>) {
    v.Scalar? && v.cell in gone && (v.kind == kind || (v in Pair(v.cell) && (kind == Svalues || kind == Uvalues)))
  }

  /** Every constant is still known but those of the cells that are gone. */
  ghost predicate KeptBut<N>(ops: NumOps<N>, d: N, d': N, kind: DataKind, gone: set<Cell>) {
    forall w :: !GoesWith(w, kind, gone) && ValueIn(ops, d, w).Some? ==> ValueIn(ops, d', w) == ValueIn(ops, d, w)
  }

  lemma KeptButNothing<N>(ops: NumOps<N>, d: N, kind: DataKind)
    ensures KeptBut(ops, d, d, kind, {})
  {
  }

  lemma KeptButOne<N(!new)>(ops: NumOps<N>, d0: N, d: N, d': N, kind: DataKind, gone: set<Cell>, c: Cell)
    requires Precise(ops) && KeptBut(ops, d0, d, kind, gone)
    requires var first := ops.havoc(d, Scalar(kind, c));
      d' == if kind == Svalues then ops.havoc(first, Scalar(Uvalues, c)) else if kind == Uvalues then ops.havoc(first, Scalar(Svalues, c)) else first
    ensures KeptBut(ops, d0, d', kind, gone + {c})
  {
    hide ValueIn;
  }

  /** So after the split and the kill the bytes that stay of a known number are known. */
  lemma PartsSurvive<N>(ops: NumOps<N>, d: N, d': N, kind: DataKind, gone: set<Cell>, before: set<Cell>, c: Cell, t: Cell)
    requires PartsKnown(ops, d, before, c, t) && KeptBut(ops, d, d', kind, gone) && c.size == 8 && Overlaps(c, t.offset, t.size) && t.size > 0
    requires forall x :: x in gone ==> Meets(x, t.offset, t.size)
    ensures PartsKnown(ops, d', before, c, t)
  {
    hide ValueIn, Overlaps;
    forall part | IsPart(part, c, t) && Usual(part.size) && part !in before ensures ValueIn(ops, d', Scalar(Svalues, part)).Some? {
      PartIsInside(part, c, t);
    }
  }

  /** The bytes of such a part are known, so a load of them finds them. */
  lemma KnownPartRebuilds<N>(ops: NumOps<N>, d: N, before: set<Cell>, c: Cell, part: Cell, t: Cell)
    requires PartsKnown(ops, d, before, c, t) && c.size == 8 && c.offset % 8 == 0 && Overlaps(c, t.offset, t.size) && t.size > 0
    requires IsPart(part, c, t) && Usual(part.size) && part !in before
    ensures Rebuildable(ops, d, part.offset, part.size)
  {
    hide ValueIn, Overlaps, Rebuildable;
    PartIsInside(part, c, t);
    PartAligned(part, c, t);
    assert ValueIn(ops, d, Scalar(Svalues, part)).Some?;
    ValueIsSingleton(ops, d, Scalar(Svalues, part));
    PartOfKnownCell(ops, d, part, part.offset, part.size);
  }

  lemma ValueIsSingleton<N>(ops: NumOps<N>, d: N, v: NumVar)
    ensures ValueIn(ops, d, v) == Singleton(ops.eval(d, v))
  {
  }

  /**
    What splitting around `t` keeps: every constant but those of the new parts, and of each known eight-byte number
    that `t` overlaps, the parts of a usual size that had no cell of their own.
  */
  ghost predicate SplitKeeps<N>(ops: NumOps<N>, d: N, d': N, kind: DataKind, live: set<Cell>, before: set<Cell>, t: Cell, bits: seq<bool>) {
    && (forall w :: ValueIn(ops, d, w).Some? && !(w.Scalar? && Adjoins(w.cell, t)) ==> ValueIn(ops, d', w) == ValueIn(ops, d, w))
    && NumbersSurvive(ops, d, d', kind, live, before, t, bits)
  }

  ghost predicate NumbersSurvive<N>(ops: NumOps<N>, d: N, d': N, kind: DataKind, live: set<Cell>, before: set<Cell>, t: Cell, bits: seq<bool>) {
    forall c :: c in live && Overlaps(c, t.offset, t.size) && KnownNumber(ops, d, kind, c) && AllNumbers(bits, c) ==> PartsKnown(ops, d', before, c, t)
  }

  lemma AllSplit<N>(ops: NumOps<N>, d: N, d': N, kind: DataKind, live: set<Cell>, before: set<Cell>, now: set<Cell>, overlap: seq<Cell>, t: Cell, bits: seq<bool>)
    requires SplitSoFar(ops, d, d', kind, before, now, overlap, |overlap|, t, bits)
    requires forall c :: c in live && Overlaps(c, t.offset, t.size) ==> c in overlap
    ensures SplitKeeps(ops, d, d', kind, live, before, t, bits)
  {
    hide Overlaps, ValueIn, PartsKnown, KnownNumber, AllNumbers;
    forall c | c in live && Overlaps(c, t.offset, t.size) && KnownNumber(ops, d, kind, c) && AllNumbers(bits, c) ensures PartsKnown(ops, d', before, c, t) {
      var j :| 0 <= j < |overlap| && overlap[j] == c;
    }
  }

  lemma SplitSurvives<N>(ops: NumOps<N>, d: N, mid: N, d': N, kind: DataKind, live: set<Cell>, before: set<Cell>, gone: set<Cell>, t: Cell, bits: seq<bool>)
    requires SplitKeeps(ops, d, mid, kind, live, before, t, bits) && KeptBut(ops, mid, d', kind, gone) && t.size > 0
    requires forall x :: x in gone ==> Meets(x, t.offset, t.size)
    ensures NumbersSurvive(ops, d, d', kind, live, before, t, bits)
  {
    hide Overlaps, ValueIn, PartsKnown, KeptBut, AllNumbers;
    forall c | c in live && Overlaps(c, t.offset, t.size) && KnownNumber(ops, d, kind, c) && AllNumbers(bits, c) ensures PartsKnown(ops, d', before, c, t) {
      PartsSurvive(ops, mid, d', kind, gone, before, c, t);
    }
  }

  // ------------------------------------------------------------------ far from the access

  /** Every byte of the range is eight or more bytes away from where the cell starts. */
  ghost predicate FarFrom(c: Cell, range: Interval) {
    forall n :: Contains(range, n) ==> n + 8 <= c.offset || c.offset + 8 <= n
  }

  /** Constants of variables that are no cells', and of cells far from the range, are still known. */
  ghost predicate FarKept<N>(ops: NumOps<N>, d: N, d': N, range: Interval) {
    forall w :: ValueIn(ops, d, w).Some? && (w.Outer? || FarFrom(w.cell, range)) ==> ValueIn(ops, d', w) == ValueIn(ops, d, w)
  }

  lemma FarThen<N>(ops: NumOps<N>, a: N, b: N, c: N, range: Interval)
    requires FarKept(ops, a, b, range) && FarKept(ops, b, c, range)
    ensures FarKept(ops, a, c, range)
  {
    hide ValueIn, FarFrom;
  }

  lemma FarNothing<N>(ops: NumOps<N>, d: N, range: Interval)
    ensures FarKept(ops, d, d, range)
  {
  }

  lemma SplitFar<N>(ops: NumOps<N>, d: N, d': N, kind: DataKind, live: set<Cell>, before: set<Cell>, t: Cell, bits: seq<bool>, range: Interval)
    requires SplitKeeps(ops, d, d', kind, live, before, t, bits) && t.size > 0 && Contains(range, t.offset) && Contains(range, t.offset + t.size - 1)
    ensures FarKept(ops, d, d', range)
  {
    hide ValueIn, NumbersSurvive, Contains;
    forall w | ValueIn(ops, d, w).Some? && (w.Outer? || FarFrom(w.cell, range)) ensures ValueIn(ops, d', w) == ValueIn(ops, d, w) {
      if w.Scalar? && Adjoins(w.cell, t) {
        BesideIsNear(w.cell, t, range);
      }
    }
  }

  lemma BesideIsNear(c: Cell, t: Cell, range: Interval)
    requires Adjoins(c, t) && t.size > 0 && Contains(range, t.offset) && Contains(range, t.offset + t.size - 1)
    ensures !FarFrom(c, range)
  {
    hide Contains;
    if c.offset + c.size == t.offset {
      assert !(t.offset + 8 <= c.offset || c.offset + 8 <= t.offset);
    } else {
      var n := t.offset + t.size - 1;
      assert !(n + 8 <= c.offset || c.offset + 8 <= n);
    }
  }

  lemma KillFar<N>(ops: NumOps<N>, d: N, d': N, kind: DataKind, gone: set<Cell>, range: Interval)
    requires KeptBut(ops, d, d', kind, gone) && forall c :: c in gone ==> !FarFrom(c, range)
    ensures FarKept(ops, d, d', range)
  {
    hide ValueIn, FarFrom;
  }

  /** A cell of at most eight bytes that has a byte in the range, or shares its start with one, is not far. */
  lemma ByteIsNear(c: Cell, d: Cell, range: Interval)
    requires d.offset == c.offset && d.size <= 8 && HasByteIn(d, range)
    ensures !FarFrom(c, range)
  {
    hide Contains;
  }

  lemma MeetingIsNear(c: Cell, t: Cell, range: Interval)
    requires c.size <= 8 && t.size > 0 && Meets(c, t.offset, t.size)
    requires forall n :: t.offset <= n < t.offset + t.size ==> Contains(range, n)
    ensures !FarFrom(c, range)
  {
    hide Contains;
    var n := if t.offset <= c.offset then c.offset else t.offset;
    assert t.offset <= n < t.offset + t.size && Contains(range, n);
  }

  lemma AssignFar<N(!new)>(ops: NumOps<N>, d: N, kind: DataKind, c: Cell, x: NumExpr, range: Interval)
    requires Precise(ops) && Contains(range, c.offset)
    ensures FarKept(ops, d, ops.assign(d, Scalar(kind, c), x), range)
  {
    hide ValueIn, Contains;
    assert !FarFrom(c, range);
  }

  lemma WrapFar<N(!new)>(ops: NumOps<N>, d: N, kind: DataKind, c: Cell, n: nat, isSigned: bool, range: Interval)
    requires Precise(ops) && Contains(range, c.offset)
    ensures FarKept(ops, d, ops.overflowBounds(d, Scalar(kind, c), n, isSigned), range)
  {
    hide ValueIn, Contains;
    assert !FarFrom(c, range);
  }

  // ------------------------------------------------------------------ what stays beside the access

  predicate Aligned(c: Cell) {
    Usual(c.size) && c.offset % c.size == 0
  }

  /** Signed numbers of aligned cells, whether live or not, stay known; those that meet `t` need not. */
  ghost predicate NumbersStay<N>(ops: NumOps<N>, d: N, d': N, t: Option<Cell>) {
    forall x :: Aligned(x) && (t.Some? ==> !Meets(x, t.value.offset, t.value.size)) && ValueIn(ops, d, Scalar(Svalues, x)).Some? ==>
      ValueIn(ops, d', Scalar(Svalues, x)).Some?
  }

  lemma StayThen<N>(ops: NumOps<N>, a: N, b: N, c: N, t: Option<Cell>)
    requires NumbersStay(ops, a, b, t) && NumbersStay(ops, b, c, t)
    ensures NumbersStay(ops, a, c, t)
  {
    hide ValueIn, Meets;
  }

  lemma StayNothing<N>(ops: NumOps<N>, d: N, t: Option<Cell>)
    ensures NumbersStay(ops, d, d, t)
  {
  }

  lemma StayBeside<N>(ops: NumOps<N>, d: N, d': N, t: Cell)
    requires NumbersStay(ops, d, d', None)
    ensures NumbersStay(ops, d, d', Some(t))
  {
    hide ValueIn, Meets;
  }

  lemma PairStays<N>(ops: NumOps<N>, d: N, d': N, c: Cell)
    requires KnownKept(ops, d, d', Pair(c))
    requires Aligned(c) && ValueIn(ops, d, Scalar(Svalues, c)).Some? ==> ValueIn(ops, d', Scalar(Svalues, c)).Some?
    ensures NumbersStay(ops, d, d', None)
  {
    hide ValueIn;
  }

  lemma KillStays<N>(ops: NumOps<N>, d: N, d': N, kind: DataKind, gone: set<Cell>, t: Cell)
    requires KeptBut(ops, d, d', kind, gone)
    ensures kind != Svalues && kind != Uvalues ==> NumbersStay(ops, d, d', None)
    ensures (forall x :: x in gone ==> Meets(x, t.offset, t.size)) ==> NumbersStay(ops, d, d', Some(t))
  {
    hide ValueIn, Meets;
  }

  /** An assignment to a scalar of the cell at hand, or to a pointer scalar. */
  lemma AssignStays<N(!new)>(ops: NumOps<N>, d: N, kind: DataKind, c: Cell, x: NumExpr)
    requires Precise(ops) && c.size > 0
    ensures NumbersStay(ops, d, ops.assign(d, Scalar(kind, c), x), Some(c))
  {
    hide ValueIn;
  }

  lemma WrapStays<N(!new)>(ops: NumOps<N>, d: N, kind: DataKind, c: Cell, n: nat, isSigned: bool)
    requires Precise(ops) && c.size > 0
    ensures NumbersStay(ops, d, ops.overflowBounds(d, Scalar(kind, c), n, isSigned), Some(c))
  {
    hide ValueIn;
  }

  lemma PartAligned(part: Cell, c: Cell, t: Cell)
    requires c.size == 8 && c.offset % 8 == 0 && IsPart(part, c, t) && Usual(part.size) && part.size < 8
    ensures Aligned(part)
  {
    assert part.offset == c.offset || part.offset == c.offset + 8 - part.size;
    EightIsAligned(c.offset, part.offset, part.size);
  }

  lemma EightIsAligned(start: nat, offset: nat, size: nat)
    requires start % 8 == 0 && (size == 1 || size == 2 || size == 4) && (offset == start || offset == start + 8 - size)
    ensures offset % size == 0
  {
    var q := start / 8;
    var n := (if size == 4 then 2 else if size == 2 then 4 else 8) * q;
    var m := if size == 4 then n + 1 else if size == 2 then n + 3 else n + 7;
    ModUnique(offset, if offset == start then n else m, 0, size);
  }

  /** The parts that survived a first pass survive whatever leaves the numbers beside the access known. */
  lemma SurviveStay<N>(ops: NumOps<N>, d: N, mid: N, d': N, kind: DataKind, live: set<Cell>, before: set<Cell>, t: Cell, bits: seq<bool>)
    requires NumbersSurvive(ops, d, mid, kind, live, before, t, bits) && NumbersStay(ops, mid, d', Some(t)) && t.size > 0
    ensures NumbersSurvive(ops, d, d', kind, live, before, t, bits)
  {
    hide ValueIn, Overlaps, Meets, AllNumbers;
    forall c, part | c in live && Overlaps(c, t.offset, t.size) && KnownNumber(ops, d, kind, c) && AllNumbers(bits, c)
      && IsPart(part, c, t) && Usual(part.size) && part !in before
      ensures ValueIn(ops, d', Scalar(Svalues, part)).Some?
    {
      assert PartsKnown(ops, mid, before, c, t);
      PartIsInside(part, c, t);
      PartAligned(part, c, t);
    }
  }

  /** What was known, and recorded as numbers, before an idle first step. */
  lemma SurviveFrom<N>(ops: NumOps<N>, d0: N, d: N, d': N, live: set<Cell>, before: set<Cell>, t: Cell, bits0: seq<bool>, bits: seq<bool>)
    requires NumbersStay(ops, d0, d, None) && NumbersSurvive(ops, d, d', Svalues, live, before, t, bits)
    requires forall c :: AllNumbers(bits0, c) ==> AllNumbers(bits, c)
    ensures NumbersSurvive(ops, d0, d', Svalues, live, before, t, bits0)
  {
    hide ValueIn, Overlaps, AllNumbers, PartsKnown;
    forall c | c in live && Overlaps(c, t.offset, t.size) && KnownNumber(ops, d0, Svalues, c) && AllNumbers(bits0, c)
      ensures PartsKnown(ops, d', before, c, t)
    {
      assert Aligned(c) && KnownNumber(ops, d, Svalues, c);
    }
  }
}
