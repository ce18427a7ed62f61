/** Which stack cells are live, and the scans over them (src/crab/array_domain.rs:32-205, 336-381). */
module OffsetMaps {
  import opened Wrappers
  import opened Numbers
  import opened Intervals

  /** The bytes [offset, offset + size). */
  datatype Cell = Cell(offset: nat, size: nat)

  /** From a stack offset to the sizes of the cells that start there; empty buckets are not kept. */
  datatype OffsetMap = OffsetMap(totalStackSize: nat, sizes: map<nat, seq<nat>>)

  ghost predicate Has(om: OffsetMap, c: Cell) {
    c.offset in om.sizes && c.size in om.sizes[c.offset]
  }

  /** The live cells. */
  ghost function Live(om: OffsetMap): set<Cell> {
    set o, s | o in om.sizes && s in om.sizes[o] :: Cell(o, s)
  }

  lemma LiveIsHas(om: OffsetMap, c: Cell)
    ensures c in Live(om) <==> Has(om, c)
  {
    if c in Live(om) {
      var o, s :| o in om.sizes && s in om.sizes[o] && c == Cell(o, s);
    }
    if Has(om, c) {
      assert c == Cell(c.offset, c.size);
    }
  }

  ghost predicate ValidMap(om: OffsetMap) {
    && (forall o :: o in om.sizes ==> om.sizes[o] != [] && o < om.totalStackSize)
    && (forall o :: o in om.sizes ==> Distinct(om.sizes[o]))
  }

  /** Two stretches of bytes have one in common. */
  ghost predicate Meets(c: Cell, offset: int, size: int) {
    c.offset < offset + size && offset < c.offset + c.size
  }

  // ------------------------------------------------------------------ single cells

  function GetCell(om: OffsetMap, offset: nat, size: nat): (r: Option<Cell>)
    ensures r.Some? <==> Has(om, Cell(offset, size))
    ensures r.Some? ==> r.value == Cell(offset, size)
  {
    if offset in om.sizes && size in om.sizes[offset] then Some(Cell(offset, size)) else None
  }

  /** Cells that start at or past the end of the stack are dropped. */
  function InsertCell(om: OffsetMap, cell: Cell): OffsetMap {
    if cell.offset < om.totalStackSize then
      var bucket := if cell.offset in om.sizes then om.sizes[cell.offset] else [];
      if cell.size !in bucket then om.(sizes := om.sizes[cell.offset := bucket + [cell.size]])
      else om.(sizes := om.sizes[cell.offset := bucket])
    else om
  }

  lemma InsertLive(om: OffsetMap, cell: Cell)
    requires ValidMap(om)
    ensures ValidMap(InsertCell(om, cell))
    ensures Live(InsertCell(om, cell)) == Live(om) + if cell.offset < om.totalStackSize then {cell} else {}
    ensures InsertCell(om, cell).totalStackSize == om.totalStackSize
  {
    hide Live;
    var r := InsertCell(om, cell);
    forall c ensures c in Live(r) <==> c in Live(om) || (cell.offset < om.totalStackSize && c == cell) {
      LiveIsHas(r, c);
      LiveIsHas(om, c);
    }
  }

  /** `bucket` without `size`. */
  function Retain(bucket: seq<nat>, size: nat): (r: seq<nat>)
    ensures forall s :: s in r <==> s in bucket && s != size
  {
    if bucket == [] then []
    else (if bucket[0] != size then [bucket[0]] else []) + Retain(bucket[1..], size)
  }

  lemma {:induction false} RetainDistinct(bucket: seq<nat>, size: nat)
    requires Distinct(bucket)
    ensures Distinct(Retain(bucket, size))
  {
    if bucket != [] {
      RetainDistinct(bucket[1..], size);
      forall i | 1 <= i < |bucket| ensures bucket[i] != bucket[0] {
      }
      assert bucket[0] !in bucket[1..];
      assert bucket[0] !in Retain(bucket[1..], size);
    }
  }

  function RemoveCell(om: OffsetMap, c: Cell): OffsetMap {
    if c.offset in om.sizes then
      var bucket := Retain(om.sizes[c.offset], c.size);
      if bucket == [] then om.(sizes := om.sizes - {c.offset}) else om.(sizes := om.sizes[c.offset := bucket])
    else om
  }

  lemma RemoveLive(om: OffsetMap, c: Cell)
    requires ValidMap(om)
    ensures ValidMap(RemoveCell(om, c)) && Live(RemoveCell(om, c)) == Live(om) - {c}
    ensures RemoveCell(om, c).totalStackSize == om.totalStackSize
  {
    hide Live;
    var r := RemoveCell(om, c);
    if c.offset in om.sizes {
      RetainDistinct(om.sizes[c.offset], c.size);
    }
    forall d ensures d in Live(r) <==> d in Live(om) && d != c {
      LiveIsHas(r, d);
      LiveIsHas(om, d);
    }
  }

  ghost function SetOf(cells: seq<Cell>): (r: set<Cell>)
    ensures forall c :: c in r <==> c in cells
  {
    set c | c in cells
  }

  method RemoveCells(om: OffsetMap, cells: seq<Cell>) returns (r: OffsetMap)
    requires ValidMap(om)
    ensures ValidMap(r) && r.totalStackSize == om.totalStackSize
    ensures Live(r) == Live(om) - SetOf(cells)
  {
    hide Live, ValidMap;
    r := om;
    var i := 0;
    while i < |cells|
      invariant 0 <= i <= |cells| && ValidMap(r) && r.totalStackSize == om.totalStackSize
      invariant Live(r) == Live(om) - SetOf(cells[..i])
    {
      RemoveLive(r, cells[i]);
      r := RemoveCell(r, cells[i]);
      assert cells[..i + 1] == cells[..i] + [cells[i]];
      i := i + 1;
    }
    assert cells[..|cells|] == cells;
  }

  /** Union of the cells of two maps. */
  method MergeFrom(dst: OffsetMap, src: OffsetMap) returns (r: OffsetMap)
    requires ValidMap(dst) && ValidMap(src) && dst.totalStackSize == src.totalStackSize
    ensures ValidMap(r) && r.totalStackSize == dst.totalStackSize
    ensures Live(r) == Live(dst) + Live(src)
  {
    hide Live;
    r := dst;
    var offsets := src.sizes.Keys;
    ghost var done: set<Cell> := {};
    while offsets != {}
      invariant offsets <= src.sizes.Keys
      invariant ValidMap(r) && r.totalStackSize == dst.totalStackSize
      invariant Live(r) == Live(dst) + done
      invariant forall c :: c in done <==> Has(src, c) && c.offset !in offsets
    {
      var off :| off in offsets;
      offsets := offsets - {off};
      var bucket := src.sizes[off];
      ghost var before := done;
      var i := 0;
      while i < |bucket|
        invariant 0 <= i <= |bucket|
        invariant ValidMap(r) && r.totalStackSize == dst.totalStackSize
        invariant Live(r) == Live(dst) + done
        invariant forall c :: c in done <==> c in before || (c.offset == off && c.size in bucket[..i])
      {
        InsertLive(r, Cell(off, bucket[i]));
        r := InsertCell(r, Cell(off, bucket[i]));
        done := done + {Cell(off, bucket[i])};
        i := i + 1;
      }
      assert bucket[..|bucket|] == bucket;
    }
    forall c ensures c in done <==> c in Live(src) {
      LiveIsHas(src, c);
    }
    assert done == Live(src);
  }

  // ------------------------------------------------------------------ overlap scans

  /** What the scan reports: the cells around `offset`, and those that start later in the range; not the exact one. */
  ghost predicate Overlaps(c: Cell, offset: nat, size: nat) {
    || (c.offset <= offset && offset < c.offset + c.size && c != Cell(offset, size))
    || offset < c.offset < offset + size
  }

  /** For non-empty cells and a non-empty range that is: it meets the range and is not the exact cell. */
  lemma OverlapsIsMeets(c: Cell, offset: nat, size: nat)
    requires c.size > 0 && size > 0
    ensures Overlaps(c, offset, size) <==> Meets(c, offset, size) && c != Cell(offset, size)
  {
  }

  ghost predicate Found(om: OffsetMap, out: seq<Cell>, lo: int, hi: int, offset: nat, size: nat) {
    && Distinct(out)
    && forall c :: c in out <==> Has(om, c) && Overlaps(c, offset, size) && lo <= c.offset < hi
  }

  lemma FoundMore(om: OffsetMap, out: seq<Cell>, more: seq<Cell>, lo: int, hi: int, lo': int, hi': int, offset: nat, size: nat)
    requires Found(om, out, lo, hi, offset, size) && Distinct(more)
    requires forall c :: c in more <==> Has(om, c) && Overlaps(c, offset, size) && lo' <= c.offset < hi'
    requires (lo' == hi || hi' == lo) && lo <= hi && lo' <= hi'
    ensures Found(om, out + more, if lo' == hi then lo else lo', if lo' == hi then hi' else hi, offset, size)
  {
    hide Overlaps, Has;
    var s := out + more;
    forall c | c in out ensures c !in more {
      assert !(lo' <= c.offset < hi');
    }
    forall i, j | 0 <= i < j < |s| ensures s[i] != s[j] {
      if i < |out| <= j {
        assert s[i] in out && s[j] in more;
      }
    }
  }

  /** The cells that start at `off` and overlap, in bucket order. */
  method ScanBucket(om: OffsetMap, off: nat, offset: nat, size: nat) returns (more: seq<Cell>)
    requires ValidMap(om) && off in om.sizes
    ensures Distinct(more)
    ensures forall c :: c in more <==> Has(om, c) && Overlaps(c, offset, size) && c.offset == off
  {
    var bucket := om.sizes[off];
    more := [];
    var i := 0;
    while i < |bucket|
      invariant 0 <= i <= |bucket| && Distinct(more)
      invariant forall c :: c in more <==> c.offset == off && c.size in bucket[..i] && Overlaps(c, offset, size)
    {
      var s := bucket[i];
      if (off <= offset && off + s > offset && (off != offset || s != size)) || (offset < off && off < offset + size) {
        more := more + [Cell(off, s)];
      }
      i := i + 1;
    }
    assert bucket[..|bucket|] == bucket;
  }

  /**
    All live cells that overlap [offset, offset + size) except the exact one, each once: first the
    occupied offsets from `offset` down, all of them, then those inside the range going up.
  */
  method GetOverlapCells(om: OffsetMap, offset: nat, size: nat) returns (out: seq<Cell>)
    requires ValidMap(om)
    ensures Distinct(out)
    ensures forall c :: c in out <==> Has(om, c) && Overlaps(c, offset, size)
  {
    hide Overlaps, Has, ValidMap;
    out := [];
    var off: int := offset;
    while off >= 0
      invariant -1 <= off <= offset
      invariant Found(om, out, off + 1, offset + 1, offset, size)
    {
      if off in om.sizes {
        var more := ScanBucket(om, off, offset, size);
        FoundMore(om, out, more, off + 1, offset + 1, off, off + 1, offset, size);
        out := out + more;
      } else {
        NoneAt(om, off);
      }
      off := off - 1;
    }
    off := offset + 1;
    while off < offset + size
      invariant offset < off && (off <= offset + size || off == offset + 1)
      invariant Found(om, out, 0, off, offset, size)
    {
      if off in om.sizes {
        var more := ScanBucket(om, off, offset, size);
        FoundMore(om, out, more, 0, off, off, off + 1, offset, size);
        out := out + more;
      } else {
        NoneAt(om, off);
      }
      off := off + 1;
    }
    PastTheRange(offset, size);
  }

  lemma NoneAt(om: OffsetMap, off: int)
    requires off !in om.sizes
    ensures forall c :: Has(om, c) ==> c.offset != off
  {
  }

  lemma PastTheRange(offset: nat, size: nat)
    ensures forall c: Cell :: Overlaps(c, offset, size) ==> c.offset <= offset || c.offset < offset + size
  {
  }

  // ------------------------------------------------------------------ imprecise accesses

  /** The bytes a cell covers. */
  function ToInterval(c: Cell): Interval {
    FromNumbers(c.offset, c.offset + c.size - 1)
  }

  predicate SymbolicOverlap(c: Cell, range: Interval) {
    !IsBottom(Meet(ToInterval(c), range))
  }

  /** A byte of the cell lies in the range. */
  lemma SymbolicOverlapMeans(c: Cell, range: Interval, n: int)
    requires c.offset <= n < c.offset + c.size && Contains(range, n)
    ensures SymbolicOverlap(c, range)
  {
    assert Contains(ToInterval(c), n);
    assert Contains(Meet(ToInterval(c), range), n);
  }

  function MaxOf(bucket: seq<nat>): (r: nat)
    requires bucket != []
    ensures forall i :: 0 <= i < |bucket| ==> bucket[i] <= r
  {
    if |bucket| == 1 then bucket[0]
    else
      var rest := MaxOf(bucket[1..]);
      assert forall i :: 1 <= i < |bucket| ==> bucket[i] == bucket[1..][i - 1];
      if bucket[0] > rest then bucket[0] else rest
  }

  /** The cell has a byte in the range. */
  ghost predicate HasByteIn(c: Cell, range: Interval) {
    exists n :: c.offset <= n < c.offset + c.size && Contains(range, n)
  }

  /** The test of the scan means that. */
  lemma SymbolicOverlapIsByte(c: Cell, range: Interval)
    ensures SymbolicOverlap(c, range) <==> HasByteIn(c, range)
  {
    if SymbolicOverlap(c, range) {
      var m := Meet(ToInterval(c), range);
      var n := m.lb.value;
      assert c.offset <= n < c.offset + c.size && Contains(range, n);
    }
    if n :| c.offset <= n < c.offset + c.size && Contains(range, n) {
      SymbolicOverlapMeans(c, range, n);
    }
  }

  /** Some cell that starts at `offset` has a byte in the range. */
  ghost predicate TouchedAt(om: OffsetMap, offset: nat, range: Interval) {
    exists s :: Has(om, Cell(offset, s)) && HasByteIn(Cell(offset, s), range)
  }

  /** The widest cell decides. */
  lemma WidestDecides(om: OffsetMap, off: nat, range: Interval)
    requires ValidMap(om) && off in om.sizes && om.sizes[off] != []
    ensures SymbolicOverlap(Cell(off, MaxOf(om.sizes[off])), range) <==> TouchedAt(om, off, range)
  {
    hide SymbolicOverlap, Contains;
    var widest := MaxOf(om.sizes[off]);
    MaxIn(om.sizes[off]);
    SymbolicOverlapIsByte(Cell(off, widest), range);
    assert Has(om, Cell(off, widest));
    if s :| Has(om, Cell(off, s)) && HasByteIn(Cell(off, s), range) {
      var n :| off <= n < off + s && Contains(range, n);
      assert off <= n < off + widest;
    }
  }

  lemma {:induction false} MaxIn(bucket: seq<nat>)
    requires bucket != []
    ensures MaxOf(bucket) in bucket
  {
    if |bucket| > 1 {
      MaxIn(bucket[1..]);
    }
  }

  /** Exactly the buckets in which some cell has a byte in the range are reported, and they are reported whole. */
  method GetOverlapCellsSymbolic(om: OffsetMap, range: Interval) returns (out: seq<Cell>)
    requires ValidMap(om)
    ensures forall c :: c in out <==> Has(om, c) && TouchedAt(om, c.offset, range)
    ensures forall c, n :: Has(om, c) && c.offset <= n < c.offset + c.size && Contains(range, n) ==> c in out
  {
    hide SymbolicOverlap, Contains, TouchedAt;
    out := [];
    var offsets := om.sizes.Keys;
    while offsets != {}
      invariant offsets <= om.sizes.Keys
      invariant forall c :: c in out <==> Has(om, c) && c.offset !in offsets && TouchedAt(om, c.offset, range)
    {
      var off :| off in offsets;
      offsets := offsets - {off};
      var bucket := om.sizes[off];
      ghost var before := out;
      WidestDecides(om, off, range);
      if SymbolicOverlap(Cell(off, MaxOf(bucket)), range) {
        var i := 0;
        while i < |bucket|
          invariant 0 <= i <= |bucket|
          invariant forall c :: c in out <==> c in before || (c.offset == off && c.size in bucket[..i])
        {
          out := out + [Cell(off, bucket[i])];
          i := i + 1;
        }
        assert bucket[..|bucket|] == bucket;
      }
    }
    forall c, n | Has(om, c) && c.offset <= n < c.offset + c.size && Contains(range, n) ensures TouchedAt(om, c.offset, range) {
      ByteTouches(om, c, range, n);
    }
  }

  lemma ByteTouches(om: OffsetMap, c: Cell, range: Interval, n: int)
    requires Has(om, c) && c.offset <= n < c.offset + c.size && Contains(range, n)
    ensures TouchedAt(om, c.offset, range)
  {
    hide Contains;
    assert c == Cell(c.offset, c.size) && HasByteIn(Cell(c.offset, c.size), range);
  }
}
