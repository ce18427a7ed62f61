/** Rebuilding a value from the bytes of known cells (src/crab/array_domain.rs:623-743). */
module StackBytes {
  import opened Wrappers
  import opened Numbers
  import opened Intervals
  import opened StackMemory
  import opened OffsetMaps
  import opened StackSimulation

  /** `from_le_bytes` and `from_be_bytes`. */
  function FromLeBytes(bytes: seq<Byte>): int {
    if bytes == [] then 0 else bytes[0] + 256 * FromLeBytes(bytes[1..])
  }

  function FromBeBytes(bytes: seq<Byte>): int {
    if bytes == [] then 0 else 256 * FromBeBytes(bytes[..|bytes| - 1]) + bytes[|bytes| - 1]
  }

  lemma {:induction false} LeBytesRead(bytes: seq<Byte>, m: Memory, offset: int)
    requires forall i :: 0 <= i < |bytes| ==> bytes[i] == m(offset + i)
    ensures FromLeBytes(bytes) == ReadLe(m, offset, |bytes|)
  {
    if bytes != [] {
      forall i | 0 <= i < |bytes| - 1 ensures bytes[1..][i] == m(offset + 1 + i) {
        assert bytes[i + 1] == m(offset + (i + 1));
      }
      LeBytesRead(bytes[1..], m, offset + 1);
      assert bytes[0] == m(offset + 0);
    }
  }

  lemma {:induction false} BeBytesRead(bytes: seq<Byte>, m: Memory, offset: int)
    requires forall i :: 0 <= i < |bytes| ==> bytes[i] == m(offset + i)
    ensures FromBeBytes(bytes) == ReadBe(m, offset, |bytes|)
  {
    if bytes != [] {
      BeBytesRead(bytes[..|bytes| - 1], m, offset);
    }
  }

  /** The cell of the given width that a byte would belong to. */
  function AlignedCell(byteOffset: nat, width: nat): Cell
    requires width > 0
  {
    Cell(byteOffset / width * width, width)
  }

  /** Whether the signed scalar of that cell is one known number. */
  predicate Known<N>(ops: NumOps<N>, inv: N, byteOffset: nat, width: nat)
    requires width > 0
  {
    Singleton(ops.eval(inv, Scalar(Svalues, AlignedCell(byteOffset, width)))).Some?
  }

  /** Some width of 8, 4, 2, 1 gives the byte. */
  predicate ByteKnown<N>(ops: NumOps<N>, inv: N, byteOffset: nat) {
    || Known(ops, inv, byteOffset, 8) || Known(ops, inv, byteOffset, 4)
    || Known(ops, inv, byteOffset, 2) || Known(ops, inv, byteOffset, 1)
  }

  /** A value of a usual size can be rebuilt from known bytes. */
  predicate Rebuildable<N>(ops: NumOps<N>, inv: N, offset: nat, size: nat) {
    (size == 1 || size == 2 || size == 4 || size == 8) && forall b: nat {:trigger ByteKnown(ops, inv, b)} :: offset <= b < offset + size ==> ByteKnown(ops, inv, b)
  }

  /** Every byte of an aligned cell with a constant scalar is known, and so is every part of it of a usual size. */
  lemma PartOfKnownCell<N>(ops: NumOps<N>, inv: N, c: Cell, offset: nat, size: nat)
    requires (c.size == 1 || c.size == 2 || c.size == 4 || c.size == 8) && c.offset % c.size == 0
    requires Singleton(ops.eval(inv, Scalar(Svalues, c))).Some?
    requires c.offset <= offset && offset + size <= c.offset + c.size && (size == 1 || size == 2 || size == 4 || size == 8)
    ensures Rebuildable(ops, inv, offset, size)
  {
    forall b: nat | offset <= b < offset + size ensures ByteKnown(ops, inv, b) {
      AlignedAt(b, c.offset, c.size);
      assert AlignedCell(b, c.size) == c;
      assert Known(ops, inv, b, c.size);
    }
  }

  lemma AlignedAt(b: nat, offset: nat, size: nat)
    requires size > 0 && offset % size == 0 && offset <= b < offset + size
    ensures b / size * size == offset
  {
    DivMod(offset, size);
    DivMod(b, size);
    ModUnique(b, offset / size, b - offset, size);
  }

  /** A known signed scalar, re-read as unsigned in its width, is what memory holds. */
  lemma KnownIsRead<N(!new)>(ops: NumOps<N>, inv: N, c: Cell, live: set<Cell>, k: Machine)
    requires SoundNum(ops) && Simulates(ops, inv, live, k) && 1 <= c.size <= 8
    requires Singleton(ops.eval(inv, Scalar(Svalues, c))).Some?
    ensures var n := Singleton(ops.eval(inv, Scalar(Svalues, c))).value;
      FitsCastTo(n, 8 * c.size) && CastToUnsignedWidth(n, 8 * c.size) == Read(k.memory, k.bigEndian, c.offset, c.size)
  {
    hide Pow2, SoundNum, SignExtend, ZeroExtend, Read;
    SingletonIsReading(ops, inv, Svalues, c, live, k);
    var n := Singleton(ops.eval(inv, Scalar(Svalues, c))).value;
    var u := Read(k.memory, k.bigEndian, c.offset, c.size);
    UnsignedSmall(u, 8 * c.size);
    if c.size == 8 {
      SignedReadsBack(u);
    }
  }

  lemma SignedReadsBack(u: int)
    requires 0 <= u < Pow2(64)
    ensures FitsCastTo(SignExtend(u, 64), 64) && ZeroExtend(SignExtend(u, 64), 64) == u
  {
    hide Pow2;
    SignExtendMod(u, 64);
    ModUnique(u, 0, u, Pow2(64));
  }

  /** One byte out of the aligned cell of the given width, if that cell's value is known. */
  method GetValueByte<N(!new)>(ops: NumOps<N>, inv: N, byteOffset: nat, cellWidth: nat, bigEndian: bool,
      ghost live: set<Cell>, ghost k: Machine)
    returns (r: Option<Byte>)
    requires SoundNum(ops) && Simulates(ops, inv, live, k) && k.bigEndian == bigEndian && 1 <= cellWidth <= 8
    ensures r.Some? <==> Known(ops, inv, byteOffset, cellWidth)
    ensures r.Some? ==> r.value == k.memory(byteOffset)
  {
    hide Pow2, SoundNum, Simulates, ByteAt, Read, FitsCastTo;
    var cell := AlignedCell(byteOffset, cellWidth);
    var val := Singleton(ops.eval(inv, Scalar(Svalues, cell)));
    if val.None? {
      return None;
    }
    KnownIsRead(ops, inv, cell, live, k);
    var n := CastToUnsignedWidth(val.value, 8 * cellWidth);
    DivMod(byteOffset, cellWidth);
    var byteIndex := byteOffset % cellWidth;
    ReadBytes(k.memory, bigEndian, cell.offset, cellWidth, byteIndex);
    return Some(ByteAt(n, if bigEndian then cellWidth - 1 - byteIndex else byteIndex));
  }

  /**
    Rebuilds the load of `size` bytes, trying cells of 8, 4, 2 and 1 bytes for each byte. When it
    succeeds the value is exactly the concrete load, whatever mixture of cells the bytes came from;
    for sizes 1, 2, 4 and 8 it fails only if some byte is in no known cell.
  */
  method ReconstructValueFromBytes<N(!new)>(ops: NumOps<N>, inv: N, offset: nat, size: nat, bigEndian: bool,
      ghost live: set<Cell>, ghost k: Machine)
    returns (r: Option<int>)
    requires SoundNum(ops) && Simulates(ops, inv, live, k) && k.bigEndian == bigEndian && size <= 8
    ensures r.Some? ==> r.value == Read(k.memory, bigEndian, offset, size)
    ensures r.Some? <==> Rebuildable(ops, inv, offset, size)
  {
    hide SoundNum, Simulates, ByteAt, Known;
    var buffer := new Byte[8](_ => 0);
    var i := 0;
    while i < size
      invariant 0 <= i <= size
      invariant forall j :: 0 <= j < i ==> buffer[j] == k.memory(offset + j)
      invariant forall b: nat :: offset <= b < offset + i ==> ByteKnown(ops, inv, b)
    {
      var byteOffset := offset + i;
      var b := GetValueByte(ops, inv, byteOffset, 8, bigEndian, live, k);
      if b.None? {
        b := GetValueByte(ops, inv, byteOffset, 4, bigEndian, live, k);
      }
      if b.None? {
        b := GetValueByte(ops, inv, byteOffset, 2, bigEndian, live, k);
      }
      if b.None? {
        b := GetValueByte(ops, inv, byteOffset, 1, bigEndian, live, k);
      }
      if b.None? {
        assert !ByteKnown(ops, inv, byteOffset);
        return None;
      }
      buffer[i] := b.value;
      i := i + 1;
    }
    var bytes := buffer[..size];
    if bigEndian {
      BeBytesRead(bytes, k.memory, offset);
    } else {
      LeBytesRead(bytes, k.memory, offset);
    }
    if size == 1 || size == 2 || size == 4 || size == 8 {
      return Some(if bigEndian then FromBeBytes(bytes) else FromLeBytes(bytes));
    }
    return None;
  }
}
