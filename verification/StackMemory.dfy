/** Plain byte memory: what the stack cell domain stands for. */
module StackMemory {
  import opened Numbers

  type Byte = b: int | 0 <= b < 256

  type Memory = int -> Byte

  /** The bytes from `offset` on as an unsigned number, least significant byte first. */
  ghost function ReadLe(m: Memory, offset: int, size: nat): (r: int)
    ensures 0 <= r < Pow2(8 * size)
    decreases size
  {
    if size == 0 then 0
    else
      Pow2Byte(size);
      m(offset) + 256 * ReadLe(m, offset + 1, size - 1)
  }

  /** The same, most significant byte first. */
  ghost function ReadBe(m: Memory, offset: int, size: nat): (r: int)
    ensures 0 <= r < Pow2(8 * size)
  {
    if size == 0 then 0
    else
      Pow2Byte(size);
      256 * ReadBe(m, offset, size - 1) + m(offset + size - 1)
  }

  ghost function Read(m: Memory, bigEndian: bool, offset: int, size: nat): (r: int)
    ensures 0 <= r < Pow2(8 * size)
  {
    if bigEndian then ReadBe(m, offset, size) else ReadLe(m, offset, size)
  }

  lemma Pow2Byte(size: nat)
    requires size > 0
    ensures Pow2(8 * size) == 256 * Pow2(8 * (size - 1))
  {
    hide Pow2;
    Pow2Add(8, 8 * (size - 1));
    Pow2Values();
  }

  /** The place of byte `k` in a number of `size` bytes. */
  function Place(bigEndian: bool, k: int, size: nat): int {
    if bigEndian then size - 1 - k else k
  }

  /** Byte number `p` of `n`, counted from the least significant one. */
  function ByteAt(n: int, p: nat): Byte {
    DivMod(n / Pow2(8 * p), 256);
    n / Pow2(8 * p) % 256
  }

  /** Dropping the lowest byte shifts the others down. */
  lemma ByteShift(n: int, b: Byte, p: nat)
    requires p > 0
    ensures ByteAt(256 * n + b, p) == ByteAt(n, p - 1)
  {
    hide Pow2;
    Pow2Byte(p);
    var k := Pow2(8 * (p - 1));
    var q, r := n / k, n % k;
    DivMod(n, k);
    assert 256 * (q * k) == q * (256 * k);
    ModUnique(256 * n + b, q, 256 * r + b, 256 * k);
  }

  lemma ByteLowest(n: int, b: Byte)
    ensures ByteAt(256 * n + b, 0) == b
  {
    ModUnique(256 * n + b, n, b, 256);
  }

  /** Every byte of what was read is the byte of memory at its place. */
  lemma {:induction false} ReadLeBytes(m: Memory, offset: int, size: nat, k: nat)
    requires k < size
    ensures ByteAt(ReadLe(m, offset, size), k) == m(offset + k)
    decreases size
  {
    hide ByteAt, Pow2;
    var rest := ReadLe(m, offset + 1, size - 1);
    if k == 0 {
      ByteLowest(rest, m(offset));
    } else {
      ByteShift(rest, m(offset), k);
      ReadLeBytes(m, offset + 1, size - 1, k - 1);
    }
  }

  lemma {:induction false} ReadBeBytes(m: Memory, offset: int, size: nat, k: nat)
    requires k < size
    ensures ByteAt(ReadBe(m, offset, size), size - 1 - k) == m(offset + k)
    decreases size
  {
    hide ByteAt, Pow2;
    var rest, b := ReadBe(m, offset, size - 1), m(offset + size - 1);
    if k == size - 1 {
      ByteLowest(rest, b);
    } else {
      ByteShift(rest, b, size - 1 - k);
      ReadBeBytes(m, offset, size - 1, k);
    }
  }

  lemma ReadBytes(m: Memory, bigEndian: bool, offset: int, size: nat, k: nat)
    requires k < size
    ensures ByteAt(Read(m, bigEndian, offset, size), Place(bigEndian, k, size)) == m(offset + k)
  {
    if bigEndian {
      ReadBeBytes(m, offset, size, k);
    } else {
      ReadLeBytes(m, offset, size, k);
    }
  }

  /** A read looks at nothing but its bytes. */
  lemma {:induction false} ReadLocal(m: Memory, m': Memory, bigEndian: bool, offset: int, size: nat)
    requires forall i :: offset <= i < offset + size ==> m(i) == m'(i)
    ensures Read(m, bigEndian, offset, size) == Read(m', bigEndian, offset, size)
    decreases size
  {
    if size > 0 {
      if bigEndian {
        ReadLocal(m, m', true, offset, size - 1);
      } else {
        ReadLocal(m, m', false, offset + 1, size - 1);
      }
    }
  }

  /** Memory after the low `size` bytes of `w` have been written. */
  ghost function Write(m: Memory, bigEndian: bool, offset: int, size: nat, w: int): Memory {
    i => if offset <= i < offset + size then ByteAt(w, Place(bigEndian, i - offset, size)) else m(i)
  }

  /** Byte `k` of the stretch is the byte of `w` that belongs there. */
  ghost predicate HasByte(m: Memory, bigEndian: bool, offset: int, size: nat, w: int, k: nat)
    requires k < size
  {
    m(offset + k) == ByteAt(w, Place(bigEndian, k, size))
  }

  lemma {:induction false} LowBytesLe(m: Memory, offset: int, size: nat, w: int)
    requires forall k: nat :: k < size ==> HasByte(m, false, offset, size, w, k)
    ensures ReadLe(m, offset, size) == w % Pow2(8 * size)
    decreases size
  {
    hide ByteAt;
    if size > 0 {
      var n, v, next := size - 1, w / 256, offset + 1;
      forall k: nat | k < n ensures HasByte(m, false, next, n, v, k) {
        assert HasByte(m, false, offset, size, w, k + 1);
        ByteOfHigh(w, k + 1);
      }
      LowBytesLe(m, offset + 1, size - 1, w / 256);
      LowByteStep(w, size);
      assert HasByte(m, false, offset, size, w, 0);
    } else {
      ModOneIsZero(w);
    }
  }

  lemma {:induction false} LowBytesBe(m: Memory, offset: int, size: nat, w: int)
    requires forall k: nat :: k < size ==> HasByte(m, true, offset, size, w, k)
    ensures ReadBe(m, offset, size) == w % Pow2(8 * size)
    decreases size
  {
    hide ByteAt;
    if size > 0 {
      var n, v := size - 1, w / 256;
      forall k: nat | k < n ensures HasByte(m, true, offset, n, v, k) {
        assert HasByte(m, true, offset, size, w, k);
        ByteOfHigh(w, size - 1 - k);
      }
      LowBytesBe(m, offset, size - 1, w / 256);
      LowByteStep(w, size);
      assert HasByte(m, true, offset, size, w, size - 1);
    } else {
      ModOneIsZero(w);
    }
  }

  lemma ByteOfHigh(w: int, p: nat)
    requires p > 0
    ensures ByteAt(w, p) == ByteAt(w / 256, p - 1)
  {
    hide ByteAt;
    DivMod(w, 256);
    ByteShift(w / 256, w % 256, p);
  }

  lemma ModOneIsZero(w: int)
    ensures w % Pow2(8 * 0) == 0
  {
  }

  lemma LowByteStep(w: int, size: nat)
    requires size > 0
    ensures w % Pow2(8 * size) == 256 * (w / 256 % Pow2(8 * (size - 1))) + ByteAt(w, 0)
  {
    hide Pow2;
    Pow2Byte(size);
    var k := Pow2(8 * (size - 1));
    DivMod(w, 256);
    ByteLowest(w / 256, w % 256);
    DivMod(w / 256, k);
    var q, r := w / 256 / k, w / 256 % k;
    assert 256 * (q * k) == q * (256 * k);
    ModUnique(w, q, 256 * r + w % 256, 256 * k);
  }

  /** What was written is read back. */
  lemma ReadWritten(m: Memory, bigEndian: bool, offset: int, size: nat, w: int)
    ensures Read(Write(m, bigEndian, offset, size, w), bigEndian, offset, size) == w % Pow2(8 * size)
  {
    hide ByteAt, Pow2;
    var m' := Write(m, bigEndian, offset, size, w);
    forall k: nat | k < size ensures HasByte(m', bigEndian, offset, size, w, k) {
    }
    if bigEndian {
      LowBytesBe(m', offset, size, w);
    } else {
      LowBytesLe(m', offset, size, w);
    }
  }
}
