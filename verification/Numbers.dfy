/** Finite-width views of integers (src/arith/number.rs:44-132). */
module Numbers {

  const TWO31: int := 0x8000_0000
  const TWO32: int := 0x1_0000_0000
  const TWO63: int := 0x8000_0000_0000_0000
  const TWO64: int := 0x1_0000_0000_0000_0000

  /** 2 to the power of `n`. */
  function Pow2(n: nat): (r: int)
    ensures r > 0
  {
    if n == 0 then 1 else 2 * Pow2(n - 1)
  }

  lemma Pow2Values()
    ensures Pow2(0) == 1 && Pow2(8) == 0x100 && Pow2(16) == 0x1_0000
    ensures Pow2(31) == TWO31 && Pow2(32) == TWO32 && Pow2(63) == TWO63 && Pow2(64) == TWO64
  {
    assert Pow2(4) == 16;
    assert Pow2(8) == 0x100;
    assert Pow2(12) == 0x1000;
    assert Pow2(16) == 0x1_0000;
    assert Pow2(20) == 0x10_0000;
    assert Pow2(24) == 0x100_0000;
    assert Pow2(28) == 0x1000_0000;
    assert Pow2(31) == TWO31 && Pow2(32) == TWO32;
    assert Pow2(36) == 0x10_0000_0000;
    assert Pow2(40) == 0x100_0000_0000;
    assert Pow2(44) == 0x1000_0000_0000;
    assert Pow2(48) == 0x1_0000_0000_0000;
    assert Pow2(52) == 0x10_0000_0000_0000;
    assert Pow2(56) == 0x100_0000_0000_0000;
    assert Pow2(60) == 0x1000_0000_0000_0000;
    assert Pow2(63) == TWO63 && Pow2(64) == TWO64;
  }

  lemma {:induction false} Pow2Add(a: nat, b: nat)
    ensures Pow2(a + b) == Pow2(a) * Pow2(b)
  {
    if a > 0 {
      Pow2Add(a - 1, b);
      assert Pow2(a + b) == 2 * Pow2(a - 1 + b);
    }
  }

  lemma {:induction false} Pow2Monotone(a: nat, b: nat)
    requires a <= b
    ensures Pow2(a) <= Pow2(b)
  {
    if a < b {
      Pow2Monotone(a, b - 1);
    }
  }

  /** The low `width` bits, read as unsigned; width 0 means no finite width. */
  function ZeroExtend(x: int, width: nat): (r: int)
    ensures width > 0 ==> 0 <= r < Pow2(width)
  {
    if width == 0 then x else DivMod(x, Pow2(width)); x % Pow2(width)
  }

  /** The low `width` bits, read as two's complement. */
  function SignExtend(x: int, width: nat): (r: int)
    ensures width > 0 ==> -Pow2(width - 1) <= r < Pow2(width - 1)
  {
    if width == 0 then x
    else
      DivMod(x, Pow2(width));
      Pow2Double(width);
      var truncated := x % Pow2(width);
      if truncated >= Pow2(width - 1) then truncated - Pow2(width) else truncated
  }

  function MinInt(width: nat): int
    requires width > 0
  {
    -Pow2(width - 1)
  }

  function MaxInt(width: nat): int
    requires width > 0
  {
    Pow2(width - 1) - 1
  }

  function MaxUint(width: nat): int {
    Pow2(width) - 1
  }

  /** Whether a number fits the width under the signed or the unsigned reading. */
  predicate FitsCastTo(x: int, width: nat)
    requires width > 0
  {
    (MinInt(width) <= x <= MaxInt(width)) || 0 <= x <= MaxUint(width)
  }

  /** The number re-read as signed; the source panics when it does not fit. */
  function CastToSignedWidth(x: int, width: nat): (r: int)
    requires width > 0 && FitsCastTo(x, width)
    ensures r == SignExtend(x, width)
  {
    hide Pow2;
    if MinInt(width) <= x <= MaxInt(width) then SignedSmall(x, width); x
    else SignedLarge(x, width); x - Pow2(width)
  }

  /** The number re-read as unsigned. */
  function CastToUnsignedWidth(x: int, width: nat): (r: int)
    requires width > 0 && FitsCastTo(x, width)
    ensures r == ZeroExtend(x, width)
  {
    hide Pow2;
    Pow2Double(width);
    if 0 <= x <= MaxUint(width) then UnsignedSmall(x, width); x
    else if x < 0 then UnsignedNegative(x, width); x + Pow2(width)
    else x
  }

  lemma Pow2Double(width: nat)
    requires width > 0
    ensures Pow2(width) == 2 * Pow2(width - 1)
  {
  }

  lemma SignedSmall(x: int, width: nat)
    requires width > 0 && MinInt(width) <= x <= MaxInt(width)
    ensures SignExtend(x, width) == x
  {
    hide Pow2;
    var m := Pow2(width);
    Pow2Double(width);
    if x < 0 {
      assert -1 * m == -m;
      ModUnique(x, -1, x + m, m);
    } else {
      assert 0 * m == 0;
      ModUnique(x, 0, x, m);
    }
  }

  lemma SignedLarge(x: int, width: nat)
    requires width > 0 && MaxInt(width) < x <= MaxUint(width)
    ensures SignExtend(x, width) == x - Pow2(width)
  {
    hide Pow2;
    assert 0 * Pow2(width) == 0;
    ModUnique(x, 0, x, Pow2(width));
  }

  lemma UnsignedNegative(x: int, width: nat)
    requires width > 0 && MinInt(width) <= x < 0
    ensures ZeroExtend(x, width) == x + Pow2(width)
  {
    hide Pow2;
    Pow2Double(width);
    assert -1 * Pow2(width) == -Pow2(width);
    ModUnique(x, -1, x + Pow2(width), Pow2(width));
  }

  lemma UnsignedSmall(x: int, width: nat)
    requires width > 0 && 0 <= x <= MaxUint(width)
    ensures ZeroExtend(x, width) == x
  {
    hide Pow2;
    assert 0 * Pow2(width) == 0;
    ModUnique(x, 0, x, Pow2(width));
  }

  // ------------------------------------------------------------------ residues

  lemma {:induction false} QuotientsApart(q: int, q': int, m: int)
    requires q < q' && m > 0
    ensures q' * m >= q * m + m
    decreases q' - q
  {
    if q + 1 < q' {
      QuotientsApart(q, q' - 1, m);
      assert (q' - 1) * m == q' * m - m;
    } else {
      assert q' * m == q * m + m;
    }
  }

  lemma SameQuotient(q: int, r: int, q': int, r': int, m: int)
    requires m > 0 && q * m + r == q' * m + r' && 0 <= r < m && 0 <= r' < m
    ensures q == q' && r == r'
  {
    if q < q' {
      QuotientsApart(q, q', m);
    } else if q' < q {
      QuotientsApart(q', q, m);
    }
  }

  lemma DivMod(x: int, m: int)
    requires m > 0
    ensures x == x / m * m + x % m && 0 <= x % m < m
  {
  }

  lemma ModUnique(x: int, q: int, r: int, m: int)
    requires m > 0 && x == q * m + r && 0 <= r < m
    ensures x % m == r && x / m == q
  {
    DivMod(x, m);
    SameQuotient(q, r, x / m, x % m, m);
  }

  lemma ModAdd(x: int, k: int, m: int)
    requires m > 0
    ensures (x + k * m) % m == x % m
  {
    DivMod(x, m);
    assert (x / m + k) * m == x / m * m + k * m;
    ModUnique(x + k * m, x / m + k, x % m, m);
  }

  /** The quotients of a stretch no longer than the modulus are at most one apart, with a drop at the seam. */
  lemma SameStretch(q: int, r: int, q': int, r': int, m: int)
    requires m > 0 && 0 <= r < m && 0 <= r' < m
    requires 0 <= q' * m + r' - (q * m + r) < m && r <= r'
    ensures q == q'
  {
    if q < q' {
      QuotientsApart(q, q', m);
    } else if q' < q {
      QuotientsApart(q', q, m);
    }
  }

  /** A stretch shorter than the modulus whose end points keep their order keeps everything between them. */
  lemma ModBetween(lb: int, x: int, ub: int, m: int)
    requires m > 0 && lb <= x <= ub && ub - lb < m && lb % m <= ub % m
    ensures lb % m <= x % m <= ub % m
    ensures x % m == x - lb / m * m
  {
    DivMod(lb, m);
    DivMod(ub, m);
    SameStretch(lb / m, lb % m, ub / m, ub % m, m);
    ModUnique(x, lb / m, x - lb / m * m, m);
  }

  /** The signed reading is the unsigned one of a shifted number. */
  lemma SignExtendShift(x: int, width: nat)
    requires width > 0
    ensures SignExtend(x, width) == (x + Pow2(width - 1)) % Pow2(width) - Pow2(width - 1)
  {
    hide Pow2;
    var m, h := Pow2(width), Pow2(width - 1);
    Pow2Double(width);
    DivMod(x, m);
    var q, r := x / m, x % m;
    if r >= h {
      assert (q + 1) * m == q * m + m;
      ModUnique(x + h, q + 1, r + h - m, m);
    } else {
      ModUnique(x + h, q, r + h, m);
    }
  }

  /** Both readings of a number agree on the low bits. */
  lemma SignExtendMod(x: int, width: nat)
    requires width > 0
    ensures SignExtend(x, width) % Pow2(width) == x % Pow2(width)
  {
    hide Pow2;
    var m := Pow2(width);
    DivMod(x, m);
    if x % m >= Pow2(width - 1) {
      assert -1 * m == -m;
      ModUnique(x % m - m, -1, x % m, m);
    } else {
      assert 0 * m == 0;
      ModUnique(x % m, 0, x % m, m);
    }
  }
}
