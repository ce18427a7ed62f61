/** 64-bit register words and the conditions of conditional jumps (sections 4.1 and 4.3 of RFC 9669). */
module Words {
  import opened Numbers

  newtype Word = w: int | 0 <= w < 0x1_0000_0000_0000_0000

  datatype ConditionOp = EQ | NE | SET | NSET | LT | LE | GT | GE | SLT | SLE | SGT | SGE

  /** The word read as two's complement. */
  function S64(w: Word): int {
    if w as int >= TWO63 then w as int - TWO64 else w as int
  }

  /** The low 32 bits. */
  function Low(w: Word): int {
    w as int % TWO32
  }

  /** The low 32 bits read as two's complement. */
  function S32(w: Word): int {
    if Low(w) >= TWO31 then Low(w) - TWO32 else Low(w)
  }

  /** Bitwise and of two natural numbers. */
  function And(a: nat, b: nat): nat {
    if a == 0 || b == 0 then 0 else 2 * And(a / 2, b / 2) + (if a % 2 == 1 && b % 2 == 1 then 1 else 0)
  }

  /** The condition on two words; a 32-bit jump compares the low halves. */
  ghost predicate Holds(op: ConditionOp, is64: bool, d: Word, s: Word) {
    var ud, us := if is64 then d as int else Low(d), if is64 then s as int else Low(s);
    var sd, ss := if is64 then S64(d) else S32(d), if is64 then S64(s) else S32(s);
    match op
    case EQ => ud == us
    case NE => ud != us
    case SET => And(ud, us) != 0
    case NSET => And(ud, us) == 0
    case LT => ud < us
    case LE => ud <= us
    case GT => ud > us
    case GE => ud >= us
    case SLT => sd < ss
    case SLE => sd <= ss
    case SGT => sd > ss
    case SGE => sd >= ss
  }

  /** The two readings at the machine widths, on plain numbers. */
  lemma Extend64(x: int)
    ensures ZeroExtend(x, 64) == x % TWO64
    ensures SignExtend(x, 64) == if x % TWO64 >= TWO63 then x % TWO64 - TWO64 else x % TWO64
  {
    hide Pow2;
    Pow2Values();
  }

  lemma Extend32(x: int)
    ensures ZeroExtend(x, 32) == x % TWO32
    ensures SignExtend(x, 32) == if x % TWO32 >= TWO31 then x % TWO32 - TWO32 else x % TWO32
  {
    hide Pow2;
    Pow2Values();
  }

  /** Residues of the readings, by explicit quotients. */
  lemma Residues(w: Word)
    ensures w as int % TWO64 == w as int == S64(w) % TWO64
    ensures S64(w) % TWO32 == Low(w) && 0 <= Low(w) < TWO32
  {
    hide Low;
    var x := w as int;
    ModUnique(x, 0, x, TWO64);
    if x >= TWO63 {
      ModUnique(x - TWO64, -1, x, TWO64);
    }
    LowOfSigned(w);
  }

  lemma LowOfSigned(w: Word)
    ensures S64(w) % TWO32 == Low(w) && 0 <= Low(w) < TWO32
  {
    DivMod(w as int, TWO32);
    if w as int >= TWO63 {
      ModUnique(S64(w), w as int / TWO32 - TWO32, w as int % TWO32, TWO32);
    }
  }

  lemma ResiduesTwice(w: Word)
    ensures Low(w) % TWO64 == Low(w)
    ensures S32(w) % TWO64 == if S32(w) >= 0 then S32(w) else S32(w) + TWO64
    ensures -TWO31 <= S32(w) < TWO31
  {
    hide Low;
    Residues(w);
    ModUnique(Low(w), 0, Low(w), TWO64);
    if S32(w) >= 0 {
      ModUnique(S32(w), 0, S32(w), TWO64);
    } else {
      ModUnique(S32(w), -1, S32(w) + TWO64, TWO64);
    }
  }

  lemma Views64(w: Word)
    ensures SignExtend(w as int, 64) == S64(w) == SignExtend(S64(w), 64)
    ensures ZeroExtend(w as int, 64) == w as int == ZeroExtend(S64(w), 64)
  {
    hide SignExtend, ZeroExtend, Low;
    Extend64(w as int);
    Extend64(S64(w));
    Residues(w);
  }

  lemma Views32(w: Word)
    ensures SignExtend(w as int, 32) == S32(w) == SignExtend(S64(w), 32)
    ensures ZeroExtend(w as int, 32) == Low(w) == ZeroExtend(S64(w), 32)
  {
    hide SignExtend, ZeroExtend, S64, Low;
    Extend32(w as int);
    Extend32(S64(w));
    Residues(w);
    LowIs(w);
  }

  lemma LowIs(w: Word)
    ensures w as int % TWO32 == Low(w)
  {
  }

  lemma ViewsTwice(w: Word)
    ensures SignExtend(S32(w), 64) == S32(w)
    ensures ZeroExtend(Low(w), 64) == Low(w)
  {
    hide SignExtend, ZeroExtend, S32, Low;
    Extend64(S32(w));
    Extend64(Low(w));
    ResiduesTwice(w);
  }

  /** How the finite-width views of either 64-bit reading relate to the word. */
  lemma WordViews(w: Word)
    ensures SignExtend(w as int, 64) == S64(w) == SignExtend(S64(w), 64)
    ensures ZeroExtend(w as int, 64) == w as int == ZeroExtend(S64(w), 64)
    ensures SignExtend(w as int, 32) == S32(w) == SignExtend(S64(w), 32) == SignExtend(S32(w), 64)
    ensures ZeroExtend(w as int, 32) == Low(w) == ZeroExtend(S64(w), 32) == ZeroExtend(Low(w), 64)
  {
    hide *;
    Views64(w);
    Views32(w);
    ViewsTwice(w);
  }

  /** Masking one operand to its low bits masks the result. */
  lemma {:induction false} AndMod(a: nat, b: nat, k: nat)
    ensures And(a, b % Pow2(k)) == And(a % Pow2(k), b % Pow2(k))
  {
    if k > 0 && a != 0 && b != 0 {
      HalfMod(a, k);
      HalfMod(b, k);
      AndMod(a / 2, b / 2, k - 1);
    } else {
      ModOne(a);
      ModOne(b);
    }
  }

  lemma ModOne(a: nat)
    ensures a % 1 == 0 && 0 % 1 == 0
    ensures forall m: int :: m > 0 ==> 0 % m == 0
  {
  }

  lemma HalfMod(a: nat, k: nat)
    requires k > 0
    ensures 0 <= a % Pow2(k) && a % Pow2(k) % 2 == a % 2 && a % Pow2(k) / 2 == (a / 2) % Pow2(k - 1)
  {
    var m := Pow2(k - 1);
    var q, r := a / 2 / m, (a / 2) % m;
    DivMod(a / 2, m);
    assert a == q * (2 * m) + (2 * r + a % 2) by {
      assert q * (2 * m) == 2 * (q * m);
    }
    ModUnique(a, q, 2 * r + a % 2, 2 * m);
  }
}
