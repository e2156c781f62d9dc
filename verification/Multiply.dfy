/** `Mult` of the MIPS simulator: a 32 by 32 bit multiply done by shifting and
adding in two 32-bit halves. */
module Multiply {
  import opened Words

  /** The double word hi:lo. */
  function Join(hi: word, lo: word): nat { hi * 0x1_0000_0000 + lo }

  /** Adds double words half by half, finding the carry by comparison. */
  method AddDouble(hi0: word, lo0: word, bHi: word, bLo: word) returns (hi: word, lo: word)
    requires Join(hi0, lo0) + Join(bHi, bLo) < DWORD
    ensures Join(hi, lo) == Join(hi0, lo0) + Join(bHi, bLo)
  {
    hide Wrap;
    WrapOnce(lo0 + bLo);
    lo := Wrap(lo0 + bLo);
    hi := hi0;
    if lo < bLo {
      WrapOnce(hi + 1);
      hi := Wrap(hi + 1);
    }
    WrapOnce(hi + bHi);
    hi := Wrap(hi + bHi);
  }

  /** Shifts a double word left, carrying the top bit of the low half over. */
  method ShiftDouble(bHi0: word, bLo0: word) returns (bHi: word, bLo: word)
    requires 2 * Join(bHi0, bLo0) < DWORD
    ensures Join(bHi, bLo) == 2 * Join(bHi0, bLo0)
  {
    WrapOnce(2 * bHi0);
    WrapOnce(2 * bLo0);
    bHi := Wrap(2 * bHi0);
    if SignBit(bLo0) {
      bHi := bHi + 1;
    }
    bLo := Wrap(2 * bLo0);
  }

  /** Complementing both halves and incrementing negates modulo 2^64. */
  lemma NegateDouble(hi: word, lo: word)
    requires 0 < Join(hi, lo)
    ensures var lo' := Wrap(Not(lo) + 1);
            var hi' := if lo' == 0 then Wrap(Not(hi) + 1) else Not(hi);
            Join(hi', lo') == DWORD - Join(hi, lo)
  {
  }

  /** The double word read as a 64-bit two's complement number. */
  lemma SignedJoin(hi: word, lo: word)
    ensures Signed(hi) * WORD + lo == Join(hi, lo) - (if SignBit(hi) then DWORD else 0)
    ensures SignBit(hi) <==> Join(hi, lo) >= HALF * WORD
  {
  }

  /** What remains of the multiplier after i arithmetic right shifts: `rest` is
      its unsigned value, and the register holds it sign-extended. */
  ghost predicate Shifted(a: int, rest: nat, i: nat, negative: bool)
    requires i <= 32
  {
    && rest < Pow2(32 - i)
    && a == rest - (if negative then Pow2(32 - i) else 0)
  }

  lemma ShiftRight(a: int, rest: nat, i: nat, negative: bool)
    requires i < 32 && Shifted(a, rest, i, negative)
    ensures a % 2 == rest % 2
    ensures Shifted(a / 2, rest / 2, i + 1, negative)
  {
    assert Pow2(32 - i) == 2 * Pow2(31 - i);
  }

  lemma ProductBound(x: nat, y: nat, m: nat)
    requires x < m && y < m
    ensures x * y < m * m
  {
    SquareBound(x, y, m - 1);
    assert (m - 1) * (m - 1) < m * m;
  }

  /** x * y, kept away from the solver's nonlinear arithmetic. */
  function Times(x: nat, y: nat): nat { if x == 0 then 0 else y + Times(x - 1, y) }

  lemma {:induction false} TimesIsProduct(x: nat, y: nat)
    ensures Times(x, y) == x * y
  {
    if x > 0 {
      TimesIsProduct(x - 1, y);
    }
  }

  /** One round of the loop keeps accumulator + rest * multiplicand. */
  lemma Round(acc: nat, rest: nat, wide: nat, total: nat)
    requires acc + Times(rest, wide) == total
    ensures rest % 2 == 0 ==> acc + Times(rest / 2, 2 * wide) == total
    ensures rest % 2 == 1 ==> acc + wide + Times(rest / 2, 2 * wide) == total
    ensures rest == 1 ==> acc + wide == total
  {
    TimesIsProduct(rest, wide);
    TimesIsProduct(rest / 2, 2 * wide);
    assert rest == rest % 2 + 2 * (rest / 2);
    assert (rest % 2 + 2 * (rest / 2)) * wide == (rest % 2) * wide + (2 * (rest / 2)) * wide;
  }

  /** b shifted left i times. */
  function Scaled(b: nat, i: nat): nat { if i == 0 then b else 2 * Scaled(b, i - 1) }

  lemma {:induction false} ScaledBound(b: nat, i: nat, c: nat, j: nat)
    requires b <= c && i <= j
    ensures Scaled(b, i) <= Scaled(c, j)
  {
    if i == j {
      if i > 0 { ScaledBound(b, i - 1, c, j - 1); }
    } else {
      ScaledBound(b, i, c, j - 1);
    }
  }

  lemma {:induction false} ScaledIs(b: nat, i: nat)
    ensures Scaled(b, i) == b * Pow2(i)
  {
    if i > 0 {
      ScaledIs(b, i - 1);
      assert b * (2 * Pow2(i - 1)) == 2 * (b * Pow2(i - 1));
    }
  }

  /** The multiplicand fits a double word in every round. */
  lemma ScaledFits(b: word, i: nat)
    requires i <= 32
    ensures Scaled(b, i) < DWORD
  {
    ScaledBound(b, i, 0xffff_ffff, 32);
    ScaledIs(0xffff_ffff, 32);
    Powers();
  }

  /** The shift-and-add loop. The multiplier sits in an `int`, so its right
      shift copies the sign bit; the product is the unsigned one all the same. */
  method ShiftAdd(x: word, b: word) returns (hi: word, lo: word)
    ensures Join(hi, lo) == x * b
  {
    var a := Signed(x);
    var bLo: word, bHi: word := b, 0;
    lo, hi := 0, 0;
    ghost var rest: nat, wide: nat := x, b;
    ghost var total := Times(x, b);
    TimesIsProduct(x, b);
    ProductBound(x, b, WORD);
    Powers();
    var i := 0;
    while i < 32
      invariant 0 <= i <= 32
      invariant Shifted(a, rest, i, SignBit(x))
      invariant Join(bHi, bLo) == wide == Scaled(b, i)
      invariant Join(hi, lo) + Times(rest, wide) == total < DWORD
    {
      Round(Join(hi, lo), rest, wide, total);
      ShiftRight(a, rest, i, SignBit(x));
      ScaledFits(b, i + 1);
      if a % 2 == 1 {
        hi, lo := AddDouble(hi, lo, bHi, bLo);
        if a == 0 || a == 1 {
          LastBit(a, rest, i, SignBit(x));
          return;
        }
      }
      bHi, bLo := ShiftDouble(bHi, bLo);
      a := a / 2;
      rest, wide := rest / 2, 2 * wide;
      i := i + 1;
    }
    assert rest == 0;
  }

  /** The early exit `(a & 0xfffffffe) == 0` is taken only with no bits left. */
  lemma LastBit(a: int, rest: nat, i: nat, negative: bool)
    requires i < 32 && Shifted(a, rest, i, negative) && 0 <= a <= 1
    ensures rest == a
  {
  }

  /** The magnitude the sign step leaves in the register: for the most negative
      value `-a` wraps back to itself, which as unsigned is the right one. */
  function Magnitude(w: word): word { if SignBit(w) then Wrap(WORD - w) else w }

  lemma MagnitudeIsAbsolute(w: word)
    ensures Magnitude(w) == if Signed(w) < 0 then -Signed(w) else Signed(w)
    ensures Magnitude(w) <= HALF
  {
  }

  /** `Mult`: hi:lo is the exact 64-bit product, in two's complement when the
      arithmetic is signed. */
  method Mult(a: word, b: word, signedArith: bool) returns (hi: word, lo: word)
    ensures !signedArith ==> Join(hi, lo) == a * b
    ensures signedArith ==> Signed(hi) * WORD + lo == Signed(a) * Signed(b)
  {
    if a == 0 || b == 0 {
      return 0, 0;
    }
    var negative := false;
    var x, y := a, b;
    if signedArith {
      MagnitudeIsAbsolute(a);
      MagnitudeIsAbsolute(b);
      if SignBit(x) {
        negative := !negative;
        x := Wrap(WORD - x);
      }
      if SignBit(y) {
        negative := !negative;
        y := Wrap(WORD - y);
      }
    }
    hi, lo := ShiftAdd(x, y);
    if signedArith {
      SignedProduct(a, b, x, y);
      SignedJoin(hi, lo);
    }
    if negative {
      hi, lo := Negate(hi, lo);
    }
  }

  /** Two's complement of the double word. */
  method Negate(hi0: word, lo0: word) returns (hi: word, lo: word)
    requires 0 < Join(hi0, lo0) < HALF * WORD
    ensures Signed(hi) * WORD + lo == 0 - Join(hi0, lo0)
  {
    NegateDouble(hi0, lo0);
    hi := Not(hi0);
    lo := Not(lo0);
    lo := Wrap(lo + 1);
    if lo == 0 {
      hi := Wrap(hi + 1);
    }
    SignedJoin(hi, lo);
  }

  lemma SignedProduct(a: word, b: word, x: word, y: word)
    requires a != 0 && b != 0 && x == Magnitude(a) && y == Magnitude(b)
    ensures 0 < x * y <= 0x4000_0000_0000_0000
    ensures Signed(a) * Signed(b) == if SignBit(a) == SignBit(b) then x * y else -(x * y)
  {
    MagnitudeIsAbsolute(a);
    MagnitudeIsAbsolute(b);
    SignsOfProduct(x, y);
    SquareBound(x, y, HALF);
  }

  lemma SignsOfProduct(x: int, y: int)
    ensures (-x) * y == -(x * y) && x * (-y) == -(x * y) && (-x) * (-y) == x * y
    ensures x > 0 && y > 0 ==> x * y > 0
  {
  }

  lemma SquareBound(x: nat, y: nat, m: nat)
    requires x <= m && y <= m
    ensures x * y <= m * m
  {
    assert x * (m - y) >= 0;
    assert (m - x) * m >= 0;
  }
}
