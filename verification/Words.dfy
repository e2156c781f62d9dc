/** The 32-bit integers of the simulated hardware.

A register or memory word is held as its unsigned value. `Wrap` is the
truncation every C `int` or `unsigned` operation performs, `Signed` the value
the same bits have when the C code treats them as an `int`. */
module Words {

  const WORD: int := 0x1_0000_0000
  const HALF: int := 0x8000_0000
  const DWORD: int := 0x1_0000_0000_0000_0000

  type word = x: int | 0 <= x < 0x1_0000_0000
  type byte = x: int | 0 <= x < 0x100

  function Wrap(x: int): word { x % 0x1_0000_0000 }

  /** A value less than two words wraps by at most one subtraction. */
  lemma WrapOnce(x: int)
    requires 0 <= x < 0x2_0000_0000
    ensures Wrap(x) == if x < 0x1_0000_0000 then x else x - 0x1_0000_0000
  {
  }

  function Signed(w: word): int { if w < 0x8000_0000 then w else w - 0x1_0000_0000 }

  /** The test `x & SIGN_BIT`. */
  predicate SignBit(w: word) { w >= 0x8000_0000 }

  /** Bitwise operations, one bit at a time. */
  function BitAnd(x: nat, y: nat): (r: nat)
    ensures r <= x
  {
    if x == 0 then 0 else 2 * BitAnd(x / 2, y / 2) + (if x % 2 == 1 && y % 2 == 1 then 1 else 0)
  }

  function BitOr(x: nat, y: nat): nat
    decreases x + y
  {
    if x == 0 && y == 0 then 0 else 2 * BitOr(x / 2, y / 2) + (if x % 2 == 1 || y % 2 == 1 then 1 else 0)
  }

  function BitXor(x: nat, y: nat): nat
    decreases x + y
  {
    if x == 0 && y == 0 then 0 else 2 * BitXor(x / 2, y / 2) + (if x % 2 != y % 2 then 1 else 0)
  }

  /** Bits no operand has, no result has. */
  lemma {:induction false} BitsFit(x: nat, y: nat, n: nat)
    requires x < Pow2(n) && y < Pow2(n)
    ensures BitOr(x, y) < Pow2(n) && BitXor(x, y) < Pow2(n)
    decreases n
  {
    if n > 0 {
      BitsFit(x / 2, y / 2, n - 1);
    }
  }

  function And(x: word, y: word): word { BitAnd(x, y) }

  function Or(x: word, y: word): word { Powers(); BitsFit(x, y, 32); BitOr(x, y) }

  function Xor(x: word, y: word): word { Powers(); BitsFit(x, y, 32); BitXor(x, y) }

  /** Bitwise complement. */
  function Not(x: word): word { 0xffff_ffff - x }

  function Pow2(n: nat): (r: nat)
    ensures r > 0
  {
    if n == 0 then 1 else 2 * Pow2(n - 1)
  }

  lemma Powers()
    ensures Pow2(8) == 0x100 && Pow2(16) == 0x1_0000 && Pow2(24) == 0x100_0000 && Pow2(32) == 0x1_0000_0000
  {
    assert Pow2(4) == 16;
    assert Pow2(8) == 256;
    assert Pow2(12) == 4096;
    assert Pow2(16) == 65536;
    assert Pow2(20) == 0x10_0000;
    assert Pow2(24) == 0x100_0000;
    assert Pow2(28) == 0x1000_0000;
  }

  /** Both sums of equal-signed operands overflow exactly when the result does
      not fit an `int`; this is what the sign comparison in OP_ADD tests. */
  predicate AddOverflows(x: word, y: word) {
    SignBit(x) == SignBit(y) && SignBit(x) != SignBit(Wrap(x + y))
  }

  predicate SubOverflows(x: word, y: word) {
    SignBit(x) != SignBit(y) && SignBit(x) != SignBit(Wrap(x - y))
  }

  /** Little-endian bytes of a word. */
  function Byte0(w: word): byte { w % 0x100 }
  function Byte1(w: word): byte { w / 0x100 % 0x100 }
  function Byte2(w: word): byte { w / 0x100 / 0x100 % 0x100 }
  function Byte3(w: word): byte { w / 0x100 / 0x100 / 0x100 }

  function WordByte(w: word, k: int): byte
    requires 0 <= k < 4
  {
    if k == 0 then Byte0(w) else if k == 1 then Byte1(w) else if k == 2 then Byte2(w) else Byte3(w)
  }

  function FromBytes(b0: byte, b1: byte, b2: byte, b3: byte): word {
    b0 + 0x100 * (b1 + 0x100 * (b2 + 0x100 * b3))
  }

  lemma BytesOfWord(w: word)
    ensures FromBytes(Byte0(w), Byte1(w), Byte2(w), Byte3(w)) == w
  {
  }

  lemma WordOfBytes(b0: byte, b1: byte, b2: byte, b3: byte)
    ensures var w := FromBytes(b0, b1, b2, b3);
            Byte0(w) == b0 && Byte1(w) == b1 && Byte2(w) == b2 && Byte3(w) == b3
  {
    DivideOut(b0, b1 + 0x100 * (b2 + 0x100 * b3));
    DivideOut(b1, b2 + 0x100 * b3);
    DivideOut(b2, b3);
  }

  lemma {:induction false} TimesGrows(d: int, a: int, b: int)
    requires d > 0
    ensures a < b ==> d * a + d <= d * b
    decreases b - a
  {
    if a + 1 < b {
      TimesGrows(d, a, b - 1);
      assert d * b == d * (b - 1) + d;
    } else if a + 1 == b {
      assert d * b == d * a + d;
    }
  }

  /** Quotient and remainder are what the division equation says. */
  lemma DivMod(v: int, d: int, q: int, r: int)
    requires v == d * q + r && 0 <= r < d
    ensures v / d == q && v % d == r
  {
    TimesGrows(d, q, v / d);
    TimesGrows(d, v / d, q);
  }

  lemma DivideOut(low: byte, high: nat)
    ensures (low + 0x100 * high) / 0x100 == high
    ensures (low + 0x100 * high) % 0x100 == low
  {
  }
}
