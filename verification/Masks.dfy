/** The masks and shifts with which LWL, LWR, SWL and SWR merge two words
(machine/mipssim.cc), and the bytes they move. */
module Masks {
  import opened Words
  import opened Isa
  import opened Mips

  /** The remainder by an even number, one bit at a time. */
  lemma HalfMod(x: nat, p: nat)
    requires p > 0
    ensures x % (2 * p) == 2 * (x / 2 % p) + x % 2
  {
    var q, r, b := x / 2 / p, x / 2 % p, x % 2;
    assert x == 2 * (p * q + r) + b;
    assert x == 2 * p * q + (2 * r + b);
    DivMod(x, 2 * p, q, 2 * r + b);
  }

  /** The low n bits. */
  function Low(x: nat, n: nat): (r: nat)
    ensures r <= x && r < Pow2(n)
  {
    if n == 0 then 0 else 2 * Low(x / 2, n - 1) + x % 2
  }

  lemma {:induction false} LowIsMod(x: nat, n: nat)
    ensures Low(x, n) == x % Pow2(n)
    decreases n
  {
    if n > 0 {
      LowIsMod(x / 2, n - 1);
      var p := Pow2(n - 1);
      HalfMod(x, p);
      hide Pow2;
    }
  }

  lemma LowStep(x: nat, n: nat)
    ensures if n == 0 then Pow2(n) == 1 && Low(x, n) == 0
            else Pow2(n) == 2 * Pow2(n - 1) && Low(x, n) == 2 * Low(x / 2, n - 1) + x % 2
  {
  }

  lemma AndOdd(x: nat, h: nat)
    ensures BitAnd(x, 2 * h + 1) == 2 * BitAnd(x / 2, h) + x % 2
  {
    DivMod(2 * h + 1, 2, h, 1);
  }

  lemma AndEven(x: nat, h: nat)
    ensures BitAnd(x, 2 * h) == 2 * BitAnd(x / 2, h)
  {
    DivMod(2 * h, 2, h, 0);
  }

  /** Masking with 2^n - 1 keeps the low n bits. */
  lemma {:induction false} MaskLow(x: nat, n: nat)
    ensures BitAnd(x, Pow2(n) - 1) == Low(x, n)
    decreases n
  {
    hide BitAnd; hide Pow2; hide Low;
    LowStep(x, n);
    if n == 0 {
      MaskNone(x);
    } else {
      MaskLow(x / 2, n - 1);
      AndOdd(x, Pow2(n - 1) - 1);
    }
  }

  lemma {:induction false} MaskNone(x: nat)
    ensures BitAnd(x, 0) == 0
  {
    if x > 0 {
      MaskNone(x / 2);
    }
  }

  /** Masking an m-bit number with 2^m - 2^n clears the low n bits. */
  lemma {:induction false} MaskHigh(x: nat, n: nat, m: nat)
    requires n <= m && x < Pow2(m)
    ensures Pow2(n) <= Pow2(m) && BitAnd(x, Pow2(m) - Pow2(n)) == x - Low(x, n)
    decreases n
  {
    hide BitAnd; hide Pow2; hide Low;
    Pow2Grows(n, m);
    LowStep(x, n);
    LowStep(x, m);
    if n == 0 {
      MaskLow(x, m);
      LowIsAll(x, m);
    } else {
      MaskHigh(x / 2, n - 1, m - 1);
      AndEven(x, Pow2(m - 1) - Pow2(n - 1));
    }
  }

  lemma {:induction false} LowIsAll(x: nat, n: nat)
    requires x < Pow2(n)
    ensures Low(x, n) == x
  {
    if n > 0 {
      LowIsAll(x / 2, n - 1);
    }
  }

  lemma {:induction false} Pow2Grows(n: nat, m: nat)
    requires n <= m
    ensures Pow2(n) <= Pow2(m)
    decreases m
  {
    if n < m {
      Pow2Grows(n, m - 1);
    }
  }

  /** Numbers without a common bit are or-ed by adding. */
  lemma {:induction false} OrApart(q: nat, r: nat, n: nat)
    requires r < Pow2(n)
    ensures BitOr(q * Pow2(n), r) == q * Pow2(n) + r && BitOr(r, q * Pow2(n)) == q * Pow2(n) + r
    decreases n
  {
    if n == 0 {
      OrNothing(q);
    } else {
      var p := Pow2(n - 1);
      var x := q * Pow2(n);
      assert x == 2 * (q * p);
      assert x / 2 == q * p && x % 2 == 0;
      OrApart(q, r / 2, n - 1);
    }
  }

  lemma {:induction false} OrNothing(x: nat)
    ensures BitOr(x, 0) == x && BitOr(0, x) == x
  {
    if x > 0 {
      OrNothing(x / 2);
    }
  }

  /** The masks of the code, on words. */
  lemma WordMasks(x: word)
    ensures BitAnd(x, 0xff) == x % 0x100 && BitAnd(x, 0xffff_ff00) == x - x % 0x100
    ensures BitAnd(x, 0xffff) == x % 0x1_0000 && BitAnd(x, 0xffff_0000) == x - x % 0x1_0000
    ensures BitAnd(x, 0xff_ffff) == x % 0x100_0000 && BitAnd(x, 0xff00_0000) == x - x % 0x100_0000
  {
    hide Pow2; hide Low; hide BitAnd;
    Powers();
    MaskLow(x, 8); MaskLow(x, 16); MaskLow(x, 24);
    MaskHigh(x, 8, 32); MaskHigh(x, 16, 32); MaskHigh(x, 24, 32);
    LowIsMod(x, 8); LowIsMod(x, 16); LowIsMod(x, 24);
  }

  lemma WordOrs(q: nat, r: nat)
    ensures r < 0x100 ==> BitOr(0x100 * q, r) == BitOr(r, 0x100 * q) == 0x100 * q + r
    ensures r < 0x1_0000 ==> BitOr(0x1_0000 * q, r) == BitOr(r, 0x1_0000 * q) == 0x1_0000 * q + r
    ensures r < 0x100_0000 ==> BitOr(0x100_0000 * q, r) == BitOr(r, 0x100_0000 * q) == 0x100_0000 * q + r
  {
    hide Pow2; hide BitOr;
    Powers();
    if r < 0x100 { OrApart(q, r, 8); }
    if r < 0x1_0000 { OrApart(q, r, 16); }
    if r < 0x100_0000 { OrApart(q, r, 24); }
  }

  /* The merges, as the code writes them. `lane` is its `byte`. */

  function ShiftedRight(v: word, d: int): word
    requires d > 0
  {
    Wrap(Signed(v) / d)  // the operand is a signed int
  }

  /** The value LWL or LWR leaves for rt: v was read from memory, `was` is rt. */
  function MergedLoad(left: bool, lane: nat, v: word, was: word): nat
    requires lane < 4
  {
    match (left, 3 - lane)
    case (true, 1) => BitOr(BitAnd(was, 0xff), Wrap(0x100 * v))
    case (true, 2) => BitOr(BitAnd(was, 0xffff), Wrap(0x1_0000 * v))
    case (true, 3) => BitOr(BitAnd(was, 0xff_ffff), Wrap(0x100_0000 * v))
    case (false, 0) => BitOr(BitAnd(was, 0xffff_ff00), BitAnd(ShiftedRight(v, 0x100_0000), 0xff))
    case (false, 1) => BitOr(BitAnd(was, 0xffff_0000), BitAnd(ShiftedRight(v, 0x1_0000), 0xffff))
    case (false, 2) => BitOr(BitAnd(was, 0xff00_0000), BitAnd(ShiftedRight(v, 0x100), 0xff_ffff))
    case _ => v
  }

  /** The word SWL or SWR writes back: v was read from memory, r is rt. */
  function MergedStore(left: bool, lane: nat, v: word, r: word): nat
    requires lane < 4
  {
    match (left, 3 - lane)
    case (true, 1) => BitOr(BitAnd(v, 0xff00_0000), BitAnd(ShiftedRight(r, 0x100), 0xff_ffff))
    case (true, 2) => BitOr(BitAnd(v, 0xffff_0000), BitAnd(ShiftedRight(r, 0x1_0000), 0xffff))
    case (true, 3) => BitOr(BitAnd(v, 0xffff_ff00), BitAnd(ShiftedRight(r, 0x100_0000), 0xff))
    case (false, 0) => BitOr(BitAnd(v, 0xff_ffff), Wrap(0x100_0000 * r))
    case (false, 1) => BitOr(BitAnd(v, 0xffff), Wrap(0x1_0000 * r))
    case (false, 2) => BitOr(BitAnd(v, 0xff), Wrap(0x100 * r))
    case _ => r
  }

  /** A word cut after its first, second or third byte. */
  lemma Cuts(v: word)
    ensures v % 0x100 == Byte0(v) && v / 0x100 == Byte1(v) + 0x100 * (Byte2(v) + 0x100 * Byte3(v))
    ensures v % 0x1_0000 == Byte0(v) + 0x100 * Byte1(v) && v / 0x1_0000 == Byte2(v) + 0x100 * Byte3(v)
    ensures v % 0x100_0000 == Byte0(v) + 0x100 * (Byte1(v) + 0x100 * Byte2(v)) && v / 0x100_0000 == Byte3(v)
  {
    BytesOfWord(v);
    var b0: int, b1: int, b2: int, b3: int := Byte0(v), Byte1(v), Byte2(v), Byte3(v);
    hide Byte0; hide Byte1; hide Byte2; hide Byte3;
    DivMod(v, 0x100, b1 + 0x100 * (b2 + 0x100 * b3), b0);
    DivMod(v, 0x1_0000, b2 + 0x100 * b3, b0 + 0x100 * b1);
    DivMod(v, 0x100_0000, b3, b0 + 0x100 * (b1 + 0x100 * b2));
  }

  /** d and e cut a word in two. */
  predicate Cut(d: int, e: int) {
    (d == 0x100 && e == 0x100_0000) || (d == 0x1_0000 && e == 0x1_0000) || (d == 0x100_0000 && e == 0x100)
  }

  /** Shifting left drops the high bytes. */
  lemma ShiftLeft(v: word, d: int, e: int)
    requires Cut(d, e)
    ensures Wrap(d * v) == d * (v % e)
  {
    DivMod(d * v, 0x1_0000_0000, v / e, d * (v % e));
  }

  lemma ShiftNegative(q: int, r: int, d: int, e: int)
    requires d > 0 && e > 0 && d * e == 0x1_0000_0000 && 0 <= r < d && 0 <= q < e
    ensures Wrap((d * q + r - 0x1_0000_0000) / d) % e == q
  {
    assert d * (q - e) == d * q - d * e;
    assert e * (d - 1) == d * e - e;
    DivMod(d * q + r - 0x1_0000_0000, d, q - e, r);
    DivMod(q - e, 0x1_0000_0000, -1, q - e + 0x1_0000_0000);
    DivMod(q - e + 0x1_0000_0000, e, d - 1, q);
  }

  /** Shifting right and masking the copies of the sign leaves the high bytes. */
  lemma ShiftRight(v: word, d: int, e: int)
    requires Cut(d, e)
    ensures ShiftedRight(v, d) % e == v / d
  {
    assert d * e == 0x1_0000_0000;
    var q, r := v / d, v % d;
    assert v == d * q + r && 0 <= q < e;
    if Signed(v) >= 0 {
      DivMod(q, 0x1_0000_0000, 0, q);
      DivMod(q, e, 0, q);
    } else {
      ShiftNegative(q, r, d, e);
    }
  }

  lemma Parts(v: word)
    ensures BitAnd(ShiftedRight(v, 0x100), 0xff_ffff) == v / 0x100
    ensures BitAnd(ShiftedRight(v, 0x1_0000), 0xffff) == v / 0x1_0000
    ensures BitAnd(ShiftedRight(v, 0x100_0000), 0xff) == v / 0x100_0000
    ensures Wrap(0x100 * v) == 0x100 * (v % 0x100_0000)
    ensures Wrap(0x1_0000 * v) == 0x1_0000 * (v % 0x1_0000)
    ensures Wrap(0x100_0000 * v) == 0x100_0000 * (v % 0x100)
  {
    hide ShiftedRight; hide BitAnd; hide Wrap;
    ShiftRight(v, 0x100, 0x100_0000); ShiftRight(v, 0x1_0000, 0x1_0000); ShiftRight(v, 0x100_0000, 0x100);
    WordMasks(ShiftedRight(v, 0x100)); WordMasks(ShiftedRight(v, 0x1_0000)); WordMasks(ShiftedRight(v, 0x100_0000));
    ShiftLeft(v, 0x100, 0x100_0000); ShiftLeft(v, 0x1_0000, 0x1_0000); ShiftLeft(v, 0x100_0000, 0x100);
  }

  /** The low bytes of one word under the low bytes of another, shifted up. */
  lemma OrLow(low: word, high: word)
    ensures BitOr(BitAnd(low, 0xff), Wrap(0x100 * high)) == low % 0x100 + 0x100 * (high % 0x100_0000)
    ensures BitOr(BitAnd(low, 0xffff), Wrap(0x1_0000 * high)) == low % 0x1_0000 + 0x1_0000 * (high % 0x1_0000)
    ensures BitOr(BitAnd(low, 0xff_ffff), Wrap(0x100_0000 * high)) == low % 0x100_0000 + 0x100_0000 * (high % 0x100)
  {
    hide BitOr; hide BitAnd; hide Wrap;
    WordMasks(low);
    Parts(high);
    WordOrs(high % 0x100_0000, low % 0x100);
    WordOrs(high % 0x1_0000, low % 0x1_0000);
    WordOrs(high % 0x100, low % 0x100_0000);
  }

  /** The high bytes of one word over the high bytes of another, shifted down. */
  lemma OrHigh(high: word, low: word)
    ensures BitOr(BitAnd(high, 0xffff_ff00), BitAnd(ShiftedRight(low, 0x100_0000), 0xff))
         == 0x100 * (high / 0x100) + low / 0x100_0000
    ensures BitOr(BitAnd(high, 0xffff_0000), BitAnd(ShiftedRight(low, 0x1_0000), 0xffff))
         == 0x1_0000 * (high / 0x1_0000) + low / 0x1_0000
    ensures BitOr(BitAnd(high, 0xff00_0000), BitAnd(ShiftedRight(low, 0x100), 0xff_ffff))
         == 0x100_0000 * (high / 0x100_0000) + low / 0x100
  {
    hide BitOr; hide BitAnd; hide ShiftedRight;
    WordMasks(high);
    Parts(low);
    WordOrs(high / 0x100, low / 0x100_0000);
    WordOrs(high / 0x1_0000, low / 0x1_0000);
    WordOrs(high / 0x100_0000, low / 0x100);
  }

  /** The masks and shifts of LWL and LWR move the bytes of `LoadResult`. */
  lemma LoadsMergeBytes(left: bool, lane: nat, v: word, was: word)
    requires lane < 4
    ensures MergedLoad(left, lane, v, was) == LoadResult(if left then Left else Right, lane, v, was)
  {
    hide BitOr; hide BitAnd; hide ShiftedRight; hide Wrap; hide Byte0; hide Byte1; hide Byte2; hide Byte3;
    Cuts(v);
    Cuts(was);
    OrLow(was, v);
    OrHigh(was, v);
  }

  /** Those of SWL and SWR move the bytes of `MergeStore`. */
  lemma StoresMergeBytes(left: bool, lane: nat, v: word, r: word)
    requires lane < 4
    ensures MergedStore(left, lane, v, r) == MergeStore(left, lane, v, r)
  {
    hide BitOr; hide BitAnd; hide ShiftedRight; hide Wrap; hide Byte0; hide Byte1; hide Byte2; hide Byte3;
    Cuts(v);
    Cuts(r);
    OrLow(v, r);
    OrHigh(v, r);
  }

  /** LB and LBU give the same whether the host reads a char as signed or not. */
  lemma CharSignUnseen(signed: bool, lane: nat, b: byte, was: word)
    ensures LoadResult(Byte(signed), lane, b, was)
         == LoadResult(Byte(signed), lane, if b < 0x80 then b else 0xffff_ff00 + b, was)
  {
    DivMod(b, 0x100, 0, b);
    DivMod(0xffff_ff00 + b, 0x100, 0xff_ffff, b);
  }
}
