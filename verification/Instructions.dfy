/** What every instruction leaves behind, said by the equations the architecture
gives rather than by the functions the switch is made of. */
module Instructions {
  import opened Words
  import opened Memory
  import opened Isa
  import opened Mips
  import opened Masks

  /** The registers after an instruction that completed: `value` went to
      register `dest`, the pending load landed after it, R0 stayed zero, hi and
      lo are as given, and the counters moved on to `target`. */
  ghost predicate Advances(c: Cpu, d: Cpu, dest: reg, value: word, hi: word, lo: word, target: word)
    requires |c.gpr| == 32
  {
    && |d.gpr| == 32
    && (forall r: reg :: d.gpr[r] == if r == 0 then 0 else if r == c.loadReg then c.loadValue
                                     else if r == dest then value else c.gpr[r])
    && d.hi == hi && d.lo == lo && d.badVAddr == c.badVAddr
    && d.prevPc == c.pc && d.pc == c.nextPc && d.nextPc == target
  }

  /** It did not touch memory: that, the translations and the load unit rest. */
  ghost predicate Retires(h: Hardware, o: Outcome, dest: reg, value: word, hi: word, lo: word, target: word)
    requires |h.cpu.gpr| == 32
  {
    && o.Done? && o.state.memory == h.memory && o.state.table == h.table
    && Advances(h.cpu, o.state.cpu, dest, value, hi, lo, target)
    && o.state.cpu.loadReg == 0 && o.state.cpu.loadValue == 0
  }

  lemma AluRetires(i: Instruction, h: Hardware)
    requires Sound(h) && ClassOf(i.op).Alu?
    ensures var c := h.cpu;
            if AluTraps(i.op, c.gpr[i.rs], c.gpr[i.rt], i.extra) then Exec(i, h) == Raise(h, OverflowException, 0)
            else Retires(h, Exec(i, h), AluDest(i),
                         AluResult(i.op, c.gpr[i.rs], c.gpr[i.rt], i.extra, c.hi, c.lo), c.hi, c.lo, Wrap(c.nextPc + 4))
  {
    hide AluResult; hide AluTraps; hide AluDest; hide Wrap;
  }

  lemma HiLoRetires(i: Instruction, h: Hardware)
    requires Sound(h) && ClassOf(i.op).HiLo?
    ensures var c := h.cpu; var r := HiLoResult(i.op, c.gpr[i.rs], c.gpr[i.rt], c.hi, c.lo);
            Retires(h, Exec(i, h), 0, 0, r.0, r.1, Wrap(c.nextPc + 4))
  {
    hide HiLoResult; hide Wrap;
  }

  lemma BranchRetires(i: Instruction, h: Hardware)
    requires Sound(h) && ClassOf(i.op).Branch?
    ensures var c := h.cpu; var l := LinkOf(i);
            Retires(h, Exec(i, h), if l == [] then 0 else l[0], if l == [] then 0 else Wrap(c.nextPc + 4), c.hi, c.lo,
                    JumpTarget(i, c.gpr[i.rs], c.gpr[i.rt], c.nextPc))
  {
    hide JumpTarget; hide LinkOf; hide Wrap;
  }

  /* Sums and differences. */

  /** Only the residue of a number matters to truncation. */
  lemma WrapSame(x: int, k: int)
    ensures Wrap(x + 0x1_0000_0000 * k) == Wrap(x)
  {
    DivMod(x + 0x1_0000_0000 * k, 0x1_0000_0000, x / 0x1_0000_0000 + k, x % 0x1_0000_0000);
  }

  /** A number that fits an int is the signed value of its truncation. */
  lemma SignedWrap(x: int)
    requires -HALF <= x < HALF
    ensures Signed(Wrap(x)) == x
  {
  }

  predicate Fits(x: int) { -HALF <= x < HALF }

  lemma SumOfWords(x: word, y: word)
    ensures Wrap(Wrap(x + y) - y) == x && Wrap(Wrap(x - y) + y) == x
    ensures Fits(Signed(x) + Signed(y)) ==> Signed(Wrap(x + y)) == Signed(x) + Signed(y)
    ensures Fits(Signed(x) - Signed(y)) ==> Signed(Wrap(x - y)) == Signed(x) - Signed(y)
  {
    WrapNear(x + y);
    WrapNear(x - y);
    WrapNear(Wrap(x + y) - y);
    WrapNear(Wrap(x - y) + y);
    hide Wrap;
  }

  lemma WrapNear(x: int)
    requires -0x1_0000_0000 <= x < 0x2_0000_0000
    ensures Wrap(x) == if x < 0 then x + 0x1_0000_0000 else if x < 0x1_0000_0000 then x else x - 0x1_0000_0000
  {
  }

  /** ADD, ADDU, ADDI, ADDIU. The first of each pair traps exactly when the sum
      of the signed operands does not fit; a sum that fits is exact, and any
      other wraps, so that taking the addend away gives the register back. */
  lemma ExecAdd(i: Instruction, h: Hardware) returns (v: word)
    requires Sound(h) && i.op in {ADD, ADDU, ADDI, ADDIU}
    ensures var c, o := h.cpu, Exec(i, h);
            var immediate := i.op in {ADDI, ADDIU};
            var x: word, y: word := c.gpr[i.rs], if immediate then i.extra else c.gpr[i.rt];
            if i.op in {ADD, ADDI} && !Fits(Signed(x) + Signed(y)) then o.Trapped? && o.exception == OverflowException
            else && Retires(h, o, if immediate then i.rt else i.rd, v, c.hi, c.lo, Wrap(c.nextPc + 4))
                 && Wrap(v - y) == x && (Fits(Signed(x) + Signed(y)) ==> Signed(v) == Signed(x) + Signed(y))
  {
    hide Exec; hide Retires; hide Wrap; hide Signed; hide AddOverflows;
    var c := h.cpu;
    var y: word := if i.op in {ADDI, ADDIU} then i.extra else c.gpr[i.rt];
    AluRetires(i, h);
    OverflowIsExact(c.gpr[i.rs], y);
    SumOfWords(c.gpr[i.rs], y);
    v := AluResult(i.op, c.gpr[i.rs], c.gpr[i.rt], i.extra, c.hi, c.lo);
  }

  /** SUB and SUBU, likewise. */
  lemma ExecSubtract(i: Instruction, h: Hardware) returns (v: word)
    requires Sound(h) && i.op in {SUB, SUBU}
    ensures var c, o := h.cpu, Exec(i, h);
            var x: word, y: word := c.gpr[i.rs], c.gpr[i.rt];
            if i.op == SUB && !Fits(Signed(x) - Signed(y)) then o.Trapped? && o.exception == OverflowException
            else && Retires(h, o, i.rd, v, c.hi, c.lo, Wrap(c.nextPc + 4))
                 && Wrap(v + y) == x && (Fits(Signed(x) - Signed(y)) ==> Signed(v) == Signed(x) - Signed(y))
  {
    hide Exec; hide Retires; hide Wrap; hide Signed; hide SubOverflows;
    var c := h.cpu;
    AluRetires(i, h);
    OverflowIsExact(c.gpr[i.rs], c.gpr[i.rt]);
    SumOfWords(c.gpr[i.rs], c.gpr[i.rt]);
    v := AluResult(i.op, c.gpr[i.rs], c.gpr[i.rt], i.extra, c.hi, c.lo);
  }

  /* Comparisons. */

  /** SLT and SLTI compare as integers, SLTU and SLTIU as naturals; the
      immediate of SLTIU is sign-extended first. */
  lemma ExecSetLess(i: Instruction, h: Hardware)
    requires Sound(h) && i.op in {SLT, SLTI, SLTU, SLTIU}
    ensures var c := h.cpu;
            var immediate := i.op in {SLTI, SLTIU};
            var x: word, y: word := c.gpr[i.rs], if immediate then i.extra else c.gpr[i.rt];
            var less := if i.op in {SLT, SLTI} then Signed(x) < Signed(y) else x < y;
            Retires(h, Exec(i, h), if immediate then i.rt else i.rd, if less then 1 else 0, c.hi, c.lo, Wrap(c.nextPc + 4))
  {
    hide Exec; hide Retires; hide Wrap; hide Signed;
    AluRetires(i, h);
  }

  /* Shifts. */

  /** SLL and SLLV: the shifted-out bits and the result make up the product. */
  lemma ExecShiftLeft(i: Instruction, h: Hardware) returns (v: word, out: nat)
    requires Sound(h) && i.op in {SLL, SLLV}
    ensures var c := h.cpu;
            var n: nat := if i.op == SLL then i.extra else c.gpr[i.rs] % 32;
            && Retires(h, Exec(i, h), i.rd, v, c.hi, c.lo, Wrap(c.nextPc + 4))
            && c.gpr[i.rt] as int * Pow2(n) == 0x1_0000_0000 * out + v && out < Pow2(n)
  {
    hide Exec; hide Retires; hide Pow2; hide Wrap;
    AluRetires(i, h);
    var c := h.cpu;
    v := AluResult(i.op, c.gpr[i.rs], c.gpr[i.rt], i.extra, c.hi, c.lo);
    var n: nat := if i.op == SLL then i.extra else c.gpr[i.rs] % 32;
    out := ShiftedOut(c.gpr[i.rt], Pow2(n));
  }

  lemma ShiftedOut(x: word, p: nat) returns (out: nat)
    requires p > 0
    ensures x as int * p == 0x1_0000_0000 * out + Wrap(x * p) && out < p
  {
    var product: int := x as int * p;
    TimesGrows(p, -1, x);
    out := product / 0x1_0000_0000;
    TimesGrows(p, x, 0x1_0000_0000);
  }

  /** SRA, SRAV, and in this simulator SRL and SRLV too: the signed operand is
      the signed result times the power, and the bits shifted out. */
  lemma ExecShiftRight(i: Instruction, h: Hardware) returns (v: word, out: nat)
    requires Sound(h) && i.op in {SRA, SRAV, SRL, SRLV}
    ensures var c := h.cpu;
            var n: nat := if i.op in {SRA, SRL} then i.extra else c.gpr[i.rs] % 32;
            && Retires(h, Exec(i, h), i.rd, v, c.hi, c.lo, Wrap(c.nextPc + 4))
            && Signed(c.gpr[i.rt]) == Pow2(n) * Signed(v) + out && out < Pow2(n)
  {
    hide Exec; hide Retires; hide Pow2; hide Wrap; hide Signed;
    AluRetires(i, h);
    var c := h.cpu;
    v := AluResult(i.op, c.gpr[i.rs], c.gpr[i.rt], i.extra, c.hi, c.lo);
    var n: nat := if i.op in {SRA, SRL} then i.extra else c.gpr[i.rs] % 32;
    out := ArithmeticShift(c.gpr[i.rt], Pow2(n));
  }

  lemma ArithmeticShift(x: word, p: nat) returns (out: nat)
    requires p > 0
    ensures Signed(x) == p * Signed(Wrap(Signed(x) / p)) + out && out < p
  {
    var s := Signed(x);
    var q := s / p;
    out := s % p;
    assert s == p * q + out;
    assert Fits(s);
    QuotientFits(s, p, q, out);
    hide Wrap; hide Signed;
    SignedWrap(q);
  }

  lemma QuotientFits(s: int, p: nat, q: int, out: nat)
    requires p > 0 && s == p * q + out && out < p && Fits(s)
    ensures Fits(q)
  {
    FactorGrows(p, q);
    FactorGrows(p, q + 1);
    assert p * (q + 1) == p * q + p;
  }

  lemma FactorGrows(p: nat, q: int)
    requires p > 0
    ensures q >= 0 ==> p * q >= q
    ensures q <= 0 ==> p * q <= q
  {
    MinusOne(p, q);
    if q >= 0 {
      assert (p - 1) * q >= 0;
    } else {
      assert (p - 1) * -q >= 0;
    }
  }

  /** The architecture's SRL and SRLV give the quotient of the natural number.
      The code does so exactly for a zero shift or a clear sign bit. */
  lemma LogicalShift(i: Instruction, h: Hardware) returns (v: word)
    requires Sound(h) && i.op in {SRL, SRLV} && (i.op == SRL ==> i.extra < 32)
    ensures var c := h.cpu;
            var n: nat := if i.op == SRL then i.extra else c.gpr[i.rs] % 32;
            && Retires(h, Exec(i, h), i.rd, v, c.hi, c.lo, Wrap(c.nextPc + 4))
            && (v as int == c.gpr[i.rt] as int / Pow2(n) <==> n == 0 || c.gpr[i.rt] < 0x8000_0000)
  {
    hide Exec; hide Retires; hide Pow2; hide Wrap; hide Signed;
    var out;
    v, out := ExecShiftRight(i, h);
    var c := h.cpu;
    var n: nat := if i.op == SRL then i.extra else c.gpr[i.rs] % 32;
    PowerAbove(n);
    ShiftsDiffer(c.gpr[i.rt], v, Pow2(n), out);
  }

  /** So shifting 0x80000000 right by one fills in a one. */
  lemma SrlIsArithmetic(h: Hardware, rt: reg, rd: reg)
    requires Sound(h) && h.cpu.gpr[rt] == 0x8000_0000 && rd != 0 && rd != h.cpu.loadReg
    ensures var o := Exec(Instruction(SRL, 0, rt, rd, 1), h);
            o.Done? && |o.state.cpu.gpr| == 32 && o.state.cpu.gpr[rd] == 0xc000_0000
  {
    hide Exec; hide Pow2; hide Signed; hide Wrap;
    var v, out := ExecShiftRight(Instruction(SRL, 0, rt, rd, 1), h);
    MostNegativeHalved(v, out);
  }

  lemma MostNegativeHalved(v: word, out: nat)
    requires out < Pow2(1) && Signed(0x8000_0000) == Pow2(1) * Signed(v) + out
    ensures v == 0xc000_0000
  {
    assert Pow2(1) == 2;
    hide Pow2;
  }

  lemma PowerAbove(n: nat)
    ensures Pow2(n) == 1 <==> n == 0
  {
    if n > 0 {
      assert Pow2(n) == 2 * Pow2(n - 1);
    }
  }

  lemma ShiftsDiffer(x: word, v: word, p: nat, out: nat)
    requires out < p && Signed(x) == p * Signed(v) + out
    ensures v as int == x as int / p <==> p == 1 || x < 0x8000_0000
  {
    TimesGrows(p, Signed(v), 0);
    TimesGrows(p, -1, Signed(v));
    if x < 0x8000_0000 {
      DivMod(x, p, v, out);
    } else if p == 1 {
      assert x as int / 1 == x;
    } else {
      HalfAtMost(x, p);
    }
  }

  lemma HalfAtMost(x: word, p: nat)
    requires p >= 2
    ensures x as int / p < 0x8000_0000
  {
    var q := x as int / p;
    assert x == p * q + x as int % p;
    TimesGrows(p, -1, q);
    FactorGrows(p - 1, q);
    MinusOne(p, q);
  }

  /* Bitwise operations. */

  /** Bit k of a number. */
  predicate Bit(x: nat, k: nat) { x / Pow2(k) % 2 == 1 }

  lemma HalfDiv(x: nat, p: nat)
    requires p > 0
    ensures x / (2 * p) == x / 2 / p
  {
    var q, r, b := x / 2 / p, x / 2 % p, x % 2;
    assert x / 2 == p * q + r;
    assert 2 * (p * q) == 2 * p * q;
    DivMod(x, 2 * p, q, 2 * r + b);
  }

  lemma BitStep(x: nat, k: nat)
    ensures Bit(x, k) <==> if k == 0 then x % 2 == 1 else Bit(x / 2, k - 1)
  {
    assert Pow2(k) == if k == 0 then 1 else 2 * Pow2(k - 1);
    hide Pow2;
    if k > 0 {
      HalfDiv(x, Pow2(k - 1));
    }
  }

  lemma {:induction false} BitOps(x: nat, y: nat, k: nat)
    ensures Bit(BitAnd(x, y), k) <==> Bit(x, k) && Bit(y, k)
    ensures Bit(BitOr(x, y), k) <==> Bit(x, k) || Bit(y, k)
    ensures Bit(BitXor(x, y), k) <==> Bit(x, k) != Bit(y, k)
    decreases k
  {
    hide Bit;
    BitHalves(x, y);
    BitStep(x, k);
    BitStep(y, k);
    BitStep(BitAnd(x, y), k);
    BitStep(BitOr(x, y), k);
    BitStep(BitXor(x, y), k);
    if k > 0 {
      BitOps(x / 2, y / 2, k - 1);
    }
  }

  lemma BitHalves(x: nat, y: nat)
    ensures BitAnd(x, y) / 2 == BitAnd(x / 2, y / 2) && (BitAnd(x, y) % 2 == 1 <==> x % 2 == 1 && y % 2 == 1)
    ensures BitOr(x, y) / 2 == BitOr(x / 2, y / 2) && (BitOr(x, y) % 2 == 1 <==> x % 2 == 1 || y % 2 == 1)
    ensures BitXor(x, y) / 2 == BitXor(x / 2, y / 2) && (BitXor(x, y) % 2 == 1 <==> x % 2 != y % 2)
  {
  }

  lemma {:induction false} BitNot(x: nat, n: nat, k: nat)
    requires x < Pow2(n)
    ensures Bit(Pow2(n) - 1 - x, k) <==> k < n && !Bit(x, k)
    decreases n
  {
    var y := Pow2(n) - 1 - x;
    if n == 0 {
      assert 0 / Pow2(k) == 0;
    } else {
      assert y / 2 == Pow2(n - 1) - 1 - x / 2 && y % 2 == 1 - x % 2;
      hide Bit; hide Pow2;
      BitStep(x, k);
      BitStep(y, k);
      if k > 0 {
        BitNot(x / 2, n - 1, k - 1);
      }
    }
  }

  lemma BitZero(k: nat)
    ensures !Bit(0, k)
  {
    DivMod(0, Pow2(k), 0, 0);
  }

  /** The low half of an immediate. */
  lemma BitImmediate(x: word, k: nat)
    ensures Bit(And(x, 0xffff), k) <==> k < 16 && Bit(x, k)
  {
    hide Bit; hide Pow2; hide BitAnd;
    Powers();
    BitOps(x, 0xffff, k);
    BitNot(0, 16, k);
    BitZero(k);
  }

  lemma BitComplement(x: word, k: nat)
    requires k < 32
    ensures Bit(Not(x), k) <==> !Bit(x, k)
  {
    Powers();
    BitNot(x, 32, k);
  }

  /** AND, OR, XOR and NOR on each bit; the immediate forms see 16 bits. */
  lemma ExecLogic(i: Instruction, h: Hardware) returns (v: word)
    requires Sound(h) && i.op in {AND, OR, XOR, NOR, ANDI, ORI, XORI}
    ensures var c := h.cpu;
            var immediate := i.op in {ANDI, ORI, XORI};
            && Retires(h, Exec(i, h), if immediate then i.rt else i.rd, v, c.hi, c.lo, Wrap(c.nextPc + 4))
            && forall k: nat :: k < 32 ==>
                 var x := Bit(c.gpr[i.rs], k);
                 var y := if immediate then k < 16 && Bit(i.extra, k) else Bit(c.gpr[i.rt], k);
                 (Bit(v, k) <==> match i.op
                                 case AND => x && y case ANDI => x && y
                                 case OR => x || y case ORI => x || y
                                 case NOR => !x && !y
                                 case _ => x != y)
  {
    hide Exec; hide Retires; hide Wrap; hide Bit;
    AluRetires(i, h);
    var c := h.cpu;
    v := AluResult(i.op, c.gpr[i.rs], c.gpr[i.rt], i.extra, c.hi, c.lo);
    var y: word := if i.op in {ANDI, ORI, XORI} then And(i.extra, 0xffff) else c.gpr[i.rt];
    forall k: nat | k < 32
      ensures Bit(And(c.gpr[i.rs], y), k) <==> Bit(c.gpr[i.rs], k) && Bit(y, k)
      ensures Bit(Or(c.gpr[i.rs], y), k) <==> Bit(c.gpr[i.rs], k) || Bit(y, k)
      ensures Bit(Xor(c.gpr[i.rs], y), k) <==> Bit(c.gpr[i.rs], k) != Bit(y, k)
      ensures Bit(Not(Or(c.gpr[i.rs], y)), k) <==> !Bit(Or(c.gpr[i.rs], y), k)
      ensures Bit(And(i.extra, 0xffff), k) <==> k < 16 && Bit(i.extra, k)
    {
      BitOps(c.gpr[i.rs], y, k);
      BitComplement(Or(c.gpr[i.rs], y), k);
      BitImmediate(i.extra, k);
    }
    hide And; hide Or; hide Xor; hide Not;
  }

  /** LUI fills the high half; MFHI and MFLO copy. */
  lemma ExecMove(i: Instruction, h: Hardware) returns (v: word)
    requires Sound(h) && i.op in {LUI, MFHI, MFLO}
    ensures var c := h.cpu;
            && Retires(h, Exec(i, h), if i.op == LUI then i.rt else i.rd, v, c.hi, c.lo, Wrap(c.nextPc + 4))
            && match i.op
               case LUI => v % 0x1_0000 == 0 && v / 0x1_0000 == i.extra % 0x1_0000
               case MFHI => v == c.hi
               case _ => v == c.lo
  {
    hide Exec; hide Retires;
    AluRetires(i, h);
    var c := h.cpu;
    v := AluResult(i.op, c.gpr[i.rs], c.gpr[i.rt], i.extra, c.hi, c.lo);
    HighHalf(i.extra);
  }

  lemma HighHalf(x: word)
    ensures Wrap(0x1_0000 * x) % 0x1_0000 == 0 && Wrap(0x1_0000 * x) / 0x1_0000 == x % 0x1_0000
  {
    ShiftLeft(x, 0x1_0000, 0x1_0000);
    DivMod(0x1_0000 * (x % 0x1_0000), 0x1_0000, x % 0x1_0000, 0);
  }

  /* Multiplication and division. */

  /** MULT and MULTU leave the two halves of the product. */
  lemma ExecMultiply(i: Instruction, h: Hardware) returns (hi: word, lo: word)
    requires Sound(h) && i.op in {MULT, MULTU}
    ensures var c := h.cpu;
            && Retires(h, Exec(i, h), 0, 0, hi, lo, Wrap(c.nextPc + 4))
            && if i.op == MULT then Signed(hi) * WORD + lo == Signed(c.gpr[i.rs]) * Signed(c.gpr[i.rt])
               else hi * WORD + lo == c.gpr[i.rs] as int * c.gpr[i.rt] as int
  {
    hide Exec; hide Retires; hide Wrap; hide Signed; hide ProductHi; hide ProductLo;
    HiLoRetires(i, h);
    var c := h.cpu;
    var r := HiLoResult(i.op, c.gpr[i.rs], c.gpr[i.rt], c.hi, c.lo);
    hi, lo := r.0, r.1;
    SignedHalves(c.gpr[i.rs], c.gpr[i.rt]);
    UnsignedHalves(c.gpr[i.rs], c.gpr[i.rt]);
  }

  lemma SignedHalves(x: word, y: word)
    ensures var p := Signed(x) * Signed(y); Signed(ProductHi(p)) * WORD + ProductLo(p) == p
  {
    var a, b := Signed(x), Signed(y);
    ProductBound(a, b);
    hide Signed;
    HighPart(a * b);
  }

  lemma ProductBound(a: int, b: int)
    requires Fits(a) && Fits(b)
    ensures -HALF * HALF <= a * b <= HALF * HALF
  {
    if b > 0 {
      TimesGrows(b, a, HALF);
      TimesGrows(b, -HALF - 1, a);
    } else if b < 0 {
      TimesGrows(-b, a, HALF);
      TimesGrows(-b, -HALF - 1, a);
    }
  }

  lemma HighPart(p: int)
    requires -HALF * HALF <= p <= HALF * HALF
    ensures Signed(ProductHi(p)) * WORD + ProductLo(p) == p
  {
    hide Signed;
    SignedWrap(p / 0x1_0000_0000);
  }

  lemma UnsignedHalves(x: word, y: word)
    ensures var p := x as int * y as int; ProductHi(p) * WORD + ProductLo(p) == p
  {
    var p := x as int * y as int;
    TimesGrows(y + 1, x, WORD);
    TimesGrows(x + 1, -1, y);
    assert p + x as int + y as int + 1 <= WORD * WORD;
    Halves(p);
  }

  lemma Halves(p: nat)
    requires p < WORD * WORD
    ensures ProductHi(p) * WORD + ProductLo(p) == p
  {
    DivMod(p / WORD, WORD, 0, p / WORD);
  }

  /** Truncating division, from the division of the magnitudes. */
  lemma Truncated(x: int, y: int)
    requires y != 0
    ensures var q := TruncDiv(x, y); var r := x - q * y;
            && Abs(r) < Abs(y) && (r == 0 || (r < 0 <==> x < 0))
            && Abs(q) * Abs(y) <= Abs(x) && (q == 0 || (q > 0 <==> (x >= 0) == (y > 0)))
  {
    var a: int, b: int := Abs(x), Abs(y);
    var k, m := a / b, a % b;
    DivisionEquation(a, b);
    SignRules(k, b);
    SignRules(b, k);
    assert TruncDiv(x, y) == if (x >= 0) == (y > 0) then k else -k;
    hide TruncDiv;
  }

  lemma DivisionEquation(a: int, b: int)
    requires a >= 0 && b > 0
    ensures a == a / b * b + a % b && 0 <= a % b < b && 0 <= a / b
  {
  }

  lemma SignRules(k: int, b: int)
    ensures -k * b == -(k * b) && k * -b == -(k * b) && -k * -b == k * b && k * b == b * k
  {
  }

  lemma QuotientIsInt(x: int, y: int)
    requires Fits(x) && y != 0 && !(x == -HALF && y == -1)
    ensures Fits(TruncDiv(x, y))
  {
    hide TruncDiv;
    Truncated(x, y);
    var q, m: int := TruncDiv(x, y), Abs(y);
    var a: int := Abs(q);
    assert a * m <= Abs(x);
    SignRules(a, m);
    FactorGrows(m, a);
    if m > 1 {
      FactorGrows(m - 1, a);
      MinusOne(m, a);
    }
  }

  lemma MinusOne(m: int, a: int)
    ensures m * a == (m - 1) * a + a
  {
  }

  /** DIV truncates towards zero and the remainder has the sign of the dividend;
      dividing by zero leaves zeros. The one quotient that does not fit is
      undefined in C. */
  lemma ExecDivide(i: Instruction, h: Hardware) returns (hi: word, lo: word)
    requires Sound(h) && i.op == DIV
    ensures var c := h.cpu;
            var x, y := Signed(c.gpr[i.rs]), Signed(c.gpr[i.rt]);
            && Retires(h, Exec(i, h), 0, 0, hi, lo, Wrap(c.nextPc + 4))
            && (y == 0 ==> hi == 0 && lo == 0)
            && (y != 0 && !(x == -HALF && y == -1) ==>
                  && x == Signed(lo) * y + Signed(hi) && Abs(Signed(hi)) < Abs(y)
                  && (Signed(hi) == 0 || (Signed(hi) < 0 <==> x < 0)))
  {
    hide Exec; hide Retires; hide Wrap; hide TruncDiv;
    HiLoRetires(i, h);
    var c := h.cpu;
    var r := HiLoResult(i.op, c.gpr[i.rs], c.gpr[i.rt], c.hi, c.lo);
    hi, lo := r.0, r.1;
    var x, y := Signed(c.gpr[i.rs]), Signed(c.gpr[i.rt]);
    if y != 0 && !(x == -HALF && y == -1) {
      Truncated(x, y);
      QuotientIsInt(x, y);
      SignedWrap(TruncDiv(x, y));
      SignedWrap(x - TruncDiv(x, y) * y);
    }
  }

  /** DIVU divides naturals. */
  lemma ExecDivideUnsigned(i: Instruction, h: Hardware) returns (hi: word, lo: word)
    requires Sound(h) && i.op == DIVU
    ensures var c := h.cpu;
            var x: nat, y: nat := c.gpr[i.rs], c.gpr[i.rt];
            && Retires(h, Exec(i, h), 0, 0, hi, lo, Wrap(c.nextPc + 4))
            && (y == 0 ==> hi == 0 && lo == 0)
            && (y != 0 ==> x == lo as int * y + hi && hi < y)
  {
    hide Exec; hide Retires;
    HiLoRetires(i, h);
    var c := h.cpu;
    var r := HiLoResult(i.op, c.gpr[i.rs], c.gpr[i.rt], c.hi, c.lo);
    hi, lo := r.0, r.1;
    if c.gpr[i.rt] != 0 {
      Quotient(c.gpr[i.rs], c.gpr[i.rt]);
    }
  }

  lemma Quotient(x: word, y: word)
    requires y != 0
    ensures var q, r := x as int / y as int, x as int % y as int;
            x as int == q * y as int + r && 0 <= r < y && Wrap(q) == q && Wrap(r) == r
  {
    var a: int, b: int := x, y;
    var q, r := a / b, a % b;
    assert a == b * q + r && 0 <= r < b;
    TimesGrows(b, q, 0);
    FactorGrows(b, q);
    DivMod(q, 0x1_0000_0000, 0, q);
    DivMod(r, 0x1_0000_0000, 0, r);
  }

  /** MTHI and MTLO set one register and keep the other. */
  lemma ExecSetHiLo(i: Instruction, h: Hardware)
    requires Sound(h) && i.op in {MTHI, MTLO}
    ensures var c := h.cpu;
            Retires(h, Exec(i, h), 0, 0, if i.op == MTHI then c.gpr[i.rs] else c.hi,
                    if i.op == MTLO then c.gpr[i.rs] else c.lo, Wrap(c.nextPc + 4))
  {
    hide Exec; hide Retires; hide Wrap;
    HiLoRetires(i, h);
  }

  /* Branches and jumps. */

  /** The value rs has when the condition is tested: BGEZAL and BLTZAL have
      stored the return address by then. */
  function Tested(i: Instruction, c: Cpu): word
    requires |c.gpr| == 32
  {
    if i.op in {BGEZAL, BLTZAL} && i.rs == 31 then Wrap(c.nextPc + 4) else c.gpr[i.rs]
  }

  /** A branch is taken exactly when its signed comparison holds, and then goes
      the immediate's number of words on from nextPc. The linking forms leave
      the address after the delay slot in R31, taken or not. */
  lemma ExecBranch(i: Instruction, h: Hardware)
    requires Sound(h) && i.op in {BEQ, BNE, BGEZ, BGEZAL, BLTZ, BLTZAL, BGTZ, BLEZ}
    ensures var c := h.cpu;
            var x := Signed(Tested(i, c));
            var taken := match i.op
                         case BEQ => c.gpr[i.rs] == c.gpr[i.rt]
                         case BNE => c.gpr[i.rs] != c.gpr[i.rt]
                         case BGTZ => x > 0
                         case BLEZ => x <= 0
                         case BLTZ => x < 0 case BLTZAL => x < 0
                         case _ => x >= 0;
            var links := i.op in {BGEZAL, BLTZAL};
            Retires(h, Exec(i, h), if links then 31 else 0, if links then Wrap(c.nextPc + 4) else 0, c.hi, c.lo,
                    Wrap(c.nextPc + 4 * (if taken then Signed(i.extra) else 1)))
  {
    hide Exec; hide Retires; hide Wrap;
    BranchRetires(i, h);
    WrapSame(h.cpu.nextPc + 4 * Signed(i.extra), if SignBit(i.extra) then 4 else 0);
  }

  /** J and JAL stay in the 256 megabytes of the next instruction and go to the
      word their 26-bit field names; JR and JALR go where rs points. JALR with
      rd the same as rs has overwritten it by then. */
  lemma ExecJump(i: Instruction, h: Hardware) returns (target: word)
    requires Sound(h) && i.op in {J, JAL, JR, JALR} && (i.op in {J, JAL} ==> i.extra < 0x400_0000)
    ensures var c := h.cpu;
            var next := Wrap(c.nextPc + 4);
            var link := match i.op case JAL => 31 case JALR => i.rd case _ => 0;
            && Retires(h, Exec(i, h), link, if i.op in {JAL, JALR} then next else 0, c.hi, c.lo, target)
            && if i.op in {J, JAL} then target / 0x1000_0000 == next / 0x1000_0000 && target % 0x1000_0000 == 4 * i.extra
               else target == if i.op == JALR && i.rd == i.rs then next else c.gpr[i.rs]
  {
    hide Exec; hide Retires; hide Wrap; hide Or; hide And;
    BranchRetires(i, h);
    var c := h.cpu;
    target := JumpTarget(i, c.gpr[i.rs], c.gpr[i.rt], c.nextPc);
    if i.op in {J, JAL} {
      Region(Wrap(c.nextPc + 4), i.extra);
    }
  }

  lemma Region(x: word, field: word)
    requires field < 0x400_0000
    ensures var t := Or(And(x, 0xf000_0000), Wrap(4 * field));
            t / 0x1000_0000 == x / 0x1000_0000 && t % 0x1000_0000 == 4 * field
  {
    hide Pow2; hide Low; hide BitAnd; hide BitOr; hide Wrap;
    Power28();
    MaskHigh(x, 28, 32);
    LowIsMod(x, 28);
    WrapNear(4 * field);
    var q := x / 0x1000_0000;
    OrApart(q, 4 * field, 28);
    DivMod(0x1000_0000 * q + 4 * field, 0x1000_0000, q, 4 * field);
  }

  lemma Power28()
    ensures Pow2(28) == 0x1000_0000 && Pow2(32) == 0x1_0000_0000
  {
    Powers();
    assert Pow2(32) == 16 * Pow2(28);
  }

  /* Memory. */

  /** The number that bytes make, the first being the least. */
  function LittleEndian(bs: seq<byte>): nat {
    if bs == [] then 0 else bs[0] + 0x100 * LittleEndian(bs[1..])
  }

  /** The number that the low n bytes of a word make. */
  function LowBytes(v: word, n: nat): nat { v as int % Pow2(8 * n) }

  function SizeOf(op: Op): (n: nat)
    ensures n == 1 || n == 2 || n == 4
  {
    if op in {LB, LBU, SB} then 1 else if op in {LH, LHU, SH} then 2 else 4
  }

  lemma LittleStep(m: seq<byte>, p: nat, q: nat)
    requires p <= q <= |m|
    ensures LittleEndian(m[p..q]) == if p == q then 0 else m[p] + 0x100 * LittleEndian(m[p + 1..q])
  {
    if p < q {
      assert m[p..q][1..] == m[p + 1..q];
    }
  }

  lemma Little(m: seq<byte>, p: nat, n: nat)
    requires (n == 1 || n == 2 || n == 4) && p + n <= |m|
    ensures LittleEndian(m[p..p + n]) == Fetch(m, p, n)
  {
    hide LittleEndian;
    LittleStep(m, p, p + n);
    LittleStep(m, p + 1, p + n);
    if n > 1 {
      LittleStep(m, p + 2, p + n);
    }
    if n > 2 {
      LittleStep(m, p + 3, p + n);
      LittleStep(m, p + 4, p + n);
    }
  }

  /** LB, LBU, LH, LHU and LW: the translation decides whether they complete;
      the bytes there become the pending value of rt, as a signed or as an
      unsigned number. */
  lemma ExecLoad(i: Instruction, h: Hardware)
    requires Sound(h) && i.op in {LB, LBU, LH, LHU, LW}
    ensures var c, o := h.cpu, Exec(i, h);
            var n, a := SizeOf(i.op), Wrap(c.gpr[i.rs] as int + i.extra);
            match Translate(h.table, a, n, false)
            case Fault(e) => o.Trapped? && o.exception == e && o.state.cpu.badVAddr == a
            case Mapped(p, t) =>
              && o.Done? && o.state.memory == h.memory && o.state.table == t
              && Advances(c, o.state.cpu, 0, 0, c.hi, c.lo, Wrap(c.nextPc + 4))
              && o.state.cpu.loadReg == i.rt
              && var x, v := LittleEndian(h.memory[p..p + n]), o.state.cpu.loadValue;
                 match i.op
                 case LB => Signed(v) == if x < 0x80 then x else x - 0x100
                 case LH => Signed(v) == if x < 0x8000 then x else x - 0x1_0000
                 case _ => v == x
  {
    hide Perform; hide Plan; hide Translate;
    var c := h.cpu;
    var n, a := SizeOf(i.op), Wrap(c.gpr[i.rs] as int + i.extra);
    PlanLoad(i, c.gpr[i.rs], c.gpr[i.rt], c.hi, c.lo, c.nextPc);
    LoadKinds(i.op);
    assert Exec(i, h) == Perform(if Misaligned(a, n) then Trap(AddressErrorException, a)
                                 else Load(KindOf(i.op), a, a % 4), i.rt, h);
    hide Exec; hide LoadResult; hide Fetch; hide LittleEndian; hide Wrap; hide KindOf; hide SizeOf;
    hide Advances;
    var r := Translate(h.table, a, n, false);
    if Misaligned(a, n) {
      NoTranslation(h.table, a, n, false);
      TrapPerforms(AddressErrorException, a, i.rt, h);
    } else {
      LoadPerforms(KindOf(i.op), a, a % 4, i.rt, h);
    }
    if r.Mapped? {
      Little(h.memory, r.physical, n);
      Extended(i.op, a % 4, h.memory, r.physical, if c.loadReg == i.rt then c.loadValue else c.gpr[i.rt]);
    }
  }

  lemma TrapPerforms(e: ExceptionType, bad: word, rt: reg, h: Hardware)
    requires Sound(h)
    ensures var o := Perform(Trap(e, bad), rt, h); o.Trapped? && o.exception == e && o.state.cpu.badVAddr == bad
  {
  }

  lemma LoadPerforms(k: LoadKind, a: word, lane: nat, rt: reg, h: Hardware)
    requires Sound(h)
    ensures var c, o := h.cpu, Perform(Load(k, a, lane), rt, h);
            match Translate(h.table, a, LoadSize(k), false)
            case Fault(e) => o.Trapped? && o.exception == e && o.state.cpu.badVAddr == a
            case Mapped(p, t) =>
              && o.Done? && o.state.memory == h.memory && o.state.table == t
              && Advances(c, o.state.cpu, 0, 0, c.hi, c.lo, Wrap(c.nextPc + 4))
              && o.state.cpu.loadReg == rt
              && o.state.cpu.loadValue == LoadResult(k, lane, Fetch(h.memory, p, LoadSize(k)),
                                                     if c.loadReg == rt then c.loadValue else c.gpr[rt])
  {
    hide LoadResult; hide Fetch; hide Wrap; hide Translate; hide LoadSize;
  }

  function KindOf(op: Op): LoadKind {
    match op
    case LB => Byte(true)
    case LBU => Byte(false)
    case LH => Half(true)
    case LHU => Half(false)
    case _ => Whole
  }

  lemma LoadKinds(op: Op)
    requires op in {LB, LBU, LH, LHU, LW}
    ensures LoadSize(KindOf(op)) == SizeOf(op)
  {
  }

  lemma PlanLoad(i: Instruction, vs: word, vt: word, hi: word, lo: word, nextPc: word)
    requires i.op in {LB, LBU, LH, LHU, LW}
    ensures var a := Wrap(vs + i.extra);
            Plan(i, vs, vt, hi, lo, nextPc) == if Misaligned(a, SizeOf(i.op)) then Trap(AddressErrorException, a)
                                               else Load(KindOf(i.op), a, a % 4)
  {
    hide Wrap; hide AluResult; hide HiLoResult; hide JumpTarget;
  }

  lemma Extended(op: Op, lane: nat, m: seq<byte>, p: nat, was: word)
    requires op in {LB, LBU, LH, LHU, LW} && p + SizeOf(op) <= |m|
    ensures var x := Fetch(m, p, SizeOf(op)); var v := LoadResult(KindOf(op), lane, x, was);
            match op
            case LB => Signed(v) == if x < 0x80 then x else x - 0x100
            case LH => Signed(v) == if x < 0x8000 then x else x - 0x1_0000
            case _ => v == x
  {
  }

  /** SB, SH and SW: the low bytes of rt go where the translation says, and no
      other byte changes. */
  lemma ExecStore(i: Instruction, h: Hardware)
    requires Sound(h) && i.op in {SB, SH, SW}
    ensures var c, o := h.cpu, Exec(i, h);
            var n, a := SizeOf(i.op), Wrap(c.gpr[i.rs] as int + i.extra);
            match Translate(h.table, a, n, true)
            case Fault(e) => o.Trapped? && o.exception == e && o.state.cpu.badVAddr == a
            case Mapped(p, t) =>
              && o.Done? && o.state.table == t && |o.state.memory| == |h.memory|
              && Advances(c, o.state.cpu, 0, 0, c.hi, c.lo, Wrap(c.nextPc + 4))
              && o.state.cpu.loadReg == 0 && o.state.cpu.loadValue == 0
              && LittleEndian(o.state.memory[p..p + n]) == LowBytes(c.gpr[i.rt], n)
              && forall q :: 0 <= q < |h.memory| && !(p <= q < p + n) ==> o.state.memory[q] == h.memory[q]
  {
    hide Perform; hide Plan; hide Translate;
    var c := h.cpu;
    var n, a := SizeOf(i.op), Wrap(c.gpr[i.rs] as int + i.extra);
    PlanStore(i, c.gpr[i.rs], c.gpr[i.rt], c.hi, c.lo, c.nextPc);
    assert Exec(i, h) == Perform(Store(n, a, c.gpr[i.rt]), i.rt, h);
    hide Exec; hide Deposit; hide LittleEndian; hide Wrap; hide SizeOf; hide LowBytes; hide Advances;
    var r := Translate(h.table, a, n, true);
    StorePerforms(n, a, c.gpr[i.rt], i.rt, h);
    if r.Mapped? {
      Deposited(h.memory, r.physical, n, c.gpr[i.rt]);
    }
  }

  lemma StorePerforms(n: nat, a: word, v: word, rt: reg, h: Hardware)
    requires Sound(h) && (n == 1 || n == 2 || n == 4)
    ensures var c, o := h.cpu, Perform(Store(n, a, v), rt, h);
            match Translate(h.table, a, n, true)
            case Fault(e) => o.Trapped? && o.exception == e && o.state.cpu.badVAddr == a
            case Mapped(p, t) =>
              && o.Done? && o.state.memory == Deposit(h.memory, p, n, v) && o.state.table == t
              && Advances(c, o.state.cpu, 0, 0, c.hi, c.lo, Wrap(c.nextPc + 4))
              && o.state.cpu.loadReg == 0 && o.state.cpu.loadValue == 0
  {
    hide Deposit; hide Wrap; hide Translate;
  }

  lemma PlanStore(i: Instruction, vs: word, vt: word, hi: word, lo: word, nextPc: word)
    requires i.op in {SB, SH, SW}
    ensures Plan(i, vs, vt, hi, lo, nextPc) == Store(SizeOf(i.op), Wrap(vs + i.extra), vt)
  {
    hide Wrap; hide AluResult; hide HiLoResult; hide JumpTarget;
  }

  lemma Deposited(m: seq<byte>, p: nat, n: nat, v: word)
    requires (n == 1 || n == 2 || n == 4) && p + n <= |m|
    ensures LittleEndian(Deposit(m, p, n, v)[p..p + n]) == LowBytes(v, n)
  {
    hide LittleEndian; hide LowBytes; hide Fetch; hide Deposit;
    Little(Deposit(m, p, n, v), p, n);
    FetchDeposited(m, p, n, v);
    LowOf(v);
  }

  lemma FetchDeposited(m: seq<byte>, p: nat, n: nat, v: word)
    requires (n == 1 || n == 2 || n == 4) && p + n <= |m|
    ensures Fetch(Deposit(m, p, n, v), p, n)
         == if n == 1 then Byte0(v) else if n == 2 then FromBytes(Byte0(v), Byte1(v), 0, 0)
            else FromBytes(Byte0(v), Byte1(v), Byte2(v), Byte3(v))
  {
    hide FromBytes; hide Byte0; hide Byte1; hide Byte2; hide Byte3;
  }

  lemma LowOf(v: word)
    ensures LowBytes(v, 1) == Byte0(v) && LowBytes(v, 2) == FromBytes(Byte0(v), Byte1(v), 0, 0)
    ensures LowBytes(v, 4) == FromBytes(Byte0(v), Byte1(v), Byte2(v), Byte3(v))
  {
    hide Pow2; hide Byte0; hide Byte1; hide Byte2; hide Byte3;
    Powers();
    Cuts(v);
    BytesOfWord(v);
    DivMod(v, 0x1_0000_0000, 0, v);
  }

  /** The rest enter the kernel. */
  lemma ExecTrap(i: Instruction, h: Hardware)
    requires Sound(h) && i.op in {SYSCALL, RES, UNIMP}
    ensures var o := Exec(i, h);
            && o.Trapped? && o.state.cpu.badVAddr == 0
            && o.exception == if i.op == SYSCALL then SyscallException else IllegalInstrException
  {
    hide AluResult; hide HiLoResult; hide JumpTarget; hide MemoryAction; hide Perform;
    TrapPerforms(if i.op == SYSCALL then SyscallException else IllegalInstrException, 0, i.rt, h);
  }
}
