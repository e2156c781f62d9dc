/** The MIPS I instructions the simulator knows: the decode tables of
machine/mipssim.h, `Instruction::Decode`, and what each arm of the big switch in
`Machine::OneInstruction` computes from its operands. */
module Isa {
  import opened Words
  import opened Memory

  type reg = r: int | 0 <= r < 32

  datatype Op =
    | ADD | ADDI | ADDIU | ADDU | AND | ANDI | BEQ | BGEZ | BGEZAL | BGTZ | BLEZ | BLTZ | BLTZAL | BNE
    | DIV | DIVU | J | JAL | JALR | JR | LB | LBU | LH | LHU | LUI | LW | LWL | LWR
    | MFHI | MFLO | MTHI | MTLO | MULT | MULTU | NOR | OR | ORI | SB | SH | SLL | SLLV
    | SLT | SLTI | SLTIU | SLTU | SRA | SRAV | SRL | SRLV | SUB | SUBU | SW | SWL | SWR
    | XOR | XORI | SYSCALL | UNIMP | RES

  /** An entry of opTable: an operation, or a reference to a second table. */
  datatype Primary = Direct(op: Op) | Special | Bcond

  datatype Instruction = Instruction(op: Op, rs: reg, rt: reg, rd: reg, extra: word)

  function OpTable(): (t: seq<Primary>)
    ensures |t| == 64
    ensures t[0] == Special && t[1] == Bcond && t[2] == Direct(J) && t[3] == Direct(JAL)
  {
    [Special, Bcond, Direct(J), Direct(JAL), Direct(BEQ), Direct(BNE), Direct(BLEZ), Direct(BGTZ)]
    + ([Direct(ADDI), Direct(ADDIU), Direct(SLTI), Direct(SLTIU), Direct(ANDI), Direct(ORI), Direct(XORI), Direct(LUI)]
       + [Direct(UNIMP), Direct(UNIMP), Direct(UNIMP), Direct(UNIMP), Direct(RES), Direct(RES), Direct(RES), Direct(RES)]
       + [Direct(RES), Direct(RES), Direct(RES), Direct(RES), Direct(RES), Direct(RES), Direct(RES), Direct(RES)]
       + [Direct(LB), Direct(LH), Direct(LWL), Direct(LW), Direct(LBU), Direct(LHU), Direct(LWR), Direct(RES)]
       + [Direct(SB), Direct(SH), Direct(SWL), Direct(SW), Direct(RES), Direct(RES), Direct(SWR), Direct(RES)]
       + [Direct(UNIMP), Direct(UNIMP), Direct(UNIMP), Direct(UNIMP), Direct(RES), Direct(RES), Direct(RES), Direct(RES)]
       + [Direct(UNIMP), Direct(UNIMP), Direct(UNIMP), Direct(UNIMP), Direct(RES), Direct(RES), Direct(RES), Direct(RES)])
  }

  function SpecialTable(): (t: seq<Op>)
    ensures |t| == 64
  {
    ([SLL, RES, SRL, SRA, SLLV, RES, SRLV, SRAV] + [JR, JALR, RES, RES, SYSCALL, UNIMP, RES, RES]
     + [MFHI, MTHI, MFLO, MTLO, RES, RES, RES, RES])
    + ([MULT, MULTU, DIV, DIVU, RES, RES, RES, RES]
       + [ADD, ADDU, SUB, SUBU, AND, OR, XOR, NOR] + [RES, RES, SLT, SLTU, RES, RES, RES, RES])
    + ([RES, RES, RES, RES, RES, RES, RES, RES] + [RES, RES, RES, RES, RES, RES, RES, RES])
  }

  function SignExtend16(h: int): word
    requires 0 <= h < 0x1_0000
  {
    if h >= 0x8000 then h + 0xffff_0000 else h
  }

  /** `Instruction::Decode`. Only the two jumps are JFMT and only SPECIAL is RFMT. */
  function Decode(v: word): Instruction {
    var rs, rt, rd := v / 0x20_0000 % 32, v / 0x1_0000 % 32, v / 0x800 % 32;
    var immediate := SignExtend16(v % 0x1_0000);
    match OpTable()[v / 0x400_0000]
    case Special => Instruction(SpecialTable()[v % 64], rs, rt, rd, v / 64 % 32)
    case Bcond =>
      Instruction(if rt == 0 then BLTZ else if rt == 1 then BGEZ else if rt == 16 then BLTZAL
                  else if rt == 17 then BGEZAL else UNIMP, rs, rt, rd, immediate)
    case Direct(op) => Instruction(op, rs, rt, rd, if op.J? || op.JAL? then v % 0x400_0000 else immediate)
  }

  type opcode = c: int | 0 <= c < 64

  /** A word with the given operation, registers and low half. */
  function Encoded(op: opcode, rs: reg, rt: reg, low: int): word
    requires 0 <= low < 0x1_0000
  {
    0x400_0000 * op + (0x20_0000 * rs + (0x1_0000 * rt + low))
  }

  lemma EncodedFields(op: opcode, rs: reg, rt: reg, low: int)
    requires 0 <= low < 0x1_0000
    ensures var v := Encoded(op, rs, rt, low);
            v / 0x400_0000 == op && v / 0x20_0000 % 32 == rs && v / 0x1_0000 % 32 == rt && v % 0x1_0000 == low
  {
    var v := Encoded(op, rs, rt, low);
    DivMod(v, 0x400_0000, op, 0x20_0000 * rs + (0x1_0000 * rt + low));
    DivMod(v, 0x20_0000, 32 * op + rs, 0x1_0000 * rt + low);
    DivMod(32 * op + rs, 32, op, rs);
    DivMod(v, 0x1_0000, 32 * (32 * op + rs) + rt, low);
    DivMod(32 * (32 * op + rs) + rt, 32, 32 * op + rs, rt);
  }

  /** Decode inverts the encoding of an immediate instruction: the fields come
      back, and the low half as a signed number. */
  lemma DecodeImmediate(op: opcode, rs: reg, rt: reg, low: int)
    requires 0 <= low < 0x1_0000
    requires OpTable()[op].Direct? && !OpTable()[op].op.J? && !OpTable()[op].op.JAL?
    ensures var i := Decode(Encoded(op, rs, rt, low));
            && i.op == OpTable()[op].op && i.rs == rs && i.rt == rt
            && Signed(i.extra) == if low < 0x8000 then low else low - 0x1_0000
  {
    hide OpTable; hide SpecialTable; hide Encoded;
    EncodedFields(op, rs, rt, low);
  }

  /** The conditional branches share one operation code, and rt tells them apart. */
  lemma DecodeBranch(rs: reg, rt: reg, low: int)
    requires 0 <= low < 0x1_0000
    ensures var i := Decode(Encoded(1, rs, rt, low));
            && i.rs == rs && Signed(i.extra) == (if low < 0x8000 then low else low - 0x1_0000)
            && (i.op == BLTZ <==> rt == 0) && (i.op == BGEZ <==> rt == 1)
            && (i.op == BLTZAL <==> rt == 16) && (i.op == BGEZAL <==> rt == 17)
            && (i.op == UNIMP <==> rt !in {0, 1, 16, 17})
  {
    hide OpTable; hide SpecialTable; hide Encoded;
    EncodedFields(1, rs, rt, low);
  }

  lemma LowFields(high: nat, rd: reg, shift: reg, funct: opcode)
    ensures var v := 0x800 * (32 * high + rd) + (64 * shift + funct);
            v / 0x800 % 32 == rd && v / 64 % 32 == shift && v % 64 == funct
  {
    var v := 0x800 * (32 * high + rd) + (64 * shift + funct);
    DivMod(v, 0x800, 32 * high + rd, 64 * shift + funct);
    DivMod(32 * high + rd, 32, high, rd);
    DivMod(v, 64, 32 * (32 * high + rd) + shift, funct);
    DivMod(32 * (32 * high + rd) + shift, 32, 32 * high + rd, shift);
  }

  lemma EncodedLow(rs: reg, rt: reg, rd: reg, shift: reg, funct: opcode)
    ensures Encoded(0, rs, rt, 0x800 * rd + (64 * shift + funct))
         == 0x800 * (32 * (32 * rs + rt) + rd) + (64 * shift + funct)
  {
  }

  /** And of a register instruction. */
  lemma DecodeRegister(rs: reg, rt: reg, rd: reg, shift: reg, funct: opcode)
    ensures Decode(Encoded(0, rs, rt, 0x800 * rd + (64 * shift + funct)))
         == Instruction(SpecialTable()[funct], rs, rt, rd, shift)
  {
    hide OpTable; hide SpecialTable; hide SignExtend16; hide Encoded;
    EncodedFields(0, rs, rt, 0x800 * rd + (64 * shift + funct));
    LowFields(32 * rs + rt, rd, shift, funct);
    EncodedLow(rs, rt, rd, shift, funct);
  }

  /** And of a jump. */
  lemma DecodeJump(link: bool, target: int)
    requires 0 <= target < 0x400_0000
    ensures var i := Decode(0x400_0000 * (if link then 3 else 2) + target);
            i.op == (if link then JAL else J) && i.extra == target
  {
    var v := 0x400_0000 * (if link then 3 else 2) + target;
    DivMod(v, 0x400_0000, if link then 3 else 2, target);
    hide OpTable; hide SpecialTable;
  }

  /** How the architecture encodes an operation. */
  datatype Format = Immediate(code: opcode) | Register(funct: opcode) | Conditional(rt: reg) | Target(code: opcode)

  type code = c: int | -1 <= c < 64

  /** Function codes of shifts, register jumps and moves; -1 for the others. */
  function ShiftCode(op: Op): code {
    match op
    case SLL => 0 case SRL => 2 case SRA => 3 case SLLV => 4 case SRLV => 6 case SRAV => 7
    case JR => 8 case JALR => 9 case SYSCALL => 12 case MFHI => 16 case MTHI => 17 case MFLO => 18 case MTLO => 19
    case _ => -1
  }

  /** Function codes of arithmetic. */
  function ArithmeticCode(op: Op): code {
    match op
    case MULT => 24 case MULTU => 25 case DIV => 26 case DIVU => 27
    case ADD => 32 case ADDU => 33 case SUB => 34 case SUBU => 35
    case AND => 36 case OR => 37 case XOR => 38 case NOR => 39 case SLT => 42 case SLTU => 43
    case _ => -1
  }

  /** Operation codes of branches and immediate arithmetic. */
  function ImmediateCode(op: Op): code {
    match op
    case BEQ => 4 case BNE => 5 case BLEZ => 6 case BGTZ => 7 case ADDI => 8 case ADDIU => 9
    case SLTI => 10 case SLTIU => 11 case ANDI => 12 case ORI => 13 case XORI => 14 case LUI => 15
    case _ => -1
  }

  /** Operation codes of loads and stores. */
  function MemoryCode(op: Op): code {
    match op
    case LB => 32 case LH => 33 case LWL => 34 case LW => 35 case LBU => 36 case LHU => 37 case LWR => 38
    case SB => 40 case SH => 41 case SWL => 42 case SW => 43 case SWR => 46
    case _ => -1
  }

  function FormatOf(op: Op): Format
    requires op != RES && op != UNIMP
  {
    if op == BLTZ then Conditional(0)
    else if op == BGEZ then Conditional(1)
    else if op == BLTZAL then Conditional(16)
    else if op == BGEZAL then Conditional(17)
    else if op == J then Target(2)
    else if op == JAL then Target(3)
    else if ShiftCode(op) >= 0 then Register(ShiftCode(op))
    else if ArithmeticCode(op) >= 0 then Register(ArithmeticCode(op))
    else if ImmediateCode(op) >= 0 then Immediate(ImmediateCode(op))
    else Immediate(MemoryCode(op))
  }

  /** The instruction as a word of the program. */
  function Assembled(i: Instruction): word
    requires i.op != RES && i.op != UNIMP
  {
    match FormatOf(i.op)
    case Immediate(code) => Encoded(code, i.rs, i.rt, i.extra % 0x1_0000)
    case Register(funct) => Encoded(0, i.rs, i.rt, 0x800 * i.rd + (64 * (i.extra % 32) + funct))
    case Conditional(rt) => Encoded(1, i.rs, rt, i.extra % 0x1_0000)
    case Target(code) => 0x400_0000 * code + i.extra % 0x400_0000
  }

  /** The tables hold the codes of the architecture. */
  lemma ImmediateTable(op: Op)
    requires op != RES && op != UNIMP && FormatOf(op).Immediate?
    ensures OpTable()[FormatOf(op).code] == Direct(op) && !op.J? && !op.JAL?
  {
    hide OpTable; hide ImmediateCode; hide MemoryCode; hide ShiftCode; hide ArithmeticCode;
    EveryCode(op);
    if ImmediateCode(op) >= 0 {
      LowOps(op);
    } else {
      HighOps(op);
    }
  }

  lemma EveryCode(op: Op)
    requires op != RES && op != UNIMP && op !in {BLTZ, BGEZ, BLTZAL, BGEZAL, J, JAL}
    ensures ShiftCode(op) >= 0 || ArithmeticCode(op) >= 0 || ImmediateCode(op) >= 0 || MemoryCode(op) >= 0
  {
  }

  lemma LowOps(op: Op)
    requires ImmediateCode(op) >= 0
    ensures OpTable()[ImmediateCode(op)] == Direct(op) && !op.J? && !op.JAL?
  {
    hide OpTable;
    ComputeCodes();
  }

  lemma HighOps(op: Op)
    requires MemoryCode(op) >= 0
    ensures OpTable()[MemoryCode(op)] == Direct(op) && !op.J? && !op.JAL?
  {
    hide OpTable;
    MemoryCodes();
  }

  lemma RegisterTable(op: Op)
    requires op != RES && op != UNIMP && FormatOf(op).Register?
    ensures SpecialTable()[FormatOf(op).funct] == op
  {
    hide SpecialTable; hide ImmediateCode; hide MemoryCode; hide ShiftCode; hide ArithmeticCode;
    if ShiftCode(op) >= 0 {
      LowTable(op);
    } else {
      HighTable(op);
    }
  }

  lemma LowTable(op: Op)
    requires ShiftCode(op) >= 0
    ensures SpecialTable()[ShiftCode(op)] == op
  {
    hide SpecialTable;
    LowCodes();
  }

  lemma HighTable(op: Op)
    requires ArithmeticCode(op) >= 0
    ensures SpecialTable()[ArithmeticCode(op)] == op
  {
    hide SpecialTable;
    HighCodes();
    LogicCodes();
  }

  lemma LowCodes()
    ensures var t := SpecialTable();
            && t[0] == SLL && t[2] == SRL && t[3] == SRA && t[4] == SLLV && t[6] == SRLV && t[7] == SRAV
            && t[8] == JR && t[9] == JALR && t[12] == SYSCALL
            && t[16] == MFHI && t[17] == MTHI && t[18] == MFLO && t[19] == MTLO
  {
  }

  lemma HighCodes()
    ensures var t := SpecialTable();
            && t[24] == MULT && t[25] == MULTU && t[26] == DIV && t[27] == DIVU
            && t[32] == ADD && t[33] == ADDU && t[34] == SUB && t[35] == SUBU
  {
  }

  lemma LogicCodes()
    ensures var t := SpecialTable();
            && t[36] == AND && t[37] == OR && t[38] == XOR && t[39] == NOR && t[42] == SLT && t[43] == SLTU
  {
  }

  lemma ComputeCodes()
    ensures var t := OpTable();
            && t[4] == Direct(BEQ) && t[5] == Direct(BNE) && t[6] == Direct(BLEZ) && t[7] == Direct(BGTZ)
            && t[8] == Direct(ADDI) && t[9] == Direct(ADDIU) && t[10] == Direct(SLTI) && t[11] == Direct(SLTIU)
            && t[12] == Direct(ANDI) && t[13] == Direct(ORI) && t[14] == Direct(XORI) && t[15] == Direct(LUI)
  {
  }

  lemma MemoryCodes()
    ensures var t := OpTable();
            && t[32] == Direct(LB) && t[33] == Direct(LH) && t[34] == Direct(LWL) && t[35] == Direct(LW)
            && t[36] == Direct(LBU) && t[37] == Direct(LHU) && t[38] == Direct(LWR)
            && t[40] == Direct(SB) && t[41] == Direct(SH) && t[42] == Direct(SWL) && t[43] == Direct(SW)
            && t[46] == Direct(SWR)
  {
  }

  lemma SameSigned(x: word, y: word)
    ensures Signed(x) == Signed(y) ==> x == y
  {
  }

  lemma HalfOf(x: word)
    requires -0x8000 <= Signed(x) < 0x8000
    ensures Signed(x) == if x % 0x1_0000 < 0x8000 then x % 0x1_0000 else x % 0x1_0000 - 0x1_0000
  {
    if Signed(x) >= 0 {
      DivMod(x, 0x1_0000, 0, x);
    } else {
      DivMod(x, 0x1_0000, 0xffff, x - 0xffff_0000);
    }
  }

  /** Decode undoes the assembler, for every operation: the fields its format
      holds come back, an immediate if it fits 16 bits. */
  lemma DecodeAssembled(i: Instruction)
    requires i.op != RES && i.op != UNIMP
    ensures var d := Decode(Assembled(i));
            && d.op == i.op
            && (!FormatOf(i.op).Target? ==> d.rs == i.rs)
            && (FormatOf(i.op).Immediate? || FormatOf(i.op).Register? ==> d.rt == i.rt)
            && match FormatOf(i.op)
               case Register(_) => d.rd == i.rd && (i.extra < 32 ==> d.extra == i.extra)
               case Target(_) => i.extra < 0x400_0000 ==> d.extra == i.extra
               case _ => -0x8000 <= Signed(i.extra) < 0x8000 ==> d.extra == i.extra
  {
    hide Decode; hide FormatOf; hide Encoded; hide OpTable; hide SpecialTable; hide Signed;
    var low := i.extra % 0x1_0000;
    if -0x8000 <= Signed(i.extra) < 0x8000 {
      HalfOf(i.extra);
      SameSigned(i.extra, Decode(Assembled(i)).extra);
    }
    match FormatOf(i.op)
    case Immediate(code) =>
      ImmediateTable(i.op);
      DecodeImmediate(code, i.rs, i.rt, low);
    case Register(funct) =>
      RegisterTable(i.op);
      DecodeRegister(i.rs, i.rt, i.rd, i.extra % 32, funct);
    case Conditional(rt) =>
      OtherFormats(i.op);
      DecodeBranch(i.rs, rt, low);
    case Target(code) =>
      OtherFormats(i.op);
      DecodeJump(code == 3, i.extra % 0x400_0000);
  }

  lemma OtherFormats(op: Op)
    requires op != RES && op != UNIMP
    ensures match FormatOf(op)
            case Conditional(rt) => (op, rt) in {(BLTZ, 0), (BGEZ, 1), (BLTZAL, 16), (BGEZAL, 17)}
            case Target(code) => (op, code) in {(J, 2), (JAL, 3)}
            case _ => true
  {
    hide ImmediateCode; hide MemoryCode; hide ShiftCode; hide ArithmeticCode;
  }

  datatype LoadKind = Byte(signed: bool) | Half(signed: bool) | Whole | Left | Right

  /** What an instruction asks for, once its operands are read. */
  datatype Action =
    | Write(dest: reg, value: word)
    | SetHiLo(hi: word, lo: word)
    | Jump(target: word, link: seq<reg>)  // link register, if any, gets nextPc + 4
    | Load(kind: LoadKind, addr: word, lane: nat)  // reads at addr; lane matters to LWL and LWR
    | Store(size: nat, addr: word, value: word)
    | StorePart(left: bool, addr: word, lane: nat, value: word)
    | Trap(exception: ExceptionType, badVAddr: word)

  /** C division truncates toward zero. */
  function TruncDiv(x: int, y: int): int
    requires y != 0
  {
    if (x >= 0) == (y > 0) then Abs(x) / Abs(y) else -(Abs(x) / Abs(y))
  }

  function Abs(x: int): nat { if x < 0 then -x else x }

  function Flag(b: bool): word { if b then 1 else 0 }

  /** The hi and lo words of a 64-bit product. */
  function ProductHi(p: int): word { p / 0x1_0000_0000 % 0x1_0000_0000 }
  function ProductLo(p: int): word { p % 0x1_0000_0000 }

  function ShiftRightArith(v: word, n: nat): word { Wrap(Signed(v) / Pow2(n)) }

  /** The arms that leave a value in a general register. */
  function AluResult(op: Op, vs: word, vt: word, extra: word, hi: word, lo: word): word {
    match op
    case ADD => Wrap(vs + vt)
    case ADDI => Wrap(vs + extra)
    case ADDIU => Wrap(vs + extra)
    case ADDU => Wrap(vs + vt)
    case AND => And(vs, vt)
    case ANDI => And(vs, And(extra, 0xffff))
    case LUI => Wrap(0x1_0000 * extra)
    case MFHI => hi
    case MFLO => lo
    case NOR => Not(Or(vs, vt))
    case OR => Or(vs, vt)
    case ORI => Or(vs, And(extra, 0xffff))
    case SLL => Wrap(vt * Pow2(extra))
    case SLLV => Wrap(vt * Pow2(vs % 32))
    case SLT => Flag(Signed(vs) < Signed(vt))
    case SLTI => Flag(Signed(vs) < Signed(extra))
    case SLTIU => Flag(vs < extra)
    case SLTU => Flag(vs < vt)
    case SRA => ShiftRightArith(vt, extra)
    case SRAV => ShiftRightArith(vt, vs % 32)
    case SRL => ShiftRightArith(vt, extra)  // the C code shifts a signed int
    case SRLV => ShiftRightArith(vt, vs % 32)
    case SUB => Wrap(vs - vt)
    case SUBU => Wrap(vs - vt)
    case XOR => Xor(vs, vt)
    case XORI => Xor(vs, And(extra, 0xffff))
    case _ => 0
  }

  predicate AluTraps(op: Op, vs: word, vt: word, extra: word) {
    || (op.ADD? && AddOverflows(vs, vt))
    || (op.ADDI? && AddOverflows(vs, extra))
    || (op.SUB? && SubOverflows(vs, vt))
  }

  /** Immediate forms write rt, register forms rd. */
  function AluDest(i: Instruction): reg {
    if i.op in {ADDI, ADDIU, ANDI, LUI, ORI, SLTI, SLTIU, XORI} then i.rt else i.rd
  }

  /** The arms that set HiReg and LoReg. */
  function HiLoResult(op: Op, vs: word, vt: word, hi: word, lo: word): (word, word) {
    match op
    case DIV =>
      if vt == 0 then (0, 0)
      else
        var q := TruncDiv(Signed(vs), Signed(vt));
        (Wrap(Signed(vs) - q * Signed(vt)), Wrap(q))
    case DIVU => if vt == 0 then (0, 0) else (Wrap(vs % vt), Wrap(vs / vt))
    case MTHI => (vs, lo)
    case MTLO => (hi, vs)
    case MULT => (ProductHi(Signed(vs) * Signed(vt)), ProductLo(Signed(vs) * Signed(vt)))
    case MULTU => (ProductHi(vs * vt), ProductLo(vs * vt))
    case _ => (hi, lo)
  }

  /** Where a branch or jump goes. The linking forms store the return address
      before they read rs, so they see it when rs is the link register. */
  function JumpTarget(i: Instruction, vs: word, vt: word, nextPc: word): word {
    var next := Wrap(nextPc + 4);
    var branch := Wrap(nextPc + 4 * i.extra);
    match i.op
    case BEQ => if vs == vt then branch else next
    case BNE => if vs != vt then branch else next
    case BGEZAL => if !SignBit(if i.rs == 31 then next else vs) then branch else next
    case BGEZ => if !SignBit(vs) then branch else next
    case BGTZ => if Signed(vs) > 0 then branch else next
    case BLEZ => if Signed(vs) <= 0 then branch else next
    case BLTZAL => if SignBit(if i.rs == 31 then next else vs) then branch else next
    case BLTZ => if SignBit(vs) then branch else next
    case JALR => if i.rd == i.rs then next else vs
    case JR => vs
    case _ => Or(And(next, 0xf000_0000), Wrap(4 * i.extra))  // J and JAL
  }

  function LinkOf(i: Instruction): (l: seq<reg>)
    ensures |l| <= 1
  {
    match i.op
    case BGEZAL => [31]
    case BLTZAL => [31]
    case JAL => [31]
    case JALR => [i.rd]
    case _ => []
  }

  /** The arms that touch memory, with `tmp` their effective address. */
  function MemoryAction(op: Op, tmp: word, vt: word): (a: Action)
    ensures a.Load? || a.Store? || a.StorePart? || a.Trap?
    ensures a.Load? || a.StorePart? ==> a.lane < 4
    ensures a.Store? ==> a.size == 1 || a.size == 2 || a.size == 4
  {
    var lane := tmp % 4;
    match op
    case LB => Load(Byte(true), tmp, lane)
    case LBU => Load(Byte(false), tmp, lane)
    case LH => if tmp % 2 != 0 then Trap(AddressErrorException, tmp) else Load(Half(true), tmp, lane)
    case LHU => if tmp % 2 != 0 then Trap(AddressErrorException, tmp) else Load(Half(false), tmp, lane)
    case LW => if tmp % 4 != 0 then Trap(AddressErrorException, tmp) else Load(Whole, tmp, lane)
    case LWL => Load(Left, tmp - lane, lane)
    case LWR => Load(Right, tmp - lane, lane)
    case SB => Store(1, tmp, vt)
    case SH => Store(2, tmp, vt)
    case SW => Store(4, tmp, vt)
    case SWL => StorePart(true, tmp - lane, lane, vt)
    case _ => StorePart(false, tmp - lane, lane, vt)  // SWR
  }

  datatype Class = Alu | HiLo | Branch | MemoryRef | Exceptional

  function ClassOf(op: Op): Class {
    match op
    case DIV => HiLo case DIVU => HiLo case MTHI => HiLo case MTLO => HiLo case MULT => HiLo case MULTU => HiLo
    case BEQ => Branch case BNE => Branch case BGEZAL => Branch case BGEZ => Branch case BGTZ => Branch
    case BLEZ => Branch case BLTZAL => Branch case BLTZ => Branch case J => Branch case JAL => Branch
    case JALR => Branch case JR => Branch
    case LB => MemoryRef case LBU => MemoryRef case LH => MemoryRef case LHU => MemoryRef case LW => MemoryRef
    case LWL => MemoryRef case LWR => MemoryRef case SB => MemoryRef case SH => MemoryRef case SW => MemoryRef
    case SWL => MemoryRef case SWR => MemoryRef
    case SYSCALL => Exceptional case RES => Exceptional case UNIMP => Exceptional
    case _ => Alu
  }

  /** The switch. `vs` and `vt` are the registers named rs and rt. */
  function Plan(i: Instruction, vs: word, vt: word, hi: word, lo: word, nextPc: word): (a: Action)
    ensures a.Jump? ==> |a.link| <= 1
    ensures a.Load? || a.StorePart? ==> a.lane < 4
    ensures a.Store? ==> a.size == 1 || a.size == 2 || a.size == 4
  {
    match ClassOf(i.op)
    case Alu =>
      if AluTraps(i.op, vs, vt, i.extra) then Trap(OverflowException, 0)
      else Write(AluDest(i), AluResult(i.op, vs, vt, i.extra, hi, lo))
    case HiLo => var (h, l) := HiLoResult(i.op, vs, vt, hi, lo); SetHiLo(h, l)
    case Branch => Jump(JumpTarget(i, vs, vt, nextPc), LinkOf(i))
    case MemoryRef => MemoryAction(i.op, Wrap(vs + i.extra), vt)
    case Exceptional => Trap(if i.op.SYSCALL? then SyscallException else IllegalInstrException, 0)
  }

  predicate ReadsRs(op: Op) {
    op !in {J, JAL, LUI, MFHI, MFLO, SLL, SRA, SRL, SYSCALL, RES, UNIMP}
  }

  /** LWL and LWR merge into rt, but take it through the pending-load bypass. */
  predicate ReadsRt(op: Op) {
    op in {ADD, ADDU, AND, BEQ, BNE, DIV, DIVU, MULT, MULTU, NOR, OR, SB, SH, SLL, SLLV, SLT, SLTU,
           SRA, SRAV, SRL, SRLV, SUB, SUBU, SW, SWL, SWR, XOR}
  }

  /** Registers written by anything but a load. */
  function Targets(i: Instruction): set<reg> {
    match ClassOf(i.op)
    case Alu => {AluDest(i)}
    case Branch => set r | r in LinkOf(i)
    case _ => {}
  }

  /** An operand that is not read does not matter. */
  lemma PlanReadsOnlyOperands(i: Instruction, vs: word, vt: word, vs': word, vt': word, hi: word, lo: word, nextPc: word)
    requires ReadsRs(i.op) ==> vs == vs'
    requires ReadsRt(i.op) ==> vt == vt'
    ensures Plan(i, vs, vt, hi, lo, nextPc) == Plan(i, vs', vt', hi, lo, nextPc)
  {
    match ClassOf(i.op)
    case Alu => assert AluResult(i.op, vs, vt, i.extra, hi, lo) == AluResult(i.op, vs', vt', i.extra, hi, lo);
    case HiLo => assert HiLoResult(i.op, vs, vt, hi, lo) == HiLoResult(i.op, vs', vt', hi, lo);
    case Branch => assert JumpTarget(i, vs, vt, nextPc) == JumpTarget(i, vs', vt', nextPc);
    case MemoryRef =>
    case Exceptional =>
  }

  /** The overflow tests trap exactly when the true result does not fit an int. */
  lemma OverflowIsExact(x: word, y: word)
    ensures AddOverflows(x, y) <==> !(-HALF <= Signed(x) + Signed(y) < HALF)
    ensures SubOverflows(x, y) <==> !(-HALF <= Signed(x) - Signed(y) < HALF)
  {
  }
}
