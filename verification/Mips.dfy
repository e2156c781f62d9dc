/** One instruction of the simulated processor (machine/mipssim.cc), as a
function of the machine state. */
module Mips {
  import opened Words
  import opened Memory
  import opened Isa

  datatype Cpu = Cpu(gpr: seq<word>, hi: word, lo: word, pc: word, nextPc: word, prevPc: word,
                     loadReg: reg, loadValue: word, badVAddr: word)

  datatype Hardware = Hardware(cpu: Cpu, memory: seq<byte>, table: Table)

  predicate Sound(h: Hardware) {
    && |h.cpu.gpr| == 32
    && h.cpu.gpr[0] == 0
    && |h.memory| == MEMORY_SIZE
  }

  /** An instruction either completes or enters the kernel; a trap state is what
      the exception handler gets to see. */
  datatype Outcome = Done(state: Hardware) | Trapped(exception: ExceptionType, state: Hardware)

  /** `Machine::DelayedLoad`. */
  function DelayedLoad(c: Cpu, nextReg: reg, nextValue: word): Cpu
    requires |c.gpr| == 32
  {
    c.(gpr := c.gpr[c.loadReg := c.loadValue][0 := 0], loadReg := nextReg, loadValue := nextValue)
  }

  /** `Machine::RaiseException`, up to the call of the handler. */
  function Raise(h: Hardware, e: ExceptionType, badVAddr: word): Outcome
    requires |h.cpu.gpr| == 32
  {
    Trapped(e, h.(cpu := DelayedLoad(h.cpu.(badVAddr := badVAddr), 0, 0)))
  }

  datatype ReadResult = ReadFault(exception: ExceptionType) | Read(value: word, table: Table)

  function ReadMem(h: Hardware, addr: word, size: nat): ReadResult
    requires Sound(h)
    requires size == 1 || size == 2 || size == 4
  {
    match Translate(h.table, addr, size, false)
    case Fault(e) => ReadFault(e)
    case Mapped(p, t) => Read(Fetch(h.memory, p, size), t)
  }

  datatype WriteResult = WriteFault(exception: ExceptionType) | Written(memory: seq<byte>, table: Table)

  function WriteMem(h: Hardware, addr: word, size: nat, value: word): (r: WriteResult)
    requires Sound(h)
    requires size == 1 || size == 2 || size == 4
    ensures r.Written? ==> |r.memory| == MEMORY_SIZE
  {
    match Translate(h.table, addr, size, true)
    case Fault(e) => WriteFault(e)
    case Mapped(p, t) => Written(Deposit(h.memory, p, size, value), t)
  }

  function LoadSize(k: LoadKind): (n: nat)
    ensures n == 1 || n == 2 || n == 4
  {
    match k case Byte(_) => 1 case Half(_) => 2 case _ => 4
  }

  /** The value headed for rt: `v` was read, `was` is rt itself, and `lane` the
      byte of the word the address points into. */
  function LoadResult(k: LoadKind, lane: nat, v: word, was: word): word {
    match k
    case Byte(signed) => if signed && v % 256 >= 128 then 0xffff_ff00 + v % 256 else v % 256
    case Half(signed) => if signed && v % 0x1_0000 >= 0x8000 then 0xffff_0000 + v % 0x1_0000 else v % 0x1_0000
    case Whole => v
    case Left =>
      if lane == 3 then v
      else if lane == 2 then FromBytes(Byte0(was), Byte0(v), Byte1(v), Byte2(v))
      else if lane == 1 then FromBytes(Byte0(was), Byte1(was), Byte0(v), Byte1(v))
      else FromBytes(Byte0(was), Byte1(was), Byte2(was), Byte0(v))
    case Right =>
      if lane == 3 then FromBytes(Byte3(v), Byte1(was), Byte2(was), Byte3(was))
      else if lane == 2 then FromBytes(Byte2(v), Byte3(v), Byte2(was), Byte3(was))
      else if lane == 1 then FromBytes(Byte1(v), Byte2(v), Byte3(v), Byte3(was))
      else v
  }

  /** The word SWL or SWR writes back: `v` was read, `r` is the register. */
  function MergeStore(left: bool, lane: nat, v: word, r: word): word {
    if left then
      if lane == 3 then r
      else if lane == 2 then FromBytes(Byte1(r), Byte2(r), Byte3(r), Byte3(v))
      else if lane == 1 then FromBytes(Byte2(r), Byte3(r), Byte2(v), Byte3(v))
      else FromBytes(Byte3(r), Byte1(v), Byte2(v), Byte3(v))
    else
      if lane == 3 then FromBytes(Byte0(v), Byte1(v), Byte2(v), Byte0(r))
      else if lane == 2 then FromBytes(Byte0(v), Byte1(v), Byte0(r), Byte1(r))
      else if lane == 1 then FromBytes(Byte0(v), Byte0(r), Byte1(r), Byte2(r))
      else r
  }

  /** The tail of `OneInstruction`: the pending load lands, the new one becomes
      pending, and the program counters advance. */
  function Retire(h: Hardware, nextReg: reg, nextValue: word, pcAfter: word): Outcome
    requires |h.cpu.gpr| == 32
  {
    var c := DelayedLoad(h.cpu, nextReg, nextValue);
    Done(h.(cpu := c.(prevPc := c.pc, pc := c.nextPc, nextPc := pcAfter)))
  }

  function Link(gpr: seq<word>, link: seq<reg>, value: word): (r: seq<word>)
    requires |gpr| == 32
    ensures |r| == 32
  {
    if link == [] then gpr else gpr[link[0] := value]
  }

  function StoreOutcome(h: Hardware, w: WriteResult, addr: word): Outcome
    requires Sound(h)
  {
    match w
    case WriteFault(e) => Raise(h, e, addr)
    case Written(m, t) => Retire(h.(memory := m, table := t), 0, 0, Wrap(h.cpu.nextPc + 4))
  }

  /** Carries out what the switch decided; rt matters to loads only. */
  function Perform(a: Action, rt: reg, h: Hardware): Outcome
    requires Sound(h)
    requires a.Store? ==> a.size == 1 || a.size == 2 || a.size == 4
  {
    var c := h.cpu;
    var next := Wrap(c.nextPc + 4);
    match a
    case Write(r, v) => Retire(h.(cpu := c.(gpr := c.gpr[r := v])), 0, 0, next)
    case SetHiLo(hi, lo) => Retire(h.(cpu := c.(hi := hi, lo := lo)), 0, 0, next)
    case Jump(target, link) => Retire(h.(cpu := c.(gpr := Link(c.gpr, link, next))), 0, 0, target)
    case Load(k, addr, lane) =>
      (match ReadMem(h, addr, LoadSize(k))
       case ReadFault(e) => Raise(h, e, addr)
       case Read(v, t) =>
         var was := if c.loadReg == rt then c.loadValue else c.gpr[rt];
         Retire(h.(table := t), rt, LoadResult(k, lane, v, was), next))
    case Store(size, addr, v) => StoreOutcome(h, WriteMem(h, addr, size, v), addr)
    case StorePart(left, addr, lane, r) =>
      (match ReadMem(h, addr, 4)
       case ReadFault(e) => Raise(h, e, addr)
       case Read(v, t) =>
         var h' := h.(table := t);
         StoreOutcome(h', WriteMem(h', addr, 4, MergeStore(left, lane, v, r)), addr))
    case Trap(e, bad) => Raise(h, e, bad)
  }

  /** `OneInstruction` after the fetch. */
  function Exec(i: Instruction, h: Hardware): Outcome
    requires Sound(h)
  {
    var c := h.cpu;
    Perform(Plan(i, c.gpr[i.rs], c.gpr[i.rt], c.hi, c.lo, c.nextPc), i.rt, h)
  }

  /** `Machine::OneInstruction`. */
  function Step(h: Hardware): Outcome
    requires Sound(h)
  {
    match ReadMem(h, h.cpu.pc, 4)
    case ReadFault(e) => Raise(h, e, h.cpu.pc)
    case Read(raw, t) => Exec(Decode(raw), h.(table := t))
  }

  /** R0 is zero again, and memory keeps its size, whatever the instruction. */
  lemma PerformKeepsSound(a: Action, rt: reg, h: Hardware)
    requires Sound(h)
    requires a.Store? ==> a.size == 1 || a.size == 2 || a.size == 4
    ensures Sound(Perform(a, rt, h).state)
  {
  }

  lemma StepKeepsSound(h: Hardware)
    requires Sound(h)
    ensures Sound(Step(h).state)
  {
    match ReadMem(h, h.cpu.pc, 4)
    case ReadFault(e) =>
    case Read(raw, t) =>
      var i, c := Decode(raw), h.cpu;
      PerformKeepsSound(Plan(i, c.gpr[i.rs], c.gpr[i.rt], c.hi, c.lo, c.nextPc), i.rt, h.(table := t));
  }
}
