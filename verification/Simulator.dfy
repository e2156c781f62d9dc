/** `class Machine`: the simulator's registers, main memory and translation
table as it updates them in place, proved to take the steps of module Mips. */
module Simulator {
  import opened Words
  import opened Memory
  import opened Isa
  import opened Mips
  import opened Masks
  import Multiply

  const HI_REG := 32
  const LO_REG := 33
  const PC_REG := 34
  const NEXT_PC_REG := 35
  const PREV_PC_REG := 36
  const LOAD_REG := 37
  const LOAD_VALUE_REG := 38
  const BAD_VADDR_REG := 39

  function Next(pc: word): word { Wrap(pc + 4) }

  datatype MaybeTrap = NoTrap | Raised(exception: ExceptionType)

  class Machine {
    const registers: array<word>
    const mainMemory: array<byte>
    const usesTlb: bool
    const table: array<TranslationEntry>

    ghost predicate Valid()
      reads this, registers, mainMemory, table
    {
      && registers.Length == 40 && mainMemory.Length == MEMORY_SIZE
      && registers[LOAD_REG] < 32
      && registers[0] == 0
    }

    ghost function Registers(): Cpu
      reads this, registers, mainMemory, table
      requires Valid()
    {
      Cpu(registers[..32], registers[HI_REG], registers[LO_REG], registers[PC_REG], registers[NEXT_PC_REG],
          registers[PREV_PC_REG], registers[LOAD_REG], registers[LOAD_VALUE_REG], registers[BAD_VADDR_REG])
    }

    ghost function Translations(): Table
      reads this, table
    {
      if usesTlb then Tlb(table[..]) else PageTable(table[..])
    }

    ghost function View(): (h: Hardware)
      reads this, registers, mainMemory, table
      requires Valid()
      ensures Sound(h)
    {
      Hardware(Registers(), mainMemory[..], Translations())
    }

    /** `Machine::Machine`: registers and memory start out as zeros. The kernel
        supplies the translation table, as a page table or as the TLB. */
    constructor (usesTlb: bool, table: array<TranslationEntry>)
      ensures Valid() && this.usesTlb == usesTlb && this.table == table
      ensures fresh(registers) && fresh(mainMemory)
      ensures View() == Hardware(Cpu(seq(32, _ => 0), 0, 0, 0, 0, 0, 0, 0, 0), seq(MEMORY_SIZE, _ => 0), Translations())
    {
      this.usesTlb, this.table := usesTlb, table;
      registers := new word[40](_ => 0);
      mainMemory := new byte[MEMORY_SIZE](_ => 0);
    }

    method DelayedLoad(nextReg: reg, nextValue: word)
      requires registers.Length == 40 && mainMemory.Length == MEMORY_SIZE && registers[LOAD_REG] < 32
      modifies registers
      ensures Valid()
      ensures registers[..32] == old(registers[..32][registers[LOAD_REG] := registers[LOAD_VALUE_REG]][0 := 0])
      ensures registers[LOAD_REG] == nextReg && registers[LOAD_VALUE_REG] == nextValue
      ensures forall k :: 32 <= k < 40 && k != LOAD_REG && k != LOAD_VALUE_REG ==> registers[k] == old(registers[k])
    {
      registers[registers[LOAD_REG]] := registers[LOAD_VALUE_REG];
      registers[LOAD_REG] := nextReg;
      registers[LOAD_VALUE_REG] := nextValue;
      registers[0] := 0;
    }

    /** Up to the call of the kernel's exception handler. */
    method RaiseException(which: ExceptionType, badVAddr: word) returns (trap: MaybeTrap)
      requires Valid()
      modifies registers
      ensures Valid() && trap == Raised(which)
      ensures View() == Raise(old(View()), which, badVAddr).state
    {
      registers[BAD_VADDR_REG] := badVAddr;
      DelayedLoad(0, 0);
      trap := Raised(which);
    }

    /** Looks the page up, in the page table or by a scan of the TLB. */
    method Lookup(vpn: nat) returns (found: Memory.Lookup)
      ensures found == FindEntry(Translations(), vpn)
    {
      if !usesTlb {
        if vpn >= table.Length {
          return Missing(AddressErrorException);
        } else if !table[vpn].valid {
          return Missing(PageFaultException);
        }
        return At(vpn);
      }
      var i := 0;
      while i < table.Length
        invariant 0 <= i <= table.Length
        invariant SearchTlb(table[..], vpn, 0) == SearchTlb(table[..], vpn, i)
      {
        if table[i].valid && table[i].virtualPage == vpn {
          return At(i);
        }
        i := i + 1;
      }
      found := Missing(PageFaultException);
    }

    method Translate(virtAddr: word, size: nat, writing: bool) returns (trap: MaybeTrap, physAddr: nat)
      requires size == 1 || size == 2 || size == 4
      modifies table
      ensures match Memory.Translate(old(Translations()), virtAddr, size, writing)
              case Fault(e) => trap == Raised(e) && table[..] == old(table[..])
              case Mapped(p, t) => trap == NoTrap && physAddr == p && Translations() == t
    {
      physAddr := 0;
      if (size == 4 && virtAddr % 4 != 0) || (size == 2 && virtAddr % 2 != 0) {
        return Raised(AddressErrorException), 0;
      }
      var vpn, offset := virtAddr / PAGE_SIZE, virtAddr % PAGE_SIZE;
      var found := Lookup(vpn);
      if found.Missing? {
        return Raised(found.exception), 0;
      }
      var entry := table[found.index];
      if entry.readOnly && writing {
        return Raised(ReadOnlyException), 0;
      }
      var pageFrame := entry.physicalPage;
      if !(0 <= pageFrame < NUM_PHYS_PAGES) {
        return Raised(BusErrorException), 0;
      }
      entry := entry.(use := true);
      if writing {
        entry := entry.(dirty := true);
      }
      table[found.index] := entry;
      physAddr := pageFrame * PAGE_SIZE + offset;
      trap := NoTrap;
    }

    method ReadMem(addr: word, size: nat) returns (trap: MaybeTrap, value: word)
      requires Valid()
      requires size == 1 || size == 2 || size == 4
      modifies registers, table
      ensures Valid()
      ensures match Mips.ReadMem(old(View()), addr, size)
              case ReadFault(e) => trap == Raised(e) && View() == Raise(old(View()), e, addr).state
              case Read(v, t) => trap == NoTrap && value == v && View() == old(View()).(table := t)
    {
      hide Memory.Translate; hide Raise;
      value := 0;
      var p;
      trap, p := Translate(addr, size, false);
      if trap.Raised? {
        trap := RaiseException(trap.exception, addr);
        return;
      }
      value := Fetch(mainMemory[..], p, size);
    }

    method WriteMem(addr: word, size: nat, value: word) returns (trap: MaybeTrap)
      requires Valid()
      requires size == 1 || size == 2 || size == 4
      modifies registers, mainMemory, table
      ensures Valid()
      ensures match Mips.WriteMem(old(View()), addr, size, value)
              case WriteFault(e) => trap == Raised(e) && View() == Raise(old(View()), e, addr).state
              case Written(m, t) => trap == NoTrap && View() == old(View()).(memory := m, table := t)
    {
      hide Memory.Translate; hide Raise;
      var p;
      trap, p := Translate(addr, size, true);
      if trap.Raised? {
        trap := RaiseException(trap.exception, addr);
        return;
      }
      mainMemory[p] := Byte0(value);
      if size >= 2 {
        mainMemory[p + 1] := Byte1(value);
      }
      if size == 4 {
        mainMemory[p + 2] := Byte2(value);
        mainMemory[p + 3] := Byte3(value);
      }
    }
  
    /** The tail of OneInstruction: delayed load, then the program counters. */
    method Advance(nextReg: reg, nextValue: word, pcAfter: word)
      requires registers.Length == 40 && mainMemory.Length == MEMORY_SIZE && registers[LOAD_REG] < 32
      modifies registers
      ensures Valid()
      ensures registers[..32] == old(registers[..32][registers[LOAD_REG] := registers[LOAD_VALUE_REG]][0 := 0])
      ensures registers[LOAD_REG] == nextReg && registers[LOAD_VALUE_REG] == nextValue
      ensures registers[PREV_PC_REG] == old(registers[PC_REG]) && registers[PC_REG] == old(registers[NEXT_PC_REG])
      ensures registers[NEXT_PC_REG] == pcAfter
      ensures registers[HI_REG] == old(registers[HI_REG]) && registers[LO_REG] == old(registers[LO_REG])
      ensures registers[BAD_VADDR_REG] == old(registers[BAD_VADDR_REG])
    {
      DelayedLoad(nextReg, nextValue);
      registers[PREV_PC_REG] := registers[PC_REG];
      registers[PC_REG] := registers[NEXT_PC_REG];
      registers[NEXT_PC_REG] := pcAfter;
    }

    /** The value of a load; LWL and LWR merge it by masks and shifts. */
    method Loaded(kind: LoadKind, lane: nat, value: word, was: word) returns (nextLoadValue: word)
      requires lane < 4
      ensures nextLoadValue == LoadResult(kind, lane, value, was)
    {
      hide LoadResult; hide MergedLoad;
      if kind.Left? || kind.Right? {
        LoadsMergeBytes(kind.Left?, lane, value, was);
        nextLoadValue := MergedLoad(kind.Left?, lane, value, was);
      } else {
        nextLoadValue := LoadResult(kind, lane, value, was);
      }
    }

    method PerformLoad(kind: LoadKind, addr: word, lane: nat, rt: reg) returns (trap: MaybeTrap)
      requires Valid() && lane < 4
      modifies registers, table
      ensures Valid() && Matches(trap, Perform(Load(kind, addr, lane), rt, old(View())))
    {
      hide LoadResult;
      var value;
      trap, value := ReadMem(addr, LoadSize(kind));
      if trap.Raised? {
        return;
      }
      var nextLoadValue := registers[rt];
      if registers[LOAD_REG] == rt {
        nextLoadValue := registers[LOAD_VALUE_REG];
      }
      nextLoadValue := Loaded(kind, lane, value, nextLoadValue);
      Advance(rt, nextLoadValue, Next(registers[NEXT_PC_REG]));
    }

    method PerformStore(size: nat, addr: word, value: word, rt: reg) returns (trap: MaybeTrap)
      requires Valid()
      requires size == 1 || size == 2 || size == 4
      modifies registers, mainMemory, table
      ensures Valid() && Matches(trap, StoreOutcome(old(View()), Mips.WriteMem(old(View()), addr, size, value), addr))
    {
      hide Mips.WriteMem;
      trap := WriteMem(addr, size, value);
      if trap.Raised? {
        return;
      }
      Advance(0, 0, Next(registers[NEXT_PC_REG]));
    }

    method PerformStorePart(left: bool, addr: word, lane: nat, r: word, rt: reg) returns (trap: MaybeTrap)
      requires Valid() && lane < 4
      modifies registers, mainMemory, table
      ensures Valid() && Matches(trap, Perform(StorePart(left, addr, lane, r), rt, old(View())))
    {
      hide MergeStore; hide MergedStore; hide Mips.WriteMem;
      var value;
      trap, value := ReadMem(addr, 4);
      if trap.Raised? {
        return;
      }
      StoresMergeBytes(left, lane, value, r);
      trap := PerformStore(4, addr, MergedStore(left, lane, value, r), rt);
    }

    /** The trap reported and the state reached are those of the outcome. */
    ghost predicate Matches(trap: MaybeTrap, o: Outcome)
      reads this, registers, mainMemory, table
      requires Valid()
    {
      && View() == o.state
      && trap == (match o case Done(_) => NoTrap case Trapped(e, _) => Raised(e))
    }

    /** The hi and lo registers after DIV, MULT and the like; MULT and MULTU
        run the shift-and-add loop. */
    method ComputeHiLo(op: Op, vs: word, vt: word) returns (hi: word, lo: word)
      requires Valid()
      ensures (hi, lo) == HiLoResult(op, vs, vt, registers[HI_REG], registers[LO_REG])
    {
      if op.MULT? || op.MULTU? {
        hi, lo := Multiply.Mult(vs, vt, op.MULT?);
        if op.MULT? {
          HalvesOf(hi, lo, Signed(vs) * Signed(vt));
        } else {
          HalvesOfUnsigned(hi, lo, vs * vt);
        }
      } else {
        var r := HiLoResult(op, vs, vt, registers[HI_REG], registers[LO_REG]);
        hi, lo := r.0, r.1;
      }
    }

    method PerformRegister(a: Action, rt: reg) returns (trap: MaybeTrap)
      requires Valid() && (a.Write? || a.SetHiLo? || a.Jump? || a.Trap?)
      requires a.Jump? ==> |a.link| <= 1
      modifies registers
      ensures Valid() && Matches(trap, Perform(a, rt, old(View())))
    {
      trap := NoTrap;
      var pcAfter: word := Next(registers[NEXT_PC_REG]);
      match a
      case Write(dest, value) =>
        registers[dest] := value;
        Advance(0, 0, pcAfter);
      case SetHiLo(hi, lo) =>
        registers[HI_REG], registers[LO_REG] := hi, lo;
        Advance(0, 0, pcAfter);
      case Jump(target, link) =>
        if link != [] {
          registers[link[0]] := pcAfter;
        }
        Advance(0, 0, target);
      case Trap(e, bad) =>
        trap := RaiseException(e, bad);
    }

    /** `Machine::OneInstruction` performs one step of the processor. */
    method OneInstruction() returns (trap: MaybeTrap)
      requires Valid()
      modifies registers, mainMemory, table
      ensures Valid() && Matches(trap, Step(old(View())))
    {
      hide Plan; hide Perform; hide Decode; hide Mips.ReadMem; hide StoreOutcome; hide HiLoResult;
      var raw;
      trap, raw := ReadMem(registers[PC_REG], 4);
      if trap.Raised? {
        return;
      }
      var i := Decode(raw);
      ghost var h := View();
      assert Step(old(View())) == Exec(i, h);
      var vs, vt := registers[i.rs], registers[i.rt];
      var a := Plan(i, vs, vt, registers[HI_REG], registers[LO_REG], registers[NEXT_PC_REG]);
      if a.Load? {
        trap := PerformLoad(a.kind, a.addr, a.lane, i.rt);
      } else if a.Store? {
        StoreIsPerform(a.size, a.addr, a.value, i.rt, h);
        trap := PerformStore(a.size, a.addr, a.value, i.rt);
      } else if a.StorePart? {
        trap := PerformStorePart(a.left, a.addr, a.lane, a.value, i.rt);
      } else {
        if a.SetHiLo? {
          var hi, lo := ComputeHiLo(i.op, vs, vt);
          HiLoIsPlan(i, vs, vt, registers[HI_REG], registers[LO_REG], registers[NEXT_PC_REG]);
          a := SetHiLo(hi, lo);
        }
        trap := PerformRegister(a, i.rt);
      }
    }
  }

  lemma StoreIsPerform(size: nat, addr: word, value: word, rt: reg, h: Hardware)
    requires Sound(h) && (size == 1 || size == 2 || size == 4)
    ensures Perform(Store(size, addr, value), rt, h) == StoreOutcome(h, Mips.WriteMem(h, addr, size, value), addr)
  {
    hide StoreOutcome; hide Mips.WriteMem;
  }

  lemma HiLoIsPlan(i: Instruction, vs: word, vt: word, hi: word, lo: word, nextPc: word)
    requires Plan(i, vs, vt, hi, lo, nextPc).SetHiLo?
    ensures var r := HiLoResult(i.op, vs, vt, hi, lo); Plan(i, vs, vt, hi, lo, nextPc) == SetHiLo(r.0, r.1)
  {
    hide HiLoResult; hide AluResult; hide JumpTarget; hide MemoryAction;
  }

  lemma HalvesOf(hi: word, lo: word, p: int)
    requires Signed(hi) * WORD + lo == p
    ensures hi == ProductHi(p) && lo == ProductLo(p)
  {
    var s := Signed(hi);
    assert p / 0x1_0000_0000 == s && p % 0x1_0000_0000 == lo;
    assert s % 0x1_0000_0000 == hi;
  }

  lemma HalvesOfUnsigned(hi: word, lo: word, p: int)
    requires hi * WORD + lo == p
    ensures hi == ProductHi(p) && lo == ProductLo(p)
  {
    assert p / 0x1_0000_0000 == hi && p % 0x1_0000_0000 == lo;
  }
}
