/** Delayed loads against a processor whose loads take effect at once.

The simulator keeps one load pending and lets it land at the end of the next
instruction, at a trap, or at an interrupt. For code that leaves its load delay
slots alone, none of this can be seen. */
module DelayedLoads {
  import opened Words
  import opened Memory
  import opened Isa
  import opened Mips

  /** The pending load applied. */
  function Flush(h: Hardware): Hardware
    requires |h.cpu.gpr| == 32
  {
    h.(cpu := DelayedLoad(h.cpu, 0, 0))
  }

  /* The reference processor: no pending load anywhere. */

  function RetireNow(h: Hardware, gpr: seq<word>, pcAfter: word): Outcome
    requires |gpr| == 32
  {
    Done(h.(cpu := h.cpu.(gpr := gpr[0 := 0], prevPc := h.cpu.pc, pc := h.cpu.nextPc, nextPc := pcAfter)))
  }

  function RaiseNow(h: Hardware, e: ExceptionType, badVAddr: word): Outcome {
    Trapped(e, h.(cpu := h.cpu.(badVAddr := badVAddr)))
  }

  function StoreNow(h: Hardware, w: WriteResult, addr: word): Outcome
    requires Sound(h)
  {
    match w
    case WriteFault(e) => RaiseNow(h, e, addr)
    case Written(m, t) => RetireNow(h.(memory := m, table := t), h.cpu.gpr, Wrap(h.cpu.nextPc + 4))
  }

  function PerformNow(a: Action, rt: reg, h: Hardware): Outcome
    requires Sound(h)
    requires a.Store? ==> a.size == 1 || a.size == 2 || a.size == 4
  {
    var c := h.cpu;
    var next := Wrap(c.nextPc + 4);
    match a
    case Write(r, v) => RetireNow(h, c.gpr[r := v], next)
    case SetHiLo(hi, lo) => RetireNow(h.(cpu := c.(hi := hi, lo := lo)), c.gpr, next)
    case Jump(target, link) => RetireNow(h, Link(c.gpr, link, next), target)
    case Load(k, addr, lane) =>
      (match ReadMem(h, addr, LoadSize(k))
       case ReadFault(e) => RaiseNow(h, e, addr)
       case Read(v, t) => RetireNow(h.(table := t), c.gpr[rt := LoadResult(k, lane, v, c.gpr[rt])], next))
    case Store(size, addr, v) => StoreNow(h, WriteMem(h, addr, size, v), addr)
    case StorePart(left, addr, lane, r) =>
      (match ReadMem(h, addr, 4)
       case ReadFault(e) => RaiseNow(h, e, addr)
       case Read(v, t) =>
         var h' := h.(table := t);
         StoreNow(h', WriteMem(h', addr, 4, MergeStore(left, lane, v, r)), addr))
    case Trap(e, bad) => RaiseNow(h, e, bad)
  }

  function ExecNow(i: Instruction, h: Hardware): Outcome
    requires Sound(h)
  {
    var c := h.cpu;
    PerformNow(Plan(i, c.gpr[i.rs], c.gpr[i.rt], c.hi, c.lo, c.nextPc), i.rt, h)
  }

  function StepNow(h: Hardware): Outcome
    requires Sound(h)
  {
    match ReadMem(h, h.cpu.pc, 4)
    case ReadFault(e) => RaiseNow(h, e, h.cpu.pc)
    case Read(raw, t) => ExecNow(Decode(raw), h.(table := t))
  }

  /** A delay slot may not read the register being loaded, nor set it except
      by another load. */
  predicate SlotSafe(i: Instruction, pending: reg) {
    pending == 0
    || (&& (ReadsRs(i.op) ==> i.rs != pending)
        && (ReadsRt(i.op) ==> i.rt != pending)
        && pending !in Targets(i))
  }

  /** The instruction about to run is safe after the pending load. */
  predicate NextSafe(h: Hardware)
    requires Sound(h)
  {
    match ReadMem(h, h.cpu.pc, 4)
    case ReadFault(_) => true
    case Read(raw, _) => SlotSafe(Decode(raw), h.cpu.loadReg)
  }

  /** Same outcome, once the pending load is applied on the left. */
  predicate Agree(delayed: Outcome, now: Outcome)
    requires |delayed.state.cpu.gpr| == 32
  {
    && delayed.Done? == now.Done?
    && (delayed.Trapped? ==> delayed.exception == now.exception)
    && Flush(delayed.state) == now.state
  }

  /** The register an action sets directly. */
  predicate Sets(a: Action, r: reg) {
    (a.Write? && a.dest == r) || (a.Jump? && r in a.link)
  }

  lemma RegisterActionAgrees(a: Action, rt: reg, h: Hardware)
    requires Sound(h)
    requires a.Write? || a.SetHiLo? || a.Jump? || a.Trap?
    requires h.cpu.loadReg == 0 || !Sets(a, h.cpu.loadReg)
    ensures |Perform(a, rt, h).state.cpu.gpr| == 32
    ensures Agree(Perform(a, rt, h), PerformNow(a, rt, Flush(h)))
  {
    var c, f := h.cpu, Flush(h).cpu;
    var next := Wrap(c.nextPc + 4);
    assert f.gpr[0 := 0] == f.gpr;
    if a.Write? {
      assert c.gpr[a.dest := a.value][c.loadReg := c.loadValue][0 := 0] == f.gpr[a.dest := a.value][0 := 0];
    } else if a.Jump? {
      assert Link(c.gpr, a.link, next)[c.loadReg := c.loadValue][0 := 0] == Link(f.gpr, a.link, next)[0 := 0];
    }
  }

  lemma RetireAgrees(h: Hardware, r: reg, v: word, pcAfter: word)
    requires |h.cpu.gpr| == 32
    ensures Agree(Retire(h, r, v, pcAfter), RetireNow(Flush(h), Flush(h).cpu.gpr[r := v], pcAfter))
    ensures r == 0 ==> Agree(Retire(h, r, 0, pcAfter), RetireNow(Flush(h), Flush(h).cpu.gpr, pcAfter))
  {
    assert Flush(h).cpu.gpr[0 := 0] == Flush(h).cpu.gpr;
  }

  lemma RaiseAgrees(h: Hardware, e: ExceptionType, badVAddr: word)
    requires |h.cpu.gpr| == 32
    ensures Agree(Raise(h, e, badVAddr), RaiseNow(Flush(h), e, badVAddr))
  {
    assert Flush(h).cpu.gpr[0 := 0] == Flush(h).cpu.gpr;
  }

  lemma StoreAgrees(h: Hardware, w: WriteResult, addr: word)
    requires Sound(h) && Sound(Flush(h))
    ensures Agree(StoreOutcome(h, w, addr), StoreNow(Flush(h), w, addr))
  {
    match w
    case WriteFault(e) => RaiseAgrees(h, e, addr);
    case Written(m, t) => RetireAgrees(h.(memory := m, table := t), 0, 0, Wrap(h.cpu.nextPc + 4));
  }

  lemma LoadAgrees(k: LoadKind, addr: word, lane: nat, rt: reg, h: Hardware)
    requires Sound(h)
    ensures var a := Load(k, addr, lane); Agree(Perform(a, rt, h), PerformNow(a, rt, Flush(h)))
  {
    hide LoadResult; hide Translate; hide Fetch;
    match ReadMem(h, addr, LoadSize(k))
    case ReadFault(e) => RaiseAgrees(h, e, addr);
    case Read(v, t) =>
      var was := Flush(h).cpu.gpr[rt];
      var bypass := if h.cpu.loadReg == rt then h.cpu.loadValue else h.cpu.gpr[rt];
      LandingAgrees(h.(table := t), rt, LoadResult(k, lane, v, bypass), LoadResult(k, lane, v, was),
                    Wrap(h.cpu.nextPc + 4));
  }

  /** What a load to R0 would bring does not matter. */
  lemma LandingAgrees(h: Hardware, r: reg, v: word, w: word, pcAfter: word)
    requires |h.cpu.gpr| == 32
    requires r == 0 || v == w
    ensures Agree(Retire(h, r, v, pcAfter), RetireNow(Flush(h), Flush(h).cpu.gpr[r := w], pcAfter))
  {
    RetireAgrees(h, r, v, pcAfter);
    assert Flush(h).cpu.gpr[r := v][0 := 0] == Flush(h).cpu.gpr[r := w][0 := 0];
  }

  lemma StorePartAgrees(left: bool, addr: word, lane: nat, value: word, rt: reg, h: Hardware)
    requires Sound(h)
    ensures var a := StorePart(left, addr, lane, value); Agree(Perform(a, rt, h), PerformNow(a, rt, Flush(h)))
  {
    hide MergeStore; hide Translate; hide Fetch; hide Deposit;
    match ReadMem(h, addr, 4)
    case ReadFault(e) => RaiseAgrees(h, e, addr);
    case Read(v, t) =>
      var g := h.(table := t);
      StoreAgrees(g, WriteMem(g, addr, 4, MergeStore(left, lane, v, value)), addr);
  }

  lemma MemoryActionAgrees(a: Action, rt: reg, h: Hardware)
    requires Sound(h)
    requires a.Load? || a.Store? || a.StorePart?
    requires a.Store? ==> a.size == 1 || a.size == 2 || a.size == 4
    ensures |Perform(a, rt, h).state.cpu.gpr| == 32
    ensures Agree(Perform(a, rt, h), PerformNow(a, rt, Flush(h)))
  {
    if a.Load? {
      LoadAgrees(a.kind, a.addr, a.lane, rt, h);
    } else if a.Store? {
      StoreAgrees(h, WriteMem(h, a.addr, a.size, a.value), a.addr);
    } else {
      StorePartAgrees(a.left, a.addr, a.lane, a.value, rt, h);
    }
  }

  lemma ExecAgrees(i: Instruction, h: Hardware)
    requires Sound(h) && SlotSafe(i, h.cpu.loadReg)
    ensures |Exec(i, h).state.cpu.gpr| == 32
    ensures Agree(Exec(i, h), ExecNow(i, Flush(h)))
  {
    hide Perform; hide PerformNow; hide AluResult; hide HiLoResult; hide JumpTarget; hide MemoryAction;
    var c, f := h.cpu, Flush(h).cpu;
    PlanReadsOnlyOperands(i, c.gpr[i.rs], c.gpr[i.rt], f.gpr[i.rs], f.gpr[i.rt], c.hi, c.lo, c.nextPc);
    var a := Plan(i, c.gpr[i.rs], c.gpr[i.rt], c.hi, c.lo, c.nextPc);
    if a.Load? || a.Store? || a.StorePart? {
      MemoryActionAgrees(a, i.rt, h);
    } else {
      RegisterActionAgrees(a, i.rt, h);
    }
  }

  /** One whole instruction, fetch included. */
  lemma StepAgrees(h: Hardware)
    requires Sound(h) && NextSafe(h)
    ensures Sound(Step(h).state) && Agree(Step(h), StepNow(Flush(h)))
  {
    hide Exec; hide ExecNow; hide Decode; hide Translate;
    StepKeepsSound(h);
    match ReadMem(h, h.cpu.pc, 4)
    case ReadFault(_) =>
    case Read(raw, t) => ExecAgrees(Decode(raw), h.(table := t));
  }

  /** A trap lands the pending load and records the address. Otherwise the
      interrupted program is as before the instruction: program counters,
      registers, memory and mapping, so that it can be started again. */
  lemma TrapChangesNothing(h: Hardware)
    requires Sound(h) && Step(h).Trapped?
    ensures var s := Step(h).state;
            && s.cpu == Flush(h).cpu.(badVAddr := s.cpu.badVAddr)
            && s.memory == h.memory
            && SameMapping(s.table, h.table)
  {
    match ReadMem(h, h.cpu.pc, 4)
    case ReadFault(_) =>
    case Read(raw, t) =>
      var i, c, g := Decode(raw), h.cpu, h.(table := t);
      var a := Plan(i, c.gpr[i.rs], c.gpr[i.rt], c.hi, c.lo, c.nextPc);
      TrapInPerform(a, i.rt, g);
      SameMappingTransitive(Step(h).state.table, t, h.table);
  }

  lemma TrapInPerform(a: Action, rt: reg, h: Hardware)
    requires Sound(h)
    requires a.Store? ==> a.size == 1 || a.size == 2 || a.size == 4
    requires Perform(a, rt, h).Trapped?
    ensures var s := Perform(a, rt, h).state;
            && s.cpu == Flush(h).cpu.(badVAddr := s.cpu.badVAddr)
            && s.memory == h.memory
            && SameMapping(s.table, h.table)
  {
  }

  /* Whole runs. */

  /** What the machine lives through: an instruction (and the exception handler
      if it traps), a device interrupt that only flushes the pending load, or an
      interrupt whose handler also changes the machine, as a context switch does. */
  datatype Event = Instruct | Interrupt | Kernel(handler: Hardware -> Hardware)

  /** A kernel entry leaves R0 and the memory size alone. */
  ghost predicate Handler(k: Hardware -> Hardware) {
    forall h {:trigger k(h)} :: Sound(h) ==> Sound(k(h))
  }

  ghost predicate TrapHandler(trap: (ExceptionType, Hardware) -> Hardware) {
    forall e, h {:trigger trap(e, h)} :: Sound(h) ==> Sound(trap(e, h))
  }

  ghost predicate Events(es: seq<Event>) {
    forall j :: 0 <= j < |es| && es[j].Kernel? ==> Handler(es[j].handler)
  }

  /** The exception handler gets the trap state. */
  ghost function Handle(o: Outcome, trap: (ExceptionType, Hardware) -> Hardware): (r: Hardware)
    requires Sound(o.state) && TrapHandler(trap)
    ensures Sound(r)
  {
    if o.Done? then o.state else trap(o.exception, o.state)
  }

  ghost function HandleNow(o: Outcome, trap: (ExceptionType, Hardware) -> Hardware): (r: Hardware)
    requires Sound(o.state) && TrapHandler(trap)
    ensures Sound(r)
  {
    if o.Done? then o.state
    else
      var s := trap(o.exception, o.state);
      assert Sound(s);
      Flush(s)
  }

  /** The simulator, one event after another. */
  ghost function After(h: Hardware, e: Event, trap: (ExceptionType, Hardware) -> Hardware): (r: Hardware)
    requires Sound(h) && TrapHandler(trap) && (e.Kernel? ==> Handler(e.handler))
    ensures Sound(r)
  {
    match e
    case Instruct =>
      StepKeepsSound(h);
      Handle(Step(h), trap)
    case Interrupt => Flush(h)
    case Kernel(k) => assert Sound(Flush(h)); k(Flush(h))
  }

  ghost function Run(h: Hardware, es: seq<Event>, trap: (ExceptionType, Hardware) -> Hardware): (r: Hardware)
    requires Sound(h) && TrapHandler(trap) && Events(es)
    ensures Sound(r)
  {
    if es == [] then h else After(Run(h, es[..|es| - 1], trap), es[|es| - 1], trap)
  }

  /** The reference processor; interrupts that do nothing do not exist for it. */
  ghost function AfterNow(h: Hardware, e: Event, trap: (ExceptionType, Hardware) -> Hardware): (r: Hardware)
    requires Sound(h) && TrapHandler(trap) && (e.Kernel? ==> Handler(e.handler))
    ensures Sound(r)
  {
    match e
    case Instruct =>
      StepNowKeepsSound(h);
      HandleNow(StepNow(h), trap)
    case Interrupt => h
    case Kernel(k) => assert Sound(k(h)); Flush(k(h))
  }

  ghost function RunNow(h: Hardware, es: seq<Event>, trap: (ExceptionType, Hardware) -> Hardware): (r: Hardware)
    requires Sound(h) && TrapHandler(trap) && Events(es)
    ensures Sound(r)
  {
    if es == [] then h else AfterNow(RunNow(h, es[..|es| - 1], trap), es[|es| - 1], trap)
  }

  lemma StepNowKeepsSound(h: Hardware)
    requires Sound(h)
    ensures Sound(StepNow(h).state)
  {
    match ReadMem(h, h.cpu.pc, 4)
    case ReadFault(_) =>
    case Read(raw, t) =>
      var i, c := Decode(raw), h.cpu;
      PerformNowKeepsSound(Plan(i, c.gpr[i.rs], c.gpr[i.rt], c.hi, c.lo, c.nextPc), i.rt, h.(table := t));
  }

  lemma PerformNowKeepsSound(a: Action, rt: reg, h: Hardware)
    requires Sound(h)
    requires a.Store? ==> a.size == 1 || a.size == 2 || a.size == 4
    ensures Sound(PerformNow(a, rt, h).state)
  {
  }

  /** Every instruction of the run is safe in the slot it executes in. */
  ghost predicate RunSafe(h: Hardware, es: seq<Event>, trap: (ExceptionType, Hardware) -> Hardware)
    requires Sound(h) && TrapHandler(trap) && Events(es)
  {
    forall j :: 0 <= j < |es| && es[j].Instruct? ==> NextSafe(Run(h, es[..j], trap))
  }

  lemma AfterAgrees(h: Hardware, e: Event, trap: (ExceptionType, Hardware) -> Hardware)
    requires Sound(h) && TrapHandler(trap) && (e.Kernel? ==> Handler(e.handler))
    requires e.Instruct? ==> NextSafe(h)
    ensures Sound(Flush(h)) && Flush(After(h, e, trap)) == AfterNow(Flush(h), e, trap)
  {
    hide Step; hide StepNow;
    FlushTwice(h);
    if e.Instruct? {
      InstructAgrees(h, trap);
    }
  }

  lemma InstructAgrees(h: Hardware, trap: (ExceptionType, Hardware) -> Hardware)
    requires Sound(h) && TrapHandler(trap) && NextSafe(h)
    ensures Sound(Step(h).state) && Sound(Flush(h)) && Sound(StepNow(Flush(h)).state)
    ensures Flush(Handle(Step(h), trap)) == HandleNow(StepNow(Flush(h)), trap)
  {
    hide Step; hide StepNow;
    FlushTwice(h);
    StepAgrees(h);
    StepNowKeepsSound(Flush(h));
    if Step(h).Trapped? {
      TrapChangesNothing(h);
    }
    HandleAgrees(Step(h), StepNow(Flush(h)), trap);
  }

  lemma HandleAgrees(o: Outcome, p: Outcome, trap: (ExceptionType, Hardware) -> Hardware)
    requires Sound(o.state) && Sound(p.state) && TrapHandler(trap) && Agree(o, p)
    requires o.Trapped? ==> o.state.cpu.loadReg == 0 && o.state.cpu.loadValue == 0
    ensures Flush(Handle(o, trap)) == HandleNow(p, trap)
  {
    if o.Trapped? {
      assert Flush(o.state).cpu.gpr == o.state.cpu.gpr;
    }
  }

  lemma RunSafePrefix(h: Hardware, es: seq<Event>, n: nat, trap: (ExceptionType, Hardware) -> Hardware)
    requires Sound(h) && TrapHandler(trap) && Events(es) && n <= |es| && RunSafe(h, es, trap)
    ensures Events(es[..n]) && RunSafe(h, es[..n], trap)
  {
    hide NextSafe; hide After;
    forall j | 0 <= j < n && es[j].Instruct? ensures NextSafe(Run(h, es[..n][..j], trap)) {
      assert es[..n][..j] == es[..j];
    }
  }

  /** Main theorem: after every event the simulator, with its pending load
      applied, is in the state of the processor without delayed loads. */
  lemma {:induction false} DelayIsInvisible(h: Hardware, es: seq<Event>, trap: (ExceptionType, Hardware) -> Hardware)
    requires Sound(h) && TrapHandler(trap) && Events(es) && RunSafe(h, es, trap)
    ensures Sound(Flush(h)) && Flush(Run(h, es, trap)) == RunNow(Flush(h), es, trap)
  {
    if es != [] {
      var n := |es| - 1;
      RunSafePrefix(h, es, n, trap);
      DelayIsInvisible(h, es[..n], trap);
      AfterAgrees(Run(h, es[..n], trap), es[n], trap);
    }
  }

  lemma FlushTwice(h: Hardware)
    requires Sound(h)
    ensures Sound(Flush(h)) && Flush(Flush(h)) == Flush(h)
  {
    assert Flush(h).cpu.gpr[0 := 0][0 := 0] == Flush(h).cpu.gpr;
  }

  /** The run without its pure interrupts. */
  ghost function Quiet(es: seq<Event>): (r: seq<Event>)
    ensures Events(es) ==> Events(r)
  {
    if es == [] then []
    else
      var q := Quiet(es[..|es| - 1]);
      assert Events(es) ==> Events(es[..|es| - 1]);
      if es[|es| - 1].Interrupt? then q else q + [es[|es| - 1]]
  }

  lemma {:induction false} InterruptsDoNothingNow(h: Hardware, es: seq<Event>, trap: (ExceptionType, Hardware) -> Hardware)
    requires Sound(h) && TrapHandler(trap) && Events(es)
    ensures RunNow(h, es, trap) == RunNow(h, Quiet(es), trap)
  {
    if es != [] {
      var n := |es| - 1;
      InterruptsDoNothingNow(h, es[..n], trap);
      if !es[n].Interrupt? {
        assert Quiet(es)[..|Quiet(es)| - 1] == Quiet(es[..n]);
      }
    }
  }

  /** Where interrupts strike, and so when pending loads are forced, cannot be
      told from the final state. */
  lemma InterruptsAreUnobservable(h: Hardware, es: seq<Event>, fs: seq<Event>, trap: (ExceptionType, Hardware) -> Hardware)
    requires Sound(h) && TrapHandler(trap) && Events(es) && Events(fs)
    requires RunSafe(h, es, trap) && RunSafe(h, fs, trap)
    requires Quiet(es) == Quiet(fs)
    ensures Flush(Run(h, es, trap)) == Flush(Run(h, fs, trap))
  {
    DelayIsInvisible(h, es, trap);
    DelayIsInvisible(h, fs, trap);
    InterruptsDoNothingNow(Flush(h), es, trap);
    InterruptsDoNothingNow(Flush(h), fs, trap);
  }

  /** The two processors leave different values in register r. */
  predicate Differs(i: Instruction, h: Hardware, r: reg)
    requires Sound(h) && |Exec(i, h).state.cpu.gpr| == 32 && |ExecNow(i, Flush(h)).state.cpu.gpr| == 32
  {
    Flush(Exec(i, h).state).cpu.gpr[r] != ExecNow(i, Flush(h)).state.cpu.gpr[r]
  }

  /** Each part of the condition on delay slots is needed, for every pending load
      that matters: an instruction that reads its register as rs or as rt computes
      with the old value, and one that sets the register is overwritten. */
  lemma SlotUseIsVisible(h: Hardware, d: reg, x: word)
    requires Sound(h) && h.cpu.loadReg != 0 && h.cpu.loadValue != h.cpu.gpr[h.cpu.loadReg]
    requires d != 0 && d != h.cpu.loadReg && x != h.cpu.loadValue
    ensures Differs(Instruction(ADDU, h.cpu.loadReg, 0, d, 0), h, d)
    ensures Differs(Instruction(ADDU, 0, h.cpu.loadReg, d, 0), h, d)
    ensures Differs(Instruction(ADDIU, 0, h.cpu.loadReg, 0, x), h, h.cpu.loadReg)
  {
    hide Exec; hide ExecNow;
    var p, f := h.cpu.loadReg, Flush(h);
    AddsRegisters(p, 0, d, h);
    AddsRegisters(0, p, d, h);
    AddsRegisters(p, 0, d, f);
    AddsRegisters(0, p, d, f);
    AddsImmediate(p, x, h);
    AddsImmediate(p, x, f);
  }

  /** ADDU, on either processor. */
  lemma AddsRegisters(rs: reg, rt: reg, d: reg, h: Hardware)
    requires Sound(h) && d != 0
    ensures var i := Instruction(ADDU, rs, rt, d, 0);
            var v := AluResult(ADDU, h.cpu.gpr[rs], h.cpu.gpr[rt], 0, 0, 0);
            && Exec(i, h) == Perform(Write(d, v), rt, h) && ExecNow(i, h) == PerformNow(Write(d, v), rt, h)
            && |Exec(i, h).state.cpu.gpr| == 32 && |ExecNow(i, h).state.cpu.gpr| == 32
  {
  }

  /** ADDIU of an immediate to R0, on either processor. */
  lemma AddsImmediate(rt: reg, x: word, h: Hardware)
    requires Sound(h) && rt != 0
    ensures var i := Instruction(ADDIU, 0, rt, 0, x);
            && Exec(i, h) == Perform(Write(rt, x), rt, h) && ExecNow(i, h) == PerformNow(Write(rt, x), rt, h)
            && |Exec(i, h).state.cpu.gpr| == 32 && |ExecNow(i, h).state.cpu.gpr| == 32
  {
  }

  /* Restarting after a trap. */

  function WithBadAddr(h: Hardware, a: word): Hardware { h.(cpu := h.cpu.(badVAddr := a)) }

  lemma BadAddrUnreadBy(action: Action, rt: reg, h: Hardware, a: word)
    requires Sound(h)
    requires action.Store? ==> action.size == 1 || action.size == 2 || action.size == 4
    ensures var o, p := PerformNow(action, rt, h), PerformNow(action, rt, WithBadAddr(h, a));
            if o.Done? then p == Done(WithBadAddr(o.state, a)) else p == o
  {
    hide Translate; hide LoadResult; hide MergeStore; hide Fetch; hide Deposit; hide Wrap;
  }

  /** No instruction reads the register of the bad address. */
  lemma BadAddrUnread(h: Hardware, a: word)
    requires Sound(h)
    ensures var o, p := StepNow(h), StepNow(WithBadAddr(h, a));
            if o.Done? then p == Done(WithBadAddr(o.state, a)) else p == o
  {
    hide Plan; hide Decode; hide Translate; hide PerformNow; hide Fetch;
    match ReadMem(h, h.cpu.pc, 4)
    case ReadFault(_) =>
    case Read(raw, t) =>
      var i, c := Decode(raw), h.cpu;
      BadAddrUnreadBy(Plan(i, c.gpr[i.rs], c.gpr[i.rt], c.hi, c.lo, c.nextPc), i.rt, h.(table := t), a);
  }

  /** A trapped instruction can be started again. Whatever the handler made of the
      page table or TLB, the simulator does next what the processor without delayed
      loads would have done with that table from the state before the trap, up to
      the register of the bad address. */
  lemma RestartAfterTrap(h: Hardware, repaired: Table)
    requires Sound(h) && Step(h).Trapped?
    ensures var resumed := Step(h).state.(table := repaired);
            var o := StepNow(Flush(h).(table := repaired));
            && Sound(resumed) && |Step(resumed).state.cpu.gpr| == 32
            && Agree(Step(resumed), if o.Done? then Done(WithBadAddr(o.state, resumed.cpu.badVAddr)) else o)
  {
    hide Step; hide StepNow; hide Agree;
    StepKeepsSound(h);
    TrapChangesNothing(h);
    var resumed := Step(h).state.(table := repaired);
    FlushTwice(h);
    assert resumed == WithBadAddr(Flush(h).(table := repaired), resumed.cpu.badVAddr);
    assert Flush(resumed) == resumed && resumed.cpu.loadReg == 0;
    NothingPending(resumed);
    StepAgrees(resumed);
    BadAddrUnread(Flush(h).(table := repaired), resumed.cpu.badVAddr);
  }

  lemma NothingPending(h: Hardware)
    requires Sound(h) && h.cpu.loadReg == 0
    ensures NextSafe(h)
  {
  }
}
