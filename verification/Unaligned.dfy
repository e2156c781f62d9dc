/** Unaligned words with SWL/SWR and LWL/LWR (the SIM_FIX branches). */
module Unaligned {
  import opened Words
  import opened Memory
  import opened Isa
  import opened Mips
  import opened DelayedLoads

  lemma SameBytes(v: word, w: word)
    requires forall k :: 0 <= k < 4 ==> WordByte(v, k) == WordByte(w, k)
    ensures v == w
  {
    assert WordByte(v, 0) == WordByte(w, 0) && WordByte(v, 1) == WordByte(w, 1)
        && WordByte(v, 2) == WordByte(w, 2) && WordByte(v, 3) == WordByte(w, 3);
    BytesOfWord(v);
    BytesOfWord(w);
  }

  /** A byte and the aligned word around it live in the same place. */
  lemma ByteInWord(t: Table, base: word, lane: nat, writing: bool)
    requires base % 4 == 0 && lane < 4
    requires Translate(t, base, 4, writing).Mapped?
    ensures base + lane < WORD
    ensures Translate(t, base + lane, 1, false).Mapped?
    ensures Translate(t, base + lane, 1, false).physical == Translate(t, base, 4, writing).physical + lane
  {
    var page, q := base / 128, base % 128 / 4;
    assert base % 128 % 4 == 0 by { assert base == 4 * (32 * page) + base % 128; }
    assert base == 128 * page + 4 * q && q < 32;
    assert (base + lane) / 128 == page && (base + lane) % 128 == 4 * q + lane;
  }

  /** What a partial store of v leaves in byte q of memory, `lane` being the
      byte of the word at p that was addressed. */
  function PartByte(m: seq<byte>, left: bool, lane: nat, p: nat, v: word, q: nat): byte
    requires lane < 4 && p + 4 <= |m| && q < |m|
  {
    if left && p <= q <= p + lane then WordByte(v, q - p + 3 - lane)
    else if !left && p + lane <= q < p + 4 then WordByte(v, q - p - lane)
    else m[q]
  }

  ghost predicate PartStored(m: seq<byte>, m': seq<byte>, left: bool, lane: nat, p: nat, v: word)
    requires lane < 4 && p + 4 <= |m|
  {
    |m'| == |m| && forall q :: 0 <= q < |m| ==> m'[q] == PartByte(m, left, lane, p, v, q)
  }

  lemma StoreEffect(left: bool, lane: nat, m: seq<byte>, p: nat, v: word)
    requires lane < 4 && p + 4 <= |m|
    ensures PartStored(m, Deposit(m, p, 4, MergeStore(left, lane, Fetch(m, p, 4), v)), left, lane, p, v)
  {
    var m' := Deposit(m, p, 4, MergeStore(left, lane, Fetch(m, p, 4), v));
    forall q | 0 <= q < |m| ensures m'[q] == PartByte(m, left, lane, p, v, q) {
      if p <= q < p + 4 {
        StoreLane(left, lane, m, p, v, q - p);
      }
    }
  }

  /** Which bytes of its word a partial store replaces. */
  lemma StoreLane(left: bool, lane: nat, m: seq<byte>, p: nat, v: word, j: nat)
    requires lane < 4 && p + 4 <= |m| && j < 4
    ensures Deposit(m, p, 4, MergeStore(left, lane, Fetch(m, p, 4), v))[p + j]
         == if left && j <= lane then WordByte(v, j + 3 - lane)
            else if !left && j >= lane then WordByte(v, j - lane)
            else m[p + j]
  {
    var old4 := Fetch(m, p, 4);
    WordOfBytes(m[p], m[p + 1], m[p + 2], m[p + 3]);
    var w := MergeStore(left, lane, old4, v);
    if left {
      if lane == 2 { WordOfBytes(Byte1(v), Byte2(v), Byte3(v), Byte3(old4)); }
      else if lane == 1 { WordOfBytes(Byte2(v), Byte3(v), Byte2(old4), Byte3(old4)); }
      else if lane == 0 { WordOfBytes(Byte3(v), Byte1(old4), Byte2(old4), Byte3(old4)); }
    } else {
      if lane == 3 { WordOfBytes(Byte0(old4), Byte1(old4), Byte2(old4), Byte0(v)); }
      else if lane == 2 { WordOfBytes(Byte0(old4), Byte1(old4), Byte0(v), Byte1(v)); }
      else if lane == 1 { WordOfBytes(Byte0(old4), Byte0(v), Byte1(v), Byte2(v)); }
    }
  }

  /** What a partial load leaves in byte k of the register. */
  function LoadedByte(m: seq<byte>, left: bool, lane: nat, p: nat, was: word, k: nat): byte
    requires lane < 4 && p + 4 <= |m| && k < 4
  {
    if left && k >= 3 - lane then m[p + k - (3 - lane)]
    else if !left && k < 4 - lane then m[p + lane + k]
    else WordByte(was, k)
  }

  /** Which bytes of the register a partial load replaces. */
  lemma LoadLane(left: bool, lane: nat, m: seq<byte>, p: nat, was: word, k: nat)
    requires lane < 4 && p + 4 <= |m| && k < 4
    ensures WordByte(LoadResult(if left then Left else Right, lane, Fetch(m, p, 4), was), k)
         == LoadedByte(m, left, lane, p, was, k)
  {
    var v := Fetch(m, p, 4);
    WordOfBytes(m[p], m[p + 1], m[p + 2], m[p + 3]);
    if left {
      if lane == 2 { WordOfBytes(Byte0(was), Byte0(v), Byte1(v), Byte2(v)); }
      else if lane == 1 { WordOfBytes(Byte0(was), Byte1(was), Byte0(v), Byte1(v)); }
      else if lane == 0 { WordOfBytes(Byte0(was), Byte1(was), Byte2(was), Byte0(v)); }
    } else {
      if lane == 3 { WordOfBytes(Byte3(v), Byte1(was), Byte2(was), Byte3(was)); }
      else if lane == 2 { WordOfBytes(Byte2(v), Byte3(v), Byte2(was), Byte3(was)); }
      else if lane == 1 { WordOfBytes(Byte1(v), Byte2(v), Byte3(v), Byte3(was)); }
    }
  }

  /** Physical place of byte k of an unaligned word: `lane` is the word's offset
      in its first aligned word, at p0; the rest spills into the one at p3. */
  function Place(p0: nat, p3: nat, lane: nat, k: nat): nat
    requires lane < 4 && k < 4
  {
    if lane + k < 4 then p0 + lane + k else p3 + (lane + k - 4)
  }

  ghost predicate Apart(p0: nat, p3: nat, lane: nat) {
    if lane == 0 then p0 == p3 else p3 + 4 <= p0 || p0 + 4 <= p3
  }

  /** SWL at the last byte and SWR at the first together store the word, and
      nothing else. */
  lemma BothStored(m: seq<byte>, m1: seq<byte>, m2: seq<byte>, p0: nat, p3: nat, lane: nat, v: word)
    requires lane < 4 && p0 + 4 <= |m| && p3 + 4 <= |m| && Apart(p0, p3, lane)
    requires PartStored(m, m1, true, (lane + 3) % 4, p3, v)
    requires PartStored(m1, m2, false, lane, p0, v)
    ensures forall k :: 0 <= k < 4 ==> m2[Place(p0, p3, lane, k)] == WordByte(v, k)
    ensures forall q :: 0 <= q < |m| && m2[q] != m[q] ==> exists k :: 0 <= k < 4 && q == Place(p0, p3, lane, k)
  {
    forall q | 0 <= q < |m| && m2[q] != m[q] ensures exists k :: 0 <= k < 4 && q == Place(p0, p3, lane, k) {
      assert m2[q] == PartByte(m1, false, lane, p0, v, q) && m1[q] == PartByte(m, true, (lane + 3) % 4, p3, v, q);
      if p0 + lane <= q < p0 + 4 {
        assert q == Place(p0, p3, lane, q - p0 - lane);
      } else {
        assert q == Place(p0, p3, lane, q - p3 + 4 - lane);
      }
    }
  }

  ghost predicate PartLoaded(m: seq<byte>, left: bool, lane: nat, p: nat, was: word, w: word)
    requires lane < 4 && p + 4 <= |m|
  {
    forall k :: 0 <= k < 4 ==> WordByte(w, k) == LoadedByte(m, left, lane, p, was, k)
  }

  lemma FourBytes(m: seq<byte>, left: bool, lane: nat, p: nat, was: word, w: word)
    requires lane < 4 && p + 4 <= |m|
    requires WordByte(w, 0) == LoadedByte(m, left, lane, p, was, 0) && WordByte(w, 1) == LoadedByte(m, left, lane, p, was, 1)
    requires WordByte(w, 2) == LoadedByte(m, left, lane, p, was, 2) && WordByte(w, 3) == LoadedByte(m, left, lane, p, was, 3)
    ensures PartLoaded(m, left, lane, p, was, w)
  {
  }

  lemma LoadEffect(left: bool, lane: nat, m: seq<byte>, p: nat, was: word)
    requires lane < 4 && p + 4 <= |m|
    ensures PartLoaded(m, left, lane, p, was, LoadResult(if left then Left else Right, lane, Fetch(m, p, 4), was))
  {
    LoadLane(left, lane, m, p, was, 0);
    LoadLane(left, lane, m, p, was, 1);
    LoadLane(left, lane, m, p, was, 2);
    LoadLane(left, lane, m, p, was, 3);
    FourBytes(m, left, lane, p, was, LoadResult(if left then Left else Right, lane, Fetch(m, p, 4), was));
  }

  /** Reading it back: LWL fills the top of the register, LWR the rest. */
  lemma BothLoaded(m: seq<byte>, p0: nat, p3: nat, lane: nat, was: word, l: word, r: word, v: word)
    requires lane < 4 && p0 + 4 <= |m| && p3 + 4 <= |m| && Apart(p0, p3, lane)
    requires forall k :: 0 <= k < 4 ==> m[Place(p0, p3, lane, k)] == WordByte(v, k)
    requires PartLoaded(m, true, (lane + 3) % 4, p3, was, l)
    requires PartLoaded(m, false, lane, p0, l, r)
    ensures r == v
  {
    forall k | 0 <= k < 4 ensures WordByte(r, k) == WordByte(v, k) {
      assert m[Place(p0, p3, lane, k)] == WordByte(v, k);
      assert lane + k >= 4 ==> WordByte(l, k) == m[p3 + (lane + k - 4)];
    }
    SameBytes(r, v);
  }

  /* The same on the machine. */

  function Base(a: word): word { a - a % 4 }

  /** The word containing an address may be read, or written. */
  ghost predicate Readable(t: Table, a: word) { Translate(t, Base(a), 4, false).Mapped? }

  ghost predicate Writable(t: Table, a: word) { Translate(t, Base(a), 4, true).Mapped? }

  /** Where that word lies. */
  ghost function FrameOf(t: Table, a: word): nat
    requires Readable(t, a)
  {
    Translate(t, Base(a), 4, false).physical
  }

  /** With a page table: the page is there and valid, its frame exists, and to
      write it is not read-only. */
  lemma AccessByPage(t: Table, a: word)
    requires t.PageTable?
    ensures Readable(t, a) <==>
      a / 128 < |t.entries| && t.entries[a / 128].valid && 0 <= t.entries[a / 128].physicalPage < NUM_PHYS_PAGES
    ensures Writable(t, a) <==> Readable(t, a) && !t.entries[a / 128].readOnly
  {
    var page, offset := a / 128, a % 128;
    DivMod(a, 4, 32 * page + offset / 4, offset % 4);
    DivMod(Base(a), 128, page, 4 * (offset / 4));
    DivMod(Base(a), 4, 32 * page + offset / 4, 0);
  }

  lemma WritableIsReadable(t: Table, a: word)
    requires Writable(t, a)
    ensures Readable(t, a) && FrameOf(t, a) == Translate(t, Base(a), 4, true).physical
  {
  }

  lemma Split(t: Table, a: word)
    requires Readable(t, a) && Readable(t, Wrap(a + 3))
    ensures Wrap(a + 3) % 4 == (a % 4 + 3) % 4
    ensures Apart(FrameOf(t, a), FrameOf(t, Wrap(a + 3)), a % 4)
  {
    LastByte(a);
    if a % 4 != 0 {
      var b, c := Base(a), Base(Wrap(a + 3));
      NextWord(b);
      FramesApart(FrameOf(t, a), FrameOf(t, Wrap(a + 3)), b, c);
    }
  }

  /** The last byte is in the same aligned word or the next one, wrapping. */
  lemma LastByte(a: word)
    ensures Wrap(a + 3) % 4 == (a % 4 + 3) % 4
    ensures Base(Wrap(a + 3)) == if a % 4 == 0 then a else Wrap(Base(a) + 4)
  {
    var n, lane := a / 4, a % 4;
    assert a == 4 * n + lane;
    if lane == 0 {
      assert Wrap(a + 3) == 4 * n + 3;
    } else if n + 1 < 0x4000_0000 {
      assert Wrap(a + 3) == 4 * (n + 1) + (lane - 1);
    } else {
      assert Wrap(a + 3) == lane - 1;
    }
  }

  lemma FramesApart(p: nat, q: nat, b: word, c: word)
    requires p % 128 == b % 128 && q % 128 == c % 128
    requires b % 4 == 0 && c % 4 == 0 && b % 128 != c % 128
    ensures p + 4 <= q || q + 4 <= p
  {
    ModMod(p);
    ModMod(q);
    ModMod(b);
    ModMod(c);
  }

  lemma ModMod(x: nat)
    ensures x % 4 == x % 128 % 4
  {
    var q, r := x / 128, x % 128;
    assert x == 4 * (32 * q + r / 4) + r % 4;
  }

  lemma NextWord(b: word)
    requires b % 4 == 0
    ensures Wrap(b + 4) % 128 != b % 128
    ensures Wrap(b + 4) % 4 == 0
  {
  }

  lemma SameAccess(t: Table, u: Table, a: word)
    requires SameMapping(t, u)
    ensures Writable(t, a) == Writable(u, a) && Readable(t, a) == Readable(u, a)
    ensures Readable(u, a) ==> FrameOf(t, a) == FrameOf(u, a)
  {
    SameTranslation(t, u, Base(a), 4, true);
    SameTranslation(t, u, Base(a), 4, false);
  }

  /** The effect of one partial store of v at address a. */
  ghost predicate StoreStep(left: bool, a: word, v: word, h: Hardware, h': Hardware)
    requires Sound(h) && Readable(h.table, a)
  {
    && PartStored(h.memory, h'.memory, left, a % 4, FrameOf(h.table, a), v)
    && SameMapping(h'.table, h.table)
    && Sound(h') && h'.cpu.gpr == Flush(h).cpu.gpr && h'.cpu.loadReg == 0
  }

  lemma StorePartDone(left: bool, a: word, v: word, rt: reg, h: Hardware)
    requires Sound(h)
    ensures var o := Perform(StorePart(left, Base(a), a % 4, v), rt, h);
            && (o.Done? <==> Writable(h.table, a))
            && (o.Done? ==> Readable(h.table, a) && StoreStep(left, a, v, h, o.state))
  {
    if Readable(h.table, a) {
      var t := Translate(h.table, Base(a), 4, false).table;
      SameTranslation(t, h.table, Base(a), 4, true);
      if Writable(h.table, a) {
        WritableIsReadable(h.table, a);
        SameMappingTransitive(Translate(t, Base(a), 4, true).table, t, h.table);
        StoreEffect(left, a % 4, h.memory, FrameOf(h.table, a), v);
      }
    }
  }

  /** SWL (left) or SWR of register rt at offset e from register rs. */
  function PartialStore(left: bool, rs: reg, rt: reg, e: word): Instruction {
    Instruction(if left then SWL else SWR, rs, rt, 0, e)
  }

  function PartialLoad(left: bool, rs: reg, rt: reg, e: word): Instruction {
    Instruction(if left then LWL else LWR, rs, rt, 0, e)
  }

  lemma PlanPartial(left: bool, rs: reg, rt: reg, e: word, vs: word, vt: word, hi: word, lo: word, nextPc: word)
    ensures var a := Wrap(vs + e);
            && Plan(PartialStore(left, rs, rt, e), vs, vt, hi, lo, nextPc) == StorePart(left, Base(a), a % 4, vt)
            && Plan(PartialLoad(left, rs, rt, e), vs, vt, hi, lo, nextPc)
               == Load(if left then Left else Right, Base(a), a % 4)
  {
    hide AluResult; hide AluTraps; hide HiLoResult; hide JumpTarget; hide Wrap;
  }

  /** A partial store completes exactly when its word may be written. */
  lemma ExecPartialStore(left: bool, rs: reg, rt: reg, e: word, h: Hardware)
    requires Sound(h)
    ensures var o, a := Exec(PartialStore(left, rs, rt, e), h), Wrap(h.cpu.gpr[rs] + e);
            && (o.Done? <==> Writable(h.table, a))
            && (o.Done? ==> Readable(h.table, a) && StoreStep(left, a, h.cpu.gpr[rt], h, o.state))
  {
    hide Plan; hide Perform; hide StoreStep;
    var c := h.cpu;
    PlanPartial(left, rs, rt, e, c.gpr[rs], c.gpr[rt], c.hi, c.lo, c.nextPc);
    StorePartDone(left, Wrap(h.cpu.gpr[rs] + e), h.cpu.gpr[rt], rt, h);
  }

  /** The effect of one partial load into rt from address a. */
  ghost predicate LoadStep(left: bool, a: word, rt: reg, h: Hardware, h': Hardware)
    requires Sound(h) && Readable(h.table, a)
  {
    && h'.memory == h.memory && SameMapping(h'.table, h.table)
    && Sound(h') && h'.cpu.gpr == Flush(h).cpu.gpr && h'.cpu.loadReg == rt
    && PartLoaded(h.memory, left, a % 4, FrameOf(h.table, a),
                  if h.cpu.loadReg == rt then h.cpu.loadValue else h.cpu.gpr[rt], h'.cpu.loadValue)
  }

  /** A partial load completes exactly when its word may be read. */
  lemma ExecPartialLoad(left: bool, rs: reg, rt: reg, e: word, h: Hardware)
    requires Sound(h)
    ensures var o, a := Exec(PartialLoad(left, rs, rt, e), h), Wrap(h.cpu.gpr[rs] + e);
            && (o.Done? <==> Readable(h.table, a))
            && (o.Done? ==> LoadStep(left, a, rt, h, o.state))
  {
    hide Plan; hide Perform; hide LoadStep;
    var c := h.cpu;
    PlanPartial(left, rs, rt, e, c.gpr[rs], c.gpr[rt], c.hi, c.lo, c.nextPc);
    LoadPartDone(left, Wrap(h.cpu.gpr[rs] + e), rt, h);
  }

  lemma LoadPartDone(left: bool, a: word, rt: reg, h: Hardware)
    requires Sound(h)
    ensures var o := Perform(Load(if left then Left else Right, Base(a), a % 4), rt, h);
            && (o.Done? <==> Readable(h.table, a))
            && (o.Done? ==> LoadStep(left, a, rt, h, o.state))
  {
    hide PartLoaded;
    if Readable(h.table, a) {
      var was := if h.cpu.loadReg == rt then h.cpu.loadValue else h.cpu.gpr[rt];
      LoadEffect(left, a % 4, h.memory, FrameOf(h.table, a), was);
    }
  }

  /** Physical place of virtual byte a + k. */
  ghost function PlaceOf(t: Table, a: word, k: nat): nat
    requires Readable(t, a) && Readable(t, Wrap(a + 3)) && k < 4
  {
    Place(FrameOf(t, a), FrameOf(t, Wrap(a + 3)), a % 4, k)
  }

  /** `PlaceOf` is where a byte access to that virtual address goes. */
  lemma PlaceIsTranslation(t: Table, a: word, k: nat)
    requires Readable(t, a) && Readable(t, Wrap(a + 3)) && k < 4
    ensures Translate(t, Wrap(a + k), 1, false).Mapped?
    ensures Translate(t, Wrap(a + k), 1, false).physical == PlaceOf(t, a, k)
  {
    hide Translate; hide Wrap; hide Base;
    var lane := a % 4;
    LastByte(a);
    if lane + k < 4 {
      FirstWord(a, k);
      ByteInWord(t, Base(a), lane + k, false);
    } else {
      SecondWord(a, k);
      NextWord(Base(a));
      ByteInWord(t, Base(Wrap(a + 3)), lane + k - 4, false);
    }
  }

  lemma FirstWord(a: word, k: nat)
    requires a % 4 + k < 4
    ensures Base(a) % 4 == 0 && Wrap(a + k) == Base(a) + (a % 4 + k)
  {
    assert a == 4 * (a / 4) + a % 4;
  }

  lemma SecondWord(a: word, k: nat)
    requires k < 4 && a % 4 + k >= 4
    ensures Base(a) % 4 == 0 && Wrap(a + k) == Wrap(Base(a) + 4) + (a % 4 + k - 4)
  {
    assert a + k == Base(a) + 4 + (a % 4 + k - 4);
    assert Base(a) == 4 * (a / 4);
  }

  /** Little-endian value v at virtual addresses a to a + 3. */
  ghost predicate Holds(h: Hardware, a: word, v: word)
    requires |h.memory| == MEMORY_SIZE
  {
    && Readable(h.table, a) && Readable(h.table, Wrap(a + 3))
    && forall k :: 0 <= k < 4 ==>
         PlaceOf(h.table, a, k) < MEMORY_SIZE && h.memory[PlaceOf(h.table, a, k)] == WordByte(v, k)
  }

  /** No physical byte differs except the four of the word at a. */
  ghost predicate OnlyWordChanged(h: Hardware, h': Hardware, a: word) {
    && |h.memory| == |h'.memory| && Readable(h'.table, a) && Readable(h'.table, Wrap(a + 3))
    && forall q :: 0 <= q < |h.memory| && h'.memory[q] != h.memory[q] ==>
         exists k :: 0 <= k < 4 && q == PlaceOf(h'.table, a, k)
  }

  lemma BothStoreSteps(h: Hardware, h1: Hardware, h2: Hardware, a: word, v: word)
    requires Sound(h) && Sound(h1) && Readable(h.table, Wrap(a + 3)) && Readable(h1.table, a)
    requires StoreStep(true, Wrap(a + 3), v, h, h1) && StoreStep(false, a, v, h1, h2)
    ensures SameMapping(h2.table, h.table) && Holds(h2, a, v) && OnlyWordChanged(h, h2, a)
  {
    hide PartStored; hide Translate; hide Apart; hide SameMapping; hide WordByte;
    var a3 := Wrap(a + 3);
    SameMappingTransitive(h2.table, h1.table, h.table);
    SameAccess(h2.table, h.table, a3);
    SameAccess(h2.table, h1.table, a);
    Split(h2.table, a);
    var p0, p3 := FrameOf(h2.table, a), FrameOf(h2.table, a3);
    BothStored(h.memory, h1.memory, h2.memory, p0, p3, a % 4, v);
    forall q | 0 <= q < MEMORY_SIZE && h2.memory[q] != h.memory[q]
      ensures exists k :: 0 <= k < 4 && q == PlaceOf(h2.table, a, k)
    {
      var k :| 0 <= k < 4 && q == Place(p0, p3, a % 4, k);
      assert q == PlaceOf(h2.table, a, k);
    }
  }

  /** The pending load, unless the instruction may not see it, leaves the
      operands alone. */
  lemma OperandsKept(i: Instruction, h: Hardware)
    requires Sound(h) && SlotSafe(i, h.cpu.loadReg)
    ensures ReadsRs(i.op) ==> Flush(h).cpu.gpr[i.rs] == h.cpu.gpr[i.rs]
    ensures ReadsRt(i.op) ==> Flush(h).cpu.gpr[i.rt] == h.cpu.gpr[i.rt]
  {
  }

  /** SWL at a + 3 and SWR at a, where both words may be written: they complete,
      and store the word and no other byte of memory. */
  lemma UnalignedStore(h: Hardware, rs: reg, rt: reg, e3: word, e: word) returns (h1: Hardware, h2: Hardware)
    requires Sound(h) && SlotSafe(PartialStore(true, rs, rt, e3), h.cpu.loadReg)
    requires Wrap(h.cpu.gpr[rs] + e3) == Wrap(Wrap(h.cpu.gpr[rs] + e) + 3)
    requires Writable(h.table, Wrap(h.cpu.gpr[rs] + e)) && Writable(h.table, Wrap(h.cpu.gpr[rs] + e3))
    ensures Exec(PartialStore(true, rs, rt, e3), h) == Done(h1) && Sound(h1)
    ensures Exec(PartialStore(false, rs, rt, e), h1) == Done(h2) && Sound(h2)
    ensures var a := Wrap(h.cpu.gpr[rs] + e);
            && h2.cpu.gpr == Flush(h).cpu.gpr && h2.cpu.loadReg == 0
            && SameMapping(h2.table, h.table)
            && Holds(h2, a, h.cpu.gpr[rt]) && OnlyWordChanged(h, h2, a)
  {
    hide Exec; hide Holds; hide OnlyWordChanged; hide Wrap; hide Writable; hide Readable; hide PartStored; hide SameMapping;
    var a := Wrap(h.cpu.gpr[rs] + e);
    OperandsKept(PartialStore(true, rs, rt, e3), h);
    ExecPartialStore(true, rs, rt, e3, h);
    h1 := Exec(PartialStore(true, rs, rt, e3), h).state;
    SameAccess(h1.table, h.table, a);
    ExecPartialStore(false, rs, rt, e, h1);
    h2 := Exec(PartialStore(false, rs, rt, e), h1).state;
    assert Flush(h1).cpu.gpr == h1.cpu.gpr;
    BothStoreSteps(h, h1, h2, a, h.cpu.gpr[rt]);
  }

  /** Where one of the two words may not be written, one of the instructions traps. */
  lemma UnalignedStoreNeedsBoth(h: Hardware, rs: reg, rt: reg, e3: word, e: word)
    requires Sound(h) && SlotSafe(PartialStore(true, rs, rt, e3), h.cpu.loadReg)
    requires Wrap(h.cpu.gpr[rs] + e3) == Wrap(Wrap(h.cpu.gpr[rs] + e) + 3)
    ensures var o := Exec(PartialStore(true, rs, rt, e3), h);
            && (o.Done? ==> Sound(o.state))
            && (o.Done? && Exec(PartialStore(false, rs, rt, e), o.state).Done? <==>
                  Writable(h.table, Wrap(h.cpu.gpr[rs] + e)) && Writable(h.table, Wrap(h.cpu.gpr[rs] + e3)))
  {
    hide Exec; hide Wrap; hide Writable; hide Readable; hide PartStored; hide SameMapping;
    OperandsKept(PartialStore(true, rs, rt, e3), h);
    ExecPartialStore(true, rs, rt, e3, h);
    if Exec(PartialStore(true, rs, rt, e3), h).Done? {
      var h1 := Exec(PartialStore(true, rs, rt, e3), h).state;
      SameAccess(h1.table, h.table, Wrap(h.cpu.gpr[rs] + e));
      ExecPartialStore(false, rs, rt, e, h1);
    }
  }

  lemma BothLoadSteps(h: Hardware, h1: Hardware, h2: Hardware, a: word, rt: reg, v: word)
    requires Sound(h) && Sound(h1)
    requires Holds(h, a, v) && Readable(h1.table, a)
    requires LoadStep(true, Wrap(a + 3), rt, h, h1) && LoadStep(false, a, rt, h1, h2)
    ensures Flush(h2).cpu.gpr == Flush(h).cpu.gpr[rt := v][0 := 0] && h2.memory == h.memory
  {
    hide PartLoaded; hide Translate; hide Apart; hide SameMapping; hide WordByte;
    var a3 := Wrap(a + 3);
    LastByte(a);
    SameAccess(h1.table, h.table, a);
    Split(h.table, a);
    var p0, p3 := FrameOf(h.table, a), FrameOf(h.table, a3);
    forall k | 0 <= k < 4 ensures h.memory[Place(p0, p3, a % 4, k)] == WordByte(v, k) {
      assert h.memory[PlaceOf(h.table, a, k)] == WordByte(v, k);
    }
    var was := if h.cpu.loadReg == rt then h.cpu.loadValue else h.cpu.gpr[rt];
    BothLoaded(h.memory, p0, p3, a % 4, was, h1.cpu.loadValue, h2.cpu.loadValue, v);
  }

  /** LWL at a + 3 and LWR at a, the second one picking up the first through the
      pending load, succeed and read whatever word is there, on read-only pages
      too; a load that was pending before them lands as it should. */
  lemma UnalignedLoad(h: Hardware, rs: reg, rt: reg, e3: word, e: word, v: word) returns (h1: Hardware, h2: Hardware)
    requires Sound(h) && SlotSafe(PartialLoad(true, rs, rt, e3), h.cpu.loadReg)
    requires Wrap(h.cpu.gpr[rs] + e3) == Wrap(Wrap(h.cpu.gpr[rs] + e) + 3)
    requires Holds(h, Wrap(h.cpu.gpr[rs] + e), v)
    ensures Exec(PartialLoad(true, rs, rt, e3), h) == Done(h1) && Sound(h1)
    ensures Exec(PartialLoad(false, rs, rt, e), h1) == Done(h2) && Sound(h2)
    ensures Flush(h2).cpu.gpr == Flush(h).cpu.gpr[rt := v][0 := 0] && h2.memory == h.memory
  {
    hide Exec; hide Wrap; hide Translate; hide PartLoaded; hide PlaceOf;
    var a := Wrap(h.cpu.gpr[rs] + e);
    OperandsKept(PartialLoad(true, rs, rt, e3), h);
    ExecPartialLoad(true, rs, rt, e3, h);
    h1 := Exec(PartialLoad(true, rs, rt, e3), h).state;
    SameAccess(h1.table, h.table, a);
    ExecPartialLoad(false, rs, rt, e, h1);
    h2 := Exec(PartialLoad(false, rs, rt, e), h1).state;
    BothLoadSteps(h, h1, h2, a, rt, v);
  }

  /** Round trip through memory, at any address and across any two writable
      pages: the stores complete, so do the loads, and they bring the word back. */
  lemma UnalignedRoundTrip(h: Hardware, rs: reg, rt: reg, dest: reg, e3: word, e: word)
      returns (h1: Hardware, h2: Hardware, h3: Hardware, h4: Hardware)
    requires Sound(h) && SlotSafe(PartialStore(true, rs, rt, e3), h.cpu.loadReg)
    requires Wrap(h.cpu.gpr[rs] + e3) == Wrap(Wrap(h.cpu.gpr[rs] + e) + 3)
    requires Writable(h.table, Wrap(h.cpu.gpr[rs] + e)) && Writable(h.table, Wrap(h.cpu.gpr[rs] + e3))
    ensures Exec(PartialStore(true, rs, rt, e3), h) == Done(h1) && Sound(h1)
    ensures Exec(PartialStore(false, rs, rt, e), h1) == Done(h2) && Sound(h2)
    ensures Exec(PartialLoad(true, rs, dest, e3), h2) == Done(h3) && Sound(h3)
    ensures Exec(PartialLoad(false, rs, dest, e), h3) == Done(h4) && Sound(h4)
    ensures Flush(h4).cpu.gpr == Flush(h).cpu.gpr[dest := h.cpu.gpr[rt]][0 := 0]
    ensures OnlyWordChanged(h, h2, Wrap(h.cpu.gpr[rs] + e)) && h4.memory == h2.memory
  {
    hide Exec; hide Holds; hide Wrap; hide OnlyWordChanged; hide SameMapping; hide Writable;
    OperandsKept(PartialStore(true, rs, rt, e3), h);
    h1, h2 := UnalignedStore(h, rs, rt, e3, e);
    assert Flush(h2).cpu.gpr == h2.cpu.gpr;
    h3, h4 := UnalignedLoad(h2, rs, dest, e3, e, h.cpu.gpr[rt]);
  }
}
