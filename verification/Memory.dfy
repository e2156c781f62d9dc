/** Address translation and the simulated main memory (machine/translate.cc). */
module Memory {
  import opened Words

  const PAGE_SIZE := 128
  const NUM_PHYS_PAGES := 128
  const MEMORY_SIZE := 16384

  datatype ExceptionType =
    | SyscallException | PageFaultException | ReadOnlyException | BusErrorException
    | AddressErrorException | OverflowException | IllegalInstrException

  datatype TranslationEntry = TranslationEntry(
    virtualPage: int, physicalPage: int, valid: bool, readOnly: bool, use: bool, dirty: bool)

  /** Either a linear page table or a TLB translates, never both. */
  datatype Table = PageTable(entries: seq<TranslationEntry>) | Tlb(entries: seq<TranslationEntry>)

  datatype Lookup = Missing(exception: ExceptionType) | At(index: nat)

  /** First valid TLB slot for the page, from slot i on. */
  function SearchTlb(es: seq<TranslationEntry>, vpn: nat, i: nat): (r: Lookup)
    requires i <= |es|
    ensures r.At? ==> i <= r.index < |es| && es[r.index].valid && es[r.index].virtualPage == vpn
    ensures r.Missing? ==> r.exception == PageFaultException
    ensures r.Missing? ==> forall k :: i <= k < |es| ==> !(es[k].valid && es[k].virtualPage == vpn)
    decreases |es| - i
  {
    if i == |es| then Missing(PageFaultException)
    else if es[i].valid && es[i].virtualPage == vpn then At(i)
    else SearchTlb(es, vpn, i + 1)
  }

  function FindEntry(t: Table, vpn: nat): (r: Lookup)
    ensures r.At? ==> r.index < |t.entries| && t.entries[r.index].valid
  {
    match t
    case PageTable(es) =>
      if vpn >= |es| then Missing(AddressErrorException)
      else if !es[vpn].valid then Missing(PageFaultException)
      else At(vpn)
    case Tlb(es) => SearchTlb(es, vpn, 0)
  }

  datatype Translation = Fault(exception: ExceptionType) | Mapped(physical: nat, table: Table)

  predicate Misaligned(addr: word, size: nat) {
    (size == 4 && addr % 4 != 0) || (size == 2 && addr % 2 != 0)
  }

  lemma FrameBounds(frame: nat, addr: word, size: nat)
    requires frame < NUM_PHYS_PAGES && !Misaligned(addr, size)
    requires size == 1 || size == 2 || size == 4
    ensures frame * 128 + addr % 128 + size <= MEMORY_SIZE
    ensures (frame * 128 + addr % 128) % 128 == addr % 128
  {
    var page, offset := addr / 128, addr % 128;
    DivMod(frame * 128 + offset, 128, frame, offset);
    DivMod(addr, 4, 32 * page + offset / 4, offset % 4);
    DivMod(addr, 2, 64 * page + offset / 2, offset % 2);
  }

  /** `Machine::Translate`. The bound is its closing ASSERT, which therefore never fires. */
  function Translate(t: Table, addr: word, size: nat, writing: bool): (r: Translation)
    requires size == 1 || size == 2 || size == 4
    ensures r.Mapped? ==> r.physical + size <= MEMORY_SIZE
    ensures r.Mapped? ==> r.physical % 128 == addr % 128
    ensures r.Mapped? ==> SameMapping(r.table, t)
  {
    if Misaligned(addr, size) then Fault(AddressErrorException)
    else
      match FindEntry(t, addr / 128)
      case Missing(e) => Fault(e)
      case At(i) =>
        var e := t.entries[i];
        if e.readOnly && writing then Fault(ReadOnlyException)
        else if !(0 <= e.physicalPage < NUM_PHYS_PAGES) then Fault(BusErrorException)
        else
          FrameBounds(e.physicalPage, addr, size);
          Mapped(e.physicalPage * 128 + addr % 128,
                 t.(entries := t.entries[i := e.(use := true, dirty := e.dirty || writing)]))
  }

  /** The entry that translates page vpn: of a page table that number, of a TLB
      the first valid one for the page. */
  predicate EntryFor(t: Table, vpn: nat, i: nat) {
    && i < |t.entries| && t.entries[i].valid
    && (t.PageTable? ==> i == vpn)
    && (t.Tlb? ==> t.entries[i].virtualPage == vpn
                   && forall k :: 0 <= k < i ==> !(t.entries[k].valid && t.entries[k].virtualPage == vpn))
  }

  lemma {:induction false} SearchFinds(es: seq<TranslationEntry>, vpn: nat, i: nat, from: nat)
    requires EntryFor(Tlb(es), vpn, i) && from <= i
    ensures SearchTlb(es, vpn, from) == At(i)
    decreases i - from
  {
    if from < i {
      SearchFinds(es, vpn, i, from + 1);
    }
  }

  /** Where an aligned address goes, by the entry of its page. */
  lemma TranslationByEntry(t: Table, addr: word, size: nat, writing: bool, i: nat)
    requires size == 1 || size == 2 || size == 4
    requires addr % size == 0 && EntryFor(t, addr / 128, i)
    ensures var r, e := Translate(t, addr, size, writing), t.entries[i];
            if e.readOnly && writing then r == Fault(ReadOnlyException)
            else if !(0 <= e.physicalPage < 128) then r == Fault(BusErrorException)
            else && r.Mapped? && r.physical == 128 * e.physicalPage + addr % 128
                 && r.table.entries[i].use && (r.table.entries[i].dirty <==> e.dirty || writing)
                 && forall k :: 0 <= k < |t.entries| && k != i ==> r.table.entries[k] == t.entries[k]
  {
    if t.Tlb? {
      SearchFinds(t.entries, addr / 128, i, 0);
    }
  }

  /** And what happens without one, or without alignment. */
  lemma NoTranslation(t: Table, addr: word, size: nat, writing: bool)
    requires size == 1 || size == 2 || size == 4
    ensures addr % size != 0 ==> Translate(t, addr, size, writing) == Fault(AddressErrorException)
    ensures addr % size == 0 && (forall i: nat :: !EntryFor(t, addr / 128, i)) ==>
              Translate(t, addr, size, writing)
              == Fault(if t.PageTable? && addr / 128 >= |t.entries| then AddressErrorException else PageFaultException)
  {
    var r := FindEntry(t, addr / 128);
    if r.At? {
      FirstFound(t, addr / 128);
    }
  }

  lemma FirstFound(t: Table, vpn: nat)
    requires FindEntry(t, vpn).At?
    ensures EntryFor(t, vpn, FindEntry(t, vpn).index)
  {
    if t.Tlb? {
      SearchIsFirst(t.entries, vpn, 0);
    }
  }

  lemma {:induction false} SearchIsFirst(es: seq<TranslationEntry>, vpn: nat, from: nat)
    requires from <= |es| && SearchTlb(es, vpn, from).At?
    ensures forall k :: from <= k < SearchTlb(es, vpn, from).index ==> !(es[k].valid && es[k].virtualPage == vpn)
    decreases |es| - from
  {
    if !(es[from].valid && es[from].virtualPage == vpn) {
      SearchIsFirst(es, vpn, from + 1);
    }
  }

  /** Entries that differ at most in their use and dirty bits. */
  predicate SameEntry(e: TranslationEntry, f: TranslationEntry) {
    e.(use := true, dirty := true) == f.(use := true, dirty := true)
  }

  predicate SameMapping(t: Table, u: Table) {
    && t.PageTable? == u.PageTable? && |t.entries| == |u.entries|
    && forall i :: 0 <= i < |t.entries| ==> SameEntry(t.entries[i], u.entries[i])
  }

  lemma {:induction false} SameSearch(es: seq<TranslationEntry>, fs: seq<TranslationEntry>, vpn: nat, i: nat)
    requires |es| == |fs| && i <= |es|
    requires forall k :: 0 <= k < |es| ==> SameEntry(es[k], fs[k])
    ensures SearchTlb(es, vpn, i) == SearchTlb(fs, vpn, i)
    decreases |es| - i
  {
    if i < |es| {
      assert SameEntry(es[i], fs[i]);
      SameSearch(es, fs, vpn, i + 1);
    }
  }

  /** Use and dirty bits never influence a translation. */
  lemma SameTranslation(t: Table, u: Table, addr: word, size: nat, writing: bool)
    requires SameMapping(t, u)
    requires size == 1 || size == 2 || size == 4
    ensures var r, q := Translate(t, addr, size, writing), Translate(u, addr, size, writing);
            r.Fault? == q.Fault?
            && (r.Fault? ==> r.exception == q.exception)
            && (r.Mapped? ==> r.physical == q.physical)
  {
    if t.Tlb? {
      SameSearch(t.entries, u.entries, addr / 128, 0);
    }
    var r := FindEntry(t, addr / 128);
    assert r.At? ==> SameEntry(t.entries[r.index], u.entries[r.index]);
  }

  lemma SameMappingTransitive(t: Table, u: Table, v: Table)
    requires SameMapping(t, u) && SameMapping(u, v)
    ensures SameMapping(t, v)
  {
    forall i | 0 <= i < |t.entries| ensures SameEntry(t.entries[i], v.entries[i]) {
      assert SameEntry(t.entries[i], u.entries[i]) && SameEntry(u.entries[i], v.entries[i]);
    }
  }

  /** Main memory is little-endian. */
  function Fetch(mem: seq<byte>, p: nat, size: nat): word
    requires size == 1 || size == 2 || size == 4
    requires p + size <= |mem|
  {
    if size == 1 then mem[p]
    else if size == 2 then FromBytes(mem[p], mem[p + 1], 0, 0)
    else FromBytes(mem[p], mem[p + 1], mem[p + 2], mem[p + 3])
  }

  function Deposit(mem: seq<byte>, p: nat, size: nat, v: word): (r: seq<byte>)
    requires size == 1 || size == 2 || size == 4
    requires p + size <= |mem|
    ensures |r| == |mem|
    ensures forall q :: 0 <= q < |mem| && !(p <= q < p + size) ==> r[q] == mem[q]
  {
    if size == 1 then mem[p := Byte0(v)]
    else if size == 2 then mem[p := Byte0(v)][p + 1 := Byte1(v)]
    else mem[p := Byte0(v)][p + 1 := Byte1(v)][p + 2 := Byte2(v)][p + 3 := Byte3(v)]
  }
}
