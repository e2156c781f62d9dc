/** The state of a formatted disk and who owns which sector. */
module Volumes {
  import opened Words
  import opened Bitmaps
  import opened DiskFormat
  import opened FileHeaders
  import opened Directories

  /** The on-disk structures, decoded: the free map, the two well-known headers,
      the directory, and for each entry in use the header it points to. */
  datatype Volume = Volume(bits: seq<bool>, mapHdr: Inode, dirHdr: Inode,
                           dir: seq<DirectoryEntry>, inodes: seq<Inode>)

  /** Everything that occupies one sector. */
  datatype Slot =
    | Boot(which: nat)                 // the headers of the map and of the directory
    | MapData(block: nat)
    | DirData(block: nat)
    | HeaderOf(entry: nat)
    | DataOf(entry: nat, block: nat)

  predicate Shaped(v: Volume) {
    && |v.bits| == NUM_SECTORS && |v.dir| == NUM_DIR_ENTRIES && |v.inodes| == NUM_DIR_ENTRIES
    && NamesSized(v.dir)
    && WellFormed(v.mapHdr) && v.mapHdr.numBytes == 128
    && WellFormed(v.dirHdr) && v.dirHdr.numBytes == 200
    && (forall i :: 0 <= i < NUM_DIR_ENTRIES && v.dir[i].inUse ==>
          v.dir[i].sector < NUM_SECTORS && WellFormed(v.inodes[i]))
  }

  predicate Has(v: Volume, s: Slot)
    requires Shaped(v)
  {
    match s
    case Boot(k) => k < 2
    case MapData(j) => j < v.mapHdr.numSectors
    case DirData(j) => j < v.dirHdr.numSectors
    case HeaderOf(i) => i < NUM_DIR_ENTRIES && v.dir[i].inUse
    case DataOf(i, j) => i < NUM_DIR_ENTRIES && v.dir[i].inUse && j < v.inodes[i].numSectors
  }

  /** The sector a slot occupies. */
  function At(v: Volume, s: Slot): (x: int)
    requires Shaped(v) && Has(v, s)
    ensures 0 <= x < NUM_SECTORS
  {
    match s
    case Boot(k) => k
    case MapData(j) => v.mapHdr.dataSectors[j]
    case DirData(j) => v.dirHdr.dataSectors[j]
    case HeaderOf(i) => v.dir[i].sector
    case DataOf(i, j) => v.inodes[i].dataSectors[j]
  }

  /** No sector has two owners. */
  ghost predicate Exclusive(v: Volume)
    requires Shaped(v)
  {
    forall s, t :: Has(v, s) && Has(v, t) && s != t ==> At(v, s) != At(v, t)
  }

  /** A sector is marked in the free map exactly when something owns it. */
  ghost predicate Accounted(v: Volume)
    requires Shaped(v)
  {
    && (forall s :: Has(v, s) ==> v.bits[At(v, s)])
    && (forall x :: 0 <= x < NUM_SECTORS && v.bits[x] ==> exists s :: Has(v, s) && At(v, s) == x)
  }

  ghost predicate NamesDistinct(v: Volume) {
    forall i, j :: 0 <= i < j < |v.dir| && v.dir[i].inUse && v.dir[j].inUse ==> NameKey(v.dir[i]) != NameKey(v.dir[j])
  }

  /** The invariant of the file system. */
  ghost predicate Consistent(v: Volume) {
    Shaped(v) && Exclusive(v) && Accounted(v) && NamesDistinct(v)
  }

  /* What Create and Remove do to a volume. */

  /** The reasons for which Create returns FALSE. */
  predicate CreateFails(v: Volume, name: seq<byte>, size: nat)
    requires Shaped(v)
  {
    || IndexOf(v.dir, Key(name, 9), 0) != -1
    || FirstClear(v.bits, 0) == -1
    || FreeIndex(v.dir, 0) == -1
    || CountClear(v.bits[FirstClear(v.bits, 0) := true]) < SectorsFor(size)
  }

  /** One entry is filled, its header on the first free sector and its data on
      the next ones; unused words of the header are unspecified. */
  predicate Created(v: Volume, name: seq<byte>, size: nat, v': Volume)
    requires Shaped(v) && Shaped(v') && !CreateFails(v, name, size)
  {
    var s := FirstClear(v.bits, 0);
    var k := FreeIndex(v.dir, 0);
    var a := Take(v.bits[s := true], SectorsFor(size));
    && v'.bits == a.bits
    && v'.mapHdr == v.mapHdr && v'.dirHdr == v.dirHdr
    && v'.dir == v.dir[k := Filled(v.dir[k], name, s)]
    && v'.inodes[k].numBytes == size && SectorsOf(v'.inodes[k]) == a.sectors
    && (forall i :: 0 <= i < NUM_DIR_ENTRIES && v.dir[i].inUse ==> v'.inodes[i] == v.inodes[i])
  }

  predicate Removed(v: Volume, name: seq<byte>, v': Volume)
    requires Shaped(v) && Shaped(v') && IndexOf(v.dir, Key(name, 9), 0) != -1
  {
    var i := IndexOf(v.dir, Key(name, 9), 0);
    && v'.bits == Release(v.bits, SectorsOf(v.inodes[i]))[v.dir[i].sector := false]
    && v'.mapHdr == v.mapHdr && v'.dirHdr == v.dirHdr
    && v'.dir == v.dir[i := v.dir[i].(inUse := false)]
    && (forall j :: 0 <= j < NUM_DIR_ENTRIES && j != i && v.dir[j].inUse ==> v'.inodes[j] == v.inodes[j])
  }

  /* Both keep the invariant. */

  /** The slots of the created file. */
  predicate OfEntry(s: Slot, k: nat) {
    (s.HeaderOf? && s.entry == k) || (s.DataOf? && s.entry == k)
  }

  lemma CreatedSlots(v: Volume, name: seq<byte>, size: nat, v': Volume, s: Slot)
    requires Shaped(v) && Shaped(v') && !CreateFails(v, name, size) && Created(v, name, size, v')
    ensures var k := FreeIndex(v.dir, 0);
            && (!OfEntry(s, k) ==> (Has(v', s) <==> Has(v, s)) && (Has(v, s) ==> At(v', s) == At(v, s)))
            && (OfEntry(s, k) && Has(v', s) ==> !v.bits[At(v', s)] && v'.bits[At(v', s)])
  {
    hide Fresh; hide Take; hide FirstClear; hide IndexOf; hide FreeIndex; hide CountClear;
    var k := FreeIndex(v.dir, 0);
    var x := FirstClear(v.bits, 0);
    CreatedSectors(v, name, size, v');
    if s.DataOf? && s.entry == k && Has(v', s) {
      assert At(v', s) == SectorsOf(v'.inodes[k])[s.block];
    }
  }

  /** The sectors of the created file were free and are now marked. */
  lemma CreatedSectors(v: Volume, name: seq<byte>, size: nat, v': Volume)
    requires Shaped(v) && Shaped(v') && !CreateFails(v, name, size) && Created(v, name, size, v')
    ensures var x := FirstClear(v.bits, 0);
            var ss := SectorsOf(v'.inodes[FreeIndex(v.dir, 0)]);
            && !v.bits[x] && v'.bits[x] && x !in ss
            && (forall j :: 0 <= j < |ss| ==> 0 <= ss[j] < NUM_SECTORS && !v.bits[ss[j]] && v'.bits[ss[j]])
            && (forall i, j :: 0 <= i < j < |ss| ==> ss[i] != ss[j])
            && (forall y :: 0 <= y < NUM_SECTORS ==> v'.bits[y] == (v.bits[y] || y == x || y in ss))
  {
    hide Take; hide CountClear; hide IndexOf;
    var x := FirstClear(v.bits, 0);
    TakeIsFresh(v.bits[x := true], SectorsFor(size));
  }

  lemma CreateKeepsExclusive(v: Volume, name: seq<byte>, size: nat, v': Volume)
    requires Consistent(v) && Shaped(v') && !CreateFails(v, name, size) && Created(v, name, size, v')
    ensures Exclusive(v')
  {
    hide Created; hide Take; hide CountClear; hide IndexOf; hide NamesDistinct; hide Shaped;
    var k := FreeIndex(v.dir, 0);
    forall s, t | Has(v', s) && Has(v', t) && s != t ensures At(v', s) != At(v', t) {
      CreatedSlots(v, name, size, v', s);
      CreatedSlots(v, name, size, v', t);
      if OfEntry(s, k) && OfEntry(t, k) {
        NewSlotsDiffer(v, name, size, v', s, t);
      }
    }
  }

  lemma NewSlotsDiffer(v: Volume, name: seq<byte>, size: nat, v': Volume, s: Slot, t: Slot)
    requires Shaped(v) && Shaped(v') && !CreateFails(v, name, size) && Created(v, name, size, v')
    requires Has(v', s) && Has(v', t) && s != t
    requires OfEntry(s, FreeIndex(v.dir, 0)) && OfEntry(t, FreeIndex(v.dir, 0))
    ensures At(v', s) != At(v', t)
  {
    hide Take; hide CountClear; hide FirstClear; hide IndexOf; hide FreeIndex; hide NameKey;
    CreatedSectors(v, name, size, v');
    var ss := SectorsOf(v'.inodes[FreeIndex(v.dir, 0)]);
    assert s.DataOf? ==> At(v', s) == ss[s.block];
    assert t.DataOf? ==> At(v', t) == ss[t.block];
  }

  lemma CreateKeepsAccounted(v: Volume, name: seq<byte>, size: nat, v': Volume)
    requires Consistent(v) && Shaped(v') && !CreateFails(v, name, size) && Created(v, name, size, v')
    ensures Accounted(v')
  {
    hide Take; hide CountClear; hide FirstClear; hide IndexOf; hide FreeIndex; hide NamesDistinct; hide Exclusive;
    hide NameKey; hide Named;
    var k := FreeIndex(v.dir, 0);
    CreatedSectors(v, name, size, v');
    forall s | Has(v', s) ensures v'.bits[At(v', s)] {
      CreatedSlots(v, name, size, v', s);
    }
    forall y | 0 <= y < NUM_SECTORS && v'.bits[y] ensures exists s :: Has(v', s) && At(v', s) == y {
      if v.bits[y] {
        var s :| Has(v, s) && At(v, s) == y;
        CreatedSlots(v, name, size, v', s);
        assert Has(v', s) && At(v', s) == y;
      } else if y == FirstClear(v.bits, 0) {
        assert Has(v', HeaderOf(k)) && At(v', HeaderOf(k)) == y;
      } else {
        var ss := SectorsOf(v'.inodes[k]);
        var j :| 0 <= j < |ss| && ss[j] == y;
        assert Has(v', DataOf(k, j)) && At(v', DataOf(k, j)) == y;
      }
    }
  }

  lemma CreateKeepsNames(v: Volume, name: seq<byte>, size: nat, v': Volume)
    requires Consistent(v) && Shaped(v') && !CreateFails(v, name, size) && Created(v, name, size, v')
    ensures NamesDistinct(v')
  {
    hide Take; hide CountClear; hide Exclusive; hide Accounted; hide NameKey;
    var k := FreeIndex(v.dir, 0);
    FilledKey(v.dir[k], name, FirstClear(v.bits, 0));
    assert forall i :: 0 <= i < |v.dir| ==> !Named(v.dir[i], Key(name, 9));
  }

  /** Create keeps the invariant. */
  lemma CreateKeepsConsistent(v: Volume, name: seq<byte>, size: nat, v': Volume)
    requires Consistent(v) && Shaped(v') && !CreateFails(v, name, size) && Created(v, name, size, v')
    ensures Consistent(v')
  {
    hide *;
    assert Consistent(v') by {
      CreateKeepsExclusive(v, name, size, v');
      CreateKeepsAccounted(v, name, size, v');
      CreateKeepsNames(v, name, size, v');
      FourParts(v');
    }
  }

  lemma FourParts(v: Volume)
    requires Shaped(v) && Exclusive(v) && Accounted(v) && NamesDistinct(v)
    ensures Consistent(v)
  {
  }

  /** The sectors of the removed file, header included. */
  ghost predicate InFile(v: Volume, i: nat, x: int)
    requires Shaped(v) && i < NUM_DIR_ENTRIES && v.dir[i].inUse
  {
    x == v.dir[i].sector || x in SectorsOf(v.inodes[i])
  }

  lemma RemovedSlots(v: Volume, name: seq<byte>, v': Volume, s: Slot)
    requires Shaped(v) && Shaped(v') && IndexOf(v.dir, Key(name, 9), 0) != -1 && Removed(v, name, v')
    ensures var i := IndexOf(v.dir, Key(name, 9), 0);
            && (Has(v', s) <==> Has(v, s) && !OfEntry(s, i))
            && (Has(v', s) ==> At(v', s) == At(v, s))
  {
    hide Release; hide NameKey;
  }

  lemma RemovedBits(v: Volume, name: seq<byte>, v': Volume, x: int)
    requires Shaped(v) && Shaped(v') && IndexOf(v.dir, Key(name, 9), 0) != -1 && Removed(v, name, v')
    requires 0 <= x < NUM_SECTORS
    ensures v'.bits[x] == (v.bits[x] && !InFile(v, IndexOf(v.dir, Key(name, 9), 0), x))
  {
    hide NameKey;
  }

  lemma FileSlots(v: Volume, i: nat, x: int)
    requires Shaped(v) && i < NUM_DIR_ENTRIES && v.dir[i].inUse && InFile(v, i, x)
    ensures exists s :: Has(v, s) && At(v, s) == x && OfEntry(s, i)
  {
    if x == v.dir[i].sector {
      assert Has(v, HeaderOf(i)) && At(v, HeaderOf(i)) == x && OfEntry(HeaderOf(i), i);
    } else {
      var ss := SectorsOf(v.inodes[i]);
      var j :| 0 <= j < |ss| && ss[j] == x;
      assert Has(v, DataOf(i, j)) && At(v, DataOf(i, j)) == x && OfEntry(DataOf(i, j), i);
    }
  }

  /** Remove keeps the invariant. */
  lemma RemoveKeepsConsistent(v: Volume, name: seq<byte>, v': Volume)
    requires Consistent(v) && Shaped(v') && IndexOf(v.dir, Key(name, 9), 0) != -1 && Removed(v, name, v')
    ensures Consistent(v')
  {
    hide Release; hide NameKey;
    var i := IndexOf(v.dir, Key(name, 9), 0);
    forall s, t | Has(v', s) && Has(v', t) && s != t ensures At(v', s) != At(v', t) {
      RemovedSlots(v, name, v', s);
      RemovedSlots(v, name, v', t);
    }
    forall s | Has(v', s) ensures v'.bits[At(v', s)] {
      RemovedSlots(v, name, v', s);
      RemovedBits(v, name, v', At(v, s));
      if InFile(v, i, At(v, s)) {
        FileSlots(v, i, At(v, s));
      }
    }
    forall x | 0 <= x < NUM_SECTORS && v'.bits[x] ensures exists s :: Has(v', s) && At(v', s) == x {
      RemovedBits(v, name, v', x);
      var s :| Has(v, s) && At(v, s) == x;
      RemovedSlots(v, name, v', s);
      if OfEntry(s, i) {
        NotInFile(v, i, s);
      }
    }
  }

  lemma NotInFile(v: Volume, i: nat, s: Slot)
    requires Shaped(v) && i < NUM_DIR_ENTRIES && v.dir[i].inUse && Has(v, s) && OfEntry(s, i)
    ensures InFile(v, i, At(v, s))
  {
    if s.DataOf? {
      assert At(v, s) == SectorsOf(v.inodes[i])[s.block];
    }
  }

  /** What `Directory::Find` answers: the header sector of a name, or -1. */
  function Find(v: Volume, key: seq<byte>): int {
    var i := IndexOf(v.dir, key, 0);
    if i == -1 then -1 else v.dir[i].sector
  }

  lemma {:induction false} SameIndex(es: seq<DirectoryEntry>, fs: seq<DirectoryEntry>, key: seq<byte>, i: nat)
    requires |es| == |fs| && i <= |es|
    requires forall k :: 0 <= k < |es| ==> Named(es[k], key) == Named(fs[k], key)
    ensures IndexOf(es, key, i) == IndexOf(fs, key, i)
    decreases |es| - i
  {
    hide Named;
    if i < |es| {
      SameIndex(es, fs, key, i + 1);
    }
  }

  lemma CreatedIndex(v: Volume, name: seq<byte>, size: nat, v': Volume)
    requires Shaped(v) && Shaped(v') && !CreateFails(v, name, size) && Created(v, name, size, v')
    ensures IndexOf(v'.dir, Key(name, 9), 0) == FreeIndex(v.dir, 0)
  {
    hide Take; hide CountClear; hide NameKey;
    var k := FreeIndex(v.dir, 0);
    FilledKey(v.dir[k], name, FirstClear(v.bits, 0));
    assert forall i :: 0 <= i < |v.dir| ==> !Named(v.dir[i], Key(name, 9));
    assert Named(v'.dir[k], Key(name, 9));
  }

  /** Create adds exactly one name, with a header that owns just enough fresh
      sectors; every other name keeps its file. */
  lemma CreateAddsOneName(v: Volume, name: seq<byte>, size: nat, v': Volume, key: seq<byte>)
    requires Shaped(v) && Shaped(v') && !CreateFails(v, name, size) && Created(v, name, size, v')
    ensures Find(v, Key(name, 9)) == -1 && Find(v', Key(name, 9)) == FirstClear(v.bits, 0)
    ensures v'.inodes[FreeIndex(v.dir, 0)].numBytes == size
    ensures v'.inodes[FreeIndex(v.dir, 0)].numSectors == SectorsFor(size)
    ensures key != Key(name, 9) ==> Find(v', key) == Find(v, key)
  {
    hide Take; hide CountClear; hide NameKey; hide FirstClear;
    var k := FreeIndex(v.dir, 0);
    CreatedIndex(v, name, size, v');
    FilledKey(v.dir[k], name, FirstClear(v.bits, 0));
    if key != Key(name, 9) {
      SameIndex(v'.dir, v.dir, key, 0);
    }
  }

  /** Removing what was just created gives back the free map, the names, and
      every remaining file. */
  lemma RemoveUndoesCreate(v: Volume, name: seq<byte>, size: nat, v1: Volume, v2: Volume, key: seq<byte>)
    requires Shaped(v) && Shaped(v1) && Shaped(v2)
    requires !CreateFails(v, name, size) && Created(v, name, size, v1)
    requires IndexOf(v1.dir, Key(name, 9), 0) != -1 && Removed(v1, name, v2)
    ensures v2.bits == v.bits
    ensures Find(v2, key) == Find(v, key)
    ensures forall i :: 0 <= i < NUM_DIR_ENTRIES ==> v2.dir[i].inUse == v.dir[i].inUse
    ensures forall i :: 0 <= i < NUM_DIR_ENTRIES && v.dir[i].inUse ==>
      v2.dir[i] == v.dir[i] && v2.inodes[i] == v.inodes[i]
  {
    hide Take; hide CountClear; hide NameKey; hide FirstClear; hide Release; hide WellFormed;
    var k := FreeIndex(v.dir, 0);
    CreatedIndex(v, name, size, v1);
    CreatedSectors(v, name, size, v1);
    forall y | 0 <= y < NUM_SECTORS ensures v2.bits[y] == v.bits[y] {
      RemovedBits(v1, name, v2, y);
    }
    assert v2.bits == v.bits;
    SameIndex(v2.dir, v.dir, key, 0);
  }
}
