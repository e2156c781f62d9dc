/** `class FileSystem` (filesys/filesys.cc): formatting, Create, Open and Remove on
the disk itself, where free map and directory are ordinary files. */
module FileSystems {
  import opened Words
  import opened Bitmaps
  import opened DiskFormat
  import opened OpenFiles
  import opened FileHeaders
  import opened Directories
  import opened Volumes

  const NO_INODE := Inode(0, 0, [])

  function HeaderAt(d: Image, sector: int): (h: Inode)
    requires 0 <= sector < NUM_SECTORS
    ensures |h.dataSectors| == NUM_DIRECT
  {
    DecodeHeader(d[sector])
  }

  function InodeOf(d: Image, e: DirectoryEntry): Inode {
    if e.inUse && e.sector < NUM_SECTORS then HeaderAt(d, e.sector) else NO_INODE
  }

  function InodesOf(d: Image, es: seq<DirectoryEntry>): (r: seq<Inode>)
    ensures |r| == |es|
  {
    seq(|es|, i requires 0 <= i < |es| => InodeOf(d, es[i]))
  }

  /** Sectors 0 and 1 hold usable headers of the free map and the directory. */
  predicate Mounted(d: Image) {
    && WellFormed(HeaderAt(d, 0)) && HeaderAt(d, 0).numBytes == 128
    && WellFormed(HeaderAt(d, 1)) && HeaderAt(d, 1).numBytes == 200
  }

  function FreeBits(d: Image, h: Inode): (bits: seq<bool>)
    requires WellFormed(h) && h.numBytes == 128
    ensures |bits| == NUM_SECTORS
  {
    BitsOf(DecodeBits(FileBytes(h, d)), 1024)
  }

  function Entries(d: Image, h: Inode): (es: seq<DirectoryEntry>)
    requires WellFormed(h) && h.numBytes == 200
    ensures |es| == NUM_DIR_ENTRIES && NamesSized(es)
  {
    DecodeEntries(FileBytes(h, d))
  }

  /** The volume a disk image represents. */
  function VolumeOf(d: Image): Volume
    requires Mounted(d)
  {
    var es := Entries(d, HeaderAt(d, 1));
    Volume(FreeBits(d, HeaderAt(d, 0)), HeaderAt(d, 0), HeaderAt(d, 1), es, InodesOf(d, es))
  }

  /** A sector that is not one of a file's data sectors. */
  ghost predicate Avoids(h: Inode, x: int)
    requires WellFormed(h)
  {
    forall j :: 0 <= j < h.numSectors ==> h.dataSectors[j] != x
  }

  lemma OutsideKept(h: Inode, d: Image, d': Image, x: int)
    requires WellFormed(h) && SameOutside(h, d, d') && Avoids(h, x) && 0 <= x < NUM_SECTORS
    ensures d'[x] == d[x]
  {
  }

  lemma InodesKept(h: Inode, d: Image, d': Image, es: seq<DirectoryEntry>)
    requires WellFormed(h) && SameOutside(h, d, d')
    requires forall i :: 0 <= i < |es| && es[i].inUse ==> Avoids(h, es[i].sector)
    ensures InodesOf(d', es) == InodesOf(d, es)
  {
    hide DecodeHeader; hide SameOutside; hide Avoids;
    forall i | 0 <= i < |es| && es[i].inUse && es[i].sector < NUM_SECTORS {
      OutsideKept(h, d, d', es[i].sector);
    }
  }

  /** After the free map file has been written. */
  lemma AfterMapWrite(d: Image, d': Image, ws: seq<bv32>)
    requires Mounted(d) && |ws| == 32
    requires var v := VolumeOf(d);
             && SameOutside(v.mapHdr, d, d') && FileBytes(v.mapHdr, d') == EncodeBits(ws)
             && Avoids(v.mapHdr, 0) && Avoids(v.mapHdr, 1) && Disjoint(v.mapHdr, v.dirHdr)
             && forall i :: 0 <= i < |v.dir| && v.dir[i].inUse ==> Avoids(v.mapHdr, v.dir[i].sector)
    ensures Mounted(d') && VolumeOf(d') == VolumeOf(d).(bits := BitsOf(ws, 1024))
  {
    hide FileBytes; hide BitsOf; hide DecodeBits; hide EncodeBits; hide DecodeEntries; hide DecodeHeader; hide InodesOf;
    hide SameOutside; hide Avoids; hide WellFormed; hide Disjoint;
    var v := VolumeOf(d);
    OutsideKept(v.mapHdr, d, d', 0);
    OutsideKept(v.mapHdr, d, d', 1);
    OtherFileKept(v.mapHdr, v.dirHdr, d, d');
    InodesKept(v.mapHdr, d, d', v.dir);
    BitsRoundTrip(ws);
  }

  /** After the directory file has been written. */
  lemma AfterDirWrite(d: Image, d': Image, es: seq<DirectoryEntry>)
    requires Mounted(d) && |es| == NUM_DIR_ENTRIES && NamesSized(es)
    requires var v := VolumeOf(d);
             && SameOutside(v.dirHdr, d, d') && FileBytes(v.dirHdr, d') == EncodeEntries(es)
             && Avoids(v.dirHdr, 0) && Avoids(v.dirHdr, 1) && Disjoint(v.dirHdr, v.mapHdr)
             && forall i :: 0 <= i < |es| && es[i].inUse ==> Avoids(v.dirHdr, es[i].sector)
    ensures Mounted(d') && VolumeOf(d') == VolumeOf(d).(dir := es, inodes := InodesOf(d, es))
  {
    hide FileBytes; hide BitsOf; hide DecodeBits; hide EncodeEntries; hide DecodeEntries; hide DecodeHeader; hide InodesOf;
    hide SameOutside; hide Avoids; hide WellFormed; hide Disjoint; hide NamesSized;
    var v := VolumeOf(d);
    OutsideKept(v.dirHdr, d, d', 0);
    OutsideKept(v.dirHdr, d, d', 1);
    OtherFileKept(v.dirHdr, v.mapHdr, d, d');
    InodesKept(v.dirHdr, d, d', es);
    EntriesRoundTrip(es);
  }

  /** Writing sectors that hold neither headers nor the two system files leaves
      the volume as it is. */
  lemma VolumeUntouched(d: Image, d': Image)
    requires Mounted(d) && Shaped(VolumeOf(d))
    requires forall s :: Has(VolumeOf(d), s) && !s.DataOf? ==> d'[At(VolumeOf(d), s)] == d[At(VolumeOf(d), s)]
    ensures Mounted(d') && VolumeOf(d') == VolumeOf(d)
  {
    hide BitsOf; hide DecodeBits; hide DecodeEntry; hide DecodeHeader; hide FileBytes;
    var v := VolumeOf(d);
    assert Has(v, Boot(0)) && At(v, Boot(0)) == 0;
    assert Has(v, Boot(1)) && At(v, Boot(1)) == 1;
    forall j | 0 <= j < v.mapHdr.numSectors ensures d'[v.mapHdr.dataSectors[j]] == d[v.mapHdr.dataSectors[j]] {
      assert Has(v, MapData(j)) && At(v, MapData(j)) == v.mapHdr.dataSectors[j];
    }
    SameFile(v.mapHdr, d, d');
    forall j | 0 <= j < v.dirHdr.numSectors ensures d'[v.dirHdr.dataSectors[j]] == d[v.dirHdr.dataSectors[j]] {
      assert Has(v, DirData(j)) && At(v, DirData(j)) == v.dirHdr.dataSectors[j];
    }
    SameFile(v.dirHdr, d, d');
    forall i | 0 <= i < NUM_DIR_ENTRIES && v.dir[i].inUse ensures InodeOf(d', v.dir[i]) == InodeOf(d, v.dir[i]) {
      assert Has(v, HeaderOf(i)) && At(v, HeaderOf(i)) == v.dir[i].sector;
    }
    assert InodesOf(d', v.dir) == InodesOf(d, v.dir);
  }

  lemma SameFile(h: Inode, d: Image, d': Image)
    requires WellFormed(h)
    requires forall j :: 0 <= j < h.numSectors ==> d'[h.dataSectors[j]] == d[h.dataSectors[j]]
    ensures FileBytes(h, d') == FileBytes(h, d)
  {
  }

  /* The free map as a file (filesys/pbitmap.cc). */

  method FetchBitmap(file: OpenFile) returns (freeMap: Bitmap)
    requires WellFormed(file.hdr) && file.hdr.numBytes == 128
    ensures fresh(freeMap) && fresh(freeMap.words)
    ensures freeMap.Valid() && freeMap.numBits == NUM_SECTORS
    ensures freeMap.Bits() == FreeBits(file.disk.sectors, file.hdr)
  {
    hide FileBytes; hide BitsOf;
    freeMap := new Bitmap(1024);
    var bs := file.ReadAt(128, 0);
    assert bs == FileBytes(file.hdr, file.disk.sectors);
    var ws := DecodeBits(bs);
    var i := 0;
    while i < 32
      invariant 0 <= i <= 32
      invariant forall k :: 0 <= k < i ==> freeMap.words[k] == ws[k]
    {
      freeMap.words[i] := ws[i];
      i := i + 1;
    }
    assert freeMap.words[..] == ws;
  }

  method WriteBackBitmap(freeMap: Bitmap, file: OpenFile)
    requires freeMap.Valid() && freeMap.numBits == NUM_SECTORS
    requires WellFormed(file.hdr) && file.hdr.numBytes == 128
    modifies file.disk
    ensures FileBytes(file.hdr, file.disk.sectors) == EncodeBits(freeMap.words[..])
    ensures SameOutside(file.hdr, old(file.disk.sectors), file.disk.sectors)
  {
    hide FileBytes; hide BitsOf; hide EncodeWords;
    var bs := EncodeBits(freeMap.words[..]);
    var _ := file.WriteAt(bs, 128, 0);
  }

  /** In a consistent volume the system files stay clear of everything else. */
  lemma SystemFilesApart(v: Volume)
    requires Consistent(v)
    ensures Avoids(v.mapHdr, 0) && Avoids(v.mapHdr, 1) && Avoids(v.dirHdr, 0) && Avoids(v.dirHdr, 1)
    ensures Disjoint(v.mapHdr, v.dirHdr) && Disjoint(v.dirHdr, v.mapHdr)
    ensures forall i :: 0 <= i < |v.dir| && v.dir[i].inUse ==>
      Avoids(v.mapHdr, v.dir[i].sector) && Avoids(v.dirHdr, v.dir[i].sector)
    ensures forall x :: 0 <= x < NUM_SECTORS && !v.bits[x] ==> Avoids(v.mapHdr, x) && Avoids(v.dirHdr, x)
  {
    hide NamesDistinct;
    forall j | 0 <= j < v.mapHdr.numSectors
      ensures Has(v, MapData(j)) && At(v, MapData(j)) == v.mapHdr.dataSectors[j] {}
    forall j | 0 <= j < v.dirHdr.numSectors
      ensures Has(v, DirData(j)) && At(v, DirData(j)) == v.dirHdr.dataSectors[j] {}
    assert Has(v, Boot(0)) && At(v, Boot(0)) == 0;
    assert Has(v, Boot(1)) && At(v, Boot(1)) == 1;
    forall i | 0 <= i < |v.dir| && v.dir[i].inUse
      ensures Has(v, HeaderOf(i)) && At(v, HeaderOf(i)) == v.dir[i].sector {}
  }

  /** The header sector of a new file is nobody's, so writing it changes nothing else. */
  lemma FreeSectorWrite(d: Image, x: int, data: Sector)
    requires Mounted(d) && Consistent(VolumeOf(d)) && 0 <= x < NUM_SECTORS && !VolumeOf(d).bits[x]
    ensures Mounted(d[x := data]) && VolumeOf(d[x := data]) == VolumeOf(d)
  {
    hide VolumeOf; hide Mounted; hide Exclusive; hide NamesDistinct; hide Shaped;
    VolumeUntouched(d, d[x := data]);
  }

  /** The three writes of a successful Create, in its order: the header, the
      directory, the free map. */
  lemma CreateEffect(d: Image, d1: Image, d2: Image, d3: Image, name: seq<byte>, size: nat, node: Inode, ws: seq<bv32>)
    requires Mounted(d) && Consistent(VolumeOf(d)) && !CreateFails(VolumeOf(d), name, size)
    requires var v := VolumeOf(d);
             var x, k := FirstClear(v.bits, 0), FreeIndex(v.dir, 0);
             var a := Take(v.bits[x := true], SectorsFor(size));
             var es := v.dir[k := Filled(v.dir[k], name, x)];
             && WellFormed(node) && node.numBytes == size && SectorsOf(node) == a.sectors
             && d1 == d[x := EncodeHeader(node)]
             && SameOutside(v.dirHdr, d1, d2) && FileBytes(v.dirHdr, d2) == EncodeEntries(es)
             && SameOutside(v.mapHdr, d2, d3) && FileBytes(v.mapHdr, d3) == EncodeBits(ws)
             && |ws| == 32 && BitsOf(ws, 1024) == a.bits
    ensures Mounted(d3) && Shaped(VolumeOf(d3)) && Created(VolumeOf(d), name, size, VolumeOf(d3))
    ensures HeaderAt(d3, 0) == HeaderAt(d, 0) && HeaderAt(d3, 1) == HeaderAt(d, 1)
  {
    hide Take; hide CountClear; hide FileBytes; hide BitsOf; hide EncodeBits; hide EncodeEntries; hide NameKey;
    hide SameOutside; hide Avoids; hide Disjoint; hide EncodeHeader; hide DecodeHeader; hide Exclusive; hide Accounted;
    hide NamesDistinct; hide DecodeEntries; hide DecodeBits; hide IndexOf;
    var v := VolumeOf(d);
    var x, k := FirstClear(v.bits, 0), FreeIndex(v.dir, 0);
    var es := v.dir[k := Filled(v.dir[k], name, x)];
    SystemFilesApart(v);
    FreeSectorWrite(d, x, EncodeHeader(node));
    HeaderRoundTrip(node);
    AfterDirWrite(d1, d2, es);
    AfterMapWrite(d2, d3, ws);
    forall i | 0 <= i < NUM_DIR_ENTRIES && v.dir[i].inUse ensures InodesOf(d1, es)[i] == v.inodes[i] {
      assert VolumeOf(d1).inodes[i] == InodeOf(d1, v.dir[i]);
    }
    assert InodesOf(d1, es)[k] == node;
  }

  /** The two writes of Remove: the free map, then the directory. */
  lemma RemoveEffect(d: Image, d1: Image, d2: Image, v: Volume, i: nat, name: seq<byte>, ws: seq<bv32>)
    requires Consistent(v) && i < NUM_DIR_ENTRIES && i == IndexOf(v.dir, Key(name, 9), 0)
    requires SameOutside(v.mapHdr, d, d1) && FileBytes(v.mapHdr, d1) == EncodeBits(ws)
    requires |ws| == 32 && BitsOf(ws, 1024) == Release(v.bits, SectorsOf(v.inodes[i]))[v.dir[i].sector := false]
    requires SameOutside(v.dirHdr, d1, d2)
    requires FileBytes(v.dirHdr, d2) == EncodeEntries(v.dir[i := v.dir[i].(inUse := false)])
    requires Mounted(d) && v == VolumeOf(d)
    ensures Mounted(d2) && Shaped(VolumeOf(d2)) && Removed(VolumeOf(d), name, VolumeOf(d2))
    ensures HeaderAt(d2, 0) == HeaderAt(d, 0) && HeaderAt(d2, 1) == HeaderAt(d, 1)
  {
    hide Release; hide FileBytes; hide BitsOf; hide EncodeBits; hide EncodeEntries; hide NameKey;
    hide SameOutside; hide Avoids; hide Disjoint; hide DecodeHeader; hide Exclusive; hide Accounted;
    hide NamesDistinct; hide DecodeEntries; hide DecodeBits;
    var es := v.dir[i := v.dir[i].(inUse := false)];
    SystemFilesApart(v);
    AfterMapWrite(d, d1, ws);
    AfterDirWrite(d1, d2, es);
    forall j | 0 <= j < NUM_DIR_ENTRIES && j != i && v.dir[j].inUse ensures InodesOf(d1, es)[j] == v.inodes[j] {
      assert VolumeOf(d1).inodes[j] == InodeOf(d1, v.dir[j]);
    }
  }

  /** Sectors in use by files keep their contents. */
  ghost predicate FilesKept(v: Volume, d: Image, d': Image)
    requires Shaped(v)
  {
    forall i, j :: Has(v, DataOf(i, j)) ==> d'[At(v, DataOf(i, j))] == d[At(v, DataOf(i, j))]
  }

  /** Only free sectors and the system files were written. */
  ghost predicate OnlySystemWrites(v: Volume, d: Image, d': Image)
    requires Shaped(v)
  {
    forall x :: 0 <= x < NUM_SECTORS && v.bits[x] && Avoids(v.mapHdr, x) && Avoids(v.dirHdr, x) ==> d'[x] == d[x]
  }

  lemma SystemWritesKeepFiles(v: Volume, d: Image, d': Image)
    requires Consistent(v) && OnlySystemWrites(v, d, d')
    ensures FilesKept(v, d, d')
  {
    forall i, j | Has(v, DataOf(i, j)) ensures d'[At(v, DataOf(i, j))] == d[At(v, DataOf(i, j))] {
      var x := At(v, DataOf(i, j));
      assert Avoids(v.mapHdr, x) by {
        forall l | 0 <= l < v.mapHdr.numSectors ensures v.mapHdr.dataSectors[l] != x {
          assert Has(v, MapData(l)) && At(v, MapData(l)) == v.mapHdr.dataSectors[l];
        }
      }
      assert Avoids(v.dirHdr, x) by {
        forall l | 0 <= l < v.dirHdr.numSectors ensures v.dirHdr.dataSectors[l] != x {
          assert Has(v, DirData(l)) && At(v, DirData(l)) == v.dirHdr.dataSectors[l];
        }
      }
    }
  }

  /** The contents of every file of the volume are then the same bytes. */
  lemma KeptFileBytes(v: Volume, d: Image, d': Image, i: nat)
    requires Shaped(v) && FilesKept(v, d, d') && i < NUM_DIR_ENTRIES && v.dir[i].inUse
    ensures FileBytes(v.inodes[i], d') == FileBytes(v.inodes[i], d)
  {
    var h := v.inodes[i];
    forall j | 0 <= j < h.numSectors ensures d'[h.dataSectors[j]] == d[h.dataSectors[j]] {
      assert Has(v, DataOf(i, j)) && At(v, DataOf(i, j)) == h.dataSectors[j];
    }
    SameFile(h, d, d');
  }

  class FileSystem {
    const disk: SynchDisk
    const freeMapFile: OpenFile
    const directoryFile: OpenFile

    /** The two system files are open and match their headers on disk. */
    ghost predicate Opened()
      reads disk
    {
      && freeMapFile.disk == disk && directoryFile.disk == disk && Mounted(disk.sectors)
      && freeMapFile.hdr == HeaderAt(disk.sectors, 0) && directoryFile.hdr == HeaderAt(disk.sectors, 1)
    }

    ghost predicate Valid()
      reads disk
    {
      Opened() && Consistent(VolumeOf(disk.sectors))
    }

    ghost function Contents(): Volume
      reads disk
      requires Opened()
    {
      VolumeOf(disk.sectors)
    }

    /** Formats a disk with anything on it: both ASSERTs on Allocate hold, and the
        result is an empty, consistent file system. */
    constructor Format(disk: SynchDisk)
      modifies disk
      ensures Valid() && this.disk == disk
      ensures forall i :: 0 <= i < NUM_DIR_ENTRIES ==> !Contents().dir[i].inUse
    {
      hide FileBytes; hide BitsOf; hide EncodeBits; hide EncodeEntries; hide EncodeHeader; hide DecodeHeader;
      hide DecodeEntries; hide DecodeBits; hide Take; hide CountClear; hide SameOutside; hide Consistent; hide WellFormed;
      hide Avoids; hide Disjoint; hide SystemSectors; hide InodesOf; hide NamesSized;
      var freeMap := new Bitmap(1024);
      var directory := new Directory();
      var mapHdr := new FileHeader();
      var dirHdr := new FileHeader();
      ghost var blank := freeMap.Bits();
      freeMap.Mark(0);
      freeMap.Mark(1);
      ghost var boot := freeMap.Bits();
      RoomForSystemFiles(blank);
      var ok := mapHdr.Allocate(freeMap, 128);
      assert ok;
      ghost var a := Take(boot, 1);
      ok := dirHdr.Allocate(freeMap, 200);
      assert ok;
      ghost var b := Take(a.bits, 2);
      mapHdr.WriteBack(disk, 0);
      dirHdr.WriteBack(disk, 1);
      this.disk := disk;
      freeMapFile := new OpenFile(disk, 0);
      directoryFile := new OpenFile(disk, 1);
      new;
      ghost var d := disk.sectors;
      FreshSystemFiles(blank, mapHdr.node, dirHdr.node);
      WriteBackBitmap(freeMap, freeMapFile);
      ghost var d1 := disk.sectors;
      directory.WriteBack(directoryFile);
      FormatEffect(d, d1, disk.sectors, freeMap.words[..], directory.table[..]);
      FormattedIsConsistent(blank, VolumeOf(disk.sectors));
    }

    /** The path of the constructor for a disk that already holds a file system. */
    constructor Mount(disk: SynchDisk)
      requires Mounted(disk.sectors)
      ensures this.disk == disk && Opened()
    {
      this.disk := disk;
      freeMapFile := new OpenFile(disk, 0);
      directoryFile := new OpenFile(disk, 1);
    }

    method Create(name: seq<byte>, initialSize: nat) returns (success: bool)
      requires Valid() && initialSize <= MAX_FILE_SIZE
      modifies disk
      ensures Valid()
      ensures success <==> !CreateFails(old(Contents()), name, initialSize)
      ensures !success ==> disk.sectors == old(disk.sectors)
      ensures success ==> Created(old(Contents()), name, initialSize, Contents())
      ensures FilesKept(old(Contents()), old(disk.sectors), disk.sectors)
    {
      hide FileBytes; hide BitsOf; hide EncodeBits; hide EncodeEntries; hide EncodeHeader; hide DecodeHeader;
      hide Exclusive; hide Accounted; hide NamesDistinct; hide DecodeEntries; hide DecodeBits; hide NameKey;
      hide Take; hide CountClear; hide FirstClear; hide IndexOf; hide FreeIndex; hide SameOutside; hide InodesOf;
      hide WellFormed; hide FilesKept; hide Has; hide At; hide Key; hide Filled;
      ghost var d := disk.sectors;
      ghost var v := Contents();
      NothingWritten(v, d);
      var directory := new Directory();
      directory.FetchFrom(directoryFile);
      assert directory.table[..] == v.dir;
      var found := directory.Find(name);
      if found != -1 {
        return false;
      }
      var freeMap := FetchBitmap(freeMapFile);
      var sector := freeMap.FindAndSet();
      if sector == -1 {
        return false;
      }
      var added := directory.Add(name, sector);
      if !added {
        return false;
      }
      var hdr := new FileHeader();
      var enough := hdr.Allocate(freeMap, initialSize);
      if !enough {
        return false;
      }
      hdr.WriteBack(disk, sector);
      ghost var d1 := disk.sectors;
      SystemFilesApart(v);
      FreeSectorWrite(d, sector, EncodeHeader(hdr.node));
      directory.WriteBack(directoryFile);
      ghost var d2 := disk.sectors;
      WriteBackBitmap(freeMap, freeMapFile);
      ghost var d3 := disk.sectors;
      CreateEffect(d, d1, d2, d3, name, initialSize, hdr.node, freeMap.words[..]);
      CreateKeepsConsistent(v, name, initialSize, VolumeOf(d3));
      TwoSystemWrites(v, d, d1, d2, d3, sector);
      success := true;
    }

    method Remove(name: seq<byte>) returns (success: bool)
      requires Valid()
      modifies disk
      ensures Valid()
      ensures success <==> IndexOf(old(Contents()).dir, Key(name, 9), 0) != -1
      ensures !success ==> disk.sectors == old(disk.sectors)
      ensures success ==> Removed(old(Contents()), name, Contents())
      ensures FilesKept(old(Contents()), old(disk.sectors), disk.sectors)
    {
      hide FileBytes; hide BitsOf; hide EncodeBits; hide EncodeEntries; hide DecodeHeader;
      hide Exclusive; hide Accounted; hide NamesDistinct; hide DecodeEntries; hide DecodeBits; hide NameKey;
      hide IndexOf; hide SameOutside; hide FilesKept; hide Has; hide At; hide Key; hide Release;
      ghost var d := disk.sectors;
      ghost var v := Contents();
      NothingWritten(v, d);
      var directory := new Directory();
      directory.FetchFrom(directoryFile);
      assert directory.table[..] == v.dir;
      var sector := directory.Find(name);
      if sector == -1 {
        return false;
      }
      ghost var i := IndexOf(v.dir, Key(name, 9), 0);
      var fileHdr := new FileHeader();
      fileHdr.FetchFrom(disk, sector);
      assert fileHdr.node == v.inodes[i];
      var freeMap := FetchBitmap(freeMapFile);
      FileIsMarked(v, i);
      fileHdr.Deallocate(freeMap);
      freeMap.Clear(sector);
      var removed := directory.Remove(name);
      WriteBackBitmap(freeMap, freeMapFile);
      ghost var d1 := disk.sectors;
      directory.WriteBack(directoryFile);
      ghost var d2 := disk.sectors;
      RemoveEffect(d, d1, d2, v, i, name, freeMap.words[..]);
      RemoveKeepsConsistent(v, name, VolumeOf(d2));
      SystemWritesInOrder(v, d, d1, d2);
      success := true;
    }

    /** `FileSystem::Open`: the file's header, or null when there is no such name. */
    method Open(name: seq<byte>) returns (file: OpenFile?)
      requires Valid()
      ensures file == null <==> IndexOf(Contents().dir, Key(name, 9), 0) == -1
      ensures file != null ==> fresh(file) && file.disk == disk && file.seekPosition == 0
      ensures file != null ==> file.hdr == Contents().inodes[IndexOf(Contents().dir, Key(name, 9), 0)]
    {
      hide FileBytes; hide DecodeHeader; hide DecodeEntries; hide Consistent; hide Key; hide NameKey; hide DecodeBits;
      assert Shaped(VolumeOf(disk.sectors)) by { OnlyShape(VolumeOf(disk.sectors)); }
      var directory := new Directory();
      directory.FetchFrom(directoryFile);
      assert directory.table[..] == Contents().dir;
      var sector := directory.Find(name);
      file := null;
      if sector >= 0 {
        file := new OpenFile(disk, sector);
      }
    }

    /** Opening a file and writing to it: the volume keeps its shape, the file
        gets the bytes, and no other file changes. */
    method WriteFile(name: seq<byte>, data: seq<byte>, position: nat) returns (written: int)
      requires Valid()
      modifies disk
      ensures Valid() && Contents() == old(Contents())
      ensures var i := IndexOf(old(Contents()).dir, Key(name, 9), 0);
              if i == -1 then written == -1 && disk.sectors == old(disk.sectors)
              else
                && written == Clip(Contents().inodes[i].numBytes, |data|, position)
                && FileBytes(Contents().inodes[i], disk.sectors)
                   == WriteRange(FileBytes(Contents().inodes[i], old(disk.sectors)), data, |data|, position)
                && forall j :: 0 <= j < NUM_DIR_ENTRIES && j != i && Contents().dir[j].inUse ==>
                     FileBytes(Contents().inodes[j], disk.sectors) == FileBytes(Contents().inodes[j], old(disk.sectors))
    {
      hide FileBytes; hide VolumeOf; hide Mounted; hide DecodeHeader; hide Consistent; hide Key; hide NameKey; hide IndexOf;
      hide SameOutside; hide WriteRange; hide Clip;
      var file := Open(name);
      if file == null {
        return -1;
      }
      ghost var d := disk.sectors;
      ghost var v := Contents();
      ghost var i := IndexOf(v.dir, Key(name, 9), 0);
      OnlyShape(v);
      written := file.WriteAt(data, |data|, position);
      DataWriteKeepsVolume(d, disk.sectors, i);
      forall j | 0 <= j < NUM_DIR_ENTRIES && j != i && v.dir[j].inUse
        ensures FileBytes(v.inodes[j], disk.sectors) == FileBytes(v.inodes[j], d)
      {
        FilesDisjoint(v, i, j);
        OtherFileKept(v.inodes[i], v.inodes[j], d, disk.sectors);
      }
    }
  }

  lemma OnlyShape(v: Volume)
    requires Consistent(v)
    ensures Shaped(v)
  {
  }

  lemma FilesDisjoint(v: Volume, i: nat, j: nat)
    requires Consistent(v) && i < NUM_DIR_ENTRIES && j < NUM_DIR_ENTRIES && i != j && v.dir[i].inUse && v.dir[j].inUse
    ensures Disjoint(v.inodes[i], v.inodes[j])
  {
    forall a, b | 0 <= a < v.inodes[i].numSectors && 0 <= b < v.inodes[j].numSectors
      ensures v.inodes[i].dataSectors[a] != v.inodes[j].dataSectors[b]
    {
      assert Has(v, DataOf(i, a)) && At(v, DataOf(i, a)) == v.inodes[i].dataSectors[a];
      assert Has(v, DataOf(j, b)) && At(v, DataOf(j, b)) == v.inodes[j].dataSectors[b];
    }
  }

  /** Writing a file's own data sectors does not disturb the volume. */
  lemma DataWriteKeepsVolume(d: Image, d': Image, i: nat)
    requires Mounted(d) && Consistent(VolumeOf(d)) && i < NUM_DIR_ENTRIES && VolumeOf(d).dir[i].inUse
    requires SameOutside(VolumeOf(d).inodes[i], d, d')
    ensures Mounted(d') && VolumeOf(d') == VolumeOf(d)
    ensures HeaderAt(d', 0) == HeaderAt(d, 0) && HeaderAt(d', 1) == HeaderAt(d, 1)
  {
    hide FileBytes; hide DecodeHeader; hide NamesDistinct; hide Accounted; hide DecodeEntries; hide FreeBits; hide InodesOf;
    var v := VolumeOf(d);
    forall s | Has(v, s) && !s.DataOf? ensures d'[At(v, s)] == d[At(v, s)] {
      forall a | 0 <= a < v.inodes[i].numSectors ensures v.inodes[i].dataSectors[a] != At(v, s) {
        assert Has(v, DataOf(i, a)) && At(v, DataOf(i, a)) == v.inodes[i].dataSectors[a];
      }
    }
    VolumeUntouched(d, d');
  }

  lemma FileIsMarked(v: Volume, i: nat)
    requires Consistent(v) && i < NUM_DIR_ENTRIES && v.dir[i].inUse
    ensures forall j :: 0 <= j < v.inodes[i].numSectors ==> v.bits[v.inodes[i].dataSectors[j]]
  {
    forall j | 0 <= j < v.inodes[i].numSectors ensures v.bits[v.inodes[i].dataSectors[j]] {
      assert Has(v, DataOf(i, j)) && At(v, DataOf(i, j)) == v.inodes[i].dataSectors[j];
    }
  }

  lemma SystemWritesInOrder(v: Volume, d: Image, d1: Image, d2: Image)
    requires Consistent(v)
    requires SameOutside(v.mapHdr, d, d1) && SameOutside(v.dirHdr, d1, d2)
    ensures FilesKept(v, d, d2)
  {
    hide WellFormed; hide Exclusive; hide Accounted; hide NamesDistinct;
    SystemWritesKeepFiles(v, d, d2);
  }

  lemma NothingWritten(v: Volume, d: Image)
    requires Shaped(v)
    ensures FilesKept(v, d, d)
  {
  }

  lemma TwoSystemWrites(v: Volume, d: Image, d1: Image, d2: Image, d3: Image, x: int)
    requires Consistent(v) && 0 <= x < NUM_SECTORS && !v.bits[x]
    requires forall y :: 0 <= y < NUM_SECTORS && y != x ==> d1[y] == d[y]
    requires SameOutside(v.dirHdr, d1, d2) && SameOutside(v.mapHdr, d2, d3)
    ensures FilesKept(v, d, d3)
  {
    hide WellFormed; hide Exclusive; hide Accounted; hide NamesDistinct;
    SystemWritesKeepFiles(v, d, d3);
  }

  /** The free map after formatting: sectors 0 and 1, one sector of map and two
      of directory. */
  ghost predicate SystemSectors(blank: seq<bool>, mapHdr: Inode, dirHdr: Inode, bits: seq<bool>) {
    && |blank| == NUM_SECTORS && (forall k :: 0 <= k < |blank| ==> !blank[k])
    && mapHdr.numSectors <= |mapHdr.dataSectors| && dirHdr.numSectors <= |dirHdr.dataSectors|
    && var boot := blank[0 := true][1 := true];
       && |bits| == NUM_SECTORS
       && (exists mid: seq<bool> :: |mid| == NUM_SECTORS
             && Fresh(boot, SectorsOf(mapHdr), mid) && Fresh(mid, SectorsOf(dirHdr), bits))
  }

  lemma RoomForSystemFiles(blank: seq<bool>)
    requires |blank| == NUM_SECTORS && forall k :: 0 <= k < |blank| ==> !blank[k]
    ensures CountClear(blank[0 := true][1 := true]) == 1022
    ensures SectorsFor(128) == 1 && SectorsFor(200) == 2
  {
    CountAll(blank);
    CountAfterSet(blank, 0);
    CountAfterSet(blank[0 := true], 1);
  }

  /** No system file uses a sector that another one uses. */
  lemma FreshSystemFiles(blank: seq<bool>, mapHdr: Inode, dirHdr: Inode)
    requires |blank| == NUM_SECTORS && (forall k :: 0 <= k < |blank| ==> !blank[k])
    requires WellFormed(mapHdr) && WellFormed(dirHdr)
    requires CountClear(blank[0 := true][1 := true]) == 1022
    requires SectorsOf(mapHdr) == Take(blank[0 := true][1 := true], 1).sectors
    requires SectorsOf(dirHdr) == Take(Take(blank[0 := true][1 := true], 1).bits, 2).sectors
    ensures Avoids(mapHdr, 0) && Avoids(mapHdr, 1) && Avoids(dirHdr, 0) && Avoids(dirHdr, 1)
    ensures Disjoint(mapHdr, dirHdr) && Disjoint(dirHdr, mapHdr)
    ensures SystemSectors(blank, mapHdr, dirHdr, Take(Take(blank[0 := true][1 := true], 1).bits, 2).bits)
  {
    hide Take; hide CountClear;
    var boot := blank[0 := true][1 := true];
    var a := Take(boot, 1);
    TakeIsFresh(boot, 1);
    TakeIsFresh(a.bits, 2);
    var ms, ds := SectorsOf(mapHdr), SectorsOf(dirHdr);
    assert forall j :: 0 <= j < |ms| ==> ms[j] == mapHdr.dataSectors[j] && a.bits[ms[j]];
    assert forall j :: 0 <= j < |ds| ==> ds[j] == dirHdr.dataSectors[j];
  }

  lemma FormatEffect(d: Image, d1: Image, d2: Image, ws: seq<bv32>, es: seq<DirectoryEntry>)
    requires Mounted(d) && |ws| == 32 && |es| == NUM_DIR_ENTRIES && NamesSized(es)
    requires forall i :: 0 <= i < |es| ==> !es[i].inUse
    requires var m, r := HeaderAt(d, 0), HeaderAt(d, 1);
             && Avoids(m, 0) && Avoids(m, 1) && Avoids(r, 0) && Avoids(r, 1) && Disjoint(m, r) && Disjoint(r, m)
             && SameOutside(m, d, d1) && FileBytes(m, d1) == EncodeBits(ws)
             && SameOutside(r, d1, d2) && FileBytes(r, d2) == EncodeEntries(es)
    ensures Mounted(d2) && VolumeOf(d2) == Volume(BitsOf(ws, 1024), HeaderAt(d, 0), HeaderAt(d, 1), es, InodesOf(d1, es))
    ensures HeaderAt(d2, 0) == HeaderAt(d, 0) && HeaderAt(d2, 1) == HeaderAt(d, 1)
  {
    hide FileBytes; hide BitsOf; hide EncodeBits; hide EncodeEntries; hide SameOutside; hide Avoids; hide Disjoint;
    hide DecodeHeader; hide DecodeEntries; hide DecodeBits; hide InodesOf; hide WellFormed;
    var m, r := HeaderAt(d, 0), HeaderAt(d, 1);
    OutsideKept(m, d, d1, 0);
    OutsideKept(m, d, d1, 1);
    BitsRoundTrip(ws);
    AfterDirWrite(d1, d2, es);
  }

  /** Where the slots of an empty volume lie, seen from the map between the two allocations. */
  ghost predicate SystemSlot(v: Volume, s: Slot, mid: seq<bool>)
    requires Shaped(v) && Has(v, s) && |mid| == NUM_SECTORS
  {
    && v.bits[At(v, s)]
    && (s.Boot? ==> At(v, s) == s.which)
    && (s.MapData? ==> At(v, s) >= 2 && mid[At(v, s)] && At(v, s) == SectorsOf(v.mapHdr)[s.block])
    && (s.DirData? ==> At(v, s) >= 2 && !mid[At(v, s)] && At(v, s) == SectorsOf(v.dirHdr)[s.block])
  }

  ghost predicate Empty(v: Volume, blank: seq<bool>, mid: seq<bool>) {
    && Shaped(v) && (forall i :: 0 <= i < |v.dir| ==> !v.dir[i].inUse)
    && |blank| == NUM_SECTORS && (forall k :: 0 <= k < |blank| ==> !blank[k])
    && |mid| == NUM_SECTORS
    && Fresh(blank[0 := true][1 := true], SectorsOf(v.mapHdr), mid) && Fresh(mid, SectorsOf(v.dirHdr), v.bits)
  }

  lemma EmptySlot(v: Volume, blank: seq<bool>, mid: seq<bool>, s: Slot)
    requires Empty(v, blank, mid) && Has(v, s)
    ensures SystemSlot(v, s, mid)
  {
    var boot := blank[0 := true][1 := true];
    if s.MapData? {
      assert At(v, s) == SectorsOf(v.mapHdr)[s.block];
    } else if s.DirData? {
      assert At(v, s) == SectorsOf(v.dirHdr)[s.block];
    } else {
      assert s.Boot? && boot[s.which] && mid[s.which];
    }
  }

  lemma EmptyIsExclusive(v: Volume, blank: seq<bool>, mid: seq<bool>)
    requires Empty(v, blank, mid)
    ensures Exclusive(v)
  {
    forall s, t | Has(v, s) && Has(v, t) && s != t ensures At(v, s) != At(v, t) {
      EmptySlot(v, blank, mid, s);
      EmptySlot(v, blank, mid, t);
      if s.DirData? && t.DirData? {
        assert SectorsOf(v.dirHdr)[s.block] != SectorsOf(v.dirHdr)[t.block];
      }
    }
  }

  lemma EmptyIsAccounted(v: Volume, blank: seq<bool>, mid: seq<bool>)
    requires Empty(v, blank, mid)
    ensures Accounted(v)
  {
    forall s | Has(v, s) ensures v.bits[At(v, s)] {
      EmptySlot(v, blank, mid, s);
    }
    forall x | 0 <= x < NUM_SECTORS && v.bits[x] ensures exists s :: Has(v, s) && At(v, s) == x {
      if x < 2 {
        assert Has(v, Boot(x)) && At(v, Boot(x)) == x;
      } else if mid[x] {
        var j :| 0 <= j < |SectorsOf(v.mapHdr)| && SectorsOf(v.mapHdr)[j] == x;
        assert Has(v, MapData(j)) && At(v, MapData(j)) == x;
      } else {
        var j :| 0 <= j < |SectorsOf(v.dirHdr)| && SectorsOf(v.dirHdr)[j] == x;
        assert Has(v, DirData(j)) && At(v, DirData(j)) == x;
      }
    }
  }

  lemma FormattedIsConsistent(blank: seq<bool>, v: Volume)
    requires Shaped(v) && SystemSectors(blank, v.mapHdr, v.dirHdr, v.bits)
    requires forall i :: 0 <= i < |v.dir| ==> !v.dir[i].inUse
    ensures Consistent(v)
  {
    hide WellFormed; hide Fresh; hide Exclusive; hide Accounted;
    var mid: seq<bool> :| |mid| == NUM_SECTORS
      && Fresh(blank[0 := true][1 := true], SectorsOf(v.mapHdr), mid) && Fresh(mid, SectorsOf(v.dirHdr), v.bits);
    assert Empty(v, blank, mid);
    EmptyIsExclusive(v, blank, mid);
    EmptyIsAccounted(v, blank, mid);
  }

  /* Whole histories. */

  datatype Request = CreateFile(name: seq<byte>, size: nat) | RemoveFile(name: seq<byte>)
                   | Write(name: seq<byte>, data: seq<byte>, position: nat)

  /** Formatting, and then any sequence of requests: the invariant holds after
      each of them, and none of the ASSERTs on the way fires. */
  method Session(disk: SynchDisk, requests: seq<Request>) returns (fs: FileSystem)
    requires forall r :: r in requests && r.CreateFile? ==> r.size <= MAX_FILE_SIZE
    modifies disk
    ensures fs.disk == disk && fs.Valid()
  {
    hide Consistent; hide VolumeOf; hide Mounted; hide FileBytes;
    fs := new FileSystem.Format(disk);
    var n := 0;
    while n < |requests|
      invariant 0 <= n <= |requests|
      invariant fs.disk == disk && fs.Valid()
    {
      assert requests[n] in requests;
      match requests[n] {
        case CreateFile(name, size) => var _ := fs.Create(name, size);
        case RemoveFile(name) => var _ := fs.Remove(name);
        case Write(name, data, position) => var _ := fs.WriteFile(name, data, position);
      }
      n := n + 1;
    }
  }
}
