/** `class FileHeader` (filesys/filehdr.cc): allocating and freeing the data
sectors of a file. */
module FileHeaders {
  import opened Bitmaps
  import opened DiskFormat
  import opened OpenFiles

  /** The first n free sectors, one after the other, and the map afterwards. */
  datatype Allocation = Allocation(sectors: seq<int>, bits: seq<bool>)

  function Take(bits: seq<bool>, n: nat): (a: Allocation)
    requires n <= CountClear(bits)
    ensures |a.sectors| == n && |a.bits| == |bits|
    ensures CountClear(a.bits) == CountClear(bits) - n
  {
    if n == 0 then Allocation([], bits)
    else
      var a := Take(bits, n - 1);
      var s := FirstClear(a.bits, 0);
      NotFull(a.bits);
      CountAfterSet(a.bits, s);
      Allocation(a.sectors + [s], a.bits[s := true])
  }

  lemma NotFull(bits: seq<bool>)
    requires CountClear(bits) > 0
    ensures FirstClear(bits, 0) >= 0
  {
    if FirstClear(bits, 0) == -1 {
      CountZero(bits);
    }
  }

  /** The sectors were free, are distinct, and are all that the map gained. */
  ghost predicate Fresh(bits: seq<bool>, sectors: seq<int>, after: seq<bool>) {
    && |after| == |bits|
    && (forall i :: 0 <= i < |sectors| ==> 0 <= sectors[i] < |bits| && !bits[sectors[i]])
    && (forall i, j :: 0 <= i < j < |sectors| ==> sectors[i] != sectors[j])
    && (forall x :: 0 <= x < |bits| ==> after[x] == (bits[x] || x in sectors))
  }

  lemma FreshStep(bits: seq<bool>, sectors: seq<int>, after: seq<bool>, s: int)
    requires Fresh(bits, sectors, after) && 0 <= s < |bits| && !after[s]
    ensures Fresh(bits, sectors + [s], after[s := true])
  {
    assert s !in sectors;
  }

  lemma {:induction false} TakeIsFresh(bits: seq<bool>, n: nat)
    requires n <= CountClear(bits)
    ensures Fresh(bits, Take(bits, n).sectors, Take(bits, n).bits)
  {
    if n > 0 {
      hide Fresh;
      var a := Take(bits, n - 1);
      TakeIsFresh(bits, n - 1);
      NotFull(a.bits);
      FreshStep(bits, a.sectors, a.bits, FirstClear(a.bits, 0));
    } else {
      assert Take(bits, n) == Allocation([], bits);
    }
  }

  /** The map with the given sectors cleared. */
  function Release(bits: seq<bool>, sectors: seq<int>): (r: seq<bool>)
    requires forall i :: 0 <= i < |sectors| ==> 0 <= sectors[i] < |bits|
    ensures |r| == |bits|
    ensures forall x :: 0 <= x < |bits| ==> r[x] == (bits[x] && x !in sectors)
  {
    if sectors == [] then bits
    else Release(bits, sectors[..|sectors| - 1])[sectors[|sectors| - 1] := false]
  }

  lemma ReleaseNone(bits: seq<bool>)
    ensures Release(bits, []) == bits
  {
  }

  lemma ReleaseNext(bits: seq<bool>, sectors: seq<int>, i: nat)
    requires i < |sectors| && forall j :: 0 <= j < |sectors| ==> 0 <= sectors[j] < |bits|
    ensures Release(bits, sectors[..i + 1]) == Release(bits, sectors[..i])[sectors[i] := false]
  {
    assert sectors[..i + 1][..i] == sectors[..i];
  }

  function SectorsOf(h: Inode): (s: seq<int>)
    requires h.numSectors <= |h.dataSectors|
    ensures |s| == h.numSectors && forall i :: 0 <= i < |s| ==> s[i] == h.dataSectors[i]
  {
    h.dataSectors[..h.numSectors]
  }

  /** Just enough sectors for the bytes. */
  function SectorsFor(numBytes: nat): (n: nat)
    ensures 128 * n >= numBytes && (n > 0 ==> 128 * (n - 1) < numBytes)
  {
    (numBytes + 127) / 128
  }

  class FileHeader {
    var node: Inode

    constructor ()
      ensures |node.dataSectors| == NUM_DIRECT
    {
      node := Inode(0, 0, seq(30, _ => 0));
    }

    /** Fails, leaving the map alone, when there are too few free sectors;
        otherwise every FindAndSet of its loop succeeds. */
    method Allocate(freeMap: Bitmap, fileSize: nat) returns (ok: bool)
      requires freeMap.Valid() && freeMap.numBits == NUM_SECTORS
      requires fileSize <= MAX_FILE_SIZE
      requires |node.dataSectors| == NUM_DIRECT
      modifies this, freeMap.words
      ensures |node.dataSectors| == NUM_DIRECT
      ensures ok == (SectorsFor(fileSize) <= CountClear(old(freeMap.Bits())))
      ensures !ok ==> freeMap.Bits() == old(freeMap.Bits())
      ensures ok ==> freeMap.Bits() == Take(old(freeMap.Bits()), SectorsFor(fileSize)).bits
      ensures ok ==> node.numBytes == fileSize && WellFormed(node)
                     && SectorsOf(node) == Take(old(freeMap.Bits()), SectorsFor(fileSize)).sectors
    {
      hide BitsOf;
      var n := fileSize / 128 + (if fileSize % 128 > 0 then 1 else 0);
      assert n == SectorsFor(fileSize);
      node := node.(numBytes := fileSize, numSectors := n);
      var clear := freeMap.NumClear();
      if clear < n {
        return false;
      }
      TakeIsFresh(freeMap.Bits(), n);
      Grab(freeMap, n);
      assert SectorsOf(node) == Take(old(freeMap.Bits()), n).sectors;
      assert forall j :: 0 <= j < n ==> node.dataSectors[j] == SectorsOf(node)[j];
      ok := true;
    }

    /** The loop of Allocate. */
    method Grab(freeMap: Bitmap, n: nat)
      requires freeMap.Valid() && freeMap.numBits == NUM_SECTORS
      requires n <= CountClear(freeMap.Bits()) && n <= NUM_DIRECT == |node.dataSectors|
      modifies this, freeMap.words
      ensures freeMap.Bits() == Take(old(freeMap.Bits()), n).bits
      ensures |node.dataSectors| == NUM_DIRECT
      ensures node.numBytes == old(node.numBytes) && node.numSectors == old(node.numSectors)
      ensures forall j :: 0 <= j < n ==> node.dataSectors[j] == Take(old(freeMap.Bits()), n).sectors[j]
    {
      hide BitsOf; hide CountClear;
      ghost var bits := freeMap.Bits();
      var i := 0;
      while i < n
        invariant 0 <= i <= n
        invariant |node.dataSectors| == NUM_DIRECT
        invariant node.numBytes == old(node.numBytes) && node.numSectors == old(node.numSectors)
        invariant freeMap.Bits() == Take(bits, i).bits
        invariant forall j :: 0 <= j < i ==> node.dataSectors[j] == Take(bits, i).sectors[j]
      {
        NotFull(freeMap.Bits());
        var s := freeMap.FindAndSet();
        assert s >= 0;  // the ASSERT of Allocate
        assert Take(bits, i + 1).sectors == Take(bits, i).sectors + [s];
        node := node.(dataSectors := node.dataSectors[i := s]);
        i := i + 1;
      }
    }

    /** Every data sector is marked when its turn comes, so that the ASSERT of
        Deallocate holds. */
    method Deallocate(freeMap: Bitmap)
      requires freeMap.Valid() && freeMap.numBits == NUM_SECTORS
      requires WellFormed(node)
      requires forall i :: 0 <= i < node.numSectors ==> freeMap.Bits()[node.dataSectors[i]]
      modifies freeMap.words
      ensures freeMap.Bits() == Release(old(freeMap.Bits()), SectorsOf(node))
    {
      hide BitsOf; hide Release; hide SectorsOf;
      ghost var bits, sectors := freeMap.Bits(), SectorsOf(node);
      assert sectors[..0] == [];
      ReleaseNone(bits);
      var i := 0;
      while i < node.numSectors
        invariant 0 <= i <= node.numSectors
        invariant freeMap.Bits() == Release(bits, sectors[..i])
      {
        var marked := freeMap.Test(node.dataSectors[i]);
        assert marked;
        freeMap.Clear(node.dataSectors[i]);
        ReleaseNext(bits, sectors, i);
        i := i + 1;
      }
      assert sectors[..node.numSectors] == sectors;
    }

    method FetchFrom(disk: SynchDisk, sector: int)
      requires 0 <= sector < NUM_SECTORS
      modifies this
      ensures node == DecodeHeader(disk.sectors[sector])
    {
      var data := disk.ReadSector(sector);
      node := DecodeHeader(data);
    }

    method WriteBack(disk: SynchDisk, sector: int)
      requires 0 <= sector < NUM_SECTORS && |node.dataSectors| == NUM_DIRECT
      modifies disk
      ensures disk.sectors == old(disk.sectors)[sector := EncodeHeader(node)]
      ensures DecodeHeader(disk.sectors[sector]) == node
    {
      HeaderRoundTrip(node);
      disk.WriteSector(sector, EncodeHeader(node));
    }
  }
}
