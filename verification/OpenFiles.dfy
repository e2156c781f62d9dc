/** `class OpenFile` (filesys/openfile.cc): byte-granular reads and writes over a
disk that only moves whole sectors. */
module OpenFiles {
  import opened Words
  import opened DiskFormat

  /** The synchronous disk, as its callers see it: an array of sectors. */
  class SynchDisk {
    var sectors: Image

    constructor (contents: Image)
      ensures sectors == contents
    {
      sectors := contents;
    }

    method ReadSector(sectorNumber: int) returns (data: Sector)
      requires 0 <= sectorNumber < NUM_SECTORS
      ensures data == sectors[sectorNumber]
    {
      data := sectors[sectorNumber];
    }

    method WriteSector(sectorNumber: int, data: Sector)
      requires 0 <= sectorNumber < NUM_SECTORS
      modifies this
      ensures sectors == old(sectors)[sectorNumber := data]
    {
      sectors := sectors[sectorNumber := data];
    }
  }

  /** How many bytes a request really moves. */
  function Clip(length: nat, numBytes: int, position: nat): (n: nat)
    ensures n == 0 || (position + n <= length && n <= numBytes)
    ensures numBytes > 0 && position < length ==> n > 0 && (n == numBytes || position + n == length)
  {
    if numBytes <= 0 || position >= length then 0
    else if position + numBytes > length then length - position
    else numBytes
  }

  /** Reading from a flat file. */
  function ReadRange(bs: seq<byte>, numBytes: int, position: nat): seq<byte> {
    var n := Clip(|bs|, numBytes, position);
    if n == 0 then [] else bs[position..position + n]
  }

  /** Writing to a flat file; its length never changes. */
  function WriteRange(bs: seq<byte>, from: seq<byte>, numBytes: int, position: nat): (r: seq<byte>)
    requires numBytes <= |from|
    ensures |r| == |bs|
  {
    var n := Clip(|bs|, numBytes, position);
    if n == 0 then bs else bs[..position] + from[..n] + bs[position + n..]
  }

  /** Byte q of the data sectors, past the end of the file too. */
  function StoredByte(h: Inode, d: Image, q: nat): byte
    requires WellFormed(h) && q < 128 * h.numSectors
  {
    d[h.dataSectors[q / 128]][q % 128]
  }

  lemma StoredAt(h: Inode, d: Image, i: nat, j: nat)
    requires WellFormed(h) && i < h.numSectors && j < 128
    ensures 128 * i + j < 128 * h.numSectors && StoredByte(h, d, 128 * i + j) == d[h.dataSectors[i]][j]
  {
    assert (128 * i + j) / 128 == i && (128 * i + j) % 128 == j;
  }

  /** Byte q, once the sectors first to last hold the buffer. */
  lemma StoredIn(h: Inode, d: Image, d': Image, buf: seq<byte>, first: nat, last: nat, q: nat)
    requires WellFormed(h) && first <= last < h.numSectors && |buf| == 128 * (last + 1 - first) && q < 128 * h.numSectors
    requires var j := q / 128;
             d'[h.dataSectors[j]] == if first <= j <= last then buf[128 * (j - first)..128 * (j - first) + 128]
                                     else d[h.dataSectors[j]]
    ensures StoredByte(h, d', q)
         == if 128 * first <= q < 128 * (last + 1) then buf[q - 128 * first] else StoredByte(h, d, q)
  {
    assert q == 128 * (q / 128) + q % 128;
  }

  lemma FileByte(h: Inode, d: Image, q: nat)
    requires WellFormed(h) && q < h.numBytes
    ensures q < 128 * h.numSectors && FileBytes(h, d)[q] == StoredByte(h, d, q)
  {
  }

  /** The sectors a non-empty request touches exist. */
  lemma RequestFits(h: Inode, position: nat, n: nat)
    requires WellFormed(h) && n > 0 && position + n <= h.numBytes
    ensures position / 128 <= (position + n - 1) / 128 < h.numSectors
    ensures 128 * (position / 128) <= position && position + n <= 128 * ((position + n - 1) / 128 + 1)
  {
  }

  /** bcopy into a buffer. */
  method Blit(buf: array<byte>, at: nat, data: seq<byte>)
    requires at + |data| <= buf.Length
    modifies buf
    ensures forall p :: at <= p < at + |data| ==> buf[p] == data[p - at]
    ensures forall k :: 0 <= k < buf.Length && !(at <= k < at + |data|) ==> buf[k] == old(buf[k])
  {
    var i := 0;
    while i < |data|
      invariant 0 <= i <= |data|
      invariant forall p :: at <= p < at + i ==> buf[p] == data[p - at]
      invariant forall k :: 0 <= k < buf.Length && !(at <= k < at + i) ==> buf[k] == old(buf[k])
    {
      buf[at + i] := data[i];
      i := i + 1;
    }
  }

  class OpenFile {
    const disk: SynchDisk
    const hdr: Inode
    var seekPosition: nat

    constructor (disk: SynchDisk, sector: int)
      requires 0 <= sector < NUM_SECTORS
      ensures this.disk == disk && hdr == DecodeHeader(disk.sectors[sector]) && seekPosition == 0
    {
      this.disk := disk;
      hdr := DecodeHeader(disk.sectors[sector]);
      seekPosition := 0;
    }

    method ReadAt(numBytes0: int, position: nat) returns (into: seq<byte>)
      requires WellFormed(hdr)
      ensures into == ReadRange(FileBytes(hdr, disk.sectors), numBytes0, position)
    {
      hide FileBytes; hide StoredByte;
      var fileLength := hdr.numBytes;
      var numBytes := numBytes0;
      if numBytes <= 0 || position >= fileLength {
        return [];
      }
      if position + numBytes > fileLength {
        numBytes := fileLength - position;
      }
      RequestFits(hdr, position, numBytes);
      var firstSector, lastSector := position / 128, (position + numBytes - 1) / 128;
      var buf := LoadSectors(firstSector, lastSector);
      var at := position - 128 * firstSector;
      into := buf[at..at + numBytes];
      ghost var bs := FileBytes(hdr, disk.sectors);
      forall k | 0 <= k < numBytes ensures into[k] == bs[position + k] {
        FileByte(hdr, disk.sectors, position + k);
        assert buf[at + k] == StoredByte(hdr, disk.sectors, 128 * firstSector + (at + k));
      }
      assert into == bs[position..position + numBytes];
    }

    /** Reading advances the seek position by what was read. */
    method Read(numBytes: int) returns (into: seq<byte>)
      requires WellFormed(hdr)
      modifies this`seekPosition
      ensures into == ReadRange(FileBytes(hdr, disk.sectors), numBytes, old(seekPosition))
      ensures seekPosition == old(seekPosition) + |into|
    {
      into := ReadAt(numBytes, seekPosition);
      seekPosition := seekPosition + |into|;
    }

    method Write(from: seq<byte>, numBytes: int) returns (written: nat)
      requires WellFormed(hdr) && numBytes <= |from|
      modifies this`seekPosition, disk
      ensures written == Clip(hdr.numBytes, numBytes, old(seekPosition))
      ensures FileBytes(hdr, disk.sectors)
           == WriteRange(FileBytes(hdr, old(disk.sectors)), from, numBytes, old(seekPosition))
      ensures SameOutside(hdr, old(disk.sectors), disk.sectors)
      ensures seekPosition == old(seekPosition) + written
    {
      written := WriteAt(from, numBytes, seekPosition);
      seekPosition := seekPosition + written;
    }

    /** Brings the sectors first to last into a fresh buffer. */
    method LoadSectors(first: nat, last: nat) returns (buf: array<byte>)
      requires WellFormed(hdr) && first <= last < hdr.numSectors
      ensures fresh(buf) && buf.Length == 128 * (last + 1 - first)
      ensures forall p :: 0 <= p < buf.Length ==> buf[p] == StoredByte(hdr, disk.sectors, 128 * first + p)
    {
      hide StoredByte;
      buf := new byte[128 * (last + 1 - first)];
      var i := first;
      while i <= last
        invariant first <= i <= last + 1
        invariant forall p :: 0 <= p < 128 * (i - first) ==> buf[p] == StoredByte(hdr, disk.sectors, 128 * first + p)
      {
        var data := disk.ReadSector(hdr.dataSectors[i]);
        var at := 128 * (i - first);
        Blit(buf, at, data);
        forall p | at <= p < at + 128 ensures buf[p] == StoredByte(hdr, disk.sectors, 128 * first + p) {
          StoredAt(hdr, disk.sectors, i, p - at);
          assert 128 * i + (p - at) == 128 * first + p;
        }
        i := i + 1;
      }
    }
  
    /** Writes a buffer back over the sectors first to last. */
    method StoreSectors(first: nat, last: nat, buf: array<byte>)
      requires WellFormed(hdr) && first <= last < hdr.numSectors && buf.Length == 128 * (last + 1 - first)
      modifies disk
      ensures SameOutside(hdr, old(disk.sectors), disk.sectors)
      ensures forall q :: 0 <= q < 128 * hdr.numSectors ==>
        StoredByte(hdr, disk.sectors, q)
        == if 128 * first <= q < 128 * (last + 1) then buf[q - 128 * first] else StoredByte(hdr, old(disk.sectors), q)
    {
      hide StoredByte;
      var i := first;
      while i <= last
        invariant first <= i <= last + 1
        invariant forall j :: first <= j < i ==>
          disk.sectors[hdr.dataSectors[j]] == buf[128 * (j - first)..128 * (j - first) + 128]
        invariant forall j :: 0 <= j < hdr.numSectors && !(first <= j < i) ==>
          disk.sectors[hdr.dataSectors[j]] == old(disk.sectors[hdr.dataSectors[j]])
        invariant SameOutside(hdr, old(disk.sectors), disk.sectors)
      {
        disk.WriteSector(hdr.dataSectors[i], buf[128 * (i - first)..128 * (i - first) + 128]);
        i := i + 1;
      }
      forall q | 0 <= q < 128 * hdr.numSectors
        ensures StoredByte(hdr, disk.sectors, q)
             == if 128 * first <= q < 128 * (last + 1) then buf[q - 128 * first] else StoredByte(hdr, old(disk.sectors), q)
      {
        StoredIn(hdr, old(disk.sectors), disk.sectors, buf[..], first, last, q);
      }
    }

    method WriteAt(from: seq<byte>, numBytes0: int, position: nat) returns (written: nat)
      requires WellFormed(hdr) && numBytes0 <= |from|
      modifies disk
      ensures written == Clip(hdr.numBytes, numBytes0, position)
      ensures FileBytes(hdr, disk.sectors) == WriteRange(FileBytes(hdr, old(disk.sectors)), from, numBytes0, position)
      ensures SameOutside(hdr, old(disk.sectors), disk.sectors)
    {
      hide FileBytes; hide StoredByte;
      var fileLength := hdr.numBytes;
      var numBytes := numBytes0;
      if numBytes <= 0 || position >= fileLength {
        return 0;
      }
      if position + numBytes > fileLength {
        numBytes := fileLength - position;
      }
      RequestFits(hdr, position, numBytes);
      var firstSector, lastSector := position / 128, (position + numBytes - 1) / 128;
      var buf := Assemble(from, numBytes, position, firstSector, lastSector);
      ghost var d := disk.sectors;
      StoreSectors(firstSector, lastSector, buf);
      written := numBytes;
      forall q | 0 <= q < hdr.numBytes
        ensures FileBytes(hdr, disk.sectors)[q] == WriteRange(FileBytes(hdr, d), from, numBytes0, position)[q]
      {
        FileByte(hdr, disk.sectors, q);
        FileByte(hdr, d, q);
      }
    }

    /** The buffer `WriteAt` prepares: partly overwritten sectors are read first,
        whatever their alignment, and the new bytes copied over. Bytes past the
        end of the file may be anything. */
    method Assemble(from: seq<byte>, n: nat, position: nat, first: nat, last: nat) returns (buf: array<byte>)
      requires WellFormed(hdr) && 0 < n <= |from| && position + n <= hdr.numBytes
      requires first == position / 128 && last == (position + n - 1) / 128
      ensures fresh(buf) && buf.Length == 128 * (last + 1 - first)
      ensures forall q :: 128 * first <= q < 128 * (last + 1) && q < hdr.numBytes ==>
        buf[q - 128 * first]
        == if position <= q < position + n then from[q - position] else FileBytes(hdr, disk.sectors)[q]
    {
      hide FileBytes; hide Clip;
      RequestFits(hdr, position, n);
      buf := new byte[128 * (last + 1 - first)];
      ghost var bs := FileBytes(hdr, disk.sectors);
      var firstAligned := position == 128 * first;
      var lastAligned := position + n == 128 * (last + 1);
      if !firstAligned {
        LoadSector(buf, first, first);
      }
      if !lastAligned && (first != last || firstAligned) {
        LoadSector(buf, first, last);
      }
      assert !firstAligned ==> Loaded(buf[..], first, first, bs);
      assert !lastAligned ==> Loaded(buf[..], first, last, bs);
      ghost var was := buf[..];
      Blit(buf, position - 128 * first, from[..n]);
      forall q | 128 * first <= q < 128 * (last + 1) && q < hdr.numBytes && !(position <= q < position + n)
        ensures buf[q - 128 * first] == bs[q]
      {
        assert buf[q - 128 * first] == was[q - 128 * first];
      }
    }

    /** Reads file sector i into its place in a buffer that starts at sector first. */
    method LoadSector(buf: array<byte>, first: nat, i: nat)
      requires WellFormed(hdr) && first <= i && 128 * (i + 1 - first) <= buf.Length
      modifies buf
      ensures Loaded(buf[..], first, i, FileBytes(hdr, disk.sectors))
      ensures forall p :: 0 <= p < buf.Length && !(128 * (i - first) <= p < 128 * (i - first) + 128) ==> buf[p] == old(buf[p])
    {
      hide FileBytes;
      var data := ReadAt(128, 128 * i);
      Blit(buf, 128 * (i - first), data);
    }
  }

  /** The buffer, which starts at sector `first`, holds the file's part of sector i. */
  ghost predicate Loaded(buf: seq<byte>, first: nat, i: nat, bs: seq<byte>) {
    && first <= i && 128 * (i + 1 - first) <= |buf|
    && forall q :: 128 * i <= q < 128 * (i + 1) && q < |bs| ==> buf[q - 128 * first] == bs[q]
  }

  /** No sector but the file's own data sectors differs. */
  ghost predicate SameOutside(h: Inode, d: Image, d': Image)
    requires WellFormed(h)
  {
    forall s :: 0 <= s < NUM_SECTORS && (forall i :: 0 <= i < h.numSectors ==> h.dataSectors[i] != s) ==> d'[s] == d[s]
  }

  /** What was written is read back. */
  lemma ReadBack(bs: seq<byte>, from: seq<byte>, numBytes: int, position: nat)
    requires numBytes <= |from|
    ensures ReadRange(WriteRange(bs, from, numBytes, position), numBytes, position)
         == from[..Clip(|bs|, numBytes, position)]
  {
  }

  /** A write leaves every byte outside the clipped range alone. */
  lemma WriteKeepsOthers(bs: seq<byte>, from: seq<byte>, numBytes: int, position: nat, q: nat)
    requires numBytes <= |from| && q < |bs|
    ensures WriteRange(bs, from, numBytes, position)[q]
         == if position <= q < position + Clip(|bs|, numBytes, position) then from[q - position] else bs[q]
  {
  }

  /** Two headers that share no data sector. */
  ghost predicate Disjoint(h: Inode, g: Inode)
    requires WellFormed(h) && WellFormed(g)
  {
    forall i, j :: 0 <= i < h.numSectors && 0 <= j < g.numSectors ==> h.dataSectors[i] != g.dataSectors[j]
  }

  /** Writing one file does not touch another with sectors of its own. */
  lemma OtherFileKept(h: Inode, g: Inode, d: Image, d': Image)
    requires WellFormed(h) && WellFormed(g) && Disjoint(h, g) && SameOutside(h, d, d')
    ensures FileBytes(g, d') == FileBytes(g, d)
  {
    forall q | 0 <= q < g.numBytes ensures FileBytes(g, d')[q] == FileBytes(g, d)[q] {
      assert d'[g.dataSectors[q / 128]] == d[g.dataSectors[q / 128]];
    }
  }
}
