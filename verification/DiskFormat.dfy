/** How the file system's structures lie on disk: sectors, little-endian words,
file headers and directory entries. */
module DiskFormat {
  import opened Words

  const NUM_SECTORS := 1024
  const NUM_DIRECT := 30
  const MAX_FILE_SIZE := 3840
  const NUM_DIR_ENTRIES := 10
  const ENTRY_SIZE := 20

  type Sector = s: seq<byte> | |s| == 128 witness seq(128, _ => 0)
  const BLANK: Sector := seq(128, _ => 0)
  type Image = d: seq<Sector> | |d| == 1024 witness seq<Sector>(1024, _ => BLANK)

  /* Words. */

  function EncodeWords(ws: seq<word>): (bs: seq<byte>)
    ensures |bs| == 4 * |ws|
  {
    seq(4 * |ws|, k requires 0 <= k < 4 * |ws| => WordByte(ws[k / 4], k % 4))
  }

  function DecodeWords(bs: seq<byte>): (ws: seq<word>)
    requires |bs| % 4 == 0
    ensures |ws| == |bs| / 4
  {
    seq(|bs| / 4, k requires 0 <= k < |bs| / 4 => FromBytes(bs[4 * k], bs[4 * k + 1], bs[4 * k + 2], bs[4 * k + 3]))
  }

  lemma EncodedWord(ws: seq<word>, k: nat, b: nat)
    requires k < |ws| && b < 4
    ensures 4 * k + b < 4 * |ws| && EncodeWords(ws)[4 * k + b] == WordByte(ws[k], b)
  {
    hide WordByte;
    assert (4 * k + b) / 4 == k && (4 * k + b) % 4 == b;
  }

  lemma WordsRoundTrip(ws: seq<word>)
    ensures DecodeWords(EncodeWords(ws)) == ws
  {
    hide Byte0; hide Byte1; hide Byte2; hide Byte3; hide FromBytes; hide EncodeWords;
    var bs := EncodeWords(ws);
    forall k | 0 <= k < |ws| ensures DecodeWords(bs)[k] == ws[k] {
      BytesOfWord(ws[k]);
      EncodedWord(ws, k, 0);
      EncodedWord(ws, k, 1);
      EncodedWord(ws, k, 2);
      EncodedWord(ws, k, 3);
    }
  }

  /* File headers. */

  /** The header of a file, in the words of one sector. */
  datatype Inode = Inode(numBytes: word, numSectors: word, dataSectors: seq<word>)

  function EncodeHeader(h: Inode): (s: Sector)
    requires |h.dataSectors| == NUM_DIRECT
  {
    EncodeWords([h.numBytes, h.numSectors] + h.dataSectors)
  }

  function DecodeHeader(s: Sector): (h: Inode)
    ensures |h.dataSectors| == NUM_DIRECT
  {
    var ws := DecodeWords(s);
    Inode(ws[0], ws[1], ws[2..])
  }

  lemma HeaderRoundTrip(h: Inode)
    requires |h.dataSectors| == NUM_DIRECT
    ensures DecodeHeader(EncodeHeader(h)) == h
  {
    hide EncodeWords; hide DecodeWords;
    WordsRoundTrip([h.numBytes, h.numSectors] + h.dataSectors);
  }

  /** A header that describes a file: as many sectors as its bytes need, all on
      the disk, none twice. */
  predicate WellFormed(h: Inode) {
    && |h.dataSectors| == NUM_DIRECT
    && h.numSectors == (h.numBytes + 127) / 128
    && h.numSectors <= NUM_DIRECT
    && (forall i :: 0 <= i < h.numSectors ==> h.dataSectors[i] < NUM_SECTORS)
    && (forall i, j :: 0 <= i < j < h.numSectors ==> h.dataSectors[i] != h.dataSectors[j])
  }

  /** The file as one flat sequence of bytes. */
  function FileBytes(h: Inode, d: Image): (bs: seq<byte>)
    requires WellFormed(h)
    ensures |bs| == h.numBytes
  {
    seq(h.numBytes, k requires 0 <= k < h.numBytes => d[h.dataSectors[k / 128]][k % 128])
  }

  /* The free map. */

  function EncodeBits(ws: seq<bv32>): (bs: seq<byte>)
    ensures |bs| == 4 * |ws|
  {
    EncodeWords(seq(|ws|, k requires 0 <= k < |ws| => ws[k] as int))
  }

  function DecodeBits(bs: seq<byte>): (ws: seq<bv32>)
    requires |bs| % 4 == 0
    ensures |ws| == |bs| / 4
  {
    seq(|bs| / 4, k requires 0 <= k < |bs| / 4 => DecodeWords(bs)[k] as bv32)
  }

  lemma BitsRoundTrip(ws: seq<bv32>)
    ensures DecodeBits(EncodeBits(ws)) == ws
  {
    hide EncodeWords; hide DecodeWords;
    WordsRoundTrip(seq(|ws|, k requires 0 <= k < |ws| => ws[k] as int));
  }

  /* Directory entries. */

  /** One entry; `name` is the ten-byte field, whose last byte is never set. */
  datatype DirectoryEntry = DirectoryEntry(inUse: bool, sector: word, name: seq<byte>)

  /** Byte k of an entry: the flag, three bytes of padding, the sector number,
      the name, and two bytes of padding. */
  function EntryByte(e: DirectoryEntry, k: int): byte
    requires 0 <= k < ENTRY_SIZE && |e.name| == 10
  {
    if k == 0 then (if e.inUse then 1 else 0)
    else if 4 <= k < 8 then WordByte(e.sector, k - 4)
    else if 8 <= k < 18 then e.name[k - 8]
    else 0
  }

  predicate NamesSized(es: seq<DirectoryEntry>) {
    forall i :: 0 <= i < |es| ==> |es[i].name| == 10
  }

  function EncodeEntries(es: seq<DirectoryEntry>): (bs: seq<byte>)
    requires NamesSized(es)
    ensures |bs| == ENTRY_SIZE * |es|
  {
    seq(20 * |es|, k requires 0 <= k < 20 * |es| => EntryByte(es[k / 20], k % 20))
  }

  function DecodeEntry(bs: seq<byte>, i: nat): (e: DirectoryEntry)
    requires 20 * i + 20 <= |bs|
    ensures |e.name| == 10
  {
    var p := 20 * i;
    DirectoryEntry(bs[p] != 0, FromBytes(bs[p + 4], bs[p + 5], bs[p + 6], bs[p + 7]), bs[p + 8..p + 18])
  }

  function DecodeEntries(bs: seq<byte>): (es: seq<DirectoryEntry>)
    requires |bs| % 20 == 0
    ensures |es| == |bs| / 20 && NamesSized(es)
  {
    seq(|bs| / 20, i requires 0 <= i < |bs| / 20 => DecodeEntry(bs, i))
  }

  lemma EncodedByte(es: seq<DirectoryEntry>, i: nat, k: nat)
    requires NamesSized(es) && i < |es| && k < 20
    ensures 20 * i + k < 20 * |es| && EncodeEntries(es)[20 * i + k] == EntryByte(es[i], k)
  {
    hide EntryByte;
    assert (20 * i + k) / 20 == i && (20 * i + k) % 20 == k;
  }

  lemma EntryRoundTrip(es: seq<DirectoryEntry>, i: nat)
    requires NamesSized(es) && i < |es|
    ensures DecodeEntry(EncodeEntries(es), i) == es[i]
  {
    hide Byte0; hide Byte1; hide Byte2; hide Byte3; hide FromBytes; hide EncodeEntries;
    var bs, p, e := EncodeEntries(es), 20 * i, es[i];
    EncodedByte(es, i, 0);
    EncodedByte(es, i, 4);
    EncodedByte(es, i, 5);
    EncodedByte(es, i, 6);
    EncodedByte(es, i, 7);
    BytesOfWord(e.sector);
    forall k | 0 <= k < 10 ensures bs[p + 8..p + 18][k] == e.name[k] {
      EncodedByte(es, i, 8 + k);
    }
    assert bs[p + 8..p + 18] == e.name;
  }

  lemma EntriesRoundTrip(es: seq<DirectoryEntry>)
    requires NamesSized(es)
    ensures DecodeEntries(EncodeEntries(es)) == es
  {
    hide DecodeEntry;
    forall i | 0 <= i < |es| {
      EntryRoundTrip(es, i);
    }
  }
}
