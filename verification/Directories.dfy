/** `class Directory` (filesys/directory.cc): a fixed table of named files. */
module Directories {
  import opened Words
  import opened DiskFormat
  import opened OpenFiles

  /** What strncpy leaves of a C string in n bytes: the characters up to the
      first NUL, and NULs to fill up. */
  function Key(s: seq<byte>, n: nat): (k: seq<byte>)
    ensures |k| == n
    decreases n
  {
    if n == 0 then []
    else if s == [] || s[0] == 0 then seq(n, _ => 0)
    else [s[0]] + Key(s[1..], n - 1)
  }

  /** `!strncmp(a, b, n)`: both stop at a NUL, and neither looks past n. */
  predicate SameString(a: seq<byte>, b: seq<byte>, n: nat)
    decreases n
  {
    if n == 0 then true
    else
      var x: byte, y: byte := if a == [] then 0 else a[0], if b == [] then 0 else b[0];
      x == y && (x == 0 || SameString(a[1..], b[1..], n - 1))
  }

  /** Names are told apart by their first n characters only. */
  lemma {:induction false} SameStringIsSameKey(a: seq<byte>, b: seq<byte>, n: nat)
    ensures SameString(a, b, n) <==> Key(a, n) == Key(b, n)
    decreases n
  {
    if n > 0 {
      var x: byte, y: byte := if a == [] then 0 else a[0], if b == [] then 0 else b[0];
      assert Key(a, n)[0] == x && Key(b, n)[0] == y;
      if x == y && x != 0 {
        SameStringIsSameKey(a[1..], b[1..], n - 1);
        assert Key(a, n)[1..] == Key(a[1..], n - 1) && Key(b, n)[1..] == Key(b[1..], n - 1);
      }
    }
  }

  /** Storing a name and looking at it again gives the same key. */
  lemma {:induction false} KeyOfStored(s: seq<byte>, n: nat, rest: seq<byte>)
    ensures Key(Key(s, n) + rest, n) == Key(s, n)
    decreases n
  {
    if n > 0 {
      var k := Key(s, n) + rest;
      if s == [] || s[0] == 0 {
        assert k[0] == 0;
      } else {
        assert k[1..] == Key(s[1..], n - 1) + rest;
        KeyOfStored(s[1..], n - 1, rest);
      }
    }
  }

  function NameKey(e: DirectoryEntry): (k: seq<byte>)
    ensures |k| == 9
  {
    Key(e.name, 9)
  }

  predicate Named(e: DirectoryEntry, key: seq<byte>) { e.inUse && NameKey(e) == key }

  /** First entry in use with that name at or after i, or -1. */
  function IndexOf(es: seq<DirectoryEntry>, key: seq<byte>, i: nat): (r: int)
    requires i <= |es|
    ensures r == -1 || (i <= r < |es| && Named(es[r], key) && forall k :: i <= k < r ==> !Named(es[k], key))
    ensures r == -1 ==> forall k :: i <= k < |es| ==> !Named(es[k], key)
    decreases |es| - i
  {
    if i == |es| then -1 else if Named(es[i], key) then i else IndexOf(es, key, i + 1)
  }

  /** First entry not in use at or after i, or -1. */
  function FreeIndex(es: seq<DirectoryEntry>, i: nat): (r: int)
    requires i <= |es|
    ensures r == -1 || (i <= r < |es| && !es[r].inUse && forall k :: i <= k < r ==> es[k].inUse)
    ensures r == -1 ==> forall k :: i <= k < |es| ==> es[k].inUse
    decreases |es| - i
  {
    if i == |es| then -1 else if !es[i].inUse then i else FreeIndex(es, i + 1)
  }

  /** An entry after strncpy of the name and the other assignments of Add. */
  function Filled(e: DirectoryEntry, name: seq<byte>, sector: word): (r: DirectoryEntry)
    requires |e.name| == 10
    ensures |r.name| == 10 && r.inUse && r.sector == sector
  {
    DirectoryEntry(true, sector, Key(name, 9) + e.name[9..])
  }

  lemma FilledKey(e: DirectoryEntry, name: seq<byte>, sector: word)
    requires |e.name| == 10
    ensures NameKey(Filled(e, name, sector)) == Key(name, 9)
  {
    KeyOfStored(name, 9, e.name[9..]);
  }

  class Directory {
    const table: array<DirectoryEntry>

    ghost predicate Valid()
      reads table
    {
      table.Length == NUM_DIR_ENTRIES && NamesSized(table[..])
    }

    constructor ()
      ensures Valid() && fresh(table)
      ensures forall i :: 0 <= i < NUM_DIR_ENTRIES ==> !table[i].inUse
    {
      table := new DirectoryEntry[10](_ => DirectoryEntry(false, 0, seq(10, _ => 0)));
    }

    method FetchFrom(file: OpenFile)
      requires Valid() && WellFormed(file.hdr) && file.hdr.numBytes == 200
      modifies table
      ensures Valid() && table[..] == DecodeEntries(FileBytes(file.hdr, file.disk.sectors))
    {
      hide FileBytes; hide DecodeEntry;
      var bs := file.ReadAt(200, 0);
      assert bs == FileBytes(file.hdr, file.disk.sectors);
      var es := DecodeEntries(bs);
      var i := 0;
      while i < 10
        invariant 0 <= i <= 10
        invariant forall k :: 0 <= k < i ==> table[k] == es[k]
      {
        table[i] := es[i];
        i := i + 1;
      }
    }

    method WriteBack(file: OpenFile)
      requires Valid() && WellFormed(file.hdr) && file.hdr.numBytes == 200
      modifies file.disk
      ensures FileBytes(file.hdr, file.disk.sectors) == EncodeEntries(table[..])
      ensures SameOutside(file.hdr, old(file.disk.sectors), file.disk.sectors)
    {
      hide FileBytes;
      var bs := EncodeEntries(table[..]);
      var _ := file.WriteAt(bs, 200, 0);
    }

    method FindIndex(name: seq<byte>) returns (r: int)
      requires Valid()
      ensures r == IndexOf(table[..], Key(name, 9), 0)
    {
      var i := 0;
      while i < table.Length
        invariant 0 <= i <= table.Length
        invariant IndexOf(table[..], Key(name, 9), 0) == IndexOf(table[..], Key(name, 9), i)
      {
        SameStringIsSameKey(table[i].name, name, 9);
        if table[i].inUse && SameString(table[i].name, name, 9) {
          return i;
        }
        i := i + 1;
      }
      r := -1;
    }

    method Find(name: seq<byte>) returns (r: int)
      requires Valid()
      ensures r == var i := IndexOf(table[..], Key(name, 9), 0); if i == -1 then -1 else table[i].sector
    {
      var i := FindIndex(name);
      if i != -1 {
        return table[i].sector;
      }
      r := -1;
    }

    method Add(name: seq<byte>, newSector: word) returns (ok: bool)
      requires Valid()
      modifies table
      ensures Valid()
      ensures var es := old(table[..]);
              var k := FreeIndex(es, 0);
              && ok == (IndexOf(es, Key(name, 9), 0) == -1 && k != -1)
              && table[..] == if ok then es[k := Filled(es[k], name, newSector)] else es
    {
      var found := FindIndex(name);
      if found != -1 {
        return false;
      }
      var i := 0;
      while i < table.Length
        invariant 0 <= i <= table.Length
        invariant table[..] == old(table[..])
        invariant FreeIndex(table[..], 0) == FreeIndex(table[..], i)
      {
        if !table[i].inUse {
          table[i] := Filled(table[i], name, newSector);
          return true;
        }
        i := i + 1;
      }
      ok := false;
    }

    method Remove(name: seq<byte>) returns (ok: bool)
      requires Valid()
      modifies table
      ensures Valid()
      ensures var es := old(table[..]);
              var i := IndexOf(es, Key(name, 9), 0);
              && ok == (i != -1)
              && table[..] == if ok then es[i := es[i].(inUse := false)] else es
    {
      var i := FindIndex(name);
      if i == -1 {
        return false;
      }
      table[i] := table[i].(inUse := false);
      ok := true;
    }
  }
}
