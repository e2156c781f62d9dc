/** `class Bitmap` (lib/bitmap.cc): bits packed 32 to an unsigned word. */
module Bitmaps {

  /** A shift count, from the remainder of a bit number. */
  function Count(k: int): (c: bv6)
    requires 0 <= k < 32
    ensures c < 32
  {
    k as bv6
  }

  lemma CountIsExact(k: int)
    requires 0 <= k < 32
    ensures Count(k) as int == k
  {
  }

  predicate TestWord(w: bv32, c: bv6)
    requires c < 32
  {
    w & (1 << c) != 0
  }

  function MarkWord(w: bv32, c: bv6): bv32
    requires c < 32
  {
    w | (1 << c)
  }

  function ClearWord(w: bv32, c: bv6): bv32
    requires c < 32
  {
    w & !(1 << c)
  }

  lemma MarkedWord(w: bv32, c: bv6, d: bv6)
    requires c < 32 && d < 32
    ensures TestWord(w | (1 << c), d) == (d == c || TestWord(w, d))
  {
  }

  lemma ClearedWord(w: bv32, c: bv6, d: bv6)
    requires c < 32 && d < 32
    ensures TestWord(w & !(1 << c), d) == (d != c && TestWord(w, d))
  {
  }

  lemma WordOperations(w: bv32, c: bv6, d: bv6)
    requires c < 32 && d < 32
    ensures TestWord(MarkWord(w, c), d) == (d == c || TestWord(w, d))
    ensures TestWord(ClearWord(w, c), d) == (d != c && TestWord(w, d))
  {
    hide TestWord;
    MarkedWord(w, c, d);
    ClearedWord(w, c, d);
  }

  /** Bit k of a word. */
  predicate Bit(w: bv32, k: int)
    requires 0 <= k < 32
  {
    TestWord(w, Count(k))
  }

  lemma WordBits(w: bv32, k: int, j: int)
    requires 0 <= k < 32 && 0 <= j < 32
    ensures Bit(MarkWord(w, Count(k)), j) == (j == k || Bit(w, j))
    ensures Bit(ClearWord(w, Count(k)), j) == (j != k && Bit(w, j))
  {
    hide Count; hide TestWord; hide MarkWord; hide ClearWord;
    CountIsExact(j);
    CountIsExact(k);
    WordOperations(w, Count(k), Count(j));
  }

  /** The first n bits of packed words. */
  function BitsOf(words: seq<bv32>, n: nat): (bits: seq<bool>)
    requires n <= 32 * |words|
    ensures |bits| == n
  {
    seq(n, i requires 0 <= i < n => Bit(words[i / 32], i % 32))
  }

  lemma MarkBits(words: seq<bv32>, n: nat, which: nat)
    requires n <= 32 * |words| && which < n
    ensures BitsOf(words[which / 32 := MarkWord(words[which / 32], Count(which % 32))], n)
         == BitsOf(words, n)[which := true]
  {
    hide Bit; hide Count; hide MarkWord; hide ClearWord;
    forall i | 0 <= i < n && i / 32 == which / 32 {
      WordBits(words[which / 32], which % 32, i % 32);
    }
  }

  lemma ClearBits(words: seq<bv32>, n: nat, which: nat)
    requires n <= 32 * |words| && which < n
    ensures BitsOf(words[which / 32 := ClearWord(words[which / 32], Count(which % 32))], n)
         == BitsOf(words, n)[which := false]
  {
    hide Bit; hide Count; hide MarkWord; hide ClearWord;
    forall i | 0 <= i < n && i / 32 == which / 32 {
      WordBits(words[which / 32], which % 32, i % 32);
    }
  }

  /** The first clear bit at or after i, or -1. */
  function FirstClear(bits: seq<bool>, i: nat): (r: int)
    requires i <= |bits|
    ensures r == -1 || (i <= r < |bits| && !bits[r] && forall k :: i <= k < r ==> bits[k])
    ensures r == -1 ==> forall k :: i <= k < |bits| ==> bits[k]
    decreases |bits| - i
  {
    if i == |bits| then -1 else if !bits[i] then i else FirstClear(bits, i + 1)
  }

  /** How many bits are clear. */
  function CountClear(bits: seq<bool>): nat {
    if bits == [] then 0 else CountClear(bits[..|bits| - 1]) + (if bits[|bits| - 1] then 0 else 1)
  }

  lemma {:induction false} CountIsCardinality(bits: seq<bool>)
    ensures CountClear(bits) == |set i | 0 <= i < |bits| && !bits[i]|
  {
    if bits != [] {
      var n := |bits| - 1;
      CountIsCardinality(bits[..n]);
      var before := set i | 0 <= i < n && !bits[..n][i];
      assert (set i | 0 <= i < |bits| && !bits[i]) == if bits[n] then before else before + {n};
    }
  }

  lemma {:induction false} CountAfterSet(bits: seq<bool>, k: nat)
    requires k < |bits| && !bits[k]
    ensures CountClear(bits[k := true]) == CountClear(bits) - 1
  {
    var n := |bits| - 1;
    if k == n {
      assert bits[k := true][..n] == bits[..n];
    } else {
      assert bits[k := true][..n] == bits[..n][k := true];
      CountAfterSet(bits[..n], k);
    }
  }

  lemma {:induction false} CountPositive(bits: seq<bool>, k: nat)
    requires k < |bits| && !bits[k]
    ensures CountClear(bits) > 0
  {
    if k < |bits| - 1 {
      CountPositive(bits[..|bits| - 1], k);
    }
  }

  lemma {:induction false} CountAll(bits: seq<bool>)
    requires forall k :: 0 <= k < |bits| ==> !bits[k]
    ensures CountClear(bits) == |bits|
  {
    if bits != [] {
      CountAll(bits[..|bits| - 1]);
    }
  }

  lemma {:induction false} CountZero(bits: seq<bool>)
    requires forall k :: 0 <= k < |bits| ==> bits[k]
    ensures CountClear(bits) == 0
  {
    if bits != [] {
      CountZero(bits[..|bits| - 1]);
    }
  }

  class Bitmap {
    const numBits: nat
    const words: array<bv32>

    ghost predicate Valid() {
      0 < numBits && words.Length == (numBits + 31) / 32
    }

    ghost function Bits(): (bits: seq<bool>)
      reads words
      requires Valid()
      ensures |bits| == numBits
    {
      BitsOf(words[..], numBits)
    }

    constructor (numItems: nat)
      requires numItems > 0
      ensures Valid() && numBits == numItems && fresh(words)
      ensures forall i :: 0 <= i < numItems ==> !Bits()[i]
    {
      numBits := numItems;
      words := new bv32[(numItems + 31) / 32](_ => 0);
      new;
      var i := 0;
      while i < numItems
        invariant 0 <= i <= numItems
        invariant forall k :: 0 <= k < i ==> !Bits()[k]
      {
        Clear(i);
        i := i + 1;
      }
    }

    method Mark(which: nat)
      requires Valid() && which < numBits
      modifies words
      ensures Bits() == old(Bits())[which := true]
    {
      hide BitsOf; hide Count; hide MarkWord;
      MarkBits(words[..], numBits, which);
      ghost var was := words[..];
      words[which / 32] := MarkWord(words[which / 32], Count(which % 32));
      assert words[..] == was[which / 32 := MarkWord(was[which / 32], Count(which % 32))];
    }

    method Clear(which: nat)
      requires Valid() && which < numBits
      modifies words
      ensures Bits() == old(Bits())[which := false]
    {
      hide BitsOf; hide Count; hide ClearWord;
      ClearBits(words[..], numBits, which);
      ghost var was := words[..];
      words[which / 32] := ClearWord(words[which / 32], Count(which % 32));
      assert words[..] == was[which / 32 := ClearWord(was[which / 32], Count(which % 32))];
    }

    method Test(which: nat) returns (marked: bool)
      requires Valid() && which < numBits
      ensures marked == Bits()[which]
    {
      hide Count; hide TestWord;
      marked := TestWord(words[which / 32], Count(which % 32));
    }

    /** Takes the first clear bit, or returns -1 when there is none. */
    method FindAndSet() returns (r: int)
      requires Valid()
      modifies words
      ensures r == FirstClear(old(Bits()), 0)
      ensures Bits() == if r == -1 then old(Bits()) else old(Bits())[r := true]
    {
      var i := 0;
      while i < numBits
        invariant 0 <= i <= numBits
        invariant words[..] == old(words[..])
        invariant FirstClear(Bits(), 0) == FirstClear(Bits(), i)
      {
        var marked := Test(i);
        if !marked {
          Mark(i);
          return i;
        }
        i := i + 1;
      }
      r := -1;
    }

    method NumClear() returns (count: nat)
      requires Valid()
      ensures count == CountClear(Bits())
    {
      count := 0;
      var i := 0;
      assert Bits()[..0] == [];
      while i < numBits
        invariant 0 <= i <= numBits
        invariant count == CountClear(Bits()[..i])
      {
        var marked := Test(i);
        assert Bits()[..i + 1][..i] == Bits()[..i];
        if !marked {
          count := count + 1;
        }
        i := i + 1;
      }
      assert Bits()[..numBits] == Bits();
    }
  }
}
