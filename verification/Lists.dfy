/** `List` and `SortedList` (lib/list.cc): singly linked lists with a last pointer. */
module Lists {

  class ListElement<T> {
    var item: T
    var next: ListElement?<T>

    constructor (item: T)
      ensures this.item == item && next == null
    {
      this.item, next := item, null;
    }
  }

  predicate Distinct<T(==)>(s: seq<T>) { forall i, j :: 0 <= i < j < |s| ==> s[i] != s[j] }

  /** The sequence without element k. */
  function Drop<T>(s: seq<T>, k: nat): (r: seq<T>)
    requires k < |s|
    ensures |r| == |s| - 1
    ensures forall i {:trigger r[i]} :: 0 <= i < k ==> r[i] == s[i]
    ensures forall i {:trigger r[i]} :: k <= i < |r| ==> r[i] == s[i + 1]
  {
    s[..k] + s[k + 1..]
  }

  /** The sequence with a new element k. */
  function Splice<T>(s: seq<T>, k: nat, item: T): (r: seq<T>)
    requires k <= |s|
    ensures |r| == |s| + 1
    ensures r[k] == item
    ensures forall i {:trigger r[i]} :: 0 <= i < k ==> r[i] == s[i]
    ensures forall i {:trigger r[i]} :: k < i < |r| ==> r[i] == s[i - 1]
  {
    s[..k] + [item] + s[k..]
  }

  lemma DistinctDrop<T>(s: seq<T>, k: nat)
    requires Distinct(s) && k < |s|
    ensures Distinct(Drop(s, k))
  {
  }

  lemma DistinctSplice<T>(s: seq<T>, k: nat, item: T)
    requires Distinct(s) && k <= |s| && item !in s
    ensures Distinct(Splice(s, k, item))
  {
  }

  lemma DistinctEnds<T>(s: seq<T>, item: T)
    requires Distinct(s) && item !in s
    ensures Distinct(s + [item]) && Distinct([item] + s)
  {
  }

  /* Sorted insertion, as a function on sequences. */

  /** In front of the first element that the new one precedes. */
  function Inserted<T>(s: seq<T>, item: T, compare: (T, T) -> int): (r: seq<T>)
    ensures |r| == |s| + 1
  {
    if s == [] then [item]
    else if compare(item, s[0]) < 0 then [item] + s
    else [s[0]] + Inserted(s[1..], item, compare)
  }

  /** Where the new element lands. */
  function Slot<T>(s: seq<T>, item: T, compare: (T, T) -> int): (k: nat)
    ensures k <= |s| && (forall i :: 0 <= i < k ==> compare(item, s[i]) >= 0)
    ensures k < |s| ==> compare(item, s[k]) < 0
  {
    if s == [] || compare(item, s[0]) < 0 then 0 else 1 + Slot(s[1..], item, compare)
  }

  lemma SlotAt<T>(s: seq<T>, item: T, compare: (T, T) -> int, i: nat)
    requires i < |s|
    ensures i < Slot(s, item, compare) ==> compare(item, s[i]) >= 0
    ensures i == Slot(s, item, compare) ==> compare(item, s[i]) < 0
  {
  }

  lemma {:induction false} InsertedAtSlot<T>(s: seq<T>, item: T, compare: (T, T) -> int)
    ensures var k := Slot(s, item, compare); Inserted(s, item, compare) == Splice(s, k, item)
  {
    if s != [] && compare(item, s[0]) >= 0 {
      InsertedAtSlot(s[1..], item, compare);
      SpliceLater(s, Slot(s[1..], item, compare), item);
    } else if s != [] {
      assert Splice(s, 0, item) == [item] + s;
    }
  }

  lemma SpliceLater<T>(s: seq<T>, k: nat, item: T)
    requires s != [] && k < |s|
    ensures Splice(s, k + 1, item) == [s[0]] + Splice(s[1..], k, item)
  {
    assert s == [s[0]] + s[1..];
  }

  /** A comparison that comes from a linear order of ranks. */
  ghost predicate Ranks<T(!new)>(compare: (T, T) -> int, rank: T -> int) {
    forall x, y :: compare(x, y) < 0 <==> rank(x) < rank(y)
  }

  predicate Sorted<T>(s: seq<T>, rank: T -> int) { forall i, j :: 0 <= i < j < |s| ==> rank(s[i]) <= rank(s[j]) }

  lemma SlotSplits<T(!new)>(s: seq<T>, item: T, compare: (T, T) -> int, rank: T -> int, i: nat)
    requires Ranks(compare, rank) && Sorted(s, rank) && i < |s|
    ensures i < Slot(s, item, compare) <==> rank(s[i]) <= rank(item)
  {
    var k := Slot(s, item, compare);
    assert compare(item, s[i]) < 0 <==> rank(item) < rank(s[i]);
    if k < i {
      assert compare(item, s[k]) < 0 <==> rank(item) < rank(s[k]);
    }
  }

  lemma InsertedBetween<T>(s: seq<T>, item: T, rank: T -> int, k: nat)
    requires Sorted(s, rank) && k <= |s|
    requires forall i :: 0 <= i < |s| ==> (i < k <==> rank(s[i]) <= rank(item))
    ensures Sorted(Splice(s, k, item), rank)
  {
    var r := Splice(s, k, item);
    forall i, j | 0 <= i < j < |r| ensures rank(r[i]) <= rank(r[j]) {
      assert i < k ==> r[i] == s[i];
      assert i > k ==> r[i] == s[i - 1];
      assert j < k ==> r[j] == s[j];
      assert j > k ==> r[j] == s[j - 1];
    }
  }

  /** The list stays sorted, and the new element comes after its equals. */
  lemma InsertedSorted<T(!new)>(s: seq<T>, item: T, compare: (T, T) -> int, rank: T -> int)
    requires Ranks(compare, rank) && Sorted(s, rank)
    ensures Sorted(Inserted(s, item, compare), rank)
    ensures var k := Slot(s, item, compare);
            && Inserted(s, item, compare) == Splice(s, k, item)
            && (forall i :: 0 <= i < |s| ==> (i < k <==> rank(s[i]) <= rank(item)))
  {
    hide Inserted; hide Slot; hide Ranks; hide Sorted;
    InsertedAtSlot(s, item, compare);
    var k := Slot(s, item, compare);
    forall i | 0 <= i < |s| ensures i < k <==> rank(s[i]) <= rank(item) {
      SlotSplits(s, item, compare, rank, i);
    }
    InsertedBetween(s, item, rank, k);
  }

  /** The index of an item that is on the list. */
  function IndexIn<T(==)>(s: seq<T>, item: T): (k: nat)
    requires item in s
    ensures k < |s| && s[k] == item && item !in s[..k]
  {
    if s[0] == item then 0
    else
      assert s == [s[0]] + s[1..];
      var k := IndexIn(s[1..], item);
      assert s[..k + 1] == [s[0]] + s[1..][..k];
      1 + k
  }

  function Without<T(==)>(s: seq<T>, item: T): seq<T>
    requires item in s
  {
    Drop(s, IndexIn(s, item))
  }

  /* Chains, as sequences of elements and of their next pointers. */

  function Follow<T>(spine: seq<ListElement<T>>, i: nat): ListElement?<T> {
    if i < |spine| then spine[i] else null
  }

  predicate Linked<T>(spine: seq<ListElement<T>>, nexts: seq<ListElement?<T>>) {
    |nexts| == |spine| && forall i :: 0 <= i < |nexts| ==> nexts[i] == Follow(spine, i + 1)
  }

  lemma LinkedAppend<T>(spine: seq<ListElement<T>>, nexts: seq<ListElement?<T>>, e: ListElement<T>)
    requires Linked(spine, nexts)
    ensures Linked(spine + [e], (if spine == [] then [] else nexts[|spine| - 1 := e]) + [null])
  {
  }

  lemma LinkedPrepend<T>(spine: seq<ListElement<T>>, nexts: seq<ListElement?<T>>, e: ListElement<T>)
    requires Linked(spine, nexts)
    ensures Linked([e] + spine, [Follow(spine, 0)] + nexts)
  {
  }

  lemma LinkedTail<T>(spine: seq<ListElement<T>>, nexts: seq<ListElement?<T>>)
    requires Linked(spine, nexts) && spine != []
    ensures Linked(spine[1..], nexts[1..]) && nexts[0] == Follow(spine[1..], 0)
  {
  }

  lemma LinkedDrop<T>(spine: seq<ListElement<T>>, nexts: seq<ListElement?<T>>, k: nat)
    requires Linked(spine, nexts) && 0 < k < |spine|
    ensures Linked(Drop(spine, k), Drop(nexts[k - 1 := nexts[k]], k))
  {
  }

  lemma LinkedSplice<T>(spine: seq<ListElement<T>>, nexts: seq<ListElement?<T>>, k: nat, e: ListElement<T>)
    requires Linked(spine, nexts) && k < |spine|
    ensures Linked(Splice(spine, k + 1, e), Splice(nexts[k := e], k + 1, nexts[k]))
  {
  }

  class List<T(==)> {
    var first: ListElement?<T>
    var last: ListElement?<T>
    var numInList: int
    ghost var spine: seq<ListElement<T>>

    /** The list that starts at first has the elements of spine, ends at last and
        has numInList elements: what SanityCheck tests. No item is on it twice. */
    ghost predicate Valid()
      reads this, spine
    {
      && numInList == |spine| && Distinct(spine) && Linked(spine, Nexts())
      && first == Follow(spine, 0)
      && last == (if spine == [] then null else spine[|spine| - 1])
      && Distinct(Contents())
    }

    ghost function Contents(): (s: seq<T>)
      reads this, spine
      ensures |s| == |spine| && forall i :: 0 <= i < |s| ==> s[i] == spine[i].item
    {
      seq(|spine|, i requires 0 <= i < |spine| reads this, spine => spine[i].item)
    }

    ghost function Nexts(): (s: seq<ListElement?<T>>)
      reads this, spine
      ensures |s| == |spine| && forall i :: 0 <= i < |s| ==> s[i] == spine[i].next
    {
      seq(|spine|, i requires 0 <= i < |spine| reads this, spine => spine[i].next)
    }

    constructor ()
      ensures Valid() && Contents() == [] && spine == []
    {
      first, last, numInList, spine := null, null, 0, [];
    }

    method IsEmpty() returns (empty: bool)
      requires Valid()
      ensures empty <==> Contents() == []
    {
      empty := first == null;
    }

    method IsInList(item: T) returns (found: bool)
      requires Valid()
      ensures found <==> item in Contents()
    {
      var ptr := first;
      ghost var k := 0;
      while ptr != null
        invariant 0 <= k <= |spine| && ptr == Follow(spine, k)
        invariant item !in Contents()[..k]
        decreases |spine| - k
      {
        if item == ptr.item {
          assert Contents()[k] == item;
          return true;
        }
        assert Nexts()[k] == ptr.next;
        ptr, k := ptr.next, k + 1;
      }
      assert Contents()[..k] == Contents();
      found := false;
    }

    method Append(item: T)
      requires Valid() && item !in Contents()
      modifies this, spine
      ensures Valid() && Contents() == old(Contents()) + [item]
    {
      hide Distinct; hide Linked;
      ghost var items, nexts := Contents(), Nexts();
      var element := new ListElement(item);
      DistinctEnds(spine, element);
      DistinctEnds(items, item);
      LinkedAppend(spine, nexts, element);
      LastIsLast(spine);
      if first == null {
        first, last := element, element;
      } else {
        last.next := element;
        last := element;
      }
      spine := spine + [element];
      numInList := numInList + 1;
      assert Nexts() == (if |items| == 0 then [] else nexts[|items| - 1 := element]) + [null];
      assert Contents() == items + [item];
    }

    method Prepend(item: T)
      requires Valid() && item !in Contents()
      modifies this
      ensures Valid() && Contents() == [item] + old(Contents())
    {
      hide Distinct; hide Linked;
      ghost var items, nexts := Contents(), Nexts();
      var element := new ListElement(item);
      DistinctEnds(spine, element);
      DistinctEnds(items, item);
      LinkedPrepend(spine, nexts, element);
      if first == null {
        first, last := element, element;
      } else {
        element.next := first;
        first := element;
      }
      spine := [element] + spine;
      numInList := numInList + 1;
      assert Nexts() == [Follow(old(spine), 0)] + nexts;
      assert Contents() == [item] + items;
    }

    method RemoveFront() returns (thing: T)
      requires Valid() && Contents() != []
      modifies this
      ensures Valid() && thing == old(Contents())[0] && Contents() == old(Contents())[1..]
    {
      hide Linked;
      ghost var items, nexts := Contents(), Nexts();
      LinkedTail(spine, nexts);
      thing := first.item;
      if first == last {
        first, last := null, null;
      } else {
        first := first.next;
      }
      spine := spine[1..];
      numInList := numInList - 1;
      assert Nexts() == nexts[1..];
      assert Contents() == items[1..];
    }

    method Remove(item: T)
      requires Valid() && item in Contents()
      modifies this, spine
      ensures Valid() && Contents() == Without(old(Contents()), item) && item !in Contents()
    {
      ghost var items := Contents();
      NotTwice(items, item);
      hide Distinct; hide Linked; hide Without;
      if item == first.item {
        assert items[0] == item;
        var removed := RemoveFront();
        return;
      }
      RemoveLater(item);
    }

    method RemoveLater(item: T)
      requires Valid() && item in Contents() && item != first.item
      modifies this, spine
      ensures Valid() && Contents() == Without(old(Contents()), item)
    {
      hide Distinct; hide Linked; hide Drop; hide IndexIn;
      ghost var k := IndexIn(Contents(), item);
      var prev, ptr := FindBefore(item);
      assert prev in spine;
      Unlink(prev, ptr, k);
    }

    /** The loop of Remove: the element with the item, and the one before it. */
    method FindBefore(item: T) returns (prev: ListElement<T>, ptr: ListElement<T>)
      requires Valid() && item in Contents() && item != first.item
      ensures var k := IndexIn(Contents(), item); k > 0 && prev == spine[k - 1] && ptr == spine[k]
    {
      hide Distinct; hide Linked; hide IndexIn;
      ghost var items, n := Contents(), IndexIn(Contents(), item);
      var behind: ListElement?<T>;
      prev, behind := first, first.next;
      ghost var k := 1;
      LinkedAt(spine, Nexts(), 0);
      while behind != null && item != behind.item
        invariant 1 <= k <= n && prev == spine[k - 1] && behind == Follow(spine, k)
        decreases |spine| - k
      {
        LinkedAt(spine, Nexts(), k);
        prev, behind, k := behind, behind.next, k + 1;
      }
      assert items[k] == behind.item && items[..n][..k] == items[..k];
      ptr := behind;
    }

    /** Takes element k, which follows prev, out of the chain. */
    method Unlink(prev: ListElement<T>, ptr: ListElement<T>, ghost k: nat)
      requires Valid() && 0 < k < |spine| && prev == spine[k - 1] && ptr == spine[k]
      modifies this, prev`next
      ensures Valid() && Contents() == Drop(old(Contents()), k)
    {
      hide Linked; hide Drop;
      ghost var was, items, nexts := spine, Contents(), Nexts();
      DistinctDrop(spine, k);
      DistinctDrop(items, k);
      LinkedDrop(spine, nexts, k);
      OnlyAt(spine, k - 1);
      LinkedAt(spine, nexts, k);
      hide Distinct;
      prev.next := ptr.next;
      if prev.next == null {
        last := prev;
      }
      numInList := numInList - 1;
      spine := Drop(was, k);
      assert Nexts() == Drop(nexts[k - 1 := nexts[k]], k);
      assert Contents() == Drop(items, k);
    }

    /** `SortedList::Insert`. */
    method Insert(item: T, compare: (T, T) -> int)
      requires Valid() && item !in Contents()
      modifies this, spine
      ensures Valid() && Contents() == Inserted(old(Contents()), item, compare)
    {
      hide Inserted; hide Distinct; hide Linked; hide Slot; hide Splice;
      ghost var items, n := Contents(), Slot(Contents(), item, compare);
      InsertedAtSlot(items, item, compare);
      SpliceEnds(items, item);
      if first == null {
        Append(item);
      } else if compare(item, first.item) < 0 {
        SlotAt(items, item, compare, 0);
        Prepend(item);
      } else {
        SlotAt(items, item, compare, 0);
        InsertBehind(item, compare);
      }
    }

    /** The loop of Insert and what follows it. */
    method InsertBehind(item: T, compare: (T, T) -> int)
      requires Valid() && item !in Contents() && spine != [] && Slot(Contents(), item, compare) > 0
      modifies this, spine
      ensures Valid() && Contents() == Splice(old(Contents()), Slot(old(Contents()), item, compare), item)
    {
      hide Distinct; hide Linked; hide Slot; hide Splice;
      SpliceEnds(Contents(), item);
      ghost var k := Slot(Contents(), item, compare) - 1;
      var ptr := FindPlace(item, compare);
      if ptr.next == null {
        Append(item);
      } else {
        var element := new ListElement(item);
        LinkAfter(ptr, element, k);
      }
    }

    /** The last element that the new one does not precede. */
    method FindPlace(item: T, compare: (T, T) -> int) returns (ptr: ListElement<T>)
      requires Valid() && spine != [] && Slot(Contents(), item, compare) > 0
      ensures ptr == spine[Slot(Contents(), item, compare) - 1]
      ensures ptr.next == null <==> Slot(Contents(), item, compare) == |spine|
    {
      hide Distinct; hide Slot; hide Linked;
      ghost var items, n := Contents(), Slot(Contents(), item, compare);
      ptr := first;
      ghost var k := 0;
      LinkedAt(spine, Nexts(), 0);
      while ptr.next != null
        invariant 0 <= k < |spine| && ptr == spine[k] && k < n && ptr.next == Follow(spine, k + 1)
        decreases |spine| - k
      {
        SlotAt(items, item, compare, k + 1);
        if compare(item, ptr.next.item) < 0 {
          return;
        }
        ptr, k := ptr.next, k + 1;
        LinkedAt(spine, Nexts(), k);
      }
    }

    /** Puts a new element behind element k. */
    method LinkAfter(ptr: ListElement<T>, element: ListElement<T>, ghost k: nat)
      requires Valid() && k + 1 < |spine| && ptr == spine[k] && element !in spine && element.item !in Contents()
      modifies this, ptr`next, element`next
      ensures Valid() && Contents() == Splice(old(Contents()), k + 1, element.item)
    {
      hide Linked; hide Splice;
      ghost var was, items, nexts := spine, Contents(), Nexts();
      DistinctSplice(was, k + 1, element);
      DistinctSplice(items, k + 1, element.item);
      LinkedSplice(was, nexts, k, element);
      OnlyAt(was, k);
      hide Distinct;
      element.next := ptr.next;
      ptr.next := element;
      numInList := numInList + 1;
      spine := Splice(was, k + 1, element);
      assert Nexts() == Splice(nexts[k := element], k + 1, nexts[k]);
      assert Contents() == Splice(items, k + 1, element.item);
    }
  }

  lemma NotTwice<T>(s: seq<T>, item: T)
    requires Distinct(s) && item in s
    ensures item !in Without(s, item)
    ensures s[0] == item ==> Without(s, item) == s[1..]
  {
  }

  lemma LastIsLast<T>(spine: seq<ListElement<T>>)
    requires Distinct(spine)
    ensures forall i :: 0 <= i < |spine| - 1 ==> spine[i] != spine[|spine| - 1]
  {
  }

  lemma OnlyAt<T>(spine: seq<ListElement<T>>, k: nat)
    requires Distinct(spine) && k < |spine|
    ensures forall i :: 0 <= i < |spine| && i != k ==> spine[i] != spine[k]
  {
  }

  lemma LinkedAt<T>(spine: seq<ListElement<T>>, nexts: seq<ListElement?<T>>, k: nat)
    requires Linked(spine, nexts) && k < |spine|
    ensures nexts[k] == Follow(spine, k + 1)
  {
  }

  lemma SpliceEnds<T>(s: seq<T>, item: T)
    ensures Splice(s, 0, item) == [item] + s && Splice(s, |s|, item) == s + [item]
  {
  }
}
