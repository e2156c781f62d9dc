/** The self-expanding hash table (lib/hash.cc). */
module HashTables {
  import opened Options
  import opened Lists

  const INITIAL_BUCKETS := 4
  const RESIZE_RATIO := 3
  const INCREASE_SIZE_BY := 4

  /** All items, bucket by bucket. */
  function Flat<T>(bs: seq<seq<T>>): seq<T> {
    if bs == [] then [] else Flat(bs[..|bs| - 1]) + bs[|bs| - 1]
  }

  lemma {:induction false} FlatUpdate<T>(bs: seq<seq<T>>, b: nat, v: seq<T>)
    requires b < |bs|
    ensures |Flat(bs[b := v])| == |Flat(bs)| - |bs[b]| + |v|
  {
    var n := |bs| - 1;
    if b == n {
      assert bs[b := v][..n] == bs[..n];
    } else {
      assert bs[b := v][..n] == bs[..n][b := v];
      FlatUpdate(bs[..n], b, v);
    }
  }

  lemma {:induction false} FlatGrows<T>(bs: seq<seq<T>>, b: nat)
    requires b < |bs|
    ensures |Flat(bs[..b])| + |bs[b]| <= |Flat(bs)|
  {
    var n := |bs| - 1;
    if b < n {
      FlatGrows(bs[..n], b);
      assert bs[..n][..b] == bs[..b];
    }
  }

  lemma {:induction false} FlatEmpty<T>(bs: seq<seq<T>>)
    requires forall b :: 0 <= b < |bs| ==> bs[b] == []
    ensures Flat(bs) == []
  {
    if bs != [] {
      FlatEmpty(bs[..|bs| - 1]);
    }
  }

  class HashTable<K(==), T(==)> {
    var buckets: array<seq<T>>
    var numBuckets: nat
    var numItems: nat
    const getKey: T -> K
    const hash: K -> nat
    ghost var table: map<K, T>

    function HashValue(key: K): (b: nat)
      requires numBuckets > 0
      reads this`numBuckets
      ensures b < numBuckets
    {
      hash(key) % numBuckets
    }

    /** Buckets that hold the items of a map, each once and where it hashes to. */
    ghost predicate Holds(lists: seq<seq<T>>, items: map<K, T>) {
      && |lists| > 0
      && (forall b, i :: 0 <= b < |lists| && 0 <= i < |lists[b]| ==>
            var key := getKey(lists[b][i]); hash(key) % |lists| == b && key in items && items[key] == lists[b][i])
      && (forall key :: key in items ==> getKey(items[key]) == key && items[key] in lists[hash(key) % |lists|])
      && (forall b :: 0 <= b < |lists| ==> Distinct(lists[b]))
    }

    ghost predicate Indexed()
      reads this, buckets
    {
      numBuckets == buckets.Length > 0 && Holds(buckets[..], table) && |Flat(buckets[..])| == |table|
    }

    ghost predicate Valid()
      reads this, buckets
    {
      Indexed() && numItems == |table| && numItems <= RESIZE_RATIO * numBuckets
    }

    constructor (getKey: T -> K, hash: K -> nat)
      ensures Valid() && table == map[] && fresh(buckets)
      ensures this.getKey == getKey && this.hash == hash
    {
      this.getKey, this.hash := getKey, hash;
      numItems, numBuckets, table := 0, INITIAL_BUCKETS, map[];
      buckets := new seq<T>[INITIAL_BUCKETS](_ => []);
      new;
      FlatEmpty(buckets[..]);
    }

    /** Empty buckets, for a table that has been emptied too. */
    method InitBuckets(size: nat)
      requires size > 0
      modifies this`buckets, this`numBuckets, this`table
      ensures fresh(buckets) && Indexed() && table == map[] && numBuckets == size
    {
      numBuckets, table := size, map[];
      buckets := new seq<T>[size](_ => []);
      FlatEmpty(buckets[..]);
    }

    lemma HoldsOneMore(lists: seq<seq<T>>, items: map<K, T>, item: T)
      requires Holds(lists, items) && getKey(item) !in items
      ensures var key := getKey(item);
              var b := hash(key) % |lists|;
              Holds(lists[b := lists[b] + [item]], items[key := item])
    {
      var b := hash(getKey(item)) % |lists|;
      assert item !in lists[b];
    }

    lemma HoldsOneLess(lists: seq<seq<T>>, items: map<K, T>, key: K, k: nat)
      requires Holds(lists, items) && key in items
      requires k < |lists[hash(key) % |lists|]| && lists[hash(key) % |lists|][k] == items[key]
      ensures var b := hash(key) % |lists|; Holds(lists[b := Drop(lists[b], k)], items - {key})
    {
      var b := hash(key) % |lists|;
      var lists' := lists[b := Drop(lists[b], k)];
      DistinctDrop(lists[b], k);
      forall other | other in items && other != key
        ensures items[other] in lists'[hash(other) % |lists|]
      {
        var c := hash(other) % |lists|;
        var i := IndexIn(lists[c], items[other]);
        if c == b {
          assert i != k;
          assert Drop(lists[b], k)[if i < k then i else i - 1] == items[other];
        }
      }
    }

    /** buckets[HashValue(key)]->Append(item). */
    method Place(item: T)
      requires Indexed() && getKey(item) !in table
      modifies buckets, this`table
      ensures Indexed() && table == old(table)[getKey(item) := item]
    {
      hide Holds;
      var key := getKey(item);
      var b := HashValue(key);
      ghost var was := buckets[..];
      HoldsOneMore(was, table, item);
      FlatUpdate(was, b, was[b] + [item]);
      buckets[b] := buckets[b] + [item];
      table := table[key := item];
      assert buckets[..] == was[b := was[b] + [item]];
    }

    method FindInBucket(bucket: nat, key: K) returns (item: Option<T>)
      requires Indexed() && bucket < numBuckets
      ensures item == if key in table && HashValue(key) == bucket then Some(table[key]) else None
    {
      var i := 0;
      while i < |buckets[bucket]|
        invariant 0 <= i <= |buckets[bucket]|
        invariant forall j :: 0 <= j < i ==> getKey(buckets[bucket][j]) != key
      {
        if key == getKey(buckets[bucket][i]) {
          return Some(buckets[bucket][i]);
        }
        i := i + 1;
      }
      item := None;
    }

    method Find(key: K) returns (item: Option<T>)
      requires Valid()
      ensures item == if key in table then Some(table[key]) else None
    {
      item := FindInBucket(HashValue(key), key);
    }
  
    /** The items of the first i buckets of a smaller table, and j of the next, are in this one. */
    ghost predicate Moved(lists: seq<seq<T>>, items: map<K, T>, i: nat, j: nat)
      requires |lists| > 0 && (i < |lists| ==> j <= |lists[i]|)
      reads this`table
    {
      && (forall key :: key in table ==> key in items && table[key] == items[key])
      && (forall key :: key in items ==>
            (key in table <==> hash(key) % |lists| < i
                               || (hash(key) % |lists| == i && i < |lists| && items[key] in lists[i][..j])))
    }

    lemma MoveNext(lists: seq<seq<T>>, items: map<K, T>, i: nat, j: nat)
      requires Holds(lists, items) && i < |lists| && j < |lists[i]|
      ensures var item := lists[i][j]; var key := getKey(item);
              && key in items && items[key] == item && hash(key) % |lists| == i
              && item !in lists[i][..j] && lists[i][..j + 1] == lists[i][..j] + [item]
              && (forall other :: other in items && items[other] == item ==> other == key)
    {
    }

    /** The inner loop of ReHash. */
    method MoveBucket(oldTable: array<seq<T>>, i: nat, ghost lists: seq<seq<T>>, ghost items: map<K, T>)
      requires Indexed() && Holds(lists, items) && oldTable != buckets
      requires i < oldTable.Length == |lists| && oldTable[i] == lists[i] && Moved(lists, items, i, 0)
      modifies oldTable, buckets, this`table
      ensures Indexed() && Moved(lists, items, i + 1, 0)
      ensures forall b :: 0 <= b < oldTable.Length && b != i ==> oldTable[b] == old(oldTable[b])
    {
      hide Holds; hide Indexed;
      ghost var j := 0;
      while oldTable[i] != []
        invariant 0 <= j <= |lists[i]| && oldTable[i] == lists[i][j..]
        invariant Indexed() && Moved(lists, items, i, j)
        invariant forall b :: 0 <= b < oldTable.Length && b != i ==> oldTable[b] == old(oldTable[b])
        decreases |lists[i]| - j
      {
        MoveNext(lists, items, i, j);
        var item := oldTable[i][0];
        assert item == lists[i][j];
        oldTable[i] := oldTable[i][1..];
        Place(item);
        j := j + 1;
      }
      AllMoved(lists, items, i);
      assert lists[i][..j] == lists[i];
    }

    lemma AllMoved(lists: seq<seq<T>>, items: map<K, T>, i: nat)
      requires Holds(lists, items)
      ensures forall key :: key in items && hash(key) % |lists| == i ==> i < |lists| && items[key] in lists[i]
    {
    }

    lemma MovedStart(lists: seq<seq<T>>, items: map<K, T>)
      requires |lists| > 0 && table == map[]
      ensures Moved(lists, items, 0, 0)
    {
      assert lists[0][..0] == [];
    }

    lemma MovedEnd(lists: seq<seq<T>>, items: map<K, T>)
      requires |lists| > 0 && Moved(lists, items, |lists|, 0)
      ensures table == items
    {
      forall key | key in items ensures key in table {
        assert hash(key) % |lists| < |lists|;
      }
    }

    /** The outer loop of ReHash. */
    method MoveAll(oldTable: array<seq<T>>, ghost lists: seq<seq<T>>, ghost items: map<K, T>)
      requires Indexed() && table == map[] && Holds(lists, items) && oldTable != buckets && oldTable[..] == lists
      modifies oldTable, buckets, this`table
      ensures Indexed() && table == items
    {
      hide Holds; hide Indexed; hide Moved;
      assert |lists| > 0 by { HoldsSome(lists, items); }
      MovedStart(lists, items);
      var i := 0;
      while i < oldTable.Length
        invariant 0 <= i <= oldTable.Length && Indexed() && Moved(lists, items, i, 0)
        invariant forall b :: i <= b < oldTable.Length ==> oldTable[b] == lists[b]
      {
        MoveBucket(oldTable, i, lists, items);
        i := i + 1;
      }
      MovedEnd(lists, items);
    }

    lemma HoldsSome(lists: seq<seq<T>>, items: map<K, T>)
      requires Holds(lists, items)
      ensures |lists| > 0
    {
    }

    /** Four times the buckets, the same contents. */
    method ReHash()
      requires Indexed()
      modifies this`buckets, this`numBuckets, this`table, buckets
      ensures Indexed() && table == old(table) && numBuckets == INCREASE_SIZE_BY * old(numBuckets) && fresh(buckets)
    {
      hide Holds;
      var oldTable := buckets;
      ghost var items, lists := table, buckets[..];
      InitBuckets(numBuckets * INCREASE_SIZE_BY);
      MoveAll(oldTable, lists, items);
    }

    method Insert(item: T)
      requires Valid() && getKey(item) !in table
      modifies this`buckets, this`numBuckets, this`numItems, this`table, buckets
      ensures Valid() && table == old(table)[getKey(item) := item]
      ensures buckets == old(buckets) || fresh(buckets)
    {
      hide Holds; hide Flat;
      if numItems / numBuckets >= RESIZE_RATIO {
        ReHash();
      }
      Place(item);
      numItems := numItems + 1;
    }

    method Remove(key: K) returns (item: T)
      requires Valid() && key in table
      modifies this`numItems, this`table, buckets
      ensures Valid() && table == old(table) - {key} && item == old(table)[key]
    {
      var bucket := HashValue(key);
      var found := FindInBucket(bucket, key);
      item := found.value;
      Take(bucket, item, key);
      numItems := numItems - 1;
    }

    /** buckets[bucket]->Remove(item). */
    method Take(bucket: nat, item: T, ghost key: K)
      requires Indexed() && key in table && item == table[key] && bucket == HashValue(key)
      modifies this`table, buckets
      ensures Indexed() && table == old(table) - {key}
    {
      ghost var was := buckets[..];
      assert item in was[bucket];
      hide Holds;
      var k := IndexIn(buckets[bucket], item);
      HoldsOneLess(was, table, key, k);
      FlatUpdate(was, bucket, Drop(was[bucket], k));
      buckets[bucket] := Drop(buckets[bucket], k);
      table := table - {key};
      assert buckets[..] == was[bucket := Drop(was[bucket], k)];
    }
  
    method FindNextFullBucket(from: nat) returns (bucket: nat)
      requires numBuckets == buckets.Length && from <= numBuckets
      ensures from <= bucket <= numBuckets && (bucket < numBuckets ==> buckets[bucket] != [])
      ensures Flat(buckets[..bucket]) == Flat(buckets[..from])
    {
      bucket := from;
      while bucket < numBuckets && buckets[bucket] == []
        invariant from <= bucket <= numBuckets && Flat(buckets[..bucket]) == Flat(buckets[..from])
      {
        assert buckets[..bucket + 1][..bucket] == buckets[..bucket];
        bucket := bucket + 1;
      }
    }

    /** The items of a prefix of the buckets: those of the map that hash there. */
    lemma {:induction false} FlatHolds(lists: seq<seq<T>>, items: map<K, T>, n: nat)
      requires Holds(lists, items) && n <= |lists|
      ensures var flat := Flat(lists[..n]);
              && Distinct(flat)
              && (forall i :: 0 <= i < |flat| ==>
                    var key := getKey(flat[i]); key in items && items[key] == flat[i] && hash(key) % |lists| < n)
              && (forall key :: key in items && hash(key) % |lists| < n ==> items[key] in flat)
    {
      if n > 0 {
        FlatHolds(lists, items, n - 1);
        assert lists[..n][..n - 1] == lists[..n - 1];
        assert Flat(lists[..n]) == Flat(lists[..n - 1]) + lists[n - 1];
      }
    }
  }

  /** Steps through a table that does not change meanwhile. */
  class HashIterator<K(==), T(==)> {
    const table: HashTable<K, T>
    var bucket: nat
    var position: nat  // of the ListIterator in its bucket

    ghost predicate Valid()
      reads this, table, table.buckets
    {
      && table.numBuckets == table.buckets.Length && bucket <= table.numBuckets
      && (if bucket < table.numBuckets then position < |table.buckets[bucket]| else position == 0)
    }

    /** The items already passed. */
    ghost function Visited(): seq<T>
      requires Valid()
      reads this, table, table.buckets
    {
      Flat(table.buckets[..bucket]) + (if bucket < table.numBuckets then table.buckets[bucket][..position] else [])
    }

    constructor (table: HashTable<K, T>)
      requires table.numBuckets == table.buckets.Length
      ensures this.table == table && Valid() && Visited() == []
    {
      this.table := table;
      var first := table.FindNextFullBucket(0);
      bucket, position := first, 0;
      new;
      assert table.buckets[..0] == [];
    }

    method IsDone() returns (done: bool)
      requires Valid()
      ensures done == (bucket == table.numBuckets)
      ensures done ==> Visited() == Flat(table.buckets[..])
      ensures !done ==> |Visited()| < |Flat(table.buckets[..])|
    {
      done := bucket == table.numBuckets;
      if !done {
        FlatGrows(table.buckets[..], bucket);
        assert table.buckets[..][..bucket] == table.buckets[..bucket];
      }
      assert done ==> table.buckets[..bucket] == table.buckets[..];
    }

    function Item(): T
      requires Valid() && bucket < table.numBuckets
      reads this, table, table.buckets
    {
      table.buckets[bucket][position]
    }

    method Next()
      requires Valid() && bucket < table.numBuckets
      modifies this
      ensures Valid() && Visited() == old(Visited()) + [old(Item())]
    {
      var list := table.buckets[bucket];
      assert list[..position + 1] == list[..position] + [list[position]];
      position := position + 1;
      if position == |list| {
        assert table.buckets[..bucket + 1][..bucket] == table.buckets[..bucket];
        assert list[..position] == list;
        bucket := table.FindNextFullBucket(bucket + 1);
        position := 0;
      }
    }
  }

  /** Iterating over a table visits each of its items exactly once. */
  method VisitAll<K(==), T(==)>(table: HashTable<K, T>) returns (items: seq<T>)
    requires table.Valid()
    ensures |items| == table.numItems && Distinct(items)
    ensures forall i :: 0 <= i < |items| ==>
      table.getKey(items[i]) in table.table && table.table[table.getKey(items[i])] == items[i]
    ensures forall key :: key in table.table ==> table.table[key] in items
  {
    hide Flat;
    table.FlatHolds(table.buckets[..], table.table, table.numBuckets);
    assert table.buckets[..][..table.numBuckets] == table.buckets[..];
    items := [];
    var it := new HashIterator(table);
    var done := it.IsDone();
    while !done
      invariant it.Valid() && it.table == table && fresh(it)
      invariant items == it.Visited() && done == (it.bucket == table.numBuckets)
      invariant done ==> items == Flat(table.buckets[..])
      invariant !done ==> |items| < |Flat(table.buckets[..])|
      decreases |Flat(table.buckets[..])| - |items|, !done
    {
      items := items + [it.Item()];
      it.Next();
      done := it.IsDone();
    }
  }
}
