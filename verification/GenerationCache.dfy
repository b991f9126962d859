/**
  GenerationCache: a sorted vector of keys and entries, and the list of the entries by
  age.  Keys are integers here; only their order matters.
 */
module GenerationCache {
  import opened Options
  import opened Sequences
  import opened RecencyList
  import opened CacheTable

  ghost predicate Sorted(keys: seq<int>) {
    forall i, j | 0 <= i < j < |keys| :: keys[i] < keys[j]
  }

  /** Where a key is in a sorted vector, or would be put. */
  function Position(keys: seq<int>, k: int): (i: nat)
    ensures i <= |keys|
  {
    if keys == [] || k <= keys[0] then 0 else 1 + Position(keys[1..], k)
  }

  lemma {:induction false} PositionSplits(keys: seq<int>, k: int)
    requires Sorted(keys)
    ensures forall i | 0 <= i < Position(keys, k) :: keys[i] < k
    ensures forall i | Position(keys, k) <= i < |keys| :: k <= keys[i]
    ensures k in keys <==> Position(keys, k) < |keys| && keys[Position(keys, k)] == k
  {
    if keys != [] && keys[0] < k {
      PositionSplits(keys[1..], k);
      assert keys == [keys[0]] + keys[1..];
      assert k in keys <==> k in keys[1..];
    }
  }

  /** The vector has the keys of the table. */
  ghost predicate SameKeys<V>(keys: seq<int>, table: map<int, V>) {
    Sorted(keys) && (forall i | 0 <= i < |keys| :: keys[i] in table) && (forall k | k in table :: k in keys)
  }

  lemma SortedAdded(keys: seq<int>, k: int, p: nat, k2: seq<int>)
    requires Sorted(keys) && p <= |keys| && k2 == keys[..p] + [k] + keys[p..]
    requires forall i | 0 <= i < p :: keys[i] < k
    requires forall i | p <= i < |keys| :: k < keys[i]
    ensures Sorted(k2) && k2[p] == k
    ensures forall i | 0 <= i < |keys| :: k2[if i < p then i else i + 1] == keys[i]
    ensures forall i | 0 <= i < |k2| :: k2[i] == k || k2[i] in keys
  {
  }

  lemma KeysAdded<V>(keys: seq<int>, table: map<int, V>, k: int, v: V)
    requires SameKeys(keys, table) && k !in table
    ensures var p := Position(keys, k); SameKeys(keys[..p] + [k] + keys[p..], table[k := v])
  {
    PositionSplits(keys, k);
    var p := Position(keys, k);
    var k2 := keys[..p] + [k] + keys[p..];
    assert forall i | 0 <= i < |keys| :: keys[i] != k;
    SortedAdded(keys, k, p, k2);
    forall x | x in table[k := v]
      ensures x in k2
    {
      if x != k {
        var i :| 0 <= i < |keys| && keys[i] == x;
        assert k2[if i < p then i else i + 1] == x;
      }
    }
  }

  lemma SortedRemoved(keys: seq<int>, i: nat, k2: seq<int>)
    requires Sorted(keys) && i < |keys| && k2 == keys[..i] + keys[i + 1..]
    ensures Sorted(k2) && forall j | 0 <= j < |k2| :: k2[j] == keys[if j < i then j else j + 1] && k2[j] != keys[i]
  {
  }

  lemma KeysRemoved<V>(keys: seq<int>, table: map<int, V>, i: nat)
    requires SameKeys(keys, table) && i < |keys|
    ensures SameKeys(keys[..i] + keys[i + 1..], table - {keys[i]})
  {
    var k2 := keys[..i] + keys[i + 1..];
    SortedRemoved(keys, i, k2);
    forall x | x in table && x != keys[i]
      ensures x in k2
    {
      var j :| 0 <= j < |keys| && keys[j] == x;
      assert k2[if j < i then j else j - 1] == x;
    }
  }

  /** The items in the order of the vector. */
  function InKeyOrder<V>(keys: seq<int>, table: map<int, Entry<int, V>>): seq<(int, V)>
    requires forall i | 0 <= i < |keys| :: keys[i] in table
    decreases |keys|
  {
    if keys == [] then []
    else InKeyOrder(keys[..|keys| - 1], table) + [(keys[|keys| - 1], table[keys[|keys| - 1]].value)]
  }

  /** They are the items of the list, sorted by key. */
  lemma {:induction false} InKeyOrderAt<V>(keys: seq<int>, table: map<int, Entry<int, V>>, order: seq<Entry<int, V>>,
                                           i: nat)
    requires (forall j | 0 <= j < |keys| :: keys[j] in table) && Agree(table, order) && NoDup(order) && i < |keys|
    ensures var s := InKeyOrder(keys, table);
        |s| == |keys| && s[i].0 == keys[i] && Lookup(Items(order), keys[i]) == Some(s[i].1)
    decreases |keys|
  {
    var m := |keys| - 1;
    if i < m {
      InKeyOrderAt(keys[..m], table, order, i);
    } else {
      if m > 0 {
        InKeyOrderAt(keys[..m], table, order, 0);
      }
      AgreeKeys(table, order, keys[i]);
      var j :| 0 <= j < |order| && order[j] == table[keys[i]];
      ItemsRemoved(order, j);
    }
  }

  class GenerationCache<V> {
    const maxCapacity: nat               // 0 for no limit
    const list: RecencyList<int, V>
    var keys: seq<int>                   // the keys of the vector
    var table: map<int, Entry<int, V>>   // and their entries
    var listening: bool
    var removed: seq<(int, V)>           // what the listener was told
    ghost var items: seq<(int, V)>       // the items, oldest first

    ghost predicate Valid()
      reads this, list, list.entries
    {
      && list.Valid() && Agree(table, list.order) && items == Items(list.order)
      && SameKeys(keys, table) && (maxCapacity != 0 ==> |table| <= maxCapacity)
    }

    constructor (maxCapacity: nat, listening: bool)
      ensures Valid() && items == [] && this.maxCapacity == maxCapacity && this.listening == listening
      ensures fresh(list) && removed == []
    {
      this.maxCapacity, this.listening := maxCapacity, listening;
      keys, table, removed, items := [], map[], [], [];
      list := new RecencyList();
    }

    /** KeyedVector::indexOfKey */
    method IndexOfKey(k: int) returns (index: int)
      requires SameKeys(keys, table)
      ensures index >= 0 <==> k in table
      ensures index >= 0 ==> index < |keys| && keys[index] == k
    {
      PositionSplits(keys, k);
      var p := Position(keys, k);
      index := if p < |keys| && keys[p] == k then p else -1;
    }

    method Get(k: int) returns (v: Option<V>)
      requires Valid()
      modifies this`items, list, list.entries
      ensures Valid() && v == Lookup(old(items), k) && items == Touched(old(items), k)
      ensures list.entries == old(list.entries)
    {
      AgreeKeys(table, list.order, k);
      var index := IndexOfKey(k);
      if index < 0 {
        return None;
      }
      var e := table[keys[index]];
      Touch(e);
      v := Some(e.value);
    }

    /** Lines 154-155: an entry of the list becomes the youngest. */
    method Touch(e: Entry<int, V>)
      requires Valid() && e in list.order
      modifies this`items, list, list.entries
      ensures Valid() && items == Touched(old(items), e.key) && Lookup(old(items), e.key) == Some(e.value)
      ensures list.entries == old(list.entries)
    {
      AgreeKeys(table, list.order, e.key);
      ghost var was := list.order;
      ghost var i :| 0 <= i < |was| && was[i] == e;
      ItemsRemoved(was, i);
      ItemsAdded(was[..i] + was[i + 1..], e);
      AgreeMoved(table, was, i);
      items := Touched(items, e.key);
      list.MakeYoungest(e, i);
    }

    /** The part of removeAt that changes the cache */
    method RemoveEntry(index: nat, e: Entry<int, V>, ghost i: nat)
      requires list.Valid() && i < |list.order| && list.order[i] == e && index < |keys|
      modifies this`keys, this`table, this`removed, this`items, list, list.entries
      ensures list.Valid() && list.order == old(list.order)[..i] + old(list.order)[i + 1..]
      ensures keys == old(keys)[..index] + old(keys)[index + 1..]
      ensures table == old(table) - {old(keys)[index]} && items == Without(old(items), e.key)
      ensures removed == if listening then old(removed) + [(e.key, e.value)] else old(removed)
      ensures list.entries == old(list.entries)
    {
      if listening {
        removed := removed + [(e.key, e.value)];
      }
      table := table - {keys[index]};
      keys := keys[..index] + keys[index + 1..];
      items := Without(items, e.key);
      list.Detach(e, i);
    }

    method RemoveAt(index: nat)
      requires Valid() && index < |keys|
      modifies this`keys, this`table, this`removed, this`items, list, list.entries
      ensures Valid() && |table| == old(|table|) - 1 && list.entries == old(list.entries)
      ensures items == Without(old(items), old(keys)[index]) && Lookup(old(items), old(keys)[index]).Some?
      ensures removed == if listening
                         then old(removed) + [(old(keys)[index], Lookup(old(items), old(keys)[index]).value)]
                         else old(removed)
    {
      var k := keys[index];
      AgreeKeys(table, list.order, k);
      var e := table[k];
      ghost var was := list.order;
      ghost var i :| 0 <= i < |was| && was[i] == e;
      ItemsRemoved(was, i);
      AgreeRemoved(table, was, i);
      KeysRemoved(keys, table, index);
      RemoveEntry(index, e, i);
    }

    method Remove(k: int) returns (ok: bool)
      requires Valid()
      modifies this`keys, this`table, this`removed, this`items, list, list.entries
      ensures Valid() && list.entries == old(list.entries)
      ensures ok == Lookup(old(items), k).Some? && items == Without(old(items), k)
      ensures |table| == old(|table|) - if ok then 1 else 0
      ensures removed == if ok && listening then old(removed) + [(k, Lookup(old(items), k).value)] else old(removed)
    {
      AgreeKeys(table, list.order, k);
      var index := IndexOfKey(k);
      ok := index >= 0;
      if ok {
        RemoveAt(index);
      }
    }

    /** The key of the oldest entry is in the vector, so the complaint of lines 208-210 is never made. */
    method RemoveOldest() returns (ok: bool)
      requires Valid()
      modifies this`keys, this`table, this`removed, this`items, list, list.entries
      ensures Valid() && list.entries == old(list.entries)
      ensures ok == (old(items) != []) && items == (if ok then old(items)[1..] else [])
      ensures |table| == old(|table|) - if ok then 1 else 0
      ensures removed == if ok && listening then old(removed) + [old(items)[0]] else old(removed)
    {
      if list.oldest == null {
        return false;
      }
      var k := list.oldest.key;
      AgreeKeys(table, list.order, k);
      ItemsRemoved(list.order, 0);
      var index := IndexOfKey(k);
      assert index >= 0;
      RemoveAt(index);
      ok := true;
    }

    /** The eviction that put begins with */
    method Evict()
      requires Valid()
      modifies this`keys, this`table, this`removed, this`items, list, list.entries
      ensures Valid() && list.entries == old(list.entries) && (maxCapacity != 0 ==> |table| < maxCapacity)
      ensures items == Evicted(old(items), maxCapacity)
      ensures removed == if listening && maxCapacity != 0 && |old(items)| >= maxCapacity
          then old(removed) + [old(items)[0]] else old(removed)
    {
      if maxCapacity != 0 && |table| >= maxCapacity {
        var _ := RemoveOldest();
      }
    }

    method Add(k: int, v: V)
      requires Valid() && k !in table && (maxCapacity != 0 ==> |table| < maxCapacity)
      modifies this`keys, this`table, this`items, list, list.entries
      ensures Valid() && items == old(items) + [(k, v)]
      ensures fresh(list.entries - old(list.entries))
    {
      var e := new Entry(k, v);
      AgreeAdded(table, list.order, e);
      ItemsAdded(list.order, e);
      KeysAdded(keys, table, k, e);
      var p := Position(keys, k);
      keys := keys[..p] + [k] + keys[p..];
      table := table[k := e];
      items := items + [(k, v)];
      list.Attach(e);
    }

    lemma PutFacts(k: int, v: V)
      requires Valid()
      ensures var r := Inserted(items, k, v, maxCapacity);
              WasPut(items, r.1, r.0, k, v, maxCapacity) && (r.0 ==> Lookup(r.1, k) == Some(v))
    {
      KeysAre(table, list.order);
      InsertedIs(items, k, v, maxCapacity);
      var r := Inserted(items, k, v, maxCapacity);
      GetAfterPut(items, r.1, r.0, k, v, maxCapacity);
    }

    method Insert(k: int, v: V) returns (ok: bool)
      requires Valid()
      modifies this`keys, this`table, this`removed, this`items, list, list.entries
      ensures Valid() && (ok, items) == Inserted(old(items), k, v, maxCapacity)
      ensures removed == if listening && maxCapacity != 0 && |old(items)| >= maxCapacity
          then old(removed) + [old(items)[0]] else old(removed)
      ensures fresh(list.entries - old(list.entries))
    {
      Evict();
      ok := AddNew(k, v);
    }

    method Put(k: int, v: V) returns (ok: bool)
      requires Valid()
      modifies this`keys, this`table, this`removed, this`items, list, list.entries
      ensures Valid() && (ok, items) == Inserted(old(items), k, v, maxCapacity)
      ensures WasPut(old(items), items, ok, k, v, maxCapacity) && (ok ==> Lookup(items, k) == Some(v))
      ensures removed == if listening && maxCapacity != 0 && |old(items)| >= maxCapacity
          then old(removed) + [old(items)[0]] else old(removed)
      ensures fresh(list.entries - old(list.entries))
    {
      PutFacts(k, v);
      ok := Insert(k, v);
    }

    /** The rest of put */
    method AddNew(k: int, v: V) returns (ok: bool)
      requires Valid() && (maxCapacity != 0 ==> |table| < maxCapacity)
      modifies this`keys, this`table, this`items, list, list.entries
      ensures Valid() && fresh(list.entries - old(list.entries))
      ensures ok == Lookup(old(items), k).None? && items == if ok then old(items) + [(k, v)] else old(items)
    {
      AgreeKeys(table, list.order, k);
      var index := IndexOfKey(k);
      ok := index < 0;
      if ok {
        Add(k, v);
      }
    }

    /** The listener is told in the order of the keys, not of age. */
    method Clear()
      requires Valid()
      modifies this`keys, this`table, this`removed, this`items, list
      ensures Valid() && items == []
      ensures removed == if listening then old(removed) + old(InKeyOrder(keys, table)) else old(removed)
    {
      if listening {
        TellAll();
      }
      keys, table, items := [], map[], [];
      list.Reset();
    }

    method TellAll()
      requires SameKeys(keys, table)
      modifies this`removed
      ensures removed == old(removed) + InKeyOrder(keys, table)
    {
      var i := 0;
      while i < |keys|
        invariant 0 <= i <= |keys|
        invariant removed == old(removed) + InKeyOrder(keys[..i], table)
      {
        assert keys[..i + 1][..i] == keys[..i];
        removed := removed + [(keys[i], table[keys[i]].value)];
        i := i + 1;
      }
      assert keys[..i] == keys;
    }
  }
}
