/**
  LruCache: a hash table of entries that are also linked by age.  The table is a map
  with a capacity.  It is full when as many buckets are filled; removing an entry may
  leave its bucket filled, and adding one may use such a bucket or fill another, as the
  hashes fall.
 */
module LruCache {
  import opened Options
  import opened RecencyList
  import opened CacheTable

  class LruCache<K(==), V> {
    const maxCapacity: nat           // 0 for no limit
    const list: RecencyList<K, V>
    var table: map<K, Entry<K, V>>
    var capacity: nat                // how many buckets may be filled
    var filled: nat                  // how many are
    var listening: bool
    var removed: seq<(K, V)>         // what the listener was told
    ghost var items: seq<(K, V)>     // the items, oldest first

    ghost predicate Valid()
      reads this, list, list.entries
    {
      && list.Valid() && Agree(table, list.order) && items == Items(list.order)
      && 0 < capacity && |table| <= filled <= capacity && (maxCapacity != 0 ==> |table| <= maxCapacity)
    }

    constructor (maxCapacity: nat, capacity: nat, listening: bool)
      requires 0 < capacity
      ensures Valid() && items == [] && this.maxCapacity == maxCapacity && this.listening == listening
      ensures fresh(list) && removed == []
    {
      this.maxCapacity, this.capacity, this.listening := maxCapacity, capacity, listening;
      table, filled, removed, items := map[], 0, [], [];
      list := new RecencyList();
    }

    method Get(k: K) returns (v: Option<V>)
      requires Valid()
      modifies this`items, list, list.entries
      ensures Valid() && v == Lookup(old(items), k) && items == Touched(old(items), k)
      ensures list.entries == old(list.entries)
    {
      AgreeKeys(table, list.order, k);
      if k !in table {
        return None;
      }
      var e := table[k];
      ghost var was := list.order;
      ghost var i :| 0 <= i < |was| && was[i] == e;
      ItemsRemoved(was, i);
      ItemsAdded(was[..i] + was[i + 1..], e);
      AgreeMoved(table, was, i);
      items := Touched(items, k);
      list.MakeYoungest(e, i);
      v := Some(e.value);
    }

    /** Lines 158-162: the listener is told, and the entry leaves the list and the table. */
    method RemoveEntry(e: Entry<K, V>, ghost i: nat)
      requires list.Valid() && i < |list.order| && list.order[i] == e && e.key in table && |table| <= filled
      modifies this`table, this`filled, this`removed, this`items, list, list.entries
      ensures list.Valid() && list.order == old(list.order)[..i] + old(list.order)[i + 1..]
      ensures |table| <= filled <= old(filled)
      ensures table == old(table) - {e.key} && items == Without(old(items), e.key)
      ensures removed == if listening then old(removed) + [(e.key, e.value)] else old(removed)
      ensures list.entries == old(list.entries)
    {
      if listening {
        removed := removed + [(e.key, e.value)];
      }
      assert (table - {e.key}).Keys == table.Keys - {e.key};
      table := table - {e.key};
      var vacated: bool := *;
      if vacated && |table| < filled {
        filled := filled - 1;
      }
      items := Without(items, e.key);
      list.Detach(e, i);
    }

    method Remove(k: K) returns (ok: bool)
      requires Valid()
      modifies this`table, this`filled, this`removed, this`items, list, list.entries
      ensures Valid()
      ensures ok == Lookup(old(items), k).Some? && items == Without(old(items), k)
      ensures |table| == old(|table|) - (if ok then 1 else 0) && filled <= old(filled)
      ensures removed == if ok && listening then old(removed) + [(k, Lookup(old(items), k).value)] else old(removed)
      ensures list.entries == old(list.entries)
    {
      AgreeKeys(table, list.order, k);
      ok := k in table;
      if ok {
        var e := table[k];
        ghost var was := list.order;
        ghost var i :| 0 <= i < |was| && was[i] == e;
        ItemsRemoved(was, i);
        AgreeRemoved(table, was, i);
        RemoveEntry(e, i);
      }
    }

    method RemoveOldest() returns (ok: bool)
      requires Valid()
      modifies this`table, this`filled, this`removed, this`items, list, list.entries
      ensures Valid()
      ensures ok == (old(items) != []) && items == (if ok then old(items)[1..] else [])
      ensures |table| == old(|table|) - (if ok then 1 else 0) && filled <= old(filled)
      ensures removed == if ok && listening then old(removed) + [old(items)[0]] else old(removed)
      ensures list.entries == old(list.entries)
    {
      if list.oldest == null {
        return false;
      }
      var k := list.oldest.key;
      AgreeKeys(table, list.order, k);
      ItemsRemoved(list.order, 0);
      ok := Remove(k);
    }

    /** The eviction that put begins with */
    method Evict()
      requires Valid()
      modifies this`table, this`filled, this`removed, this`items, list, list.entries
      ensures Valid() && filled <= old(filled) && (maxCapacity != 0 ==> |table| < maxCapacity)
      ensures items == Evicted(old(items), maxCapacity)
      ensures removed == if listening && maxCapacity != 0 && |old(items)| >= maxCapacity
          then old(removed) + [old(items)[0]] else old(removed)
      ensures list.entries == old(list.entries)
    {
      if maxCapacity != 0 && |table| >= maxCapacity {
        var _ := RemoveOldest();
      }
    }

    /** A new entry, when there is room and the key is new */
    method Add(k: K, v: V)
      requires Valid() && k !in table && filled < capacity && (maxCapacity != 0 ==> |table| < maxCapacity)
      modifies this`table, this`filled, this`items, list, list.entries
      ensures Valid() && items == old(items) + [(k, v)] && |table| == old(|table|) + 1 && filled <= old(filled) + 1
      ensures fresh(list.entries - old(list.entries))
    {
      var e := new Entry(k, v);
      AgreeAdded(table, list.order, e);
      ItemsAdded(list.order, e);
      table := table[k := e];
      var another: bool := *;
      if another || filled < |table| {
        filled := filled + 1;
      }
      items := items + [(k, v)];
      list.Attach(e);
    }

    /** Lines 138-140: a full table is replaced by one at least twice as large. */
    method MakeRoom()
      requires Valid() && (maxCapacity != 0 ==> |table| < maxCapacity)
      modifies this`table, this`capacity, this`filled, this`removed, this`items, list, list.entries
      ensures Valid() && items == old(items) && |table| == old(|table|) && filled < capacity
      ensures old(filled < capacity) ==> capacity == old(capacity) && filled == old(filled)
      ensures removed == old(removed)
      ensures fresh(list.entries - old(list.entries))
      decreases if filled >= capacity then 2 else 0, 0
    {
      if filled >= capacity {
        var larger: nat :| capacity * 2 <= larger;
        Rehash(larger);
      }
    }

    /** The rest of put, for a key that is new */
    method AddNew(k: K, v: V)
      requires Valid() && k !in table && (maxCapacity != 0 ==> |table| < maxCapacity)
      modifies this`table, this`capacity, this`filled, this`removed, this`items, list, list.entries
      ensures Valid() && items == old(items) + [(k, v)] && |table| == old(|table|) + 1
      ensures old(filled < capacity) ==> capacity == old(capacity) && filled <= old(filled) + 1
      ensures removed == old(removed) && fresh(list.entries - old(list.entries))
      decreases if filled >= capacity then 2 else 0, 1
    {
      AgreeKeys(table, list.order, k);
      MakeRoom();
      AgreeKeys(table, list.order, k);
      ghost var es := list.entries;
      assert fresh(es - old(list.entries));
      Add(k, v);
      assert list.entries - old(list.entries) <= (list.entries - es) + (es - old(list.entries));
    }

    lemma PutFacts(k: K, v: V)
      requires Valid()
      ensures var r := Inserted(items, k, v, maxCapacity);
              WasPut(items, r.1, r.0, k, v, maxCapacity) && (r.0 ==> Lookup(r.1, k) == Some(v))
    {
      KeysAre(table, list.order);
      InsertedIs(items, k, v, maxCapacity);
      var r := Inserted(items, k, v, maxCapacity);
      GetAfterPut(items, r.1, r.0, k, v, maxCapacity);
    }

    method Insert(k: K, v: V) returns (ok: bool)
      requires Valid()
      modifies this`table, this`capacity, this`filled, this`removed, this`items, list, list.entries
      ensures Valid() && (ok, items) == Inserted(old(items), k, v, maxCapacity)
      ensures old(filled < capacity) ==> capacity == old(capacity) && filled <= old(filled) + 1
      ensures removed == if listening && maxCapacity != 0 && |old(items)| >= maxCapacity
          then old(removed) + [old(items)[0]] else old(removed)
      ensures fresh(list.entries - old(list.entries))
      decreases if filled >= capacity then 2 else 0, 2
    {
      Evict();
      AgreeKeys(table, list.order, k);
      ok := k !in table;
      if ok {
        AddNew(k, v);
      }
    }

    method Put(k: K, v: V) returns (ok: bool)
      requires Valid()
      modifies this`table, this`capacity, this`filled, this`removed, this`items, list, list.entries
      ensures Valid() && (ok, items) == Inserted(old(items), k, v, maxCapacity)
      ensures WasPut(old(items), items, ok, k, v, maxCapacity) && (ok ==> Lookup(items, k) == Some(v))
      ensures old(filled < capacity) ==> capacity == old(capacity) && filled <= old(filled) + 1
      ensures removed == if listening && maxCapacity != 0 && |old(items)| >= maxCapacity
          then old(removed) + [old(items)[0]] else old(removed)
      ensures fresh(list.entries - old(list.entries))
      decreases if filled >= capacity then 2 else 0, 3
    {
      PutFacts(k, v);
      ok := Insert(k, v);
    }

    /** A turn of rehash's loop */
    method PutAgain(p: Entry<K, V>, ghost all: seq<(K, V)>, ghost i: nat)
      requires Valid() && i < |all| && Distinct(all) && items == all[..i] && |table| == i && filled <= i < capacity
      requires all[i] == (p.key, p.value) && (maxCapacity != 0 ==> i < maxCapacity)
      modifies this`table, this`capacity, this`filled, this`removed, this`items, list, list.entries
      ensures Valid() && items == all[..i + 1] && |table| == i + 1 && filled <= i + 1
      ensures capacity == old(capacity) && removed == old(removed) && fresh(list.entries - old(list.entries))
      decreases if filled >= capacity then 2 else 0, 4
    {
      NewKey(all, i);
      var _ := Put(p.key, p.value);
    }

    /** The loop of rehash, over entries `was` that the list no longer has */
    method PutAll(first: Entry?<K, V>, ghost was: seq<Entry<K, V>>, ghost all: seq<(K, V)>)
      requires Valid() && items == [] && |table| == 0 && filled == 0 && list.entries == {}
      requires ByChild(was) && first == (if was == [] then null else was[0])
      requires all == Items(was) && Distinct(all) && |was| < capacity && (maxCapacity != 0 ==> |was| < maxCapacity)
      modifies this`table, this`capacity, this`filled, this`removed, this`items, list
      ensures Valid() && items == all && |table| == |all| && filled <= |all|
      ensures capacity == old(capacity) && removed == old(removed) && fresh(list.entries)
      decreases if filled >= capacity then 2 else 0, 5
    {
      var p := first;
      ghost var i := 0;
      while p != null
        invariant 0 <= i <= |was| && p == (if i < |was| then was[i] else null)
        invariant ByChild(was)
        invariant Valid() && items == all[..i] && |table| == i && filled <= i
        invariant capacity == old(capacity) && removed == old(removed) && fresh(list.entries)
        decreases |was| - i
      {
        PutAgain(p, all, i);
        assert ByChild(was) && p == was[i];
        p := p.child;
        i := i + 1;
      }
    }

    /** The beginning of rehash: an empty cache, and the entries that it had, still linked among themselves */
    method Renew(newCapacity: nat) returns (first: Entry?<K, V>, ghost was: seq<Entry<K, V>>)
      requires Valid() && 0 < newCapacity
      modifies this`table, this`capacity, this`filled, this`items, list
      ensures Valid() && items == [] && |table| == 0 && filled == 0 && capacity == newCapacity && list.entries == {}
      ensures ByChild(was) && first == (if was == [] then null else was[0])
      ensures old(items) == Items(was) && Distinct(old(items)) && |was| == old(|table|)
    {
      was := list.order;
      KeysAre(table, was);
      list.OrderByChild();
      first := list.oldest;
      list.Reset();
      table, capacity, filled, items := map[], newCapacity, 0, [];
    }

    /**
      The entries are put again, oldest first, into a larger table: the same items in the
      same order, none told to the listener, and every entry of the list is new, so no
      link leads back to the old table.
     */
    method Rehash(newCapacity: nat)
      requires Valid() && |table| < newCapacity && (maxCapacity != 0 ==> |table| < maxCapacity)
      modifies this`table, this`capacity, this`filled, this`removed, this`items, list, list.entries
      ensures Valid() && items == old(items) && |table| == old(|table|) && filled <= |table|
      ensures capacity == newCapacity && removed == old(removed)
      ensures fresh(list.entries)
      decreases 1, 0
    {
      ghost var all := items;
      var first, was := Renew(newCapacity);
      PutAll(first, was, all);
    }

    method Clear()
      requires Valid()
      modifies this`table, this`filled, this`removed, this`items, list
      ensures Valid() && items == []
      ensures removed == old(removed) + if listening then old(items) else []
    {
      if listening {
        TellAll();
      }
      list.Reset();
      table, filled, items := map[], 0, [];
    }

    /** The walk of clear, from the oldest */
    method TellAll()
      requires Valid()
      modifies this`removed
      ensures removed == old(removed) + items
    {
      var p := list.oldest;
      ghost var i := 0;
      while p != null
        invariant 0 <= i <= |list.order| && p == (if i < |list.order| then list.order[i] else null)
        invariant removed == old(removed) + items[..i]
        decreases |list.order| - i
      {
        removed := removed + [(p.key, p.value)];
        assert items[..i + 1] == items[..i] + [items[i]];
        assert list.Linked(i);
        p := p.child;
        i := i + 1;
      }
      assert items[..i] == items;
    }
  }

  lemma NewKey<K, V>(all: seq<(K, V)>, i: nat)
    requires Distinct(all) && i < |all|
    ensures Lookup(all[..i], all[i].0) == None && all[..i + 1] == all[..i] + [all[i]]
  {
    LookupNone(all[..i], all[i].0);
  }
}
