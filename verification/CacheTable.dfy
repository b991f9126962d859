/**
  A cache's lookup table against its list of entries by age: they have the same entries.
 */
module CacheTable {
  import opened Options
  import opened Sequences
  import opened RecencyList

  ghost predicate EntryAt<K, V>(table: map<K, Entry<K, V>>, order: seq<Entry<K, V>>, i: nat)
    requires i < |order|
  {
    order[i].key in table && table[order[i].key] == order[i]
  }

  ghost predicate KeyAt<K, V>(table: map<K, Entry<K, V>>, order: seq<Entry<K, V>>, k: K)
    requires k in table
  {
    table[k] in order && table[k].key == k
  }

  /** The table and the list have the same entries. */
  ghost predicate Agree<K, V>(table: map<K, Entry<K, V>>, order: seq<Entry<K, V>>) {
    && |table| == |order|
    && (forall i {:trigger EntryAt(table, order, i)} | 0 <= i < |order| :: EntryAt(table, order, i))
    && (forall k {:trigger KeyAt(table, order, k)} | k in table :: KeyAt(table, order, k))
  }

  /** The table finds just the keys of the items. */
  lemma AgreeKeys<K, V>(table: map<K, Entry<K, V>>, order: seq<Entry<K, V>>, k: K)
    requires Agree(table, order) && NoDup(order)
    ensures Distinct(Items(order))
    ensures k in table <==> Lookup(Items(order), k).Some?
    ensures k !in table ==> Without(Items(order), k) == Items(order)
    ensures k in table ==> table[k] in order && table[k].key == k
  {
    forall i, j | 0 <= i < j < |order|
      ensures order[i].key != order[j].key
    {
      assert EntryAt(table, order, i) && EntryAt(table, order, j);
    }
    LookupNone(Items(order), k);
    if k in table {
      assert KeyAt(table, order, k);
      var i :| 0 <= i < |order| && order[i] == table[k];
      assert Items(order)[i].0 == k;
    }
    forall i | 0 <= i < |order|
      ensures Items(order)[i].0 in table
    {
      assert EntryAt(table, order, i);
    }
  }

  lemma AgreeRemoved<K, V>(table: map<K, Entry<K, V>>, order: seq<Entry<K, V>>, i: nat)
    requires Agree(table, order) && NoDup(order) && i < |order|
    ensures Agree(table - {order[i].key}, order[..i] + order[i + 1..])
    ensures order[i].key in table && table[order[i].key] == order[i]
  {
    assert EntryAt(table, order, i);
    var k := order[i].key;
    var t2, o2 := table - {k}, order[..i] + order[i + 1..];
    assert t2.Keys == table.Keys - {k};
    forall j | 0 <= j < |o2|
      ensures EntryAt(t2, o2, j)
    {
      var j2 := if j < i then j else j + 1;
      assert o2[j] == order[j2] && order[j2] != order[i];
      assert EntryAt(table, order, j2);
    }
    forall x | x in t2
      ensures KeyAt(t2, o2, x)
    {
      assert KeyAt(table, order, x);
      var j :| 0 <= j < |order| && order[j] == table[x];
      assert j != i;
      assert o2[if j < i then j else j - 1] == table[x];
    }
  }

  lemma AgreeAdded<K, V>(table: map<K, Entry<K, V>>, order: seq<Entry<K, V>>, e: Entry<K, V>)
    requires Agree(table, order) && e.key !in table
    ensures Agree(table[e.key := e], order + [e])
  {
    var t2, o2 := table[e.key := e], order + [e];
    assert o2[|order|] == e;
    forall j | 0 <= j < |o2|
      ensures EntryAt(t2, o2, j)
    {
      assert j < |order| ==> EntryAt(table, order, j);
    }
    forall x | x in t2
      ensures KeyAt(t2, o2, x)
    {
      assert x in table ==> KeyAt(table, order, x);
    }
  }

  lemma AgreeMoved<K, V>(table: map<K, Entry<K, V>>, order: seq<Entry<K, V>>, i: nat)
    requires Agree(table, order) && NoDup(order) && i < |order|
    ensures Agree(table, order[..i] + order[i + 1..] + [order[i]])
  {
    AgreeRemoved(table, order, i);
    var k := order[i].key;
    AgreeAdded(table - {k}, order[..i] + order[i + 1..], order[i]);
    assert (table - {k})[k := order[i]] == table;
  }

  lemma ItemsRemoved<K, V>(order: seq<Entry<K, V>>, i: nat)
    requires Distinct(Items(order)) && i < |order|
    ensures Lookup(Items(order), order[i].key) == Some(order[i].value)
    ensures Items(order[..i] + order[i + 1..]) == Without(Items(order), order[i].key)
  {
    LookupAt(Items(order), i);
    assert Items(order[..i] + order[i + 1..]) == Items(order)[..i] + Items(order)[i + 1..];
  }

  lemma ItemsAdded<K, V>(order: seq<Entry<K, V>>, e: Entry<K, V>)
    ensures Items(order + [e]) == Items(order) + [(e.key, e.value)]
  {
  }

  lemma KeysAre<K, V>(table: map<K, Entry<K, V>>, order: seq<Entry<K, V>>)
    requires Agree(table, order) && NoDup(order)
    ensures table.Keys == Keys(Items(order)) && Distinct(Items(order))
  {
    forall k | k in table
      ensures k in Keys(Items(order))
    {
      AgreeKeys(table, order, k);
      LookupNone(Items(order), k);
    }
    forall i, j | 0 <= i < j < |order|
      ensures order[i].key != order[j].key
    {
      AgreeKeys(table, order, order[i].key);
    }
    forall i | 0 <= i < |order|
      ensures Items(order)[i].0 in table
    {
      assert EntryAt(table, order, i);
    }
  }
}
