/**
  The list of cache entries by age that both caches keep, and what least recently used
  means for the sequence of their items, oldest first.
 */
module RecencyList {
  import opened Options
  import opened Sequences

  class Entry<K, V> {
    const key: K
    const value: V
    var parent: Entry?<K, V>  // next older entry
    var child: Entry?<K, V>   // next younger entry

    constructor (key: K, value: V)
      ensures this.key == key && this.value == value && parent == null && child == null
    {
      this.key, this.value := key, value;
      parent, child := null, null;
    }
  }

  function Items<K, V>(es: seq<Entry<K, V>>): (s: seq<(K, V)>)
    ensures |s| == |es| && forall i | 0 <= i < |es| :: s[i] == (es[i].key, es[i].value)
  {
    seq(|es|, i requires 0 <= i < |es| => (es[i].key, es[i].value))
  }

  /** Each entry's child is the next. */
  ghost predicate ByChild<K, V>(es: seq<Entry<K, V>>)
    reads es
  {
    forall j {:trigger es[j].child} | 0 <= j < |es| :: es[j].child == (if j == |es| - 1 then null else es[j + 1])
  }

  /** Entry `i` is linked to its neighbours. */
  ghost predicate LinkedIn<K, V>(es: seq<Entry<K, V>>, i: nat)
    requires i < |es|
    reads es[i]
  {
    && es[i].parent == (if i == 0 then null else es[i - 1])
    && es[i].child == (if i == |es| - 1 then null else es[i + 1])
  }

  /** Entry `i` is linked to its neighbours, and where one of them is entry `k`, to that one's other neighbour. */
  ghost predicate BridgedAt<K, V>(es: seq<Entry<K, V>>, k: nat, i: nat)
    requires k < |es| && i < |es|
    reads es[i]
  {
    var up, down := if i == k + 1 then k else i, if i + 1 == k then k else i;
    && es[i].parent == (if up == 0 then null else es[up - 1])
    && es[i].child == (if down == |es| - 1 then null else es[down + 1])
  }

  lemma LinksWithout<K, V>(es: seq<Entry<K, V>>, k: nat, i: nat)
    requires k < |es| && i < |es| - 1 && BridgedAt(es, k, if i < k then i else i + 1)
    ensures LinkedIn(WithoutAt(es, k), i)
  {
  }

  class RecencyList<K, V> {
    var oldest: Entry?<K, V>
    var youngest: Entry?<K, V>
    ghost var order: seq<Entry<K, V>>
    ghost var entries: set<Entry<K, V>>  // whose links the list may change

    ghost predicate Linked(i: nat)
      requires i < |order| && forall j | 0 <= j < |order| :: order[j] in entries
      reads this, entries
    {
      && order[i].parent == (if i == 0 then null else order[i - 1])
      && order[i].child == (if i == |order| - 1 then null else order[i + 1])
    }

    ghost predicate Valid()
      reads this, entries
    {
      && (forall j | 0 <= j < |order| :: order[j] in entries)
      && oldest == (if order == [] then null else order[0])
      && youngest == (if order == [] then null else order[|order| - 1])
      && (forall i {:trigger Linked(i)} | 0 <= i < |order| :: Linked(i))
      && NoDup(order)
    }

    constructor ()
      ensures Valid() && order == [] && entries == {}
    {
      oldest, youngest, order, entries := null, null, [], {};
    }

    /** The list is begun anew; the entries that were in it are left as they are. */
    method Reset()
      modifies this
      ensures Valid() && order == [] && entries == {}
    {
      oldest, youngest, order, entries := null, null, [], {};
    }

    lemma OrderByChild()
      requires Valid()
      ensures ByChild(order)
    {
      forall j | 0 <= j < |order|
        ensures order[j].child == (if j == |order| - 1 then null else order[j + 1])
      {
        assert Linked(j);
      }
    }

    /** The entry that `n` steps by child lead to from the oldest. */
    ghost function Down(n: nat): (e: Entry?<K, V>)
      requires Valid()
      reads this, entries
      ensures e == if n < |order| then order[n] else null
    {
      if n == 0 then oldest
      else
        var e := Down(n - 1);
        if e == null then null else assert Linked(n - 1); e.child
    }

    /** The entry that `n` steps by parent lead to from the youngest. */
    ghost function Up(n: nat): (e: Entry?<K, V>)
      requires Valid()
      reads this, entries
      ensures e == if n < |order| then order[|order| - 1 - n] else null
    {
      if n == 0 then youngest
      else
        var e := Up(n - 1);
        if e == null then null else assert Linked(|order| - n); e.parent
    }

    /** The walk from the oldest by child is the reverse of the walk from the youngest by parent. */
    lemma WalksAgree(n: nat)
      requires Valid() && n < |order|
      ensures Down(n) != null && Down(n) == Up(|order| - 1 - n)
      ensures Down(|order|) == null && Up(|order|) == null
    {
    }

    /** attachToCache */
    method Attach(e: Entry<K, V>)
      requires Valid() && e !in order && e.parent == null && e.child == null
      modifies this, e, entries
      ensures Valid() && order == old(order) + [e] && entries == old(entries) + {e}
    {
      if youngest == null {
        assert order == [];
        oldest, youngest := e, e;
        order, entries := [e], entries + {e};
      } else {
        ghost var last := |order| - 1;
        assert Linked(last);
        e.parent := youngest;
        youngest.child := e;
        youngest := e;
        order, entries := order + [e], entries + {e};
        forall i | 0 <= i < |order|
          ensures Linked(i)
        {
          assert i <= last ==> old(Linked(i));
        }
      }
    }

    /** detachFromCache */
    method Detach(e: Entry<K, V>, ghost k: nat)
      requires Valid() && k < |order| && order[k] == e
      modifies this, entries
      ensures Valid() && order == old(order)[..k] + old(order)[k + 1..] && e.parent == null && e.child == null
      ensures entries == old(entries)
    {
      Bridge(e, k);
      NoDupWithoutAt(order, k);
      ghost var was := order;
      order := WithoutAt(was, k);
      forall i | 0 <= i < |order|
        ensures Linked(i)
      {
        assert BridgedAt(was, k, if i < k then i else i + 1);
        LinksWithout(was, k, i);
      }
    }

    /** The neighbours of the entry are linked to each other, and the entry to none. */
    method Bridge(e: Entry<K, V>, ghost k: nat)
      requires Valid() && k < |order| && order[k] == e
      modifies this`oldest, this`youngest, entries
      ensures e.parent == null && e.child == null
      ensures oldest == if k > 0 then order[0] else if |order| > 1 then order[1] else null
      ensures youngest == if k < |order| - 1 then order[|order| - 1] else if k > 0 then order[k - 1] else null
      ensures forall i {:trigger BridgedAt(order, k, i)} | 0 <= i < |order| && i != k :: BridgedAt(order, k, i)
    {
      forall i | 0 <= i < |order|
        ensures LinkedIn(order, i)
      {
        assert Linked(i);
      }
      assert LinkedIn(order, k);
      SkipDown(e, k);
      SkipUp(e, k);
      e.parent, e.child := null, null;
      forall i | 0 <= i < |order| && i != k
        ensures BridgedAt(order, k, i)
      {
        assert old(LinkedIn(order, i)) && old(LinkedIn(order, k));
      }
    }

    /** Lines 199-203 of LruCache.h: the entry before leads past it. */
    method SkipDown(e: Entry<K, V>, ghost k: nat)
      requires k < |order| && order[k] == e && NoDup(order) && forall j | 0 <= j < |order| :: order[j] in entries
      requires e.parent == if k == 0 then null else order[k - 1]
      modifies this`oldest, entries
      ensures oldest == if k == 0 then old(e.child) else old(oldest)
      ensures forall i | 0 <= i < |order| :: order[i].parent == old(order[i].parent)
      ensures forall i | 0 <= i < |order| :: order[i].child == if i + 1 == k then old(e.child) else old(order[i].child)
    {
      if e.parent != null {
        e.parent.child := e.child;
      } else {
        oldest := e.child;
      }
    }

    /** Lines 204-208: the entry after leads past it. */
    method SkipUp(e: Entry<K, V>, ghost k: nat)
      requires k < |order| && order[k] == e && NoDup(order) && forall j | 0 <= j < |order| :: order[j] in entries
      requires e.child == if k == |order| - 1 then null else order[k + 1]
      modifies this`youngest, entries
      ensures youngest == if k == |order| - 1 then old(e.parent) else old(youngest)
      ensures forall i | 0 <= i < |order| :: order[i].child == old(order[i].child)
      ensures forall i | 0 <= i < |order| :: order[i].parent == if i == k + 1 then old(e.parent)
          else old(order[i].parent)
    {
      if e.child != null {
        e.child.parent := e.parent;
      } else {
        youngest := e.parent;
      }
    }

    /** Lines 122-123 of LruCache.h: what a hit does to the list. */
    method MakeYoungest(e: Entry<K, V>, ghost k: nat)
      requires Valid() && k < |order| && order[k] == e
      modifies this, entries
      ensures Valid() && order == old(order)[..k] + old(order)[k + 1..] + [e]
      ensures entries == old(entries)
    {
      Detach(e, k);
      Attach(e);
    }
  }

  // ----- a least recently used cache as the sequence of its items, oldest first

  function Keys<K, V>(s: seq<(K, V)>): set<K> {
    set i | 0 <= i < |s| :: s[i].0
  }

  ghost predicate Distinct<K, V>(s: seq<(K, V)>) {
    forall i, j | 0 <= i < j < |s| :: s[i].0 != s[j].0
  }

  function Lookup<K(==), V>(s: seq<(K, V)>, k: K): Option<V> {
    if s == [] then None else if s[0].0 == k then Some(s[0].1) else Lookup(s[1..], k)
  }

  function Without<K(==), V>(s: seq<(K, V)>, k: K): seq<(K, V)> {
    if s == [] then [] else if s[0].0 == k then s[1..] else [s[0]] + Without(s[1..], k)
  }

  /** The cache after a hit on key `k`: its item is the youngest. */
  function Touched<K(==), V>(s: seq<(K, V)>, k: K): seq<(K, V)> {
    match Lookup(s, k)
    case Some(v) => Without(s, k) + [(k, v)]
    case None => s
  }

  /** The cache before an insertion: the oldest goes when there is a limit and it is reached. */
  function Evicted<K, V>(s: seq<(K, V)>, max: nat): seq<(K, V)> {
    if max != 0 && |s| >= max then s[1..] else s
  }

  /** put: eviction comes first, whether or not the key is there. */
  function Inserted<K(==), V>(s: seq<(K, V)>, k: K, v: V, max: nat): (bool, seq<(K, V)>) {
    var s1 := Evicted(s, max);
    if Lookup(s1, k).Some? then (false, s1) else (true, s1 + [(k, v)])
  }

  lemma {:induction false} LookupAt<K, V>(s: seq<(K, V)>, i: nat)
    requires Distinct(s) && i < |s|
    ensures Lookup(s, s[i].0) == Some(s[i].1)
    ensures Without(s, s[i].0) == s[..i] + s[i + 1..]
  {
    if i != 0 {
      assert s[0].0 != s[i].0;
      LookupAt(s[1..], i - 1);
      assert s[..i] == [s[0]] + s[1..][..i - 1];
      assert s[i + 1..] == s[1..][i..];
    }
  }

  lemma {:induction false} LookupNone<K, V>(s: seq<(K, V)>, k: K)
    ensures Lookup(s, k) == None <==> k !in Keys(s)
    ensures Lookup(s, k) == None ==> Without(s, k) == s
  {
    if s != [] {
      LookupNone(s[1..], k);
      assert s == [s[0]] + s[1..];
      assert s[0].0 in Keys(s);
      forall x | x in Keys(s[1..])
        ensures x in Keys(s)
      {
        var i :| 0 <= i < |s[1..]| && s[1..][i].0 == x;
        assert s[i + 1].0 == x;
      }
      if k in Keys(s) {
        var i :| 0 <= i < |s| && s[i].0 == k;
        if i > 0 {
          assert s[1..][i - 1].0 == k;
        }
      }
    }
  }

  /**
    What putting (k, v) does to items `s`, which become `t`: the first goes just when the
    limit is reached, the others stay as they are, and the new item comes last, unless
    one of those that stay has its key.
   */
  ghost predicate WasPut<K, V>(s: seq<(K, V)>, t: seq<(K, V)>, ok: bool, k: K, v: V, max: nat) {
    var gone := if max != 0 && |s| >= max then 1 else 0;
    && |t| == |s| - gone + (if ok then 1 else 0)
    && (forall i | 0 <= i < |s| - gone :: t[i] == s[i + gone])
    && (ok ==> t[|t| - 1] == (k, v))
    && (ok <==> forall i | gone <= i < |s| :: s[i].0 != k)
  }

  lemma InsertedIs<K, V>(s: seq<(K, V)>, k: K, v: V, max: nat)
    ensures var r := Inserted(s, k, v, max); WasPut(s, r.1, r.0, k, v, max)
  {
    var s1 := Evicted(s, max);
    LookupNone(s1, k);
    if Lookup(s1, k).None? {
      forall i | 0 <= i < |s1|
        ensures s1[i].0 != k
      {
        assert s1[i].0 in Keys(s1);
      }
    } else {
      var i :| 0 <= i < |s1| && s1[i].0 == k;
      assert s[i + |s| - |s1|].0 == k;
    }
  }

  lemma PutDistinct<K, V>(s: seq<(K, V)>, t: seq<(K, V)>, ok: bool, k: K, v: V, max: nat)
    requires Distinct(s) && WasPut(s, t, ok, k, v, max)
    ensures Distinct(t)
  {
    var gone := if max != 0 && |s| >= max then 1 else 0;
    forall a, b | 0 <= a < b < |t|
      ensures t[a].0 != t[b].0
    {
      assert t[a] == s[a + gone];
      assert b < |s| - gone ==> t[b] == s[b + gone];
    }
  }

  lemma KeptAfterPut<K, V>(s: seq<(K, V)>, t: seq<(K, V)>, ok: bool, k: K, v: V, max: nat, i: nat)
    requires Distinct(t) && WasPut(s, t, ok, k, v, max) && i < |s| && (i != 0 || max == 0 || |s| < max)
    ensures Lookup(t, s[i].0) == Some(s[i].1)
  {
    var j := if max != 0 && |s| >= max then i - 1 else i;
    assert t[j] == s[i];
    LookupAt(t, j);
  }

  /**
    A get right after a put that succeeded gives what was put; that of another key
    gives what it gave, unless evicted.
   */
  lemma GetAfterPut<K, V>(s: seq<(K, V)>, t: seq<(K, V)>, ok: bool, k: K, v: V, max: nat)
    requires Distinct(s) && WasPut(s, t, ok, k, v, max)
    ensures Distinct(t) && (ok ==> Lookup(t, k) == Some(v))
    ensures forall i | 0 <= i < |s| && (i != 0 || max == 0 || |s| < max) :: Lookup(t, s[i].0) == Some(s[i].1)
  {
    PutDistinct(s, t, ok, k, v, max);
    if ok {
      LookupAt(t, |t| - 1);
    }
    forall i | 0 <= i < |s| && (i != 0 || max == 0 || |s| < max)
      ensures Lookup(t, s[i].0) == Some(s[i].1)
    {
      KeptAfterPut(s, t, ok, k, v, max, i);
    }
  }

  /** Keys stay distinct, and a limit that was respected is respected. */
  lemma InsertedKeeps<K, V>(s: seq<(K, V)>, k: K, v: V, max: nat)
    requires Distinct(s) && (max != 0 ==> |s| <= max)
    ensures var t := Inserted(s, k, v, max).1; Distinct(t) && (max != 0 ==> |t| <= max)
  {
    var s1 := Evicted(s, max);
    LookupNone(s1, k);
    if Lookup(s1, k).None? {
      forall i | 0 <= i < |s1|
        ensures s1[i].0 != k
      {
        assert s1[i].0 in Keys(s1);
      }
    }
  }

  /**
    Putting a key that is there does not refuse before it evicts: the oldest item is
    lost for nothing just when the cache is full and the key is there but not the oldest.
   */
  lemma LostForNothing<K, V>(s: seq<(K, V)>, k: K, v: V, max: nat)
    requires Distinct(s) && (max != 0 ==> |s| <= max)
    ensures var r := Inserted(s, k, v, max);
            (!r.0 && r.1 != s) <==> max != 0 && |s| == max && Lookup(s, k).Some? && s[0].0 != k
    ensures var r := Inserted(s, k, v, max); !r.0 && r.1 != s ==> r.1 == s[1..]
  {
    if max != 0 && |s| >= max {
      assert Lookup(s, k) == if s[0].0 == k then Some(s[0].1) else Lookup(s[1..], k);
      LookupNone(s[1..], k);
      if s[0].0 == k {
        forall i | 0 <= i < |s[1..]|
          ensures s[1..][i].0 != k
        {
          assert s[0].0 != s[i + 1].0;
        }
      }
      assert |s[1..]| != |s|;
    }
  }

  /** Two items in a cache for two: putting the younger again refuses it, and loses the older. */
  lemma LostForNothingExample()
    ensures Inserted([(1, 'a'), (2, 'b')], 2, 'c', 2) == (false, [(2, 'b')])
  {
    var s := [(1, 'a'), (2, 'b')];
    assert s[1..] == [(2, 'b')];
    assert Evicted(s, 2) == s[1..];
  }

  /** Moving an item to the end keeps the items, and the keys distinct. */
  lemma MovedLast<K, V>(s: seq<(K, V)>, i: nat, t: seq<(K, V)>)
    requires Distinct(s) && i < |s| && t == s[..i] + s[i + 1..] + [s[i]]
    ensures |t| == |s| && Distinct(t) && multiset(t) == multiset(s)
  {
    assert s == s[..i] + [s[i]] + s[i + 1..];
    forall a, b | 0 <= a < b < |t|
      ensures t[a].0 != t[b].0
    {
      var a2 := if a < i then a else a + 1;
      assert t[a] == s[a2];
      var b2 := if b < i then b else if b < |t| - 1 then b + 1 else i;
      assert t[b] == s[b2];
    }
  }

  /** A hit keeps every item and the order of the others. */
  lemma TouchedKeeps<K, V>(s: seq<(K, V)>, k: K)
    requires Distinct(s)
    ensures var t := Touched(s, k);
            && |t| == |s| && Distinct(t) && multiset(t) == multiset(s)
            && (Lookup(s, k).Some? ==> t != [] && t[|t| - 1] == (k, Lookup(s, k).value)
                                       && t[..|t| - 1] == Without(s, k))
            && (Lookup(s, k).None? ==> t == s)
  {
    LookupNone(s, k);
    if Lookup(s, k).Some? {
      var i :| 0 <= i < |s| && s[i].0 == k;
      LookupAt(s, i);
      MovedLast(s, i, Touched(s, k));
    }
  }
}
