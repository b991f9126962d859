/**
  The two red-black trees over a process's buffers, each given by its in-order
  walk: free buffers by size, allocated buffers by address.  A tree holds the
  addresses of headers; the key of a free buffer is its size, which is computed
  from its neighbour and so can change with every list edit.
 */
module BufferIndex {
  import opened Sequences
  import opened BufferLayout

  ghost predicate Distinct(idx: seq<nat>) {
    forall j, k | 0 <= j < k < |idx| :: idx[j] != idx[k]
  }

  ghost predicate Ascending(idx: seq<nat>) {
    forall j, k | 0 <= j < k < |idx| :: idx[j] < idx[k]
  }

  ghost predicate Known(bs: seq<Buffer>, idx: seq<nat>) {
    forall k | 0 <= k < |idx| :: HasBuffer(bs, idx[k])
  }

  /** Every address in the tree is a header's, and their current sizes ascend. */
  ghost predicate SortedBySize(g: Geometry, bs: seq<Buffer>, idx: seq<nat>) {
    && Known(bs, idx)
    && (forall j, k | 0 <= j < k < |idx| :: SizeAt(g, bs, idx[j]) <= SizeAt(g, bs, idx[k]))
  }

  /** The tree of free buffers holds exactly the free headers, each once, in size order. */
  ghost predicate FreeIndexed(g: Geometry, bs: seq<Buffer>, idx: seq<nat>) {
    && SortedBySize(g, bs, idx)
    && Distinct(idx)
    && (forall i | 0 <= i < |bs| :: bs[i].addr in idx <==> bs[i].free)
  }

  /** The tree of allocated buffers holds exactly the other headers, in address order. */
  ghost predicate AllocatedIndexed(bs: seq<Buffer>, idx: seq<nat>) {
    && Ascending(idx)
    && Known(bs, idx)
    && (forall i | 0 <= i < |bs| :: bs[i].addr in idx <==> !bs[i].free)
  }

  function With(idx: seq<nat>, k: nat, a: nat): seq<nat>
    requires k <= |idx|
  {
    idx[..k] + [a] + idx[k..]
  }

  lemma WithoutMembers(idx: seq<nat>, k: nat)
    requires k < |idx|
    ensures forall a :: a in WithoutAt(idx, k) ==> a in idx
    ensures forall a :: a in idx && a != idx[k] ==> a in WithoutAt(idx, k)
    ensures Distinct(idx) ==> Distinct(WithoutAt(idx, k)) && idx[k] !in WithoutAt(idx, k)
  {
    var w := WithoutAt(idx, k);
    assert forall j | 0 <= j < |w| :: w[j] == idx[if j < k then j else j + 1];
    forall a | a in idx && a != idx[k]
      ensures a in w
    {
      var j :| 0 <= j < |idx| && idx[j] == a;
      assert w[if j < k then j else j - 1] == a;
    }
  }

  lemma WithMembers(idx: seq<nat>, k: nat, a: nat)
    requires k <= |idx|
    ensures forall b :: b in With(idx, k, a) <==> b == a || b in idx
    ensures Distinct(idx) && a !in idx ==> Distinct(With(idx, k, a))
  {
    var w := With(idx, k, a);
    assert w[k] == a;
    assert forall j | 0 <= j < |idx| :: w[if j < k then j else j + 1] == idx[j];
  }

  /** `cs` gives every address of `idx` the size that `bs` gives it. */
  ghost predicate SameSizes(g: Geometry, bs: seq<Buffer>, cs: seq<Buffer>, idx: seq<nat>) {
    forall a | a in idx && HasBuffer(bs, a) :: HasBuffer(cs, a) && SizeAt(g, cs, a) == SizeAt(g, bs, a)
  }

  lemma SortedTransfers(g: Geometry, bs: seq<Buffer>, cs: seq<Buffer>, idx: seq<nat>)
    requires SortedBySize(g, bs, idx) && SameSizes(g, bs, cs, idx)
    ensures SortedBySize(g, cs, idx)
  {
  }

  lemma SortedWithout(g: Geometry, bs: seq<Buffer>, idx: seq<nat>, k: nat)
    requires SortedBySize(g, bs, idx) && k < |idx|
    ensures SortedBySize(g, bs, WithoutAt(idx, k))
  {
    var w := WithoutAt(idx, k);
    assert forall j | 0 <= j < |w| :: w[j] == idx[if j < k then j else j + 1];
  }

  /** The place at which inserting by size keeps the tree in order: behind every size not above it. */
  ghost predicate SizePlace(g: Geometry, bs: seq<Buffer>, idx: seq<nat>, k: nat, a: nat)
    requires SortedBySize(g, bs, idx) && HasBuffer(bs, a)
  {
    && k <= |idx|
    && (forall j | 0 <= j < k :: SizeAt(g, bs, idx[j]) <= SizeAt(g, bs, a))
    && (forall j | k <= j < |idx| :: SizeAt(g, bs, a) < SizeAt(g, bs, idx[j]))
  }

  lemma SortedWith(g: Geometry, bs: seq<Buffer>, idx: seq<nat>, k: nat, a: nat)
    requires SortedBySize(g, bs, idx) && HasBuffer(bs, a) && SizePlace(g, bs, idx, k, a)
    ensures SortedBySize(g, bs, With(idx, k, a))
  {
    var w := With(idx, k, a);
    assert w[k] == a;
    assert forall j | 0 <= j < |w| && j != k :: w[j] == idx[if j < k then j else j - 1];
  }

  /** Addresses below `k` in the tree are below `a`, the others above. */
  ghost predicate AddressPlace(idx: seq<nat>, k: nat, a: nat) {
    && k <= |idx|
    && (forall j | 0 <= j < k :: idx[j] < a)
    && (forall j | k <= j < |idx| :: a < idx[j])
  }

  // ----- how list edits act on sizes and on the two trees

  lemma SameHeader(g: Geometry, bs: seq<Buffer>, cs: seq<Buffer>, i: nat, k: nat)
    requires g.Valid() && Tiled(g, bs) && Tiled(g, cs) && i < |bs| && k < |cs|
    requires bs[i].addr == cs[k].addr
    ensures HasBuffer(bs, bs[i].addr) && IndexAt(bs, bs[i].addr) == i
    ensures HasBuffer(cs, bs[i].addr) && IndexAt(cs, bs[i].addr) == k
    ensures End(g, bs, i) == End(g, cs, k) ==> SizeAt(g, bs, bs[i].addr) == SizeAt(g, cs, bs[i].addr)
  {
    IndexAtUnique(g, bs, i);
    IndexAtUnique(g, cs, k);
  }

  lemma ReplacedSizes(g: Geometry, bs: seq<Buffer>, cs: seq<Buffer>, idx: seq<nat>)
    requires g.Valid() && Tiled(g, bs) && Tiled(g, cs) && |cs| == |bs|
    requires forall i | 0 <= i < |bs| :: cs[i].addr == bs[i].addr
    ensures SameSizes(g, bs, cs, idx)
  {
    forall a | a in idx && HasBuffer(bs, a)
      ensures HasBuffer(cs, a) && SizeAt(g, cs, a) == SizeAt(g, bs, a)
    {
      var i := IndexAt(bs, a);
      SameHeader(g, bs, cs, i, i);
    }
  }

  lemma InsertedSize(g: Geometry, bs: seq<Buffer>, cs: seq<Buffer>, i: nat, addr: nat, j: nat)
    requires g.Valid() && Tiled(g, bs) && Tiled(g, cs) && i < |bs| && Inserted(bs, cs, i, addr)
    requires j < |bs| && j != i
    ensures HasBuffer(bs, bs[j].addr) && HasBuffer(cs, bs[j].addr)
    ensures SizeAt(g, cs, bs[j].addr) == SizeAt(g, bs, bs[j].addr)
  {
    var k := if j < i then j else j + 1;
    assert cs[k] == bs[j] && End(g, cs, k) == End(g, bs, j);
    SameHeader(g, bs, cs, j, k);
  }

  lemma InsertedSizes(g: Geometry, bs: seq<Buffer>, cs: seq<Buffer>, i: nat, addr: nat, idx: seq<nat>)
    requires g.Valid() && Tiled(g, bs) && Tiled(g, cs) && i < |bs| && Inserted(bs, cs, i, addr)
    requires bs[i].addr !in idx
    ensures SameSizes(g, bs, cs, idx)
  {
    forall a | a in idx && HasBuffer(bs, a)
      ensures HasBuffer(cs, a) && SizeAt(g, cs, a) == SizeAt(g, bs, a)
    {
      InsertedSize(g, bs, cs, i, addr, IndexAt(bs, a));
    }
  }

  lemma DeletedSize(g: Geometry, bs: seq<Buffer>, i: nat, j: nat)
    requires g.Valid() && Tiled(g, bs) && 0 < i < |bs|
    requires j < |bs| && j != i && j != i - 1
    ensures HasBuffer(bs, bs[j].addr) && HasBuffer(Deleted(bs, i), bs[j].addr)
    ensures SizeAt(g, Deleted(bs, i), bs[j].addr) == SizeAt(g, bs, bs[j].addr)
  {
    var cs := Deleted(bs, i);
    DeletedTiles(g, bs, i);
    var k := if j < i then j else j - 1;
    assert cs[k] == bs[j] && End(g, cs, k) == End(g, bs, j);
    SameHeader(g, bs, cs, j, k);
  }

  lemma DeletedSizes(g: Geometry, bs: seq<Buffer>, i: nat, idx: seq<nat>)
    requires g.Valid() && Tiled(g, bs) && 0 < i < |bs|
    requires bs[i].addr !in idx && bs[i - 1].addr !in idx
    ensures SameSizes(g, bs, Deleted(bs, i), idx)
  {
    forall a | a in idx && HasBuffer(bs, a)
      ensures HasBuffer(Deleted(bs, i), a) && SizeAt(g, Deleted(bs, i), a) == SizeAt(g, bs, a)
    {
      DeletedSize(g, bs, i, IndexAt(bs, a));
    }
  }

  // ----- the trees after allocating

  /** `cs` is `bs` with the free header `i` no longer free. */
  ghost predicate Occupied(bs: seq<Buffer>, cs: seq<Buffer>, i: nat) {
    && i < |bs| == |cs|
    && bs[i].free && !cs[i].free && cs[i].addr == bs[i].addr
    && forall j | 0 <= j < |bs| && j != i :: cs[j] == bs[j]
  }

  lemma OccupiedFreeIndex(g: Geometry, bs: seq<Buffer>, cs: seq<Buffer>, i: nat, idx: seq<nat>, k: nat)
    requires g.Valid() && Tiled(g, bs) && Tiled(g, cs) && Occupied(bs, cs, i)
    requires FreeIndexed(g, bs, idx) && k < |idx| && idx[k] == bs[i].addr
    ensures FreeIndexed(g, cs, WithoutAt(idx, k))
    ensures bs[i].addr !in WithoutAt(idx, k)
  {
    WithoutMembers(idx, k);
    SortedWithout(g, bs, idx, k);
    ReplacedSizes(g, bs, cs, WithoutAt(idx, k));
    SortedTransfers(g, bs, cs, WithoutAt(idx, k));
    forall j | 0 <= j < |cs|
      ensures cs[j].addr in WithoutAt(idx, k) <==> cs[j].free
    {
      if j != i {
        AddressesDiffer(g, bs, i, j);
      }
    }
  }

  lemma AddressesDiffer(g: Geometry, bs: seq<Buffer>, i: nat, j: nat)
    requires g.Valid() && Tiled(g, bs) && i < |bs| && j < |bs| && i != j
    ensures bs[i].addr != bs[j].addr
  {
    IndexAtUnique(g, bs, i);
    IndexAtUnique(g, bs, j);
  }

  lemma InsertedAddressIsNew(g: Geometry, bs: seq<Buffer>, cs: seq<Buffer>, i: nat, a: nat)
    requires g.Valid() && Tiled(g, cs) && i < |bs| && Inserted(bs, cs, i, a)
    ensures !HasBuffer(bs, a)
  {
    forall j | 0 <= j < |bs|
      ensures bs[j].addr != a
    {
      AddressesDiffer(g, cs, if j <= i then j else j + 1, i + 1);
    }
  }

  lemma InsertedFreeIndex(g: Geometry, bs: seq<Buffer>, cs: seq<Buffer>, i: nat, a: nat, idx: seq<nat>, k: nat)
    requires g.Valid() && Tiled(g, bs) && Tiled(g, cs) && i < |bs| && Inserted(bs, cs, i, a)
    requires !bs[i].free && !cs[i].free && cs[i + 1].free
    requires FreeIndexed(g, bs, idx)
    requires SortedBySize(g, cs, idx) && HasBuffer(cs, a) && SizePlace(g, cs, idx, k, a)
    ensures FreeIndexed(g, cs, With(idx, k, a))
  {
    InsertedAddressIsNew(g, bs, cs, i, a);
    WithMembers(idx, k, a);
    SortedWith(g, cs, idx, k, a);
    forall j | 0 <= j < |cs|
      ensures cs[j].addr in With(idx, k, a) <==> cs[j].free
    {
      if j == i {
        AddressesDiffer(g, cs, i, i + 1);
      } else if j != i + 1 {
        AddressesDiffer(g, cs, j, i + 1);
        assert cs[j] == bs[if j < i then j else j - 1];
      }
    }
  }

  /** Only the addresses and the free bits of the headers matter to the trees. */
  lemma IndexesIgnoreSizes(g: Geometry, bs: seq<Buffer>, cs: seq<Buffer>, idx: seq<nat>, ai: seq<nat>)
    requires g.Valid() && Tiled(g, bs) && Tiled(g, cs) && |bs| == |cs|
    requires forall i | 0 <= i < |bs| :: cs[i].addr == bs[i].addr && cs[i].free == bs[i].free
    ensures FreeIndexed(g, bs, idx) ==> FreeIndexed(g, cs, idx)
    ensures AllocatedIndexed(bs, ai) ==> AllocatedIndexed(cs, ai)
  {
    if FreeIndexed(g, bs, idx) {
      ReplacedSizes(g, bs, cs, idx);
      SortedTransfers(g, bs, cs, idx);
    }
    if AllocatedIndexed(bs, ai) {
      ReplacedKnown(bs, cs, ai);
    }
  }

  lemma AddressAt(bs: seq<Buffer>, j: nat)
    requires j < |bs|
    ensures HasBuffer(bs, bs[j].addr)
  {
  }

  lemma ReplacedKnown(bs: seq<Buffer>, cs: seq<Buffer>, idx: seq<nat>)
    requires Known(bs, idx) && |cs| == |bs|
    requires forall i | 0 <= i < |bs| :: cs[i].addr == bs[i].addr
    ensures Known(cs, idx)
  {
    forall k | 0 <= k < |idx|
      ensures HasBuffer(cs, idx[k])
    {
      AddressAt(cs, IndexAt(bs, idx[k]));
    }
  }

  lemma WithoutKeepsOrder(bs: seq<Buffer>, idx: seq<nat>, k: nat)
    requires Known(bs, idx) && Ascending(idx) && k < |idx|
    ensures Known(bs, WithoutAt(idx, k)) && Ascending(WithoutAt(idx, k))
  {
    assert forall j | 0 <= j < |WithoutAt(idx, k)| :: WithoutAt(idx, k)[j] == idx[if j < k then j else j + 1];
  }

  lemma AscendingWith(idx: seq<nat>, k: nat, a: nat)
    requires Ascending(idx) && AddressPlace(idx, k, a)
    ensures Ascending(With(idx, k, a))
  {
    var w := With(idx, k, a);
    assert w[k] == a;
    assert forall j | 0 <= j < |w| && j != k :: w[j] == idx[if j < k then j else j - 1];
  }

  lemma OccupiedAllocatedIndex(g: Geometry, bs: seq<Buffer>, cs: seq<Buffer>, i: nat, idx: seq<nat>, k: nat)
    requires g.Valid() && Tiled(g, bs) && Occupied(bs, cs, i)
    requires AllocatedIndexed(bs, idx) && AddressPlace(idx, k, bs[i].addr)
    ensures AllocatedIndexed(cs, With(idx, k, bs[i].addr))
  {
    var w := With(idx, k, bs[i].addr);
    AscendingWith(idx, k, bs[i].addr);
    WithMembers(idx, k, bs[i].addr);
    ReplacedKnown(bs, cs, idx);
    KnownWith(cs, idx, k, bs[i].addr) by {
      assert cs[i].addr == bs[i].addr;
    }
    forall j | 0 <= j < |cs|
      ensures cs[j].addr in w <==> !cs[j].free
    {
      if j != i {
        AddressesDiffer(g, bs, i, j);
      }
    }
  }

  lemma KnownWith(bs: seq<Buffer>, idx: seq<nat>, k: nat, a: nat)
    requires Known(bs, idx) && k <= |idx| && HasBuffer(bs, a)
    ensures Known(bs, With(idx, k, a))
  {
  }

  lemma InsertedAllocatedIndex(g: Geometry, bs: seq<Buffer>, cs: seq<Buffer>, i: nat, a: nat, idx: seq<nat>)
    requires g.Valid() && Tiled(g, bs) && Tiled(g, cs) && i < |bs| && Inserted(bs, cs, i, a)
    requires cs[i].free == bs[i].free && cs[i + 1].free
    requires AllocatedIndexed(bs, idx)
    ensures AllocatedIndexed(cs, idx)
  {
    InsertedKnown(bs, cs, i, a, idx);
    InsertedAddressIsNew(g, bs, cs, i, a);
    forall j | 0 <= j < |cs|
      ensures cs[j].addr in idx <==> !cs[j].free
    {
      if j != i + 1 {
        assert cs[j].addr == bs[Before(i, j)].addr && cs[j].free == bs[Before(i, j)].free;
      } else {
        assert a in idx ==> HasBuffer(bs, a);
      }
    }
  }

  lemma InsertedKnown(bs: seq<Buffer>, cs: seq<Buffer>, i: nat, a: nat, idx: seq<nat>)
    requires i < |bs| && Inserted(bs, cs, i, a) && Known(bs, idx)
    ensures Known(cs, idx)
  {
    forall k | 0 <= k < |idx|
      ensures HasBuffer(cs, idx[k])
    {
      var j := IndexAt(bs, idx[k]);
      AddressAt(cs, if j <= i then j else j + 1);
    }
  }

  // ----- the trees after freeing

  /** `idx` holds the free headers of `bs` other than header `m`. */
  ghost predicate FreeIndexedBut(g: Geometry, bs: seq<Buffer>, idx: seq<nat>, m: nat) {
    && m < |bs| && bs[m].free
    && SortedBySize(g, bs, idx)
    && Distinct(idx)
    && (forall i | 0 <= i < |bs| :: bs[i].addr in idx <==> bs[i].free && i != m)
  }

  lemma MarkedFreeIndexes(g: Geometry, bs: seq<Buffer>, i: nat, fi: seq<nat>, ai: seq<nat>, k: nat)
    requires g.Valid() && Tiled(g, bs) && i < |bs| && !bs[i].free
    requires FreeIndexed(g, bs, fi) && AllocatedIndexed(bs, ai)
    requires k < |ai| && ai[k] == bs[i].addr
    ensures FreeIndexedBut(g, MarkedFree(bs, i), fi, i)
    ensures AllocatedIndexed(MarkedFree(bs, i), WithoutAt(ai, k))
  {
    var cs := MarkedFree(bs, i);
    MarkedFreeTiles(g, bs, i);
    ReplacedSizes(g, bs, cs, fi);
    SortedTransfers(g, bs, cs, fi);
    WithoutAllocated(g, bs, cs, i, ai, k);
  }

  lemma WithoutAllocated(g: Geometry, bs: seq<Buffer>, cs: seq<Buffer>, i: nat, ai: seq<nat>, k: nat)
    requires g.Valid() && Tiled(g, bs) && AllocatedIndexed(bs, ai)
    requires i < |bs| == |cs| && cs[i].free && cs[i].addr == bs[i].addr
    requires forall j | 0 <= j < |bs| && j != i :: cs[j] == bs[j]
    requires k < |ai| && ai[k] == bs[i].addr
    ensures AllocatedIndexed(cs, WithoutAt(ai, k))
  {
    var w := WithoutAt(ai, k);
    assert Distinct(ai);
    WithoutMembers(ai, k);
    WithoutKeepsOrder(bs, ai, k);
    ReplacedKnown(bs, cs, w);
    forall j | 0 <= j < |cs|
      ensures cs[j].addr in w <==> !cs[j].free
    {
      if j != i {
        AddressesDiffer(g, bs, i, j);
      }
    }
  }

  /** Merging free headers `i - 1` and `i`, of which `m` was not in the tree and the other is taken out. */
  lemma DeletedFreeIndex(g: Geometry, bs: seq<Buffer>, i: nat, m: nat, fi: seq<nat>, k: nat)
    requires g.Valid() && Tiled(g, bs) && 0 < i < |bs| && bs[i].free && bs[i - 1].free
    requires FreeIndexedBut(g, bs, fi, m) && (m == i - 1 || m == i)
    requires k < |fi| && fi[k] == bs[if m == i then i - 1 else i].addr
    ensures FreeIndexedBut(g, Deleted(bs, i), WithoutAt(fi, k), i - 1)
  {
    var cs := Deleted(bs, i);
    var w := WithoutAt(fi, k);
    WithoutMembers(fi, k);
    SortedWithout(g, bs, fi, k);
    AddressesDiffer(g, bs, i, i - 1);
    DeletedSizes(g, bs, i, w);
    SortedTransfers(g, bs, cs, w);
    forall j | 0 <= j < |cs|
      ensures cs[j].addr in w <==> cs[j].free && j != i - 1
    {
      assert cs[j] == bs[Behind(i, j)];
      if j != i - 1 {
        AddressesDiffer(g, bs, Behind(i, j), i);
        AddressesDiffer(g, bs, Behind(i, j), i - 1);
      }
    }
  }

  lemma DeletedKnown(bs: seq<Buffer>, i: nat, idx: seq<nat>)
    requires i < |bs| && Known(bs, idx) && bs[i].addr !in idx
    ensures Known(Deleted(bs, i), idx)
  {
    forall k | 0 <= k < |idx|
      ensures HasBuffer(Deleted(bs, i), idx[k])
    {
      var j := IndexAt(bs, idx[k]);
      AddressAt(Deleted(bs, i), if j < i then j else j - 1);
    }
  }

  lemma DeletedAllocatedIndex(g: Geometry, bs: seq<Buffer>, i: nat, ai: seq<nat>)
    requires g.Valid() && Tiled(g, bs) && 0 < i < |bs| && bs[i].free
    requires AllocatedIndexed(bs, ai)
    ensures AllocatedIndexed(Deleted(bs, i), ai)
  {
    DeletedKnown(bs, i, ai);
    forall j | 0 <= j < |Deleted(bs, i)|
      ensures Deleted(bs, i)[j].addr in ai <==> !Deleted(bs, i)[j].free
    {
      assert Deleted(bs, i)[j] == bs[Behind(i, j)];
    }
  }

  lemma ReinsertedFreeIndex(g: Geometry, bs: seq<Buffer>, m: nat, fi: seq<nat>, k: nat)
    requires g.Valid() && Tiled(g, bs) && FreeIndexedBut(g, bs, fi, m)
    requires HasBuffer(bs, bs[m].addr) && SizePlace(g, bs, fi, k, bs[m].addr)
    ensures FreeIndexed(g, bs, With(fi, k, bs[m].addr))
  {
    WithMembers(fi, k, bs[m].addr);
    SortedWith(g, bs, fi, k, bs[m].addr);
    forall j | 0 <= j < |bs|
      ensures bs[j].addr in With(fi, k, bs[m].addr) <==> bs[j].free
    {
      if j != m {
        AddressesDiffer(g, bs, j, m);
      }
    }
  }
}
