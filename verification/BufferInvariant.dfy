/**
  What allocating and freeing do to the buffer list as a whole, and the
  invariant of the list that both keep.
 */
module BufferInvariant {
  import opened Rounding
  import opened BufferLayout

  ghost predicate WordAligned(g: Geometry, bs: seq<Buffer>)
    requires 0 < g.allocWord
  {
    forall i | 0 <= i < |bs| :: Aligned(bs[i].addr, g.allocWord)
  }

  /** An allocated buffer has room for its transaction and wastes less than a page. */
  predicate Fitting(g: Geometry, bs: seq<Buffer>, i: nat)
    requires 0 < g.allocWord && i < |bs|
  {
    bs[i].free ||
    var size := g.Footprint(bs[i].dataSize, bs[i].offsetsSize);
    size <= Size(g, bs, i) <= size + g.header + 4
  }

  ghost predicate ListInv(g: Geometry, bs: seq<Buffer>)
    requires g.Valid()
  {
    && Tiled(g, bs) && Coalesced(bs) && WordAligned(g, bs)
    && forall i | 0 <= i < |bs| :: Fitting(g, bs, i)
  }

  /** What the live asynchronous buffers hold of the async budget. */
  function AsyncCharge(g: Geometry, bs: seq<Buffer>): nat
    requires 0 < g.allocWord
  {
    if bs == [] then 0
    else (if !bs[0].free && bs[0].isAsync then g.Charge(bs[0].dataSize, bs[0].offsetsSize) else 0)
         + AsyncCharge(g, bs[1..])
  }

  lemma {:induction false} AsyncChargeConcat(g: Geometry, a: seq<Buffer>, b: seq<Buffer>)
    requires 0 < g.allocWord
    ensures AsyncCharge(g, a + b) == AsyncCharge(g, a) + AsyncCharge(g, b)
  {
    if a == [] {
      assert a + b == b;
    } else {
      assert (a + b)[1..] == a[1..] + b;
      AsyncChargeConcat(g, a[1..], b);
    }
  }

  /** The list around buffer `i`. */
  lemma AsyncChargeAt(g: Geometry, bs: seq<Buffer>, i: nat)
    requires 0 < g.allocWord && i < |bs|
    ensures AsyncCharge(g, bs) == AsyncCharge(g, bs[..i]) + AsyncCharge(g, [bs[i]]) + AsyncCharge(g, bs[i + 1..])
  {
    assert bs == bs[..i] + ([bs[i]] + bs[i + 1..]);
    AsyncChargeConcat(g, bs[..i], [bs[i]] + bs[i + 1..]);
    AsyncChargeConcat(g, [bs[i]], bs[i + 1..]);
  }

  lemma AsyncChargeReplaced(g: Geometry, bs: seq<Buffer>, i: nat, b: Buffer)
    requires 0 < g.allocWord && i < |bs|
    ensures AsyncCharge(g, bs[i := b]) == AsyncCharge(g, bs) - AsyncCharge(g, [bs[i]]) + AsyncCharge(g, [b])
  {
    AsyncChargeAt(g, bs, i);
    AsyncChargeAt(g, bs[i := b], i);
    assert bs[i := b][..i] == bs[..i] && bs[i := b][i + 1..] == bs[i + 1..];
  }

  /** The list after binder_alloc_buf chose free buffer `i`. */
  function Allocate(g: Geometry, bs: seq<Buffer>, i: nat, d: nat, o: nat, isAsync: bool): seq<Buffer>
    requires 0 < g.allocWord && i < |bs|
  {
    if g.Footprint(d, o) + g.header + 4 >= Size(g, bs, i)
    then Taken(bs, i, d, o, isAsync)
    else Carved(g, bs, i, g.Footprint(d, o), d, o, isAsync)
  }

  /**
    Free buffer `i` of `bs` is allocated in `cs`: its header records the two sizes and
    keeps its address, every other header keeps all that it records, and there is a new
    header just when the remainder is worth one, free and right behind the data.
   */
  ghost predicate OneTaken(g: Geometry, bs: seq<Buffer>, cs: seq<Buffer>, i: nat, d: nat, o: nat, isAsync: bool)
    requires 0 < g.allocWord
  {
    var size := RoundUp(d, g.allocWord) + RoundUp(o, g.allocWord);
    && i < |bs| && |bs| <= |cs| <= |bs| + 1 && size <= Size(g, cs, i)
    && !cs[i].free && cs[i].addr == bs[i].addr && cs[i].dataSize == d && cs[i].offsetsSize == o
        && cs[i].isAsync == isAsync
    && (forall j | 0 <= j < i :: cs[j] == bs[j])
    && (forall j | i < j < |bs| :: cs[j + |cs| - |bs|] == bs[j])
    && (|cs| > |bs| <==> size + g.header + 4 < Size(g, bs, i))
    && (|cs| > |bs| ==> cs[i + 1].free && cs[i + 1].addr == bs[i].addr + g.header + size)
  }

  lemma AllocateIsOneTaken(g: Geometry, bs: seq<Buffer>, i: nat, d: nat, o: nat, isAsync: bool)
    requires g.Valid() && Tiled(g, bs) && i < |bs| && g.Footprint(d, o) <= Size(g, bs, i)
    ensures OneTaken(g, bs, Allocate(g, bs, i, d, o, isAsync), i, d, o, isAsync)
  {
    if g.Footprint(d, o) + g.header + 4 < Size(g, bs, i) {
      CarvedIsOneTaken(g, bs, i, d, o, isAsync);
    }
  }

  lemma CarvedIsOneTaken(g: Geometry, bs: seq<Buffer>, i: nat, d: nat, o: nat, isAsync: bool)
    requires g.Valid() && i < |bs| && g.Footprint(d, o) + g.header + 4 < Size(g, bs, i)
    ensures OneTaken(g, bs, Carved(g, bs, i, g.Footprint(d, o), d, o, isAsync), i, d, o, isAsync)
  {
    var cs := Carved(g, bs, i, g.Footprint(d, o), d, o, isAsync);
    assert |cs| == |bs| + 1;
    assert cs[i] == Buffer(bs[i].addr, false, d, o, isAsync);
    assert cs[i + 1].addr == bs[i].addr + g.header + g.Footprint(d, o);
    assert Size(g, cs, i) == g.Footprint(d, o);
  }

  lemma FootprintAligned(g: Geometry, d: nat, o: nat)
    requires g.Valid()
    ensures Aligned(g.Footprint(d, o), g.allocWord)
  {
    AlignedSum(RoundUp(d, g.allocWord), RoundUp(o, g.allocWord), g.allocWord);
  }

  lemma AllocateKeepsList(g: Geometry, bs: seq<Buffer>, i: nat, d: nat, o: nat, isAsync: bool)
    requires g.Valid() && ListInv(g, bs) && i < |bs| && bs[i].free
    requires g.Footprint(d, o) <= Size(g, bs, i)
    ensures ListInv(g, Allocate(g, bs, i, d, o, isAsync))
  {
    if g.Footprint(d, o) + g.header + 4 >= Size(g, bs, i) {
      TakenKeepsList(g, bs, i, d, o, isAsync);
    } else {
      CarvedKeepsList(g, bs, i, d, o, isAsync);
    }
  }

  lemma TakenKeepsList(g: Geometry, bs: seq<Buffer>, i: nat, d: nat, o: nat, isAsync: bool)
    requires g.Valid() && ListInv(g, bs) && i < |bs|
    requires g.Footprint(d, o) <= Size(g, bs, i) <= g.Footprint(d, o) + g.header + 4
    ensures ListInv(g, Taken(bs, i, d, o, isAsync))
  {
    TakenTiles(g, bs, i, d, o, isAsync);
    var cs := Taken(bs, i, d, o, isAsync);
    forall k | 0 <= k < |cs|
      ensures Fitting(g, cs, k) && Aligned(cs[k].addr, g.allocWord)
    {
      assert Fitting(g, bs, k);
    }
  }

  lemma CarvedKeepsList(g: Geometry, bs: seq<Buffer>, i: nat, d: nat, o: nat, isAsync: bool)
    requires g.Valid() && ListInv(g, bs) && i < |bs| && bs[i].free
    requires g.Footprint(d, o) + g.header + 4 < Size(g, bs, i)
    ensures ListInv(g, Carved(g, bs, i, g.Footprint(d, o), d, o, isAsync))
  {
    var size := g.Footprint(d, o);
    var cs := Carved(g, bs, i, size, d, o, isAsync);
    CarvedTiles(g, bs, i, size, d, o, isAsync);
    CarvedCoalesced(g, bs, i, size, d, o, isAsync);
    CarvedInserts(g, bs, i, size, d, o, isAsync);
    forall k | 0 <= k < |cs|
      ensures Fitting(g, cs, k) && Aligned(cs[k].addr, g.allocWord)
    {
      CarvedFits(g, bs, i, d, o, isAsync, k);
    }
  }

  lemma CarvedFits(g: Geometry, bs: seq<Buffer>, i: nat, d: nat, o: nat, isAsync: bool, k: nat)
    requires g.Valid() && ListInv(g, bs) && i < |bs| && bs[i].free && k <= |bs|
    requires g.Footprint(d, o) + g.header + 4 < Size(g, bs, i)
    ensures var cs := Carved(g, bs, i, g.Footprint(d, o), d, o, isAsync);
            |cs| == |bs| + 1 && Fitting(g, cs, k) && Aligned(cs[k].addr, g.allocWord)
  {
    var size := g.Footprint(d, o);
    var cs := Carved(g, bs, i, size, d, o, isAsync);
    if k != i && k != i + 1 {
      var j := Before(i, k);
      assert cs[k] == bs[j] && End(g, cs, k) == End(g, bs, j) && Fitting(g, bs, j);
    } else {
      FootprintAligned(g, d, o);
      AlignedSum(bs[i].addr, g.header, g.allocWord);
      AlignedSum(Data(g, bs, i), size, g.allocWord);
      assert cs[i].dataSize == d && cs[i].offsetsSize == o && cs[i + 1].free;
    }
  }

  lemma AllocateCharges(g: Geometry, bs: seq<Buffer>, i: nat, d: nat, o: nat, isAsync: bool)
    requires g.Valid() && i < |bs| && bs[i].free
    ensures AsyncCharge(g, Allocate(g, bs, i, d, o, isAsync)) == AsyncCharge(g, bs) + if isAsync then g.Charge(d, o)
        else 0
  {
    TakenCharges(g, bs, i, Buffer(bs[i].addr, false, d, o, isAsync));
    CarvedCharges(g, bs, i, g.Footprint(d, o), d, o, isAsync);
  }

  lemma CarvedCharges(g: Geometry, bs: seq<Buffer>, i: nat, size: nat, d: nat, o: nat, isAsync: bool)
    requires 0 < g.allocWord && i < |bs|
    ensures AsyncCharge(g, Carved(g, bs, i, size, d, o, isAsync)) == AsyncCharge(g, Taken(bs, i, d, o, isAsync))
  {
    var cs := Taken(bs, i, d, o, isAsync);
    var r := Buffer(Data(g, bs, i) + size, true, 0, 0, false);
    InsertedCharges(g, cs, i, r);
    CarvedIsTaken(g, bs, i, size, d, o, isAsync, r);
  }

  lemma CarvedIsTaken(g: Geometry, bs: seq<Buffer>, i: nat, size: nat, d: nat, o: nat, isAsync: bool, r: Buffer)
    requires i < |bs| && r == Buffer(Data(g, bs, i) + size, true, 0, 0, false)
    ensures var cs := Taken(bs, i, d, o, isAsync);
        Carved(g, bs, i, size, d, o, isAsync) == cs[..i + 1] + [r] + cs[i + 1..]
  {
  }

  lemma TakenCharges(g: Geometry, bs: seq<Buffer>, i: nat, b: Buffer)
    requires 0 < g.allocWord && i < |bs| && bs[i].free && !b.free
    ensures AsyncCharge(g, bs[i := b]) == AsyncCharge(g, bs) + if b.isAsync then g.Charge(b.dataSize, b.offsetsSize)
        else 0
  {
    AsyncChargeReplaced(g, bs, i, b);
    SingleCharge(g, bs[i]);
    SingleCharge(g, b);
  }

  lemma SingleCharge(g: Geometry, b: Buffer)
    requires 0 < g.allocWord
    ensures AsyncCharge(g, [b]) == if !b.free && b.isAsync then g.Charge(b.dataSize, b.offsetsSize) else 0
  {
  }

  lemma InsertedCharges(g: Geometry, bs: seq<Buffer>, i: nat, r: Buffer)
    requires 0 < g.allocWord && i < |bs| && r.free
    ensures AsyncCharge(g, bs[..i + 1] + [r] + bs[i + 1..]) == AsyncCharge(g, bs)
  {
    FreeBetween(g, bs[..i + 1], r, bs[i + 1..]);
    assert bs == bs[..i + 1] + bs[i + 1..];
  }

  lemma FreeBetween(g: Geometry, a: seq<Buffer>, r: Buffer, b: seq<Buffer>)
    requires 0 < g.allocWord && r.free
    ensures AsyncCharge(g, a + [r] + b) == AsyncCharge(g, a + b)
  {
    AsyncChargeConcat(g, a + [r], b);
    AsyncChargeConcat(g, a, [r]);
    AsyncChargeConcat(g, a, b);
    SingleCharge(g, r);
  }

  // ----- freeing

  /** The list after a free buffer behind `i` was merged into it. */
  function MergedNext(bs: seq<Buffer>, i: nat): seq<Buffer>
    requires i < |bs|
  {
    if i + 1 < |bs| && bs[i + 1].free then Deleted(bs, i + 1) else bs
  }

  /** The list after buffer `i` was merged into a free buffer before it. */
  function MergedPrev(bs: seq<Buffer>, i: nat): seq<Buffer>
    requires i < |bs|
  {
    if 0 < i && bs[i - 1].free then Deleted(bs, i) else bs
  }

  /** The list after binder_free_buf of buffer `i`. */
  function Freed(bs: seq<Buffer>, i: nat): seq<Buffer>
    requires i < |bs|
  {
    MergedPrev(MergedNext(MarkedFree(bs, i), i), i)
  }

  /** `b` is an allocated buffer of the list, with `size` bytes of data. */
  ghost predicate Holds(g: Geometry, bs: seq<Buffer>, b: Buffer, size: int) {
    !b.free && exists j: nat {:trigger HoldsAt(g, bs, b, size, j)} :: HoldsAt(g, bs, b, size, j)
  }

  ghost predicate HoldsAt(g: Geometry, bs: seq<Buffer>, b: Buffer, size: int, j: nat) {
    j < |bs| && bs[j] == b && Size(g, bs, j) == size
  }

  /**
    Buffer `i` of `bs` is freed in `cs`: the other allocated buffers are all there, each
    with all that its header records and the size it had, and there are no others.
   */
  ghost predicate OneFreed(g: Geometry, bs: seq<Buffer>, cs: seq<Buffer>, i: nat)
    requires i < |bs|
  {
    forall b, size {:trigger Holds(g, cs, b, size)} :: Holds(g, cs, b, size) <==> Holds(g, bs, b, size) && b != bs[i]
  }

  /** The part of the list invariant that does not need neighbours to differ. */
  ghost predicate LooseInv(g: Geometry, bs: seq<Buffer>)
    requires g.Valid()
  {
    && Tiled(g, bs) && WordAligned(g, bs)
    && forall i | 0 <= i < |bs| :: Fitting(g, bs, i)
  }

  lemma DeletedKeepsLoose(g: Geometry, bs: seq<Buffer>, i: nat)
    requires g.Valid() && LooseInv(g, bs) && 0 < i < |bs| && bs[i].free && bs[i - 1].free
    ensures LooseInv(g, Deleted(bs, i))
  {
    DeletedTiles(g, bs, i);
    var cs := Deleted(bs, i);
    forall k | 0 <= k < |cs|
      ensures Fitting(g, cs, k) && Aligned(cs[k].addr, g.allocWord)
    {
      assert cs[k] == bs[Behind(i, k)] && Fitting(g, bs, Behind(i, k));
      if k != i - 1 {
        assert End(g, cs, k) == End(g, bs, Behind(i, k));
      }
    }
  }

  lemma MarkedFreeKeepsLoose(g: Geometry, bs: seq<Buffer>, i: nat)
    requires g.Valid() && LooseInv(g, bs) && i < |bs|
    ensures LooseInv(g, MarkedFree(bs, i))
  {
    MarkedFreeTiles(g, bs, i);
    var cs := MarkedFree(bs, i);
    forall k | 0 <= k < |cs|
      ensures Fitting(g, cs, k) && Aligned(cs[k].addr, g.allocWord)
    {
      assert Fitting(g, bs, k);
    }
  }

  /** Freeing restores the list invariant: at most the two neighbours can be free. */
  lemma FreedKeepsList(g: Geometry, bs: seq<Buffer>, i: nat)
    requires g.Valid() && ListInv(g, bs) && i < |bs| && !bs[i].free
    ensures ListInv(g, Freed(bs, i))
  {
    MarkedFreeKeepsLoose(g, bs, i);
    var b1 := MarkedFree(bs, i);
    if i + 1 < |b1| && b1[i + 1].free {
      DeletedKeepsLoose(g, b1, i + 1);
    }
    var b2 := MergedNext(b1, i);
    assert b2[i].free;
    if 0 < i && b2[i - 1].free {
      DeletedKeepsLoose(g, b2, i);
    }
    FreedCoalesced(bs, i);
  }

  /** Headers `k` and `k + 1` are not both free. */
  ghost predicate ApartAt(bs: seq<Buffer>, k: int) {
    0 <= k < |bs| - 1 ==> !(bs[k].free && bs[k + 1].free)
  }

  lemma FreedCoalesced(bs: seq<Buffer>, i: nat)
    requires Coalesced(bs) && i < |bs| && !bs[i].free
    ensures Coalesced(Freed(bs, i))
  {
    var b1 := MarkedFree(bs, i);
    var b2 := MergedNext(b1, i);
    forall k: int | k != i - 1
      ensures ApartAt(b2, k)
    {
      MergedNextApart(bs, i, k);
    }
    forall k | 0 <= k < |MergedPrev(b2, i)| - 1
      ensures !(MergedPrev(b2, i)[k].free && MergedPrev(b2, i)[k + 1].free)
    {
      assert ApartAt(b2, k) || k == i - 1;
      assert ApartAt(b2, k + 1) || k + 1 == i - 1;
    }
  }

  lemma MergedNextApart(bs: seq<Buffer>, i: nat, k: int)
    requires Coalesced(bs) && i < |bs| && !bs[i].free && k != i - 1
    ensures ApartAt(MergedNext(MarkedFree(bs, i), i), k)
  {
    var b1 := MarkedFree(bs, i);
    if i + 1 < |bs| && bs[i + 1].free {
      var b2 := Deleted(b1, i + 1);
      assert i + 2 < |bs| ==> !bs[i + 2].free;
      assert forall j | 0 <= j < |b2| :: b2[j] == b1[if j <= i then j else j + 1];
    }
  }

  lemma DeletedCharges(g: Geometry, bs: seq<Buffer>, i: nat)
    requires g.Valid() && i < |bs| && bs[i].free
    ensures AsyncCharge(g, Deleted(bs, i)) == AsyncCharge(g, bs)
  {
    AsyncChargeAt(g, bs, i);
    SingleCharge(g, bs[i]);
    AsyncChargeConcat(g, bs[..i], bs[i + 1..]);
  }

  lemma FreedCharges(g: Geometry, bs: seq<Buffer>, i: nat)
    requires g.Valid() && i < |bs| && !bs[i].free
    ensures AsyncCharge(g, Freed(bs, i)) + (if bs[i].isAsync then g.Charge(bs[i].dataSize, bs[i].offsetsSize) else 0)
            == AsyncCharge(g, bs)
  {
    var b1 := MarkedFree(bs, i);
    AsyncChargeReplaced(g, bs, i, bs[i].(free := true));
    SingleCharge(g, bs[i].(free := true));
    SingleCharge(g, bs[i]);
    if i + 1 < |b1| && b1[i + 1].free {
      DeletedCharges(g, b1, i + 1);
    }
    var b2 := MergedNext(b1, i);
    assert b2[i].free;
    if 0 < i && b2[i - 1].free {
      DeletedCharges(g, b2, i);
    }
  }

  lemma CoalescedAtFirst(bs: seq<Buffer>)
    requires Coalesced(bs) && 0 < |bs|
    ensures 1 < |bs| ==> !bs[0].free || !bs[1].free
  {
    assert 1 < |bs| ==> !(bs[0].free && bs[0 + 1].free);
  }

  /** A list in which nothing is allocated is the list binder_mmap made. */
  lemma NothingAllocatedIsFresh(g: Geometry, bs: seq<Buffer>)
    requires g.Valid() && ListInv(g, bs) && forall i | 0 <= i < |bs| :: bs[i].free
    ensures |bs| == 1 && bs[0].addr == 0 && bs[0].free
    ensures Size(g, bs, 0) == g.size - g.header
    ensures AsyncCharge(g, bs) == 0
    ensures forall p: nat | p < g.PageCount() :: Resident(g, bs, p) <==> p == 0
  {
    CoalescedAtFirst(bs);
    assert bs[1..] == [];
    PageFacts(g.header, g.header, g.page);
    assert PageOf(g.header - 1, g.page) == 0;
    forall p: nat | p < g.PageCount()
      ensures Resident(g, bs, p) <==> p == 0
    {
      assert Inside(g, bs, 0, p) <==> 1 <= p;
    }
  }

  /** Freeing refunds what was charged exactly when both roundings of both sizes agree. */
  lemma RefundExactIff(g: Geometry, d: nat, o: nat)
    requires g.Valid()
    ensures g.Refund(d, o) <= g.Charge(d, o)
    ensures g.Refund(d, o) == g.Charge(d, o) <==>
            Aligned(RoundUp(d, g.freeWord), g.allocWord) && Aligned(RoundUp(o, g.freeWord), g.allocWord)
    ensures g.allocWord == g.freeWord ==> g.Refund(d, o) == g.Charge(d, o)
  {
    RoundUpAgree(g, d);
    RoundUpAgree(g, o);
  }

  /**
    With 8-byte pointers and 4-byte binder pointers, a call with 4 bytes of data and
    no offsets loses 4 bytes for good.
   */
  lemma RefundFallsShort(g: Geometry)
    requires g.Valid() && g.allocWord == 8 && g.freeWord == 4
    ensures g.Refund(4, 0) + 4 == g.Charge(4, 0)
  {
  }

  lemma RoundUpAgree(g: Geometry, x: nat)
    requires g.Valid()
    ensures RoundUp(x, g.freeWord) <= RoundUp(x, g.allocWord)
    ensures RoundUp(x, g.freeWord) == RoundUp(x, g.allocWord) <==> Aligned(RoundUp(x, g.freeWord), g.allocWord)
  {
    RoundUpCoarser(x, g.allocWord, g.freeWord);
    if Aligned(RoundUp(x, g.freeWord), g.allocWord) {
      RoundUpIsLeast(x, RoundUp(x, g.freeWord), g.allocWord);
    }
  }

  // ----- what a free leaves

  /** Marking buffer `i` free takes it alone from the allocated ones. */
  lemma MarkedFreeHolds(g: Geometry, bs: seq<Buffer>, i: nat)
    requires g.Valid() && Tiled(g, bs) && i < |bs| && !bs[i].free
    ensures OneFreed(g, bs, MarkedFree(bs, i), i)
  {
    var cs := MarkedFree(bs, i);
    forall b, size
      ensures Holds(g, cs, b, size) <==> Holds(g, bs, b, size) && b != bs[i]
    {
      if Holds(g, cs, b, size) {
        var j: nat :| HoldsAt(g, cs, b, size, j);
        MarkedFreeAt(g, bs, i, j);
        assert HoldsAt(g, bs, b, size, j);
      }
      if Holds(g, bs, b, size) && b != bs[i] {
        var j: nat :| HoldsAt(g, bs, b, size, j);
        MarkedFreeAt(g, bs, i, j);
        assert HoldsAt(g, cs, b, size, j);
      }
    }
  }

  lemma MarkedFreeAt(g: Geometry, bs: seq<Buffer>, i: nat, j: nat)
    requires g.Valid() && Tiled(g, bs) && i < |bs| && j < |bs|
    ensures Size(g, MarkedFree(bs, i), j) == Size(g, bs, j)
    ensures j != i ==> MarkedFree(bs, i)[j] == bs[j] && bs[j] != bs[i]
  {
    MarkedFreeTiles(g, bs, i);
    if j != i {
      IndexAtUnique(g, bs, i);
      IndexAtUnique(g, bs, j);
    }
  }

  /** Deleting a free header behind a free one leaves the allocated ones as they were. */
  lemma DeletedHolds(g: Geometry, bs: seq<Buffer>, i: nat, b: Buffer, size: int)
    requires 0 < i < |bs| && bs[i].free && bs[i - 1].free
    ensures Holds(g, Deleted(bs, i), b, size) <==> Holds(g, bs, b, size)
  {
    var cs := Deleted(bs, i);
    if Holds(g, cs, b, size) {
      var j: nat :| HoldsAt(g, cs, b, size, j);
      var k := if j < i then j else j + 1;
      DeletedAt(g, bs, i, k);
      assert HoldsAt(g, bs, b, size, k);
    }
    if Holds(g, bs, b, size) {
      var j: nat :| HoldsAt(g, bs, b, size, j);
      DeletedAt(g, bs, i, j);
      assert HoldsAt(g, cs, b, size, if j < i then j else j - 1);
    }
  }

  lemma DeletedAt(g: Geometry, bs: seq<Buffer>, i: nat, j: nat)
    requires 0 < i < |bs| && j < |bs| && j != i
    ensures var cs, k := Deleted(bs, i), if j < i then j else j - 1;
            k < |cs| && cs[k] == bs[j] && (j != i - 1 ==> Size(g, cs, k) == Size(g, bs, j))
  {
  }

  lemma FreedIsOneFreed(g: Geometry, bs: seq<Buffer>, i: nat)
    requires g.Valid() && ListInv(g, bs) && i < |bs| && !bs[i].free
    ensures OneFreed(g, bs, Freed(bs, i), i)
  {
    var b1 := MarkedFree(bs, i);
    var b2 := MergedNext(b1, i);
    MarkedFreeHolds(g, bs, i);
    MarkedFreeKeepsLoose(g, bs, i);
    if b2 != b1 {
      DeletedKeepsLoose(g, b1, i + 1);
    }
    forall b, size
      ensures Holds(g, Freed(bs, i), b, size) <==> Holds(g, bs, b, size) && b != bs[i]
    {
      assert Holds(g, b1, b, size) <==> Holds(g, bs, b, size) && b != bs[i];
      if i + 1 < |b1| && b1[i + 1].free {
        DeletedHolds(g, b1, i + 1, b, size);
      }
      if 0 < i && b2[i - 1].free {
        DeletedHolds(g, b2, i, b, size);
      }
    }
  }
}
