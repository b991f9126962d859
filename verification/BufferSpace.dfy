/**
  The buffer allocator of one process: its list of headers, its two trees, its
  page array and its async budget, as binder_alloc_buf and binder_free_buf
  change them.

  A tree is its in-order walk.  A descent picks an arbitrary node between its
  current bounds at each step, so what is proved holds for every shape that
  rebalancing may give the tree.
 */
module BufferSpace {
  import opened Sequences
  import opened Rounding
  import opened BufferLayout
  import opened BufferIndex
  import opened BufferInvariant

  /** What goes wrong, if anything, when one page is mapped. */
  datatype PageFault = NoFault | AllocPageFails | MapKernelFails | InsertPageFails

  datatype AllocResult =
    | Allocated(addr: nat)
    | NoVma           // the process has no mapping
    | InvalidSize     // the rounded sum does not fit in a size_t
    | NoAsyncSpace    // the async budget is spent
    | NoAddressSpace  // no free buffer is large enough
    | NoPages         // a page could not be mapped

  /** Free buffer `i` has the smallest size that suffices. */
  ghost predicate BestFitAt(g: Geometry, bs: seq<Buffer>, size: nat, i: nat) {
    && i < |bs| && bs[i].free && size <= Size(g, bs, i)
    && forall j | 0 <= j < |bs| && bs[j].free && size <= Size(g, bs, j) :: Size(g, bs, i) <= Size(g, bs, j)
  }

  ghost predicate SomeFit(g: Geometry, bs: seq<Buffer>, size: nat) {
    exists i :: 0 <= i < |bs| && bs[i].free && size <= Size(g, bs, i)
  }

  /** The pages that binder_alloc_buf has to map to take `size` bytes of free buffer `i`. */
  ghost predicate NeedsPage(g: Geometry, bs: seq<Buffer>, i: nat, d: nat, o: nat, isAsync: bool, p: nat)
    requires g.Valid() && i < |bs|
  {
    Resident(g, Allocate(g, bs, i, d, o, isAsync), p) && !Resident(g, bs, p)
  }

  /** The list after line 729. */
  function HeaderAdded(bs: seq<Buffer>, i: nat, a: nat): seq<Buffer>
    requires i < |bs|
  {
    bs[..i + 1] + [Buffer(a, true, 0, 0, false)] + bs[i + 1..]
  }

  lemma HeaderAddedInserts(bs: seq<Buffer>, i: nat, a: nat)
    requires i < |bs|
    ensures Inserted(bs, HeaderAdded(bs, i, a), i, a)
    ensures HeaderAdded(bs, i, a)[i] == bs[i] && HeaderAdded(bs, i, a)[i + 1].free
  {
  }

  /** Un-freeing header `i`, adding the remainder's header and filling in header `i` is carving. */
  lemma CarvedInSteps(g: Geometry, bs: seq<Buffer>, b1: seq<Buffer>, b2: seq<Buffer>, i: nat, a: nat,
                      size: nat, d: nat, o: nat, isAsync: bool)
    requires i < |bs| && b1 == bs[i := bs[i].(free := false)]
    requires a == Data(g, bs, i) + size && b2 == HeaderAdded(b1, i, a)
    ensures b2[i].addr == bs[i].addr
    ensures b2[i := Buffer(b2[i].addr, false, d, o, isAsync)] == Carved(g, bs, i, size, d, o, isAsync)
  {
  }

  /** The free bit and the computed size of the header at address `a`. */
  method Examine(g: Geometry, bs: seq<Buffer>, a: nat) returns (isFree: bool, size: int)
    requires g.Valid() && Tiled(g, bs) && HasBuffer(bs, a)
    ensures isFree == bs[IndexAt(bs, a)].free && size == SizeAt(g, bs, a)
  {
    var i :| 0 <= i < |bs| && bs[i].addr == a;
    IndexAtUnique(g, bs, i);
    return bs[i].free, Size(g, bs, i);
  }

  /** A turn of a descent: the size at the node, which the nodes before it do not exceed, nor it those after. */
  method Visit(g: Geometry, bs: seq<Buffer>, fi: seq<nat>, mid: nat) returns (size: int)
    requires g.Valid() && Tiled(g, bs) && SortedBySize(g, bs, fi) && mid < |fi| && bs[IndexAt(bs, fi[mid])].free
    ensures size == SizeAt(g, bs, fi[mid])
    ensures forall k | 0 <= k <= mid :: SizeAt(g, bs, fi[k]) <= size
    ensures forall k | mid <= k < |fi| :: size <= SizeAt(g, bs, fi[k])
  {
    var isFree;
    isFree, size := Examine(g, bs, fi[mid]);
    assert isFree;  // BUG_ON(!buffer->free)
  }

  /** The descent at lines 680-694: the smallest sufficient size, exact or not. */
  method BestFit(g: Geometry, bs: seq<Buffer>, fi: seq<nat>, size: nat) returns (found: bool, best: nat, exact: bool)
    requires g.Valid() && Tiled(g, bs) && FreeIndexed(g, bs, fi)
    ensures !found ==> forall k | 0 <= k < |fi| :: SizeAt(g, bs, fi[k]) < size
    ensures found ==>
              && best < |fi| && size <= SizeAt(g, bs, fi[best])
              && (exact <==> SizeAt(g, bs, fi[best]) == size)
              && forall k | 0 <= k < |fi| && size <= SizeAt(g, bs, fi[k]) ::
                  SizeAt(g, bs, fi[best]) <= SizeAt(g, bs, fi[k])
  {
    found, best, exact := false, 0, false;
    var lo, hi := 0, |fi|;
    while lo < hi
      invariant 0 <= lo <= hi <= |fi|
      invariant forall k | 0 <= k < lo :: SizeAt(g, bs, fi[k]) < size
      invariant found <==> hi < |fi|
      invariant found ==> best == hi && size < SizeAt(g, bs, fi[hi])
      decreases hi - lo
    {
      var mid :| lo <= mid < hi;
      var bufferSize := Visit(g, bs, fi, mid);
      if size < bufferSize {
        found, best, hi := true, mid, mid;
      } else if size > bufferSize {
        lo := mid + 1;
      } else {
        return true, mid, true;
      }
    }
  }

  /** The descent at lines 477-488: where a free buffer goes in the tree. */
  method PlaceBySize(g: Geometry, bs: seq<Buffer>, fi: seq<nat>, a: nat) returns (k: nat)
    requires g.Valid() && Tiled(g, bs) && HasBuffer(bs, a) && SortedBySize(g, bs, fi)
    requires bs[IndexAt(bs, a)].free && forall k | 0 <= k < |fi| :: bs[IndexAt(bs, fi[k])].free
    ensures SizePlace(g, bs, fi, k, a)
  {
    var isFree, newSize := Examine(g, bs, a);
    assert isFree;  // BUG_ON(!new_buffer->free)
    var lo, hi := 0, |fi|;
    while lo < hi
      invariant 0 <= lo <= hi <= |fi|
      invariant forall k | 0 <= k < lo :: SizeAt(g, bs, fi[k]) <= newSize
      invariant forall k | hi <= k < |fi| :: newSize < SizeAt(g, bs, fi[k])
      decreases hi - lo
    {
      var mid :| lo <= mid < hi;
      var bufferSize := Visit(g, bs, fi, mid);
      if newSize < bufferSize {
        hi := mid;
      } else {
        lo := mid + 1;
      }
    }
    k := lo;
  }

  /** The descents at lines 502-513 and 528-538: an address in the tree of allocated buffers, or its place. */
  method FindAddress(ai: seq<nat>, a: nat) returns (found: bool, k: nat)
    requires Ascending(ai)
    ensures found <==> a in ai
    ensures !found ==> AddressPlace(ai, k, a)
  {
    var lo, hi := 0, |ai|;
    while lo < hi
      invariant 0 <= lo <= hi <= |ai|
      invariant forall k | 0 <= k < lo :: ai[k] < a
      invariant forall k | hi <= k < |ai| :: a < ai[k]
      decreases hi - lo
    {
      var mid :| lo <= mid < hi;
      if a < ai[mid] {
        hi := mid;
      } else if a > ai[mid] {
        lo := mid + 1;
      } else {
        return true, mid;
      }
    }
    return false, lo;
  }

  lemma TakenInSteps(bs: seq<Buffer>, b1: seq<Buffer>, i: nat, d: nat, o: nat, isAsync: bool)
    requires i < |bs| && b1 == bs[i := bs[i].(free := false)]
    ensures b1[i := Buffer(b1[i].addr, false, d, o, isAsync)] == Taken(bs, i, d, o, isAsync)
  {
  }

  lemma UnfreedOccupies(g: Geometry, bs: seq<Buffer>, i: nat)
    requires Tiled(g, bs) && i < |bs| && bs[i].free
    ensures Occupied(bs, bs[i := bs[i].(free := false)], i)
    ensures Tiled(g, bs[i := bs[i].(free := false)])
  {
  }

  class BufferSpace {
    const g: Geometry
    const pages: array<bool>             // proc->pages: which pages are mapped
    var buffers: seq<Buffer>             // proc->buffers
    var freeBuffers: seq<nat>            // proc->free_buffers
    var allocatedBuffers: seq<nat>       // proc->allocated_buffers
    var freeAsyncSpace: nat              // proc->free_async_space
    ghost var lost: nat                  // what frees have failed to refund so far

    ghost predicate PagesMatch()
      reads this, pages
    {
      && g.Valid() && pages.Length == g.PageCount()
      && forall p | 0 <= p < pages.Length :: pages[p] <==> Resident(g, buffers, p)
    }

    ghost predicate BudgetBalances()
      reads this
      requires g.Valid()
    {
      && freeAsyncSpace + AsyncCharge(g, buffers) + lost == g.size / 2
      && (g.allocWord == g.freeWord ==> lost == 0)
    }

    ghost predicate Valid()
      reads this, pages
    {
      && g.Valid()
      && ListInv(g, buffers)
      && FreeIndexed(g, buffers, freeBuffers)
      && AllocatedIndexed(buffers, allocatedBuffers)
      && PagesMatch()
      && BudgetBalances()
    }

    /** binder_mmap: one free buffer spans the region and only the first page is mapped. */
    constructor (g: Geometry)
      requires g.Valid()
      ensures Valid() && this.g == g && fresh(pages)
      ensures |buffers| == 1 && freeBuffers == [0] && allocatedBuffers == []
      ensures freeAsyncSpace == g.size / 2 && lost == 0
    {
      this.g := g;
      buffers := [Buffer(0, true, 0, 0, false)];
      freeBuffers := [0];
      allocatedBuffers := [];
      freeAsyncSpace := g.size / 2;
      lost := 0;
      pages := new bool[g.PageCount()](p => p == 0);
      new;
      NothingAllocatedIsFresh(g, buffers);
      IndexAtUnique(g, buffers, 0);
    }

    /**
      binder_update_page_range.  When mapping page `p` fails, its own partial work
      is undone and the pages before it are unmapped by the freeing loop.
     */
    method UpdatePageRange(allocate: bool, start: nat, end: nat, vma: bool, fault: nat -> PageFault) returns (ok: bool)
      requires end <= pages.Length
      requires forall p | start <= p < end :: pages[p] == !allocate
      modifies pages
      ensures end <= start ==> ok
      ensures start < end && allocate ==> (ok <==> vma && forall p: nat | start <= p < end :: fault(p) == NoFault)
      ensures forall p | 0 <= p < pages.Length ::
                pages[p] == if start <= p < end && (ok || !allocate) then allocate else old(pages[p])
    {
      if end <= start {
        return true;
      }
      var p := start;
      if allocate {
        if !vma {
          return false;
        }
        while p < end && fault(p) == NoFault
          invariant start <= p <= end
          invariant forall q: nat | start <= q < p :: fault(q) == NoFault
          invariant forall q | 0 <= q < pages.Length :: pages[q] == if start <= q < p then true else old(pages[q])
        {
          assert !pages[p];  // BUG_ON(*page)
          pages[p] := true;
          p := p + 1;
        }
        if p == end {
          return true;
        }
        assert !pages[p];  // BUG_ON(*page)
        if fault(p) != AllocPageFails {
          pages[p] := true;
          pages[p] := false;
        }
      } else {
        p := end;
      }
      while start < p
        invariant start <= p <= end
        invariant forall q | 0 <= q < pages.Length ::
                    pages[q] == if start <= q < p then true else if start <= q < end then false else old(pages[q])
      {
        p := p - 1;
        assert pages[p];  // only a mapped page is freed
        pages[p] := false;
      }
      return false;
    }

    /** binder_insert_free_buffer */
    method InsertFreeBuffer(a: nat)
      requires g.Valid() && Tiled(g, buffers) && HasBuffer(buffers, a)
      requires SortedBySize(g, buffers, freeBuffers)
      requires buffers[IndexAt(buffers, a)].free
      requires forall k | 0 <= k < |freeBuffers| :: buffers[IndexAt(buffers, freeBuffers[k])].free
      modifies this`freeBuffers
      ensures exists k :: SizePlace(g, buffers, old(freeBuffers), k, a) && freeBuffers == With(old(freeBuffers), k, a)
    {
      var k := PlaceBySize(g, buffers, freeBuffers, a);
      freeBuffers := With(freeBuffers, k, a);
    }

    /** binder_insert_allocated_buffer */
    method InsertAllocatedBuffer(a: nat)
      requires Ascending(allocatedBuffers) && a !in allocatedBuffers
      modifies this`allocatedBuffers
      ensures exists k :: AddressPlace(old(allocatedBuffers), k, a)
                          && allocatedBuffers == With(old(allocatedBuffers), k, a)
    {
      var found, k := FindAddress(allocatedBuffers, a);
      assert !found;  // BUG()
      allocatedBuffers := With(allocatedBuffers, k, a);
    }

    /** binder_buffer_lookup: finds exactly the allocated buffers. */
    method Lookup(a: nat) returns (found: bool)
      requires Valid()
      ensures found <==> exists i :: 0 <= i < |buffers| && buffers[i].addr == a && !buffers[i].free
    {
      var k;
      found, k := FindAddress(allocatedBuffers, a);
      if found {
        assert buffers[IndexAt(buffers, a)].addr == a;
      }
    }

    /** The list and the two trees after line 739, for free buffer `i`, at place `k` of its tree. */
    method TakeBuffer(k: nat, i: nat, size: nat, bufferSize: nat, d: nat, o: nat, isAsync: bool)
      requires g.Valid() && Tiled(g, buffers)
      requires FreeIndexed(g, buffers, freeBuffers) && AllocatedIndexed(buffers, allocatedBuffers)
      requires k < |freeBuffers| && i < |buffers| && freeBuffers[k] == buffers[i].addr
      requires size == g.Footprint(d, o) <= Size(g, buffers, i)
      requires bufferSize == if size + g.header + 4 >= Size(g, buffers, i) then size else size + g.header
      modifies this`buffers, this`freeBuffers, this`allocatedBuffers
      ensures buffers == Allocate(g, old(buffers), i, d, o, isAsync)
      ensures FreeIndexed(g, buffers, freeBuffers) && AllocatedIndexed(buffers, allocatedBuffers)
    {
      ghost var bs := buffers;
      MoveToAllocated(k, i);
      if bufferSize != size {
        ghost var b1 := buffers;
        var newAddr := Data(g, buffers, i) + size;
        AddHeader(i, newAddr);
        CarvedInSteps(g, bs, b1, buffers, i, newAddr, size, d, o, isAsync);
      } else {
        TakenInSteps(bs, buffers, i, d, o, isAsync);
      }
      FillHeader(i, d, o, isAsync);
    }

    /** Lines 725-727: out of the one tree, into the other. */
    method MoveToAllocated(k: nat, i: nat)
      requires g.Valid() && Tiled(g, buffers)
      requires FreeIndexed(g, buffers, freeBuffers) && AllocatedIndexed(buffers, allocatedBuffers)
      requires k < |freeBuffers| && i < |buffers| && freeBuffers[k] == buffers[i].addr
      modifies this`buffers, this`freeBuffers, this`allocatedBuffers
      ensures buffers == old(buffers)[i := old(buffers)[i].(free := false)]
      ensures Tiled(g, buffers)
      ensures FreeIndexed(g, buffers, freeBuffers) && AllocatedIndexed(buffers, allocatedBuffers)
    {
      ghost var bs, fi, ai := buffers, freeBuffers, allocatedBuffers;
      freeBuffers := WithoutAt(freeBuffers, k);
      buffers := buffers[i := buffers[i].(free := false)];
      UnfreedOccupies(g, bs, i);
      InsertAllocatedBuffer(buffers[i].addr);
      ghost var ka :| AddressPlace(ai, ka, bs[i].addr) && allocatedBuffers == With(ai, ka, bs[i].addr);
      OccupiedFreeIndex(g, bs, buffers, i, fi, k);
      OccupiedAllocatedIndex(g, bs, buffers, i, ai, ka);
    }

    /** Lines 737-739: the sizes are recorded in the header. */
    method FillHeader(i: nat, d: nat, o: nat, isAsync: bool)
      requires g.Valid() && Tiled(g, buffers) && i < |buffers| && !buffers[i].free
      requires FreeIndexed(g, buffers, freeBuffers) && AllocatedIndexed(buffers, allocatedBuffers)
      modifies this`buffers
      ensures buffers == old(buffers)[i := Buffer(old(buffers)[i].addr, false, d, o, isAsync)]
      ensures Tiled(g, buffers)
      ensures FreeIndexed(g, buffers, freeBuffers) && AllocatedIndexed(buffers, allocatedBuffers)
    {
      ghost var bs := buffers;
      buffers := buffers[i := Buffer(buffers[i].addr, false, d, o, isAsync)];
      TakenTiles(g, bs, i, d, o, isAsync);
      IndexesIgnoreSizes(g, bs, buffers, freeBuffers, allocatedBuffers);
    }

    /** Lines 729-732: the remainder's header joins the list and the tree of free buffers. */
    method AddHeader(i: nat, a: nat)
      requires g.Valid() && Tiled(g, buffers) && i < |buffers| && !buffers[i].free
      requires Data(g, buffers, i) <= a && a + g.header <= End(g, buffers, i)
      requires FreeIndexed(g, buffers, freeBuffers) && AllocatedIndexed(buffers, allocatedBuffers)
      modifies this`buffers, this`freeBuffers
      ensures buffers == HeaderAdded(old(buffers), i, a)
      ensures Tiled(g, buffers)
      ensures FreeIndexed(g, buffers, freeBuffers) && AllocatedIndexed(buffers, allocatedBuffers)
    {
      ghost var b1 := buffers;
      buffers := HeaderAdded(buffers, i, a);
      HeaderAddedInserts(b1, i, a);
      InsertedTiles(g, b1, buffers, i, a);
      InsertedAllocatedIndex(g, b1, buffers, i, a, allocatedBuffers);
      InsertRemainder(b1, i);
    }

    method InsertRemainder(ghost b1: seq<Buffer>, i: nat)
      requires g.Valid() && Tiled(g, b1) && Tiled(g, buffers) && i < |b1| && !b1[i].free
      requires i + 1 < |buffers| && Inserted(b1, buffers, i, buffers[i + 1].addr)
      requires buffers[i] == b1[i] && buffers[i + 1].free
      requires FreeIndexed(g, b1, freeBuffers)
      modifies this`freeBuffers
      ensures FreeIndexed(g, buffers, freeBuffers)
    {
      var a := buffers[i + 1].addr;
      InsertedSizes(g, b1, buffers, i, a, freeBuffers);
      SortedTransfers(g, b1, buffers, freeBuffers);
      InsertedFreeOnes(g, b1, buffers, i, a, freeBuffers);
      ghost var fi := freeBuffers;
      InsertFreeBuffer(a);
      ghost var k :| SizePlace(g, buffers, fi, k, a) && freeBuffers == With(fi, k, a);
      InsertedFreeIndex(g, b1, buffers, i, a, fi, k);
    }

    /** binder_alloc_buf.  `mm` tells whether the process's memory map can be had, `fault` which pages fail to map. */
    method AllocBuf(d: nat, o: nat, isAsync: bool, vma: bool, mm: bool, fault: nat -> PageFault)
      returns (r: AllocResult, ghost chosen: nat)
      requires Valid() && d < g.modulus && o < g.modulus
      modifies this, pages
      ensures Valid()
      ensures !r.Allocated? ==> unchanged(this) && pages[..] == old(pages[..])
      ensures r.NoVma? <==> !vma
      ensures r.InvalidSize? <==> vma && g.modulus <= g.Footprint(d, o)
      ensures r.NoAsyncSpace? <==> vma && g.Footprint(d, o) < g.modulus && isAsync
                                   && old(freeAsyncSpace) < WrapAdd(g.Footprint(d, o), g.header, g.modulus)
      ensures r.NoAddressSpace? <==> vma && g.Footprint(d, o) < g.modulus
                                     && (isAsync ==>
                                         WrapAdd(g.Footprint(d, o), g.header, g.modulus) <= old(freeAsyncSpace))
                                     && !SomeFit(g, old(buffers), g.Footprint(d, o))
      ensures vma && g.Footprint(d, o) < g.modulus && (isAsync ==> g.Charge(d, o) <= old(freeAsyncSpace)) ==>
                (r.NoAddressSpace? <==> !SomeFit(g, old(buffers), g.Footprint(d, o)))
      ensures r.NoPages? || r.Allocated? ==>
                && (isAsync ==> g.Charge(d, o) <= old(freeAsyncSpace))
                && BestFitAt(g, old(buffers), g.Footprint(d, o), chosen)
                && (r.Allocated? <==> forall p: nat | NeedsPage(g, old(buffers), chosen, d, o, isAsync, p) ::
                    mm && fault(p) == NoFault)
      ensures r.Allocated? ==>
                && r.addr == old(buffers)[chosen].addr
                && buffers == Allocate(g, old(buffers), chosen, d, o, isAsync)
                && freeAsyncSpace == old(freeAsyncSpace) - (if isAsync then g.Charge(d, o) else 0)
                && lost == old(lost)
      ensures r.Allocated? ==>
                && chosen < |old(buffers)| && r.addr == old(buffers)[chosen].addr && old(buffers)[chosen].free
                && OneTaken(g, old(buffers), buffers, chosen, d, o, isAsync)
                && freeAsyncSpace == old(freeAsyncSpace)
                                     - (if isAsync then RoundUp(d, g.allocWord) + RoundUp(o, g.allocWord) + g.header
                                        else 0)
    {
      chosen := 0;
      if !vma {
        return NoVma, chosen;
      }
      var size := WrappingSize(d, o, g.allocWord, g.modulus);
      OverflowGuardExact(d, o, g.allocWord, g.modulus);
      if size < d || size < o {
        return InvalidSize, chosen;
      }
      if isAsync && freeAsyncSpace < WrapAdd(size, g.header, g.modulus) {
        return NoAsyncSpace, chosen;
      }
      r, chosen := AllocFitting(size, d, o, isAsync, mm, fault);
      if r.Allocated? {
        AllocateIsOneTaken(g, old(buffers), chosen, d, o, isAsync);
      }
    }

    /** Lines 680-747, for a size that passed both checks. */
    method AllocFitting(size: nat, d: nat, o: nat, isAsync: bool, mm: bool, fault: nat -> PageFault)
      returns (r: AllocResult, ghost chosen: nat)
      requires Valid() && size == g.Footprint(d, o) < g.modulus
      requires isAsync ==> WrapAdd(size, g.header, g.modulus) <= freeAsyncSpace
      modifies this, pages
      ensures Valid()
      ensures !r.Allocated? ==> unchanged(this) && pages[..] == old(pages[..])
      ensures r.NoAddressSpace? || r.NoPages? || r.Allocated?
      ensures r.NoAddressSpace? <==> !SomeFit(g, old(buffers), size)
      ensures r.NoPages? || r.Allocated? ==>
                && (isAsync ==> g.Charge(d, o) <= old(freeAsyncSpace))
                && BestFitAt(g, old(buffers), size, chosen)
                && (r.Allocated? <==> forall p: nat | NeedsPage(g, old(buffers), chosen, d, o, isAsync, p) ::
                    mm && fault(p) == NoFault)
      ensures r.Allocated? ==>
                && r.addr == old(buffers)[chosen].addr
                && buffers == Allocate(g, old(buffers), chosen, d, o, isAsync)
                && freeAsyncSpace == old(freeAsyncSpace) - (if isAsync then g.Charge(d, o) else 0)
                && lost == old(lost)
    {
      var found, k, i, bufferSize := Choose(size);
      chosen := i;
      if !found {
        return NoAddressSpace, chosen;
      }
      var a := freeBuffers[k];
      ChargeDoesNotWrap(g, buffers, i, size);
      var ok := TakeMapped(k, i, size, bufferSize, d, o, isAsync, mm, fault);
      return if ok then Allocated(a) else NoPages, chosen;
    }

    /** Lines 709-747: maps the pages, and takes the buffer if that worked. */
    method TakeMapped(k: nat, i: nat, size: nat, bufferSize: nat, d: nat, o: nat, isAsync: bool, mm: bool,
                      fault: nat -> PageFault)
      returns (ok: bool)
      requires Valid()
      requires k < |freeBuffers| && i < |buffers| && buffers[i].free && freeBuffers[k] == buffers[i].addr
      requires size == g.Footprint(d, o) <= Size(g, buffers, i)
      requires bufferSize == if size + g.header + 4 >= Size(g, buffers, i) then size else size + g.header
      requires isAsync ==> g.Charge(d, o) <= freeAsyncSpace
      modifies this, pages
      ensures Valid()
      ensures ok <==> forall p: nat | NeedsPage(g, old(buffers), i, d, o, isAsync, p) :: mm && fault(p) == NoFault
      ensures !ok ==> unchanged(this) && pages[..] == old(pages[..])
      ensures ok ==>
                && buffers == Allocate(g, old(buffers), i, d, o, isAsync)
                && freeAsyncSpace == old(freeAsyncSpace) - (if isAsync then g.Charge(d, o) else 0)
                && lost == old(lost)
    {
      ok := MapBuffer(i, size, bufferSize, d, o, isAsync, mm, fault);
      if ok {
        CommitBuffer(k, i, size, bufferSize, d, o, isAsync);
      } else {
        assert forall p | 0 <= p < pages.Length :: pages[p] == pages[..][p];
      }
    }

    /** Lines 680-716: the free buffer to take, its place in the tree, and how much of it to take. */
    method Choose(size: nat) returns (found: bool, k: nat, i: nat, bufferSize: nat)
      requires g.Valid() && Tiled(g, buffers) && FreeIndexed(g, buffers, freeBuffers)
      ensures found <==> SomeFit(g, buffers, size)
      ensures found ==>
                && BestFitAt(g, buffers, size, i)
                && k < |freeBuffers| && i < |buffers| && freeBuffers[k] == buffers[i].addr
                && buffers[i].free && size <= Size(g, buffers, i)
                && bufferSize == if size + g.header + 4 >= Size(g, buffers, i) then size else size + g.header
    {
      var exact;
      found, k, exact := BestFit(g, buffers, freeBuffers, size);
      FitsByIndex(g, buffers, freeBuffers, size);
      if !found {
        return false, 0, 0, 0;
      }
      i :| 0 <= i < |buffers| && buffers[i].addr == freeBuffers[k];
      IndexAtUnique(g, buffers, i);
      BestByIndex(g, buffers, freeBuffers, size, k);
      bufferSize := Size(g, buffers, i);
      if !exact {
        bufferSize := if size + g.header + 4 >= bufferSize then size else size + g.header;
      }
    }

    /** Lines 725-747, once the pages are there. */
    method CommitBuffer(k: nat, i: nat, size: nat, bufferSize: nat, d: nat, o: nat, isAsync: bool)
      requires g.Valid() && ListInv(g, buffers) && BudgetBalances()
      requires FreeIndexed(g, buffers, freeBuffers) && AllocatedIndexed(buffers, allocatedBuffers)
      requires k < |freeBuffers| && i < |buffers| && buffers[i].free && freeBuffers[k] == buffers[i].addr
      requires size == g.Footprint(d, o) <= Size(g, buffers, i)
      requires bufferSize == if size + g.header + 4 >= Size(g, buffers, i) then size else size + g.header
      requires isAsync ==> g.Charge(d, o) <= freeAsyncSpace
      requires pages.Length == g.PageCount()
      requires forall p | 0 <= p < pages.Length :: pages[p] <==> Resident(g, Allocate(g, buffers, i, d, o, isAsync), p)
      modifies this
      ensures Valid()
      ensures buffers == Allocate(g, old(buffers), i, d, o, isAsync)
      ensures freeAsyncSpace == old(freeAsyncSpace) - (if isAsync then g.Charge(d, o) else 0) && lost == old(lost)
    {
      AllocateKeepsList(g, buffers, i, d, o, isAsync);
      AllocateCharges(g, buffers, i, d, o, isAsync);
      TakeBuffer(k, i, size, bufferSize, d, o, isAsync);
      if isAsync {
        freeAsyncSpace := freeAsyncSpace - (size + g.header);
      }
    }

    /** Lines 709-723: the pages that the allocation needs and that are not there. */
    method MapBuffer(i: nat, size: nat, bufferSize: nat, ghost d: nat, ghost o: nat, ghost isAsync: bool,
                     mm: bool, fault: nat -> PageFault) returns (ok: bool)
      requires PagesMatch() && Tiled(g, buffers) && i < |buffers| && buffers[i].free
      requires size == g.Footprint(d, o) <= Size(g, buffers, i)
      requires bufferSize == if size + g.header + 4 >= Size(g, buffers, i) then size else size + g.header
      modifies pages
      ensures ok <==> forall p: nat | NeedsPage(g, buffers, i, d, o, isAsync, p) :: mm && fault(p) == NoFault
      ensures !ok ==> pages[..] == old(pages[..])
      ensures ok ==> forall p | 0 <= p < pages.Length ::
          pages[p] <==> Resident(g, Allocate(g, buffers, i, d, o, isAsync), p)
    {
      var start := PageUp(Data(g, buffers, i), g.page);
      var hasPage := PageOf(End(g, buffers, i), g.page);
      var end := PageUp(Data(g, buffers, i) + bufferSize, g.page);
      if end > hasPage {
        end := hasPage;
      }
      SizeNonNegative(g, buffers, i);
      PageOfMonotone(End(g, buffers, i), g.size, g.page);
      assert end == MapEnd(g, buffers, i, bufferSize);
      AllocateRange(g, buffers, i, d, o, isAsync, bufferSize);
      ok := UpdatePageRange(true, start, end, mm, fault);
      if !ok {
        assert pages[..] == old(pages[..]);
        PageFails(g, buffers, i, d, o, isAsync, mm, fault, start, end);
      }
    }

    /** binder_delete_free_buffer of header `i`, which ends up in the free buffer before it. */
    method DeleteFreeBuffer(i: nat)
      requires PagesMatch() && Tiled(g, buffers)
      requires i < |buffers| && 0 < i && buffers[i].free && buffers[i - 1].free
      modifies this`buffers, pages
      ensures buffers == Deleted(old(buffers), i)
      ensures PagesMatch()
    {
      assert buffers[0] != buffers[i];  // BUG_ON(proc->buffers.next == &buffer->entry)
      var b, prev := buffers[i], buffers[i - 1];
      assert prev.free;  // BUG_ON(!prev->free)
      var freeEnd, freeStart := true, true;
      if EndPage(g, prev) == StartPage(g, b) {
        freeStart := false;
        if EndPage(g, prev) == EndPage(g, b) {
          freeEnd := false;
        }
      }
      if i + 1 < |buffers| {
        var next := buffers[i + 1];
        if StartPage(g, next) == EndPage(g, b) {
          freeEnd := false;
          if StartPage(g, next) == StartPage(g, b) {
            freeStart := false;
          }
        }
      }
      ghost var bs := buffers;
      OnlyHeaderIsMergedGap(g, bs, i, 0);
      buffers := Deleted(buffers, i);
      forall p: nat
        ensures OnlyHeaderOf(g, bs, i, p) ==> Resident(g, bs, p)
        ensures Resident(g, buffers, p) <==> Resident(g, bs, p) && !OnlyHeaderOf(g, bs, i, p)
      {
        DeletedResidency(g, bs, i, p);
      }
      if freeStart || freeEnd {
        var start := if freeStart then StartPage(g, b) else EndPage(g, b);
        var end := (if freeEnd then EndPage(g, b) else StartPage(g, b)) + 1;
        assert forall p: nat :: OnlyHeaderOf(g, bs, i, p) <==> start <= p < end;
        var _ := UpdatePageRange(false, start, end, true, _ => NoFault);
      } else {
        assert forall p: nat :: !OnlyHeaderOf(g, bs, i, p);
      }
    }

    /** binder_free_buf of the allocated buffer at place `i` of the list. */
    method FreeBuf(i: nat)
      requires Valid() && i < |buffers| && !buffers[i].free
      modifies this, pages
      ensures Valid()
      ensures buffers == Freed(old(buffers), i) && OneFreed(g, old(buffers), buffers, i)
      ensures var b := old(buffers)[i];
              && freeAsyncSpace == old(freeAsyncSpace) + (if b.isAsync then g.Refund(b.dataSize, b.offsetsSize) else 0)
              && lost == old(lost) + (if b.isAsync
                                       then g.Charge(b.dataSize, b.offsetsSize) - g.Refund(b.dataSize, b.offsetsSize)
                                       else 0)
    {
      var b := buffers[i];
      var size := RoundUp(b.dataSize, g.freeWord) + RoundUp(b.offsetsSize, g.freeWord);
      RefundExactIff(g, b.dataSize, b.offsetsSize);
      assert Fitting(g, buffers, i);
      assert size <= Size(g, buffers, i);  // BUG_ON(size > buffer_size)
      FreedCharges(g, buffers, i);
      FreedIsOneFreed(g, buffers, i);
      Settle(b, size);
      ReturnBuffer(i);
    }

    /** Lines 824-831, before the list loses the buffer's charge */
    method Settle(b: Buffer, size: nat)
      requires g.Valid() && !b.free
      requires size == RoundUp(b.dataSize, g.freeWord) + RoundUp(b.offsetsSize, g.freeWord)
      requires BudgetBalances()
      modifies this`freeAsyncSpace, this`lost
      ensures freeAsyncSpace + AsyncCharge(g, buffers) - (if b.isAsync then g.Charge(b.dataSize, b.offsetsSize) else 0)
              + lost == g.size / 2
      ensures g.allocWord == g.freeWord ==> lost == 0
      ensures freeAsyncSpace == old(freeAsyncSpace) + (if b.isAsync then g.Refund(b.dataSize, b.offsetsSize) else 0)
      ensures lost == old(lost) + (if b.isAsync
                                   then g.Charge(b.dataSize, b.offsetsSize) - g.Refund(b.dataSize, b.offsetsSize)
                                   else 0)
    {
      RefundExactIff(g, b.dataSize, b.offsetsSize);
      if b.isAsync {
        freeAsyncSpace := freeAsyncSpace + (size + g.header);
        lost := lost + (g.Charge(b.dataSize, b.offsetsSize) - (size + g.header));
      }
    }

    /** Lines 833-856. */
    method ReturnBuffer(i: nat)
      requires PagesMatch() && ListInv(g, buffers) && i < |buffers| && !buffers[i].free
      requires FreeIndexed(g, buffers, freeBuffers) && AllocatedIndexed(buffers, allocatedBuffers)
      modifies this`buffers, this`freeBuffers, this`allocatedBuffers, pages
      ensures buffers == Freed(old(buffers), i)
      ensures PagesMatch() && ListInv(g, buffers)
      ensures FreeIndexed(g, buffers, freeBuffers) && AllocatedIndexed(buffers, allocatedBuffers)
    {
      FreedKeepsList(g, buffers, i);
      UnmapBuffer(i);
      MergeAround(i);
    }

    /** Lines 833-838: the buffer's own whole pages go, and it leaves the tree of allocated buffers. */
    method UnmapBuffer(i: nat)
      requires PagesMatch() && ListInv(g, buffers) && i < |buffers| && !buffers[i].free
      requires FreeIndexed(g, buffers, freeBuffers) && AllocatedIndexed(buffers, allocatedBuffers)
      modifies this`buffers, this`allocatedBuffers, pages
      ensures buffers == MarkedFree(old(buffers), i)
      ensures PagesMatch() && Tiled(g, buffers)
      ensures FreeIndexedBut(g, buffers, freeBuffers, i) && AllocatedIndexed(buffers, allocatedBuffers)
    {
      ghost var bs := buffers;
      SizeNonNegative(g, bs, i);
      PageOfMonotone(End(g, bs, i), g.size, g.page);
      var start, end := PageUp(Data(g, buffers, i), g.page), PageOf(End(g, buffers, i), g.page);
      forall p: nat
        ensures Inside(g, bs, i, p) ==> Resident(g, bs, p)
        ensures Resident(g, MarkedFree(bs, i), p) <==> Resident(g, bs, p) && !Inside(g, bs, i, p)
      {
        MarkedFreeResidency(g, bs, i, p);
      }
      assert forall p | start <= p < end :: Inside(g, bs, i, p);
      var _ := UpdatePageRange(false, start, end, true, _ => NoFault);
      var k :| 0 <= k < |allocatedBuffers| && allocatedBuffers[k] == buffers[i].addr;
      allocatedBuffers := WithoutAt(allocatedBuffers, k);
      buffers := MarkedFree(buffers, i);
      MarkedFreeTiles(g, bs, i);
      MarkedFreeIndexes(g, bs, i, freeBuffers, old(allocatedBuffers), k);
    }

    /** Lines 839-856: merges header `i` with its free neighbours and puts the result in the tree. */
    method MergeAround(i: nat)
      requires PagesMatch() && Tiled(g, buffers)
      requires FreeIndexedBut(g, buffers, freeBuffers, i) && AllocatedIndexed(buffers, allocatedBuffers)
      modifies this`buffers, this`freeBuffers, pages
      ensures buffers == MergedPrev(MergedNext(old(buffers), i), i)
      ensures PagesMatch()
      ensures FreeIndexed(g, buffers, freeBuffers) && AllocatedIndexed(buffers, allocatedBuffers)
    {
      ghost var b2 := MergedPrev(MergedNext(buffers, i), i);
      MergeNext(i);
      var m := MergePrev(i);
      assert buffers == b2;
      Reinsert(m);
    }

    /** Lines 839-846 */
    method MergeNext(i: nat)
      requires PagesMatch() && Tiled(g, buffers)
      requires FreeIndexedBut(g, buffers, freeBuffers, i) && AllocatedIndexed(buffers, allocatedBuffers)
      modifies this`buffers, this`freeBuffers, pages
      ensures buffers == MergedNext(old(buffers), i)
      ensures PagesMatch() && Tiled(g, buffers)
      ensures FreeIndexedBut(g, buffers, freeBuffers, i) && AllocatedIndexed(buffers, allocatedBuffers)
    {
      if i + 1 < |buffers| && buffers[i + 1].free {
        EraseAndDelete(i + 1, i, i + 1);
      }
    }

    /** Lines 847-855; header `m` is the one that is left to put in the tree. */
    method MergePrev(i: nat) returns (m: nat)
      requires PagesMatch() && Tiled(g, buffers)
      requires FreeIndexedBut(g, buffers, freeBuffers, i) && AllocatedIndexed(buffers, allocatedBuffers)
      modifies this`buffers, this`freeBuffers, pages
      ensures buffers == MergedPrev(old(buffers), i)
      ensures PagesMatch() && Tiled(g, buffers)
      ensures FreeIndexedBut(g, buffers, freeBuffers, m) && AllocatedIndexed(buffers, allocatedBuffers)
    {
      m := i;
      if 0 < i && buffers[i - 1].free {
        EraseAndDelete(i, i, i - 1);
        m := i - 1;
      }
    }

    /** Deletes header `d`, taking header `e` out of the tree; header `m` is the one not in it. */
    method EraseAndDelete(d: nat, ghost m: nat, e: nat)
      requires PagesMatch() && Tiled(g, buffers)
      requires 0 < d < |buffers| && buffers[d].free && buffers[d - 1].free
      requires (m == d && e == d - 1) || (m == d - 1 && e == d)
      requires FreeIndexedBut(g, buffers, freeBuffers, m) && AllocatedIndexed(buffers, allocatedBuffers)
      modifies this`buffers, this`freeBuffers, pages
      ensures buffers == Deleted(old(buffers), d)
      ensures PagesMatch() && Tiled(g, buffers)
      ensures FreeIndexedBut(g, buffers, freeBuffers, d - 1) && AllocatedIndexed(buffers, allocatedBuffers)
    {
      EraseFree(d, m, e);
      ghost var cs := Deleted(buffers, d);
      DeleteFreeBuffer(d);
      assert buffers == cs;
    }

    method EraseFree(ghost d: nat, ghost m: nat, e: nat)
      requires g.Valid() && Tiled(g, buffers)
      requires 0 < d < |buffers| && buffers[d].free && buffers[d - 1].free
      requires (m == d && e == d - 1) || (m == d - 1 && e == d)
      requires FreeIndexedBut(g, buffers, freeBuffers, m) && AllocatedIndexed(buffers, allocatedBuffers)
      modifies this`freeBuffers
      ensures Tiled(g, Deleted(buffers, d)) && FreeIndexedBut(g, Deleted(buffers, d), freeBuffers, d - 1)
      ensures AllocatedIndexed(Deleted(buffers, d), allocatedBuffers)
    {
      ghost var fi := freeBuffers;
      assert buffers[e].addr in fi;
      var k :| 0 <= k < |freeBuffers| && freeBuffers[k] == buffers[e].addr;
      freeBuffers := WithoutAt(freeBuffers, k);
      DeletedFreeIndex(g, buffers, d, m, fi, k);
      DeletedAllocatedIndex(g, buffers, d, allocatedBuffers);
      DeletedTiles(g, buffers, d);
    }

    method Reinsert(m: nat)
      requires g.Valid() && Tiled(g, buffers) && FreeIndexedBut(g, buffers, freeBuffers, m)
      modifies this`freeBuffers
      ensures FreeIndexed(g, buffers, freeBuffers)
    {
      ghost var fi := freeBuffers;
      IndexAtUnique(g, buffers, m);
      InsertFreeBuffer(buffers[m].addr);
      ghost var k :| SizePlace(g, buffers, fi, k, buffers[m].addr) && freeBuffers == With(fi, k, buffers[m].addr);
      ReinsertedFreeIndex(g, buffers, m, fi, k);
    }

    /** binder_deferred_release frees what is still allocated, lowest address first. */
    method ReleaseAll()
      requires Valid()
      modifies this, pages
      ensures Valid() && allocatedBuffers == []
    {
      while allocatedBuffers != []
        invariant Valid()
        decreases |buffers|, LiveBuffers(buffers)
      {
        var i :| 0 <= i < |buffers| && buffers[i].addr == allocatedBuffers[0];
        FreedHasFewer(buffers, i);
        FreeBuf(i);
      }
    }

    /**
      The full round trip: whatever was allocated and freed before, when nothing is
      allocated the allocator is as binder_mmap left it, short only of what frees
      did not refund.
     */
    lemma DrainedIsFresh()
      requires Valid() && allocatedBuffers == []
      ensures |buffers| == 1 && buffers[0].addr == 0 && buffers[0].free && Size(g, buffers, 0) == g.size - g.header
      ensures freeBuffers == [0]
      ensures forall p | 0 <= p < pages.Length :: pages[p] <==> p == 0
      ensures freeAsyncSpace + lost == g.size / 2
      ensures g.allocWord == g.freeWord ==> freeAsyncSpace == g.size / 2
    {
      NothingAllocatedIsFresh(g, buffers);
      assert buffers[0].addr in freeBuffers;
      forall k | 0 <= k < |freeBuffers|
        ensures freeBuffers[k] == 0
      {
        assert buffers[IndexAt(buffers, freeBuffers[k])].addr == 0;
      }
      DistinctSingle(freeBuffers, 0);
    }
  }

  lemma DistinctPair(idx: seq<nat>)
    requires Distinct(idx)
    ensures 1 < |idx| ==> idx[0] != idx[1]
  {
  }

  lemma DistinctSingle(idx: seq<nat>, a: nat)
    requires Distinct(idx) && a in idx && forall k | 0 <= k < |idx| :: idx[k] == a
    ensures idx == [a]
  {
    DistinctPair(idx);
  }

  function LiveBuffers(bs: seq<Buffer>): nat {
    if bs == [] then 0 else (if bs[0].free then 0 else 1) + LiveBuffers(bs[1..])
  }

  lemma {:induction false} LiveConcat(a: seq<Buffer>, b: seq<Buffer>)
    ensures LiveBuffers(a + b) == LiveBuffers(a) + LiveBuffers(b)
  {
    if a == [] {
      assert a + b == b;
    } else {
      assert (a + b)[1..] == a[1..] + b;
      LiveConcat(a[1..], b);
    }
  }

  lemma FreedHasFewer(bs: seq<Buffer>, i: nat)
    requires i < |bs| && !bs[i].free
    ensures |Freed(bs, i)| < |bs| || (|Freed(bs, i)| == |bs| && LiveBuffers(Freed(bs, i)) < LiveBuffers(bs))
  {
    var b1 := MarkedFree(bs, i);
    assert bs == bs[..i] + ([bs[i]] + bs[i + 1..]) && b1 == bs[..i] + ([b1[i]] + bs[i + 1..]);
    LiveConcat(bs[..i], [bs[i]] + bs[i + 1..]);
    LiveConcat([bs[i]], bs[i + 1..]);
    LiveConcat(bs[..i], [b1[i]] + bs[i + 1..]);
    LiveConcat([b1[i]], bs[i + 1..]);
  }

  lemma AllocateResidency(g: Geometry, bs: seq<Buffer>, i: nat, d: nat, o: nat, isAsync: bool, p: nat)
    requires g.Valid() && Tiled(g, bs) && i < |bs| && bs[i].free
    requires g.Footprint(d, o) <= Size(g, bs, i)
    ensures var size := g.Footprint(d, o);
            var span := if size + g.header + 4 >= Size(g, bs, i) then size else size + g.header;
            && (Resident(g, Allocate(g, bs, i, d, o, isAsync), p) <==>
                Resident(g, bs, p) || PageUp(Data(g, bs, i), g.page) <= p < MapEnd(g, bs, i, span))
            && (PageUp(Data(g, bs, i), g.page) <= p < MapEnd(g, bs, i, span) ==> !Resident(g, bs, p))
  {
    var size := g.Footprint(d, o);
    if size + g.header + 4 >= Size(g, bs, i) {
      TakenResidency(g, bs, i, size, d, o, isAsync, p);
    } else {
      CarvedResidency(g, bs, i, size, d, o, isAsync, p);
    }
    if PageUp(Data(g, bs, i), g.page) <= p < MapEnd(g, bs, i, if size + g.header + 4 >= Size(g, bs, i) then size
                                                    else size + g.header) {
      assert Inside(g, bs, i, p);
    }
  }

  /** When the range cannot be mapped, one of the pages that the allocation needs is at fault. */
  lemma PageFails(g: Geometry, bs: seq<Buffer>, i: nat, d: nat, o: nat, isAsync: bool, mm: bool,
                  fault: nat -> PageFault,
                  start: nat, end: nat)
    requires g.Valid() && i < |bs| && start < end
    requires forall p: nat :: NeedsPage(g, bs, i, d, o, isAsync, p) <==> start <= p < end
    requires !(mm && forall p: nat | start <= p < end :: fault(p) == NoFault)
    ensures !(forall p: nat | NeedsPage(g, bs, i, d, o, isAsync, p) :: mm && fault(p) == NoFault)
  {
    var p := start;
    if mm {
      p :| start <= p < end && fault(p) != NoFault;
    }
    assert NeedsPage(g, bs, i, d, o, isAsync, p);
  }

  lemma AllocateRange(g: Geometry, bs: seq<Buffer>, i: nat, d: nat, o: nat, isAsync: bool, span: nat)
    requires g.Valid() && Tiled(g, bs) && i < |bs| && bs[i].free
    requires g.Footprint(d, o) <= Size(g, bs, i)
    requires span == if g.Footprint(d, o) + g.header + 4 >= Size(g, bs, i) then g.Footprint(d, o)
        else g.Footprint(d, o) + g.header
    ensures var start, end := PageUp(Data(g, bs, i), g.page), MapEnd(g, bs, i, span);
            forall p: nat ::
              && (NeedsPage(g, bs, i, d, o, isAsync, p) <==> start <= p < end)
              && (start <= p < end ==> !Resident(g, bs, p))
              && (Resident(g, Allocate(g, bs, i, d, o, isAsync), p) <==> Resident(g, bs, p) || start <= p < end)
  {
    forall p: nat
      ensures var start, end := PageUp(Data(g, bs, i), g.page), MapEnd(g, bs, i, span);
              && (NeedsPage(g, bs, i, d, o, isAsync, p) <==> start <= p < end)
              && (start <= p < end ==> !Resident(g, bs, p))
              && (Resident(g, Allocate(g, bs, i, d, o, isAsync), p) <==> Resident(g, bs, p) || start <= p < end)
    {
      AllocateResidency(g, bs, i, d, o, isAsync, p);
    }
  }

  /** The async check's sum may wrap and let too large a size through, but then no buffer is found. */
  lemma ChargeDoesNotWrap(g: Geometry, bs: seq<Buffer>, i: nat, size: nat)
    requires g.Valid() && Tiled(g, bs) && i < |bs| && size <= Size(g, bs, i)
    ensures size + g.header + 4 < g.modulus
  {
    SizeNonNegative(g, bs, i);
  }

  lemma FitsByIndex(g: Geometry, bs: seq<Buffer>, fi: seq<nat>, size: nat)
    requires g.Valid() && Tiled(g, bs) && FreeIndexed(g, bs, fi)
    ensures (forall k | 0 <= k < |fi| :: SizeAt(g, bs, fi[k]) < size) ==> !SomeFit(g, bs, size)
  {
    if SomeFit(g, bs, size) {
      var i :| 0 <= i < |bs| && bs[i].free && size <= Size(g, bs, i);
      IndexAtUnique(g, bs, i);
      var k :| 0 <= k < |fi| && fi[k] == bs[i].addr;
      assert size <= SizeAt(g, bs, fi[k]);
    }
  }

  lemma BestByIndex(g: Geometry, bs: seq<Buffer>, fi: seq<nat>, size: nat, k: nat)
    requires g.Valid() && Tiled(g, bs) && FreeIndexed(g, bs, fi) && k < |fi|
    requires size <= SizeAt(g, bs, fi[k])
    requires forall j | 0 <= j < |fi| && size <= SizeAt(g, bs, fi[j]) :: SizeAt(g, bs, fi[k]) <= SizeAt(g, bs, fi[j])
    ensures BestFitAt(g, bs, size, IndexAt(bs, fi[k])) && SomeFit(g, bs, size)
  {
    var i := IndexAt(bs, fi[k]);
    forall j | 0 <= j < |bs| && bs[j].free && size <= Size(g, bs, j)
      ensures Size(g, bs, i) <= Size(g, bs, j)
    {
      IndexAtUnique(g, bs, j);
      var m :| 0 <= m < |fi| && fi[m] == bs[j].addr;
      assert SizeAt(g, bs, fi[m]) == Size(g, bs, j);
    }
  }

  /** The headers that the tree of free buffers names, and the new one, are free. */
  lemma InsertedFreeOnes(g: Geometry, bs: seq<Buffer>, cs: seq<Buffer>, i: nat, a: nat, fi: seq<nat>)
    requires g.Valid() && Tiled(g, bs) && Tiled(g, cs) && i < |bs| && !bs[i].free
    requires Inserted(bs, cs, i, a) && cs[i] == bs[i] && cs[i + 1].free
    requires FreeIndexed(g, bs, fi)
    requires Known(cs, fi)
    ensures HasBuffer(cs, a) && cs[IndexAt(cs, a)].free
    ensures forall k | 0 <= k < |fi| :: cs[IndexAt(cs, fi[k])].free
  {
    IndexAtUnique(g, cs, i + 1);
    forall k | 0 <= k < |fi|
      ensures cs[IndexAt(cs, fi[k])].free
    {
      var j := IndexAt(cs, fi[k]);
      if j != i + 1 {
        assert cs[j] == bs[Before(i, j)];
      }
    }
  }
}
