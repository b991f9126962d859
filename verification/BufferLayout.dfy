/**
  The list of buffer headers that tiles a process's mapped region, and what each
  edit of that list does to sizes, to tiling and to the set of resident pages.

  Addresses are offsets from proc->buffer, which is page-aligned.
 */
module BufferLayout {
  import opened Rounding

  /** Compile-time sizes and the size of the mapped region. */
  datatype Geometry = Geometry(
    size: nat,       // proc->buffer_size
    page: nat,       // PAGE_SIZE
    header: nat,     // sizeof(struct binder_buffer)
    allocWord: nat,  // sizeof(void *), to which binder_alloc_buf rounds
    freeWord: nat,   // sizeof(binder_ptr), to which binder_free_buf rounds
    modulus: nat     // one more than the largest size_t
  ) {
    predicate Valid() {
      && 0 < freeWord && 0 < allocWord && Aligned(allocWord, freeWord)
      && 0 < header && Aligned(header, allocWord)
      && header + 4 < page <= size
      && Aligned(size, page)
      && allocWord <= modulus && Aligned(modulus, allocWord)
      && size + page <= modulus
    }

    function PageCount(): nat
      requires 0 < page
    {
      PageOf(size, page)
    }

    /** The rounded sum of a transaction's two sizes, to the allocator's word. */
    function Footprint(dataSize: nat, offsetsSize: nat): nat
      requires 0 < allocWord
    {
      RoundUp(dataSize, allocWord) + RoundUp(offsetsSize, allocWord)
    }

    /** What an asynchronous buffer takes from the async budget when allocated. */
    function Charge(dataSize: nat, offsetsSize: nat): nat
      requires 0 < allocWord
    {
      Footprint(dataSize, offsetsSize) + header
    }

    /** What it gives back when freed. */
    function Refund(dataSize: nat, offsetsSize: nat): nat
      requires 0 < freeWord
    {
      RoundUp(dataSize, freeWord) + RoundUp(offsetsSize, freeWord) + header
    }
  }

  datatype Buffer = Buffer(addr: nat, free: bool, dataSize: nat, offsetsSize: nat, isAsync: bool)

  /**
    Headers are in address order, the first at the region's base, none overlapping
    the next and the last inside the region.
   */
  ghost predicate Tiled(g: Geometry, bs: seq<Buffer>) {
    && 0 < |bs| && bs[0].addr == 0
    && bs[|bs| - 1].addr + g.header <= g.size
    && forall i, j | 0 <= i < j < |bs| :: bs[i].addr + g.header <= bs[j].addr
  }

  /** No two neighbours are both free. */
  ghost predicate Coalesced(bs: seq<Buffer>) {
    forall i | 0 <= i < |bs| - 1 :: !(bs[i].free && bs[i + 1].free)
  }

  /** Where buffer `i` ends: at the next header, or at the end of the region. */
  function End(g: Geometry, bs: seq<Buffer>, i: nat): nat
    requires i < |bs|
  {
    if i + 1 < |bs| then bs[i + 1].addr else g.size
  }

  function Data(g: Geometry, bs: seq<Buffer>, i: nat): nat
    requires i < |bs|
  {
    bs[i].addr + g.header
  }

  /** binder_buffer_size: never stored, always computed from the next header. */
  function Size(g: Geometry, bs: seq<Buffer>, i: nat): int
    requires i < |bs|
  {
    End(g, bs, i) - Data(g, bs, i)
  }

  lemma SizeNonNegative(g: Geometry, bs: seq<Buffer>, i: nat)
    requires Tiled(g, bs) && i < |bs|
    ensures Data(g, bs, i) <= End(g, bs, i) <= g.size
  {
    if i + 1 < |bs| {
      assert bs[i].addr + g.header <= bs[i + 1].addr;
      if i + 1 < |bs| - 1 {
        assert bs[i + 1].addr + g.header <= bs[|bs| - 1].addr;
      }
    }
  }

  /** Every offset of the region lies in exactly one buffer, header included. */
  lemma {:induction false} TilingCovers(g: Geometry, bs: seq<Buffer>, x: nat)
    requires Tiled(g, bs) && x < g.size
    ensures exists i :: 0 <= i < |bs| && bs[i].addr <= x < End(g, bs, i)
    ensures forall i, j | 0 <= i < |bs| && 0 <= j < |bs|
                          && bs[i].addr <= x < End(g, bs, i) && bs[j].addr <= x < End(g, bs, j) :: i == j
  {
    var i := 0;
    while i + 1 < |bs| && bs[i + 1].addr <= x
      invariant 0 <= i < |bs| && bs[i].addr <= x
    {
      i := i + 1;
    }
    assert bs[i].addr <= x < End(g, bs, i);
    forall j, k | 0 <= j < k < |bs|
      ensures End(g, bs, j) <= bs[k].addr
    {
      assert j + 1 == k || bs[j + 1].addr + g.header <= bs[k].addr;
    }
  }

  // ----- buffers named by address

  ghost predicate HasBuffer(bs: seq<Buffer>, a: nat) {
    exists i :: 0 <= i < |bs| && bs[i].addr == a
  }

  /** The place in the list of the header at address `a`. */
  ghost function IndexAt(bs: seq<Buffer>, a: nat): (i: nat)
    requires HasBuffer(bs, a)
    ensures i < |bs| && bs[i].addr == a
  {
    var i :| 0 <= i < |bs| && bs[i].addr == a;
    i
  }

  lemma IndexAtUnique(g: Geometry, bs: seq<Buffer>, i: nat)
    requires g.Valid() && Tiled(g, bs) && i < |bs|
    ensures HasBuffer(bs, bs[i].addr) && IndexAt(bs, bs[i].addr) == i
  {
    var j := IndexAt(bs, bs[i].addr);
    assert !(j < i) && !(i < j);
  }

  ghost function SizeAt(g: Geometry, bs: seq<Buffer>, a: nat): int
    requires HasBuffer(bs, a)
  {
    Size(g, bs, IndexAt(bs, a))
  }

  // ----- list edits

  /** binder_alloc_buf without a remainder: the whole of buffer `i` is taken. */
  function Taken(bs: seq<Buffer>, i: nat, d: nat, o: nat, isAsync: bool): seq<Buffer>
    requires i < |bs|
  {
    bs[i := Buffer(bs[i].addr, false, d, o, isAsync)]
  }

  /** binder_alloc_buf with a remainder: a free header follows `size` bytes of data. */
  function Carved(g: Geometry, bs: seq<Buffer>, i: nat, size: nat, d: nat, o: nat, isAsync: bool): seq<Buffer>
    requires i < |bs|
  {
    bs[..i] + [Buffer(bs[i].addr, false, d, o, isAsync), Buffer(Data(g, bs, i) + size, true, 0, 0, false)] + bs[i + 1..]
  }

  function Deleted(bs: seq<Buffer>, i: nat): seq<Buffer>
    requires i < |bs|
  {
    bs[..i] + bs[i + 1..]
  }

  function MarkedFree(bs: seq<Buffer>, i: nat): seq<Buffer>
    requires i < |bs|
  {
    bs[i := bs[i].(free := true)]
  }

  lemma TakenTiles(g: Geometry, bs: seq<Buffer>, i: nat, d: nat, o: nat, isAsync: bool)
    requires Tiled(g, bs) && i < |bs|
    ensures Tiled(g, Taken(bs, i, d, o, isAsync))
    ensures Coalesced(bs) ==> Coalesced(Taken(bs, i, d, o, isAsync))
    ensures forall j | 0 <= j < |bs| :: End(g, Taken(bs, i, d, o, isAsync), j) == End(g, bs, j)
  {
  }

  lemma MarkedFreeTiles(g: Geometry, bs: seq<Buffer>, i: nat)
    requires Tiled(g, bs) && i < |bs|
    ensures Tiled(g, MarkedFree(bs, i))
    ensures forall j | 0 <= j < |bs| :: End(g, MarkedFree(bs, i), j) == End(g, bs, j)
  {
  }

  /** `cs` is `bs` with one more header, at address `a`, behind header `i`. */
  ghost predicate Inserted(bs: seq<Buffer>, cs: seq<Buffer>, i: nat, a: nat)
    requires i < |bs|
  {
    && |cs| == |bs| + 1
    && (forall j | 0 <= j < i :: cs[j] == bs[j])
    && cs[i].addr == bs[i].addr && cs[i + 1].addr == a
    && (forall j | i + 1 < j < |cs| :: cs[j] == bs[j - 1])
  }

  lemma CarvedInserts(g: Geometry, bs: seq<Buffer>, i: nat, size: nat, d: nat, o: nat, isAsync: bool)
    requires i < |bs|
    ensures Inserted(bs, Carved(g, bs, i, size, d, o, isAsync), i, Data(g, bs, i) + size)
  {
  }

  lemma InsertedTiles(g: Geometry, bs: seq<Buffer>, cs: seq<Buffer>, i: nat, a: nat)
    requires Tiled(g, bs) && i < |bs| && Inserted(bs, cs, i, a)
    requires Data(g, bs, i) <= a && a + g.header <= End(g, bs, i)
    ensures Tiled(g, cs)
  {
    forall j, k | 0 <= j < k < |cs|
      ensures cs[j].addr + g.header <= cs[k].addr
    {
      if j == i + 1 {
        assert bs[i + 1].addr <= bs[k - 1].addr;
      } else if k == i + 1 {
        assert cs[j].addr <= bs[i].addr;
      } else if k <= i {
        assert bs[j].addr + g.header <= bs[k].addr;
      } else if j <= i {
        assert bs[j].addr + g.header <= bs[k - 1].addr;
      } else {
        assert bs[j - 1].addr + g.header <= bs[k - 1].addr;
      }
    }
  }

  lemma CarvedTiles(g: Geometry, bs: seq<Buffer>, i: nat, size: nat, d: nat, o: nat, isAsync: bool)
    requires Tiled(g, bs) && i < |bs|
    requires size + g.header <= Size(g, bs, i)
    ensures Tiled(g, Carved(g, bs, i, size, d, o, isAsync))
  {
    CarvedInserts(g, bs, i, size, d, o, isAsync);
    InsertedTiles(g, bs, Carved(g, bs, i, size, d, o, isAsync), i, Data(g, bs, i) + size);
  }

  lemma CarvedCoalesced(g: Geometry, bs: seq<Buffer>, i: nat, size: nat, d: nat, o: nat, isAsync: bool)
    requires Coalesced(bs) && i < |bs| && bs[i].free
    ensures Coalesced(Carved(g, bs, i, size, d, o, isAsync))
  {
    var cs := Carved(g, bs, i, size, d, o, isAsync);
    forall j | 0 <= j < |cs| - 1
      ensures !(cs[j].free && cs[j + 1].free)
    {
      if j == i + 1 {
        assert cs[j + 1] == bs[i + 1] && !(bs[i].free && bs[i + 1].free);
      } else if j > i + 1 {
        assert cs[j] == bs[j - 1] && cs[j + 1] == bs[j];
      } else if j < i - 1 {
        assert cs[j] == bs[j] && cs[j + 1] == bs[j + 1];
      }
    }
  }

  /** Deleting a header other than the first gives its space to the one before. */
  lemma DeletedTiles(g: Geometry, bs: seq<Buffer>, i: nat)
    requires Tiled(g, bs) && 0 < i < |bs|
    ensures var cs := Deleted(bs, i);
            && Tiled(g, cs) && |cs| == |bs| - 1
            && End(g, cs, i - 1) == End(g, bs, i)
            && (forall j | 0 <= j < |cs| :: cs[j] == bs[if j < i then j else j + 1])
            && (forall j | 0 <= j < |cs| && j != i - 1 :: End(g, cs, j) == End(g, bs, if j < i then j else j + 1))
  {
    var cs := Deleted(bs, i);
    if i == |bs| - 1 {
      assert bs[i - 1].addr + g.header <= bs[i].addr;
    }
  }

  // ----- resident pages

  /** Page `p` lies wholly inside the data area of buffer `i`. */
  predicate Inside(g: Geometry, bs: seq<Buffer>, i: nat, p: nat)
    requires 0 < g.page && i < |bs|
  {
    PageUp(Data(g, bs, i), g.page) <= p < PageOf(End(g, bs, i), g.page)
  }

  /** The allocator keeps exactly the pages that are in no free buffer's data area. */
  ghost predicate Resident(g: Geometry, bs: seq<Buffer>, p: nat)
    requires 0 < g.page
  {
    forall i | 0 <= i < |bs| && bs[i].free :: !Inside(g, bs, i, p)
  }

  /** A page inside one buffer's data area is inside no other's. */
  lemma InsideOne(g: Geometry, bs: seq<Buffer>, i: nat, j: nat, p: nat)
    requires g.Valid() && Tiled(g, bs) && i < |bs| && j < |bs|
    requires Inside(g, bs, i, p) && Inside(g, bs, j, p)
    ensures i == j
  {
    if i < j {
      InsideBefore(g, bs, i, j, p);
    } else if j < i {
      InsideBefore(g, bs, j, i, p);
    }
  }

  lemma InsideBefore(g: Geometry, bs: seq<Buffer>, i: nat, j: nat, p: nat)
    requires g.Valid() && Tiled(g, bs) && i < j < |bs|
    ensures PageOf(End(g, bs, i), g.page) <= PageOf(bs[j].addr, g.page) <= PageUp(Data(g, bs, j), g.page)
    ensures Inside(g, bs, i, p) ==> !Inside(g, bs, j, p)
  {
    assert End(g, bs, i) <= bs[j].addr by {
      assert i + 1 == j || bs[i + 1].addr + g.header <= bs[j].addr;
    }
    PageFacts(End(g, bs, i), bs[j].addr, g.page);
    PageFacts(bs[j].addr, Data(g, bs, j), g.page);
  }

  /** The pages that binder_alloc_buf maps when it takes `span` bytes of free buffer `i`. */
  function MapEnd(g: Geometry, bs: seq<Buffer>, i: nat, span: nat): nat
    requires 0 < g.page && i < |bs|
  {
    var wanted := PageUp(Data(g, bs, i) + span, g.page);
    var limit := PageOf(End(g, bs, i), g.page);
    if wanted > limit then limit else wanted
  }

  /** Residency after the whole of free buffer `i` is taken, with at most `slack` bytes unused. */
  lemma TakenResidency(g: Geometry, bs: seq<Buffer>, i: nat, size: nat, d: nat, o: nat, isAsync: bool, p: nat)
    requires g.Valid() && Tiled(g, bs) && i < |bs| && bs[i].free
    requires size <= Size(g, bs, i) <= size + g.header + 4
    ensures MapEnd(g, bs, i, size) == PageOf(End(g, bs, i), g.page)
    ensures Resident(g, Taken(bs, i, d, o, isAsync), p) <==>
            Resident(g, bs, p) || (PageUp(Data(g, bs, i), g.page) <= p < MapEnd(g, bs, i, size))
  {
    PageFacts(Data(g, bs, i) + size, End(g, bs, i), g.page);
    TakenResidencyOf(g, bs, Taken(bs, i, d, o, isAsync), i, p);
  }

  lemma TakenResidencyOf(g: Geometry, bs: seq<Buffer>, cs: seq<Buffer>, i: nat, p: nat)
    requires g.Valid() && Tiled(g, bs) && i < |bs| && bs[i].free
    requires |cs| == |bs| && cs[i].addr == bs[i].addr && !cs[i].free
    requires forall j | 0 <= j < |bs| && j != i :: cs[j] == bs[j]
    ensures Resident(g, cs, p) <==> Resident(g, bs, p) || Inside(g, bs, i, p)
  {
    forall j | 0 <= j < |bs|
      ensures Inside(g, cs, j, p) <==> Inside(g, bs, j, p)
    {
    }
    if Inside(g, bs, i, p) {
      forall j | 0 <= j < |bs| && cs[j].free
        ensures !Inside(g, cs, j, p)
      {
        if Inside(g, bs, j, p) {
          InsideOne(g, bs, i, j, p);
        }
      }
    }
  }

  lemma CarvedResidency(g: Geometry, bs: seq<Buffer>, i: nat, size: nat, d: nat, o: nat, isAsync: bool, p: nat)
    requires g.Valid() && Tiled(g, bs) && i < |bs| && bs[i].free
    requires size + g.header <= Size(g, bs, i)
    ensures Resident(g, Carved(g, bs, i, size, d, o, isAsync), p) <==>
            Resident(g, bs, p) || (PageUp(Data(g, bs, i), g.page) <= p < MapEnd(g, bs, i, size + g.header))
  {
    var cs := Carved(g, bs, i, size, d, o, isAsync);
    CarvedInserts(g, bs, i, size, d, o, isAsync);
    PageFacts(Data(g, bs, i), Data(g, bs, i) + size + g.header, g.page);
    InsertedResidency(g, bs, cs, i, Data(g, bs, i) + size, p);
  }

  /** The old place of header `k` of a list with one header inserted behind `i`. */
  function Before(i: nat, k: nat): nat {
    if k <= i then k else k - 1
  }

  lemma InsertedInside(g: Geometry, bs: seq<Buffer>, cs: seq<Buffer>, i: nat, a: nat, k: nat, p: nat)
    requires 0 < g.page && i < |bs| && Inserted(bs, cs, i, a)
    requires k < |cs| && k != i && k != i + 1
    ensures cs[k] == bs[Before(i, k)]
    ensures Inside(g, cs, k, p) <==> Inside(g, bs, Before(i, k), p)
  {
  }

  lemma InsertedResidency(g: Geometry, bs: seq<Buffer>, cs: seq<Buffer>, i: nat, a: nat, p: nat)
    requires g.Valid() && Tiled(g, bs) && i < |bs| && bs[i].free
    requires Inserted(bs, cs, i, a) && !cs[i].free && cs[i + 1].free
    requires PageUp(Data(g, bs, i), g.page) <= PageUp(a + g.header, g.page)
    ensures Resident(g, cs, p) <==> Resident(g, bs, p) || (Inside(g, bs, i, p) && p < PageUp(a + g.header, g.page))
  {
    assert Inside(g, cs, i + 1, p) <==> Inside(g, bs, i, p) && PageUp(a + g.header, g.page) <= p;
    if !Resident(g, bs, p) {
      var j :| 0 <= j < |bs| && bs[j].free && Inside(g, bs, j, p);
      if j != i {
        InsertedKeepsFree(g, bs, cs, i, a, j, p);
        if Inside(g, bs, i, p) {
          InsideOne(g, bs, i, j, p);
        }
      } else if p < PageUp(a + g.header, g.page) {
        InsertedNoOther(g, bs, cs, i, a, p);
      }
    } else {
      InsertedNoOther(g, bs, cs, i, a, p);
    }
  }

  lemma InsertedKeepsFree(g: Geometry, bs: seq<Buffer>, cs: seq<Buffer>, i: nat, a: nat, j: nat, p: nat)
    requires 0 < g.page && i < |bs| && Inserted(bs, cs, i, a)
    requires j < |bs| && j != i && bs[j].free && Inside(g, bs, j, p)
    ensures !Resident(g, cs, p)
  {
    var k := if j < i then j else j + 1;
    InsertedInside(g, bs, cs, i, a, k, p);
  }

  lemma InsertedNoOther(g: Geometry, bs: seq<Buffer>, cs: seq<Buffer>, i: nat, a: nat, p: nat)
    requires g.Valid() && Tiled(g, bs) && i < |bs|
    requires Inserted(bs, cs, i, a) && !cs[i].free
    requires Resident(g, bs, p) || Inside(g, bs, i, p)
    ensures forall k | 0 <= k < |cs| && cs[k].free && k != i + 1 :: !Inside(g, cs, k, p)
  {
    forall k | 0 <= k < |cs| && cs[k].free && k != i + 1
      ensures !Inside(g, cs, k, p)
    {
      InsertedInside(g, bs, cs, i, a, k, p);
      if Inside(g, bs, Before(i, k), p) {
        assert !Resident(g, bs, p);
        InsideOne(g, bs, i, Before(i, k), p);
      }
    }
  }

  /** binder_free_buf unmaps the whole pages of the buffer it frees: they were resident. */
  lemma MarkedFreeResidency(g: Geometry, bs: seq<Buffer>, i: nat, p: nat)
    requires g.Valid() && Tiled(g, bs) && i < |bs| && !bs[i].free
    ensures Inside(g, bs, i, p) ==> Resident(g, bs, p)
    ensures Resident(g, MarkedFree(bs, i), p) <==> Resident(g, bs, p) && !Inside(g, bs, i, p)
  {
    var cs := MarkedFree(bs, i);
    MarkedFreeTiles(g, bs, i);
    assert forall j | 0 <= j < |bs| :: Inside(g, cs, j, p) <==> Inside(g, bs, j, p);
    if Inside(g, bs, i, p) {
      forall j | 0 <= j < |bs| && bs[j].free
        ensures !Inside(g, bs, j, p)
      {
        if Inside(g, bs, j, p) {
          InsideOne(g, bs, i, j, p);
        }
      }
      assert cs[i].free && Inside(g, cs, i, p);
    }
    if Resident(g, cs, p) {
      assert forall j | 0 <= j < |bs| && bs[j].free :: cs[j].free;
    }
  }

  // ----- the pages that only the header of a merged buffer kept resident

  /** buffer_start_page and buffer_end_page. */
  function StartPage(g: Geometry, b: Buffer): nat
    requires 0 < g.page
  {
    PageOf(b.addr, g.page)
  }

  function EndPage(g: Geometry, b: Buffer): nat
    requires 0 < g.page && 0 < g.header
  {
    PageOf(b.addr + g.header - 1, g.page)
  }

  /**
    The page range that deleting free header `i` releases: those of the header's
    own pages that neither the header before nor the header after also uses.
   */
  predicate OnlyHeaderOf(g: Geometry, bs: seq<Buffer>, i: nat, p: nat)
    requires 0 < g.page && 0 < g.header && 0 < i < |bs|
  {
    && StartPage(g, bs[i]) <= p <= EndPage(g, bs[i])
    && EndPage(g, bs[i - 1]) < p
    && (i + 1 < |bs| ==> p < StartPage(g, bs[i + 1]))
  }

  lemma OnlyHeaderIsMergedGap(g: Geometry, bs: seq<Buffer>, i: nat, p: nat)
    requires g.Valid() && Tiled(g, bs) && 0 < i < |bs|
    ensures StartPage(g, bs[i]) <= EndPage(g, bs[i]) <= StartPage(g, bs[i]) + 1
    ensures EndPage(g, bs[i - 1]) <= StartPage(g, bs[i])
    ensures i + 1 < |bs| ==> EndPage(g, bs[i]) <= StartPage(g, bs[i + 1])
    ensures EndPage(g, bs[i]) < g.PageCount()
    ensures OnlyHeaderOf(g, bs, i, p) <==>
            && PageUp(Data(g, bs, i - 1), g.page) <= p < PageOf(End(g, bs, i), g.page)
            && PageOf(bs[i].addr, g.page) <= p < PageUp(Data(g, bs, i), g.page)
  {
    HeaderPages(g, bs, i - 1);
    HeaderPages(g, bs, i);
    assert bs[i - 1].addr + g.header <= bs[i].addr;
    PageFacts(bs[i - 1].addr + g.header - 1, bs[i].addr, g.page);
  }

  /** A header spans at most two pages; its buffer's whole pages start behind them. */
  lemma HeaderPages(g: Geometry, bs: seq<Buffer>, i: nat)
    requires g.Valid() && Tiled(g, bs) && i < |bs|
    ensures StartPage(g, bs[i]) <= EndPage(g, bs[i]) <= StartPage(g, bs[i]) + 1
    ensures PageUp(Data(g, bs, i), g.page) == EndPage(g, bs[i]) + 1
    ensures EndPage(g, bs[i]) <= PageOf(End(g, bs, i), g.page)
    ensures EndPage(g, bs[i]) < g.PageCount()
  {
    var a := bs[i].addr;
    SizeNonNegative(g, bs, i);
    PageFacts(a, a + g.header - 1, g.page);
    PageFacts(a + g.header, End(g, bs, i), g.page);
    PageFacts(a + g.header - 1, End(g, bs, i), g.page);
    RegionEndsOnPage(g, a + g.header - 1);
  }

  /** The region ends on a page boundary. */
  lemma {:induction false} RegionEndsOnPageBy(size: nat, page: nat, x: nat)
    requires 0 < page && Aligned(size, page) && x < size
    ensures PageOf(x, page) < PageOf(size, page)
  {
    if x < page {
    } else {
      RegionEndsOnPageBy(size - page, page, x - page);
    }
  }

  lemma RegionEndsOnPage(g: Geometry, x: nat)
    requires g.Valid() && x < g.size
    ensures PageOf(x, g.page) < g.PageCount()
  {
    RegionEndsOnPageBy(g.size, g.page, x);
  }

  /** The merged buffer's whole pages: those of its two parts and those of the header between. */
  lemma MergedInside(g: Geometry, bs: seq<Buffer>, i: nat, p: nat)
    requires g.Valid() && Tiled(g, bs) && 0 < i < |bs|
    ensures |Deleted(bs, i)| == |bs| - 1
    ensures Inside(g, Deleted(bs, i), i - 1, p) <==>
            Inside(g, bs, i - 1, p) || Inside(g, bs, i, p) || OnlyHeaderOf(g, bs, i, p)
  {
    DeletedTiles(g, bs, i);
    OnlyHeaderIsMergedGap(g, bs, i, p);
    var a := bs[i].addr;
    assert Data(g, bs, i - 1) <= a && End(g, bs, i - 1) == a;
    PageFacts(Data(g, bs, i - 1), a + g.header, g.page);
    SizeNonNegative(g, bs, i);
    PageFacts(a, End(g, bs, i), g.page);
    PageFacts(a, a + g.header, g.page);
  }

  /** The old place of header `k` of a list from which header `i` was deleted. */
  function Behind(i: nat, k: nat): nat {
    if k < i then k else k + 1
  }

  lemma DeletedInside(g: Geometry, bs: seq<Buffer>, i: nat, k: nat, p: nat)
    requires 0 < g.page && Tiled(g, bs) && 0 < i < |bs| && k < |bs| - 1 && k != i - 1
    ensures Deleted(bs, i)[k] == bs[Behind(i, k)]
    ensures Inside(g, Deleted(bs, i), k, p) <==> Inside(g, bs, Behind(i, k), p)
  {
    DeletedTiles(g, bs, i);
  }

  lemma OnlyHeaderResident(g: Geometry, bs: seq<Buffer>, i: nat, p: nat)
    requires g.Valid() && Tiled(g, bs) && 0 < i < |bs| && OnlyHeaderOf(g, bs, i, p)
    ensures Resident(g, bs, p)
  {
    OnlyHeaderIsMergedGap(g, bs, i, p);
    forall j | 0 <= j < |bs| && bs[j].free
      ensures !Inside(g, bs, j, p)
    {
      if j < i {
        InsideBefore(g, bs, j, i, p);
      } else if i < j {
        InsideBefore(g, bs, i, j, p);
      }
    }
  }

  lemma DeletedStaysResident(g: Geometry, bs: seq<Buffer>, i: nat, p: nat)
    requires g.Valid() && Tiled(g, bs) && 0 < i < |bs| && Resident(g, bs, p)
    requires bs[i].free && bs[i - 1].free && !OnlyHeaderOf(g, bs, i, p)
    ensures Resident(g, Deleted(bs, i), p)
  {
    MergedInside(g, bs, i, p);
    forall k | 0 <= k < |Deleted(bs, i)| && Deleted(bs, i)[k].free
      ensures !Inside(g, Deleted(bs, i), k, p)
    {
      if k != i - 1 {
        DeletedInside(g, bs, i, k, p);
      }
    }
  }

  lemma DeletedStaysUnmapped(g: Geometry, bs: seq<Buffer>, i: nat, j: nat, p: nat)
    requires g.Valid() && Tiled(g, bs) && 0 < i < |bs| && bs[i].free && bs[i - 1].free
    requires j < |bs| && bs[j].free && Inside(g, bs, j, p)
    ensures !Resident(g, Deleted(bs, i), p)
  {
    MergedInside(g, bs, i, p);
    if j != i && j != i - 1 {
      DeletedInside(g, bs, i, if j < i then j else j - 1, p);
    } else {
      assert Deleted(bs, i)[i - 1].free;
    }
  }

  lemma DeletedResidency(g: Geometry, bs: seq<Buffer>, i: nat, p: nat)
    requires g.Valid() && Tiled(g, bs) && 0 < i < |bs| && bs[i].free && bs[i - 1].free
    ensures OnlyHeaderOf(g, bs, i, p) ==> Resident(g, bs, p)
    ensures Resident(g, Deleted(bs, i), p) <==> Resident(g, bs, p) && !OnlyHeaderOf(g, bs, i, p)
  {
    if OnlyHeaderOf(g, bs, i, p) {
      OnlyHeaderResident(g, bs, i, p);
      MergedInside(g, bs, i, p);
      assert Deleted(bs, i)[i - 1].free;
    } else if Resident(g, bs, p) {
      DeletedStaysResident(g, bs, i, p);
    } else {
      var j :| 0 <= j < |bs| && bs[j].free && Inside(g, bs, j, p);
      DeletedStaysUnmapped(g, bs, i, j, p);
    }
  }

  /** A page that touches the data area only of free buffers, and no header, is the only kind ever unmapped. */
  lemma UnmappedPageIsUnused(g: Geometry, bs: seq<Buffer>, i: nat, x: nat)
    requires g.Valid() && Tiled(g, bs) && i < |bs|
    requires bs[i].addr <= x < End(g, bs, i)
    requires x < Data(g, bs, i) || !bs[i].free
    ensures Resident(g, bs, PageOf(x, g.page))
  {
    forall j | 0 <= j < |bs| && bs[j].free
      ensures !Inside(g, bs, j, PageOf(x, g.page))
    {
      if Inside(g, bs, j, PageOf(x, g.page)) {
        InsideBounds(g, bs, j, x);
        SizeNonNegative(g, bs, i);
        TilingCovers(g, bs, x);
      }
    }
  }

  lemma InsideBounds(g: Geometry, bs: seq<Buffer>, j: nat, x: nat)
    requires 0 < g.page && j < |bs| && Inside(g, bs, j, PageOf(x, g.page))
    ensures Data(g, bs, j) <= x < End(g, bs, j)
  {
    if x < Data(g, bs, j) {
      PageFacts(x, Data(g, bs, j) - 1, g.page);
      PageFacts(Data(g, bs, j), Data(g, bs, j), g.page);
    }
    if End(g, bs, j) <= x {
      PageFacts(End(g, bs, j), x, g.page);
    }
  }
}
