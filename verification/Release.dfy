/**
  binder_transaction_buffer_release, and the proof that releasing what a
  transaction translated, whole or up to the object that failed, returns every
  count to where it was.
 */
module Release {
  import opened Options
  import opened NodeRefs
  import opened Handles
  import opened Translation

  /** One count: what the target holds of a node, or what the node's owner does. */
  datatype Key = Key(local: bool, node: Nid, strong: bool)

  function Count(s: State, p: Pid, k: Key): int {
    if k.local then (if k.strong then LocalStrong(s, k.node) else LocalWeak(s, k.node))
    else (if k.strong then Strong(s, p, k.node) else Weak(s, p, k.node))
  }

  /** The count that object `o`, which denotes node `n`, stands for. */
  function KeyOf(o: Object, n: Nid): Key
    requires !o.OtherObject?
  {
    Key(o.BinderObject?, n, o.strong)
  }

  /** Every count that process `q`, or the owner of a node, has. */
  ghost predicate SameCount(s: State, s2: State, q: Pid, j: Key) {
    Count(s2, q, j) == Count(s, q, j)
  }

  /** The two states differ at most in count `k` of process `p`. */
  ghost predicate SameCountsBut(s: State, s2: State, p: Pid, k: Key) {
    forall q: Pid, j: Key {:trigger SameCount(s, s2, q, j)} | j != k || (q != p && !j.local) :: SameCount(s, s2, q, j)
  }

  ghost predicate SameCounts(s: State, s2: State) {
    forall q: Pid, j: Key {:trigger SameCount(s, s2, q, j)} :: SameCount(s, s2, q, j)
  }

  lemma SameCountsThen(s: State, s1: State, s2: State, p: Pid, k: Key)
    requires SameCounts(s, s1) && SameCountsBut(s1, s2, p, k)
    ensures SameCountsBut(s, s2, p, k) && Count(s1, p, k) == Count(s, p, k)
  {
    assert SameCount(s, s1, p, k);
    forall q: Pid, j: Key | j != k || (q != p && !j.local)
      ensures SameCount(s, s2, q, j)
    {
      assert SameCount(s, s1, q, j) && SameCount(s1, s2, q, j);
    }
  }

  lemma SameCountsAfter(s: State, s1: State, s2: State, p: Pid, k: Key)
    requires SameCountsBut(s, s1, p, k) && SameCounts(s1, s2)
    ensures SameCountsBut(s, s2, p, k) && Count(s2, p, k) == Count(s1, p, k)
  {
    assert SameCount(s1, s2, p, k);
    forall q: Pid, j: Key | j != k || (q != p && !j.local)
      ensures SameCount(s, s2, q, j)
    {
      assert SameCount(s, s1, q, j) && SameCount(s1, s2, q, j);
    }
  }

  // ----- what translating an object does to the counts

  /** Count `k` of process `p` is one more, unless it was a reference's first and refused; `listed` as for IncNode. */
  ghost predicate Raised(s: State, s2: State, p: Pid, k: Key, listed: bool) {
    && SameCountsBut(s, s2, p, k)
    && Count(s2, p, k) == Count(s, p, k) + if IsRefused(s, p, k, listed) then 0 else 1
  }

  predicate IsRefused(s: State, p: Pid, k: Key, listed: bool) {
    !listed && !k.local && Count(s, p, k) == 0 && k.node in s.nodes && Refuses(s, k.node, k.strong)
  }

  lemma IncRefCounts(s: State, r: Rid, strong: bool, listed: bool)
    requires Inv(s) && r in s.refs && s.refs[r].node in s.nodes
    ensures Raised(s, IncRef(s, r, strong, listed), s.refs[r].proc, Key(false, s.refs[r].node, strong), listed)
  {
    assert RefOk(s, r);
    var s2 := IncRef(s, r, strong, listed);
    forall q: Pid, j: Key | j != Key(false, s.refs[r].node, strong) || (q != s.refs[r].proc && !j.local)
      ensures SameCount(s, s2, q, j)
    {
      IndexDistinct(s, q, j.node, r);
    }
  }

  /** Only the index entry of reference `r`'s own process and node leads to `r`. */
  lemma IndexDistinct(s: State, q: Pid, n: Nid, r: Rid)
    requires Inv(s) && r in s.refs
    ensures q in s.procs && n in s.procs[q].byNode && s.procs[q].byNode[n] == r ==>
        q == s.refs[r].proc && n == s.refs[r].node
  {
    if q in s.procs {
      assert ProcOk(s, q);
    }
  }

  lemma NewRefCounts(s: State, p: Pid, n: Nid)
    requires Inv(s) && p in s.procs && n in s.nodes && n !in s.procs[p].byNode
    ensures SameCounts(s, NewRef(s, p, n))
  {
    NextIdIsFresh(s);
    var s2 := NewRef(s, p, n);
    forall q: Pid, j: Key
      ensures SameCount(s, s2, q, j)
    {
      if q in s.procs {
        assert ProcOk(s, q);
      }
    }
  }

  lemma SendersNodeCounts(s: State, sender: Pid, ptr: Ptr, cookie: Ptr, mem: Memory)
    requires Inv(s) && sender in s.procs && SendersNode(s, sender, ptr, cookie, mem).Some?
    ensures SameCounts(s, SendersNode(s, sender, ptr, cookie, mem).value)
  {
    NextIdIsFresh(s);
  }

  lemma ReferCounts(s: State, p: Pid, n: Nid, strong: bool, listed: bool, mem: Memory)
    requires Inv(s) && p in s.procs && n in s.nodes
    ensures var t := Refer(s, p, n, strong, listed, mem);
            if t.0 then Raised(s, t.1, p, Key(false, n, strong), listed) else SameCounts(s, t.1)
  {
    assert ProcOk(s, p);
    if n in s.procs[p].byNode {
      IncRefCounts(s, s.procs[p].byNode[n], strong, listed);
    } else if mem.ref {
      var s1 := NewRef(s, p, n);
      NewRefCounts(s, p, n);
      NewRefInv(s, p, n);
      IncRefCounts(s1, s.nextId, strong, listed);
      SameCountsThen(s, s1, IncRef(s1, s.nextId, strong, listed), p, Key(false, n, strong));
    }
  }

  /** What came of translating one object: an object that stands for one more count, or no change. */
  ghost predicate Counts(s: State, target: Pid, t: (bool, State, Object), listed: bool) {
    if t.0 then
      && !t.2.OtherObject? && Denotes(t.1, target, t.2).Some?
      && Raised(s, t.1, target, KeyOf(t.2, Denotes(t.1, target, t.2).value), listed)
    else SameCounts(s, t.1)
  }

  lemma OwnerCounts(s: State, sender: Pid, target: Pid, o: Object, mem: Memory)
    requires Inv(s) && sender in s.procs && target in s.procs && o.BinderObject?
    ensures Counts(s, target, FromOwner(s, sender, target, o.strong, o.ptr, o.cookie, mem), true)
  {
    SendersNodeInv(s, sender, o.ptr, o.cookie, mem);
    var s1 := SendersNode(s, sender, o.ptr, o.cookie, mem);
    if s1.Some? {
      SendersNodeCounts(s, sender, o.ptr, o.cookie, mem);
      var n := s1.value.procs[sender].nodes[o.ptr];
      if o.cookie == s1.value.nodes[n].cookie {
        ReferredCounts(s, s1.value, target, n, o.strong, true, mem);
      }
    }
  }

  lemma ReferredCounts(s: State, s1: State, p: Pid, n: Nid, strong: bool, listed: bool, mem: Memory)
    requires Inv(s1) && p in s1.procs && n in s1.nodes && SameCounts(s, s1) && (listed || s1 == s)
    ensures Counts(s, p, Refer(s1, p, n, strong, listed, mem), listed)
  {
    var t := Refer(s1, p, n, strong, listed, mem);
    ReferCounts(s1, p, n, strong, listed, mem);
    ReferGrows(s1, p, n, strong, listed, mem);
    if t.0 {
      SameCountsThen(s, s1, t.1, p, Key(false, n, strong));
    } else {
      SameCountsTransitive(s, s1, t.1);
    }
  }

  lemma SameCountsTransitive(s: State, s1: State, s2: State)
    requires SameCounts(s, s1) && SameCounts(s1, s2)
    ensures SameCounts(s, s2)
  {
    forall q: Pid, j: Key
      ensures SameCount(s, s2, q, j)
    {
      assert SameCount(s, s1, q, j) && SameCount(s1, s2, q, j);
    }
  }

  lemma HolderCounts(s: State, sender: Pid, target: Pid, o: Object, mem: Memory)
    requires Inv(s) && sender in s.procs && target in s.procs && o.HandleObject?
    ensures Counts(s, target, FromHolder(s, sender, target, o.strong, o.handle, mem), false)
  {
    assert ProcOk(s, sender);
    if o.handle in s.procs[sender].byDesc {
      assert RefOk(s, s.procs[sender].byDesc[o.handle]);
      var n := s.refs[s.procs[sender].byDesc[o.handle]].node;
      if s.nodes[n].proc == Some(target) {
        assert NodeOk(s, n);
        LocalRaised(s, target, n, o.strong, s.mgr == Some(n));
      } else {
        ReferredCounts(s, s, target, n, o.strong, false, mem);
      }
    }
  }

  lemma LocalRaised(s: State, p: Pid, n: Nid, strong: bool, isMgr: bool)
    requires n in s.nodes
    ensures Raised(s, s.(nodes := s.nodes[n := IncNode(s.nodes[n], strong, false, false, isMgr).1]), p,
                   Key(true, n, strong), false)
  {
  }

  /**
    An object that arrived adds one to its count; only for one that was sent as a handle,
    and is the target's first of its kind, can that be refused.
   */
  lemma TranslateCounts(s: State, sender: Pid, target: Pid, o: Object, mem: Memory)
    requires Inv(s) && sender in s.procs && target in s.procs
    ensures Counts(s, target, Translate(s, sender, target, o, mem), o.BinderObject?)
  {
    match o
    case BinderObject(_, _, _) => OwnerCounts(s, sender, target, o, mem);
    case HandleObject(_, _) => HolderCounts(s, sender, target, o, mem);
    case OtherObject =>
  }

  /** When an owner's object is the target's first of its kind, the owner has been told of a count or is about to be. */
  lemma SentIsQueued(s: State, sender: Pid, target: Pid, o: Object, mem: Memory)
    requires Inv(s) && sender in s.procs && target in s.procs && o.BinderObject?
    ensures var t := Translate(s, sender, target, o, mem);
            t.0 ==> var n := Denotes(t.1, target, t.2);
                    && n.Some? && n.value in t.1.nodes
                    && (Count(s, target, Key(false, n.value, o.strong)) == 0 ==>
                          t.1.nodes[n.value].queued
                          || (if o.strong then t.1.nodes[n.value].hasStrong else t.1.nodes[n.value].hasWeak))
  {
    TranslateKeepsIdentity(s, sender, target, o, mem);
    SendersNodeInv(s, sender, o.ptr, o.cookie, mem);
    var s1 := SendersNode(s, sender, o.ptr, o.cookie, mem);
    if s1.Some? {
      SendersNodeCounts(s, sender, o.ptr, o.cookie, mem);
      var n := s1.value.procs[sender].nodes[o.ptr];
      assert SameCount(s, s1.value, target, Key(false, n, o.strong));
      if o.cookie == s1.value.nodes[n].cookie {
        ReferGrows(s1.value, target, n, o.strong, true, mem);
        ReferQueues(s1.value, target, n, o.strong, mem);
      }
    }
  }

  lemma ReferQueues(s: State, p: Pid, n: Nid, strong: bool, mem: Memory)
    requires Inv(s) && p in s.procs && n in s.nodes
    ensures var t := Refer(s, p, n, strong, true, mem);
            t.0 && Count(s, p, Key(false, n, strong)) == 0 ==>
              && n in t.1.nodes
              && (t.1.nodes[n].queued || (if strong then t.1.nodes[n].hasStrong else t.1.nodes[n].hasWeak))
  {
    assert ProcOk(s, p);
    if n in s.procs[p].byNode {
      assert RefOk(s, s.procs[p].byNode[n]);
    }
  }

  // ----- what releasing an object does to the counts

  /** Lines 1260-1304: one object of a buffer of process `p`. */
  function ReleaseObject(s: State, p: Pid, o: Object): State
    requires Inv(s)
  {
    match o
    case BinderObject(strong, ptr, _) =>
      if p in s.procs && ptr in s.procs[p].nodes then
        assert ProcOk(s, p);
        DecNode(s, s.procs[p].nodes[ptr], strong, false)
      else s
    case HandleObject(strong, h) =>
      if p in s.procs && h in s.procs[p].byDesc then
        assert ProcOk(s, p);
        assert RefOk(s, s.procs[p].byDesc[h]);
        DecRef(s, s.procs[p].byDesc[h], strong)
      else s
    case OtherObject => s
  }

  /** A count that is already zero stays zero. */
  function Less(c: int, m: nat): int {
    if c < m && 0 < m then 0 else c - m
  }

  ghost predicate LoweredBy(s: State, s2: State, p: Pid, k: Key, c: int) {
    Inv(s2) && Grows(s2, s) && SameCountsBut(s, s2, p, k) && Count(s2, p, k) == c
  }

  /** Freeing a node without local counts changes no count. */
  lemma FreeNodeCounts(s: State, n: Nid)
    requires Counted(s, {n}) && n in s.nodes && s.nodes[n].refs == {}
    requires s.nodes[n].localStrong == 0 && s.nodes[n].localWeak == 0
    ensures Inv(FreeNode(s, n)) && SameCounts(s, FreeNode(s, n)) && Grows(FreeNode(s, n), s)
  {
    FreeNodeInv(s, n);
  }

  /** Setting a node's counts and flags, one local count `k` apart, changes no other count. */
  lemma NodeSetCounts(s: State, p: Pid, n: Nid, d: Node, strong: bool)
    requires Inv(s) && n in s.nodes && s.nodes[n].proc.Some?
    requires d == Decremented(s.nodes[n], strong, false) || d == Decremented(s.nodes[n], strong, false).(queued := true)
    ensures var k := Key(true, n, strong); LoweredBy(s, s.(nodes := s.nodes[n := d]), p, k, Count(s, p, k) - 1)
  {
    NodeUpdateInv(s, n, d, {});
  }

  lemma DecLocalFrees(s: State, s1: State, p: Pid, n: Nid, strong: bool)
    requires Inv(s) && n in s.nodes && s.nodes[n].proc.Some?
    requires s1 == s.(nodes := s.nodes[n := Decremented(s.nodes[n], strong, false)])
    requires LoweredBy(s, s1, p, Key(true, n, strong), Count(s, p, Key(true, n, strong)) - 1)
    requires DecFate(s1.nodes[n], strong) == Freed
    ensures var k := Key(true, n, strong); LoweredBy(s, FreeNode(s, n), p, k, Count(s, p, k) - 1)
  {
    CountedWeakens(s1, n);
    FreeNodeCounts(s1, n);
    assert s1.nodes - {n} == s.nodes - {n};
    assert FreeNode(s1, n) == FreeNode(s, n);
    SameCountsAfter(s, s1, FreeNode(s1, n), p, Key(true, n, strong));
    GrowsTransitive(FreeNode(s1, n), s1, s);
  }

  lemma DecLocalCounts(s: State, p: Pid, n: Nid, strong: bool)
    requires Inv(s) && n in s.nodes && s.nodes[n].proc.Some?
    ensures var k := Key(true, n, strong); LoweredBy(s, DecNode(s, n, strong, false), p, k, Count(s, p, k) - 1)
  {
    var d := Decremented(s.nodes[n], strong, false);
    NodeSetCounts(s, p, n, d, strong);
    match DecFate(d, strong)
    case Kept =>
    case Queued => NodeSetCounts(s, p, n, d.(queued := true), strong);
    case Freed => DecLocalFrees(s, s.(nodes := s.nodes[n := d]), p, n, strong);
  }

  lemma CountedWeakens(s: State, n: Nid)
    requires Inv(s)
    ensures Counted(s, {n})
  {
    forall m | m in s.nodes && m !in {n}
      ensures Anchored(s, m)
    {
      assert m !in {};
    }
  }

  lemma LoweredCounts(s: State, r: Rid, f1: Ref, strong: bool)
    requires Inv(s) && r in s.refs && s.refs[r].node in s.nodes
    requires f1 == if strong then s.refs[r].(strong := f1.strong) else s.refs[r].(weak := f1.weak)
    requires f1.strong <= s.refs[r].strong
    ensures var k := Key(false, s.refs[r].node, strong);
            LoweredBy(s, Lowered(s, r, f1), s.refs[r].proc, k, if strong then f1.strong else f1.weak)
  {
    LoweredInv(s, r, f1);
    assert RefOk(s, r);
    var s2 := Lowered(s, r, f1);
    forall q: Pid, j: Key | j != Key(false, s.refs[r].node, strong) || (q != s.refs[r].proc && !j.local)
      ensures SameCount(s, s2, q, j)
    {
      IndexDistinct(s, q, j.node, r);
    }
  }

  /** Deleting a reference without counts changes no count. */
  lemma UnlinkCounts(s: State, r: Rid)
    requires Inv(s) && r in s.refs && s.refs[r].node in s.nodes && s.refs[r].proc in s.procs
    requires s.refs[r].strong == 0 && s.refs[r].weak == 0
    ensures SameCounts(s, Unlink(s, r)) && Grows(Unlink(s, r), s)
  {
    assert RefOk(s, r);
    var s2 := Unlink(s, r);
    forall q: Pid, j: Key
      ensures SameCount(s, s2, q, j)
    {
      IndexDistinct(s, q, j.node, r);
    }
  }

  lemma DeleteRefCounts(s: State, r: Rid)
    requires Inv(s) && r in s.refs && s.refs[r].node in s.nodes && s.refs[r].proc in s.procs
    requires s.refs[r].strong == 0 && s.refs[r].weak == 0
    ensures Inv(DeleteRef(s, r)) && SameCounts(s, DeleteRef(s, r)) && Grows(DeleteRef(s, r), s)
  {
    var n := s.refs[r].node;
    var s1 := Unlink(s, r);
    UnlinkCounted(s, r);
    UnlinkCounts(s, r);
    DeleteRefInv(s, r);
    WeakDecCounts(s1, n);
    SameCountsTransitive(s, s1, DeleteRef(s, r));
    GrowsTransitive(DeleteRef(s, r), s1, s);
  }

  lemma WeakDecCounts(s: State, n: Nid)
    requires Counted(s, {n}) && n in s.nodes
    ensures SameCounts(s, DecNode(s, n, false, true)) && Grows(DecNode(s, n, false, true), s)
  {
    var d := s.nodes[n];
    assert Decremented(d, false, true) == d;
    if DecFate(d, false) == Freed {
      FreeNodeCounts(s, n);
    }
  }

  lemma DecRefCounts(s: State, r: Rid, strong: bool)
    requires Inv(s) && r in s.refs && s.refs[r].node in s.nodes && s.refs[r].proc in s.procs
    ensures var k := Key(false, s.refs[r].node, strong); var p := s.refs[r].proc;
            LoweredBy(s, DecRef(s, r, strong), p, k, Less(Count(s, p, k), 1))
  {
    var f := s.refs[r];
    var k := Key(false, f.node, strong);
    assert RefOk(s, r);
    if (if strong then f.strong > 0 else f.weak > 0) {
      var f1 := if strong then f.(strong := f.strong - 1) else f.(weak := f.weak - 1);
      LoweredCounts(s, r, f1, strong);
      if f1.strong == 0 && f1.weak == 0 {
        var s1 := Lowered(s, r, f1);
        DeleteRefCounts(s1, r);
        SameCountsAfter(s, s1, DeleteRef(s1, r), f.proc, k);
        GrowsTransitive(DeleteRef(s1, r), s1, s);
      }
    }
  }

  // ----- count commands

  /**
    Lines 1768-1815: BC_INCREFS, BC_ACQUIRE, BC_RELEASE and BC_DECREFS, with the
    context manager's reference at hand.
   */
  function CountRef(s: State, p: Pid, desc: Desc, strong: bool, up: bool): State
    requires Inv(s) && p in s.procs && (s.mgr.Some? ==> s.mgr.value in s.nodes)
  {
    assert ProcOk(s, p);
    if desc == 0 && s.mgr.Some? && up then Refer(s, p, s.mgr.value, strong, false, Memory(true, true)).1
    else if desc !in s.procs[p].byDesc then s
    else
      var r := s.procs[p].byDesc[desc];
      assert RefOk(s, r);
      if up then IncRef(s, r, strong, false) else DecRef(s, r, strong)
  }
}
