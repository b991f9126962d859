/**
  Nodes, the references that processes hold to them, and the three indexes of a
  process.  Functions give what each counting operation does to the whole state;
  lemmas show that all of them keep the reference counts conserved.
 */
module NodeRefs {
  import opened Options

  type Pid = nat
  type Nid = nat   // a node
  type Rid = nat   // a reference
  type Desc = nat  // a handle
  type Ptr = nat   // an owner's pointer or cookie

  datatype Node = Node(
    proc: Option<Pid>,     // None once the owner is gone
    ptr: Ptr,
    cookie: Ptr,
    internalStrong: int,   // internal_strong_refs
    localStrong: int,
    localWeak: int,
    hasStrong: bool,
    hasWeak: bool,
    pendingStrong: bool,
    pendingWeak: bool,
    queued: bool,          // work.entry is on a todo list
    refs: set<Rid>)

  datatype Ref = Ref(proc: Pid, node: Nid, desc: Desc, strong: nat, weak: nat)

  datatype Proc = Proc(nodes: map<Ptr, Nid>, byDesc: map<Desc, Rid>, byNode: map<Nid, Rid>)

  /**
    `nextId` is above every identity in use, so an identity is never used twice;
    `everMgr` remembers the nodes that have been binder_context_mgr_node.
   */
  datatype State = State(
    nodes: map<Nid, Node>,
    refs: map<Rid, Ref>,
    procs: map<Pid, Proc>,
    mgr: Option<Nid>,
    nextId: nat,
    everMgr: set<Nid>)

  // ----- the invariant

  /** The references to node `n` that hold it strongly. */
  function StrongRefs(s: State, n: Nid): set<Rid>
    requires n in s.nodes
  {
    set r | r in s.nodes[n].refs && r in s.refs && s.refs[r].strong > 0
  }

  /** A reference is in its node's list and in both indexes of its process. */
  ghost predicate RefOk(s: State, r: Rid)
    requires r in s.refs
  {
    var f := s.refs[r];
    && r < s.nextId
    && f.node in s.nodes && r in s.nodes[f.node].refs
    && f.proc in s.procs
    && f.desc in s.procs[f.proc].byDesc && s.procs[f.proc].byDesc[f.desc] == r
    && f.node in s.procs[f.proc].byNode && s.procs[f.proc].byNode[f.node] == r
    && (f.desc == 0 ==> f.node in s.everMgr)
  }

  /** A node counts its strong references; without an owner it has no local counts. */
  ghost predicate NodeOk(s: State, n: Nid)
    requires n in s.nodes
  {
    var d := s.nodes[n];
    && n < s.nextId
    && (forall r | r in d.refs :: r in s.refs && s.refs[r].node == n)
    && d.internalStrong == |StrongRefs(s, n)|
    && match d.proc
       case Some(p) => p in s.procs && d.ptr in s.procs[p].nodes && s.procs[p].nodes[d.ptr] == n
       case None => d.localStrong == 0 && d.localWeak == 0
  }

  ghost predicate ProcOk(s: State, p: Pid)
    requires p in s.procs
  {
    var q := s.procs[p];
    && (forall d | d in q.byDesc :: q.byDesc[d] in s.refs && s.refs[q.byDesc[d]].proc == p
                                    && s.refs[q.byDesc[d]].desc == d)
    && (forall n | n in q.byNode :: q.byNode[n] in s.refs && s.refs[q.byNode[n]].proc == p
                                    && s.refs[q.byNode[n]].node == n)
    && (forall a | a in q.nodes :: q.nodes[a] in s.nodes && s.nodes[q.nodes[a]].proc == Some(p)
                                   && s.nodes[q.nodes[a]].ptr == a)
  }

  /** A node outlives its owner only while it has references. */
  ghost predicate Anchored(s: State, n: Nid)
    requires n in s.nodes
  {
    s.nodes[n].proc == None ==> s.nodes[n].refs != {}
  }

  /** Everything but that the nodes in `loose` are anchored. */
  ghost predicate Counted(s: State, loose: set<Nid>) {
    && (s.mgr.Some? ==> s.mgr.value in s.everMgr)
    && (forall r {:trigger RefOk(s, r)} | r in s.refs :: RefOk(s, r))
    && (forall n {:trigger NodeOk(s, n)} | n in s.nodes :: NodeOk(s, n))
    && (forall p {:trigger ProcOk(s, p)} | p in s.procs :: ProcOk(s, p))
    && (forall n {:trigger Anchored(s, n)} | n in s.nodes && n !in loose :: Anchored(s, n))
  }

  ghost predicate Inv(s: State) {
    Counted(s, {})
  }

  /** The two indexes of a process hold the same references, one for each node. */
  lemma IndexesAgree(s: State, p: Pid)
    requires Inv(s) && p in s.procs
    ensures s.procs[p].byDesc.Values == s.procs[p].byNode.Values
    ensures forall r1, r2 | r1 in s.refs && r2 in s.refs && s.refs[r1].proc == p && s.refs[r2].proc == p
                            && s.refs[r1].node == s.refs[r2].node :: r1 == r2
  {
    assert ProcOk(s, p);
    var q := s.procs[p];
    forall r | r in q.byDesc.Values
      ensures r in q.byNode.Values
    {
      assert RefOk(s, r);
    }
    forall r | r in q.byNode.Values
      ensures r in q.byDesc.Values
    {
      assert RefOk(s, r);
    }
    forall r1, r2 | r1 in s.refs && r2 in s.refs && s.refs[r1].proc == p && s.refs[r2].proc == p
        && s.refs[r1].node == s.refs[r2].node
      ensures r1 == r2
    {
      assert RefOk(s, r1) && RefOk(s, r2);
    }
  }

  // ----- what a process and an owner hold

  /** The strong count that process `p` holds on node `n`; none if it has no reference. */
  function Strong(s: State, p: Pid, n: Nid): nat {
    if p in s.procs && n in s.procs[p].byNode && s.procs[p].byNode[n] in s.refs
        then s.refs[s.procs[p].byNode[n]].strong else 0
  }

  function Weak(s: State, p: Pid, n: Nid): nat {
    if p in s.procs && n in s.procs[p].byNode && s.procs[p].byNode[n] in s.refs then s.refs[s.procs[p].byNode[n]].weak
        else 0
  }

  /** The local counts of node `n`; none once it is freed. */
  function LocalStrong(s: State, n: Nid): int {
    if n in s.nodes then s.nodes[n].localStrong else 0
  }

  function LocalWeak(s: State, n: Nid): int {
    if n in s.nodes then s.nodes[n].localWeak else 0
  }

  // ----- node counts

  /** binder_inc_node: `listed` tells whether a todo list was given. */
  function IncNode(d: Node, strong: bool, internal: bool, listed: bool, isMgr: bool): (r: (bool, Node)) {
    if strong then
      if internal && !listed && d.internalStrong == 0 && !(isMgr && d.hasStrong) then (false, d)
      else
        var d1 := if internal then d.(internalStrong := d.internalStrong + 1) else d.(localStrong := d.localStrong + 1);
        (true, if !d.hasStrong && listed then d1.(queued := true) else d1)
    else
      var d1 := if internal then d else d.(localWeak := d.localWeak + 1);
      if !d.hasWeak && !d.queued then
        if !listed then (false, d1) else (true, d1.(queued := true))
      else (true, d1)
  }

  /** Without a list to queue the node on, a first count of its kind is refused to a reference. */
  predicate Refuses(s: State, n: Nid, strong: bool)
    requires n in s.nodes
  {
    var d := s.nodes[n];
    if strong then d.internalStrong == 0 && !(s.mgr == Some(n) && d.hasStrong) else !d.hasWeak && !d.queued
  }

  /**
    An increment of node `d`, which becomes `d2`: one more of the count named, also when
    a weak one is refused for want of a list, and the node is queued when a list was
    given and the owner has not been told of the kind.
   */
  ghost predicate Incremented(d: Node, d2: Node, ok: bool, strong: bool, internal: bool, listed: bool, isMgr: bool) {
    && (!ok <==> !listed && if strong then internal && d.internalStrong == 0 && !(isMgr && d.hasStrong)
                            else !d.hasWeak && !d.queued)
    && d2 == d.(internalStrong := d2.internalStrong, localStrong := d2.localStrong, localWeak := d2.localWeak,
                queued := d2.queued)
    && d2.internalStrong == d.internalStrong + (if ok && strong && internal then 1 else 0)
    && d2.localStrong == d.localStrong + (if strong && !internal then 1 else 0)
    && d2.localWeak == d.localWeak + (if !strong && !internal then 1 else 0)
    && (d2.queued <==> d.queued || (listed && !(if strong then d.hasStrong else d.hasWeak)))
  }

  lemma IncNodeIs(d: Node, strong: bool, internal: bool, listed: bool, isMgr: bool)
    ensures var r := IncNode(d, strong, internal, listed, isMgr);
        Incremented(d, r.1, r.0, strong, internal, listed, isMgr)
  {
  }

  /** What binder_dec_node does after the counts: the node stays, is queued for its owner, or is freed. */
  datatype Fate = Kept | Queued | Freed

  function DecFate(d: Node, strong: bool): Fate {
    if strong && (d.localStrong != 0 || d.internalStrong != 0) then Kept
    else if !strong && (d.localWeak != 0 || d.refs != {}) then Kept
    else if d.proc.Some? && (d.hasStrong || d.hasWeak) then Queued
    else if d.refs == {} && d.localStrong == 0 && d.localWeak == 0 then Freed
    else Kept
  }

  function Decremented(d: Node, strong: bool, internal: bool): Node {
    if strong then
      if internal then d.(internalStrong := d.internalStrong - 1) else d.(localStrong := d.localStrong - 1)
    else
      if internal then d else d.(localWeak := d.localWeak - 1)
  }

  /** kfree(node), after it left its owner's tree or the list of dead nodes. */
  function FreeNode(s: State, n: Nid): State
    requires n in s.nodes
  {
    var d := s.nodes[n];
    var procs := if d.proc.Some? && d.proc.value in s.procs
                 then s.procs[d.proc.value := s.procs[d.proc.value].(nodes := s.procs[d.proc.value].nodes - {d.ptr})]
                 else s.procs;
    s.(nodes := s.nodes - {n}, procs := procs)
  }

  /** binder_dec_node */
  function DecNode(s: State, n: Nid, strong: bool, internal: bool): State
    requires n in s.nodes
  {
    var d := Decremented(s.nodes[n], strong, internal);
    match DecFate(d, strong)
    case Kept => s.(nodes := s.nodes[n := d])
    case Queued => s.(nodes := s.nodes[n := d.(queued := true)])
    case Freed => FreeNode(s, n)
  }

  /**
    A decrement of node `n`: one less of the count named.  When none of the kind is left
    the node is queued if its owner was told of a count; if not, it is freed, once nothing
    else is counted and nothing refers to it.
   */
  ghost predicate WasDecremented(s: State, s2: State, n: Nid, strong: bool, internal: bool)
    requires n in s.nodes
  {
    var d := s.nodes[n];
    var si := d.internalStrong - (if strong && internal then 1 else 0);
    var ls := d.localStrong - (if strong && !internal then 1 else 0);
    var lw := d.localWeak - (if !strong && !internal then 1 else 0);
    var none := if strong then ls == 0 && si == 0 else lw == 0 && d.refs == {};
    var told := d.proc.Some? && (d.hasStrong || d.hasWeak);
    && s2.refs == s.refs && s2.mgr == s.mgr && s2.nodes - {n} == s.nodes - {n}
    && (n !in s2.nodes <==> none && !told && d.refs == {} && ls == 0 && lw == 0)
    && (n in s2.nodes ==> s2.procs == s.procs
                          && s2.nodes[n] == d.(localStrong := ls, localWeak := lw, internalStrong := si,
                                               queued := d.queued || (none && told)))
    && (n !in s2.nodes ==> s2.procs.Keys == s.procs.Keys && forall p | p in s.procs ::
          s2.procs[p] == if d.proc == Some(p) then s.procs[p].(nodes := s.procs[p].nodes - {d.ptr}) else s.procs[p])
  }

  lemma DecNodeIs(s: State, n: Nid, strong: bool, internal: bool)
    requires n in s.nodes
    ensures WasDecremented(s, DecNode(s, n, strong, internal), n, strong, internal)
  {
    var d := Decremented(s.nodes[n], strong, internal);
    match DecFate(d, strong)
    case Kept => SetIs(s.nodes, n, d);
    case Queued => SetIs(s.nodes, n, d.(queued := true));
    case Freed => FreedIs(s, n);
  }

  lemma SetIs(nodes: map<Nid, Node>, n: Nid, d: Node)
    requires n in nodes
    ensures nodes[n := d] - {n} == nodes - {n}
  {
  }

  lemma FreedIs(s: State, n: Nid)
    requires n in s.nodes
    ensures var s2 := FreeNode(s, n); var d := s.nodes[n];
            && s2.refs == s.refs && s2.mgr == s.mgr && s2.nodes == s.nodes - {n} && s2.procs.Keys == s.procs.Keys
            && forall p | p in s.procs ::
                 s2.procs[p] == if d.proc == Some(p) then s.procs[p].(nodes := s.procs[p].nodes - {d.ptr})
                     else s.procs[p]
  {
  }

  lemma FreeNodeInv(s: State, n: Nid)
    requires Counted(s, {n}) && n in s.nodes && s.nodes[n].refs == {}
    ensures Inv(FreeNode(s, n))
  {
    var s2 := FreeNode(s, n);
    var d := s.nodes[n];
    assert NodeOk(s, n);
    forall r | r in s2.refs
      ensures RefOk(s2, r)
    {
      assert RefOk(s, r);
    }
    forall m | m in s2.nodes
      ensures NodeOk(s2, m) && Anchored(s2, m)
    {
      FreedOther(s, n, m);
    }
    forall p | p in s2.procs
      ensures ProcOk(s2, p)
    {
      assert ProcOk(s, p);
    }
  }

  lemma FreedOther(s: State, n: Nid, m: Nid)
    requires Counted(s, {n}) && n in s.nodes && s.nodes[n].refs == {} && m in s.nodes && m != n
    ensures NodeOk(FreeNode(s, n), m) && Anchored(FreeNode(s, n), m)
  {
    assert NodeOk(s, m) && Anchored(s, m) && NodeOk(s, n);
    assert StrongRefs(FreeNode(s, n), m) == StrongRefs(s, m);
  }

  /** Changing a node's counts and flags, but not its links, keeps the invariant. */
  lemma NodeUpdateInv(s: State, n: Nid, d: Node, loose: set<Nid>)
    requires Counted(s, loose) && n in s.nodes
    requires d.proc == s.nodes[n].proc && d.ptr == s.nodes[n].ptr && d.refs == s.nodes[n].refs
    requires d.internalStrong == s.nodes[n].internalStrong
    requires d.proc == None ==> d.localStrong == 0 && d.localWeak == 0
    ensures Counted(s.(nodes := s.nodes[n := d]), loose)
  {
    var s2 := s.(nodes := s.nodes[n := d]);
    forall r | r in s2.refs
      ensures RefOk(s2, r)
    {
      assert RefOk(s, r);
    }
    forall m | m in s2.nodes
      ensures NodeOk(s2, m) && (m !in loose ==> Anchored(s2, m))
    {
      assert NodeOk(s, m) && (m !in loose ==> Anchored(s, m));
      assert StrongRefs(s2, m) == StrongRefs(s, m);
    }
    forall p | p in s2.procs
      ensures ProcOk(s2, p)
    {
      assert ProcOk(s, p);
    }
  }

  /** Decrements on the owner's behalf keep the counts conserved, and free the node only when nothing refers to it. */
  lemma DecLocalInv(s: State, n: Nid, strong: bool)
    requires Inv(s) && n in s.nodes && s.nodes[n].proc.Some?
    ensures Inv(DecNode(s, n, strong, false))
    ensures n !in DecNode(s, n, strong, false).nodes ==> s.nodes[n].refs == {}
  {
    var d := Decremented(s.nodes[n], strong, false);
    match DecFate(d, strong)
    case Kept => NodeUpdateInv(s, n, d, {});
    case Queued => NodeUpdateInv(s, n, d.(queued := true), {});
    case Freed => FreeNodeInv(s, n);
  }

  lemma IncLocalInv(s: State, n: Nid, strong: bool, listed: bool, isMgr: bool)
    requires Inv(s) && n in s.nodes && s.nodes[n].proc.Some?
    ensures Inv(s.(nodes := s.nodes[n := IncNode(s.nodes[n], strong, false, listed, isMgr).1]))
  {
    NodeUpdateInv(s, n, IncNode(s.nodes[n], strong, false, listed, isMgr).1, {});
  }

  // ----- reference counts

  /** binder_inc_ref; a failed increment of the node leaves the reference as it is. */
  function IncRef(s: State, r: Rid, strong: bool, listed: bool): State
    requires r in s.refs && s.refs[r].node in s.nodes
  {
    var f := s.refs[r];
    var n := f.node;
    var first := if strong then f.strong == 0 else f.weak == 0;
    var inc := IncNode(s.nodes[n], strong, true, listed, s.mgr == Some(n));
    if first && !inc.0 then s
    else
      var nodes := if first then s.nodes[n := inc.1] else s.nodes;
      s.(nodes := nodes, refs := s.refs[r := if strong then f.(strong := f.strong + 1) else f.(weak := f.weak + 1)])
  }

  lemma IncRefInv(s: State, r: Rid, strong: bool, listed: bool)
    requires Inv(s) && r in s.refs && s.refs[r].node in s.nodes
    ensures Inv(IncRef(s, r, strong, listed))
  {
    var s2 := IncRef(s, r, strong, listed);
    forall q | q in s2.refs
      ensures RefOk(s2, q)
    {
      assert RefOk(s, q);
    }
    forall m | m in s2.nodes
      ensures NodeOk(s2, m) && Anchored(s2, m)
    {
      IncRefNode(s, r, strong, listed, m);
    }
    forall p | p in s2.procs
      ensures ProcOk(s2, p)
    {
      assert ProcOk(s, p);
    }
  }

  lemma IncRefNode(s: State, r: Rid, strong: bool, listed: bool, m: Nid)
    requires Inv(s) && r in s.refs && s.refs[r].node in s.nodes && m in s.nodes
    ensures NodeOk(IncRef(s, r, strong, listed), m) && Anchored(IncRef(s, r, strong, listed), m)
  {
    var s2 := IncRef(s, r, strong, listed);
    assert RefOk(s, r) && NodeOk(s, m) && Anchored(s, m);
    if strong && s.refs[r].strong == 0 && s2.refs != s.refs && m == s.refs[r].node {
      assert r !in StrongRefs(s, m);
      assert StrongRefs(s2, m) == StrongRefs(s, m) + {r};
    } else {
      assert StrongRefs(s2, m) == StrongRefs(s, m);
    }
  }

  /** The reference leaves both indexes and its node's list, and takes its share of the strong count along. */
  function Unlink(s: State, r: Rid): State
    requires r in s.refs && s.refs[r].node in s.nodes && s.refs[r].proc in s.procs
  {
    var f := s.refs[r];
    var d := s.nodes[f.node];
    var q := s.procs[f.proc];
    var d1 := if f.strong > 0 then d.(internalStrong := d.internalStrong - 1) else d;
    var d2 := if f.strong > 0 && DecFate(d1, true) == Queued then d1.(queued := true) else d1;
    s.(refs := s.refs - {r},
       procs := s.procs[f.proc := q.(byDesc := q.byDesc - {f.desc}, byNode := q.byNode - {f.node})],
       nodes := s.nodes[f.node := d2.(refs := d2.refs - {r})])
  }

  /** binder_delete_ref */
  function DeleteRef(s: State, r: Rid): State
    requires r in s.refs && s.refs[r].node in s.nodes && s.refs[r].proc in s.procs
  {
    DecNode(Unlink(s, r), s.refs[r].node, false, true)
  }

  /** A node that has references stays when its last strong count goes. */
  lemma DecStays(s: State, n: Nid)
    requires n in s.nodes && s.nodes[n].refs != {}
    ensures var d := s.nodes[n].(internalStrong := s.nodes[n].internalStrong - 1);
            DecNode(s, n, true, true) ==
            s.(nodes := s.nodes[n := if DecFate(d, true) == Queued then d.(queued := true) else d])
  {
  }

  lemma UnlinkCounted(s: State, r: Rid)
    requires Inv(s) && r in s.refs && s.refs[r].node in s.nodes && s.refs[r].proc in s.procs
    ensures Counted(Unlink(s, r), {s.refs[r].node})
  {
    var s2 := Unlink(s, r);
    assert RefOk(s, r);
    forall q | q in s2.refs
      ensures RefOk(s2, q)
    {
      assert RefOk(s, q);
    }
    forall m | m in s2.nodes
      ensures NodeOk(s2, m) && (m != s.refs[r].node ==> Anchored(s2, m))
    {
      UnlinkNode(s, r, m);
    }
    forall p | p in s2.procs
      ensures ProcOk(s2, p)
    {
      assert ProcOk(s, p);
    }
  }

  lemma UnlinkNode(s: State, r: Rid, m: Nid)
    requires Inv(s) && r in s.refs && s.refs[r].node in s.nodes && s.refs[r].proc in s.procs && m in s.nodes
    ensures NodeOk(Unlink(s, r), m) && (m != s.refs[r].node ==> Anchored(Unlink(s, r), m))
  {
    var s2 := Unlink(s, r);
    assert RefOk(s, r) && NodeOk(s, m) && Anchored(s, m);
    if m == s.refs[r].node {
      assert r in StrongRefs(s, m) <==> s.refs[r].strong > 0;
      assert StrongRefs(s2, m) == StrongRefs(s, m) - {r};
    } else {
      assert StrongRefs(s2, m) == StrongRefs(s, m);
    }
  }

  /** Deleting a reference keeps the counts conserved, and frees the node only with its last reference. */
  lemma DeleteRefInv(s: State, r: Rid)
    requires Inv(s) && r in s.refs && s.refs[r].node in s.nodes && s.refs[r].proc in s.procs
    ensures Inv(DeleteRef(s, r))
    ensures s.refs[r].node !in DeleteRef(s, r).nodes ==> s.nodes[s.refs[r].node].refs == {r}
  {
    var n := s.refs[r].node;
    var s1 := Unlink(s, r);
    UnlinkCounted(s, r);
    assert RefOk(s, r) && NodeOk(s1, n) && Anchored(s, n);
    var d := s1.nodes[n];
    assert Decremented(d, false, true) == d;
    match DecFate(d, false)
    case Kept => NodeUpdateInv(s1, n, d, {n}); KeptIsAnchored(s1, n);
    case Queued => NodeUpdateInv(s1, n, d.(queued := true), {n}); KeptIsAnchored(DecNode(s1, n, false, true), n);
    case Freed => FreeNodeInv(s1, n);
  }

  /** A node that a weak decrement leaves in place is anchored. */
  lemma KeptIsAnchored(s: State, n: Nid)
    requires Counted(s, {n}) && n in s.nodes && DecFate(s.nodes[n], false) != Freed
    ensures Inv(s)
  {
    assert NodeOk(s, n);
    assert Anchored(s, n);
  }

  /** binder_dec_ref; a count that is already zero is an error, and nothing changes. */
  function DecRef(s: State, r: Rid, strong: bool): State
    requires r in s.refs && s.refs[r].node in s.nodes && s.refs[r].proc in s.procs
  {
    var f := s.refs[r];
    if (if strong then f.strong == 0 else f.weak == 0) then s
    else
      var f1 := if strong then f.(strong := f.strong - 1) else f.(weak := f.weak - 1);
      var s1 := Lowered(s, r, f1);
      if f1.strong == 0 && f1.weak == 0 then DeleteRef(s1, r) else s1
  }

  /** The reference's counts after the decrement, and the node's when the last strong count went. */
  function Lowered(s: State, r: Rid, f1: Ref): State
    requires r in s.refs && s.refs[r].node in s.nodes
  {
    var n := s.refs[r].node;
    var s1 := s.(refs := s.refs[r := f1]);
    if s.refs[r].strong > 0 && f1.strong == 0 then
      var d := s.nodes[n].(internalStrong := s.nodes[n].internalStrong - 1);
      s1.(nodes := s.nodes[n := if DecFate(d, true) == Queued then d.(queued := true) else d])
    else s1
  }

  lemma LoweredNode(s: State, r: Rid, f1: Ref, m: Nid)
    requires Inv(s) && r in s.refs && s.refs[r].node in s.nodes && m in s.nodes
    requires f1.proc == s.refs[r].proc && f1.node == s.refs[r].node && f1.desc == s.refs[r].desc
        && f1.strong <= s.refs[r].strong
    ensures NodeOk(Lowered(s, r, f1), m) && Anchored(Lowered(s, r, f1), m)
  {
    var s2 := Lowered(s, r, f1);
    assert RefOk(s, r) && NodeOk(s, m) && Anchored(s, m);
    if m == s.refs[r].node && s.refs[r].strong > 0 && f1.strong == 0 {
      assert StrongRefs(s2, m) == StrongRefs(s, m) - {r};
    } else {
      assert StrongRefs(s2, m) == StrongRefs(s, m);
    }
  }

  lemma LoweredRef(s: State, r: Rid, f1: Ref, q: Rid)
    requires Inv(s) && r in s.refs && s.refs[r].node in s.nodes && q in s.refs
    requires f1.proc == s.refs[r].proc && f1.node == s.refs[r].node && f1.desc == s.refs[r].desc
    ensures RefOk(Lowered(s, r, f1), q)
  {
    assert RefOk(s, q);
  }

  lemma LoweredInv(s: State, r: Rid, f1: Ref)
    requires Inv(s) && r in s.refs && s.refs[r].node in s.nodes
    requires f1.proc == s.refs[r].proc && f1.node == s.refs[r].node && f1.desc == s.refs[r].desc
        && f1.strong <= s.refs[r].strong
    ensures Inv(Lowered(s, r, f1))
  {
    var s2 := Lowered(s, r, f1);
    forall q | q in s2.refs
      ensures RefOk(s2, q)
    {
      LoweredRef(s, r, f1, q);
    }
    forall m | m in s2.nodes
      ensures NodeOk(s2, m) && Anchored(s2, m)
    {
      LoweredNode(s, r, f1, m);
    }
    forall p | p in s2.procs
      ensures ProcOk(s2, p)
    {
      LoweredProc(s, r, f1, p);
    }
  }

  lemma LoweredProc(s: State, r: Rid, f1: Ref, p: Pid)
    requires Inv(s) && r in s.refs && s.refs[r].node in s.nodes && p in s.procs
    requires f1.proc == s.refs[r].proc && f1.node == s.refs[r].node && f1.desc == s.refs[r].desc
    ensures ProcOk(Lowered(s, r, f1), p)
  {
    assert ProcOk(s, p);
  }

  lemma DecRefInv(s: State, r: Rid, strong: bool)
    requires Inv(s) && r in s.refs && s.refs[r].node in s.nodes && s.refs[r].proc in s.procs
    ensures Inv(DecRef(s, r, strong))
  {
    var f := s.refs[r];
    if (if strong then f.strong > 0 else f.weak > 0) {
      var f1 := if strong then f.(strong := f.strong - 1) else f.(weak := f.weak - 1);
      LoweredInv(s, r, f1);
      if f1.strong == 0 && f1.weak == 0 {
        DeleteRefInv(Lowered(s, r, f1), r);
      }
    }
  }

  // ----- what becomes of a reference and its node

  /** The owner of the node is there and was told of a count. */
  predicate OwnerKnows(d: Node) {
    d.proc.Some? && (d.hasStrong || d.hasWeak)
  }

  /**
    A deleted reference takes its strong share along.  The node goes with its last
    reference when it has no local counts and its owner knows of none; it is queued when
    an owner that knows of a count has none left of a kind.
   */
  lemma DeleteRefIs(s: State, r: Rid)
    requires Inv(s) && r in s.refs && s.refs[r].node in s.nodes && s.refs[r].proc in s.procs
    ensures var s2 := DeleteRef(s, r); var n := s.refs[r].node; var d := s.nodes[n];
            var last := d.refs == {r} && d.localWeak == 0;
            var lastStrong := s.refs[r].strong > 0 && d.internalStrong == 1 && d.localStrong == 0;
            && s2.refs == s.refs - {r}
            && (n !in s2.nodes <==> last && d.localStrong == 0 && !OwnerKnows(d))
            && (n in s2.nodes ==> s2.nodes[n].refs == d.refs - {r}
                                  && s2.nodes[n].queued == (d.queued || ((last || lastStrong) && OwnerKnows(d))))
  {
    var n := s.refs[r].node;
    var d := s.nodes[n];
    assert RefOk(s, r) && NodeOk(s, n);
    assert r in StrongRefs(s, n) <==> s.refs[r].strong > 0;
    if d.refs == {r} {
      assert StrongRefs(s, n) == if s.refs[r].strong > 0 then {r} else {};
    }
    assert d.refs - {r} == {} <==> d.refs == {r};
  }

  /** A decrement takes one from the count, if it is not zero; the reference goes when neither count is left. */
  lemma DecRefIs(s: State, r: Rid, strong: bool)
    requires Inv(s) && r in s.refs && s.refs[r].node in s.nodes && s.refs[r].proc in s.procs
    ensures var s2 := DecRef(s, r, strong); var f := s.refs[r];
            if (if strong then f.strong == 0 else f.weak == 0) then s2 == s
            else if f.strong + f.weak == 1 then s2.refs == s.refs - {r}
            else s2.refs == s.refs[r := if strong then f.(strong := f.strong - 1) else f.(weak := f.weak - 1)]
  {
    var f := s.refs[r];
    if if strong then f.strong > 0 else f.weak > 0 {
      var f1 := if strong then f.(strong := f.strong - 1) else f.(weak := f.weak - 1);
      LoweredInv(s, r, f1);
      if f1.strong == 0 && f1.weak == 0 {
        DeleteRefIs(Lowered(s, r, f1), r);
      }
    }
  }
}
