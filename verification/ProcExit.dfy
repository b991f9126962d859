/**
  What is left when a process goes: its nodes are freed or orphaned, its references
  are deleted, and other processes keep theirs.
 */
module ProcExit {
  import opened Options
  import opened NodeRefs
  import opened Handles
  import opened Persistence
  import opened OwnerProtocol

  /** A node without its owner, with no local counts and on no list. */
  function Orphan(d: Node): Node {
    d.(proc := None, localStrong := 0, localWeak := 0, queued := false)
  }

  /** binder_node_release of a node with references, which has left its owner's tree. */
  function OrphanNode(s: State, n: Nid): State
    requires n in s.nodes && s.nodes[n].proc.Some? && s.nodes[n].proc.value in s.procs
  {
    var d := s.nodes[n];
    var p := d.proc.value;
    s.(procs := s.procs[p := s.procs[p].(nodes := s.procs[p].nodes - {d.ptr})], nodes := s.nodes[n := Orphan(d)])
  }

  lemma OrphanInv(s: State, n: Nid)
    requires Inv(s) && n in s.nodes && s.nodes[n].proc.Some? && s.nodes[n].proc.value in s.procs
        && s.nodes[n].refs != {}
    ensures Inv(OrphanNode(s, n))
  {
    var s2 := OrphanNode(s, n);
    assert NodeOk(s, n);
    forall r | r in s2.refs
      ensures RefOk(s2, r)
    {
      assert RefOk(s, r);
    }
    forall m | m in s2.nodes
      ensures NodeOk(s2, m) && Anchored(s2, m)
    {
      OrphanOther(s, n, m);
    }
    forall p | p in s2.procs
      ensures ProcOk(s2, p)
    {
      assert ProcOk(s, p);
    }
  }

  lemma OrphanOther(s: State, n: Nid, m: Nid)
    requires Inv(s) && n in s.nodes && s.nodes[n].proc.Some? && s.nodes[n].proc.value in s.procs
        && s.nodes[n].refs != {}
    requires m in s.nodes
    ensures NodeOk(OrphanNode(s, n), m) && Anchored(OrphanNode(s, n), m)
  {
    assert NodeOk(s, m) && Anchored(s, m) && NodeOk(s, n);
    assert StrongRefs(OrphanNode(s, n), m) == StrongRefs(s, m);
  }

  /** A process without nodes and references can go. */
  lemma RemoveProcInv(s: State, p: Pid)
    requires Inv(s) && p in s.procs && s.procs[p].nodes == map[] && s.procs[p].byDesc == map[]
    ensures Inv(s.(procs := s.procs - {p}))
  {
    var s2 := s.(procs := s.procs - {p});
    forall r | r in s2.refs
      ensures RefOk(s2, r)
    {
      assert RefOk(s, r);
    }
    forall m | m in s2.nodes
      ensures NodeOk(s2, m) && Anchored(s2, m)
    {
      assert NodeOk(s, m) && Anchored(s, m);
      assert StrongRefs(s2, m) == StrongRefs(s, m);
    }
    forall q | q in s2.procs
      ensures ProcOk(s2, q)
    {
      assert ProcOk(s, q);
    }
  }

  lemma OpenInv(s: State, p: Pid)
    requires Inv(s) && p !in s.procs
    ensures Inv(s.(procs := s.procs[p := Proc(map[], map[], map[])]))
  {
    var s2 := s.(procs := s.procs[p := Proc(map[], map[], map[])]);
    forall r | r in s2.refs
      ensures RefOk(s2, r)
    {
      assert RefOk(s, r);
    }
    forall m | m in s2.nodes
      ensures NodeOk(s2, m) && Anchored(s2, m)
    {
      assert NodeOk(s, m) && Anchored(s, m);
      assert StrongRefs(s2, m) == StrongRefs(s, m);
    }
    forall q | q in s2.procs
      ensures ProcOk(s2, q)
    {
      assert q != p ==> ProcOk(s, q);
    }
  }

  /** binder_context_mgr_node, set or cleared. */
  lemma MgrInv(s: State, mgr: Option<Nid>)
    requires Inv(s)
    ensures Inv(s.(mgr := mgr, everMgr := if mgr.Some? then s.everMgr + {mgr.value} else s.everMgr))
  {
    var s2 := s.(mgr := mgr, everMgr := if mgr.Some? then s.everMgr + {mgr.value} else s.everMgr);
    forall r | r in s2.refs
      ensures RefOk(s2, r)
    {
      assert RefOk(s, r);
    }
    forall m | m in s2.nodes
      ensures NodeOk(s2, m) && Anchored(s2, m)
    {
      assert NodeOk(s, m) && Anchored(s, m);
      assert StrongRefs(s2, m) == StrongRefs(s, m);
    }
    forall q | q in s2.procs
      ensures ProcOk(s2, q)
    {
      assert ProcOk(s, q);
    }
  }

  /** BINDER_SET_CONTEXT_MGR: a new node of process `p` that counts itself once of each kind. */
  function Managed(s: State, p: Pid): State
    requires p in s.procs
  {
    var s1 := NewNode(s, p, 0, 0);
    var n := s.nextId;
    s1.(nodes := s1.nodes[n := Node(Some(p), 0, 0, 0, 1, 1, true, true, false, false, false, {})], mgr := Some(n),
        everMgr := s.everMgr + {n})
  }

  // ----- the two loops

  /** Between `s` and `s2` some of process `p`'s nodes were released, and nothing else happened. */
  ghost predicate NodesWent(s: State, s2: State, p: Pid) {
    && s2.refs == s.refs && s2.procs.Keys == s.procs.Keys && s2.everMgr == s.everMgr
    && (forall q | q in s.procs :: s2.procs[q].byDesc == s.procs[q].byDesc && s2.procs[q].byNode == s.procs[q].byNode
                                   && (q != p ==> s2.procs[q] == s.procs[q]))
    && (forall n | n in s2.nodes :: n in s.nodes
                                    && (s2.nodes[n] == s.nodes[n]
                                        || (s.nodes[n].proc == Some(p) && s2.nodes[n] == Orphan(s.nodes[n]))))
    && (forall n | n in s.nodes && n !in s2.nodes :: s.nodes[n].proc == Some(p) && s.nodes[n].refs == {})
  }

  /** One of the process's nodes. */
  lemma NodeWent(s: State, p: Pid, n: Nid)
    requires n in s.nodes && s.nodes[n].proc == Some(p) && p in s.procs && s.nodes[n].ptr in s.procs[p].nodes
    ensures var s2 := if s.nodes[n].refs == {} then FreeNode(s, n) else OrphanNode(s, n);
            NodesWent(s, s2, p) && s2.procs[p].nodes.Keys < s.procs[p].nodes.Keys
  {
    var s2 := if s.nodes[n].refs == {} then FreeNode(s, n) else OrphanNode(s, n);
    assert s2.procs[p].nodes.Keys == s.procs[p].nodes.Keys - {s.nodes[n].ptr};
  }

  /** Between `s` and `s2` some of process `p`'s references were deleted. */
  ghost predicate RefsWent(s: State, s2: State, p: Pid) {
    && s2.procs.Keys == s.procs.Keys && s2.everMgr == s.everMgr
    && (forall q | q in s.procs && q != p :: s2.procs[q].byDesc == s.procs[q].byDesc
                                             && s2.procs[q].byNode == s.procs[q].byNode)
    && (forall a | p in s.procs && a in s2.procs[p].nodes :: a in s.procs[p].nodes)
    && (forall r | r in s2.refs :: r in s.refs && s2.refs[r] == s.refs[r])
    && (forall r | r in s.refs && s.refs[r].proc != p :: r in s2.refs)
    && (forall n | n in s2.nodes :: n in s.nodes && s2.nodes[n].proc == s.nodes[n].proc
                                    && s2.nodes[n].ptr == s.nodes[n].ptr && s2.nodes[n].cookie == s.nodes[n].cookie
                                    && s2.nodes[n].localStrong == s.nodes[n].localStrong
                                    && s2.nodes[n].localWeak == s.nodes[n].localWeak
                                    && (s.nodes[n].proc == None ==> s2.nodes[n].queued == s.nodes[n].queued))
  }

  /** One of the process's references. */
  lemma RefWent(s: State, p: Pid, r: Rid)
    requires Inv(s) && r in s.refs && s.refs[r].proc == p && p in s.procs && s.refs[r].node in s.nodes
    ensures RefsWent(s, DeleteRef(s, r), p)
  {
    assert RefsWent(s, Unlink(s, r), p);
    WeakDecWent(Unlink(s, r), p, s.refs[r].node);
    RefsWentTransitive(s, Unlink(s, r), DeleteRef(s, r), p);
  }

  lemma NodesWentTransitive(s: State, s1: State, s2: State, p: Pid)
    requires NodesWent(s, s1, p) && NodesWent(s1, s2, p)
    ensures NodesWent(s, s2, p)
  {
  }

  lemma WeakDecWent(s: State, p: Pid, n: Nid)
    requires n in s.nodes
    ensures RefsWent(s, DecNode(s, n, false, true), p)
  {
    assert Decremented(s.nodes[n], false, true) == s.nodes[n];
  }

  lemma RefsWentTransitive(s: State, s1: State, s2: State, p: Pid)
    requires RefsWent(s, s1, p) && RefsWent(s1, s2, p)
    ensures RefsWent(s, s2, p)
  {
  }

  /** What is left of `s` when process `p` is gone. */
  ghost predicate Exited(s: State, s2: State, p: Pid) {
    && s2.procs.Keys == s.procs.Keys - {p}
    && (forall q | q in s2.procs :: s2.procs[q].byDesc == s.procs[q].byDesc && s2.procs[q].byNode == s.procs[q].byNode)
    && (forall r | r in s.refs :: r in s2.refs <==> s.refs[r].proc != p)
    && (forall r | r in s2.refs :: r in s.refs && s2.refs[r] == s.refs[r])
    && (forall n | n in s2.nodes :: n in s.nodes
                                    && s2.nodes[n].proc ==
                                        (if s.nodes[n].proc == Some(p) then None else s.nodes[n].proc))
    && (forall n | n in s2.nodes && s.nodes[n].proc == Some(p) ::
          !s2.nodes[n].queued && s2.nodes[n].localStrong == 0 && s2.nodes[n].localWeak == 0)
    && (forall n | n in s.nodes && (s.nodes[n].proc == None || s.nodes[n].proc == Some(p)) ::
          n in s2.nodes <==> exists r :: r in s.nodes[n].refs && r in s.refs && s.refs[r].proc != p)
  }

  lemma AllExited(s: State, s1: State, s2: State, s3: State, p: Pid)
    requires Inv(s) && Inv(s1) && Inv(s2) && p in s.procs
    requires NodesWent(s, s1, p) && s1.procs[p].nodes == map[]
    requires RefsWent(s1, s2, p) && s2.procs[p].byDesc == map[]
    requires s3 == s2.(procs := s2.procs - {p})
    ensures Exited(s, s3, p)
  {
    forall r | r in s.refs
      ensures r in s2.refs <==> s.refs[r].proc != p
    {
      if r in s2.refs {
        assert RefOk(s2, r);
      }
    }
    forall n | n in s2.nodes
      ensures s2.nodes[n].proc == (if s.nodes[n].proc == Some(p) then None else s.nodes[n].proc)
    {
      assert NodeOk(s1, n);
    }
    forall n | n in s2.nodes && s.nodes[n].proc == Some(p)
      ensures !s2.nodes[n].queued && s2.nodes[n].localStrong == 0 && s2.nodes[n].localWeak == 0
    {
      OrphansAreOff(s, s1, s2, p, n);
    }
    forall n | n in s.nodes && (s.nodes[n].proc == None || s.nodes[n].proc == Some(p))
      ensures n in s2.nodes <==> exists r :: r in s.nodes[n].refs && r in s.refs && s.refs[r].proc != p
    {
      Survives(s, s1, s2, p, n);
    }
  }

  /** What is left of the process's nodes is on no list and has no local counts. */
  lemma OrphansAreOff(s: State, s1: State, s2: State, p: Pid, n: Nid)
    requires Inv(s1) && NodesWent(s, s1, p) && p in s1.procs && s1.procs[p].nodes == map[] && RefsWent(s1, s2, p)
    requires n in s2.nodes && n in s.nodes && s.nodes[n].proc == Some(p)
    ensures !s2.nodes[n].queued && s2.nodes[n].localStrong == 0 && s2.nodes[n].localWeak == 0
  {
    assert NodeOk(s1, n);
  }

  lemma Survives(s: State, s1: State, s2: State, p: Pid, n: Nid)
    requires Inv(s) && Inv(s1) && Inv(s2) && p in s.procs
    requires NodesWent(s, s1, p) && s1.procs[p].nodes == map[]
    requires RefsWent(s1, s2, p) && s2.procs[p].byDesc == map[]
    requires n in s.nodes && (s.nodes[n].proc == None || s.nodes[n].proc == Some(p))
    ensures n in s2.nodes <==> exists r :: r in s.nodes[n].refs && r in s.refs && s.refs[r].proc != p
  {
    assert NodeOk(s, n);
    if n in s2.nodes {
      assert NodeOk(s1, n) && NodeOk(s2, n) && Anchored(s2, n);
      var r :| r in s2.nodes[n].refs;
      assert RefOk(s2, r) && RefOk(s, r);
      assert r in s.nodes[n].refs && r in s.refs && s.refs[r].proc != p;
    }
    if r :| r in s.nodes[n].refs && r in s.refs && s.refs[r].proc != p {
      assert r in s2.refs;
      assert RefOk(s2, r);
    }
  }

  lemma ExitPersists(s: State, s1: State, s2: State, s3: State, p: Pid)
    requires Inv(s) && s.nextId == s1.nextId == s2.nextId && NodesWent(s, s1, p) && RefsWent(s1, s2, p)
    requires s3.refs == s2.refs && s3.nodes == s2.nodes && s3.nextId == s2.nextId
    ensures Persists(s, s3)
  {
    NodesSetPersists(s, s1);
    RefsWentPersists(s1, s2, p);
    PersistsTransitive(s, s1, s2);
    NodesSetPersists(s2, s3);
    PersistsTransitive(s, s2, s3);
  }

  /** The owner of node `n` is another process than `p`, and notices nothing of what happened between `s` and `s2`. */
  ghost predicate OthersQuiet(s: State, s2: State, p: Pid) {
    forall n {:trigger QuietAt(s, s2, n)} | n in s.nodes && s.nodes[n].proc.Some? && s.nodes[n].proc != Some(p) ::
        QuietAt(s, s2, n)
  }

  lemma ExitQuiet(s: State, s1: State, s2: State, s3: State, p: Pid)
    requires Inv(s) && NodesWent(s, s1, p) && OwnersQuiet(s1, s2) && s3.nodes == s2.nodes
    ensures OthersQuiet(s, s3, p)
  {
    forall n | n in s.nodes && s.nodes[n].proc.Some? && s.nodes[n].proc != Some(p)
      ensures QuietAt(s, s3, n)
    {
      assert NodeOk(s, n);
      assert QuietAt(s1, s2, n);
    }
  }

  lemma RefsWentPersists(s: State, s2: State, p: Pid)
    requires s.nextId == s2.nextId && RefsWent(s, s2, p)
    ensures Persists(s, s2)
  {
  }

  /**
    The exit of a process keeps every count conserved, and whatever it leaves is as it
    was, but for the owner that is gone.  In `s0` the process is no longer the context manager.
   */
  lemma ExitFacts(s: State, s0: State, s1: State, s2: State, p: Pid)
    requires Inv(s) && Inv(s1) && Inv(s2) && p in s.procs && s.nextId == s1.nextId == s2.nextId
        && s0 == s.(mgr := s0.mgr)
    requires NodesWent(s0, s1, p) && s1.procs[p].nodes == map[]
    requires RefsWent(s1, s2, p) && s2.procs[p].byDesc == map[] && OwnersQuiet(s1, s2)
    ensures var s3 := s2.(procs := s2.procs - {p});
        Inv(s3) && Exited(s, s3, p) && Persists(s, s3) && OthersQuiet(s, s3, p)
  {
    var s3 := s2.(procs := s2.procs - {p});
    assert NodesWent(s, s1, p);
    RemoveProcInv(s2, p);
    AllExited(s, s1, s2, s3, p);
    ExitPersists(s, s1, s2, s3, p);
    ExitQuiet(s, s1, s2, s3, p);
  }
}
