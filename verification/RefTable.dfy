/**
  The global tables of nodes, references and processes, updated in place.  Each
  method does to them what a function of the old tables says.
 */
module RefTable {
  import opened Options
  import opened NodeRefs
  import opened Handles
  import opened Persistence
  import opened Translation
  import opened Release
  import opened Undo
  import opened ProcExit
  import OwnerProtocol

  /** Flags of a node do not show in the counts. */
  lemma FlagsDoNotCount(s: State, s1: State, s2: State, p: Pid, n: Nid, k: Key)
    requires n in s.nodes && n in s1.nodes && s1 == s.(nodes := s.nodes[n := s1.nodes[n]])
    requires var d := s.nodes[n]; var d1 := s1.nodes[n];
             && d1.localStrong == d.localStrong && d1.localWeak == d.localWeak
             && d1.proc == d.proc && d1.ptr == d.ptr && d1.cookie == d.cookie
    requires LoweredBy(s1, s2, p, k, Count(s1, p, k) - 1)
    ensures LoweredBy(s, s2, p, k, Count(s, p, k) - 1)
  {
    assert SameCounts(s, s1);
    SameCountsThen(s, s1, s2, p, k);
    assert Grows(s1, s);
    GrowsTransitive(s2, s1, s);
  }

  /** The handle of a deleted reference is free again, and no other. */
  lemma DeletedKeys(s: State, r: Rid)
    requires Inv(s) && r in s.refs && s.refs[r].node in s.nodes && s.refs[r].proc in s.procs
    ensures var p := s.refs[r].proc; var s2 := NodeRefs.DeleteRef(s, r);
            p in s2.procs && s.refs[r].desc in s.procs[p].byDesc
                && s2.procs[p].byDesc.Keys == s.procs[p].byDesc.Keys - {s.refs[r].desc}
  {
    assert RefOk(s, r);
    var p := s.refs[r].proc;
    assert Unlink(s, r).procs[p].byDesc.Keys == s.procs[p].byDesc.Keys - {s.refs[r].desc};
    assert NodeRefs.DeleteRef(s, r).procs[p].byDesc == Unlink(s, r).procs[p].byDesc;
  }

  /** An answer of the owner clears the pending flag and gives back one local count. */
  lemma AnswerFacts(s: State, p: Pid, n: Nid, strong: bool)
    requires Inv(s) && n in s.nodes && s.nodes[n].proc.Some?
    ensures var s1 := s.(nodes := s.nodes[n := OwnerProtocol.Answered(s.nodes[n], strong)]);
            var s2 := NodeRefs.DecNode(s1, n, strong, false);
            var k := Key(true, n, strong);
            && LoweredBy(s, s2, p, k, Count(s, p, k) - 1) && Persists(s, s2)
            && (n in s2.nodes ==> OwnerProtocol.ToldOf(s2.nodes[n]) == OwnerProtocol.ToldOf(s1.nodes[n]))
  {
    var d := OwnerProtocol.Answered(s.nodes[n], strong);
    var s1 := s.(nodes := s.nodes[n := d]);
    NodeUpdateInv(s, n, d, {});
    DecLocalCounts(s1, p, n, strong);
    AnswerPersists(s, s1, n, strong);
    FlagsDoNotCount(s, s1, NodeRefs.DecNode(s1, n, strong, false), p, n, Key(true, n, strong));
  }

  lemma AnswerPersists(s: State, s1: State, n: Nid, strong: bool)
    requires Inv(s) && n in s.nodes && s1 == s.(nodes := s.nodes[n := OwnerProtocol.Answered(s.nodes[n], strong)])
    ensures Persists(s, NodeRefs.DecNode(s1, n, strong, false))
    ensures n in NodeRefs.DecNode(s1, n, strong, false).nodes ==>
              OwnerProtocol.ToldOf(NodeRefs.DecNode(s1, n, strong, false).nodes[n]) == OwnerProtocol.ToldOf(s1.nodes[n])
  {
    NodesSetPersists(s, s1);
    DecNodePersists(s1, n, strong, false);
    PersistsTransitive(s, s1, NodeRefs.DecNode(s1, n, strong, false));
  }

  lemma WorkPersists(s: State, n: Nid)
    requires n in s.nodes
    ensures Persists(s, NodeRefs.FreeNode(s, n))
    ensures Persists(s, s.(nodes := s.nodes[n := OwnerProtocol.NodeWork(s.nodes[n])]))
  {
    NodesSetPersists(s, NodeRefs.FreeNode(s, n));
    NodesSetPersists(s, s.(nodes := s.nodes[n := OwnerProtocol.NodeWork(s.nodes[n])]));
  }

  class RefTable {
    var nodes: map<Nid, Node>
    var refs: map<Rid, Ref>
    var procs: map<Pid, Proc>
    var contextMgr: Option<Nid>
    var nextId: nat
    ghost var everMgr: set<Nid>
    ghost var made: set<Nid>   // every node there ever was
    ghost var freed: set<Nid>  // those that were freed

    ghost function View(): State
      reads this
    {
      State(nodes, refs, procs, contextMgr, nextId, everMgr)
    }

    /** Every node ever made is still there or was freed, not both, so none is freed twice. */
    ghost predicate Ledger()
      reads this
    {
      made == nodes.Keys + freed && nodes.Keys !! freed && forall n | n in made :: n < nextId
    }

    ghost predicate Valid()
      reads this
    {
      Inv(View()) && Ledger()
    }

    constructor ()
      ensures Valid() && View() == State(map[], map[], map[], None, 0, {}) && freed == {}
    {
      nodes, refs, procs, contextMgr, nextId := map[], map[], map[], None, 0;
      everMgr, made, freed := {}, {}, {};
    }

    // ----- nodes

    /** binder_inc_node */
    method IncNode(n: Nid, strong: bool, internal: bool, listed: bool) returns (ok: bool)
      requires n in nodes
      modifies `nodes
      ensures var r := NodeRefs.IncNode(old(nodes[n]), strong, internal, listed, contextMgr == Some(n));
              ok == r.0 && nodes == old(nodes)[n := r.1]
      ensures Incremented(old(nodes[n]), nodes[n], ok, strong, internal, listed, contextMgr == Some(n))
      ensures Persists(old(View()), View())
    {
      IncNodeIs(nodes[n], strong, internal, listed, contextMgr == Some(n));
      NodesSetPersists(View(), View().(nodes := nodes[n := NodeRefs.IncNode(nodes[n], strong, internal, listed,
          contextMgr == Some(n)).1]));
      var d := nodes[n];
      ok := true;
      if strong {
        if internal {
          if !listed && d.internalStrong == 0 && !(contextMgr == Some(n) && d.hasStrong) {
            ok := false;
            assert nodes == nodes[n := d];
            return;
          }
          d := d.(internalStrong := d.internalStrong + 1);
        } else {
          d := d.(localStrong := d.localStrong + 1);
        }
        if !d.hasStrong && listed {
          d := d.(queued := true);
        }
      } else {
        if !internal {
          d := d.(localWeak := d.localWeak + 1);
        }
        if !d.hasWeak && !d.queued {
          if !listed {
            ok := false;
          } else {
            d := d.(queued := true);
          }
        }
      }
      nodes := nodes[n := d];
    }

    /** Lines 981-991: the node leaves its owner's tree or the list of dead nodes, and is freed. */
    method FreeNode(n: Nid)
      requires n in nodes && Ledger()
      modifies `nodes, `procs, `freed
      ensures View() == NodeRefs.FreeNode(old(View()), n) && Ledger() && freed == old(freed) + {n}
      ensures Persists(old(View()), View())
    {
      NodesSetPersists(View(), NodeRefs.FreeNode(View(), n));
      var d := nodes[n];
      if d.proc.Some? && d.proc.value in procs {
        var q := procs[d.proc.value];
        procs := procs[d.proc.value := q.(nodes := q.nodes - {d.ptr})];
      }
      nodes := nodes - {n};
      freed := freed + {n};
    }

    /** binder_dec_node: the counts; whether the node has none of that kind left. */
    method LowerCount(n: Nid, strong: bool, internal: bool) returns (last: bool)
      requires n in nodes
      modifies `nodes
      ensures var d := Decremented(old(nodes[n]), strong, internal);
              && nodes == old(nodes)[n := d]
              && last == if strong then d.localStrong == 0 && d.internalStrong == 0
                  else d.localWeak == 0 && d.refs == {}
      ensures Persists(old(View()), View())
    {
      NodesSetPersists(View(), View().(nodes := nodes[n := Decremented(nodes[n], strong, internal)]));
      var d := nodes[n];
      if strong {
        d := if internal then d.(internalStrong := d.internalStrong - 1) else d.(localStrong := d.localStrong - 1);
        last := d.localStrong == 0 && d.internalStrong == 0;
      } else {
        d := if internal then d else d.(localWeak := d.localWeak - 1);
        last := d.localWeak == 0 && d.refs == {};
      }
      nodes := nodes[n := d];
    }

    /** binder_dec_node */
    method DecNode(n: Nid, strong: bool, internal: bool)
      requires n in nodes && Ledger()
      modifies `nodes, `procs, `freed
      ensures View() == NodeRefs.DecNode(old(View()), n, strong, internal) && Ledger() && old(freed) <= freed
      ensures n in freed ==> n in old(freed) || old(nodes[n].refs) == {}
      ensures forall m | m in freed && m != n :: m in old(freed)
      ensures Persists(old(View()), View())
    {
      DecNodePersists(View(), n, strong, internal);
      var last := LowerCount(n, strong, internal);
      if last {
        var d := nodes[n];
        if d.proc.Some? && (d.hasStrong || d.hasWeak) {
          nodes := nodes[n := d.(queued := true)];
        } else if d.refs == {} && d.localStrong == 0 && d.localWeak == 0 {
          FreeNode(n);
          assert old(nodes)[n := d] - {n} == old(nodes) - {n};
        }
      }
    }

    /** binder_get_node */
    method GetNode(p: Pid, ptr: Ptr) returns (n: Option<Nid>)
      requires p in procs
      ensures n == Denotes(View(), p, BinderObject(true, ptr, 0))
    {
      n := if ptr in procs[p].nodes then Some(procs[p].nodes[ptr]) else None;
    }

    /** binder_new_node, called where the process has no node at that pointer */
    method NewNode(p: Pid, ptr: Ptr, cookie: Ptr, memory: bool) returns (n: Option<Nid>)
      requires Valid() && p in procs && ptr !in procs[p].nodes
      modifies `nodes, `procs, `nextId, `made
      ensures Valid()
      ensures if memory then n == Some(old(nextId)) && View() == Handles.NewNode(old(View()), p, ptr, cookie)
              else n == None && View() == old(View())
      ensures memory ==>
                nodes == old(nodes)[old(nextId) := Node(Some(p), ptr, cookie, 0, 0, 0, false, false, false, false,
                                                        false, {})]
      ensures Persists(old(View()), View())
    {
      NodesSetPersists(View(), View());
      NewNodePersists(View(), p, ptr, cookie);
      if !memory {
        return None;
      }
      NewNodeInv(View(), p, ptr, cookie);
      n := Some(nextId);
      nodes := nodes[nextId := Node(Some(p), ptr, cookie, 0, 0, 0, false, false, false, false, false, {})];
      procs := procs[p := procs[p].(nodes := procs[p].nodes[ptr := nextId])];
      made := made + {nextId};
      nextId := nextId + 1;
    }

    // ----- references

    /** binder_get_ref */
    method GetRef(p: Pid, desc: Desc) returns (r: Option<Rid>)
      requires p in procs
      ensures r == if desc in procs[p].byDesc then Some(procs[p].byDesc[desc]) else None
    {
      r := if desc in procs[p].byDesc then Some(procs[p].byDesc[desc]) else None;
    }

    /** Lines 1037-1077: the handle that the walk chooses is free, so line 1064 is not reached. */
    method NewRef(p: Pid, n: Nid) returns (r: Rid)
      requires Valid() && p in procs && n in nodes && n !in procs[p].byNode
      modifies `nodes, `refs, `procs, `nextId
      ensures Valid() && nodes.Keys == old(nodes.Keys)
      ensures r == old(nextId) && View() == Handles.NewRef(old(View()), p, n)
      ensures r in refs && HandleIsLowest(old(procs[p].byDesc.Keys), refs[r].desc, contextMgr == Some(n))
      ensures refs == old(refs)[r := Ref(p, n, refs[r].desc, 0, 0)]
      ensures Persists(old(View()), View())
    {
      NewRefInv(View(), p, n);
      NewRefHandle(View(), p, n);
      NewRefPersists(View(), p, n);
      ghost var s2 := Handles.NewRef(View(), p, n);
      var base := if contextMgr == Some(n) then 0 else 1;
      var desc := ChooseDesc(procs[p].byDesc, base);
      LowestFreeIsLowest(procs[p].byDesc, base);
      assert desc !in procs[p].byDesc;
      var q := procs[p];
      r := nextId;
      refs := refs[r := Ref(p, n, desc, 0, 0)];
      procs := procs[p := q.(byDesc := q.byDesc[desc := r], byNode := q.byNode[n := r])];
      nodes, nextId := nodes[n := nodes[n].(refs := nodes[n].refs + {r})], r + 1;
      assert View() == s2;
    }

    /** binder_get_ref_for_node */
    method GetRefForNode(p: Pid, n: Nid, memory: bool) returns (r: Option<Rid>)
      requires Valid() && p in procs && n in nodes
      modifies `nodes, `refs, `procs, `nextId
      ensures Valid() && nodes.Keys == old(nodes.Keys)
      ensures old(n in procs[p].byNode) ==> r == Some(old(procs[p].byNode[n])) && View() == old(View())
      ensures old(n !in procs[p].byNode) && !memory ==> r == None && View() == old(View())
      ensures old(n !in procs[p].byNode) && memory ==>
          r == Some(old(nextId)) && View() == Handles.NewRef(old(View()), p, n)
      ensures Persists(old(View()), View())
    {
      NodesSetPersists(View(), View());
      if n in procs[p].byNode {
        return Some(procs[p].byNode[n]);
      }
      if !memory {
        return None;
      }
      var made := NewRef(p, n);
      r := Some(made);
    }

    /** Lines 1090-1094: the reference leaves both indexes and its node's list. */
    method Unlink(r: Rid)
      requires Valid() && r in refs && refs[r].node in nodes && refs[r].proc in procs
      modifies `nodes, `refs, `procs, `freed
      ensures View() == NodeRefs.Unlink(old(View()), r) && Ledger() && freed == old(freed)
      ensures Persists(old(View()), View())
    {
      UnlinkPersists(View(), r);
      var f := refs[r];
      var q := procs[f.proc];
      procs := procs[f.proc := q.(byDesc := q.byDesc - {f.desc}, byNode := q.byNode - {f.node})];
      assert RefOk(old(View()), r);
      if f.strong > 0 {
        DecStays(View(), f.node);
        DecNode(f.node, true, true);
      }
      nodes, refs := nodes[f.node := nodes[f.node].(refs := nodes[f.node].refs - {r})], refs - {r};
    }

    /** binder_delete_ref */
    method DeleteRef(r: Rid)
      requires Valid() && r in refs
      modifies `nodes, `refs, `procs, `freed
      ensures refs == old(refs) - {r}
      ensures old(refs[r].node in nodes && refs[r].proc in procs) && View() == NodeRefs.DeleteRef(old(View()), r)
      ensures Valid() && old(freed) <= freed
      ensures forall n | n in freed && n !in old(freed) :: n in old(nodes) && old(nodes[n].refs) <= {r}
      ensures Persists(old(View()), View())
    {
      assert RefOk(View(), r);
      DeleteRefPersists(View(), r);
      DeleteRefInv(View(), r);
      var n := refs[r].node;
      Unlink(r);
      DecNode(n, false, true);
    }

    /** binder_inc_ref */
    method IncRef(r: Rid, strong: bool, listed: bool) returns (ok: bool)
      requires Valid() && r in refs && refs[r].node in nodes
      modifies `nodes, `refs
      ensures Valid() && View() == NodeRefs.IncRef(old(View()), r, strong, listed) && (!ok ==> View() == old(View()))
      ensures var f := old(refs[r]);
              && (!ok <==> (if strong then f.strong == 0 else f.weak == 0) && !listed
                           && Refuses(old(View()), f.node, strong))
              && (ok ==> refs == old(refs)[r := if strong then f.(strong := f.strong + 1) else f.(weak := f.weak + 1)])
      ensures Persists(old(View()), View())
    {
      IncRefPersists(View(), r, strong, listed);
      IncRefInv(View(), r, strong, listed);
      var f := refs[r];
      ok := true;
      if if strong then f.strong == 0 else f.weak == 0 {
        ok := IncNode(f.node, strong, true, listed);
        if !ok {
          assert nodes == old(nodes);
          return;
        }
      }
      refs := refs[r := if strong then f.(strong := f.strong + 1) else f.(weak := f.weak + 1)];
    }

    /** binder_dec_ref */
    method DecRef(r: Rid, strong: bool) returns (ok: bool)
      requires Valid() && r in refs
      modifies `nodes, `refs, `procs, `freed
      ensures old(refs[r].node in nodes && refs[r].proc in procs) && View() == NodeRefs.DecRef(old(View()), r, strong)
      ensures Valid() && old(freed) <= freed
      ensures Persists(old(View()), View())
    {
      assert RefOk(View(), r);
      DecRefPersists(View(), r, strong);
      DecRefInv(View(), r, strong);
      var f := refs[r];
      if if strong then f.strong == 0 else f.weak == 0 {
        return false;
      }
      ok := true;
      ghost var s := View();
      var f1 := if strong then f.(strong := f.strong - 1) else f.(weak := f.weak - 1);
      LoweredInv(s, r, f1);
      refs := refs[r := f1];
      if strong && f1.strong == 0 {
        assert NodeOk(s, f.node);
        assert f.node in nodes && r in nodes[f.node].refs;
        DecNode(f.node, true, true);
      }
      assert View() == Lowered(s, r, f1);
      if f1.strong == 0 && f1.weak == 0 {
        DeleteRef(r);
      }
    }

    // ----- transactions

    /** Lines 1546-1552 and 1603-1612: a reference of the target to the node, and one more of its counts. */
    method Refer(p: Pid, n: Nid, strong: bool, listed: bool, mem: Memory) returns (ok: bool, o: Object)
      requires Valid() && p in procs && n in nodes
      modifies `nodes, `refs, `procs, `nextId
      ensures Valid() && (ok, View(), o) == Translation.Refer(old(View()), p, n, strong, listed, mem)
      ensures Persists(old(View()), View())
    {
      ReferPersists(View(), p, n, strong, listed, mem);
      var r := GetRefForNode(p, n, mem.ref);
      if r.None? {
        return false, OtherObject;
      }
      assert ProcOk(View(), p);
      assert RefOk(View(), r.value);
      o := HandleObject(strong, refs[r.value].desc);
      var _ := IncRef(r.value, strong, listed);
      ok := true;
    }

    method SendOwn(sender: Pid, target: Pid, strong: bool, ptr: Ptr, cookie: Ptr, mem: Memory)
      returns (ok: bool, o: Object)
      requires Valid() && sender in procs && target in procs
      modifies `nodes, `refs, `procs, `nextId, `made
      ensures Valid() && (ok, View(), o) == FromOwner(old(View()), sender, target, strong, ptr, cookie, mem)
      ensures Persists(old(View()), View())
    {
      OwnerPersists(View(), sender, target, BinderObject(strong, ptr, cookie), mem);
      SendersNodeInv(View(), sender, ptr, cookie, mem);
      var n := GetNode(sender, ptr);
      if n.None? {
        n := NewNode(sender, ptr, cookie, mem.node);
        if n.None? {
          return false, OtherObject;
        }
      }
      if cookie != nodes[n.value].cookie {
        return false, OtherObject;
      }
      ok, o := Refer(target, n.value, strong, true, mem);
    }

    method SendHandle(sender: Pid, target: Pid, strong: bool, h: Desc, mem: Memory) returns (ok: bool, o: Object)
      requires Valid() && sender in procs && target in procs
      modifies `nodes, `refs, `procs, `nextId
      ensures Valid() && (ok, View(), o) == FromHolder(old(View()), sender, target, strong, h, mem)
      ensures Persists(old(View()), View())
    {
      HolderPersists(View(), sender, target, HandleObject(strong, h), mem);
      var r := GetRef(sender, h);
      if r.None? {
        return false, OtherObject;
      }
      assert ProcOk(View(), sender);
      assert RefOk(View(), r.value);
      var n := refs[r.value].node;
      if nodes[n].proc == Some(target) {
        o := BinderObject(strong, nodes[n].ptr, nodes[n].cookie);
        IncLocalInv(View(), n, strong, false, contextMgr == Some(n));
        var _ := IncNode(n, strong, false, false);
        ok := true;
      } else {
        ok, o := Refer(target, n, strong, false, mem);
      }
    }

    /** Lines 1528-1620 */
    method SendObject(sender: Pid, target: Pid, o: Object, mem: Memory) returns (ok: bool, o2: Object)
      requires Valid() && sender in procs && target in procs
      modifies `nodes, `refs, `procs, `nextId, `made
      ensures Valid() && (ok, View(), o2) == Translate(old(View()), sender, target, o, mem)
      ensures Persists(old(View()), View())
    {
      TranslatePersists(View(), sender, target, o, mem);
      match o
      case BinderObject(strong, ptr, cookie) => ok, o2 := SendOwn(sender, target, strong, ptr, cookie, mem);
      case HandleObject(strong, h) => ok, o2 := SendHandle(sender, target, strong, h, mem);
      case OtherObject => ok, o2 := false, OtherObject;
    }

    /** A turn of the loop, whose earlier turns led from state `s` to this one with objects `out`. */
    method SendTurn(ghost s: State, sender: Pid, target: Pid, os: seq<Object>, mems: seq<Memory>, i: nat,
                    ghost out: seq<Object>)
      returns (ok: bool, o: Object)
      requires Inv(s) && sender in s.procs && target in s.procs && |mems| == |os| && i < |os|
      requires Valid() && sender in procs && target in procs
      requires SendsAs(s, sender, target, os[..i], mems[..i], Sent(true, View(), out))
      modifies `nodes, `refs, `procs, `nextId, `made
      ensures Valid() && sender in procs && target in procs
      ensures SendsAs(s, sender, target, os[..i + 1], mems[..i + 1], Sent(ok, View(), if ok then out + [o] else out))
      ensures Persists(old(View()), View())
    {
      TranslatePersists(View(), sender, target, os[i], mems[i]);
      ghost var r := Sent(true, View(), out);
      TranslateKeepsIdentity(View(), sender, target, os[i], mems[i]);
      ok, o := SendObject(sender, target, os[i], mems[i]);
      SendNext(s, sender, target, os, mems, i, r, (ok, View(), o));
    }

    /** Lines 1516-1678: `out` is the buffer's objects, as far as they were translated. */
    method SendObjects(sender: Pid, target: Pid, os: seq<Object>, mems: seq<Memory>)
      returns (ok: bool, out: seq<Object>)
      requires Valid() && sender in procs && target in procs && |mems| == |os|
      modifies `nodes, `refs, `procs, `nextId, `made
      ensures Valid() && Sent(ok, View(), out) == Undo.SendObjects(old(View()), sender, target, os, mems)
      ensures Persists(old(View()), View())
    {
      NodesSetPersists(View(), View());
      ghost var s := View();
      ok, out := true, [];
      var i := 0;
      while i < |os|
        invariant 0 <= i <= |os| && Valid()
        invariant sender in procs && target in procs
        invariant SendsAs(s, sender, target, os[..i], mems[..i], Sent(true, View(), out)) && ok && Persists(s, View())
      {
        ghost var s1 := View();
        var o2;
        ok, o2 := SendTurn(s, sender, target, os, mems, i, out);
        PersistsTransitive(s, s1, View());
        if !ok {
          FailureEnds(s, sender, target, os, mems, i + 1, |os|, Sent(false, View(), out));
          assert os[..|os|] == os && mems[..|os|] == mems;
          return;
        }
        out := out + [o2];
        i := i + 1;
      }
      assert os[..i] == os && mems[..i] == mems;
    }

    /** Lines 1256-1305: one object of a buffer. */
    method ReleaseObject(p: Pid, o: Object)
      requires Valid() && p in procs
      modifies `nodes, `refs, `procs, `freed
      ensures Valid() && View() == Release.ReleaseObject(old(View()), p, o) && old(freed) <= freed
      ensures p in procs
      ensures Persists(old(View()), View())
    {
      ReleaseObjectPersists(View(), p, o);
      ReleaseObjectCounts(View(), p, o);
      assert ProcOk(View(), p);
      match o
      case BinderObject(strong, ptr, _) =>
        var n := GetNode(p, ptr);
        if n.Some? {
          DecNode(n.value, strong, false);
        }
      case HandleObject(strong, h) =>
        var r := GetRef(p, h);
        if r.Some? {
          var _ := DecRef(r.value, strong);
        }
      case OtherObject =>
    }

    /** Lines 1253-1305: the objects in order. */
    method ReleaseObjects(p: Pid, os: seq<Object>)
      requires Valid() && p in procs
      modifies `nodes, `refs, `procs, `freed
      ensures Valid() && View() == Undo.ReleaseObjects(old(View()), p, os) && old(freed) <= freed
      ensures Persists(old(View()), View())
    {
      ReleasePersists(View(), p, os);
      ghost var s := View();
      assert os[..0] == [];
      var i := 0;
      while i < |os|
        invariant 0 <= i <= |os| && Valid() && p in procs && old(freed) <= freed
        invariant View() == Undo.ReleaseObjects(s, p, os[..i])
      {
        ReleaseNext(s, p, os, i);
        ReleaseObject(p, os[i]);
        i := i + 1;
      }
      assert os[..i] == os;
    }

    /** binder_transaction_buffer_release, of all the objects or of those before the one that failed */
    method ReleaseBuffer(p: Pid, target: Option<Nid>, os: seq<Object>)
      requires Valid() && p in procs && (target.Some? ==> target.value in nodes && nodes[target.value].proc == Some(p))
      modifies `nodes, `refs, `procs, `freed
      ensures Valid() && View() == Undo.ReleaseBuffer(old(View()), p, target, os) && old(freed) <= freed
      ensures Persists(old(View()), View())
    {
      BufferPersists(View(), p, target, os);
      if target.Some? {
        DecLocalInv(View(), target.value, true);
        DecNode(target.value, true, false);
      }
      ReleaseObjects(p, os);
    }

    /**
      The objects of one transaction: all translated, or none of their counts taken.
      `target` is the node that a call is for.
     */
    method Transact(sender: Pid, p: Pid, target: Option<Nid>, os: seq<Object>, mems: seq<Memory>)
      returns (ok: bool, out: seq<Object>)
      requires Valid() && sender in procs && p in procs && |mems| == |os| && LocalCounts(View())
      requires target.Some? ==> target.value in nodes && nodes[target.value].proc == Some(p)
      modifies `nodes, `refs, `procs, `nextId, `made, `freed
      ensures Valid()
      ensures target.Some? && ok ==> target.value in nodes
      ensures (ok, View(), out) == Transacted(old(View()), sender, p, target, os, mems)
      ensures ok ==> |out| == |os| && AllDenote(View(), p, BufferObjects(View(), target, out))
      ensures ok ==> forall k: Key {:trigger Tally(View(), p, BufferObjects(View(), target, out), k)} ::
                Within(Count(old(View()), p, k), Count(View(), p, k),
                       Tally(View(), p, BufferObjects(View(), target, out), k), k.local)
      ensures ok ==> forall i | 0 <= i < |os| :: SameMeaning(View(), sender, p, os[i], out[i])
      ensures !ok ==> SameCounts(old(View()), View())
      ensures Persists(old(View()), View())
    {
      ghost var s := View();
      TransactPersists(s, sender, p, target, os, mems);
      ReleaseUndoesTranslation(s, sender, p, target, os, mems);
      if target.Some? {
        var _ := IncNode(target.value, true, false, false);
      }
      ok, out := SendObjects(sender, p, os, mems);
      if !ok {
        ReleaseBuffer(p, target, out);
      } else {
        ghost var all := BufferObjects(View(), target, out);
        forall k: Key
          ensures Within(Count(s, p, k), Count(View(), p, k), Tally(View(), p, all, k), k.local)
        {
          AddedCounts(s, sender, p, target, os, mems, k);
        }
        assert AllDenote(View(), p, all) && |out| == |os| by {
          AddedCounts(s, sender, p, target, os, mems, Key(true, 0, true));
          SendCounts(Started(s, target), sender, p, os, mems, Key(true, 0, true));
        }
        forall i | 0 <= i < |os|
          ensures SameMeaning(View(), sender, p, os[i], out[i])
        {
          SendKeepsMeaning(Started(s, target), sender, p, os, mems, i);
        }
      }
    }

    // ----- commands

    /** The node that a count command is about: handle 0 is the context manager's for increments. */
    ghost function Commanded(p: Pid, desc: Desc, up: bool): Option<Nid>
      reads this
    {
      if up && desc == 0 && contextMgr.Some? then contextMgr else Denotes(View(), p, HandleObject(true, desc))
    }

    /** The command needs a new reference to the context manager's node, for which there is no memory. */
    predicate NullReference(p: Pid, desc: Desc, up: bool, memory: bool)
      requires p in procs
      reads this
    {
      desc == 0 && contextMgr.Some? && up && contextMgr.value !in procs[p].byNode && !memory
    }

    /**
      BC_INCREFS, BC_ACQUIRE, BC_RELEASE and BC_DECREFS, lines 1768-1815.  Line 1781 uses
      the context manager's reference without testing it: `ok` tells whether there is one.
     */
    method CountCommand(p: Pid, desc: Desc, strong: bool, up: bool, memory: bool) returns (ok: bool)
      requires Valid() && p in procs && (contextMgr.Some? ==> contextMgr.value in nodes)
      modifies `nodes, `refs, `procs, `nextId, `freed
      ensures Valid() && old(freed) <= freed
      ensures !ok <==> old(NullReference(p, desc, up, memory))
      ensures View() == if ok then CountRef(old(View()), p, desc, strong, up) else old(View())
      ensures var n := old(Commanded(p, desc, up));
              if !ok || n == None then View() == old(View())
              else if up then Grows(old(View()), View())
                  && Raised(old(View()), View(), p, Key(false, n.value, strong), false)
              else LoweredBy(old(View()), View(), p, Key(false, n.value, strong),
                             Less(Count(old(View()), p, Key(false, n.value, strong)), 1))
      ensures Persists(old(View()), View())
    {
      NodesSetPersists(View(), View());
      assert ProcOk(View(), p);
      if desc == 0 && contextMgr.Some? && up {
        ReferGrows(View(), p, contextMgr.value, strong, false, Memory(true, memory));
        ReferCounts(View(), p, contextMgr.value, strong, false, Memory(true, memory));
        var got, _ := Refer(p, contextMgr.value, strong, false, Memory(true, memory));
        return got;
      }
      ok := true;
      var r := GetRef(p, desc);
      if r.None? {
        return;
      }
      assert RefOk(View(), r.value);
      if up {
        IncRefGrows(View(), r.value, strong, false);
        IncRefCounts(View(), r.value, strong, false);
        var _ := IncRef(r.value, strong, false);
      } else {
        DecRefCounts(View(), r.value, strong);
        var _ := DecRef(r.value, strong);
      }
    }

    /** BC_INCREFS_DONE and BC_ACQUIRE_DONE, lines 1816-1869: the owner returns the count that the command gave it. */
    method Done(p: Pid, ptr: Ptr, cookie: Ptr, strong: bool) returns (done: bool)
      requires Valid() && p in procs
      modifies `nodes, `procs, `freed
      ensures Valid() && old(freed) <= freed
      ensures var n := Denotes(old(View()), p, BinderObject(true, ptr, 0));
              && (done <==> n.Some? && n.value in old(nodes) && old(nodes)[n.value].cookie == cookie
                            && (if strong then old(nodes)[n.value].pendingStrong else old(nodes)[n.value].pendingWeak))
              && (!done ==> View() == old(View()))
              && (done ==> View() == OwnerProtocol.AnswerNode(old(View()), n.value, strong))
              && (done ==> LoweredBy(old(View()), View(), p, Key(true, n.value, strong),
                                     Count(old(View()), p, Key(true, n.value, strong)) - 1))
              && (done && n.value in nodes ==>
                  !(if strong then nodes[n.value].pendingStrong else nodes[n.value].pendingWeak))
      ensures Persists(old(View()), View())
    {
      NodesSetPersists(View(), View());
      done := false;
      assert ProcOk(View(), p);
      var found := GetNode(p, ptr);
      if found.None? || cookie != nodes[found.value].cookie {
        return;
      }
      var n := found.value;
      if !(if strong then nodes[n].pendingStrong else nodes[n].pendingWeak) {
        return;
      }
      done := true;
      AnswerFacts(View(), p, n, strong);
      ghost var s2 := OwnerProtocol.AnswerNode(View(), n, strong);
      nodes := nodes[n := OwnerProtocol.Answered(nodes[n], strong)];
      DecNode(n, strong, false);
      assert View() == s2;
    }

    /**
      BINDER_WORK_NODE, lines 2263-2328: the owner is sent the next command about its
      node, or the node leaves the list; it is freed only when nothing refers to it.
     */
    method ReadNodeWork(n: Nid) returns (command: Option<OwnerProtocol.Command>)
      requires Valid() && n in nodes && nodes[n].proc.Some?
      modifies `nodes, `procs, `freed
      ensures Valid() && old(freed) <= freed && command == OwnerProtocol.NodeCommand(old(nodes[n]))
      ensures command.Some? || OwnerProtocol.IsWeak(old(nodes[n])) ==>
                View() == old(View()).(nodes := old(nodes)[n := OwnerProtocol.NodeWork(old(nodes[n]))])
      ensures command.None? && !OwnerProtocol.IsWeak(old(nodes[n])) ==>
                View() == NodeRefs.FreeNode(old(View()), n) && old(nodes[n].refs) == {}
      ensures Persists(old(View()), View())
    {
      WorkPersists(View(), n);
      var d := nodes[n];
      var strong := d.internalStrong != 0 || d.localStrong != 0;
      var weak := d.refs != {} || d.localWeak != 0 || strong;
      command := None;
      if weak && !d.hasWeak {
        command := Some(OwnerProtocol.IncRefs);
        d := d.(hasWeak := true, pendingWeak := true, localWeak := d.localWeak + 1);
      } else if strong && !d.hasStrong {
        command := Some(OwnerProtocol.Acquire);
        d := d.(hasStrong := true, pendingStrong := true, localStrong := d.localStrong + 1);
      } else if !strong && d.hasStrong {
        command := Some(OwnerProtocol.ReleaseStrong);
        d := d.(hasStrong := false);
      } else if !weak && d.hasWeak {
        command := Some(OwnerProtocol.DecRefs);
        d := d.(hasWeak := false);
      } else {
        d := d.(queued := false);
        if !weak {
          CountedWeakens(View(), n);
          FreeNodeInv(View(), n);
          FreeNode(n);
          return;
        }
      }
      NodeUpdateInv(View(), n, d, {});
      nodes := nodes[n := d];
    }

    /** BINDER_SET_CONTEXT_MGR, lines 2722-2751, without the checks on user ids. */
    method SetContextMgr(p: Pid, memory: bool) returns (ok: bool)
      requires Valid() && p in procs
      modifies `nodes, `procs, `nextId, `made, `contextMgr, `everMgr
      ensures Valid()
      ensures ok <==> old(contextMgr).None? && old(0 !in procs[p].nodes) && memory
      ensures !ok ==> View() == old(View())
      ensures ok ==> View() == Managed(old(View()), p)
      ensures ok ==> contextMgr == Some(old(nextId))
                     && nodes == old(nodes)[old(nextId) := Node(Some(p), 0, 0, 0, 1, 1, true, true, false, false,
                                                                false, {})]
      ensures Persists(old(View()), View())
    {
      ghost var s := View();
      NodesSetPersists(s, s);
      ok := false;
      if contextMgr.Some? || 0 in procs[p].nodes {
        return;
      }
      NextIdIsFresh(View());
      var n := NewNode(p, 0, 0, memory);
      if n.None? {
        return;
      }
      ok := true;
      ghost var s1 := View();
      var d := nodes[n.value].(localStrong := 1, localWeak := 1, hasStrong := true, hasWeak := true);
      NodeUpdateInv(View(), n.value, d, {});
      nodes := nodes[n.value := d];
      MgrInv(View(), n);
      contextMgr := n;
      everMgr := everMgr + {n.value};
      NodesSetPersists(s1, View());
      PersistsTransitive(s, s1, View());
    }

    // ----- a process goes

    /** binder_node_release, after the node left its owner's tree */
    method ReleaseNode(n: Nid)
      requires Valid() && n in nodes && nodes[n].proc.Some? && nodes[n].proc.value in procs
      modifies `nodes, `procs, `freed
      ensures Valid() && old(freed) <= freed
      ensures View() == if old(nodes[n].refs) == {} then NodeRefs.FreeNode(old(View()), n)
          else OrphanNode(old(View()), n)
      ensures Persists(old(View()), View())
    {
      NodesSetPersists(View(), if nodes[n].refs == {} then NodeRefs.FreeNode(View(), n) else OrphanNode(View(), n));
      var d := nodes[n];
      if d.refs == {} {
        CountedWeakens(View(), n);
        FreeNodeInv(View(), n);
        FreeNode(n);
      } else {
        OrphanInv(View(), n);
        var q := procs[d.proc.value];
        procs := procs[d.proc.value := q.(nodes := q.nodes - {d.ptr})];
        nodes := nodes[n := d.(proc := None, localStrong := 0, localWeak := 0, queued := false)];
      }
    }

    method ReleaseOneNode(p: Pid)
      requires Valid() && p in procs && procs[p].nodes != map[]
      modifies `nodes, `procs, `freed
      ensures Valid() && old(freed) <= freed
      ensures NodesWent(old(View()), View(), p) && p in procs && procs[p].nodes.Keys < old(procs[p].nodes.Keys)
      ensures Persists(old(View()), View())
    {
      var a :| a in procs[p].nodes;
      assert ProcOk(View(), p);
      NodeWent(View(), p, procs[p].nodes[a]);
      ReleaseNode(procs[p].nodes[a]);
    }

    /** Lines 3063-3071 */
    method ReleaseNodes(p: Pid)
      requires Valid() && p in procs
      modifies `nodes, `procs, `freed
      ensures Valid() && old(freed) <= freed
      ensures NodesWent(old(View()), View(), p) && p in procs && procs[p].nodes == map[]
      ensures Persists(old(View()), View())
    {
      NodesSetPersists(View(), View());
      while procs[p].nodes != map[]
        invariant Valid() && p in procs && old(freed) <= freed
        invariant NodesWent(old(View()), View(), p) && Persists(old(View()), View())
        decreases procs[p].nodes.Keys
      {
        ghost var s := View();
        ReleaseOneNode(p);
        NodesWentTransitive(old(View()), s, View(), p);
        PersistsTransitive(old(View()), s, View());
      }
    }

    method DeleteOneRef(p: Pid)
      requires Valid() && p in procs && procs[p].byDesc != map[]
      modifies `nodes, `refs, `procs, `freed
      ensures Valid() && old(freed) <= freed
      ensures RefsWent(old(View()), View(), p) && p in procs && procs[p].byDesc.Keys < old(procs[p].byDesc.Keys)
      ensures OwnerProtocol.OwnersQuiet(old(View()), View())
      ensures Persists(old(View()), View())
    {
      var d :| d in procs[p].byDesc;
      assert ProcOk(View(), p);
      var r := procs[p].byDesc[d];
      assert RefOk(View(), r);
      RefWent(View(), p, r);
      DeletedKeys(View(), r);
      OwnerProtocol.DeleteRefOwners(View(), r);
      DeleteRef(r);
    }

    /** Lines 3073-3080 */
    method DeleteRefs(p: Pid)
      requires Valid() && p in procs
      modifies `nodes, `refs, `procs, `freed
      ensures Valid() && old(freed) <= freed
      ensures RefsWent(old(View()), View(), p) && p in procs && procs[p].byDesc == map[]
      ensures OwnerProtocol.OwnersQuiet(old(View()), View())
      ensures Persists(old(View()), View())
    {
      NodesSetPersists(View(), View());
      OwnerProtocol.NothingQuiet(View());
      while procs[p].byDesc != map[]
        invariant Valid() && p in procs && old(freed) <= freed
        invariant RefsWent(old(View()), View(), p) && Persists(old(View()), View())
        invariant OwnerProtocol.OwnersQuiet(old(View()), View())
        decreases procs[p].byDesc.Keys
      {
        ghost var s := View();
        DeleteOneRef(p);
        RefsWentTransitive(old(View()), s, View(), p);
        OwnerProtocol.OwnersQuietTransitive(old(View()), s, View());
        PersistsTransitive(old(View()), s, View());
      }
    }

    /**
      binder_deferred_release, of the nodes and references.  A node without an owner
      survives just when another process refers to it, and every other process keeps
      its references and their counts.
     */
    method ReleaseProc(p: Pid)
      requires Valid() && p in procs
      modifies `nodes, `refs, `procs, `freed, `contextMgr
      ensures old(freed) <= freed
      ensures Exited(old(View()), View(), p) && OthersQuiet(old(View()), View(), p)
      ensures contextMgr == if old(contextMgr.Some? && contextMgr.value in nodes
                                   && nodes[contextMgr.value].proc == Some(p)) then None else old(contextMgr)
      ensures Persists(old(View()), View())
      ensures Valid()
    {
      ghost var s := View();
      ClearMgr(p);
      ghost var s0 := View();
      ghost var s1 := DropAll(p);
      ghost var s2 := View();
      ExitFacts(s, s0, s1, s2, p);
      procs := procs - {p};
      assert View() == s2.(procs := s2.procs - {p});
    }

    /** Lines 3046-3051 */
    method ClearMgr(p: Pid)
      requires Valid()
      modifies `contextMgr
      ensures Valid() && View() == old(View()).(mgr := contextMgr)
      ensures contextMgr == if old(contextMgr.Some? && contextMgr.value in nodes
                                   && nodes[contextMgr.value].proc == Some(p)) then None else old(contextMgr)
    {
      if contextMgr.Some? && contextMgr.value in nodes && nodes[contextMgr.value].proc == Some(p) {
        MgrInv(View(), None);
        contextMgr := None;
      }
    }

    /** The two loops, with the state between them */
    method DropAll(p: Pid) returns (ghost s1: State)
      requires Valid() && p in procs
      modifies `nodes, `refs, `procs, `freed
      ensures Valid() && old(freed) <= freed && Inv(s1) && p in s1.procs && s1.nextId == nextId
      ensures NodesWent(old(View()), s1, p) && s1.procs[p].nodes == map[]
      ensures RefsWent(s1, View(), p) && p in procs && procs[p].byDesc == map[]
      ensures OwnerProtocol.OwnersQuiet(s1, View())
    {
      ReleaseNodes(p);
      s1 := View();
      DeleteRefs(p);
    }

    /** A new process, with nothing. */
    method Open(p: Pid)
      requires Valid() && p !in procs
      modifies `procs
      ensures Valid() && View() == old(View()).(procs := old(procs)[p := Proc(map[], map[], map[])])
      ensures Persists(old(View()), View())
    {
      OpenInv(View(), p);
      NodesSetPersists(View(), View().(procs := procs[p := Proc(map[], map[], map[])]));
      procs := procs[p := Proc(map[], map[], map[])];
    }
  }
}
