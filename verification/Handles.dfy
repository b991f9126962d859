/**
  New nodes and references: what binder_new_node and binder_get_ref_for_node add,
  and which handle a new reference gets.
 */
module Handles {
  import opened Options
  import opened NodeRefs

  /** `d` is the smallest handle at or above `base` that the process does not use. */
  ghost predicate IsLowestFree(byDesc: map<Desc, Rid>, base: Desc, d: Desc) {
    && base <= d && d !in byDesc
    && forall e | base <= e < d :: e in byDesc
  }

  lemma LowestFreeUnique(byDesc: map<Desc, Rid>, base: Desc, d: Desc, e: Desc)
    requires IsLowestFree(byDesc, base, d) && IsLowestFree(byDesc, base, e)
    ensures d == e
  {
  }

  /** 0 for the context manager's node, 1 for the others. */
  function Base(s: State, n: Nid): Desc {
    if s.mgr == Some(n) then 0 else 1
  }

  /** The smallest member of a set of handles. */
  lemma {:induction false} HasLeast(ds: set<Desc>)
    requires ds != {}
    ensures exists d: Desc :: IsLeast(ds, d)
    decreases |ds|
  {
    var d :| d in ds;
    if !IsLeast(ds, d) {
      var e :| e in ds && e < d;
      var rest := ds - {d};
      assert e in rest;
      HasLeast(rest);
      var m: Desc :| IsLeast(rest, m);
      assert m <= e;
      assert ds == rest + {d};
      assert IsLeast(ds, m);
    }
  }

  predicate IsLeast(ds: set<Desc>, d: Desc) {
    d in ds && forall e: Desc | e in ds :: d <= e
  }

  /** Lines 1046-1052: the walk over the handles in ascending order. */
  method ChooseDesc(byDesc: map<Desc, Rid>, base: Desc) returns (desc: Desc)
    requires base <= 1
    ensures IsLowestFree(byDesc, base, desc)
    ensures desc <= base + |byDesc|
  {
    desc := base;
    var rest := byDesc.Keys;
    ghost var passed: set<Desc> := {};
    while rest != {}
      invariant base <= desc <= base + |passed|
      invariant Walk(byDesc.Keys, passed, rest, base, desc)
      decreases rest
    {
      HasLeast(rest);
      var d: Desc :| IsLeast(rest, d);
      if d > desc {
        break;
      }
      WalkStep(byDesc.Keys, passed, rest, base, desc, d);
      desc := d + 1;
      passed := passed + {d};
      rest := rest - {d};
    }
    assert byDesc.Keys == passed + rest;
    assert |byDesc.Keys| == |passed| + |rest|;
  }

  /** The walk has passed exactly the handles below `desc`, which are all used from `base` on. */
  ghost predicate Walk(all: set<Desc>, passed: set<Desc>, rest: set<Desc>, base: Desc, desc: Desc) {
    && passed + rest == all && passed !! rest
    && (forall d | d in passed :: d < desc)
    && (forall d | d in rest :: desc <= d || (desc == base && d < base))
    && (forall d | base <= d < desc :: d in passed)
  }

  lemma WalkStep(all: set<Desc>, passed: set<Desc>, rest: set<Desc>, base: Desc, desc: Desc, d: Desc)
    requires Walk(all, passed, rest, base, desc) && base <= 1 && base <= desc
    requires d in rest && d <= desc && forall e | e in rest :: d <= e
    ensures Walk(all, passed + {d}, rest - {d}, base, d + 1)
    ensures base <= d + 1 <= desc + 1 && |passed + {d}| == |passed| + 1
  {
  }

  /** The handle that the walk arrives at. */
  function LowestFree(used: set<Desc>, base: Desc): Desc
    decreases |used|
  {
    if base !in used then base else LowestFree(used - {base}, base + 1)
  }

  lemma {:induction false} LowestFreeIs(used: set<Desc>, base: Desc)
    ensures base <= LowestFree(used, base) && LowestFree(used, base) !in used
    ensures forall e | base <= e < LowestFree(used, base) :: e in used
    decreases |used|
  {
    if base in used {
      LowestFreeIs(used - {base}, base + 1);
      var d := LowestFree(used, base);
      assert d == LowestFree(used - {base}, base + 1) && d != base;
      forall e | base <= e < d
        ensures e in used
      {
        assert e == base || e in used - {base};
      }
    }
  }

  lemma LowestFreeIsLowest(byDesc: map<Desc, Rid>, base: Desc)
    ensures IsLowestFree(byDesc, base, LowestFree(byDesc.Keys, base))
    ensures forall d | IsLowestFree(byDesc, base, d) :: d == LowestFree(byDesc.Keys, base)
  {
    LowestFreeIs(byDesc.Keys, base);
    forall d | IsLowestFree(byDesc, base, d)
      ensures d == LowestFree(byDesc.Keys, base)
    {
      LowestFreeUnique(byDesc, base, d, LowestFree(byDesc.Keys, base));
    }
  }

  /** A new node of process `p`, on no list and with no counts. */
  function NewNode(s: State, p: Pid, ptr: Ptr, cookie: Ptr): State
    requires p in s.procs
  {
    s.(nodes := s.nodes[s.nextId := Node(Some(p), ptr, cookie, 0, 0, 0, false, false, false, false, false, {})],
       procs := s.procs[p := s.procs[p].(nodes := s.procs[p].nodes[ptr := s.nextId])],
       nextId := s.nextId + 1)
  }

  /** Every identity in use is below `nextId`. */
  lemma NextIdIsFresh(s: State)
    requires Inv(s)
    ensures s.nextId !in s.nodes && s.nextId !in s.refs
    ensures forall n | n in s.nodes :: n < s.nextId
    ensures forall r | r in s.refs :: r < s.nextId
  {
    forall n | n in s.nodes
      ensures n < s.nextId
    {
      assert NodeOk(s, n);
    }
    forall r | r in s.refs
      ensures r < s.nextId
    {
      assert RefOk(s, r);
    }
  }

  lemma NewNodeInv(s: State, p: Pid, ptr: Ptr, cookie: Ptr)
    requires Inv(s) && p in s.procs && ptr !in s.procs[p].nodes
    ensures Inv(NewNode(s, p, ptr, cookie))
  {
    var s2 := NewNode(s, p, ptr, cookie);
    NextIdIsFresh(s);
    forall r | r in s2.refs
      ensures RefOk(s2, r)
    {
      assert RefOk(s, r);
    }
    forall m | m in s2.nodes
      ensures NodeOk(s2, m) && Anchored(s2, m)
    {
      if m != s.nextId {
        assert NodeOk(s, m) && Anchored(s, m);
        assert StrongRefs(s2, m) == StrongRefs(s, m);
      } else {
        assert StrongRefs(s2, m) == {};
      }
    }
    forall q | q in s2.procs
      ensures ProcOk(s2, q)
    {
      assert ProcOk(s, q);
    }
  }

  /** A new reference of process `p` to node `n`, with no counts and the lowest free handle. */
  function NewRef(s: State, p: Pid, n: Nid): State
    requires p in s.procs && n in s.nodes
  {
    var r := s.nextId;
    var q := s.procs[p];
    var desc := LowestFree(q.byDesc.Keys, Base(s, n));
    s.(refs := s.refs[r := Ref(p, n, desc, 0, 0)],
       procs := s.procs[p := q.(byDesc := q.byDesc[desc := r], byNode := q.byNode[n := r])],
       nodes := s.nodes[n := s.nodes[n].(refs := s.nodes[n].refs + {r})],
       nextId := r + 1)
  }

  lemma NewRefInv(s: State, p: Pid, n: Nid)
    requires Inv(s) && p in s.procs && n in s.nodes && n !in s.procs[p].byNode
    ensures Inv(NewRef(s, p, n))
  {
    var s2 := NewRef(s, p, n);
    NextIdIsFresh(s);
    forall q | q in s2.refs
      ensures RefOk(s2, q)
    {
      NewRefRef(s, p, n, q);
    }
    forall m | m in s2.nodes
      ensures NodeOk(s2, m) && Anchored(s2, m)
    {
      assert NodeOk(s, m) && Anchored(s, m);
      assert StrongRefs(s2, m) == StrongRefs(s, m);
    }
    forall q | q in s2.procs
      ensures ProcOk(s2, q)
    {
      NewRefProc(s, p, n, q);
    }
  }

  lemma NewRefRef(s: State, p: Pid, n: Nid, q: Rid)
    requires Inv(s) && p in s.procs && n in s.nodes && n !in s.procs[p].byNode
    requires q == s.nextId || q in s.refs
    ensures RefOk(NewRef(s, p, n), q)
  {
    LowestFreeIsLowest(s.procs[p].byDesc, Base(s, n));
    if q != s.nextId {
      assert RefOk(s, q);
    }
  }

  lemma NewRefProc(s: State, p: Pid, n: Nid, q: Pid)
    requires Inv(s) && p in s.procs && n in s.nodes && q in s.procs
    ensures ProcOk(NewRef(s, p, n), q)
  {
    NextIdIsFresh(s);
    assert ProcOk(s, q);
  }

  /** `d` is a handle that was not used, lower than any other such handle that is not 0; 0 is the context manager's. */
  predicate HandleIsLowest(used: set<Desc>, d: Desc, isMgr: bool) {
    && d !in used && (forall e | 0 < e < d :: e in used)
    && (d == 0 ==> isMgr) && (isMgr && 0 !in used ==> d == 0)
  }

  lemma NewRefHandle(s: State, p: Pid, n: Nid)
    requires Inv(s) && p in s.procs && n in s.nodes
    ensures s.nextId in NewRef(s, p, n).refs
    ensures HandleIsLowest(s.procs[p].byDesc.Keys, NewRef(s, p, n).refs[s.nextId].desc, s.mgr == Some(n))
  {
    LowestFreeIsLowest(s.procs[p].byDesc, Base(s, n));
  }

  /** Handle 0 only ever denotes a node that has been the context manager. */
  lemma HandleZeroIsManager(s: State, p: Pid)
    requires Inv(s) && p in s.procs && 0 in s.procs[p].byDesc
    ensures s.procs[p].byDesc[0] in s.refs && s.refs[s.procs[p].byDesc[0]].node in s.everMgr
  {
    assert ProcOk(s, p);
    assert RefOk(s, s.procs[p].byDesc[0]);
  }
}
