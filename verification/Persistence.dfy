/**
  What no step changes: a reference keeps its process, node and handle, a node its
  pointer and cookie, and its owner until that is gone; and an identity that is no
  longer in use never comes back.
 */
module Persistence {
  import opened Options
  import opened NodeRefs
  import opened Handles

  ghost predicate RefPersists(s: State, s2: State, r: Rid)
    requires r in s2.refs
  {
    if r in s.refs then s2.refs[r].proc == s.refs[r].proc && s2.refs[r].node == s.refs[r].node && s2.refs[r].desc ==
        s.refs[r].desc
    else s.nextId <= r
  }

  ghost predicate NodePersists(s: State, s2: State, n: Nid)
    requires n in s2.nodes
  {
    if n in s.nodes then
      && s2.nodes[n].ptr == s.nodes[n].ptr && s2.nodes[n].cookie == s.nodes[n].cookie
      && (s2.nodes[n].proc == s.nodes[n].proc || s2.nodes[n].proc == None)
    else s.nextId <= n
  }

  ghost predicate Persists(s: State, s2: State) {
    && s.nextId <= s2.nextId
    && (forall r {:trigger RefPersists(s, s2, r)} | r in s2.refs :: RefPersists(s, s2, r))
    && (forall n {:trigger NodePersists(s, s2, n)} | n in s2.nodes :: NodePersists(s, s2, n))
  }

  lemma PersistsTransitive(s: State, s1: State, s2: State)
    requires Inv(s) && Persists(s, s1) && Persists(s1, s2)
    ensures Persists(s, s2)
  {
    NextIdIsFresh(s);
    forall r | r in s2.refs
      ensures RefPersists(s, s2, r)
    {
      assert RefPersists(s1, s2, r) && (r in s1.refs ==> RefPersists(s, s1, r));
    }
    forall n | n in s2.nodes
      ensures NodePersists(s, s2, n)
    {
      assert NodePersists(s1, s2, n) && (n in s1.nodes ==> NodePersists(s, s1, n));
    }
  }

  /** From any state of a run to any later one. */
  lemma {:induction false} RunPersists(ss: seq<State>, i: nat, j: nat)
    requires forall k {:trigger ss[k]} | 0 <= k < |ss| :: Inv(ss[k]) && (0 < k ==> Persists(ss[k - 1], ss[k]))
    requires i <= j < |ss|
    ensures Persists(ss[i], ss[j])
    decreases j
  {
    if i < j {
      RunPersists(ss, i, j - 1);
      assert Persists(ss[j - 1], ss[j]);
      PersistsTransitive(ss[i], ss[j - 1], ss[j]);
    } else {
      assert Inv(ss[i]);
    }
  }

  /** A reference or node that is there at the beginning and the end was there all the time. */
  lemma NeverBack(s: State, s1: State, s2: State, x: nat)
    requires Inv(s) && Persists(s, s1) && Persists(s1, s2)
    ensures x in s.refs && x in s2.refs ==> x in s1.refs
    ensures x in s.nodes && x in s2.nodes ==> x in s1.nodes
  {
    NextIdIsFresh(s);
    assert x in s2.refs ==> RefPersists(s1, s2, x);
    assert x in s2.nodes ==> NodePersists(s1, s2, x);
  }

  // ----- the operations on nodes and references

  lemma NodesSetPersists(s: State, s2: State)
    requires s2.refs == s.refs && s.nextId <= s2.nextId
    requires forall n | n in s2.nodes :: n in s.nodes && s2.nodes[n].ptr == s.nodes[n].ptr
                                         && s2.nodes[n].cookie == s.nodes[n].cookie
                                         && (s2.nodes[n].proc == s.nodes[n].proc || s2.nodes[n].proc == None)
    ensures Persists(s, s2)
  {
  }

  lemma DecNodePersists(s: State, n: Nid, strong: bool, internal: bool)
    requires n in s.nodes
    ensures Persists(s, DecNode(s, n, strong, internal))
  {
    NodesSetPersists(s, DecNode(s, n, strong, internal));
  }

  lemma IncRefPersists(s: State, r: Rid, strong: bool, listed: bool)
    requires r in s.refs && s.refs[r].node in s.nodes
    ensures Persists(s, IncRef(s, r, strong, listed))
  {
  }

  lemma UnlinkPersists(s: State, r: Rid)
    requires r in s.refs && s.refs[r].node in s.nodes && s.refs[r].proc in s.procs
    ensures Persists(s, Unlink(s, r))
  {
  }

  lemma DeleteRefPersists(s: State, r: Rid)
    requires Inv(s) && r in s.refs && s.refs[r].node in s.nodes && s.refs[r].proc in s.procs
    ensures Persists(s, DeleteRef(s, r))
  {
    UnlinkPersists(s, r);
    DecNodePersists(Unlink(s, r), s.refs[r].node, false, true);
    PersistsTransitive(s, Unlink(s, r), DeleteRef(s, r));
  }

  lemma LoweredPersists(s: State, r: Rid, f1: Ref)
    requires r in s.refs && s.refs[r].node in s.nodes
    requires f1.proc == s.refs[r].proc && f1.node == s.refs[r].node && f1.desc == s.refs[r].desc
    ensures Persists(s, Lowered(s, r, f1))
  {
  }

  lemma DecRefPersists(s: State, r: Rid, strong: bool)
    requires Inv(s) && r in s.refs && s.refs[r].node in s.nodes && s.refs[r].proc in s.procs
    ensures Persists(s, DecRef(s, r, strong))
  {
    var f := s.refs[r];
    if if strong then f.strong > 0 else f.weak > 0 {
      var f1 := if strong then f.(strong := f.strong - 1) else f.(weak := f.weak - 1);
      var s1 := Lowered(s, r, f1);
      LoweredPersists(s, r, f1);
      if f1.strong == 0 && f1.weak == 0 {
        LoweredInv(s, r, f1);
        DeleteRefPersists(s1, r);
        PersistsTransitive(s, s1, DeleteRef(s1, r));
      }
    } else {
      NodesSetPersists(s, s);
    }
  }

  lemma NewNodePersists(s: State, p: Pid, ptr: Ptr, cookie: Ptr)
    requires Inv(s) && p in s.procs
    ensures Persists(s, NewNode(s, p, ptr, cookie))
  {
    NextIdIsFresh(s);
  }

  lemma NewRefPersists(s: State, p: Pid, n: Nid)
    requires Inv(s) && p in s.procs && n in s.nodes
    ensures Persists(s, NewRef(s, p, n))
  {
    NextIdIsFresh(s);
  }
}
