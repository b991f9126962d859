/**
  Rewriting the objects of a transaction as they cross from one process to
  another, and releasing them again.
 */
module Translation {
  import opened Options
  import opened NodeRefs
  import opened Handles
  import opened Persistence

  /** flat_binder_object: a local object, a handle, or anything else. */
  datatype Object =
    | BinderObject(strong: bool, ptr: Ptr, cookie: Ptr)
    | HandleObject(strong: bool, handle: Desc)
    | OtherObject

  /** Whether memory for a node and for a reference can be had. */
  datatype Memory = Memory(node: bool, ref: bool)

  /** The node that object `o` denotes to process `p`. */
  function Denotes(s: State, p: Pid, o: Object): Option<Nid> {
    match o
    case BinderObject(_, ptr, _) =>
      if p in s.procs && ptr in s.procs[p].nodes then Some(s.procs[p].nodes[ptr]) else None
    case HandleObject(_, h) =>
      if p in s.procs && h in s.procs[p].byDesc && s.procs[p].byDesc[h] in s.refs
      then Some(s.refs[s.procs[p].byDesc[h]].node) else None
    case OtherObject => None
  }

  /** binder_get_ref_for_node followed by binder_inc_ref. */
  function Refer(s: State, p: Pid, n: Nid, strong: bool, listed: bool, mem: Memory): (bool, State, Object)
    requires Inv(s) && p in s.procs && n in s.nodes
  {
    if n in s.procs[p].byNode then
      assert ProcOk(s, p);
      var r := s.procs[p].byNode[n];
      (true, IncRef(s, r, strong, listed), HandleObject(strong, s.refs[r].desc))
    else if !mem.ref then (false, s, OtherObject)
    else
      var s1 := NewRef(s, p, n);
      (true, IncRef(s1, s.nextId, strong, listed), HandleObject(strong, s1.refs[s.nextId].desc))
  }

  /** Lines 1529-1541: the sender's node, new if it has none at that pointer. */
  function SendersNode(s: State, sender: Pid, ptr: Ptr, cookie: Ptr, mem: Memory): Option<State>
    requires sender in s.procs
  {
    if ptr in s.procs[sender].nodes then Some(s)
    else if !mem.node then None
    else Some(NewNode(s, sender, ptr, cookie))
  }

  lemma SendersNodeInv(s: State, sender: Pid, ptr: Ptr, cookie: Ptr, mem: Memory)
    requires Inv(s) && sender in s.procs
    ensures var o := SendersNode(s, sender, ptr, cookie, mem);
            o.Some? ==>
              && Inv(o.value) && sender in o.value.procs && ptr in o.value.procs[sender].nodes
              && o.value.procs.Keys == s.procs.Keys
              && o.value.procs[sender].nodes[ptr] in o.value.nodes
  {
    if ptr in s.procs[sender].nodes {
      assert ProcOk(s, sender);
    } else if mem.node {
      NewNodeInv(s, sender, ptr, cookie);
    }
  }

  /** Lines 1528-1573: the owner sends one of its own objects.  On failure there may be a new, unused node. */
  ghost function FromOwner(s: State, sender: Pid, target: Pid, strong: bool, ptr: Ptr, cookie: Ptr,
                           mem: Memory): (bool, State, Object)
    requires Inv(s) && sender in s.procs && target in s.procs
  {
    SendersNodeInv(s, sender, ptr, cookie, mem);
    var s1 := SendersNode(s, sender, ptr, cookie, mem);
    if s1.None? then (false, s, OtherObject)
    else
      var n := s1.value.procs[sender].nodes[ptr];
      if cookie != s1.value.nodes[n].cookie then (false, s1.value, OtherObject)
      else Refer(s1.value, target, n, strong, true, mem)
  }

  /** Lines 1574-1620: the holder of a handle sends it, to the owner or to another process. */
  ghost function FromHolder(s: State, sender: Pid, target: Pid, strong: bool, h: Desc, mem: Memory): (bool, State,
                            Object)
    requires Inv(s) && sender in s.procs && target in s.procs
  {
    assert ProcOk(s, sender);
    if h !in s.procs[sender].byDesc then (false, s, OtherObject)
    else
      assert RefOk(s, s.procs[sender].byDesc[h]);
      var n := s.refs[s.procs[sender].byDesc[h]].node;
      if s.nodes[n].proc == Some(target) then
        (true, s.(nodes := s.nodes[n := IncNode(s.nodes[n], strong, false, false, s.mgr == Some(n)).1]),
         BinderObject(strong, s.nodes[n].ptr, s.nodes[n].cookie))
      else Refer(s, target, n, strong, false, mem)
  }

  ghost function Translate(s: State, sender: Pid, target: Pid, o: Object, mem: Memory): (bool, State, Object)
    requires Inv(s) && sender in s.procs && target in s.procs
  {
    match o
    case BinderObject(strong, ptr, cookie) => FromOwner(s, sender, target, strong, ptr, cookie, mem)
    case HandleObject(strong, h) => FromHolder(s, sender, target, strong, h, mem)
    case OtherObject => (false, s, OtherObject)
  }

  // ----- translation keeps the invariant and every meaning

  /** Node `n` keeps its owner, pointer and cookie. */
  ghost predicate NodeStays(s: State, s2: State, n: Nid)
    requires n in s.nodes
  {
    && n in s2.nodes && s2.nodes[n].proc == s.nodes[n].proc
    && s2.nodes[n].ptr == s.nodes[n].ptr && s2.nodes[n].cookie == s.nodes[n].cookie
  }

  ghost predicate RefStays(s: State, s2: State, r: Rid)
    requires r in s.refs
  {
    && r in s2.refs && s2.refs[r].proc == s.refs[r].proc
    && s2.refs[r].node == s.refs[r].node && s2.refs[r].desc == s.refs[r].desc
  }

  /** The three indexes of process `p` keep their entries. */
  ghost predicate ProcStays(s: State, s2: State, p: Pid)
    requires p in s.procs
  {
    && p in s2.procs
    && (forall a | a in s.procs[p].nodes :: a in s2.procs[p].nodes && s2.procs[p].nodes[a] == s.procs[p].nodes[a])
    && (forall d | d in s.procs[p].byDesc :: d in s2.procs[p].byDesc && s2.procs[p].byDesc[d] == s.procs[p].byDesc[d])
    && (forall n | n in s.procs[p].byNode :: n in s2.procs[p].byNode && s2.procs[p].byNode[n] == s.procs[p].byNode[n])
  }

  /** Whatever `s` has `s2` still has, meaning the same. */
  ghost predicate Grows(s: State, s2: State) {
    && s2.procs.Keys == s.procs.Keys && s2.mgr == s.mgr
    && (forall n {:trigger NodeStays(s, s2, n)} | n in s.nodes :: NodeStays(s, s2, n))
    && (forall r {:trigger RefStays(s, s2, r)} | r in s.refs :: RefStays(s, s2, r))
    && (forall p {:trigger ProcStays(s, s2, p)} | p in s.procs :: ProcStays(s, s2, p))
  }

  lemma GrowsKeepsMeaning(s: State, s2: State, p: Pid, o: Object)
    requires Grows(s, s2)
    ensures Denotes(s, p, o).Some? ==> Denotes(s2, p, o) == Denotes(s, p, o)
  {
    if p in s.procs {
      assert ProcStays(s, s2, p);
      if o.HandleObject? && o.handle in s.procs[p].byDesc && s.procs[p].byDesc[o.handle] in s.refs {
        assert RefStays(s, s2, s.procs[p].byDesc[o.handle]);
      }
    }
  }

  lemma GrowsTransitive(s: State, s1: State, s2: State)
    requires Grows(s, s1) && Grows(s1, s2)
    ensures Grows(s, s2)
  {
    forall n | n in s.nodes
      ensures NodeStays(s, s2, n)
    {
      assert NodeStays(s, s1, n) && NodeStays(s1, s2, n);
    }
    forall r | r in s.refs
      ensures RefStays(s, s2, r)
    {
      assert RefStays(s, s1, r) && RefStays(s1, s2, r);
    }
    forall p | p in s.procs
      ensures ProcStays(s, s2, p)
    {
      assert ProcStays(s, s1, p) && ProcStays(s1, s2, p);
    }
  }

  lemma NewRefGrows(s: State, p: Pid, n: Nid)
    requires Inv(s) && p in s.procs && n in s.nodes && n !in s.procs[p].byNode
    ensures Grows(s, NewRef(s, p, n))
  {
    NextIdIsFresh(s);
    LowestFreeIsLowest(s.procs[p].byDesc, Base(s, n));
  }

  lemma NewNodeGrows(s: State, p: Pid, ptr: Ptr, cookie: Ptr)
    requires Inv(s) && p in s.procs && ptr !in s.procs[p].nodes
    ensures Grows(s, NewNode(s, p, ptr, cookie))
  {
    NextIdIsFresh(s);
  }

  lemma IncRefGrows(s: State, r: Rid, strong: bool, listed: bool)
    requires r in s.refs && s.refs[r].node in s.nodes
    ensures Grows(s, IncRef(s, r, strong, listed))
  {
  }

  /** binder_inc_ref keeps the invariant and every meaning. */
  lemma ReferOldGrows(s: State, p: Pid, n: Nid, strong: bool, listed: bool)
    requires Inv(s) && p in s.procs && n in s.nodes && n in s.procs[p].byNode
    ensures s.procs[p].byNode[n] in s.refs && s.refs[s.procs[p].byNode[n]].node == n
    ensures var r := s.procs[p].byNode[n]; var s2 := IncRef(s, r, strong, listed);
            && Inv(s2) && Grows(s, s2) && Denotes(s2, p, HandleObject(strong, s.refs[r].desc)) == Some(n)
  {
    assert ProcOk(s, p);
    var r := s.procs[p].byNode[n];
    assert RefOk(s, r);
    IncRefInv(s, r, strong, listed);
    IncRefGrows(s, r, strong, listed);
    GrowsKeepsMeaning(s, IncRef(s, r, strong, listed), p, HandleObject(strong, s.refs[r].desc));
  }

  lemma ReferNewGrows(s: State, p: Pid, n: Nid, strong: bool, listed: bool)
    requires Inv(s) && p in s.procs && n in s.nodes && n !in s.procs[p].byNode
    ensures var s1 := NewRef(s, p, n); var s2 := IncRef(s1, s.nextId, strong, listed);
            && Inv(s2) && Grows(s, s2) && Denotes(s2, p, HandleObject(strong, s1.refs[s.nextId].desc)) == Some(n)
  {
    var s1 := NewRef(s, p, n);
    NewRefInv(s, p, n);
    NewRefGrows(s, p, n);
    ReferOldGrows(s1, p, n, strong, listed);
    GrowsTransitive(s, s1, IncRef(s1, s.nextId, strong, listed));
  }

  lemma ReferGrows(s: State, p: Pid, n: Nid, strong: bool, listed: bool, mem: Memory)
    requires Inv(s) && p in s.procs && n in s.nodes
    ensures var t := Refer(s, p, n, strong, listed, mem);
            && Inv(t.1) && Grows(s, t.1)
            && (t.0 ==> t.2.HandleObject? && t.2.strong == strong && Denotes(t.1, p, t.2) == Some(n))
  {
    if n in s.procs[p].byNode {
      ReferOldGrows(s, p, n, strong, listed);
    } else if mem.ref {
      ReferNewGrows(s, p, n, strong, listed);
    }
  }

  /**
    One hop keeps an object's identity: what arrives denotes to the target the node
    that was sent, held as strongly.  It is in the owner's own pointer and cookie just
    when a handle was sent to the owner; an owner that sends its own object, be it to
    itself, sends a handle.
   */
  lemma TranslateKeepsIdentity(s: State, sender: Pid, target: Pid, o: Object, mem: Memory)
    requires Inv(s) && sender in s.procs && target in s.procs
    ensures var t := Translate(s, sender, target, o, mem);
            Inv(t.1) && Grows(s, t.1) && (t.0 ==> SameMeaning(t.1, sender, target, o, t.2))
  {
    match o
    case BinderObject(_, _, _) => TranslateBinder(s, sender, target, o, mem);
    case HandleObject(_, _) => TranslateHandle(s, sender, target, o, mem);
    case OtherObject =>
  }

  /** `o` means to the sender what `o2` means to the target. */
  ghost predicate SameMeaning(s: State, sender: Pid, target: Pid, o: Object, o2: Object) {
    && !o.OtherObject? && !o2.OtherObject? && o2.strong == o.strong
    && Denotes(s, sender, o).Some?
    && Denotes(s, target, o2) == Denotes(s, sender, o)
    && var n := Denotes(s, sender, o).value;
       && n in s.nodes
       && (o.BinderObject? ==> IsOwners(s, sender, o, n))
       && (o2.BinderObject? ==> IsOwners(s, target, o2, n))
       && (o2.BinderObject? <==> o.HandleObject? && s.nodes[n].proc == Some(target))
  }

  /** `o` is node `n` in its owner's own terms. */
  ghost predicate IsOwners(s: State, p: Pid, o: Object, n: Nid)
    requires o.BinderObject?
  {
    n in s.nodes && s.nodes[n].proc == Some(p) && s.nodes[n].ptr == o.ptr && s.nodes[n].cookie == o.cookie
  }

  lemma TranslateBinder(s: State, sender: Pid, target: Pid, o: Object, mem: Memory)
    requires Inv(s) && sender in s.procs && target in s.procs && o.BinderObject?
    ensures var t := FromOwner(s, sender, target, o.strong, o.ptr, o.cookie, mem);
            Inv(t.1) && Grows(s, t.1) && (t.0 ==> SameMeaning(t.1, sender, target, o, t.2))
  {
    SendersNodeInv(s, sender, o.ptr, o.cookie, mem);
    var s1 := SendersNode(s, sender, o.ptr, o.cookie, mem);
    if s1.Some? {
      SendersNodeGrows(s, sender, o.ptr, o.cookie, mem);
      var n := s1.value.procs[sender].nodes[o.ptr];
      assert ProcOk(s1.value, sender);
      if o.cookie == s1.value.nodes[n].cookie {
        ReferGrows(s1.value, target, n, o.strong, true, mem);
        var t := Refer(s1.value, target, n, o.strong, true, mem);
        GrowsTransitive(s, s1.value, t.1);
        ReferMeans(s1.value, t.1, sender, target, o, t.2, n, t.0);
      }
    }
  }

  lemma SendersNodeGrows(s: State, sender: Pid, ptr: Ptr, cookie: Ptr, mem: Memory)
    requires Inv(s) && sender in s.procs && SendersNode(s, sender, ptr, cookie, mem).Some?
    ensures Grows(s, SendersNode(s, sender, ptr, cookie, mem).value)
  {
    if ptr !in s.procs[sender].nodes {
      NewNodeGrows(s, sender, ptr, cookie);
    }
  }

  /** A handle to the node that `o` denoted to the sender means the same to the target. */
  lemma ReferMeans(s1: State, s2: State, sender: Pid, target: Pid, o: Object, o2: Object, n: Nid, ok: bool)
    requires Grows(s1, s2) && !o.OtherObject? && Denotes(s1, sender, o) == Some(n) && n in s1.nodes
    requires o.BinderObject? ==> IsOwners(s1, sender, o, n)
    requires o.HandleObject? ==> s1.nodes[n].proc != Some(target)
    requires ok ==> o2.HandleObject? && o2.strong == o.strong && Denotes(s2, target, o2) == Some(n)
    ensures ok ==> SameMeaning(s2, sender, target, o, o2)
  {
    GrowsKeepsMeaning(s1, s2, sender, o);
    assert NodeStays(s1, s2, n);
  }

  lemma TranslateHandle(s: State, sender: Pid, target: Pid, o: Object, mem: Memory)
    requires Inv(s) && sender in s.procs && target in s.procs && o.HandleObject?
    ensures var t := FromHolder(s, sender, target, o.strong, o.handle, mem);
            Inv(t.1) && Grows(s, t.1) && (t.0 ==> SameMeaning(t.1, sender, target, o, t.2))
  {
    assert ProcOk(s, sender);
    if o.handle in s.procs[sender].byDesc {
      assert RefOk(s, s.procs[sender].byDesc[o.handle]);
      var n := s.refs[s.procs[sender].byDesc[o.handle]].node;
      if s.nodes[n].proc == Some(target) {
        ReturnToOwner(s, sender, target, o, n);
      } else {
        ReferGrows(s, target, n, o.strong, false, mem);
        var t := Refer(s, target, n, o.strong, false, mem);
        ReferMeans(s, t.1, sender, target, o, t.2, n, t.0);
      }
    }
  }

  lemma ReturnToOwner(s: State, sender: Pid, target: Pid, o: Object, n: Nid)
    requires Inv(s) && o.HandleObject? && Denotes(s, sender, o) == Some(n)
    requires n in s.nodes && s.nodes[n].proc == Some(target)
    ensures var s2 := s.(nodes := s.nodes[n := IncNode(s.nodes[n], o.strong, false, false, s.mgr == Some(n)).1]);
            Inv(s2) && Grows(s, s2) && SameMeaning(s2, sender, target, o,
                                                   BinderObject(o.strong, s.nodes[n].ptr, s.nodes[n].cookie))
  {
    IncLocalInv(s, n, o.strong, false, s.mgr == Some(n));
    assert NodeOk(s, n);
  }

  // ----- when an object can be sent

  /** Process `p` has a reference to node `n`, or there is memory for one. */
  predicate CanRefer(s: State, p: Pid, n: Option<Nid>, mem: Memory)
    requires p in s.procs
  {
    (n.Some? && n.value in s.procs[p].byNode) || mem.ref
  }

  /**
    An owner's object needs its node or memory for one, and the cookie that the node was
    made with; a handle needs to be one of the sender's.  What does not go home needs a
    reference of the target.
   */
  predicate CanSend(s: State, sender: Pid, target: Pid, o: Object, mem: Memory)
    requires sender in s.procs && target in s.procs
  {
    var n := Denotes(s, sender, o);
    match o
    case BinderObject(_, _, cookie) =>
      && (if n.Some? then n.value in s.nodes && s.nodes[n.value].cookie == cookie else mem.node)
      && CanRefer(s, target, n, mem)
    case HandleObject(_, _) =>
      n.Some? && n.value in s.nodes && (s.nodes[n.value].proc == Some(target) || CanRefer(s, target, n, mem))
    case OtherObject => false
  }

  lemma SendsIff(s: State, sender: Pid, target: Pid, o: Object, mem: Memory)
    requires Inv(s) && sender in s.procs && target in s.procs
    ensures Translate(s, sender, target, o, mem).0 <==> CanSend(s, sender, target, o, mem)
  {
    NextIdIsFresh(s);
    assert ProcOk(s, sender) && ProcOk(s, target);
    if o.HandleObject? && o.handle in s.procs[sender].byDesc {
      assert RefOk(s, s.procs[sender].byDesc[o.handle]);
    }
    if o.BinderObject? {
      SendersNodeInv(s, sender, o.ptr, o.cookie, mem);
      forall m | m in s.procs[target].byNode
        ensures m in s.nodes
      {
        assert RefOk(s, s.procs[target].byNode[m]);
      }
    }
  }

  // ----- translation persists

  lemma ReferPersists(s: State, p: Pid, n: Nid, strong: bool, listed: bool, mem: Memory)
    requires Inv(s) && p in s.procs && n in s.nodes
    ensures Persists(s, Refer(s, p, n, strong, listed, mem).1)
  {
    assert ProcOk(s, p);
    if n in s.procs[p].byNode {
      IncRefPersists(s, s.procs[p].byNode[n], strong, listed);
    } else if mem.ref {
      var s1 := NewRef(s, p, n);
      NewRefPersists(s, p, n);
      IncRefPersists(s1, s.nextId, strong, listed);
      PersistsTransitive(s, s1, IncRef(s1, s.nextId, strong, listed));
    } else {
      NodesSetPersists(s, s);
    }
  }

  lemma OwnerPersists(s: State, sender: Pid, target: Pid, o: Object, mem: Memory)
    requires Inv(s) && sender in s.procs && target in s.procs && o.BinderObject?
    ensures Persists(s, FromOwner(s, sender, target, o.strong, o.ptr, o.cookie, mem).1)
  {
    SendersNodeInv(s, sender, o.ptr, o.cookie, mem);
    NodesSetPersists(s, s);
    var s1 := SendersNode(s, sender, o.ptr, o.cookie, mem);
    if s1.Some? {
      if o.ptr !in s.procs[sender].nodes {
        NewNodePersists(s, sender, o.ptr, o.cookie);
      }
      var n := s1.value.procs[sender].nodes[o.ptr];
      if o.cookie == s1.value.nodes[n].cookie {
        ReferPersists(s1.value, target, n, o.strong, true, mem);
        PersistsTransitive(s, s1.value, Refer(s1.value, target, n, o.strong, true, mem).1);
      }
    }
  }

  lemma HolderPersists(s: State, sender: Pid, target: Pid, o: Object, mem: Memory)
    requires Inv(s) && sender in s.procs && target in s.procs && o.HandleObject?
    ensures Persists(s, FromHolder(s, sender, target, o.strong, o.handle, mem).1)
  {
    assert ProcOk(s, sender);
    NodesSetPersists(s, s);
    if o.handle in s.procs[sender].byDesc {
      assert RefOk(s, s.procs[sender].byDesc[o.handle]);
      var n := s.refs[s.procs[sender].byDesc[o.handle]].node;
      if s.nodes[n].proc == Some(target) {
        NodesSetPersists(s, s.(nodes := s.nodes[n := IncNode(s.nodes[n], o.strong, false, false, s.mgr == Some(n)).1]));
      } else {
        ReferPersists(s, target, n, o.strong, false, mem);
      }
    }
  }

  lemma TranslatePersists(s: State, sender: Pid, target: Pid, o: Object, mem: Memory)
    requires Inv(s) && sender in s.procs && target in s.procs
    ensures Persists(s, Translate(s, sender, target, o, mem).1)
  {
    match o
    case BinderObject(_, _, _) => OwnerPersists(s, sender, target, o, mem);
    case HandleObject(_, _) => HolderPersists(s, sender, target, o, mem);
    case OtherObject => NodesSetPersists(s, s);
  }

  // ----- an object in the hands of a process

  /**
    What process `p` holds object `o` by in `s` is still there in `s2`: the reference
    that its handle denotes, or, for the owner, the node with its owner.
   */
  ghost predicate Held(s: State, s2: State, p: Pid, o: Object) {
    && p in s.procs
    && match o
       case HandleObject(_, h) => h in s.procs[p].byDesc && s.procs[p].byDesc[h] in s2.refs
       case BinderObject(_, ptr, _) =>
         ptr in s.procs[p].nodes && s.procs[p].nodes[ptr] in s2.nodes && s2.nodes[s.procs[p].nodes[ptr]].proc.Some?
       case OtherObject => false
  }

  /** As long as it is held an object denotes the same node, whatever happens, and even when the owner goes. */
  lemma HeldMeansTheSame(s: State, s2: State, p: Pid, o: Object)
    requires Inv(s) && Inv(s2) && Persists(s, s2) && Held(s, s2, p, o)
    ensures Denotes(s, p, o).Some? && Denotes(s2, p, o) == Denotes(s, p, o)
    ensures var n := Denotes(s, p, o).value; n in s.nodes && n in s2.nodes && NodePersists(s, s2, n)
  {
    assert ProcOk(s, p);
    match o
    case HandleObject(_, h) =>
      var r := s.procs[p].byDesc[h];
      assert RefPersists(s, s2, r);
      assert RefOk(s, r) && RefOk(s2, r);
      assert NodePersists(s, s2, s.refs[r].node);
    case BinderObject(_, ptr, _) =>
      var n := s.procs[p].nodes[ptr];
      assert NodePersists(s, s2, n) && NodeOk(s2, n);
    case OtherObject =>
  }

  // ----- chains of hops

  /**
    A forwarding chain.  Hop `i` takes os[i] from ps[i] to ps[i + 1] in state pre[i],
    giving post[i]; between hops anything may happen while the holder keeps the
    reference, or the owner its node.
   */
  ghost predicate Hops(pre: seq<State>, post: seq<State>, ps: seq<Pid>, os: seq<Object>, mems: seq<Memory>) {
    && 0 < |pre| == |post| == |mems| && |ps| == |os| == |pre| + 1
    && (forall i {:trigger pre[i]} | 0 <= i < |pre| ::
        Hop(pre[i], ps[i], os[i], mems[i], post[i], ps[i + 1], os[i + 1]))
    && (forall i {:trigger post[i]} | 0 <= i < |pre| - 1 ::
          Persists(post[i], pre[i + 1]) && Held(post[i], pre[i + 1], ps[i + 1], os[i + 1]))
  }

  ghost predicate Hop(s: State, p: Pid, o: Object, mem: Memory, s2: State, q: Pid, o2: Object) {
    Inv(s) && p in s.procs && q in s.procs && Translate(s, p, q, o, mem) == (true, s2, o2)
  }

  lemma HopFacts(s: State, p: Pid, o: Object, mem: Memory, s2: State, q: Pid, o2: Object)
    requires Hop(s, p, o, mem, s2, q, o2)
    ensures Inv(s) && Inv(s2) && Grows(s, s2) && SameMeaning(s2, p, q, o, o2)
  {
    TranslateKeepsIdentity(s, p, q, o, mem);
  }

  /**
    `o` meant to process `p` in `s` what `o2` means to `q` in `s2`: the same node,
    as strongly; each of them, if it is not a handle, in the owner's own pointer and
    cookie.  The owner is the same, or gone.
   */
  ghost predicate SameIdentity(s: State, p: Pid, o: Object, s2: State, q: Pid, o2: Object) {
    && !o.OtherObject? && !o2.OtherObject? && o2.strong == o.strong
    && Denotes(s, p, o).Some? && Denotes(s2, q, o2) == Denotes(s, p, o)
    && var n := Denotes(s, p, o).value;
       && n in s.nodes && n in s2.nodes && NodePersists(s, s2, n)
       && (o.BinderObject? ==> IsOwners(s, p, o, n))
       && (o2.BinderObject? ==> IsOwners(s, q, o2, n) && IsOwners(s2, q, o2, n))
       && (o.BinderObject? && o2.BinderObject? ==> q == p && o2 == o)
  }

  /**
    Identity along chains of any length, while each holder keeps its reference: what
    arrives at any hop denotes the node that was first sent, as strongly, and it is in
    the owner's own pointer and cookie just when the hop took a handle to the owner.
   */
  lemma {:induction false} ChainKeepsIdentity(pre: seq<State>, post: seq<State>, ps: seq<Pid>, os: seq<Object>,
                                              mems: seq<Memory>, m: nat)
    requires Hops(pre, post, ps, os, mems) && 1 <= m <= |pre|
    ensures SameIdentity(post[0], ps[0], os[0], post[m - 1], ps[m], os[m])
    ensures os[m].BinderObject? <==>
              os[m - 1].HandleObject? && post[m - 1].nodes[Denotes(post[0], ps[0], os[0]).value].proc == Some(ps[m])
    decreases m
  {
    var s2, o, o2 := post[m - 1], os[m - 1], os[m];
    HopFacts(pre[m - 1], ps[m - 1], o, mems[m - 1], s2, ps[m], o2);
    if m > 1 {
      ChainKeepsIdentity(pre, post, ps, os, mems, m - 1);
      HopFacts(pre[m - 2], ps[m - 2], os[m - 2], mems[m - 2], post[m - 2], ps[m - 1], o);
      HeldMeansTheSame(post[m - 2], pre[m - 1], ps[m - 1], o);
      NextHop(post[0], ps[0], os[0], post[m - 2], pre[m - 1], s2, ps[m - 1], o, ps[m], o2);
    }
  }

  /**
    The round trip: what an owner sent comes back to it, after any number of hops, as
    just what it sent; unless the last hop was from the owner to itself, with the
    object in its own hands again, which makes it a handle.
   */
  lemma ReturnsToOwner(pre: seq<State>, post: seq<State>, ps: seq<Pid>, os: seq<Object>, mems: seq<Memory>, m: nat)
    requires Hops(pre, post, ps, os, mems) && 1 <= m <= |pre|
    requires os[0].BinderObject? && ps[m] == ps[0]
    ensures Denotes(post[0], ps[0], os[0]).Some?
    ensures var n := Denotes(post[0], ps[0], os[0]).value;
            n in post[m - 1].nodes && (post[m - 1].nodes[n].proc.Some? ==>
                                       (os[m] == os[0] <==> os[m - 1].HandleObject?))
    ensures ps[m - 1] != ps[0] ==> os[m - 1].HandleObject?
  {
    ChainKeepsIdentity(pre, post, ps, os, mems, m);
    HopFacts(pre[m - 1], ps[m - 1], os[m - 1], mems[m - 1], post[m - 1], ps[m], os[m]);
    if 1 < m {
      ChainKeepsIdentity(pre, post, ps, os, mems, m - 1);
    }
  }

  lemma NextHop(s0: State, p0: Pid, o0: Object, s: State, s1: State, s2: State, p: Pid, o: Object, q: Pid, o2: Object)
    requires SameIdentity(s0, p0, o0, s, p, o) && Denotes(s1, p, o) == Denotes(s, p, o)
    requires var n := Denotes(s, p, o).value; n in s1.nodes && NodePersists(s, s1, n)
    requires Grows(s1, s2) && SameMeaning(s2, p, q, o, o2)
    ensures SameIdentity(s0, p0, o0, s2, q, o2)
  {
    GrowsKeepsMeaning(s1, s2, p, o);
    assert NodeStays(s1, s2, Denotes(s, p, o).value);
  }
}
