/**
  The commands and works about death notifications, on the driver's own tables.
 */
module DeathNotices {
  import opened Options
  import opened Deaths

  /** What a thread reads: BR_DEAD_BINDER or BR_CLEAR_DEATH_NOTIFICATION_DONE, with the cookie. */
  datatype Notice = Dead(cookie: nat) | ClearDone(cookie: nat)

  class DeathNotices {
    var refs: map<Rid, Ref>
    var nodes: map<Nid, Node>
    var records: map<Did, Record>
    var lists: map<List, seq<Did>>
    var nextId: nat
    ghost var attached: map<Did, Option<Rid>>
    ghost var owner: map<Did, Pid>
    ghost var log: map<Did, seq<Event>>
    ghost var freed: set<Did>
    ghost var about: map<Did, Nid>
    ghost var died: set<Nid>

    ghost function View(): State
      reads this
    {
      State(refs, nodes, records, lists, nextId, attached, owner, log, freed, about, died)
    }

    ghost predicate Valid()
      reads this
    {
      Inv(View())
    }

    constructor ()
      ensures Valid() && View() == State(map[], map[], map[], map[], 0, map[], map[], map[], {}, map[], {})
    {
      refs, nodes, records, lists, nextId := map[], map[], map[], map[], 0;
      attached, owner, log, freed, about, died := map[], map[], map[], {}, map[], {};
    }

    method NewProc(p: Pid)
      requires Valid() && forall l | l in lists :: l.p != p
      modifies `lists
      ensures Valid() && lists == old(lists)[ProcTodo(p) := []][Delivered(p) := []]
    {
      ghost var s := View();
      DeadDied(s);
      lists := lists[ProcTodo(p) := []][Delivered(p) := []];
      forall l | l in s.lists && ProcTodo(l.p) in lists
        ensures Delivered(l.p) in lists
      {
        assert ListOk(s, l);
      }
      ExtendInv(s, View());
    }

    method NewThread(p: Pid, t: Tid)
      requires Valid() && ProcTodo(p) in lists && ThreadTodo(p, t) !in lists
      modifies `lists
      ensures Valid() && lists == old(lists)[ThreadTodo(p, t) := []]
    {
      ghost var s := View();
      assert ListOk(s, ProcTodo(p));
      DeadDied(s);
      lists := lists[ThreadTodo(p, t) := []];
      forall l | l in s.lists && ProcTodo(l.p) in lists
        ensures Delivered(l.p) in lists
      {
        assert ListOk(s, l);
      }
      ExtendInv(s, View());
    }

    method NewNode(p: Pid) returns (n: Nid)
      requires Valid()
      modifies `nodes, `nextId
      ensures Valid() && n !in old(nodes) && nodes == old(nodes)[n := Node(p, false, [])]
    {
      ghost var s := View();
      FreshId(s);
      n := nextId;
      DeadDied(s);
      nodes := nodes[n := Node(p, false, [])];
      nextId := nextId + 1;
      forall l | l in s.lists && ProcTodo(l.p) in lists
        ensures Delivered(l.p) in lists
      {
        assert ListOk(s, l);
      }
      ExtendInv(s, View());
    }

    method NewRef(p: Pid, n: Nid) returns (r: Rid)
      requires Valid() && n in nodes && ProcTodo(p) in lists
      modifies `refs, `nodes, `nextId
      ensures Valid() && r == old(nextId) && r !in old(refs) && View() == AddRef(old(View()), p, n)
      ensures refs == old(refs)[r := Ref(p, n, None)]
      ensures nodes == old(nodes)[n := old(nodes)[n].(refs := [r] + old(nodes)[n].refs)]
    {
      FreshId(View());
      AddRefInv(View(), p, n);
      r := nextId;
      refs := refs[r := Ref(p, n, None)];
      nodes := nodes[n := nodes[n].(refs := [r] + nodes[n].refs)];
      nextId := nextId + 1;
    }

    /** A thread that loops gets the work itself; otherwise the process does. */
    function ListFor(p: Pid, t: Tid, looping: bool): List {
      if looping then ThreadTodo(p, t) else ProcTodo(p)
    }

    /** BC_REQUEST_DEATH_NOTIFICATION by thread `t` of process `p`, for the reference that its handle denotes. */
    method RequestDeath(p: Pid, t: Tid, looping: bool, found: Option<Rid>, cookie: nat, memory: bool) returns (ok: bool)
      requires Valid() && ListFor(p, t, looping) in lists
      requires found.Some? ==> found.value in refs && refs[found.value].proc == p
      modifies this
      ensures Valid()
      ensures ok <==> found.Some? && old(refs)[found.value].death == None && memory
      ensures !ok ==> View() == old(View())
      ensures ok ==> old(refs)[found.value].node in old(nodes)
                     && View() == Request(old(View()), found.value, cookie, ListFor(p, t, looping))
      ensures ok ==> WasRequested(old(View()), View(), found.value, cookie, ListFor(p, t, looping))
    {
      if found.None? || refs[found.value].death.Some? || !memory {
        return false;
      }
      ok := true;
      var r := found.value;
      assert RefOk(View(), r);
      var l := ListFor(p, t, looping);
      RequestInv(View(), r, cookie, l);
      RequestIs(View(), r, cookie, l);
      AddRecord(r, cookie, l);
    }

    /** Lines 2018-2038 */
    method AddRecord(r: Rid, cookie: nat, l: List)
      requires r in refs && refs[r].node in nodes && l in lists
      modifies this
      ensures View() == Request(old(View()), r, cookie, l)
    {
      ghost var s2 := Request(View(), r, cookie, l);
      var d := nextId;
      attached, owner, log, about := s2.attached, s2.owner, s2.log, s2.about;
      if nodes[refs[r].node].dead {
        records := records[d := Record(cookie, DeadBinder, Some(l))];
        lists := lists[l := lists[l] + [d]];
      } else {
        records := records[d := Record(cookie, Unset, None)];
      }
      assert records == s2.records && lists == s2.lists;
      refs := refs[r := refs[r].(death := Some(d))];
      nextId := d + 1;
      assert View() == s2;
    }

    /**
      BC_CLEAR_DEATH_NOTIFICATION; a record that is in a list is of type DEAD_BINDER,
      so line 2063 does not stop the driver.
     */
    method ClearDeath(p: Pid, t: Tid, looping: bool, found: Option<Rid>, cookie: nat) returns (ok: bool)
      requires Valid() && ListFor(p, t, looping) in lists
      requires found.Some? ==> found.value in refs && refs[found.value].proc == p
      modifies `refs, `records, `lists, `attached, `log
      ensures Valid()
      ensures ok <==> found.Some? && old(refs)[found.value].death.Some?
                      && old(refs)[found.value].death.value in old(records)
                      && old(records)[old(refs)[found.value].death.value].cookie == cookie
      ensures !ok ==> View() == old(View())
      ensures ok ==> old(refs)[found.value].death.value in old(log)
                     && View() == ClearRequest(old(View()), found.value, ListFor(p, t, looping))
      ensures ok ==> WasCleared(old(View()), View(), found.value, ListFor(p, t, looping))
    {
      if found.None? || refs[found.value].death.None? {
        return false;
      }
      var r := found.value;
      var l := ListFor(p, t, looping);
      ClearInv(View(), r, l);
      ClearIs(View(), r, l);
      ghost var s2 := ClearRequest(View(), r, l);
      var d := refs[r].death.value;
      if records[d].cookie != cookie {
        return false;
      }
      ok := true;
      attached, log := attached[d := None], log[d := log[d] + [Cleared]];
      refs := refs[r := refs[r].(death := None)];
      var x := records[d];
      if x.place == None {
        records := records[d := x.(kind := Clear, place := Some(l))];
        lists := lists[l := lists[l] + [d]];
      } else {
        assert x.kind == DeadBinder;
        records := records[d := x.(kind := DeadBinderAndClear)];
      }
      assert View() == s2;
    }

    ghost predicate FirstWithCookie(ds: seq<Did>, d: Did, cookie: nat)
      reads this
    {
      && d in records && records[d].cookie == cookie
      && exists i :: (0 <= i < |ds| && ds[i] == d
                      && forall j | 0 <= j < i :: ds[j] in records && records[ds[j]].cookie != cookie)
    }

    /** Lines 2076-2082: the first delivered record with the cookie. */
    method FindDelivered(p: Pid, cookie: nat) returns (d: Option<Did>)
      requires Valid() && Delivered(p) in lists
      ensures d.Some? ==> FirstWithCookie(lists[Delivered(p)], d.value, cookie)
      ensures d.None? ==> forall x | x in lists[Delivered(p)] :: x in records && records[x].cookie != cookie
    {
      assert ListOk(View(), Delivered(p));
      var i := 0;
      while i < |lists[Delivered(p)]|
        invariant 0 <= i <= |lists[Delivered(p)]|
        invariant forall j | 0 <= j < i :: lists[Delivered(p)][j] in records
                                           && records[lists[Delivered(p)][j]].cookie != cookie
      {
        var x := lists[Delivered(p)][i];
        assert x in lists[Delivered(p)];
        if records[x].cookie == cookie {
          return Some(x);
        }
        i := i + 1;
      }
      d := None;
    }

    /** BC_DEAD_BINDER_DONE */
    method DeadBinderDone(p: Pid, t: Tid, looping: bool, cookie: nat) returns (found: Option<Did>)
      requires Valid() && ListFor(p, t, looping) in lists && ProcTodo(p) in lists
      modifies `records, `lists
      ensures Valid()
      ensures found.None? ==> View() == old(View()) && Delivered(p) in lists
                              && forall x | x in lists[Delivered(p)] :: x in records && records[x].cookie != cookie
      ensures found.Some? ==> found.value in old(records) && old(records)[found.value].cookie == cookie
                              && old(records)[found.value].place == Some(Delivered(p)) && Delivered(p) in old(lists)
                              && View() == Acknowledge(old(View()), found.value, ListFor(p, t, looping))
      ensures found.Some? ==> WasAcknowledged(old(View()), View(), found.value, Delivered(p), ListFor(p, t, looping))
    {
      assert ListOk(View(), ProcTodo(p));
      assert ListOk(View(), Delivered(p));
      found := FindDelivered(p, cookie);
      if found.None? {
        return;
      }
      var d, l := found.value, ListFor(p, t, looping);
      assert d in lists[Delivered(p)];
      AcknowledgeInv(View(), d, l);
      AcknowledgeIs(View(), d, Delivered(p), l);
      MoveOn(d, Delivered(p), l);
    }

    /** Lines 2094-2103 */
    method MoveOn(d: Did, from: List, l: List)
      requires d in records && records[d].place == Some(from) && from in lists && l in lists && l != from
      modifies `records, `lists
      ensures View() == Acknowledge(old(View()), d, l)
    {
      var x := records[d];
      lists := lists[from := Without(lists[from], d)];
      if x.kind == DeadBinderAndClear {
        records := records[d := x.(kind := Clear, place := Some(l))];
        lists := lists[l := lists[l] + [d]];
      } else {
        records := records[d := x.(place := None)];
      }
    }

    /**
      binder_thread_read of a death record: the thread's own list first, the process's
      if the thread may wait for that.
     */
    method Read(p: Pid, t: Tid, waitForProcWork: bool) returns (told: Option<Notice>)
      requires Valid() && ThreadTodo(p, t) in lists && ProcTodo(p) in lists
      modifies `records, `lists, `freed, `log
      ensures Valid()
      ensures told.None? <==> old(lists)[ThreadTodo(p, t)] == [] && (old(lists)[ProcTodo(p)] == [] || !waitForProcWork)
      ensures told.None? ==> View() == old(View())
      ensures told.Some? ==>
                var l := if old(lists)[ThreadTodo(p, t)] != [] then ThreadTodo(p, t) else ProcTodo(p);
                && old(lists)[l] != [] && Delivered(p) in old(lists)
                && var d := old(lists)[l][0];
                   && d in old(records) && d in old(log) && View() == Take(old(View()), l)
                   && told.value == (if old(records)[d].kind == Clear then ClearDone(old(records)[d].cookie)
                                     else Dead(old(records)[d].cookie))
                   && d in log && log[d] == old(log)[d] + [if told.value.ClearDone? then ToldClear else ToldDead]
                       && Proper(log[d])
                   && (told.value.Dead? ==> d in about && about[d] in died)
                   && WasTaken(old(View()), View(), l)
    {
      var l := ThreadTodo(p, t);
      if lists[l] == [] {
        if lists[ProcTodo(p)] == [] || !waitForProcWork {
          return None;
        }
        l := ProcTodo(p);
      }
      assert ListOk(View(), ProcTodo(p));
      TakeInv(View(), l);
      TakeIs(View(), l);
      ghost var s2 := Take(View(), l);
      var d := lists[l][0];
      var x := records[d];
      lists := lists[l := lists[l][1..]];
      log := log[d := log[d] + [if x.kind == Clear then ToldClear else ToldDead]];
      if x.kind == Clear {
        told := Some(ClearDone(x.cookie));
        records := records - {d};
        freed := freed + {d};
      } else {
        told := Some(Dead(x.cookie));
        records := records[d := x.(place := Some(Delivered(p)))];
        lists := lists[Delivered(p) := lists[Delivered(p)] + [d]];
      }
      assert View() == s2;
      assert LogOk(s2, d);
    }

    // ----- references, nodes, threads and processes go

    /** Lines 1096-1103, in binder_delete_ref */
    method DropDeath(r: Rid)
      requires Valid() && r in refs && refs[r].death.Some?
      modifies `refs, `records, `lists, `freed
      ensures Valid() && refs == old(refs)[r := old(refs[r]).(death := None)] && lists.Keys == old(lists.Keys)
      ensures old(refs[r].death.value) in old(records) && old(refs[r].death.value) !in old(freed)
      ensures freed == old(freed) + {old(refs[r].death.value)} && records == old(records) - {old(refs[r].death.value)}
    {
      FreeDeathInv(View(), r);
      ghost var s2 := FreeDeath(View(), r);
      var d := refs[r].death.value;
      assert RecOk(View(), d);
      var x := records[d];
      if x.place.Some? {
        lists := lists[x.place.value := Without(lists[x.place.value], d)];
      }
      records := records - {d};
      freed := freed + {d};
      refs := refs[r := refs[r].(death := None)];
      assert View() == s2;
    }

    /** binder_delete_ref: the record of the reference is freed, and a dead node goes with its last reference. */
    method DeleteRef(r: Rid)
      requires Valid() && r in refs
      modifies `refs, `nodes, `records, `lists, `freed
      ensures Valid() && refs == old(refs) - {r} && lists.Keys == old(lists.Keys) && old(freed) <= freed
      ensures old(refs[r].death).Some? ==> old(refs[r].death).value in freed - old(freed)
    {
      if refs[r].death.Some? {
        DropDeath(r);
      }
      RemoveRefInv(View(), r);
      ghost var s2 := RemoveRef(View(), r);
      var n := refs[r].node;
      var left := Without(nodes[n].refs, r);
      nodes := if nodes[n].dead && left == [] then nodes - {n} else nodes[n := nodes[n].(refs := left)];
      refs := refs - {r};
      assert View() == s2;
      assert old(refs) - {r} == old(refs)[r := old(refs[r]).(death := None)] - {r};
    }

    /** How many of the references are visited: those before the first without a record. */
    ghost predicate Stops(rs: seq<Rid>, k: nat)
      reads this
    {
      && k <= |rs|
      && (forall i | 0 <= i < k :: rs[i] in refs && refs[rs[i]].death.Some?)
      && (k < |rs| ==> rs[k] in refs && refs[rs[k]].death == None)
    }

    /** Before its node dies, the records of a reference are in no list and of no type. */
    lemma AliveUnset(n: Nid, r: Rid)
      requires Valid() && n in nodes && !nodes[n].dead && r in nodes[n].refs
      ensures r in refs && refs[r].node == n
      ensures refs[r].death.Some? ==> refs[r].death.value in records && records[refs[r].death.value].kind == Unset
    {
      assert NodeOk(View(), n);
      assert RefOk(View(), r);
      if refs[r].death.Some? {
        assert RecOk(View(), refs[r].death.value);
      }
    }

    /** No record belongs to two references. */
    lemma DistinctDeaths(r: Rid)
      requires Valid() && r in refs && refs[r].death.Some?
      ensures forall q | q in refs && q != r :: refs[q].death != refs[r].death
      ensures refs[r].death.value in attached && attached[refs[r].death.value] == Some(r)
    {
      assert RefOk(View(), r);
      forall q | q in refs && q != r
        ensures refs[q].death != refs[r].death
      {
        assert RefOk(View(), q);
      }
    }

    /** The reference's record was put in its process's list. */
    ghost predicate Told(r: Rid)
      reads this
    {
      && r in refs && refs[r].death.Some? && refs[r].death.value in records
      && records[refs[r].death.value].kind == DeadBinder
          && records[refs[r].death.value].place == Some(ProcTodo(refs[r].proc))
    }

    /** The reference has no record, or one that was never in a list. */
    ghost predicate Untold(r: Rid)
      reads this
    {
      r in refs && (refs[r].death.Some? ==> refs[r].death.value in records
                                            && records[refs[r].death.value].kind == Unset)
    }

    /** Records of other references are as they were. */
    twostate predicate OthersSame(rs: seq<Rid>)
      reads this
    {
      forall d | d in records && d in attached && (attached[d].None? || attached[d].value !in rs) ::
        d in old(records) && records[d] == old(records)[d]
    }

    /** Lines 3007-3022, one reference that has a record */
    method VisitRef(r: Rid)
      requires Valid() && r in refs && refs[r].death.Some? && refs[r].death.value in records
      requires records[refs[r].death.value].kind == Unset && refs[r].node in nodes && nodes[refs[r].node].dead
      modifies `records, `lists
      ensures Valid() && lists.Keys == old(lists.Keys)
      ensures ProcTodo(refs[r].proc) in old(lists) && View() == Visit(old(View()), r)
      ensures Told(r) && forall q | q in refs && q != r :: (old(Told(q)) ==> Told(q)) && (old(Untold(q)) ==> Untold(q))
      ensures OthersSame([r])
    {
      DistinctDeaths(r);
      var d := refs[r].death.value;
      VisitInv(View(), r);
      assert RecOk(View(), d);
      assert records[d].place == None;  // the BUG of line 3021
      var l := ProcTodo(refs[r].proc);
      records := records[d := records[d].(kind := DeadBinder, place := Some(l))];
      lists := lists[l := lists[l] + [d]];
    }

    /** Every reference with a record was told. */
    ghost predicate AllTold(rs: seq<Rid>)
      reads this
    {
      forall i {:trigger Told(rs[i])} | 0 <= i < |rs| && rs[i] in refs && refs[rs[i]].death.Some? :: Told(rs[i])
    }

    /** No reference with a record comes after one without. */
    ghost predicate NoneAfterGap(rs: seq<Rid>)
      reads this
    {
      forall i, j | 0 <= i < j < |rs| && rs[j] in refs && refs[rs[j]].death.Some? ::
          rs[i] in refs && refs[rs[i]].death.Some?
    }

    /** Exactly when the loop, which stops at the first reference without a record, tells them all. */
    lemma AllToldIff(rs: seq<Rid>, k: nat)
      requires Stops(rs, k)
      requires forall i {:trigger Told(rs[i])} | 0 <= i < k :: Told(rs[i])
      requires forall i {:trigger Untold(rs[i])} | k <= i < |rs| :: Untold(rs[i])
      ensures AllTold(rs) <==> NoneAfterGap(rs)
    {
      forall j | k <= j < |rs|
        ensures !Told(rs[j])
      {
        assert Untold(rs[j]);
      }
      if AllTold(rs) {
        forall i, j | 0 <= i < j < |rs| && rs[j] in refs && refs[rs[j]].death.Some?
          ensures rs[i] in refs && refs[rs[i]].death.Some?
        {
          assert Told(rs[j]);
        }
      }
      if NoneAfterGap(rs) {
        forall i | 0 <= i < |rs| && rs[i] in refs && refs[rs[i]].death.Some?
          ensures Told(rs[i])
        {
          assert i < k;
        }
      }
    }

    /** A turn of the loop */
    method VisitTurn(rs: seq<Rid>, k: nat)
      requires Valid() && k < |rs| && (forall i | 0 <= i < |rs| && i != k :: rs[i] != rs[k])
      requires Untold(rs[k]) && refs[rs[k]].death.Some? && refs[rs[k]].node in nodes && nodes[refs[rs[k]].node].dead
      requires forall i {:trigger Told(rs[i])} | 0 <= i < k :: Told(rs[i])
      requires forall i {:trigger Untold(rs[i])} | k < i < |rs| :: Untold(rs[i])
      modifies `records, `lists
      ensures Valid() && lists.Keys == old(lists.Keys) && records.Keys == old(records.Keys) && OthersSame([rs[k]])
      ensures forall i {:trigger Told(rs[i])} | 0 <= i <= k :: Told(rs[i])
      ensures forall i {:trigger Untold(rs[i])} | k < i < |rs| :: Untold(rs[i])
    {
      label before:
      VisitRef(rs[k]);
      forall i | 0 <= i < k
        ensures Told(rs[i])
      {
        assert old@before(Told(rs[i]));
      }
      forall i | k < i < |rs|
        ensures Untold(rs[i])
      {
        assert old@before(Untold(rs[i]));
      }
    }

    /** The loop of binder_node_release */
    method VisitRefs(n: Nid, rs: seq<Rid>) returns (visited: nat)
      requires Valid() && n in nodes && nodes[n].dead && nodes[n].refs == rs
      requires forall i {:trigger Untold(rs[i])} | 0 <= i < |rs| :: Untold(rs[i])
      modifies `records, `lists
      ensures Valid() && lists.Keys == old(lists.Keys) && records.Keys == old(records.Keys) && OthersSame(rs)
      ensures Stops(rs, visited)
      ensures forall i {:trigger Told(rs[i])} | 0 <= i < visited :: Told(rs[i])
      ensures forall i {:trigger Untold(rs[i])} | visited <= i < |rs| :: Untold(rs[i])
    {
      visited := 0;
      assert NodeOk(View(), n);
      while visited < |rs|
        invariant 0 <= visited <= |rs| && Valid() && lists.Keys == old(lists.Keys)
            && records.Keys == old(records.Keys) && OthersSame(rs)
        invariant forall i {:trigger Told(rs[i])} | 0 <= i < visited :: Told(rs[i])
        invariant forall i {:trigger Untold(rs[i])} | visited <= i < |rs| :: Untold(rs[i])
      {
        var r := rs[visited];
        assert Untold(rs[visited]);
        if refs[r].death == None {
          break;
        }
        VisitTurn(rs, visited);
        visited := visited + 1;
      }
      forall i | 0 <= i < visited
        ensures rs[i] in refs && refs[rs[i]].death.Some?
      {
        assert Told(rs[i]);
      }
    }

    /**
      binder_node_release: exactly the references before the first without a record are
      told; the loop stops there.
     */
    method ReleaseNode(n: Nid) returns (visited: nat)
      requires Valid() && n in nodes && !nodes[n].dead
      modifies `nodes, `records, `lists, `died
      ensures died == old(died) + {n}
      ensures Valid() && lists.Keys == old(lists.Keys) && records.Keys == old(records.Keys)
          && OthersSame(old(nodes[n].refs))
      ensures nodes == if old(nodes[n].refs) == [] then old(nodes) - {n}
          else old(nodes)[n := old(nodes[n]).(dead := true)]
      ensures Stops(old(nodes[n].refs), visited)
      ensures forall i | 0 <= i < visited :: Told(old(nodes[n].refs)[i])
      ensures forall i | visited <= i < |old(nodes[n].refs)| :: Untold(old(nodes[n].refs)[i])
      ensures AllTold(old(nodes[n].refs)) <==> NoneAfterGap(old(nodes[n].refs))
    {
      var rs := nodes[n].refs;
      if rs == [] {
        ReleaseEmpty(n);
        return 0;
      }
      forall i | 0 <= i < |rs|
        ensures Untold(rs[i])
      {
        AliveUnset(n, rs[i]);
      }
      MarkDead(n);
      visited := VisitRefs(n, rs);
      AllToldIff(rs, visited);
    }

    method ReleaseEmpty(n: Nid)
      requires Valid() && n in nodes && nodes[n].refs == []
      modifies `nodes, `died
      ensures Valid() && nodes == old(nodes) - {n} && died == old(died) + {n}
    {
      ghost var s := View();
      nodes, died := nodes - {n}, died + {n};
      forall l | l in s.lists
        ensures (l.ThreadTodo? ==> ProcTodo(l.p) in lists) && (ProcTodo(l.p) in lists ==> Delivered(l.p) in lists)
      {
        assert ListOk(s, l);
      }
      forall r | r in s.refs
        ensures ProcTodo(s.refs[r].proc) in lists && Delivered(s.refs[r].proc) in lists
      {
        assert RefOk(s, r);
      }
      ShrinkInv(s, View());
    }

    method MarkDead(n: Nid)
      requires Valid() && n in nodes
      modifies `nodes, `died
      ensures Valid() && nodes == old(nodes)[n := old(nodes[n]).(dead := true)] && died == old(died) + {n}
    {
      ghost var s := View();
      nodes, died := nodes[n := nodes[n].(dead := true)], died + {n};
      DeadDied(s);
      forall l | l in s.lists && ProcTodo(l.p) in lists
        ensures Delivered(l.p) in lists
      {
        assert ListOk(s, l);
      }
      ExtendInv(s, View());
    }

    /** binder_release_work: records that have left their reference are freed, the others stay with it. */
    method ReleaseWork(l: List)
      requires Valid() && l in lists
      modifies `records, `lists, `freed
      ensures Valid() && lists == old(lists)[l := []] && old(freed) <= freed
      ensures forall d | d in old(lists[l]) :: d in freed <==> old(d in records && records[d].kind != DeadBinder)
      ensures forall d | d in old(records) && d !in old(lists[l]) :: d in records && records[d] == old(records)[d]
    {
      ghost var s := View();
      forall d | d in lists[l]
        ensures d in records && d !in freed
      {
        assert ListOk(s, l);
        assert RecOk(s, d);
      }
      ghost var k := 0;
      while lists[l] != []
        invariant Valid() && l in lists && lists == old(lists)[l := lists[l]] && old(freed) <= freed
        invariant 0 <= k <= |old(lists[l])| && lists[l] == old(lists[l])[k..]
        invariant forall i | 0 <= i < k :: old(lists[l])[i] in freed <==>
            old(records)[old(lists[l])[i]].kind != DeadBinder
        invariant forall i | k <= i < |old(lists[l])| ::
                    var d := old(lists[l])[i]; d in records && records[d] == old(records)[d] && d !in freed
        invariant forall d | d in old(records) && d !in old(lists[l]) :: d in records && records[d] == old(records)[d]
        decreases |lists[l]|
      {
        DropOne(l);
        k := k + 1;
      }
      assert forall d | d in old(lists[l]) :: exists i :: 0 <= i < |old(lists[l])| && old(lists[l])[i] == d;
    }

    method DropOne(l: List)
      requires Valid() && l in lists && lists[l] != []
      modifies `records, `lists, `freed
      ensures Valid() && lists == old(lists)[l := old(lists[l])[1..]]
      ensures var d := old(lists[l])[0];
              && d in old(records)
              && (if old(records)[d].kind == DeadBinder
                  then freed == old(freed) && records == old(records)[d := old(records)[d].(place := None)]
                  else freed == old(freed) + {d} && records == old(records) - {d})
              && forall i | 0 < i < |old(lists[l])| :: old(lists[l])[i] != d
    {
      Head(View(), l);
      DropInv(View(), l);
      ghost var s2 := Drop(View(), l);
      var d := lists[l][0];
      lists := lists[l := lists[l][1..]];
      if records[d].kind == DeadBinder {
        records := records[d := records[d].(place := None)];
      } else {
        records := records - {d};
        freed := freed + {d};
      }
      assert View() == s2;
    }

    /** A list that is empty goes with its thread. */
    method DropThreadList(l: List)
      requires Valid() && l in lists && l.ThreadTodo? && lists[l] == []
      modifies `lists
      ensures Valid() && lists == old(lists) - {l}
    {
      ghost var s := View();
      lists := lists - {l};
      forall m | m in s.lists
        ensures (m.ThreadTodo? ==> ProcTodo(m.p) in lists) && (ProcTodo(m.p) in lists ==> Delivered(m.p) in lists)
      {
        assert ListOk(s, m);
      }
      forall r | r in s.refs
        ensures ProcTodo(s.refs[r].proc) in lists && Delivered(s.refs[r].proc) in lists
      {
        assert RefOk(s, r);
      }
      ShrinkInv(s, View());
    }

    /** binder_free_thread, of the death records */
    method FreeThread(p: Pid, t: Tid)
      requires Valid() && ThreadTodo(p, t) in lists
      modifies `records, `lists, `freed
      ensures Valid() && lists == old(lists) - {ThreadTodo(p, t)} && old(freed) <= freed
      ensures forall d | d in old(lists[ThreadTodo(p, t)]) ::
          d in freed <==> old(d in records && records[d].kind != DeadBinder)
    {
      ReleaseWork(ThreadTodo(p, t));
      DropThreadList(ThreadTodo(p, t));
      assert old(lists) - {ThreadTodo(p, t)} == old(lists)[ThreadTodo(p, t) := []] - {ThreadTodo(p, t)};
    }

    ghost function ThreadLists(p: Pid): set<List>
      reads this
    {
      set l | l in lists && l.ThreadTodo? && l.p == p
    }

    /** Lines 3053-3059 */
    method FreeThreads(p: Pid)
      requires Valid()
      modifies `records, `lists, `freed
      ensures Valid() && old(freed) <= freed && ThreadLists(p) == {}
      ensures forall l | l in old(lists) && !(l.ThreadTodo? && l.p == p) :: l in lists
      ensures forall l | l in lists :: l in old(lists)
    {
      while exists l :: l in lists && l.ThreadTodo? && l.p == p
        invariant Valid() && old(freed) <= freed
        invariant forall l | l in old(lists) && !(l.ThreadTodo? && l.p == p) :: l in lists
        invariant forall l | l in lists :: l in old(lists)
        decreases lists.Keys
      {
        var l :| l in lists && l.ThreadTodo? && l.p == p;
        FreeThread(p, l.t);
      }
    }

    /** Lines 3063-3071 */
    method ReleaseNodes(p: Pid)
      requires Valid()
      modifies `nodes, `records, `lists, `died
      ensures Valid() && lists.Keys == old(lists.Keys)
      ensures forall n | n in nodes && nodes[n].owner == p :: nodes[n].dead
      ensures forall n | n in old(nodes) && old(nodes)[n].owner != p :: n in nodes && nodes[n] == old(nodes)[n]
    {
      while exists n :: n in nodes && nodes[n].owner == p && !nodes[n].dead
        invariant Valid() && lists.Keys == old(lists.Keys)
        invariant forall n | n in old(nodes) && old(nodes)[n].owner != p :: n in nodes && nodes[n] == old(nodes)[n]
        decreases LiveNodes(p)
      {
        ReleaseOneNode(p);
      }
    }

    ghost function LiveNodes(p: Pid): set<Nid>
      reads this
    {
      set n | n in nodes && nodes[n].owner == p && !nodes[n].dead
    }

    method ReleaseOneNode(p: Pid)
      requires Valid() && exists n :: n in nodes && nodes[n].owner == p && !nodes[n].dead
      modifies `nodes, `records, `lists, `died
      ensures Valid() && lists.Keys == old(lists.Keys) && LiveNodes(p) < old(LiveNodes(p))
      ensures forall n | n in old(nodes) && old(nodes)[n].owner != p :: n in nodes && nodes[n] == old(nodes)[n]
    {
      var n :| n in nodes && nodes[n].owner == p && !nodes[n].dead;
      assert n in LiveNodes(p);
      var _ := ReleaseNode(n);
      assert LiveNodes(p) == old(LiveNodes(p)) - {n};
    }

    /** Lines 3073-3080 */
    method DeleteRefs(p: Pid)
      requires Valid()
      modifies `refs, `nodes, `records, `lists, `freed
      ensures Valid() && lists.Keys == old(lists.Keys) && old(freed) <= freed
      ensures forall r | r in refs :: r in old(refs) && refs[r] == old(refs)[r] && refs[r].proc != p
      ensures forall r | r in old(refs) && old(refs)[r].proc != p :: r in refs
    {
      while exists r :: r in refs && refs[r].proc == p
        invariant Valid() && lists.Keys == old(lists.Keys) && old(freed) <= freed
        invariant forall r | r in refs :: r in old(refs) && refs[r] == old(refs)[r]
        invariant forall r | r in old(refs) && old(refs)[r].proc != p :: r in refs
        decreases refs.Keys
      {
        var r :| r in refs && refs[r].proc == p;
        DeleteRef(r);
      }
    }

    /** The lists of a process that are left when its threads and references are gone. */
    method DropProcLists(p: Pid)
      requires Valid() && ProcTodo(p) in lists && Delivered(p) in lists && ThreadLists(p) == {}
      requires lists[ProcTodo(p)] == [] && lists[Delivered(p)] == [] && forall r | r in refs :: refs[r].proc != p
      modifies `lists
      ensures Valid() && lists == old(lists) - {ProcTodo(p), Delivered(p)}
    {
      ghost var s := View();
      lists := lists - {ProcTodo(p), Delivered(p)};
      forall m | m in lists
        ensures (m.ThreadTodo? ==> ProcTodo(m.p) in lists) && (ProcTodo(m.p) in lists ==> Delivered(m.p) in lists)
      {
        assert ListOk(s, m);
        assert m.ThreadTodo? && m.p == p ==> m in ThreadLists(p);
      }
      forall r | r in s.refs
        ensures ProcTodo(s.refs[r].proc) in lists && Delivered(s.refs[r].proc) in lists
      {
        assert RefOk(s, r);
      }
      ShrinkInv(s, View());
    }

    /**
      binder_deferred_release, of the death records: when it is done, every record that
      the process ever asked for has been freed.
     */
    method ReleaseProc(p: Pid)
      requires Valid() && ProcTodo(p) in lists
      modifies this
      ensures Valid() && owner == old(owner) && log == old(log) && old(freed) <= freed
      ensures forall d | d in records :: d in owner && owner[d] != p
      ensures forall d | d in log && d in owner && owner[d] == p :: d in freed
      ensures forall l | l in lists :: l.p != p
      ensures forall r | r in refs :: refs[r].proc != p
    {
      assert ListOk(View(), ProcTodo(p));
      FreeThreads(p);
      ReleaseNodes(p);
      DeleteRefs(p);
      ReleaseWorks(p);
      AllFreed(p);
    }

    /** Lines 3081-3082, and the process's lists go with it. */
    method ReleaseWorks(p: Pid)
      requires Valid() && ProcTodo(p) in lists && Delivered(p) in lists && ThreadLists(p) == {}
      requires forall r | r in refs :: refs[r].proc != p
      modifies `records, `lists, `freed
      ensures Valid() && old(freed) <= freed && forall l | l in lists :: l.p != p
    {
      ReleaseWork(ProcTodo(p));
      ReleaseWork(Delivered(p));
      DropProcLists(p);
      forall l | l in lists
        ensures l.p != p
      {
        assert l.ThreadTodo? && l.p == p ==> l in ThreadLists(p);
      }
    }

    lemma AllFreed(p: Pid)
      requires Valid() && (forall l | l in lists :: l.p != p) && (forall r | r in refs :: refs[r].proc != p)
      ensures forall d | d in records :: d in owner && owner[d] != p
      ensures forall d | d in log && d in owner && owner[d] == p :: d in freed
    {
      forall d | d in records
        ensures d in owner && owner[d] != p
      {
        assert RecOk(View(), d);
      }
      forall d | d in log && d in owner && owner[d] == p
        ensures d in freed
      {
        assert LogOk(View(), d);
      }
    }
  }

  /** Two processes, and a node of a third. */
  method OneNode() returns (c: DeathNotices, n: Nid)
    ensures fresh(c) && c.Valid() && c.nodes == map[n := Node(3, false, [])] && c.refs == map[]
    ensures ProcTodo(1) in c.lists && ProcTodo(2) in c.lists
  {
    c := new DeathNotices();
    c.NewProc(1);
    c.NewProc(2);
    n := c.NewNode(3);
  }

  /** Process 1 asks to be told of a node's death; process 2, whose reference comes first in the list, does not. */
  method OneWatcher() returns (c: DeathNotices, r: Rid, r2: Rid, n: Nid)
    ensures fresh(c) && c.Valid() && n in c.nodes && !c.nodes[n].dead && c.nodes[n].refs == [r2, r]
    ensures r in c.refs && c.refs[r].death.Some? && r2 in c.refs && c.refs[r2].death == None
  {
    c, n := OneNode();
    r := c.NewRef(1, n);
    assert c.refs[r] == Ref(1, n, None) && c.nodes[n].refs == [r];
    var ok := c.RequestDeath(1, 0, false, Some(r), 7, true);
    assert ok && c.nodes[n] == Node(3, false, [r]) && c.refs[r].death.Some?;
    r2 := c.NewRef(2, n);
  }

  /** The node dies, and process 1 is not told. */
  method UntoldWatcher() returns (c: DeathNotices, r: Rid, n: Nid)
    ensures fresh(c) && c.Valid() && n in c.nodes && c.nodes[n].dead && r in c.nodes[n].refs
    ensures r in c.refs && c.refs[r].death.Some? && !c.Told(r) && !c.AllTold(c.nodes[n].refs)
  {
    var r2;
    c, r, r2, n := OneWatcher();
    var rs := c.nodes[n].refs;
    assert rs[0] == r2 && rs[1] == r;
    ghost var was := c.nodes;
    var visited := c.ReleaseNode(n);
    assert c.nodes == was[n := was[n].(dead := true)];
    assert c.nodes[n].refs == rs && visited == 0;
    assert c.Untold(rs[1]);
  }
}
