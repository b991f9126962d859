/**
  Death notifications: the records that references carry, the lists that they pass
  through, and what the processes that asked for them are told.
 */
module Deaths {
  import opened Options
  import opened Sequences

  type Pid = nat
  type Tid = nat
  type Nid = nat
  type Rid = nat
  type Did = nat  // a death record

  /** work.type of a death record; Unset until it is first put in a list. */
  datatype Kind = Unset | DeadBinder | DeadBinderAndClear | Clear

  /** The lists of a process that a death record can be in. */
  datatype List = ProcTodo(p: Pid) | ThreadTodo(p: Pid, t: Tid) | Delivered(p: Pid)

  /** `place` is the list that work.entry is in, if any. */
  datatype Record = Record(cookie: nat, kind: Kind, place: Option<List>)

  datatype Ref = Ref(proc: Pid, node: Nid, death: Option<Did>)

  /** The references to a node, in the order of its list. */
  datatype Node = Node(owner: Pid, dead: bool, refs: seq<Rid>)

  /** What happened to a record: a clear was accepted, or the process was told. */
  datatype Event = Cleared | ToldDead | ToldClear

  /** From `attached` on the fields are for the proof; the rest is the driver's. */
  datatype State = State(
    refs: map<Rid, Ref>,
    nodes: map<Nid, Node>,
    records: map<Did, Record>,
    lists: map<List, seq<Did>>,
    nextId: nat,
    attached: map<Did, Option<Rid>>,
    owner: map<Did, Pid>,         // the process that asked
    log: map<Did, seq<Event>>,
    freed: set<Did>,
    about: map<Did, Nid>,         // the node whose death was asked about
    died: set<Nid>)               // every node that has died

  // ----- the invariant

  /** Each event at most once, and BR_CLEAR_DEATH_NOTIFICATION_DONE only after an accepted clear. */
  predicate Proper(log: seq<Event>) {
    NoDup(log) && forall i | 0 <= i < |log| && log[i] == ToldClear :: Cleared in log[..i]
  }

  ghost predicate Attachment(s: State, d: Did)
    requires d in s.records && d in s.attached && d in s.owner
  {
    var x := s.records[d];
    match s.attached[d]
    case Some(r) =>
      && r in s.refs && s.refs[r].death == Some(d) && s.refs[r].proc == s.owner[d]
      && (x.kind == Unset || x.kind == DeadBinder)
      && (x.kind == DeadBinder ==> s.refs[r].node in s.nodes && s.nodes[s.refs[r].node].dead)
    case None => (x.kind == DeadBinderAndClear || x.kind == Clear) && x.place.Some?
  }

  /** Where a record is, against its type and what the process was told. */
  ghost predicate Placement(s: State, d: Did)
    requires d in s.records && d in s.owner && d in s.log
  {
    var x := s.records[d];
    && (x.kind == Unset ==> x.place == None && s.log[d] == [])
    && match x.place
       case Some(l) =>
         && l in s.lists && d in s.lists[l] && l.p == s.owner[d]
         && (if l.Delivered? then ToldDead in s.log[d] && x.kind != Clear
             else x.kind == Clear || ToldDead !in s.log[d])
       case None => true
  }

  ghost predicate RecOk(s: State, d: Did)
    requires d in s.records
  {
    && d < s.nextId && d in s.attached && d in s.owner && d in s.log && d !in s.freed
    && NoDup(s.log[d]) && ToldClear !in s.log[d]
    && (Cleared in s.log[d] <==> s.attached[d] == None)
    && Attachment(s, d) && Placement(s, d) && AboutOk(s, d)
  }

  /** A record that says that a node died is about a node that did. */
  ghost predicate AboutOk(s: State, d: Did)
    requires d in s.records && d in s.attached
  {
    && d in s.about
    && (s.attached[d].Some? ==> s.attached[d].value in s.refs && s.refs[s.attached[d].value].node == s.about[d])
    && (s.records[d].kind == DeadBinder || s.records[d].kind == DeadBinderAndClear ==> s.about[d] in s.died)
  }

  ghost predicate RefOk(s: State, r: Rid)
    requires r in s.refs
  {
    && r < s.nextId
    && s.refs[r].node in s.nodes && r in s.nodes[s.refs[r].node].refs
    && ProcTodo(s.refs[r].proc) in s.lists && Delivered(s.refs[r].proc) in s.lists
    && (s.refs[r].death.Some? ==> s.refs[r].death.value in s.records && s.refs[r].death.value in s.attached
                                  && s.attached[s.refs[r].death.value] == Some(r))
  }

  ghost predicate NodeOk(s: State, n: Nid)
    requires n in s.nodes
  {
    n < s.nextId && (s.nodes[n].dead ==> n in s.died) && NoDup(s.nodes[n].refs) && forall r | r in s.nodes[n].refs ::
        r in s.refs && s.refs[r].node == n
  }

  ghost predicate ListOk(s: State, l: List)
    requires l in s.lists
  {
    && NoDup(s.lists[l])
    && (forall d | d in s.lists[l] :: d in s.records && s.records[d].place == Some(l))
    && (l.ThreadTodo? ==> ProcTodo(l.p) in s.lists)
    && (ProcTodo(l.p) in s.lists ==> Delivered(l.p) in s.lists)
  }

  /** A record that ever was is there or was freed, and was told properly. */
  ghost predicate LogOk(s: State, d: Did)
    requires d in s.log
  {
    && d < s.nextId && (d in s.records || d in s.freed) && Proper(s.log[d])
    && (ToldDead in s.log[d] ==> d in s.about && s.about[d] in s.died)
  }

  ghost predicate Inv(s: State) {
    && (forall d {:trigger RecOk(s, d)} | d in s.records :: RecOk(s, d))
    && (forall r {:trigger RefOk(s, r)} | r in s.refs :: RefOk(s, r))
    && (forall n {:trigger NodeOk(s, n)} | n in s.nodes :: NodeOk(s, n))
    && (forall l {:trigger ListOk(s, l)} | l in s.lists :: ListOk(s, l))
    && (forall d {:trigger LogOk(s, d)} | d in s.log :: LogOk(s, d))
    && (forall d | d in s.freed :: d in s.log)
  }

  /**
    In every reachable state: a record's process was told at most once that the binder
    died, and only if it did, and at most once that the request was cleared, that only
    after it was; a record is still there or freed, not both.
   */
  lemma ToldOnce(s: State, d: Did)
    requires Inv(s) && d in s.log
    ensures NoDup(s.log[d]) && (ToldClear in s.log[d] ==> Cleared in s.log[d] && d in s.freed)
    ensures ToldDead in s.log[d] ==> d in s.about && s.about[d] in s.died
    ensures d in s.records <==> d !in s.freed
  {
    assert LogOk(s, d);
    if d in s.records {
      assert RecOk(s, d);
    }
  }

  // ----- lists

  function Without(ds: seq<Did>, d: Did): seq<Did> {
    if ds == [] then [] else if ds[0] == d then ds[1..] else [ds[0]] + Without(ds[1..], d)
  }

  lemma {:induction false} WithoutKeeps(ds: seq<Did>, d: Did)
    requires NoDup(ds)
    ensures NoDup(Without(ds, d)) && d !in Without(ds, d)
    ensures forall e :: e != d ==> (e in Without(ds, d) <==> e in ds)
  {
    if ds != [] {
      var rest := ds[1..];
      WithoutKeeps(rest, d);
      assert ds == [ds[0]] + rest;
      assert ds[0] !in rest;
    }
  }

  lemma {:induction false} WithoutIs(ds: seq<Did>, i: nat)
    requires NoDup(ds) && i < |ds|
    ensures Without(ds, ds[i]) == WithoutAt(ds, i)
  {
    if i > 0 {
      var rest := ds[1..];
      assert ds[0] != ds[i] && rest[i - 1] == ds[i];
      WithoutIs(rest, i - 1);
      assert WithoutAt(ds, i) == [ds[0]] + WithoutAt(rest, i - 1);
    }
  }

  // ----- steps

  /** Lines 2018-2038: a new record for reference `r`, put in list `l` when the node is dead already. */
  function Request(s: State, r: Rid, cookie: nat, l: List): State
    requires r in s.refs && s.refs[r].node in s.nodes && l in s.lists
  {
    var d := s.nextId;
    var dead := s.nodes[s.refs[r].node].dead;
    s.(refs := s.refs[r := s.refs[r].(death := Some(d))],
       records := s.records[d := Record(cookie, if dead then DeadBinder else Unset, if dead then Some(l) else None)],
       lists := if dead then s.lists[l := s.lists[l] + [d]] else s.lists,
       nextId := d + 1,
       attached := s.attached[d := Some(r)], owner := s.owner[d := s.refs[r].proc], log := s.log[d := []],
       about := s.about[d := s.refs[r].node])
  }

  /** Lines 2053-2065: the record leaves its reference, and is put in list `l` if it is in none. */
  function ClearRequest(s: State, r: Rid, l: List): State
    requires r in s.refs && s.refs[r].death.Some? && l in s.lists
    requires var d := s.refs[r].death.value; d in s.records && d in s.log
  {
    var d := s.refs[r].death.value;
    var x := s.records[d];
    s.(refs := s.refs[r := s.refs[r].(death := None)],
       records := s.records[d := if x.place == None then x.(kind := Clear, place := Some(l))
                            else x.(kind := DeadBinderAndClear)],
       lists := if x.place == None then s.lists[l := s.lists[l] + [d]] else s.lists,
       attached := s.attached[d := None], log := s.log[d := s.log[d] + [Cleared]])
  }

  /** Lines 2094-2103: the process has dealt with a delivered notification. */
  function Acknowledge(s: State, d: Did, l: List): State
    requires d in s.records && s.records[d].place.Some? && s.records[d].place.value in s.lists && l in s.lists
    requires l != s.records[d].place.value
  {
    var x := s.records[d];
    var from := x.place.value;
    var lists := s.lists[from := Without(s.lists[from], d)];
    if x.kind == DeadBinderAndClear then
      s.(records := s.records[d := x.(kind := Clear, place := Some(l))], lists := lists[l := s.lists[l] + [d]])
    else s.(records := s.records[d := x.(place := None)], lists := lists)
  }

  /** Lines 2331-2364: a thread takes the first record of a list. */
  function Take(s: State, l: List): State
    requires l in s.lists && s.lists[l] != [] && s.lists[l][0] in s.records && s.lists[l][0] in s.log
    requires Delivered(l.p) in s.lists && !l.Delivered?
  {
    var d := s.lists[l][0];
    var x := s.records[d];
    var to := Delivered(l.p);
    var lists := s.lists[l := s.lists[l][1..]];
    if x.kind == Clear then
      s.(records := s.records - {d}, lists := lists, freed := s.freed + {d}, log := s.log[d := s.log[d] + [ToldClear]])
    else
      s.(records := s.records[d := x.(place := Some(to))], lists := lists[to := s.lists[to] + [d]],
         log := s.log[d := s.log[d] + [ToldDead]])
  }

  /** Lines 3010-3021: a reference with a record, to a node that is now dead. */
  function Visit(s: State, r: Rid): State
    requires r in s.refs && s.refs[r].death.Some? && s.refs[r].death.value in s.records
        && ProcTodo(s.refs[r].proc) in s.lists
  {
    var d := s.refs[r].death.value;
    var l := ProcTodo(s.refs[r].proc);
    s.(records := s.records[d := s.records[d].(kind := DeadBinder, place := Some(l))],
       lists := s.lists[l := s.lists[l] + [d]])
  }

  /** binder_release_work, for the first record: freed if it has left its reference, else left to that. */
  function Drop(s: State, l: List): State
    requires l in s.lists && s.lists[l] != [] && s.lists[l][0] in s.records
  {
    var d := s.lists[l][0];
    var x := s.records[d];
    var s1 := s.(lists := s.lists[l := s.lists[l][1..]]);
    if x.kind == DeadBinder then s1.(records := s.records[d := x.(place := None)])
    else s1.(records := s.records - {d}, freed := s.freed + {d})
  }

  /** Lines 1096-1103: the record of a reference that is deleted. */
  function FreeDeath(s: State, r: Rid): State
    requires r in s.refs && s.refs[r].death.Some? && s.refs[r].death.value in s.records
    requires s.records[s.refs[r].death.value].place.Some? ==> s.records[s.refs[r].death.value].place.value in s.lists
  {
    var d := s.refs[r].death.value;
    var x := s.records[d];
    s.(refs := s.refs[r := s.refs[r].(death := None)],
       records := s.records - {d}, freed := s.freed + {d},
       lists := match x.place case Some(l) => s.lists[l := Without(s.lists[l], d)] case None => s.lists)
  }

  // ----- what the steps come to

  /** The new record is of no type and in no list while the node lives; else it says so, at the end of the list. */
  ghost predicate WasRequested(s: State, s2: State, r: Rid, cookie: nat, l: List)
    requires r in s.refs && s.refs[r].node in s.nodes && l in s.lists
  {
    var d, n := s.nextId, s.refs[r].node;
    && s2.refs == s.refs[r := s.refs[r].(death := Some(d))] && s2.about == s.about[d := n] && s2.died == s.died
    && if s.nodes[n].dead
       then s2.records == s.records[d := Record(cookie, DeadBinder, Some(l))]
           && s2.lists == s.lists[l := s.lists[l] + [d]]
       else s2.records == s.records[d := Record(cookie, Unset, None)] && s2.lists == s.lists
  }

  lemma RequestIs(s: State, r: Rid, cookie: nat, l: List)
    requires r in s.refs && s.refs[r].node in s.nodes && l in s.lists
    ensures WasRequested(s, Request(s, r, cookie, l), r, cookie, l)
  {
  }

  /** A record in no list becomes the answer to the clear, at the end of the list; one in a list stays there. */
  ghost predicate WasCleared(s: State, s2: State, r: Rid, l: List)
    requires r in s.refs && s.refs[r].death.Some? && s.refs[r].death.value in s.records && l in s.lists
  {
    var d := s.refs[r].death.value;
    var x := s.records[d];
    && s2.refs == s.refs[r := s.refs[r].(death := None)]
    && if x.place == None
       then s2.records == s.records[d := Record(x.cookie, Clear, Some(l))] && s2.lists == s.lists[l := s.lists[l] + [d]]
       else s2.records == s.records[d := Record(x.cookie, DeadBinderAndClear, x.place)] && s2.lists == s.lists
  }

  lemma ClearIs(s: State, r: Rid, l: List)
    requires r in s.refs && s.refs[r].death.Some? && l in s.lists
    requires s.refs[r].death.value in s.records && s.refs[r].death.value in s.log
    ensures WasCleared(s, ClearRequest(s, r, l), r, l)
  {
  }

  /** The record leaves list `from`, and is put at the end of list `l`, to answer the clear, just when one is due. */
  ghost predicate WasAcknowledged(s: State, s2: State, d: Did, from: List, l: List)
    requires d in s.records && from in s.lists && l in s.lists && l != from
  {
    var x := s.records[d];
    var due := x.kind == DeadBinderAndClear;
    && s2.records == s.records[d := if due then Record(x.cookie, Clear, Some(l)) else x.(place := None)]
    && exists i {:trigger WithoutAt(s.lists[from], i)} :: 0 <= i < |s.lists[from]| && s.lists[from][i] == d
         && s2.lists == s.lists[from := WithoutAt(s.lists[from], i)][l := if due then s.lists[l] + [d] else s.lists[l]]
  }

  lemma AcknowledgeIs(s: State, d: Did, from: List, l: List)
    requires Inv(s) && d in s.records && s.records[d].place == Some(from) && from in s.lists && l in s.lists
        && l != from
    ensures WasAcknowledged(s, Acknowledge(s, d, l), d, from, l)
  {
    assert RecOk(s, d) && ListOk(s, from);
    var i :| 0 <= i < |s.lists[from]| && s.lists[from][i] == d;
    WithoutIs(s.lists[from], i);
    var left := s.lists[from := WithoutAt(s.lists[from], i)];
    assert Acknowledge(s, d, l).lists
        == left[l := if s.records[d].kind == DeadBinderAndClear then s.lists[l] + [d] else s.lists[l]];
  }

  /** The record leaves the front of list `l`: freed when it answers a clear, else the last of the delivered ones. */
  ghost predicate WasTaken(s: State, s2: State, l: List)
    requires l in s.lists && s.lists[l] != [] && s.lists[l][0] in s.records && Delivered(l.p) in s.lists
  {
    var d, to := s.lists[l][0], Delivered(l.p);
    var lists := s.lists[l := s.lists[l][1..]];
    if s.records[d].kind == Clear then s2.records == s.records - {d} && s2.lists == lists
    else s2.records == s.records[d := s.records[d].(place := Some(to))] && s2.lists == lists[to := s.lists[to] + [d]]
  }

  lemma TakeIs(s: State, l: List)
    requires l in s.lists && s.lists[l] != [] && s.lists[l][0] in s.records && s.lists[l][0] in s.log
    requires Delivered(l.p) in s.lists && !l.Delivered?
    ensures WasTaken(s, Take(s, l), l)
  {
  }

  /** The record of a reference to a node that died says so, at the end of the process's list. */
  lemma VisitIs(s: State, r: Rid)
    requires r in s.refs && s.refs[r].death.Some? && s.refs[r].death.value in s.records
        && ProcTodo(s.refs[r].proc) in s.lists
    ensures var d, l := s.refs[r].death.value, ProcTodo(s.refs[r].proc); var s2 := Visit(s, r);
            && s2.records == s.records[d := Record(s.records[d].cookie, DeadBinder, Some(l))]
            && s2.lists == s.lists[l := s.lists[l] + [d]]
  {
  }

  // ----- they keep the invariant

  lemma FreshId(s: State)
    requires Inv(s)
    ensures s.nextId !in s.records && s.nextId !in s.log && s.nextId !in s.freed && s.nextId !in s.refs
        && s.nextId !in s.nodes
    ensures forall l | l in s.lists :: s.nextId !in s.lists[l]
  {
    forall d | d in s.log
      ensures d < s.nextId
    {
      assert LogOk(s, d);
    }
    forall d | d in s.records
      ensures d < s.nextId
    {
      assert RecOk(s, d);
    }
    forall r | r in s.refs
      ensures r < s.nextId
    {
      assert RefOk(s, r);
    }
    forall n | n in s.nodes
      ensures n < s.nextId
    {
      assert NodeOk(s, n);
    }
    forall l | l in s.lists
      ensures s.nextId !in s.lists[l]
    {
      assert ListOk(s, l);
    }
  }

  /** What is not touched stays in order. */
  ghost predicate Untouched(s: State, s2: State, d: Did) {
    && d in s.records && d in s2.records && s2.records[d] == s.records[d]
    && d in s.log && d in s2.log && s2.log[d] == s.log[d]
    && d in s.attached && d in s2.attached && s2.attached[d] == s.attached[d]
    && d in s.owner && d in s2.owner && s2.owner[d] == s.owner[d]
    && d in s.about && d in s2.about && s2.about[d] == s.about[d] && s.died <= s2.died
    && (d in s2.freed ==> d in s.freed) && s.nextId <= s2.nextId
  }

  lemma UntouchedOk(s: State, s2: State, d: Did)
    requires d in s.records && RecOk(s, d) && Untouched(s, s2, d)
    requires s.attached[d].Some? ==>
               var r := s.attached[d].value;
               && r in s2.refs && s2.refs[r] == s.refs[r]
               && (s.refs[r].node in s.nodes && s.nodes[s.refs[r].node].dead ==>
                   s.refs[r].node in s2.nodes && s2.nodes[s.refs[r].node].dead)
    requires s.records[d].place.Some? ==> s.records[d].place.value in s2.lists
                                          && d in s2.lists[s.records[d].place.value]
    ensures RecOk(s2, d)
  {
  }

  lemma RequestInv(s: State, r: Rid, cookie: nat, l: List)
    requires Inv(s) && r in s.refs && s.refs[r].node in s.nodes && l in s.lists && s.refs[r].death == None
    requires l.p == s.refs[r].proc && !l.Delivered?
    ensures Inv(Request(s, r, cookie, l))
  {
    var s2 := Request(s, r, cookie, l);
    FreshId(s);
    assert RefOk(s, r);
    forall d | d in s2.records
      ensures RecOk(s2, d)
    {
      RequestRecOk(s, r, cookie, l, d);
    }
    forall q | q in s2.refs
      ensures RefOk(s2, q)
    {
      assert RefOk(s, q);
    }
    forall n | n in s2.nodes
      ensures NodeOk(s2, n)
    {
      assert NodeOk(s, n);
    }
    forall m | m in s2.lists
      ensures ListOk(s2, m)
    {
      RequestListOk(s, r, cookie, l, m);
    }
    forall d | d in s2.log
      ensures LogOk(s2, d)
    {
      assert d != s.nextId ==> LogOk(s, d);
    }
  }

  lemma RequestListOk(s: State, r: Rid, cookie: nat, l: List, m: List)
    requires Inv(s) && r in s.refs && s.refs[r].node in s.nodes && l in s.lists && m in s.lists
    ensures ListOk(Request(s, r, cookie, l), m)
  {
    FreshId(s);
    assert ListOk(s, m);
  }

  lemma RequestRecOk(s: State, r: Rid, cookie: nat, l: List, d: Did)
    requires Inv(s) && r in s.refs && s.refs[r].node in s.nodes && l in s.lists && s.refs[r].death == None
    requires l.p == s.refs[r].proc && !l.Delivered? && d in Request(s, r, cookie, l).records
    ensures RecOk(Request(s, r, cookie, l), d)
  {
    FreshId(s);
    if d != s.nextId {
      assert RecOk(s, d);
      UntouchedOk(s, Request(s, r, cookie, l), d);
    } else {
      NewRecordOk(s, r, cookie, l);
    }
  }

  lemma NewRecordOk(s: State, r: Rid, cookie: nat, l: List)
    requires Inv(s) && r in s.refs && s.refs[r].node in s.nodes && l in s.lists && s.refs[r].death == None
    requires l.p == s.refs[r].proc && !l.Delivered?
    ensures RecOk(Request(s, r, cookie, l), s.nextId)
  {
    FreshId(s);
    var s2 := Request(s, r, cookie, l);
    var d := s.nextId;
    assert s2.log[d] == [];
    assert NodeOk(s, s.refs[r].node);
    if s.nodes[s.refs[r].node].dead {
      assert s2.lists[l][|s2.lists[l]| - 1] == d;
    }
  }

  lemma ClearInv(s: State, r: Rid, l: List)
    requires Inv(s) && r in s.refs && s.refs[r].death.Some? && l in s.lists
    requires l.p == s.refs[r].proc && !l.Delivered?
    ensures var d := s.refs[r].death.value; d in s.records && d in s.log
    ensures var d := s.refs[r].death.value; s.records[d].place.Some? ==> s.records[d].kind == DeadBinder
    ensures Inv(ClearRequest(s, r, l))
  {
    assert RefOk(s, r);
    var d0 := s.refs[r].death.value;
    assert RecOk(s, d0);
    var s2 := ClearRequest(s, r, l);
    forall d | d in s2.records
      ensures RecOk(s2, d)
    {
      if d != d0 {
        assert RecOk(s, d);
        UntouchedOk(s, s2, d);
      } else {
        ClearedOk(s, r, l);
      }
    }
    forall q | q in s2.refs
      ensures RefOk(s2, q)
    {
      assert RefOk(s, q);
    }
    forall n | n in s2.nodes
      ensures NodeOk(s2, n)
    {
      assert NodeOk(s, n);
    }
    forall m | m in s2.lists
      ensures ListOk(s2, m)
    {
      assert ListOk(s, m);
    }
    forall d | d in s2.log
      ensures LogOk(s2, d)
    {
      assert LogOk(s, d);
    }
  }

  lemma ClearedOk(s: State, r: Rid, l: List)
    requires Inv(s) && r in s.refs && s.refs[r].death.Some? && l in s.lists
    requires l.p == s.refs[r].proc && !l.Delivered?
    requires var d := s.refs[r].death.value; d in s.records && d in s.log
    ensures RecOk(ClearRequest(s, r, l), s.refs[r].death.value)
  {
    var d := s.refs[r].death.value;
    assert RefOk(s, r) && RecOk(s, d);
    var s2 := ClearRequest(s, r, l);
    assert forall e :: e in s2.log[d] <==> e in s.log[d] || e == Cleared;
    if s.records[d].place == None {
      assert s2.lists[l][|s2.lists[l]| - 1] == d;
    }
  }

  lemma AcknowledgeInv(s: State, d0: Did, l: List)
    requires Inv(s) && d0 in s.records && s.records[d0].place.Some? && s.records[d0].place.value in s.lists
        && l in s.lists
    requires s.records[d0].place.value == Delivered(l.p) && !l.Delivered?
    ensures Inv(Acknowledge(s, d0, l))
  {
    assert RecOk(s, d0);
    var from := s.records[d0].place.value;
    assert ListOk(s, from);
    WithoutKeeps(s.lists[from], d0);
    var s2 := Acknowledge(s, d0, l);
    forall d | d in s2.records
      ensures RecOk(s2, d)
    {
      AcknowledgedOk(s, d0, l, d);
    }
    forall q | q in s2.refs
      ensures RefOk(s2, q)
    {
      assert RefOk(s, q);
    }
    forall n | n in s2.nodes
      ensures NodeOk(s2, n)
    {
      assert NodeOk(s, n);
    }
    forall m | m in s2.lists
      ensures ListOk(s2, m)
    {
      assert ListOk(s, m);
    }
    forall d | d in s2.log
      ensures LogOk(s2, d)
    {
      assert LogOk(s, d);
    }
  }

  lemma AcknowledgedOk(s: State, d0: Did, l: List, d: Did)
    requires Inv(s) && d0 in s.records && s.records[d0].place.Some? && s.records[d0].place.value in s.lists
        && l in s.lists
    requires s.records[d0].place.value == Delivered(l.p) && !l.Delivered? && d in s.records
    ensures RecOk(Acknowledge(s, d0, l), d)
  {
    var from := s.records[d0].place.value;
    assert RecOk(s, d0) && RecOk(s, d) && ListOk(s, from);
    WithoutKeeps(s.lists[from], d0);
    var s2 := Acknowledge(s, d0, l);
    if d != d0 {
      UntouchedOk(s, s2, d);
    } else if s.records[d0].kind == DeadBinderAndClear {
      assert s2.lists[l][|s2.lists[l]| - 1] == d;
    }
  }

  /** The first record of a list, and the rest. */
  lemma Head(s: State, l: List)
    requires Inv(s) && l in s.lists && s.lists[l] != []
    ensures var d := s.lists[l][0];
            && d in s.records && d in s.log && s.records[d].place == Some(l) && d !in s.lists[l][1..] && RecOk(s, d)
            && (forall e | e in s.lists[l] && e != d :: e in s.lists[l][1..])
    ensures NoDup(s.lists[l][1..])
  {
    assert ListOk(s, l);
    var d := s.lists[l][0];
    assert d in s.lists[l];
    assert RecOk(s, d);
    assert s.lists[l] == [d] + s.lists[l][1..];
  }

  lemma TakeInv(s: State, l: List)
    requires Inv(s) && l in s.lists && s.lists[l] != [] && !l.Delivered? && Delivered(l.p) in s.lists
    ensures s.lists[l][0] in s.records && s.lists[l][0] in s.log && Inv(Take(s, l))
  {
    Head(s, l);
    var d0 := s.lists[l][0];
    var s2 := Take(s, l);
    forall d | d in s2.records
      ensures RecOk(s2, d)
    {
      TakenOk(s, l, d);
    }
    forall q | q in s2.refs
      ensures RefOk(s2, q)
    {
      assert RefOk(s, q);
    }
    forall n | n in s2.nodes
      ensures NodeOk(s2, n)
    {
      assert NodeOk(s, n);
    }
    forall m | m in s2.lists
      ensures ListOk(s2, m)
    {
      TakenList(s, l, m);
    }
    forall d | d in s2.log
      ensures LogOk(s2, d)
    {
      assert LogOk(s, d);
      TakenLog(s, l, d);
    }
  }

  lemma TakenList(s: State, l: List, m: List)
    requires Inv(s) && l in s.lists && s.lists[l] != [] && !l.Delivered? && Delivered(l.p) in s.lists && m in s.lists
    requires s.lists[l][0] in s.records && s.lists[l][0] in s.log
    ensures ListOk(Take(s, l), m)
  {
    Head(s, l);
    assert ListOk(s, m) && ListOk(s, l);
  }

  lemma TakenOk(s: State, l: List, d: Did)
    requires Inv(s) && l in s.lists && s.lists[l] != [] && !l.Delivered? && Delivered(l.p) in s.lists
    requires s.lists[l][0] in s.records && s.lists[l][0] in s.log && d in Take(s, l).records
    ensures RecOk(Take(s, l), d)
  {
    Head(s, l);
    assert RecOk(s, d);
    var s2 := Take(s, l);
    if d != s.lists[l][0] {
      UntouchedOk(s, s2, d);
    } else {
      TakenHeadOk(s, l);
    }
  }

  lemma TakenHeadOk(s: State, l: List)
    requires Inv(s) && l in s.lists && s.lists[l] != [] && !l.Delivered? && Delivered(l.p) in s.lists
    requires s.lists[l][0] in s.records && s.lists[l][0] in s.log && s.lists[l][0] in Take(s, l).records
    ensures RecOk(Take(s, l), s.lists[l][0])
  {
    Head(s, l);
    var d := s.lists[l][0];
    var s2 := Take(s, l);
    var to := Delivered(l.p);
    assert s2.lists[to][|s2.lists[to]| - 1] == d;
    assert forall e :: e in s2.log[d] <==> e in s.log[d] || e == ToldDead;
  }

  lemma TakenLog(s: State, l: List, d: Did)
    requires Inv(s) && l in s.lists && s.lists[l] != [] && !l.Delivered? && Delivered(l.p) in s.lists
    requires s.lists[l][0] in s.records && s.lists[l][0] in s.log && d in s.log
    ensures Proper(Take(s, l).log[d])
  {
    Head(s, l);
    assert LogOk(s, d);
    if d == s.lists[l][0] {
      assert RecOk(s, d);
      var e := if s.records[d].kind == Clear then ToldClear else ToldDead;
      assert e !in s.log[d];
      assert Cleared in s.log[d] ==> Cleared in s.log[d] + [e];
    }
  }

  lemma VisitInv(s: State, r: Rid)
    requires Inv(s) && r in s.refs && s.refs[r].death.Some?
    requires s.refs[r].death.value in s.records && s.records[s.refs[r].death.value].kind == Unset
    requires s.refs[r].node in s.nodes && s.nodes[s.refs[r].node].dead
    ensures ProcTodo(s.refs[r].proc) in s.lists && Inv(Visit(s, r))
  {
    assert RefOk(s, r);
    var d0 := s.refs[r].death.value;
    assert RecOk(s, d0);
    var s2 := Visit(s, r);
    forall d | d in s2.records
      ensures RecOk(s2, d)
    {
      assert RecOk(s, d);
      if d != d0 {
        UntouchedOk(s, s2, d);
      } else {
        var l := ProcTodo(s.refs[r].proc);
        assert NodeOk(s, s.refs[r].node);
        assert s2.lists[l][|s2.lists[l]| - 1] == d;
      }
    }
    forall q | q in s2.refs
      ensures RefOk(s2, q)
    {
      assert RefOk(s, q);
    }
    forall n | n in s2.nodes
      ensures NodeOk(s2, n)
    {
      assert NodeOk(s, n);
    }
    forall m | m in s2.lists
      ensures ListOk(s2, m)
    {
      assert ListOk(s, m);
    }
    forall d | d in s2.log
      ensures LogOk(s2, d)
    {
      assert LogOk(s, d);
    }
  }

  lemma DropInv(s: State, l: List)
    requires Inv(s) && l in s.lists && s.lists[l] != []
    ensures s.lists[l][0] in s.records && Inv(Drop(s, l))
  {
    Head(s, l);
    var d0 := s.lists[l][0];
    var s2 := Drop(s, l);
    forall d | d in s2.records
      ensures RecOk(s2, d)
    {
      assert RecOk(s, d);
      if d != d0 {
        UntouchedOk(s, s2, d);
      }
    }
    forall q | q in s2.refs
      ensures RefOk(s2, q)
    {
      assert RefOk(s, q);
    }
    forall n | n in s2.nodes
      ensures NodeOk(s2, n)
    {
      assert NodeOk(s, n);
    }
    forall m | m in s2.lists
      ensures ListOk(s2, m)
    {
      assert ListOk(s, m);
    }
    forall d | d in s2.log
      ensures LogOk(s2, d)
    {
      assert LogOk(s, d);
    }
  }

  lemma FreeDeathInv(s: State, r: Rid)
    requires Inv(s) && r in s.refs && s.refs[r].death.Some?
    ensures var d := s.refs[r].death.value;
            d in s.records && (s.records[d].place.Some? ==> s.records[d].place.value in s.lists)
    ensures Inv(FreeDeath(s, r))
  {
    assert RefOk(s, r);
    var d0 := s.refs[r].death.value;
    assert RecOk(s, d0);
    var s2 := FreeDeath(s, r);
    if s.records[d0].place.Some? {
      assert ListOk(s, s.records[d0].place.value);
      WithoutKeeps(s.lists[s.records[d0].place.value], d0);
    }
    forall d | d in s2.records
      ensures RecOk(s2, d)
    {
      assert RecOk(s, d);
      UntouchedOk(s, s2, d);
    }
    forall q | q in s2.refs
      ensures RefOk(s2, q)
    {
      assert RefOk(s, q);
    }
    forall n | n in s2.nodes
      ensures NodeOk(s2, n)
    {
      assert NodeOk(s, n);
    }
    forall m | m in s2.lists
      ensures ListOk(s2, m)
    {
      assert ListOk(s, m);
    }
    forall d | d in s2.log
      ensures LogOk(s2, d)
    {
      assert LogOk(s, d);
    }
  }

  // ----- processes, nodes and references come and go

  lemma DeadDied(s: State)
    requires Inv(s)
    ensures forall n | n in s.nodes && s.nodes[n].dead :: n in s.died
  {
    forall n | n in s.nodes && s.nodes[n].dead
      ensures n in s.died
    {
      assert NodeOk(s, n);
    }
  }

  /** A new node, or a list of a new process or thread, or a node that dies: nothing that records depend on. */
  lemma ExtendInv(s: State, s2: State)
    requires Inv(s) && s2 == s.(nodes := s2.nodes, lists := s2.lists, nextId := s2.nextId, died := s2.died)
    requires s.nextId <= s2.nextId && s.died <= s2.died && forall n | n in s2.nodes && s2.nodes[n].dead :: n in s2.died
    requires forall n | n in s.nodes :: n in s2.nodes && s2.nodes[n].refs == s.nodes[n].refs
                                        && (s.nodes[n].dead ==> s2.nodes[n].dead)
    requires forall n | n in s2.nodes && n !in s.nodes :: n < s2.nextId && s2.nodes[n].refs == []
    requires forall l | l in s.lists :: l in s2.lists && s2.lists[l] == s.lists[l]
    requires forall l | l in s2.lists && l !in s.lists ::
               s2.lists[l] == [] && (l.ThreadTodo? ==> ProcTodo(l.p) in s2.lists)
                   && (ProcTodo(l.p) in s2.lists ==> Delivered(l.p) in s2.lists)
    requires forall l | l in s.lists && ProcTodo(l.p) in s2.lists :: Delivered(l.p) in s2.lists
    ensures Inv(s2)
  {
    forall d | d in s2.records
      ensures RecOk(s2, d)
    {
      assert RecOk(s, d);
      UntouchedOk(s, s2, d);
    }
    forall q | q in s2.refs
      ensures RefOk(s2, q)
    {
      assert RefOk(s, q);
    }
    forall n | n in s2.nodes
      ensures NodeOk(s2, n)
    {
      assert n in s.nodes ==> NodeOk(s, n);
    }
    forall m | m in s2.lists
      ensures ListOk(s2, m)
    {
      assert m in s.lists ==> ListOk(s, m);
    }
    forall d | d in s2.log
      ensures LogOk(s2, d)
    {
      assert LogOk(s, d);
    }
  }

  /** Lists that are empty, and nodes without references, can go. */
  lemma ShrinkInv(s: State, s2: State)
    requires Inv(s) && s2 == s.(nodes := s2.nodes, lists := s2.lists, died := s2.died) && s.died <= s2.died
    requires forall n | n in s2.nodes :: n in s.nodes && s2.nodes[n] == s.nodes[n]
    requires forall n | n in s.nodes && n !in s2.nodes :: s.nodes[n].refs == []
    requires forall l | l in s2.lists :: l in s.lists && s2.lists[l] == s.lists[l]
                                         && (l.ThreadTodo? ==> ProcTodo(l.p) in s2.lists)
                                         && (ProcTodo(l.p) in s2.lists ==> Delivered(l.p) in s2.lists)
    requires forall l | l in s.lists && l !in s2.lists :: s.lists[l] == []
    requires forall r | r in s.refs :: ProcTodo(s.refs[r].proc) in s2.lists && Delivered(s.refs[r].proc) in s2.lists
    ensures Inv(s2)
  {
    forall d | d in s2.records
      ensures RecOk(s2, d)
    {
      assert RecOk(s, d);
      if s.attached[d].Some? {
        assert RefOk(s, s.attached[d].value);
      }
      UntouchedOk(s, s2, d);
    }
    forall q | q in s2.refs
      ensures RefOk(s2, q)
    {
      assert RefOk(s, q);
    }
    forall n | n in s2.nodes
      ensures NodeOk(s2, n)
    {
      assert NodeOk(s, n);
    }
    forall m | m in s2.lists
      ensures ListOk(s2, m)
    {
      assert ListOk(s, m);
    }
    forall d | d in s2.log
      ensures LogOk(s2, d)
    {
      assert LogOk(s, d);
    }
  }

  /** A new reference of process `p`, first in its node's list. */
  function AddRef(s: State, p: Pid, n: Nid): State
    requires n in s.nodes
  {
    s.(refs := s.refs[s.nextId := Ref(p, n, None)],
       nodes := s.nodes[n := s.nodes[n].(refs := [s.nextId] + s.nodes[n].refs)],
       nextId := s.nextId + 1)
  }

  lemma AddRefInv(s: State, p: Pid, n: Nid)
    requires Inv(s) && n in s.nodes && ProcTodo(p) in s.lists
    ensures Inv(AddRef(s, p, n))
  {
    var s2 := AddRef(s, p, n);
    FreshId(s);
    assert ListOk(s, ProcTodo(p));
    forall d | d in s2.records
      ensures RecOk(s2, d)
    {
      assert RecOk(s, d);
      UntouchedOk(s, s2, d);
    }
    forall q | q in s2.refs
      ensures RefOk(s2, q)
    {
      assert q != s.nextId ==> RefOk(s, q);
    }
    forall m | m in s2.nodes
      ensures NodeOk(s2, m)
    {
      assert NodeOk(s, m);
    }
    forall m | m in s2.lists
      ensures ListOk(s2, m)
    {
      assert ListOk(s, m);
    }
    forall d | d in s2.log
      ensures LogOk(s2, d)
    {
      assert LogOk(s, d);
    }
  }

  /** A reference without a record leaves its node's list; a dead node goes with its last reference. */
  function RemoveRef(s: State, r: Rid): State
    requires r in s.refs && s.refs[r].node in s.nodes
  {
    var n := s.refs[r].node;
    var left := Without(s.nodes[n].refs, r);
    s.(refs := s.refs - {r},
       nodes := if s.nodes[n].dead && left == [] then s.nodes - {n} else s.nodes[n := s.nodes[n].(refs := left)])
  }

  /** The reference leaves its place in the node's list, and the rest keeps its order. */
  lemma RemoveRefIs(s: State, r: Rid)
    requires Inv(s) && r in s.refs
    ensures s.refs[r].node in s.nodes
    ensures exists i {:trigger WithoutAt(s.nodes[s.refs[r].node].refs, i)} ::
              && 0 <= i < |s.nodes[s.refs[r].node].refs| && s.nodes[s.refs[r].node].refs[i] == r
              && RemoveRef(s, r).nodes ==
                 (if s.nodes[s.refs[r].node].dead && |s.nodes[s.refs[r].node].refs| == 1 then s.nodes - {s.refs[r].node}
                  else s.nodes[s.refs[r].node := s.nodes[s.refs[r].node].(
                                 refs := WithoutAt(s.nodes[s.refs[r].node].refs, i))])
  {
    assert RefOk(s, r);
    var n := s.refs[r].node;
    assert NodeOk(s, n);
    var rs := s.nodes[n].refs;
    var i :| 0 <= i < |rs| && rs[i] == r;
    WithoutIs(rs, i);
    assert |WithoutAt(rs, i)| == |rs| - 1;
  }

  lemma RemoveRefInv(s: State, r: Rid)
    requires Inv(s) && r in s.refs && s.refs[r].death == None
    ensures s.refs[r].node in s.nodes && Inv(RemoveRef(s, r))
  {
    assert RefOk(s, r);
    var n := s.refs[r].node;
    assert NodeOk(s, n);
    WithoutKeeps(s.nodes[n].refs, r);
    var s2 := RemoveRef(s, r);
    forall d | d in s2.records
      ensures RecOk(s2, d)
    {
      assert RecOk(s, d);
      if s.attached[d].Some? {
        assert RefOk(s, s.attached[d].value);
      }
      UntouchedOk(s, s2, d);
    }
    forall q | q in s2.refs
      ensures RefOk(s2, q)
    {
      assert RefOk(s, q);
    }
    forall m | m in s2.nodes
      ensures NodeOk(s2, m)
    {
      assert NodeOk(s, m);
    }
    forall m | m in s2.lists
      ensures ListOk(s2, m)
    {
      assert ListOk(s, m);
    }
    forall d | d in s2.log
      ensures LogOk(s2, d)
    {
      assert LogOk(s, d);
    }
  }
}
