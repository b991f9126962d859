/**
  One-way calls to the nodes of one process: at most one for each node is on its way
  or being handled, the others wait in the node's async_todo, and they arrive in the
  order in which they were sent.  Threads do not exit here.
 */
module OneWay {
  import opened Options
  import opened Sequences

  type Nid = nat
  type Tid = nat
  type Id = nat  // a one-way call, and its buffer

  /** A list that threads read: the process's or a thread's own. */
  datatype Queue = ProcList | ThreadList(thread: Tid)

  /** A one-way call, or anything else that is not of concern here. */
  datatype Work = Call(id: Id) | Other

  /** The buffer of a call: allow_user_free is set when it is delivered. */
  datatype Buf = Buf(node: Nid, delivered: bool)

  /** `current`, `place`, `sent` and `arrived` are for the proof; the rest is the driver's. */
  datatype State = State(
    hasAsync: map<Nid, bool>,
    waiting: map<Nid, seq<Id>>,
    todo: map<Queue, seq<Work>>,
    bufs: map<Id, Buf>,
    nextId: nat,
    current: map<Nid, Option<Id>>,   // the call that is on its way or being handled
    place: map<Id, Queue>,           // the list that a call on its way is in
    sent: map<Nid, seq<Id>>,         // every call to the node so far
    arrived: map<Nid, seq<Id>>)      // those that a thread has received

  ghost predicate Shaped(s: State) {
    && s.waiting.Keys == s.hasAsync.Keys && s.current.Keys == s.hasAsync.Keys
    && s.sent.Keys == s.hasAsync.Keys && s.arrived.Keys == s.hasAsync.Keys
    && ProcList in s.todo
  }

  /** The call of node `n` that is in a list and not yet delivered. */
  function OnItsWay(s: State, n: Nid): seq<Id>
    requires n in s.current
  {
    match s.current[n]
    case Some(id) => if id in s.bufs && !s.bufs[id].delivered then [id] else []
    case None => []
  }

  /** What was sent to a node has arrived, is on its way, or waits, in this order. */
  ghost predicate NodeOk(s: State, n: Nid)
    requires Shaped(s) && n in s.hasAsync
  {
    && s.hasAsync[n] == s.current[n].Some?
    && s.sent[n] == s.arrived[n] + OnItsWay(s, n) + s.waiting[n]
    && NoDup(s.sent[n])
    && (forall id | id in s.sent[n] :: id < s.nextId)
    && (s.current[n].None? ==> s.waiting[n] == [])
    && (s.current[n].Some? ==> s.current[n].value in s.bufs && s.bufs[s.current[n].value].node == n)
    && (forall id | id in s.waiting[n] :: id in s.bufs && s.bufs[id].node == n && !s.bufs[id].delivered
                                          && s.current[n] != Some(id))
  }

  /** Every buffer is that of its node's current call or of a waiting one. */
  ghost predicate BufOk(s: State, id: Id)
    requires Shaped(s) && id in s.bufs
  {
    var n := s.bufs[id].node;
    && id < s.nextId && n in s.hasAsync
    && (s.current[n] == Some(id) || (id in s.waiting[n] && !s.bufs[id].delivered))
    && (s.current[n] == Some(id) && !s.bufs[id].delivered ==>
          id in s.place && s.place[id] in s.todo && Call(id) in s.todo[s.place[id]])
  }

  /** The calls in a list are on their way, each in one list and once. */
  ghost predicate QueueOk(s: State, q: Queue)
    requires Shaped(s) && q in s.todo
  {
    && (forall x | x in s.todo[q] && x.Call? ::
          && x.id in s.bufs && !s.bufs[x.id].delivered
          && s.bufs[x.id].node in s.current && s.current[s.bufs[x.id].node] == Some(x.id)
          && x.id in s.place && s.place[x.id] == q)
    && (forall i, j | 0 <= i < j < |s.todo[q]| && s.todo[q][i] == s.todo[q][j] :: s.todo[q][i] == Other)
  }

  ghost predicate Inv(s: State) {
    && Shaped(s)
    && (forall n {:trigger NodeOk(s, n)} | n in s.hasAsync :: NodeOk(s, n))
    && (forall id {:trigger BufOk(s, id)} | id in s.bufs :: BufOk(s, id))
    && (forall q {:trigger QueueOk(s, q)} | q in s.todo :: QueueOk(s, q))
  }

  // ----- what holds in every state

  /** The unfreed calls of node `n` that are not waiting. */
  function InFlight(s: State, n: Nid): set<Id>
    requires n in s.waiting
  {
    set id | id in s.bufs && s.bufs[id].node == n && id !in s.waiting[n]
  }

  /**
    has_async_transaction holds just when one call is in flight, and otherwise none is;
    calls wait only behind one in flight; and what has arrived is, in order, the first
    part of what was sent.
   */
  lemma Serialised(s: State, n: Nid)
    requires Inv(s) && n in s.hasAsync
    ensures s.hasAsync[n] <==> |InFlight(s, n)| == 1
    ensures !s.hasAsync[n] <==> InFlight(s, n) == {}
    ensures s.waiting[n] != [] ==> s.hasAsync[n]
    ensures s.arrived[n] <= s.sent[n]
    ensures |s.sent[n]| <= |s.arrived[n]| + 1 + |s.waiting[n]|
  {
    assert NodeOk(s, n);
    var f := InFlight(s, n);
    forall id | id in f
      ensures s.current[n] == Some(id)
    {
      assert BufOk(s, id);
    }
    if s.hasAsync[n] {
      assert f == {s.current[n].value};
    } else {
      assert f == {};
    }
  }

  // ----- the steps

  /** Lines 1692-1699: the call is put at the end of the process's list, or of the node's own. */
  function Enqueued(s: State, n: Nid, id: Id): State
    requires n in s.hasAsync && n in s.waiting && ProcList in s.todo
  {
    if s.hasAsync[n] then s.(waiting := s.waiting[n := s.waiting[n] + [id]])
    else s.(hasAsync := s.hasAsync[n := true], todo := s.todo[ProcList := s.todo[ProcList] + [Call(id)]],
            current := s.current[n := Some(id)], place := s.place[id := ProcList])
  }

  function Recorded(s: State, n: Nid, id: Id): State
    requires n in s.sent
  {
    s.(bufs := s.bufs[id := Buf(n, false)], nextId := id + 1, sent := s.sent[n := s.sent[n] + [id]])
  }

  function Send(s: State, n: Nid): State
    requires Shaped(s) && n in s.hasAsync
  {
    var id := s.nextId;
    Recorded(Enqueued(s, n, id), n, id)
  }

  /** Lines 2370-2439: a thread takes the first work of a list. */
  function Take(s: State, q: Queue): State
    requires Shaped(s) && q in s.todo && s.todo[q] != []
  {
    var s1 := s.(todo := s.todo[q := s.todo[q][1..]]);
    match s.todo[q][0]
    case Other => s1
    case Call(id) =>
      if id in s.bufs && s.bufs[id].node in s.arrived then
        var n := s.bufs[id].node;
        s1.(bufs := s.bufs[id := Buf(n, true)], arrived := s.arrived[n := s.arrived[n] + [id]])
      else s1
  }

  /** Lines 1917-1926: a delivered call's buffer is freed, and the next call of the node goes to thread `t`. */
  function Free(s: State, t: Tid, id: Id): State
    requires Shaped(s) && ThreadList(t) in s.todo && id in s.bufs && s.bufs[id].node in s.hasAsync
  {
    var n := s.bufs[id].node;
    var s1 := s.(bufs := s.bufs - {id});
    if s.waiting[n] == [] then s1.(hasAsync := s.hasAsync[n := false], current := s.current[n := None])
    else
      var next := s.waiting[n][0];
      var q := ThreadList(t);
      s1.(waiting := s.waiting[n := s.waiting[n][1..]], todo := s.todo[q := s.todo[q] + [Call(next)]],
          current := s.current[n := Some(next)], place := s.place[next := q])
  }

  /** A list gets other work. */
  function Put(s: State, q: Queue): State
    requires q in s.todo
  {
    s.(todo := s.todo[q := s.todo[q] + [Other]])
  }

  function AddNode(s: State, n: Nid): State {
    s.(hasAsync := s.hasAsync[n := false], waiting := s.waiting[n := []],
       current := s.current[n := None], sent := s.sent[n := []], arrived := s.arrived[n := []])
  }

  // ----- lists are first in, first out

  /** Between `s` and `s2` each list has at most got work at its end or lost that at its front. */
  ghost predicate Fifo(s: State, s2: State) {
    forall q {:trigger s.todo[q]} {:trigger s2.todo[q]} | q in s.todo ::
      q in s2.todo && (s2.todo[q] == s.todo[q]
                       || (s2.todo[q] != [] && s2.todo[q][..|s2.todo[q]| - 1] == s.todo[q])
                       || (s.todo[q] != [] && s2.todo[q] == s.todo[q][1..]))
  }

  /** A call to node `n` goes to the end of the process's list, or waits behind all others for the node. */
  lemma SendIsLast(s: State, n: Nid)
    requires Inv(s) && n in s.hasAsync
    ensures Fifo(s, Send(s, n)) && Send(s, n).hasAsync == s.hasAsync[n := true]
    ensures var s2 := Send(s, n);
            if s.hasAsync[n] then s2.waiting == s.waiting[n := s.waiting[n] + [s.nextId]] && s2.todo == s.todo
            else s2.todo == s.todo[ProcList := s.todo[ProcList] + [Call(s.nextId)]] && s2.waiting == s.waiting
    ensures Send(s, n).bufs == s.bufs[s.nextId := Buf(n, false)]
  {
    assert NodeOk(s, n);
  }

  lemma TakeIsFirst(s: State, q: Queue)
    requires Inv(s) && q in s.todo && s.todo[q] != []
    ensures Fifo(s, Take(s, q)) && Take(s, q).todo == s.todo[q := s.todo[q][1..]]
    ensures var w := s.todo[q][0];
            if w.Call? then w.id in s.bufs && Take(s, q).bufs == s.bufs[w.id := s.bufs[w.id].(delivered := true)]
            else Take(s, q).bufs == s.bufs
    ensures Take(s, q).waiting == s.waiting && Take(s, q).hasAsync == s.hasAsync
  {
    assert QueueOk(s, q);
    assert s.todo[q][0] in s.todo[q];
    if s.todo[q][0].Call? {
      assert BufOk(s, s.todo[q][0].id);
    }
  }

  /**
    The call that waited longest goes to the end of the freeing thread's list; with
    none waiting the node is free again.
   */
  lemma FreeStartsNext(s: State, t: Tid, id: Id)
    requires Inv(s) && ThreadList(t) in s.todo && id in s.bufs && s.bufs[id].delivered && s.bufs[id].node in s.hasAsync
    ensures Fifo(s, Free(s, t, id)) && Free(s, t, id).bufs == s.bufs - {id}
    ensures var n := s.bufs[id].node; var s2 := Free(s, t, id);
            if s.waiting[n] == []
            then s2.hasAsync == s.hasAsync[n := false] && s2.todo == s.todo && s2.waiting == s.waiting
            else
              && s2.hasAsync == s.hasAsync && s.waiting[n] == [s.waiting[n][0]] + s2.waiting[n]
              && s2.todo == s.todo[ThreadList(t) := s.todo[ThreadList(t)] + [Call(s.waiting[n][0])]]
              && forall m | m in s.waiting && m != n :: m in s2.waiting && s2.waiting[m] == s.waiting[m]
  {
  }

  // ----- they keep the invariant

  lemma FreshId(s: State)
    requires Inv(s)
    ensures s.nextId !in s.bufs
    ensures forall n | n in s.hasAsync :: s.nextId !in s.sent[n] && s.nextId !in s.waiting[n]
    ensures forall q | q in s.todo :: Call(s.nextId) !in s.todo[q]
  {
    forall id | id in s.bufs
      ensures id < s.nextId
    {
      assert BufOk(s, id);
    }
    forall n | n in s.hasAsync
      ensures s.nextId !in s.sent[n] && s.nextId !in s.waiting[n]
    {
      assert NodeOk(s, n);
    }
    forall q | q in s.todo
      ensures Call(s.nextId) !in s.todo[q]
    {
      assert QueueOk(s, q);
    }
  }

  lemma SendInv(s: State, n: Nid)
    requires Inv(s) && n in s.hasAsync
    ensures Inv(Send(s, n))
  {
    var s2 := Send(s, n);
    forall m | m in s2.hasAsync
      ensures NodeOk(s2, m)
    {
      if m == n {
        SendNode(s, n);
      } else {
        SendOther(s, n, m);
      }
    }
    forall id | id in s2.bufs
      ensures BufOk(s2, id)
    {
      SendBuf(s, n, id);
    }
    forall q | q in s2.todo
      ensures QueueOk(s2, q)
    {
      SendQueue(s, n, q);
    }
  }

  lemma SendOther(s: State, n: Nid, m: Nid)
    requires Inv(s) && n in s.hasAsync && m in s.hasAsync && m != n
    ensures NodeOk(Send(s, n), m)
  {
    FreshId(s);
    assert NodeOk(s, m);
    assert OnItsWay(Send(s, n), m) == OnItsWay(s, m);
  }

  lemma SendBuf(s: State, n: Nid, id: Id)
    requires Inv(s) && n in s.hasAsync && (id in s.bufs || id == s.nextId)
    ensures BufOk(Send(s, n), id)
  {
    FreshId(s);
    assert NodeOk(s, n);
    if id != s.nextId {
      assert BufOk(s, id);
    } else if !s.hasAsync[n] {
      var l := Send(s, n).todo[ProcList];
      assert l[|l| - 1] == Call(id);
    }
  }

  lemma SendQueue(s: State, n: Nid, q: Queue)
    requires Inv(s) && n in s.hasAsync && q in s.todo
    ensures QueueOk(Send(s, n), q)
  {
    FreshId(s);
    assert NodeOk(s, n) && QueueOk(s, q);
  }

  lemma SendNode(s: State, n: Nid)
    requires Inv(s) && n in s.hasAsync
    ensures NodeOk(Send(s, n), n)
  {
    var s2 := Send(s, n);
    FreshId(s);
    assert NodeOk(s, n);
    assert s2.sent[n] == s2.arrived[n] + OnItsWay(s2, n) + s2.waiting[n];
  }

  lemma TakeInv(s: State, q: Queue)
    requires Inv(s) && q in s.todo && s.todo[q] != []
    ensures Inv(Take(s, q))
    ensures s.todo[q][0].Call? ==> s.todo[q][0].id in s.bufs && s.bufs[s.todo[q][0].id].node in s.arrived
  {
    var s2 := Take(s, q);
    assert QueueOk(s, q);
    assert s.todo[q] == [s.todo[q][0]] + s.todo[q][1..];
    if s.todo[q][0].Call? {
      assert BufOk(s, s.todo[q][0].id);
    }
    forall m | m in s2.hasAsync
      ensures NodeOk(s2, m)
    {
      TakeNode(s, q, m);
    }
    forall id | id in s2.bufs
      ensures BufOk(s2, id)
    {
      TakeBuf(s, q, id);
    }
    forall p | p in s2.todo
      ensures QueueOk(s2, p)
    {
      assert QueueOk(s, p);
      TakeQueue(s, q, p);
    }
  }

  lemma TakeNode(s: State, q: Queue, n: Nid)
    requires Inv(s) && q in s.todo && s.todo[q] != [] && n in s.hasAsync
    ensures NodeOk(Take(s, q), n)
  {
    var s2 := Take(s, q);
    assert NodeOk(s, n) && QueueOk(s, q);
    var x := s.todo[q][0];
    assert x in s.todo[q];
    if x.Call? && s.bufs[x.id].node == n {
      assert s.current[n] == Some(x.id);
      assert OnItsWay(s, n) == [x.id] && OnItsWay(s2, n) == [];
      assert s2.sent[n] == s2.arrived[n] + OnItsWay(s2, n) + s2.waiting[n];
    } else {
      assert OnItsWay(s2, n) == OnItsWay(s, n);
    }
  }

  lemma TakeBuf(s: State, q: Queue, id: Id)
    requires Inv(s) && q in s.todo && s.todo[q] != [] && id in s.bufs
    ensures BufOk(Take(s, q), id)
  {
    assert BufOk(s, id) && QueueOk(s, q);
    var x := s.todo[q][0];
    assert x in s.todo[q];
    assert s.todo[q] == [x] + s.todo[q][1..];
  }

  lemma TakeQueue(s: State, q: Queue, p: Queue)
    requires Inv(s) && q in s.todo && s.todo[q] != [] && p in s.todo
    ensures QueueOk(Take(s, q), p)
  {
    assert QueueOk(s, p) && QueueOk(s, q);
    var s2 := Take(s, q);
    var x := s.todo[q][0];
    assert x in s.todo[q];
    forall y | y in s2.todo[p] && y.Call?
      ensures y in s.todo[p] && y != x
    {
    }
  }

  /** The buffer of a delivered call is that of its node's current one, so line 1918 does not stop the driver. */
  lemma DeliveredIsCurrent(s: State, id: Id)
    requires Inv(s) && id in s.bufs && s.bufs[id].delivered
    ensures s.bufs[id].node in s.hasAsync && s.hasAsync[s.bufs[id].node] && s.current[s.bufs[id].node] == Some(id)
  {
    assert BufOk(s, id);
    assert NodeOk(s, s.bufs[id].node);
  }

  lemma FreeInv(s: State, t: Tid, id: Id)
    requires Inv(s) && ThreadList(t) in s.todo && id in s.bufs && s.bufs[id].delivered && s.bufs[id].node in s.hasAsync
    ensures Inv(Free(s, t, id))
  {
    var s2 := Free(s, t, id);
    DeliveredIsCurrent(s, id);
    forall m | m in s2.hasAsync
      ensures NodeOk(s2, m)
    {
      FreeNode(s, t, id, m);
    }
    forall b | b in s2.bufs
      ensures BufOk(s2, b)
    {
      FreeBuf(s, t, id, b);
    }
    forall p | p in s2.todo
      ensures QueueOk(s2, p)
    {
      FreeQueue(s, t, id, p);
    }
  }

  lemma FreeNode(s: State, t: Tid, id: Id, n: Nid)
    requires Inv(s) && ThreadList(t) in s.todo && id in s.bufs && s.bufs[id].delivered && s.bufs[id].node in s.hasAsync
    requires n in s.hasAsync
    ensures NodeOk(Free(s, t, id), n)
  {
    var s2 := Free(s, t, id);
    DeliveredIsCurrent(s, id);
    assert NodeOk(s, n);
    if s.bufs[id].node != n {
      assert OnItsWay(s2, n) == OnItsWay(s, n);
    } else if s.waiting[n] != [] {
      NextNode(s, t, id, n);
    }
  }

  /** The first waiting call becomes the current one. */
  lemma NextNode(s: State, t: Tid, id: Id, n: Nid)
    requires Inv(s) && ThreadList(t) in s.todo && id in s.bufs && s.bufs[id].delivered && s.bufs[id].node == n
    requires n in s.hasAsync && s.waiting[n] != []
    ensures NodeOk(Free(s, t, id), n)
  {
    var s2 := Free(s, t, id);
    DeliveredIsCurrent(s, id);
    assert NodeOk(s, n);
    var next := s.waiting[n][0];
    assert next in s.waiting[n];
    WaitingDistinct(s, n);
    assert OnItsWay(s, n) == [] && OnItsWay(s2, n) == [next];
    assert s.waiting[n] == [next] + s2.waiting[n];
    assert s.arrived[n] + [] + s.waiting[n] == s.arrived[n] + [next] + s2.waiting[n];
  }

  lemma WaitingDistinct(s: State, n: Nid)
    requires Inv(s) && n in s.hasAsync && s.waiting[n] != []
    ensures s.waiting[n][0] !in s.waiting[n][1..]
  {
    assert NodeOk(s, n);
    var k := |s.sent[n]| - |s.waiting[n]|;
    forall i | 0 <= i < |s.waiting[n]|
      ensures s.waiting[n][i] == s.sent[n][k + i]
    {
    }
  }

  lemma FreeBuf(s: State, t: Tid, id: Id, b: Id)
    requires Inv(s) && ThreadList(t) in s.todo && id in s.bufs && s.bufs[id].delivered && s.bufs[id].node in s.hasAsync
    requires b in s.bufs && b != id
    ensures BufOk(Free(s, t, id), b)
  {
    DeliveredIsCurrent(s, id);
    var n := s.bufs[id].node;
    assert BufOk(s, b) && NodeOk(s, n);
    if s.waiting[n] != [] {
      assert s.waiting[n] == [s.waiting[n][0]] + s.waiting[n][1..];
      var s2 := Free(s, t, id);
      if b == s.waiting[n][0] {
        var l := s2.todo[ThreadList(t)];
        assert l[|l| - 1] == Call(b);
      }
    }
  }

  lemma FreeQueue(s: State, t: Tid, id: Id, p: Queue)
    requires Inv(s) && ThreadList(t) in s.todo && id in s.bufs && s.bufs[id].delivered && s.bufs[id].node in s.hasAsync
    requires p in s.todo
    ensures QueueOk(Free(s, t, id), p)
  {
    DeliveredIsCurrent(s, id);
    var n := s.bufs[id].node;
    assert QueueOk(s, p) && NodeOk(s, n);
    var s2 := Free(s, t, id);
    if s.waiting[n] != [] {
      var next := s.waiting[n][0];
      assert next in s.waiting[n];
      assert Call(next) !in s.todo[p];
    }
    forall x | x in s2.todo[p] && x.Call?
      ensures x in s.todo[p] || (s.waiting[n] != [] && x == Call(s.waiting[n][0]) && p == ThreadList(t))
    {
    }
  }

  lemma PutKeeps(s: State, q: Queue, n: Nid, b: Id)
    requires Inv(s) && q in s.todo
    ensures n in s.hasAsync ==> NodeOk(Put(s, q), n)
    ensures b in s.bufs ==> BufOk(Put(s, q), b)
  {
    if n in s.hasAsync {
      assert NodeOk(s, n);
      assert OnItsWay(Put(s, q), n) == OnItsWay(s, n);
    }
    if b in s.bufs {
      assert BufOk(s, b);
    }
  }

  lemma PutQueue(s: State, q: Queue, p: Queue)
    requires Inv(s) && q in s.todo && p in s.todo
    ensures QueueOk(Put(s, q), p)
  {
    assert QueueOk(s, p);
  }

  lemma PutInv(s: State, q: Queue)
    requires Inv(s) && q in s.todo
    ensures Inv(Put(s, q))
  {
    var s2 := Put(s, q);
    forall m | m in s2.hasAsync
      ensures NodeOk(s2, m)
    {
      PutKeeps(s, q, m, 0);
    }
    forall b | b in s2.bufs
      ensures BufOk(s2, b)
    {
      PutKeeps(s, q, 0, b);
    }
    forall p | p in s2.todo
      ensures QueueOk(s2, p)
    {
      PutQueue(s, q, p);
    }
  }

  lemma AddNodeInv(s: State, n: Nid)
    requires Inv(s) && n !in s.hasAsync
    ensures Inv(AddNode(s, n))
  {
    var s2 := AddNode(s, n);
    forall m | m in s2.hasAsync
      ensures NodeOk(s2, m)
    {
      AddNodeOther(s, n, m);
    }
    forall b | b in s2.bufs
      ensures BufOk(s2, b)
    {
      AddNodeBuf(s, n, b);
    }
    forall p | p in s2.todo
      ensures QueueOk(s2, p)
    {
      AddNodeQueue(s, n, p);
    }
  }

  lemma AddNodeBuf(s: State, n: Nid, b: Id)
    requires Inv(s) && n !in s.hasAsync && b in s.bufs
    ensures BufOk(AddNode(s, n), b)
  {
    assert BufOk(s, b);
  }

  lemma AddNodeQueue(s: State, n: Nid, p: Queue)
    requires Inv(s) && n !in s.hasAsync && p in s.todo
    ensures QueueOk(AddNode(s, n), p)
  {
    assert QueueOk(s, p);
  }

  lemma AddNodeOther(s: State, n: Nid, m: Nid)
    requires Inv(s) && n !in s.hasAsync && (m in s.hasAsync || m == n)
    ensures NodeOk(AddNode(s, n), m)
  {
    if m != n {
      assert NodeOk(s, m);
      assert OnItsWay(AddNode(s, n), m) == OnItsWay(s, m);
    }
  }

  lemma AddThreadInv(s: State, t: Tid)
    requires Inv(s) && ThreadList(t) !in s.todo
    ensures Inv(s.(todo := s.todo[ThreadList(t) := []]))
  {
    var s2 := s.(todo := s.todo[ThreadList(t) := []]);
    forall m | m in s2.hasAsync
      ensures NodeOk(s2, m)
    {
      assert NodeOk(s, m);
      assert OnItsWay(s2, m) == OnItsWay(s, m);
    }
    forall b | b in s2.bufs
      ensures BufOk(s2, b)
    {
      assert BufOk(s, b);
    }
    forall p | p in s2.todo
      ensures QueueOk(s2, p)
    {
      assert p != ThreadList(t) ==> QueueOk(s, p);
    }
  }

  // ----- the driver

  class OneWayQueues {
    var hasAsync: map<Nid, bool>
    var waiting: map<Nid, seq<Id>>
    var todo: map<Queue, seq<Work>>
    var bufs: map<Id, Buf>
    var nextId: nat
    ghost var current: map<Nid, Option<Id>>
    ghost var place: map<Id, Queue>
    ghost var sent: map<Nid, seq<Id>>
    ghost var arrived: map<Nid, seq<Id>>

    ghost function View(): State
      reads this
    {
      State(hasAsync, waiting, todo, bufs, nextId, current, place, sent, arrived)
    }

    ghost predicate Valid()
      reads this
    {
      Inv(View())
    }

    constructor ()
      ensures Valid() && hasAsync == map[] && todo == map[ProcList := []] && bufs == map[]
    {
      hasAsync, waiting, todo, bufs, nextId := map[], map[], map[ProcList := []], map[], 0;
      current, place, sent, arrived := map[], map[], map[], map[];
    }

    method NewNode(n: Nid)
      requires Valid() && n !in hasAsync
      modifies this
      ensures Valid() && View() == AddNode(old(View()), n)
    {
      AddNodeInv(View(), n);
      hasAsync, waiting := hasAsync[n := false], waiting[n := []];
      current, sent, arrived := current[n := None], sent[n := []], arrived[n := []];
    }

    method NewThread(t: Tid)
      requires Valid() && ThreadList(t) !in todo
      modifies `todo
      ensures Valid() && todo == old(todo)[ThreadList(t) := []]
    {
      AddThreadInv(View(), t);
      todo := todo[ThreadList(t) := []];
    }

    /** Any other work is put in a list. */
    method PutOther(q: Queue)
      requires Valid() && q in todo
      modifies `todo
      ensures Valid() && todo == old(todo)[q := old(todo[q]) + [Other]]
    {
      PutInv(View(), q);
      todo := todo[q := todo[q] + [Other]];
    }

    /** Lines 1692-1699: where the call goes. */
    method Enqueue(n: Nid, id: Id)
      requires n in hasAsync && n in waiting && ProcList in todo
      modifies `hasAsync, `waiting, `todo, `current, `place
      ensures View() == Enqueued(old(View()), n, id)
    {
      if hasAsync[n] {
        waiting := waiting[n := waiting[n] + [id]];
      } else {
        hasAsync := hasAsync[n := true];
        todo := todo[ProcList := todo[ProcList] + [Call(id)]];
        current, place := current[n := Some(id)], place[id := ProcList];
      }
    }

    /** The end of binder_transaction for a one-way call to node `n`. */
    method SendOneWay(n: Nid) returns (id: Id)
      requires Valid() && n in hasAsync
      modifies this
      ensures Valid() && View() == Send(old(View()), n)
      ensures id !in old(bufs) && n in old(sent) && sent == old(sent)[n := old(sent)[n] + [id]]
          && arrived == old(arrived)
    {
      SendInv(View(), n);
      FreshId(View());
      id := nextId;
      Enqueue(n, id);
      Record(n, id);
    }

    method Record(n: Nid, id: Id)
      requires n in sent && id == nextId
      modifies `bufs, `nextId, `sent
      ensures View() == Recorded(old(View()), n, id)
    {
      bufs, nextId := bufs[id := Buf(n, false)], id + 1;
      sent := sent[n := sent[n] + [id]];
    }

    /**
      binder_thread_read, one turn: the work of the thread's own list first, that of
      the process only when the thread may wait for it.
     */
    method Read(t: Tid, waitForProcWork: bool) returns (w: Option<Work>)
      requires Valid() && ThreadList(t) in todo
      modifies `todo, `bufs, `arrived
      ensures Valid()
      ensures w == if old(todo[ThreadList(t)]) != [] then Some(old(todo[ThreadList(t)])[0])
                   else if old(todo[ProcList]) != [] && waitForProcWork then Some(old(todo[ProcList])[0]) else None
      ensures w == None ==> View() == old(View())
      ensures w.Some? ==>
                View() == Take(old(View()), if old(todo[ThreadList(t)]) != [] then ThreadList(t) else ProcList)
      ensures w.Some? && w.value.Call? ==>
                var id := w.value.id;
                && id in bufs && bufs[id].node in sent && old(arrived.Keys) == arrived.Keys && arrived.Keys == sent.Keys
                && var n := bufs[id].node;
                   && arrived[n] == old(arrived)[n] + [id] && arrived[n] <= sent[n]
                   && forall m | m in arrived && m != n :: arrived[m] == old(arrived)[m]
    {
      var q := ThreadList(t);
      if todo[q] == [] {
        if todo[ProcList] == [] || !waitForProcWork {
          return None;
        }
        q := ProcList;
      }
      TakeInv(View(), q);
      ghost var s2 := Take(View(), q);
      w := Some(todo[q][0]);
      todo := todo[q := todo[q][1..]];
      if w.value.Call? {
        var id := w.value.id;
        var n := bufs[id].node;
        bufs := bufs[id := Buf(n, true)];
        arrived := arrived[n := arrived[n] + [id]];
        assert View() == s2;
        Serialised(s2, n);
      }
    }

    /** BC_FREE_BUFFER of a one-way call's buffer, by thread `t`; a buffer that is not the user's is left alone. */
    method FreeBuffer(t: Tid, id: Id) returns (freed: bool)
      requires Valid() && ThreadList(t) in todo
      modifies this
      ensures Valid() && (freed <==> id in old(bufs) && old(bufs)[id].delivered)
      ensures !freed ==> View() == old(View())
      ensures freed ==> old(bufs)[id].node in old(hasAsync) && View() == Free(old(View()), t, id)
      ensures sent == old(sent) && arrived == old(arrived)
    {
      if id !in bufs || !bufs[id].delivered {
        return false;
      }
      freed := true;
      DeliveredIsCurrent(View(), id);
      FreeInv(View(), t, id);
      ghost var s2 := Free(View(), t, id);
      var n := bufs[id].node;
      assert hasAsync[n];  // the BUG_ON of line 1918
      StartNext(t, n);
      bufs := bufs - {id};
      assert View() == s2;
    }

    /** Lines 1919-1922: the next call to the node goes to the thread, if one waits. */
    method StartNext(t: Tid, n: Nid)
      requires n in waiting && ThreadList(t) in todo
      modifies `hasAsync, `waiting, `todo, `current, `place
      ensures old(waiting[n]) == [] ==>
                View() == old(View()).(hasAsync := old(hasAsync)[n := false], current := old(current)[n := None])
      ensures old(waiting[n]) != [] ==>
                var next, q := old(waiting[n])[0], ThreadList(t);
                View() == old(View()).(waiting := old(waiting)[n := old(waiting[n])[1..]],
                                       todo := old(todo)[q := old(todo[q]) + [Call(next)]],
                                       current := old(current)[n := Some(next)], place := old(place)[next := q])
    {
      if waiting[n] == [] {
        hasAsync := hasAsync[n := false];
        current := current[n := None];
      } else {
        var next := waiting[n][0];
        waiting := waiting[n := waiting[n][1..]];
        todo := todo[ThreadList(t) := todo[ThreadList(t)] + [Call(next)]];
        current, place := current[n := Some(next)], place[next := ThreadList(t)];
      }
    }
  }
}
