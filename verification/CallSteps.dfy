/**
  The steps that calls, replies, failures and thread exits are made of, each as a
  function of the state, with the proof that it keeps the invariant.  A call that
  is on no todo list for the moment makes its chain the `loose` one.
 */
module CallSteps {
  import opened Options
  import opened CallChains

  // ----- parts of the invariant that a step does not touch

  ghost predicate SameTxns(txns: map<Xid, Txn>, txns2: map<Xid, Txn>, c: Chain) {
    forall i | 0 <= i < |c.xs| && c.xs[i] in txns :: c.xs[i] in txns2 && txns2[c.xs[i]] == txns[c.xs[i]]
  }

  ghost predicate SameStacks(threads: map<Tid, Thread>, threads2: map<Tid, Thread>, c: Chain) {
    forall i | 0 <= i < |c.who| && c.who[i].Some? && c.who[i].value in threads ::
      c.who[i].value in threads2 && threads2[c.who[i].value].stack == threads[c.who[i].value].stack
  }

  ghost predicate SameRecords(s: State, s2: State, c: Chain) {
    && (forall i | 0 <= i < |c.xs| && c.xs[i] in s.home :: c.xs[i] in s2.home && s2.home[c.xs[i]] == s.home[c.xs[i]])
    && (forall i | 0 <= i < |c.who| && c.who[i].Some? && c.who[i].value in s.seat ::
          c.who[i].value in s2.seat && s2.seat[c.who[i].value] == s.seat[c.who[i].value])
  }

  /** The step leaves chain `r` alone: its transactions, its threads' stacks, its records. */
  ghost predicate SameView(s: State, s2: State, r: Xid)
    requires r in s.chains && r in s2.chains
  {
    && s2.chains[r] == s.chains[r]
    && SameTxns(s.txns, s2.txns, s.chains[r])
    && SameStacks(s.threads, s2.threads, s.chains[r])
    && SameRecords(s, s2, s.chains[r])
  }

  /** Call `x` is still on whatever todo list it was on, and the list's owner still there. */
  ghost predicate StillQueued(s: State, s2: State, x: Xid) {
    && (forall u | u in s.threads && Call(x) in s.threads[u].todo ::
          u in s2.threads && s2.threads[u].proc == s.threads[u].proc && Call(x) in s2.threads[u].todo)
    && (forall p | p in s.procTodo && Call(x) in s.procTodo[p] :: p in s2.procTodo && Call(x) in s2.procTodo[p])
  }

  lemma LinkedFrame(txns: map<Xid, Txn>, txns2: map<Xid, Txn>, c: Chain)
    requires c.Shaped() && Linked(txns, c) && SameTxns(txns, txns2, c)
    ensures Linked(txns2, c)
  {
    forall i | 0 <= i < |c.xs|
      ensures Made(txns2, c, i)
    {
      assert Made(txns, c, i);
    }
    forall i | 0 < i < |c.who|
      ensures ReceivedAt(txns2, c, i)
    {
      assert ReceivedAt(txns, c, i);
    }
  }

  lemma SeatedFrame(threads: map<Tid, Thread>, threads2: map<Tid, Thread>, c: Chain)
    requires c.Shaped() && Seated(threads, c) && SameStacks(threads, threads2, c)
    ensures Seated(threads2, c)
  {
    forall i | 0 <= i < |c.who|
      ensures SeatedAt(threads2, c, i)
    {
      assert SeatedAt(threads, c, i);
    }
  }

  lemma QueuedFrame(s: State, s2: State, c: Chain)
    requires c.Shaped() && SameTxns(s.txns, s2.txns, c)
    requires Queued(s.threads, s.procTodo, s.txns, c) && StillQueued(s, s2, c.xs[|c.xs| - 1])
    ensures Queued(s2.threads, s2.procTodo, s2.txns, c)
  {
  }

  lemma ChainFrame(s: State, s2: State, r: Xid, loose: Option<Xid>, loose2: Option<Xid>)
    requires r in s.chains && ChainOk(s, r, loose)
    requires r in s2.chains && SameView(s, s2, r)
    requires loose == Some(r) <==> loose2 == Some(r)
    requires StillQueued(s, s2, s.chains[r].xs[|s.chains[r].xs| - 1])
    ensures ChainOk(s2, r, loose2)
  {
    var c := s.chains[r];
    LinkedFrame(s.txns, s2.txns, c);
    SeatedFrame(s.threads, s2.threads, c);
    if loose != Some(r) && !c.Received() {
      QueuedFrame(s, s2, c);
    }
  }

  /** Call `x` of a chain that the step leaves alone is as pending as it was. */
  lemma PendingFrame(s: State, s2: State, x: Xid, loose: Option<Xid>, loose2: Option<Xid>)
    requires Pending(s, x, loose)
    requires x in s2.txns && x in s2.home && s2.home[x] == s.home[x]
    requires s.home[x].0 in s2.chains && s2.chains[s.home[x].0] == s.chains[s.home[x].0]
    requires Some(s.home[x].0) != loose2
    ensures Pending(s2, x, loose2)
  {
  }

  // ----- taking a call off a todo list, putting it on one

  /** The call is taken off the head of thread `u`'s todo list. */
  function TakenFromThread(s: State, u: Tid): State
    requires u in s.threads && s.threads[u].todo != []
  {
    s.(threads := s.threads[u := s.threads[u].(todo := s.threads[u].todo[1..])])
  }

  function TakenFromProc(s: State, p: Pid): State
    requires p in s.procTodo && s.procTodo[p] != []
  {
    s.(procTodo := s.procTodo[p := s.procTodo[p][1..]])
  }

  lemma NoCallTwiceTail(q: seq<Work>)
    requires NoCallTwice(q) && q != []
    ensures NoCallTwice(q[1..])
    ensures q[0].Call? ==> q[0] !in q[1..]
    ensures forall w :: w in q && w != q[0] ==> w in q[1..]
  {
    assert q == [q[0]] + q[1..];
  }

  lemma NoCallTwiceAppend(q: seq<Work>, w: Work)
    requires NoCallTwice(q) && (w.Call? ==> w !in q)
    ensures NoCallTwice(q + [w])
    ensures forall v :: v in q + [w] <==> v in q || v == w
  {
    forall j, k | 0 <= j < k < |q + [w]| && (q + [w])[j].Call?
      ensures (q + [w])[j] != (q + [w])[k]
    {
      if k == |q| {
        assert (q + [w])[j] == q[j];
      }
    }
  }

  /** Two calls pending in one state that have one chain are one call. */
  lemma PendingUnique(s: State, x: Xid, y: Xid, loose: Option<Xid>)
    requires Pending(s, x, loose) && Pending(s, y, loose) && s.home[x].0 == s.home[y].0
    ensures x == y
  {
  }

  /** The head of thread `u`'s list is taken off: if it is a call, its chain becomes loose. */
  function LooseAfter(s: State, w: Work): Option<Xid> {
    if w.Call? && w.x in s.home then Some(s.home[w.x].0) else None
  }

  lemma TakenFromThreadInv(s: State, u: Tid)
    requires Inv(s, None) && u in s.threads && s.threads[u].todo != []
    ensures Inv(TakenFromThread(s, u), LooseAfter(s, s.threads[u].todo[0]))
  {
    var w := s.threads[u].todo[0];
    var s2 := TakenFromThread(s, u);
    assert ThreadOk(s, u, None);
    NoCallTwiceTail(s.threads[u].todo);
    assert w.Call? ==> Call(w.x) in s.threads[u].todo && Pending(s, w.x, None) && s.txns[w.x].toThread == Some(u);
    assert OnlyTaken(s, s2, w);
    forall t | t in s2.threads
      ensures ThreadOk(s2, t, LooseAfter(s, w))
    {
      assert ThreadOk(s, t, None);
      TakenThreadOk(s, s2, t, w);
    }
    forall p | p in s2.procTodo
      ensures ProcOk(s2, p, LooseAfter(s, w))
    {
      assert ProcOk(s, p, None);
      TakenProcOk(s, s2, p, w);
    }
    TakenInv(s, s2, w);
  }

  lemma TakenFromProcInv(s: State, p: Pid)
    requires Inv(s, None) && p in s.procTodo && s.procTodo[p] != []
    ensures Inv(TakenFromProc(s, p), LooseAfter(s, s.procTodo[p][0]))
  {
    var w := s.procTodo[p][0];
    var s2 := TakenFromProc(s, p);
    assert ProcOk(s, p, None);
    NoCallTwiceTail(s.procTodo[p]);
    assert w.Call? ==> Call(w.x) in s.procTodo[p] && Pending(s, w.x, None)
                       && s.txns[w.x].toThread == None && s.txns[w.x].toProc == Some(p);
    assert OnlyTaken(s, s2, w);
    forall t | t in s2.threads
      ensures ThreadOk(s2, t, LooseAfter(s, w))
    {
      assert ThreadOk(s, t, None);
      TakenThreadOk(s, s2, t, w);
    }
    forall q | q in s2.procTodo
      ensures ProcOk(s2, q, LooseAfter(s, w))
    {
      assert ProcOk(s, q, None);
      TakenProcOk(s, s2, q, w);
    }
    TakenInv(s, s2, w);
  }

  lemma TakenInv(s: State, s2: State, w: Work)
    requires Inv(s, None) && OnlyTaken(s, s2, w)
    requires w.Call? ==> Pending(s, w.x, None)
    requires forall t {:trigger ThreadOk(s2, t, LooseAfter(s, w))} | t in s2.threads ::
        ThreadOk(s2, t, LooseAfter(s, w))
    requires forall p {:trigger ProcOk(s2, p, LooseAfter(s, w))} | p in s2.procTodo :: ProcOk(s2, p, LooseAfter(s, w))
    ensures Inv(s2, LooseAfter(s, w))
  {
    forall r | r in s2.chains
      ensures ChainOk(s2, r, LooseAfter(s, w))
    {
      assert ChainOk(s, r, None);
      TakenChainOk(s, s2, r, w);
    }
    forall x | x in s2.txns
      ensures HomeOk(s2, x)
    {
      assert HomeOk(s, x);
    }
  }

  lemma TakenThreadOk(s: State, s2: State, t: Tid, w: Work)
    requires OnlyTaken(s, s2, w) && t in s.threads && ThreadOk(s, t, None)
    requires w.Call? ==> Pending(s, w.x, None)
    requires s2.threads[t].error == s.threads[t].error && s2.threads[t].error2 == s.threads[t].error2
    requires NoCallTwice(s2.threads[t].todo)
    requires forall v | v in s2.threads[t].todo && v.Call? :: v in s.threads[t].todo && v != w
    ensures ThreadOk(s2, t, LooseAfter(s, w))
  {
    forall y | Call(y) in s2.threads[t].todo
      ensures Pending(s2, y, LooseAfter(s, w)) && s2.txns[y].toThread == Some(t)
    {
      assert Call(y) in s.threads[t].todo;
      TakenPending(s, s2, y, w);
    }
  }

  lemma TakenProcOk(s: State, s2: State, p: Pid, w: Work)
    requires OnlyTaken(s, s2, w) && p in s.procTodo && ProcOk(s, p, None)
    requires w.Call? ==> Pending(s, w.x, None)
    requires NoCallTwice(s2.procTodo[p])
    requires forall v | v in s2.procTodo[p] && v.Call? :: v in s.procTodo[p] && v != w
    ensures ProcOk(s2, p, LooseAfter(s, w))
  {
    forall y | Call(y) in s2.procTodo[p]
      ensures Pending(s2, y, LooseAfter(s, w)) && s2.txns[y].toThread == None && s2.txns[y].toProc == Some(p)
    {
      assert Call(y) in s.procTodo[p];
      TakenPending(s, s2, y, w);
    }
  }

  /** `s2` differs from `s` only in todo lists, from which at most `w` is missing. */
  ghost predicate OnlyTaken(s: State, s2: State, w: Work) {
    && s2.txns == s.txns && s2.chains == s.chains && s2.home == s.home && s2.seat == s.seat
    && s2.threads.Keys == s.threads.Keys && s2.procTodo.Keys == s.procTodo.Keys
    && (forall t | t in s.threads ::
          s2.threads[t].stack == s.threads[t].stack && s2.threads[t].proc == s.threads[t].proc
          && forall v | v in s.threads[t].todo && v != w :: v in s2.threads[t].todo)
    && (forall p | p in s.procTodo :: forall v | v in s.procTodo[p] && v != w :: v in s2.procTodo[p])
  }

  lemma TakenChainOk(s: State, s2: State, r: Xid, w: Work)
    requires OnlyTaken(s, s2, w) && r in s.chains && ChainOk(s, r, None)
    requires w.Call? ==> Pending(s, w.x, None)
    ensures ChainOk(s2, r, LooseAfter(s, w))
  {
    var c := s.chains[r];
    assert SameView(s, s2, r);
    if LooseAfter(s, w) == Some(r) {
      LinkedFrame(s.txns, s2.txns, c);
      SeatedFrame(s.threads, s2.threads, c);
    } else {
      HomeAt(s.home, s.seat, r, c, |c.xs| - 1);
      assert Call(c.xs[|c.xs| - 1]) != w;
      ChainFrame(s, s2, r, None, LooseAfter(s, w));
    }
  }

  /** A call that stays on a list, other than the one taken, is in a chain that stays tight. */
  lemma TakenPending(s: State, s2: State, y: Xid, w: Work)
    requires OnlyTaken(s, s2, w) && Pending(s, y, None) && Call(y) != w
    requires w.Call? ==> Pending(s, w.x, None)
    ensures Pending(s2, y, LooseAfter(s, w))
  {
    if w.Call? && s.home[y].0 == s.home[w.x].0 {
      PendingUnique(s, y, w.x, None);
    }
  }

  // ----- steps within one chain

  /** The step leaves everything outside chain `r` alone. */
  ghost predicate Elsewhere(s: State, s2: State, r: Xid) {
    && (forall q | q != r :: (q in s2.chains <==> q in s.chains) && (q in s.chains ==> s2.chains[q] == s.chains[q]))
    && (forall x | x in s.home && s.home[x].0 != r && x in s.txns ::
          x in s2.home && s2.home[x] == s.home[x] && x in s2.txns && s2.txns[x] == s.txns[x])
    && (forall t | t in s.threads && t in s.seat && s.seat[t] != r ::
          t in s2.threads && s2.threads[t].stack == s.threads[t].stack && t in s2.seat && s2.seat[t] == s.seat[t])
    && (forall t | t in s.threads && t in s2.threads ::
          s2.threads[t].proc == s.threads[t].proc && s2.threads[t].todo == s.threads[t].todo)
    && s2.procTodo == s.procTodo
  }

  /** No todo list has a call of chain `r`: the chain is loose, or its last call was received. */
  ghost predicate OffLists(s: State, r: Xid, loose: Option<Xid>) {
    loose == Some(r) || (loose == None && (r in s.chains ==> s.chains[r].Received()))
  }

  lemma OffListsMeans(s: State, r: Xid, loose: Option<Xid>, y: Xid)
    requires OffLists(s, r, loose) && Pending(s, y, loose)
    ensures s.home[y].0 != r
  {
  }

  lemma OtherPending(s: State, s2: State, r: Xid, y: Xid, loose: Option<Xid>, loose2: Option<Xid>)
    requires Elsewhere(s, s2, r) && OffLists(s, r, loose) && Pending(s, y, loose)
    requires loose2 == None || loose2 == Some(r)
    ensures Pending(s2, y, loose2) && s2.txns[y] == s.txns[y]
  {
    OffListsMeans(s, r, loose, y);
    PendingFrame(s, s2, y, loose, loose2);
  }

  lemma OtherChainOk(s: State, s2: State, r: Xid, q: Xid, loose: Option<Xid>, loose2: Option<Xid>)
    requires Elsewhere(s, s2, r) && q in s.chains && q != r && ChainOk(s, q, loose)
    requires loose == None || loose == Some(r)
    requires loose2 == None || loose2 == Some(r)
    requires s.threads.Keys <= s2.threads.Keys && s.txns.Keys >= s.home.Keys && s.threads.Keys >= s.seat.Keys
    ensures q in s2.chains && ChainOk(s2, q, loose2)
  {
    var c := s.chains[q];
    assert SameTxns(s.txns, s2.txns, c);
    assert SameStacks(s.threads, s2.threads, c);
    ChainFrame(s, s2, q, loose, loose2);
  }

  /** The todo list of a thread that the step leaves alone, seen from the new state. */
  ghost predicate ListOk(s: State, t: Tid, loose: Option<Xid>)
    requires t in s.threads
  {
    && NoCallTwice(s.threads[t].todo)
    && forall x | Call(x) in s.threads[t].todo :: Pending(s, x, loose) && s.txns[x].toThread == Some(t)
  }

  lemma OtherListOk(s: State, s2: State, r: Xid, t: Tid, loose: Option<Xid>, loose2: Option<Xid>)
    requires Elsewhere(s, s2, r) && OffLists(s, r, loose) && t in s.threads && ThreadOk(s, t, loose)
    requires loose2 == None || loose2 == Some(r)
    requires t in s2.threads
    ensures ListOk(s2, t, loose2)
  {
    forall y | Call(y) in s2.threads[t].todo
      ensures Pending(s2, y, loose2) && s2.txns[y].toThread == Some(t)
    {
      OtherPending(s, s2, r, y, loose, loose2);
    }
  }

  lemma OtherThreadOk(s: State, s2: State, r: Xid, t: Tid, loose: Option<Xid>, loose2: Option<Xid>)
    requires Inv(s, loose) && Elsewhere(s, s2, r) && OffLists(s, r, loose)
    requires loose2 == None || loose2 == Some(r)
    requires t in s.threads && t in s2.threads && s2.threads[t] == s.threads[t]
    requires t in s.seat ==> s.seat[t] != r
    requires t !in s.seat ==> t !in s2.seat
    ensures ThreadOk(s2, t, loose2)
  {
    assert ThreadOk(s, t, loose);
    OtherListOk(s, s2, r, t, loose, loose2);
    StackIsTop(s, loose, t);
    if t in s.seat {
      TopIsHome(s, loose, t);
    }
  }

  /** A seated thread's stack top is a transaction of the thread's chain. */
  lemma TopIsHome(s: State, loose: Option<Xid>, t: Tid)
    requires Inv(s, loose) && t in s.threads && t in s.seat
    ensures s.threads[t].stack.Some?
    ensures var x := s.threads[t].stack.value; x in s.txns && x in s.home && s.home[x].0 == s.seat[t]
  {
    StackIsTop(s, loose, t);
    var r := s.seat[t];
    var c := s.chains[r];
    var p := LastPos(c.who, t);
    HomeAt(s.home, s.seat, r, c, if p < |c.xs| then p else p - 1);
  }

  lemma OtherProcOk(s: State, s2: State, r: Xid, p: Pid, loose: Option<Xid>, loose2: Option<Xid>)
    requires Elsewhere(s, s2, r) && OffLists(s, r, loose)
    requires loose2 == None || loose2 == Some(r)
    requires p in s.procTodo && ProcOk(s, p, loose)
    ensures ProcOk(s2, p, loose2)
  {
    forall y | Call(y) in s2.procTodo[p]
      ensures Pending(s2, y, loose2) && s2.txns[y].toThread == None && s2.txns[y].toProc == Some(p)
    {
      OtherPending(s, s2, r, y, loose, loose2);
    }
  }

  /** The invariant after a step within chain `r`, from what the step does to that chain and its threads. */
  lemma StepInv(s: State, s2: State, r: Xid, loose: Option<Xid>, loose2: Option<Xid>)
    requires Inv(s, loose) && Elsewhere(s, s2, r) && OffLists(s, r, loose)
    requires loose2 == None || (loose2 == Some(r) && r in s2.chains)
    requires s2.threads.Keys == s.threads.Keys
    requires s2.home.Keys == s2.txns.Keys && s2.seat.Keys <= s2.threads.Keys
    requires r in s2.chains ==> ChainOk(s2, r, loose2)
    requires forall x | x in s2.txns && !(x in s.txns && s.home[x].0 != r) :: HomeOk(s2, x)
    requires forall t | t in s2.threads && !(s2.threads[t] == s.threads[t]
                                             && (if t in s.seat then s.seat[t] != r else t !in s2.seat)) ::
               ThreadOk(s2, t, loose2)
    ensures Inv(s2, loose2)
  {
    forall q | q in s2.chains
      ensures ChainOk(s2, q, loose2)
    {
      if q != r {
        assert ChainOk(s, q, loose);
        OtherChainOk(s, s2, r, q, loose, loose2);
      }
    }
    forall x | x in s2.txns
      ensures HomeOk(s2, x)
    {
      if x in s.txns && s.home[x].0 != r {
        assert HomeOk(s, x);
      }
    }
    forall t | t in s2.threads
      ensures ThreadOk(s2, t, loose2)
    {
      if s2.threads[t] == s.threads[t] && (if t in s.seat then s.seat[t] != r else t !in s2.seat) {
        OtherThreadOk(s, s2, r, t, loose, loose2);
      }
    }
    forall p | p in s2.procTodo
      ensures ProcOk(s2, p, loose2)
    {
      assert ProcOk(s, p, loose);
      OtherProcOk(s, s2, r, p, loose, loose2);
    }
  }

  // ----- receiving a call

  /** Thread `t` receives the last call of loose chain `r`. */
  function Receive(s: State, r: Xid, t: Tid): State
    requires r in s.chains && s.chains[r].xs != [] && t in s.threads
    requires s.chains[r].xs[|s.chains[r].xs| - 1] in s.txns
  {
    var c := s.chains[r];
    var x := c.xs[|c.xs| - 1];
    s.(threads := s.threads[t := s.threads[t].(stack := Some(x))],
       txns := s.txns[x := s.txns[x].(toParent := s.threads[t].stack, toThread := Some(t))],
       chains := s.chains[r := Chain(c.xs, c.who + [Some(t)])],
       seat := s.seat[t := r])
  }

  lemma LastPosAppend(who: seq<Option<Tid>>, a: Option<Tid>, u: Tid)
    ensures LastPos(who + [a], u) == if a == Some(u) then |who| else LastPos(who, u)
  {
    assert (who + [a])[..|who|] == who;
  }

  lemma BelowPrefix(c: Chain, d: Chain, j: nat, u: Tid)
    requires j <= |c.who| && j <= |c.xs| && j <= |d.who| && j <= |d.xs|
    requires c.who[..j] == d.who[..j] && c.xs[..j] == d.xs[..j]
    ensures Below(c, j, u) == Below(d, j, u)
  {
    var p := LastPos(c.who[..j], u);
    if 0 <= p {
      assert c.xs[..j][p] == d.xs[..j][p];
    }
  }

  lemma ReceiveLinked(txns: map<Xid, Txn>, txns2: map<Xid, Txn>, c: Chain, t: Tid)
    requires c.Shaped() && !c.Received() && Linked(txns, c)
    requires forall i | 0 <= i < |c.xs| - 1 && c.xs[i] in txns :: c.xs[i] in txns2 && txns2[c.xs[i]] == txns[c.xs[i]]
    requires var x := c.xs[|c.xs| - 1];
             x in txns && x in txns2 && txns2[x] == txns[x].(toParent := Top(c, t), toThread := Some(t))
    ensures Linked(txns2, Chain(c.xs, c.who + [Some(t)]))
  {
    var d := Chain(c.xs, c.who + [Some(t)]);
    forall i | 0 <= i < |d.xs|
      ensures Made(txns2, d, i)
    {
      assert Made(txns, c, i);
    }
    forall i | 0 < i < |d.who|
      ensures ReceivedAt(txns2, d, i)
    {
      if i < |c.who| {
        assert ReceivedAt(txns, c, i);
        assert c.who[..i] == d.who[..i];
        if d.who[i].Some? {
          BelowPrefix(c, d, i, d.who[i].value);
        }
      } else {
        assert d.who[..i] == c.who;
      }
    }
  }

  lemma ReceiveSeated(threads: map<Tid, Thread>, threads2: map<Tid, Thread>, c: Chain, t: Tid)
    requires c.Shaped() && !c.Received() && Seated(threads, c) && c.who[|c.xs| - 1] != Some(t)
    requires forall u | u in threads && u != t :: u in threads2 && threads2[u].stack == threads[u].stack
    requires t in threads2 && threads2[t].stack == Some(c.xs[|c.xs| - 1])
    ensures Seated(threads2, Chain(c.xs, c.who + [Some(t)]))
  {
    var d := Chain(c.xs, c.who + [Some(t)]);
    forall i | 0 <= i < |d.who|
      ensures SeatedAt(threads2, d, i)
    {
      if d.who[i].Some? {
        LastPosAppend(c.who, Some(t), d.who[i].value);
      }
      if i < |c.who| {
        assert SeatedAt(threads, c, i);
      }
    }
  }

  lemma LastInTxns(txns: map<Xid, Txn>, c: Chain)
    requires c.Shaped() && Linked(txns, c)
    ensures c.xs[|c.xs| - 1] in txns
  {
    assert Made(txns, c, |c.xs| - 1);
  }

  lemma ReceiveInv(s: State, r: Xid, t: Tid)
    requires Inv(s, Some(r)) && t in s.threads
    requires t in s.seat ==> s.seat[t] == r
    requires r in s.chains && ChainOk(s, r, Some(r)) && s.chains[r].xs[|s.chains[r].xs| - 1] in s.txns
    requires s.chains[r].who[|s.chains[r].xs| - 1] != Some(t)
    ensures Inv(Receive(s, r, t), None)
  {
    var c := s.chains[r];
    var x := c.xs[|c.xs| - 1];
    var s2 := Receive(s, r, t);
    HomeAt(s.home, s.seat, r, c, |c.xs| - 1);
    StackIsTop(s, Some(r), t);
    ReceiveOthers(s, r, t);
    if t !in s.seat {
      NotMember(s.seat, s.home, r, c, t);
    }
    ReceiveChain(s, r, t);
    forall u | u in s2.threads && !(s2.threads[u] == s.threads[u]
                                    && (if u in s.seat then s.seat[u] != r else u !in s2.seat))
      ensures ThreadOk(s2, u, None)
    {
      ReceiveThread(s, r, t, u);
    }
    StepInv(s, s2, r, Some(r), None);
  }

  lemma ReceiveThread(s: State, r: Xid, t: Tid, u: Tid)
    requires Inv(s, Some(r)) && t in s.threads && (t in s.seat ==> s.seat[t] == r)
    requires ChainOk(s, r, Some(r)) && s.chains[r].xs[|s.chains[r].xs| - 1] in s.txns
    requires s.chains[r].who[|s.chains[r].xs| - 1] != Some(t)
    requires u in s.threads && (u == t || (u in s.seat && s.seat[u] == r))
    ensures ThreadOk(Receive(s, r, t), u, None)
  {
    var s2 := Receive(s, r, t);
    assert ThreadOk(s, u, Some(r));
    ReceiveOthers(s, r, t);
    OtherListOk(s, s2, r, u, Some(r), None);
    ReceiveMembers(s.chains[r], t, u);
    assert Made(s.txns, s.chains[r], |s.chains[r].xs| - 1);
  }

  lemma ReceiveMembers(c: Chain, t: Tid, u: Tid)
    ensures Some(u) in c.who + [Some(t)] <==> u == t || Some(u) in c.who
  {
  }

  lemma NotMember(seat: map<Tid, Xid>, home: map<Xid, (Xid, nat)>, r: Xid, c: Chain, t: Tid)
    requires Owned(home, seat, r, c) && t !in seat
    ensures Some(t) !in c.who && LastPos(c.who, t) == -1
  {
  }

  lemma ReceiveOthers(s: State, r: Xid, t: Tid)
    requires Inv(s, Some(r)) && t in s.threads && (t in s.seat ==> s.seat[t] == r)
    requires ChainOk(s, r, Some(r)) && s.chains[r].xs[|s.chains[r].xs| - 1] in s.txns
    ensures Elsewhere(s, Receive(s, r, t), r)
    ensures forall x | x in Receive(s, r, t).txns && s.home[x].0 == r :: HomeOk(Receive(s, r, t), x)
  {
    var s2 := Receive(s, r, t);
    HomeAt(s.home, s.seat, r, s.chains[r], |s.chains[r].xs| - 1);
    forall x | x in s2.txns && s.home[x].0 == r
      ensures HomeOk(s2, x)
    {
      assert HomeOk(s, x);
    }
  }

  lemma ReceiveChain(s: State, r: Xid, t: Tid)
    requires r in s.chains && ChainOk(s, r, Some(r)) && t in s.threads
    requires s.chains[r].xs[|s.chains[r].xs| - 1] in s.txns
    requires s.threads[t].stack == Top(s.chains[r], t)
    requires s.chains[r].who[|s.chains[r].xs| - 1] != Some(t)
    ensures ChainOk(Receive(s, r, t), r, None)
  {
    var c := s.chains[r];
    var s2 := Receive(s, r, t);
    DistinctTxns(s.home, s.seat, r, c);
    ReceiveLinked(s.txns, s2.txns, c, t);
    ReceiveSeated(s.threads, s2.threads, c, t);
  }

  lemma DistinctTxns(home: map<Xid, (Xid, nat)>, seat: map<Tid, Xid>, r: Xid, c: Chain)
    requires Owned(home, seat, r, c)
    ensures forall i, j | 0 <= i < j < |c.xs| :: c.xs[i] != c.xs[j]
  {
  }

  // ----- shortening a chain

  lemma TruncatedLinked(txns: map<Xid, Txn>, txns2: map<Xid, Txn>, c: Chain, m: nat, k: nat)
    requires c.Shaped() && Linked(txns, c) && 0 < m <= |c.xs| && k <= |c.who| && m <= k <= m + 1
    requires forall i | 0 <= i < m && c.xs[i] in txns :: c.xs[i] in txns2 && txns2[c.xs[i]] == txns[c.xs[i]]
    ensures Linked(txns2, Chain(c.xs[..m], c.who[..k]))
  {
    var d := Chain(c.xs[..m], c.who[..k]);
    forall i | 0 <= i < |d.xs|
      ensures Made(txns2, d, i)
    {
      assert Made(txns, c, i);
    }
    forall i | 0 < i < |d.who|
      ensures ReceivedAt(txns2, d, i)
    {
      assert ReceivedAt(txns, c, i);
      if d.who[i].Some? {
        assert c.who[..i] == d.who[..i] && c.xs[..i] == d.xs[..i];
        BelowPrefix(c, d, i, d.who[i].value);
      }
    }
  }

  /** Cutting a chain keeps the stack top of every thread that is left on it and whose last place is not the cut. */
  lemma TruncatedTop(c: Chain, m: nat, k: nat, u: Tid)
    requires c.Shaped() && 0 < m <= |c.xs| && k <= |c.who| && m <= k <= m + 1
    requires LastPos(c.who[..k], u) < m
    ensures Top(Chain(c.xs[..m], c.who[..k]), u) == if LastPos(c.who[..k], u) < 0 then None
        else Some(c.xs[LastPos(c.who[..k], u)])
  {
  }

  lemma TruncatedOwned(home: map<Xid, (Xid, nat)>, home2: map<Xid, (Xid, nat)>, seat: map<Tid, Xid>,
                       seat2: map<Tid, Xid>,
                       r: Xid, c: Chain, m: nat, k: nat)
    requires Owned(home, seat, r, c) && m <= |c.xs| && k <= |c.who|
    requires forall i | 0 <= i < m && c.xs[i] in home :: c.xs[i] in home2 && home2[c.xs[i]] == home[c.xs[i]]
    requires forall i | 0 <= i < k && c.who[i].Some? && c.who[i].value in seat ::
               c.who[i].value in seat2 && seat2[c.who[i].value] == seat[c.who[i].value]
    ensures Owned(home2, seat2, r, Chain(c.xs[..m], c.who[..k]))
  {
  }

  // ----- the receiver of a chain's last call leaves it

  /** Thread `t`, which received the last call of its chain, takes what lies below off its stack. */
  function Leave(s: State, r: Xid, t: Tid): State
    requires r in s.chains && 0 < |s.chains[r].xs| && |s.chains[r].who| == |s.chains[r].xs| + 1
    requires t in s.threads
  {
    var c := s.chains[r];
    var n := |c.xs|;
    s.(threads := s.threads[t := s.threads[t].(stack := Below(c, n, t))],
       chains := s.chains[r := Chain(c.xs, c.who[..n])],
       seat := if Some(t) in c.who[..n] then s.seat else s.seat - {t})
  }

  lemma LeaveSeated(threads: map<Tid, Thread>, threads2: map<Tid, Thread>, c: Chain, t: Tid)
    requires c.Shaped() && c.Received() && Seated(threads, c) && c.who[|c.xs|] == Some(t)
    requires forall u | u in threads && u != t :: u in threads2 && threads2[u].stack == threads[u].stack
    requires t in threads2 && threads2[t].stack == Below(c, |c.xs|, t)
    ensures Seated(threads2, Chain(c.xs, c.who[..|c.xs|]))
  {
    var n := |c.xs|;
    var d := Chain(c.xs, c.who[..n]);
    assert c.who == d.who + [Some(t)] && c.xs[..n] == c.xs;
    forall i | 0 <= i < |d.who|
      ensures SeatedAt(threads2, d, i)
    {
      assert SeatedAt(threads, c, i);
      if d.who[i].Some? {
        LastPosAppend(d.who, Some(t), d.who[i].value);
        TruncatedTop(c, n, n, d.who[i].value);
      }
    }
  }

  lemma LeaveChain(s: State, r: Xid, t: Tid, loose: Option<Xid>)
    requires r in s.chains && ChainOk(s, r, loose) && t in s.threads
    requires s.chains[r].Received() && s.chains[r].who[|s.chains[r].xs|] == Some(t)
    ensures ChainOk(Leave(s, r, t), r, Some(r))
  {
    var c := s.chains[r];
    var s2 := Leave(s, r, t);
    var n := |c.xs|;
    assert c.xs[..n] == c.xs;
    TruncatedLinked(s.txns, s2.txns, c, n, n);
    LeaveSeated(s.threads, s2.threads, c, t);
    TruncatedOwned(s.home, s2.home, s.seat, s2.seat, r, c, n, n);
  }

  lemma LeaveOthers(s: State, r: Xid, t: Tid)
    requires Inv(s, None) && t in s.threads && t in s.seat && s.seat[t] == r && r in s.chains && ChainOk(s, r, None)
    requires s.chains[r].Received()
    ensures Elsewhere(s, Leave(s, r, t), r)
    ensures forall x | x in s.txns && s.home[x].0 == r :: HomeOk(Leave(s, r, t), x)
  {
    forall x | x in s.txns && s.home[x].0 == r
      ensures HomeOk(Leave(s, r, t), x)
    {
      assert HomeOk(s, x);
    }
  }

  lemma LeaveThread(s: State, r: Xid, t: Tid, u: Tid)
    requires Inv(s, None) && t in s.threads && t in s.seat && s.seat[t] == r && r in s.chains && ChainOk(s, r, None)
    requires s.chains[r].Received() && s.chains[r].who[|s.chains[r].xs|] == Some(t)
    requires s.threads[t].error2 == Ok
    requires u in s.threads && u in s.seat && s.seat[u] == r
    ensures ThreadOk(Leave(s, r, t), u, Some(r))
  {
    var c := s.chains[r];
    var s2 := Leave(s, r, t);
    assert ThreadOk(s, u, None);
    LeaveOthers(s, r, t);
    OtherListOk(s, s2, r, u, None, Some(r));
    assert c.who == c.who[..|c.xs|] + [Some(t)];
    ReceiveMembers(Chain(c.xs, c.who[..|c.xs|]), t, u);
    if u == t && Some(t) !in c.who[..|c.xs|] {
      assert LastPos(c.who[..|c.xs|], t) == -1;
    }
  }

  lemma LeaveInv(s: State, r: Xid, t: Tid)
    requires Inv(s, None) && t in s.threads && t in s.seat && s.seat[t] == r && r in s.chains && ChainOk(s, r, None)
    requires s.chains[r].Received() && s.chains[r].who[|s.chains[r].xs|] == Some(t)
    requires s.threads[t].error2 == Ok
    ensures Inv(Leave(s, r, t), Some(r))
  {
    var s2 := Leave(s, r, t);
    LeaveOthers(s, r, t);
    LeaveChain(s, r, t, None);
    forall u | u in s2.threads && !(s2.threads[u] == s.threads[u]
                                    && (if u in s.seat then s.seat[u] != r else u !in s2.seat))
      ensures ThreadOk(s2, u, Some(r))
    {
      LeaveThread(s, r, t, u);
    }
    StepInv(s, s2, r, None, Some(r));
  }

  // ----- a chain's last call is freed

  /** binder_pop_transaction from its living caller `u`, whose pending errors become `e` and `e2`. */
  function Pop(s: State, r: Xid, u: Tid, e: Code, e2: Code): State
    requires r in s.chains && 0 < |s.chains[r].xs| == |s.chains[r].who|
    requires u in s.threads && s.chains[r].xs[|s.chains[r].xs| - 1] in s.txns
  {
    var c := s.chains[r];
    var n := |c.xs|;
    var x := c.xs[n - 1];
    s.(threads := s.threads[u := s.threads[u].(stack := s.txns[x].fromParent, error := e, error2 := e2)],
       txns := s.txns - {x},
       home := s.home - {x},
       chains := if n == 1 then s.chains - {r} else s.chains[r := Chain(c.xs[..n - 1], c.who)],
       seat := if n == 1 then s.seat - {u} else s.seat)
  }

  lemma PopSeated(threads: map<Tid, Thread>, threads2: map<Tid, Thread>, txns: map<Xid, Txn>, c: Chain, u: Tid)
    requires c.Shaped() && !c.Received() && 1 < |c.xs| && Seated(threads, c) && Linked(txns, c)
    requires c.who[|c.xs| - 1] == Some(u)
    requires forall v | v in threads && v != u :: v in threads2 && threads2[v].stack == threads[v].stack
    requires u in threads2 && c.xs[|c.xs| - 1] in txns && threads2[u].stack == txns[c.xs[|c.xs| - 1]].fromParent
    ensures Seated(threads2, Chain(c.xs[..|c.xs| - 1], c.who))
  {
    var n := |c.xs|;
    var d := Chain(c.xs[..n - 1], c.who);
    assert Made(txns, c, n - 1);
    forall i | 0 <= i < |d.who|
      ensures SeatedAt(threads2, d, i)
    {
      assert SeatedAt(threads, c, i);
      if d.who[i].Some? {
        var v := d.who[i].value;
        if v == u {
          LastPosIs(c.who, u, n - 1);
        } else {
          assert LastPos(c.who, v) < n - 1;
        }
      }
    }
  }

  lemma PopChain(s: State, r: Xid, u: Tid, e: Code, e2: Code)
    requires r in s.chains && ChainOk(s, r, Some(r)) && u in s.threads && 1 < |s.chains[r].xs|
    requires s.chains[r].who[|s.chains[r].xs| - 1] == Some(u) && s.chains[r].xs[|s.chains[r].xs| - 1] in s.txns
    ensures ChainOk(Pop(s, r, u, e, e2), r, None)
  {
    var c := s.chains[r];
    var s2 := Pop(s, r, u, e, e2);
    var n := |c.xs|;
    DistinctTxns(s.home, s.seat, r, c);
    assert c.who[..n] == c.who;
    TruncatedLinked(s.txns, s2.txns, c, n - 1, n);
    PopSeated(s.threads, s2.threads, s.txns, c, u);
    TruncatedOwned(s.home, s2.home, s.seat, s2.seat, r, c, n - 1, n);
  }

  lemma PopOthers(s: State, r: Xid, u: Tid, e: Code, e2: Code)
    requires Inv(s, Some(r)) && r in s.chains && ChainOk(s, r, Some(r)) && u in s.threads
    requires s.chains[r].who[|s.chains[r].xs| - 1] == Some(u) && s.chains[r].xs[|s.chains[r].xs| - 1] in s.txns
    ensures Elsewhere(s, Pop(s, r, u, e, e2), r)
    ensures forall x | x in Pop(s, r, u, e, e2).txns && s.home[x].0 == r :: HomeOk(Pop(s, r, u, e, e2), x)
  {
    var c := s.chains[r];
    var n := |c.xs|;
    HomeAt(s.home, s.seat, r, c, n - 1);
    assert u in s.seat && s.seat[u] == r;
    forall x | x in Pop(s, r, u, e, e2).txns && s.home[x].0 == r
      ensures HomeOk(Pop(s, r, u, e, e2), x)
    {
      assert HomeOk(s, x);
      assert s.home[x].1 != n - 1;
    }
  }

  lemma PopThread(s: State, r: Xid, u: Tid, e: Code, e2: Code, v: Tid)
    requires Inv(s, Some(r)) && r in s.chains && ChainOk(s, r, Some(r)) && u in s.threads
    requires s.chains[r].who[|s.chains[r].xs| - 1] == Some(u) && s.chains[r].xs[|s.chains[r].xs| - 1] in s.txns
    requires e2 != Ok ==> e != Ok
    requires v in s.threads && v in s.seat && s.seat[v] == r
    ensures ThreadOk(Pop(s, r, u, e, e2), v, None)
  {
    var c := s.chains[r];
    var n := |c.xs|;
    assert ThreadOk(s, v, Some(r));
    PopOthers(s, r, u, e, e2);
    OtherListOk(s, Pop(s, r, u, e, e2), r, v, Some(r), None);
    assert Made(s.txns, c, n - 1);
    assert SeatedAt(s.threads, c, n - 1);
    if n == 1 {
      assert c.who == [Some(u)];
    } else if v == u {
      assert Made(s.txns, c, n - 2);
    }
  }

  lemma PopInv(s: State, r: Xid, u: Tid, e: Code, e2: Code)
    requires Inv(s, Some(r)) && r in s.chains && ChainOk(s, r, Some(r)) && u in s.threads
    requires s.chains[r].who[|s.chains[r].xs| - 1] == Some(u) && s.chains[r].xs[|s.chains[r].xs| - 1] in s.txns
    requires e2 != Ok ==> e != Ok
    ensures Inv(Pop(s, r, u, e, e2), None)
  {
    var s2 := Pop(s, r, u, e, e2);
    PopOthers(s, r, u, e, e2);
    if 1 < |s.chains[r].xs| {
      PopChain(s, r, u, e, e2);
    }
    assert u in s.seat && s.seat[u] == r by {
      SeatOfMember(s.home, s.seat, r, s.chains[r], |s.chains[r].xs| - 1);
    }
    forall v | v in s2.threads && !(s2.threads[v] == s.threads[v]
                                    && (if v in s.seat then s.seat[v] != r else v !in s2.seat))
      ensures ThreadOk(s2, v, None)
    {
      PopThread(s, r, u, e, e2, v);
    }
    StepInv(s, s2, r, Some(r), None);
  }

  lemma SeatOfMember(home: map<Xid, (Xid, nat)>, seat: map<Tid, Xid>, r: Xid, c: Chain, i: nat)
    requires Owned(home, seat, r, c) && i < |c.who| && c.who[i].Some?
    ensures c.who[i].value in seat && seat[c.who[i].value] == r
  {
  }

  /** binder_pop_transaction when the caller has exited: the chain's new last call has lost its receiver too. */
  function Drop(s: State, r: Xid): State
    requires r in s.chains && 0 < |s.chains[r].xs| == |s.chains[r].who|
  {
    var c := s.chains[r];
    var n := |c.xs|;
    s.(txns := s.txns - {c.xs[n - 1]},
       home := s.home - {c.xs[n - 1]},
       chains := if n == 1 then s.chains - {r} else s.chains[r := Chain(c.xs[..n - 1], c.who[..n - 1])])
  }

  lemma DropChain(s: State, r: Xid)
    requires r in s.chains && ChainOk(s, r, Some(r)) && 1 < |s.chains[r].xs|
    requires s.chains[r].who[|s.chains[r].xs| - 1] == None
    ensures ChainOk(Drop(s, r), r, Some(r))
  {
    var c := s.chains[r];
    var s2 := Drop(s, r);
    var n := |c.xs|;
    var d := Chain(c.xs[..n - 1], c.who[..n - 1]);
    DistinctTxns(s.home, s.seat, r, c);
    TruncatedLinked(s.txns, s2.txns, c, n - 1, n - 1);
    TruncatedOwned(s.home, s2.home, s.seat, s2.seat, r, c, n - 1, n - 1);
    assert c.who == d.who + [None];
    forall i | 0 <= i < |d.who|
      ensures SeatedAt(s2.threads, d, i)
    {
      assert SeatedAt(s.threads, c, i);
      if d.who[i].Some? {
        LastPosAppend(d.who, None, d.who[i].value);
      }
    }
  }

  lemma DropThread(s: State, r: Xid, v: Tid)
    requires Inv(s, Some(r)) && r in s.chains && ChainOk(s, r, Some(r))
    requires s.chains[r].who[|s.chains[r].xs| - 1] == None
    requires Elsewhere(s, Drop(s, r), r)
    requires v in s.threads && v in s.seat && s.seat[v] == r
    ensures 1 < |s.chains[r].xs| && ThreadOk(Drop(s, r), v, Some(r))
  {
    var c := s.chains[r];
    var n := |c.xs|;
    assert ThreadOk(s, v, Some(r));
    var i :| 0 <= i < |c.who| && c.who[i] == Some(v);
    OtherListOk(s, Drop(s, r), r, v, Some(r), Some(r));
    assert c.who[..n - 1][i] == Some(v);
  }

  lemma DropInv(s: State, r: Xid)
    requires Inv(s, Some(r)) && r in s.chains && ChainOk(s, r, Some(r))
    requires s.chains[r].who[|s.chains[r].xs| - 1] == None
    ensures Inv(Drop(s, r), if |s.chains[r].xs| == 1 then None else Some(r))
  {
    var c := s.chains[r];
    var n := |c.xs|;
    var s2 := Drop(s, r);
    var loose2 := if n == 1 then None else Some(r);
    HomeAt(s.home, s.seat, r, c, n - 1);
    if 1 < n {
      DropChain(s, r);
    }
    forall x | x in s2.txns && s.home[x].0 == r
      ensures HomeOk(s2, x)
    {
      assert HomeOk(s, x);
      assert s.home[x].1 != n - 1;
    }
    forall v | v in s2.threads && v in s.seat && s.seat[v] == r
      ensures ThreadOk(s2, v, loose2)
    {
      DropThread(s, r, v);
    }
    StepInv(s, s2, r, Some(r), loose2);
  }

  // ----- making a call

  /** Thread `t` makes call `x`, to process `p` and perhaps to one of its threads; it is on no todo list yet. */
  function Push(s: State, t: Tid, x: Xid, p: Pid, target: Option<Tid>): State
    requires t in s.threads
  {
    var r := if t in s.seat then s.seat[t] else x;
    var c := if t in s.seat && r in s.chains then s.chains[r] else Chain([], [Some(t)]);
    s.(threads := s.threads[t := s.threads[t].(stack := Some(x))],
       txns := s.txns[x := Txn(Some(t), s.threads[t].stack, Some(p), target, None)],
       home := s.home[x := (r, |c.xs|)],
       chains := s.chains[r := Chain(c.xs + [x], c.who)],
       seat := s.seat[t := r])
  }

  lemma PushLinked(txns: map<Xid, Txn>, txns2: map<Xid, Txn>, c: Chain, x: Xid, t: Tid)
    requires c.Shaped() && c.Received() && Linked(txns, c) && c.who[|c.xs|] == Some(t)
    requires forall y | y in txns :: y in txns2 && txns2[y] == txns[y]
    requires x in txns2 && txns2[x].from == Some(t) && txns2[x].fromParent == Some(c.xs[|c.xs| - 1])
    ensures Linked(txns2, Chain(c.xs + [x], c.who))
  {
    var d := Chain(c.xs + [x], c.who);
    forall i | 0 <= i < |d.xs|
      ensures Made(txns2, d, i)
    {
      if i < |c.xs| {
        assert Made(txns, c, i);
      }
    }
    forall i | 0 < i < |d.who|
      ensures ReceivedAt(txns2, d, i)
    {
      assert ReceivedAt(txns, c, i);
      if d.who[i].Some? {
        assert c.xs[..i] == d.xs[..i];
        BelowPrefix(c, d, i, d.who[i].value);
      }
    }
  }

  lemma PushSeated(threads: map<Tid, Thread>, threads2: map<Tid, Thread>, c: Chain, x: Xid, t: Tid)
    requires c.Shaped() && c.Received() && Seated(threads, c) && c.who[|c.xs|] == Some(t)
    requires forall u | u in threads && u != t :: u in threads2 && threads2[u].stack == threads[u].stack
    requires t in threads2 && threads2[t].stack == Some(x)
    ensures Seated(threads2, Chain(c.xs + [x], c.who))
  {
    var d := Chain(c.xs + [x], c.who);
    forall i | 0 <= i < |d.who|
      ensures SeatedAt(threads2, d, i)
    {
      assert SeatedAt(threads, c, i);
    }
  }

  lemma PushChain(s: State, t: Tid, x: Xid, p: Pid, target: Option<Tid>)
    requires t in s.threads && x !in s.txns && s.home.Keys == s.txns.Keys
    requires if t in s.seat
             then s.seat[t] in s.chains && ChainOk(s, s.seat[t], None) && s.chains[s.seat[t]].Received()
                  && s.chains[s.seat[t]].who[|s.chains[s.seat[t]].xs|] == Some(t)
                  && s.threads[t].stack == Top(s.chains[s.seat[t]], t)
             else s.threads[t].stack == None
    ensures var r := if t in s.seat then s.seat[t] else x; ChainOk(Push(s, t, x, p, target), r, Some(r))
  {
    if t in s.seat {
      PushNested(s, t, x, p, target);
    } else {
      PushRoot(s, t, x, p, target);
    }
  }

  lemma PushRoot(s: State, t: Tid, x: Xid, p: Pid, target: Option<Tid>)
    requires t in s.threads && t !in s.seat && s.threads[t].stack == None
    ensures ChainOk(Push(s, t, x, p, target), x, Some(x))
  {
    var s2 := Push(s, t, x, p, target);
    var d := s2.chains[x];
    assert d == Chain([x], [Some(t)]);
    LastPosIs(d.who, t, 0);
    assert Linked(s2.txns, d) by {
      assert Made(s2.txns, d, 0);
    }
    assert Seated(s2.threads, d) by {
      assert SeatedAt(s2.threads, d, 0);
    }
  }

  lemma PushNested(s: State, t: Tid, x: Xid, p: Pid, target: Option<Tid>)
    requires t in s.threads && x !in s.txns && s.home.Keys == s.txns.Keys
    requires t in s.seat && s.seat[t] in s.chains && ChainOk(s, s.seat[t], None) && s.chains[s.seat[t]].Received()
    requires s.chains[s.seat[t]].who[|s.chains[s.seat[t]].xs|] == Some(t)
    requires s.threads[t].stack == Top(s.chains[s.seat[t]], t)
    ensures ChainOk(Push(s, t, x, p, target), s.seat[t], Some(s.seat[t]))
  {
    var s2 := Push(s, t, x, p, target);
    var c := s.chains[s.seat[t]];
    LastPosIs(c.who, t, |c.xs|);
    PushLinked(s.txns, s2.txns, c, x, t);
    PushSeated(s.threads, s2.threads, c, x, t);
    PushOwned(s.home, s2.home, s.seat, s2.seat, s.seat[t], c, x, t);
  }

  lemma PushOwned(home: map<Xid, (Xid, nat)>, home2: map<Xid, (Xid, nat)>, seat: map<Tid, Xid>, seat2: map<Tid, Xid>,
                  r: Xid, c: Chain, x: Xid, t: Tid)
    requires Owned(home, seat, r, c) && x !in home
    requires home2 == home[x := (r, |c.xs|)] && seat2 == seat[t := r]
    ensures Owned(home2, seat2, r, Chain(c.xs + [x], c.who))
  {
  }

  lemma RootInTxns(s: State, loose: Option<Xid>, r: Xid)
    requires Inv(s, loose) && r in s.chains
    ensures r in s.txns
  {
    assert ChainOk(s, r, loose);
    HomeAt(s.home, s.seat, r, s.chains[r], 0);
  }

  lemma PushOthers(s: State, t: Tid, x: Xid, p: Pid, target: Option<Tid>)
    requires Inv(s, None) && t in s.threads && x !in s.txns
    requires t in s.seat ==> s.seat[t] in s.chains && s.chains[s.seat[t]].Received()
    ensures var r := if t in s.seat then s.seat[t] else x;
            && Elsewhere(s, Push(s, t, x, p, target), r) && OffLists(s, r, None)
            && (forall y | y in s.txns && s.home[y].0 == r :: HomeOk(Push(s, t, x, p, target), y))
            && HomeOk(Push(s, t, x, p, target), x)
    ensures x !in s.chains
  {
    if x in s.chains {
      RootInTxns(s, None, x);
    }
    var r := if t in s.seat then s.seat[t] else x;
    forall y | y in s.txns && s.home[y].0 == r
      ensures HomeOk(Push(s, t, x, p, target), y)
    {
      assert HomeOk(s, y);
    }
  }

  lemma PushThread(s: State, t: Tid, x: Xid, p: Pid, target: Option<Tid>, u: Tid)
    requires Inv(s, None) && t in s.threads && x !in s.txns
    requires t in s.seat ==> s.seat[t] in s.chains && s.chains[s.seat[t]].Received()
    requires s.threads[t].error2 == Ok
    requires u in s.threads && (u == t || (u in s.seat && t in s.seat && s.seat[u] == s.seat[t]))
    ensures var r := if t in s.seat then s.seat[t] else x; ThreadOk(Push(s, t, x, p, target), u, Some(r))
  {
    var r := if t in s.seat then s.seat[t] else x;
    var s2 := Push(s, t, x, p, target);
    assert ThreadOk(s, u, None);
    PushOthers(s, t, x, p, target);
    OtherListOk(s, s2, r, u, None, Some(r));
    if u != t {
      TopIsHome(s, None, u);
    }
    assert t !in s.seat ==> s2.chains[r].who[0] == Some(t);
  }

  lemma PushInv(s: State, t: Tid, x: Xid, p: Pid, target: Option<Tid>)
    requires Inv(s, None) && t in s.threads && x !in s.txns
    requires s.threads[t].error2 == Ok
    requires t in s.seat ==>
               && s.seat[t] in s.chains && s.chains[s.seat[t]].Received()
               && s.chains[s.seat[t]].who[|s.chains[s.seat[t]].xs|] == Some(t)
    ensures var r := if t in s.seat then s.seat[t] else x; Inv(Push(s, t, x, p, target), Some(r))
  {
    var r := if t in s.seat then s.seat[t] else x;
    var s2 := Push(s, t, x, p, target);
    StackIsTop(s, None, t);
    PushOthers(s, t, x, p, target);
    PushChain(s, t, x, p, target);
    forall u | u in s2.threads && !(s2.threads[u] == s.threads[u]
                                    && (if u in s.seat then s.seat[u] != r else u !in s2.seat))
      ensures ThreadOk(s2, u, Some(r))
    {
      assert u != t && u in s.seat ==> t in s.seat by {
        if u != t && u in s.seat {
          assert ThreadOk(s, u, None);
        }
      }
      PushThread(s, t, x, p, target, u);
    }
    StepInv(s, s2, r, None, Some(r));
  }

  // ----- a call goes on the todo list it was sent to

  function Enqueue(s: State, x: Xid): State
    requires x in s.txns
  {
    match s.txns[x].toThread
    case Some(u) =>
      if u in s.threads then s.(threads := s.threads[u := s.threads[u].(todo := s.threads[u].todo + [Call(x)])]) else s
    case None =>
      if s.txns[x].toProc.Some? && s.txns[x].toProc.value in s.procTodo
      then var p := s.txns[x].toProc.value; s.(procTodo := s.procTodo[p := s.procTodo[p] + [Call(x)]])
      else s
  }

  /** `s2` differs from `s` at most in todo lists, which have all that they had, and in pending errors. */
  ghost predicate OnlyAdded(s: State, s2: State) {
    && s2.txns == s.txns && s2.chains == s.chains && s2.home == s.home && s2.seat == s.seat
    && s2.threads.Keys == s.threads.Keys && s2.procTodo.Keys == s.procTodo.Keys
    && (forall t | t in s.threads ::
          s2.threads[t].stack == s.threads[t].stack && s2.threads[t].proc == s.threads[t].proc
          && forall v | v in s.threads[t].todo :: v in s2.threads[t].todo)
    && (forall p | p in s.procTodo :: forall v | v in s.procTodo[p] :: v in s2.procTodo[p])
  }

  lemma AddedChainOk(s: State, s2: State, r: Xid, loose: Option<Xid>, loose2: Option<Xid>)
    requires OnlyAdded(s, s2) && r in s.chains && ChainOk(s, r, loose)
    requires loose == Some(r) <==> loose2 == Some(r)
    ensures ChainOk(s2, r, loose2)
  {
    assert SameView(s, s2, r);
    ChainFrame(s, s2, r, loose, loose2);
  }

  lemma AddedThreadOk(s: State, s2: State, t: Tid, w: Work, loose: Option<Xid>)
    requires OnlyAdded(s, s2) && t in s.threads && ThreadOk(s, t, loose)
    requires ErrorsOk(s.txns, s2.threads[t], t)
    requires NoCallTwice(s2.threads[t].todo)
    requires forall v | v in s2.threads[t].todo && v.Call? :: v in s.threads[t].todo
                        || (v == w && Pending(s2, v.x, None) && s2.txns[v.x].toThread == Some(t))
    requires loose == None || w.Call?
    ensures ThreadOk(s2, t, None)
  {
    forall y | Call(y) in s2.threads[t].todo
      ensures Pending(s2, y, None) && s2.txns[y].toThread == Some(t)
    {
      if Call(y) in s.threads[t].todo {
        assert Pending(s, y, loose);
      }
    }
  }

  lemma AddedProcOk(s: State, s2: State, p: Pid, w: Work, loose: Option<Xid>)
    requires OnlyAdded(s, s2) && p in s.procTodo && ProcOk(s, p, loose)
    requires NoCallTwice(s2.procTodo[p])
    requires forall v | v in s2.procTodo[p] && v.Call? :: v in s.procTodo[p]
                        || (v == w && Pending(s2, v.x, None) && s2.txns[v.x].toThread == None
                            && s2.txns[v.x].toProc == Some(p))
    ensures ProcOk(s2, p, None)
  {
    forall y | Call(y) in s2.procTodo[p]
      ensures Pending(s2, y, None) && s2.txns[y].toThread == None && s2.txns[y].toProc == Some(p)
    {
      if Call(y) in s.procTodo[p] {
        assert Pending(s, y, loose);
      }
    }
  }

  lemma AddedInv(s: State, s2: State, loose: Option<Xid>)
    requires Inv(s, loose) && OnlyAdded(s, s2)
    requires loose.Some? ==> loose.value in s2.chains && ChainOk(s2, loose.value, None)
    requires forall t {:trigger ThreadOk(s2, t, None)} | t in s2.threads :: ThreadOk(s2, t, None)
    requires forall p {:trigger ProcOk(s2, p, None)} | p in s2.procTodo :: ProcOk(s2, p, None)
    ensures Inv(s2, None)
  {
    forall r | r in s2.chains
      ensures ChainOk(s2, r, None)
    {
      if loose != Some(r) {
        assert ChainOk(s, r, loose);
        AddedChainOk(s, s2, r, loose, None);
      }
    }
    forall x | x in s2.txns
      ensures HomeOk(s2, x)
    {
      assert HomeOk(s, x);
    }
  }

  /** The last call of loose chain `r` is on no list, so adding it makes no duplicate. */
  lemma LooseIsOffLists(s: State, r: Xid, x: Xid, t: Tid, p: Pid)
    requires Inv(s, Some(r)) && x in s.home && s.home[x].0 == r
    ensures t in s.threads ==> Call(x) !in s.threads[t].todo && NoCallTwice(s.threads[t].todo)
    ensures p in s.procTodo ==> Call(x) !in s.procTodo[p] && NoCallTwice(s.procTodo[p])
  {
    if t in s.threads {
      assert ThreadOk(s, t, Some(r));
    }
    if p in s.procTodo {
      assert ProcOk(s, p, Some(r));
    }
  }

  lemma EnqueuedChainOk(s: State, r: Xid, x: Xid)
    requires r in s.chains && ChainOk(s, r, Some(r)) && x == s.chains[r].xs[|s.chains[r].xs| - 1]
    requires x in s.txns && s.txns[x].toProc.Some?
    requires match s.txns[x].toThread
             case Some(u) => u in s.threads && s.threads[u].proc == s.txns[x].toProc.value
                             && Some(u) in s.chains[r].who && s.txns[x].from != Some(u)
             case None => s.txns[x].toProc.value in s.procTodo
    ensures ChainOk(Enqueue(s, x), r, None)
  {
    LinkedFrame(s.txns, Enqueue(s, x).txns, s.chains[r]);
    SeatedFrame(s.threads, Enqueue(s, x).threads, s.chains[r]);
  }

  lemma EnqueueInv(s: State, r: Xid, x: Xid)
    requires Inv(s, Some(r)) && r in s.chains && ChainOk(s, r, Some(r)) && x == s.chains[r].xs[|s.chains[r].xs| - 1]
    requires x in s.txns && s.txns[x].toProc.Some?
    requires match s.txns[x].toThread
             case Some(u) => u in s.threads && s.threads[u].proc == s.txns[x].toProc.value
                             && Some(u) in s.chains[r].who && s.txns[x].from != Some(u)
             case None => s.txns[x].toProc.value in s.procTodo
    ensures Inv(Enqueue(s, x), None)
  {
    var c := s.chains[r];
    var s2 := Enqueue(s, x);
    HomeAt(s.home, s.seat, r, c, |c.xs| - 1);
    var u := if s.txns[x].toThread.Some? then s.txns[x].toThread.value else 0;
    LooseIsOffLists(s, r, x, u, s.txns[x].toProc.value);
    if s.txns[x].toThread.Some? {
      NoCallTwiceAppend(s.threads[u].todo, Call(x));
    } else {
      NoCallTwiceAppend(s.procTodo[s.txns[x].toProc.value], Call(x));
    }
    assert Pending(s2, x, None);
    EnqueuedChainOk(s, r, x);
    forall t | t in s2.threads
      ensures ThreadOk(s2, t, None)
    {
      assert ThreadOk(s, t, Some(r));
      AddedThreadOk(s, s2, t, Call(x), Some(r));
    }
    forall p | p in s2.procTodo
      ensures ProcOk(s2, p, None)
    {
      assert ProcOk(s, p, Some(r));
      AddedProcOk(s, s2, p, Call(x), Some(r));
    }
    AddedInv(s, s2, Some(r));
  }

  /** A reply, a completion notice or an error for thread `t`: nothing that moves a call. */
  function Noted(s: State, t: Tid, ws: seq<Work>, e: Code, e2: Code): State
    requires t in s.threads
  {
    s.(threads := s.threads[t := s.threads[t].(todo := s.threads[t].todo + ws, error := e, error2 := e2)])
  }

  lemma NotedInv(s: State, t: Tid, w: Work, e: Code, e2: Code)
    requires Inv(s, None) && t in s.threads && !w.Call?
    requires ErrorsOk(s.txns, s.threads[t].(error := e, error2 := e2), t)
    ensures Inv(Noted(s, t, [w], e, e2), None)
  {
    var s2 := Noted(s, t, [w], e, e2);
    assert ThreadOk(s, t, None);
    NoCallTwiceAppend(s.threads[t].todo, w);
    forall u | u in s2.threads
      ensures ThreadOk(s2, u, None)
    {
      assert ThreadOk(s, u, None);
      AddedThreadOk(s, s2, u, w, None);
    }
    forall p | p in s2.procTodo
      ensures ProcOk(s2, p, None)
    {
      assert ProcOk(s, p, None);
      AddedProcOk(s, s2, p, w, None);
    }
    AddedInv(s, s2, None);
  }

  /** Only the pending errors of thread `t` change. */
  lemma ErrorInv(s: State, loose: Option<Xid>, t: Tid, e: Code, e2: Code)
    requires Inv(s, loose) && t in s.threads
    requires ErrorsOk(s.txns, s.threads[t].(error := e, error2 := e2), t)
    ensures Inv(Noted(s, t, [], e, e2), loose)
  {
    var s2 := Noted(s, t, [], e, e2);
    assert s.threads[t].todo + [] == s.threads[t].todo;
    forall r | r in s2.chains
      ensures ChainOk(s2, r, loose)
    {
      assert ChainOk(s, r, loose);
      AddedChainOk(s, s2, r, loose, loose);
    }
    forall x | x in s2.txns
      ensures HomeOk(s2, x)
    {
      assert HomeOk(s, x);
    }
    forall u | u in s2.threads
      ensures ThreadOk(s2, u, loose)
    {
      assert ThreadOk(s, u, loose);
      SameListPending(s, s2, u, loose);
    }
    forall p | p in s2.procTodo
      ensures ProcOk(s2, p, loose)
    {
      assert ProcOk(s, p, loose);
      forall x | Call(x) in s2.procTodo[p]
        ensures Pending(s2, x, loose)
      {
        PendingFrame(s, s2, x, loose, loose);
      }
    }
  }

  lemma SameListPending(s: State, s2: State, u: Tid, loose: Option<Xid>)
    requires s2.txns == s.txns && s2.chains == s.chains && s2.home == s.home
    requires u in s.threads && u in s2.threads && s2.threads[u].todo == s.threads[u].todo && ThreadOk(s, u, loose)
    ensures ListOk(s2, u, loose)
  {
    forall x | Call(x) in s2.threads[u].todo
      ensures Pending(s2, x, loose) && s2.txns[x].toThread == Some(u)
    {
      PendingFrame(s, s2, x, loose, loose);
    }
  }

  /** A one-way message for process `p`. */
  function ProcNoted(s: State, p: Pid): State
    requires p in s.procTodo
  {
    s.(procTodo := s.procTodo[p := s.procTodo[p] + [Message]])
  }

  lemma ProcNotedInv(s: State, p: Pid)
    requires Inv(s, None) && p in s.procTodo
    ensures Inv(ProcNoted(s, p), None)
  {
    var s2 := ProcNoted(s, p);
    assert ProcOk(s, p, None);
    NoCallTwiceAppend(s.procTodo[p], Message);
    forall u | u in s2.threads
      ensures ThreadOk(s2, u, None)
    {
      assert ThreadOk(s, u, None);
      AddedThreadOk(s, s2, u, Message, None);
    }
    forall q | q in s2.procTodo
      ensures ProcOk(s2, q, None)
    {
      assert ProcOk(s, q, None);
      AddedProcOk(s, s2, q, Message, None);
    }
    AddedInv(s, s2, None);
  }

  // ----- processes come and go

  lemma AddProcInv(s: State, p: Pid)
    requires Inv(s, None) && p !in s.procTodo
    ensures Inv(s.(procTodo := s.procTodo[p := []]), None)
  {
    var s2 := s.(procTodo := s.procTodo[p := []]);
    ProcsInv(s, s2);
  }

  lemma RemoveProcInv(s: State, p: Pid)
    requires Inv(s, None) && p in s.procTodo && s.procTodo[p] == []
    ensures Inv(s.(procTodo := s.procTodo - {p}), None)
  {
    ProcsInv(s, s.(procTodo := s.procTodo - {p}));
  }

  /** Only processes with empty todo lists appear or disappear. */
  lemma ProcsInv(s: State, s2: State)
    requires Inv(s, None) && s2 == s.(procTodo := s2.procTodo)
    requires forall p | p in s.procTodo && s.procTodo[p] != [] :: p in s2.procTodo && s2.procTodo[p] == s.procTodo[p]
    requires forall p | p in s2.procTodo && s2.procTodo[p] != [] :: p in s.procTodo && s2.procTodo[p] == s.procTodo[p]
    ensures Inv(s2, None)
  {
    forall r | r in s2.chains
      ensures ChainOk(s2, r, None)
    {
      assert ChainOk(s, r, None);
      assert SameView(s, s2, r);
      ChainFrame(s, s2, r, None, None);
    }
    forall x | x in s2.txns
      ensures HomeOk(s2, x)
    {
      assert HomeOk(s, x);
    }
    forall t | t in s2.threads
      ensures ThreadOk(s2, t, None)
    {
      assert ThreadOk(s, t, None);
      SameListPending(s, s2, t, None);
    }
    forall p | p in s2.procTodo
      ensures ProcOk(s2, p, None)
    {
      if s2.procTodo[p] != [] {
        assert ProcOk(s, p, None);
        forall x | Call(x) in s2.procTodo[p]
          ensures Pending(s2, x, None)
        {
          PendingFrame(s, s2, x, None, None);
        }
      }
    }
  }

  /** A new thread has an empty stack and nothing to do. */
  lemma AddThreadInv(s: State, t: Tid, p: Pid)
    requires Inv(s, None) && t !in s.threads
    ensures Inv(s.(threads := s.threads[t := Thread(p, None, [], Ok, Ok)]), None)
  {
    var s2 := s.(threads := s.threads[t := Thread(p, None, [], Ok, Ok)]);
    forall r | r in s2.chains
      ensures ChainOk(s2, r, None)
    {
      assert ChainOk(s, r, None);
      assert SameView(s, s2, r);
      ChainFrame(s, s2, r, None, None);
    }
    forall x | x in s2.txns
      ensures HomeOk(s2, x)
    {
      assert HomeOk(s, x);
    }
    forall u | u in s2.threads
      ensures ThreadOk(s2, u, None)
    {
      if u != t {
        assert ThreadOk(s, u, None);
        SameListPending(s, s2, u, None);
      }
    }
    forall q | q in s2.procTodo
      ensures ProcOk(s2, q, None)
    {
      AddThreadProc(s, s2, q);
    }
  }

  lemma AddThreadProc(s: State, s2: State, q: Pid)
    requires Inv(s, None) && s2 == s.(threads := s2.threads) && q in s.procTodo
    ensures ProcOk(s2, q, None)
  {
    assert ProcOk(s, q, None);
    forall x | Call(x) in s2.procTodo[q]
      ensures Pending(s2, x, None)
    {
      PendingFrame(s, s2, x, None, None);
    }
  }

  // ----- a thread exits

  function KilledWho(who: seq<Option<Tid>>, t: Tid): seq<Option<Tid>> {
    seq(|who|, i requires 0 <= i < |who| => if who[i] == Some(t) then None else who[i])
  }

  /** The chain without thread `t`; when `t` had received the last call, that call has no receiver any more. */
  function KilledChain(c: Chain, t: Tid): Chain {
    var w := KilledWho(c.who, t);
    if |c.who| == |c.xs| + 1 && c.who[|c.xs|] == Some(t) then Chain(c.xs, w[..|c.xs|]) else Chain(c.xs, w)
  }

  /** What the walk at lines 2557-2578 does to call `i` of the chain. */
  function KilledTxn(c: Chain, i: nat, x: Txn, t: Tid): Txn {
    if i < |c.who| && c.who[i] == Some(t) then x.(from := None)
    else if i + 1 < |c.who| && c.who[i + 1] == Some(t) then x.(toProc := None, toThread := None)
    else x
  }

  /** The transactions once the walk has passed all calls of chain `r` from place `m` on. */
  function KilledTxns(s: State, r: Xid, t: Tid, m: nat): map<Xid, Txn>
    requires r in s.chains
  {
    map x | x in s.txns ::
      if x in s.home && s.home[x].0 == r && m <= s.home[x].1 then KilledTxn(s.chains[r], s.home[x].1, s.txns[x], t)
      else s.txns[x]
  }

  function Kill(s: State, t: Tid): State {
    if t in s.seat && s.seat[t] in s.chains then
      var r := s.seat[t];
      s.(threads := s.threads - {t}, seat := s.seat - {t},
         txns := KilledTxns(s, r, t, 0), chains := s.chains[r := KilledChain(s.chains[r], t)])
    else
      s.(threads := s.threads - {t})
  }

  /** The chain that the exit of thread `t` leaves loose: one whose last call `t` was serving, or was sent. */
  ghost function LooseAfterKill(s: State, t: Tid): Option<Xid> {
    if t !in s.seat || s.seat[t] !in s.chains || !s.chains[s.seat[t]].Shaped() then None
    else
      var c := s.chains[s.seat[t]];
      var x := c.xs[|c.xs| - 1];
      if (if c.Received() then c.who[|c.xs|] == Some(t) else x in s.txns && s.txns[x].toThread == Some(t))
      then Some(s.seat[t]) else None
  }

  lemma KilledLastPos(who: seq<Option<Tid>>, t: Tid, u: Tid)
    requires u != t
    ensures LastPos(KilledWho(who, t), u) == LastPos(who, u)
  {
    LastPosIs(KilledWho(who, t), u, LastPos(who, u));
  }

  lemma KilledBelow(c: Chain, t: Tid, j: nat, u: Tid)
    requires j <= |c.who| && j <= |c.xs| && u != t
    ensures j <= |KilledChain(c, t).who| && KilledChain(c, t).xs == c.xs
    ensures Below(KilledChain(c, t), j, u) == Below(c, j, u)
  {
    assert KilledChain(c, t).who[..j] == KilledWho(c.who[..j], t);
    KilledLastPos(c.who[..j], t, u);
  }

  lemma KilledTop(c: Chain, t: Tid, u: Tid)
    requires c.Shaped() && u != t
    ensures KilledChain(c, t).Shaped() && Top(KilledChain(c, t), u) == Top(c, u)
  {
    KilledLastPos(c.who, t, u);
    var n := |c.xs|;
    if c.Received() && c.who[n] == Some(t) {
      LastPosAppend(KilledWho(c.who, t)[..n], None, u);
      assert KilledWho(c.who, t) == KilledWho(c.who, t)[..n] + [None];
    }
  }

  lemma KilledAt(s: State, r: Xid, t: Tid, i: nat)
    requires r in s.chains && Owned(s.home, s.seat, r, s.chains[r]) && i < |s.chains[r].xs|
    requires s.chains[r].xs[i] in s.txns
    ensures var x := s.chains[r].xs[i];
            x in KilledTxns(s, r, t, 0) && KilledTxns(s, r, t, 0)[x] == KilledTxn(s.chains[r], i, s.txns[x], t)
  {
    HomeAt(s.home, s.seat, r, s.chains[r], i);
  }

  lemma KilledLinked(s: State, r: Xid, t: Tid)
    requires r in s.chains && s.chains[r].Shaped() && Linked(s.txns, s.chains[r]) && Seated(s.threads, s.chains[r])
    requires Owned(s.home, s.seat, r, s.chains[r])
    ensures KilledChain(s.chains[r], t).Shaped()
    ensures Linked(KilledTxns(s, r, t, 0), KilledChain(s.chains[r], t))
  {
    var c := s.chains[r];
    var d := KilledChain(c, t);
    var txns2 := KilledTxns(s, r, t, 0);
    forall i | 0 <= i < |d.xs|
      ensures Made(txns2, d, i)
    {
      assert Made(s.txns, c, i);
      KilledAt(s, r, t, i);
    }
    forall i | 0 < i < |d.who|
      ensures ReceivedAt(txns2, d, i)
    {
      assert ReceivedAt(s.txns, c, i) && SeatedAt(s.threads, c, i) && Made(s.txns, c, i - 1);
      KilledAt(s, r, t, i - 1);
      if d.who[i].Some? {
        KilledBelow(c, t, i, d.who[i].value);
      }
    }
  }

  lemma KilledSeated(threads: map<Tid, Thread>, c: Chain, t: Tid)
    requires c.Shaped() && Seated(threads, c)
    ensures KilledChain(c, t).Shaped() && Seated(threads - {t}, KilledChain(c, t))
  {
    var d := KilledChain(c, t);
    forall i | 0 <= i < |d.who|
      ensures SeatedAt(threads - {t}, d, i)
    {
      assert SeatedAt(threads, c, i);
      if d.who[i].Some? {
        KilledTop(c, t, d.who[i].value);
      }
    }
  }

  lemma KilledMember(c: Chain, t: Tid, u: Tid)
    requires c.Shaped() && Some(u) in c.who && u != t
    ensures Some(u) in KilledChain(c, t).who
  {
    var i :| 0 <= i < |c.who| && c.who[i] == Some(u);
    assert KilledChain(c, t).who[i] == Some(u);
  }

  lemma KilledChainOk(s: State, t: Tid)
    requires t in s.seat && s.seat[t] in s.chains && ChainOk(s, s.seat[t], None) && t in s.threads
    ensures ChainOk(Kill(s, t), s.seat[t], LooseAfterKill(s, t))
  {
    var r := s.seat[t];
    var c := s.chains[r];
    var s2 := Kill(s, t);
    KilledLinked(s, r, t);
    KilledSeated(s.threads, c, t);
    if !c.Received() && LooseAfterKill(s, t) == None {
      LastInTxns(s.txns, c);
      KilledAt(s, r, t, |c.xs| - 1);
      var x := c.xs[|c.xs| - 1];
      if s.txns[x].toThread.Some? {
        KilledMember(c, t, s.txns[x].toThread.value);
      }
      assert Made(s.txns, c, |c.xs| - 1);
    }
  }

  /** A thread's todo list has calls of the thread's own chain only. */
  lemma ListedCallsAreOwn(s: State, t: Tid, y: Xid)
    requires Inv(s, None) && t in s.threads && Call(y) in s.threads[t].todo
    ensures t in s.seat && Pending(s, y, None) && s.home[y].0 == s.seat[t]
  {
    assert ThreadOk(s, t, None);
    var q := s.home[y].0;
    assert ChainOk(s, q, None);
    var i :| 0 <= i < |s.chains[q].who| && s.chains[q].who[i] == Some(t);
    SeatOfMember(s.home, s.seat, q, s.chains[q], i);
  }

  lemma KilledTxnsElsewhere(s: State, t: Tid, q: Xid)
    requires q in s.chains && Owned(s.home, s.seat, q, s.chains[q]) && (t in s.seat ==> s.seat[t] != q)
    ensures SameTxns(s.txns, Kill(s, t).txns, s.chains[q])
  {
    forall i | 0 <= i < |s.chains[q].xs|
      ensures s.chains[q].xs[i] in s.home && s.home[s.chains[q].xs[i]].0 == q
    {
      HomeAt(s.home, s.seat, q, s.chains[q], i);
    }
  }

  lemma KilledViewElsewhere(s: State, t: Tid, q: Xid)
    requires q in s.chains && Owned(s.home, s.seat, q, s.chains[q]) && t in s.threads
    requires t in s.seat ==> s.seat[t] != q
    ensures SameStacks(s.threads, Kill(s, t).threads, s.chains[q]) && SameRecords(s, Kill(s, t), s.chains[q])
  {
    forall i | 0 <= i < |s.chains[q].who| && s.chains[q].who[i].Some?
      ensures s.chains[q].who[i] != Some(t)
    {
      SeatOfMember(s.home, s.seat, q, s.chains[q], i);
    }
  }

  lemma KilledOtherChain(s: State, t: Tid, q: Xid)
    requires Inv(s, None) && t in s.threads && q in s.chains
        && (t in s.seat ==> s.seat[t] in s.chains && s.seat[t] != q)
    ensures ChainOk(Kill(s, t), q, LooseAfterKill(s, t))
  {
    var s2 := Kill(s, t);
    var c := s.chains[q];
    assert ChainOk(s, q, None);
    KilledTxnsElsewhere(s, t, q);
    KilledViewElsewhere(s, t, q);
    var x := c.xs[|c.xs| - 1];
    HomeAt(s.home, s.seat, q, c, |c.xs| - 1);
    if Call(x) in s.threads[t].todo {
      ListedCallsAreOwn(s, t, x);
    }
    ChainFrame(s, s2, q, None, LooseAfterKill(s, t));
  }

  lemma KilledPending(s: State, t: Tid, y: Xid)
    requires Inv(s, None) && t in s.threads && Pending(s, y, None) && s.txns[y].toThread != Some(t)
    ensures Pending(Kill(s, t), y, LooseAfterKill(s, t))
    ensures y in Kill(s, t).txns
    ensures Kill(s, t).txns[y].toThread == s.txns[y].toThread && Kill(s, t).txns[y].toProc == s.txns[y].toProc
  {
    assert ThreadOk(s, t, None);
    if t in s.seat && s.home[y].0 == s.seat[t] {
      var c := s.chains[s.seat[t]];
      assert ChainOk(s, s.seat[t], None);
      assert y == c.xs[|c.xs| - 1];
      KilledAt(s, s.seat[t], t, |c.xs| - 1);
    }
  }

  lemma KilledTodoOk(s: State, t: Tid, u: Tid)
    requires Inv(s, None) && t in s.threads && u in s.threads && u != t
    ensures var s2 := Kill(s, t);
            u in s2.threads && forall y | Call(y) in s2.threads[u].todo ::
                Pending(s2, y, LooseAfterKill(s, t)) && s2.txns[y].toThread == Some(u)
  {
    var s2 := Kill(s, t);
    assert ThreadOk(s, u, None);
    forall y | Call(y) in s2.threads[u].todo
      ensures Pending(s2, y, LooseAfterKill(s, t)) && s2.txns[y].toThread == Some(u)
    {
      KilledPending(s, t, y);
    }
  }

  lemma KilledThreadOk(s: State, t: Tid, u: Tid)
    requires Inv(s, None) && t in s.threads && u in s.threads && u != t
    ensures ThreadOk(Kill(s, t), u, LooseAfterKill(s, t))
  {
    var s2 := Kill(s, t);
    assert ThreadOk(s, u, None) && ThreadOk(s, t, None);
    KilledTodoOk(s, t, u);
    if u in s.seat {
      assert ChainOk(s, s.seat[u], None);
      KilledMember(s.chains[s.seat[u]], t, u);
    }
  }

  lemma KilledProcOk(s: State, t: Tid, p: Pid)
    requires Inv(s, None) && t in s.threads && p in s.procTodo
    ensures ProcOk(Kill(s, t), p, LooseAfterKill(s, t))
  {
    var s2 := Kill(s, t);
    assert ProcOk(s, p, None);
    forall y | Call(y) in s2.procTodo[p]
      ensures Pending(s2, y, LooseAfterKill(s, t)) && s2.txns[y].toThread == None && s2.txns[y].toProc == Some(p)
    {
      KilledPending(s, t, y);
    }
  }

  lemma KillInv(s: State, t: Tid)
    requires Inv(s, None) && t in s.threads
    ensures Inv(Kill(s, t), LooseAfterKill(s, t))
  {
    assert ThreadOk(s, t, None);
    var s2 := Kill(s, t);
    forall q | q in s2.chains
      ensures ChainOk(s2, q, LooseAfterKill(s, t))
    {
      assert ChainOk(s, q, None);
      if t in s.seat && s.seat[t] == q {
        KilledChainOk(s, t);
      } else {
        KilledOtherChain(s, t, q);
      }
    }
    forall x | x in s2.txns
      ensures HomeOk(s2, x)
    {
      assert HomeOk(s, x);
    }
    forall u | u in s2.threads
      ensures ThreadOk(s2, u, LooseAfterKill(s, t))
    {
      KilledThreadOk(s, t, u);
    }
    forall p | p in s2.procTodo
      ensures ProcOk(s2, p, LooseAfterKill(s, t))
    {
      KilledProcOk(s, t, p);
    }
  }
}
