/**
  Synchronous calls.  The driver keeps, for each thread, a stack of transactions
  linked through from_parent and to_parent.  This module gives what those links
  mean: every synchronous transaction belongs to one call chain, and a thread's
  stack is the part of its chain that starts or ends at that thread.
 */
module CallChains {
  import opened Options

  type Tid = nat  // a thread
  type Pid = nat  // a process
  type Xid = nat  // a synchronous transaction

  datatype Code = Ok | TransactionComplete | FailedReply | DeadReply

  /** A todo item: a synchronous call, a reply or one-way message, or a completion notice. */
  datatype Work = Call(x: Xid) | Message | Complete

  datatype Thread = Thread(proc: Pid, stack: Option<Xid>, todo: seq<Work>, error: Code, error2: Code)

  datatype Txn = Txn(
    from: Option<Tid>,
    fromParent: Option<Xid>,
    toProc: Option<Pid>,
    toThread: Option<Tid>,
    toParent: Option<Xid>)

  /**
    A call chain: its transactions from root to leaf, and the threads along it.
    who[i] made call xs[i]; who[i + 1] received it; a thread that has exited is
    None.  When |who| == |xs| the last call has not been received.
   */
  datatype Chain = Chain(xs: seq<Xid>, who: seq<Option<Tid>>) {
    ghost predicate Shaped() {
      0 < |xs| && (|who| == |xs| || |who| == |xs| + 1)
    }

    predicate Received() {
      |who| == |xs| + 1
    }
  }

  /** The last place of thread `t` in `who`, or -1. */
  function LastPos(who: seq<Option<Tid>>, t: Tid): (p: int)
    ensures -1 <= p < |who|
    ensures 0 <= p ==> who[p] == Some(t)
    ensures forall j | p < j < |who| :: who[j] != Some(t)
  {
    if who == [] then -1
    else if who[|who| - 1] == Some(t) then |who| - 1
    else LastPos(who[..|who| - 1], t)
  }

  lemma LastPosIs(who: seq<Option<Tid>>, t: Tid, p: int)
    requires -1 <= p < |who|
    requires 0 <= p ==> who[p] == Some(t)
    requires forall j | p < j < |who| :: who[j] != Some(t)
    ensures LastPos(who, t) == p
  {
  }

  /** What thread `t`'s stack top is when only the first `j` threads of the chain are considered. */
  function Below(c: Chain, j: nat, t: Tid): Option<Xid>
    requires j <= |c.who| && j <= |c.xs|
  {
    var p := LastPos(c.who[..j], t);
    if p < 0 then None else Some(c.xs[p])
  }

  /** Thread `t`'s stack top: the call it made last, or the call it is serving. */
  function Top(c: Chain, t: Tid): Option<Xid>
    requires |c.who| <= |c.xs| + 1
  {
    var p := LastPos(c.who, t);
    if p < 0 then None
    else if p < |c.xs| then Some(c.xs[p])
    else if 0 < p then Some(c.xs[p - 1])
    else None
  }

  datatype State = State(
    threads: map<Tid, Thread>,
    procTodo: map<Pid, seq<Work>>,
    txns: map<Xid, Txn>,
    // what the links mean
    chains: map<Xid, Chain>,       // by root transaction
    home: map<Xid, (Xid, nat)>,    // the chain and the place of each transaction
    seat: map<Tid, Xid>)           // the chain of each thread that is in one

  // ----- one chain

  /** Call `i` was made by who[i], with the call before it as its parent. */
  ghost predicate Made(txns: map<Xid, Txn>, c: Chain, i: nat)
    requires i < |c.xs| && i < |c.who|
  {
    && c.xs[i] in txns
    && txns[c.xs[i]].from == c.who[i]
    && txns[c.xs[i]].fromParent == if i == 0 then None else Some(c.xs[i - 1])
  }

  /** Call `i - 1` was received by who[i], on top of what lay there before. */
  ghost predicate ReceivedAt(txns: map<Xid, Txn>, c: Chain, i: nat)
    requires 0 < i <= |c.xs| && i < |c.who|
  {
    && c.xs[i - 1] in txns
    && txns[c.xs[i - 1]].toThread == c.who[i]
    && (c.who[i].Some? ==> txns[c.xs[i - 1]].toParent == Below(c, i, c.who[i].value))
  }

  ghost predicate Linked(txns: map<Xid, Txn>, c: Chain)
    requires c.Shaped()
  {
    && (forall i {:trigger Made(txns, c, i)} | 0 <= i < |c.xs| :: Made(txns, c, i))
    && (forall i {:trigger ReceivedAt(txns, c, i)} | 0 < i < |c.who| :: ReceivedAt(txns, c, i))
  }

  /** Thread who[i] is alive with the stack top its chain gives it, and did not call itself. */
  ghost predicate SeatedAt(threads: map<Tid, Thread>, c: Chain, i: nat)
    requires i < |c.who| <= |c.xs| + 1
  {
    c.who[i].Some? ==>
      && c.who[i].value in threads && threads[c.who[i].value].stack == Top(c, c.who[i].value)
      && (0 < i ==> c.who[i] != c.who[i - 1])
  }

  ghost predicate Seated(threads: map<Tid, Thread>, c: Chain)
    requires c.Shaped()
  {
    forall i {:trigger SeatedAt(threads, c, i)} | 0 <= i < |c.who| :: SeatedAt(threads, c, i)
  }

  /** The chain's last call, not yet received, is on the todo list it was sent to. */
  ghost predicate Queued(threads: map<Tid, Thread>, procTodo: map<Pid, seq<Work>>, txns: map<Xid, Txn>, c: Chain)
    requires c.Shaped()
  {
    var x := c.xs[|c.xs| - 1];
    && x in txns && txns[x].toProc.Some?
    && var t := txns[x];
    match t.toThread
       case Some(u) =>
         && u in threads && threads[u].proc == t.toProc.value && Call(x) in threads[u].todo
         && Some(u) in c.who && t.from != Some(u)
       case None =>
         t.toProc.value in procTodo && Call(x) in procTodo[t.toProc.value]
  }

  /** The chain's transactions and threads are recorded as its own. */
  ghost predicate Owned(home: map<Xid, (Xid, nat)>, seat: map<Tid, Xid>, r: Xid, c: Chain) {
    && (forall i | 0 <= i < |c.xs| :: c.xs[i] in home && home[c.xs[i]] == (r, i))
    && (forall i | 0 <= i < |c.who| && c.who[i].Some? :: c.who[i].value in seat && seat[c.who[i].value] == r)
  }

  /** When `r` is the `loose` chain, its last call is on no todo list: it was taken off, or its receiver is gone. */
  ghost predicate ChainOk(s: State, r: Xid, loose: Option<Xid>)
    requires r in s.chains
  {
    var c := s.chains[r];
    && c.Shaped() && c.xs[0] == r
    && Owned(s.home, s.seat, r, c)
    && Linked(s.txns, c)
    && Seated(s.threads, c)
    && if loose == Some(r) then !c.Received() else c.Received() || Queued(s.threads, s.procTodo, s.txns, c)
  }

  // ----- the whole state

  ghost predicate HomeOk(s: State, x: Xid) {
    && x in s.home && s.home[x].0 in s.chains
    && s.home[x].1 < |s.chains[s.home[x].0].xs| && s.chains[s.home[x].0].xs[s.home[x].1] == x
  }

  /** Call `x` is the unreceived last call of a chain other than `loose`. */
  ghost predicate Pending(s: State, x: Xid, loose: Option<Xid>) {
    && x in s.txns && HomeOk(s, x)
    && Some(s.home[x].0) != loose
    && !s.chains[s.home[x].0].Received() && s.home[x].1 + 1 == |s.chains[s.home[x].0].xs|
  }

  /** A list may have many notices, but each call once. */
  ghost predicate NoCallTwice(q: seq<Work>) {
    forall j, k | 0 <= j < k < |q| && q[j].Call? :: q[j] != q[k]
  }

  /** Transaction `x` is outgoing for thread `t`. */
  predicate Outgoing(txns: map<Xid, Txn>, x: Option<Xid>, t: Tid) {
    x.Some? && x.value in txns && txns[x.value].from == Some(t)
  }

  /** A thread with two pending errors is not waiting for a reply. */
  ghost predicate ErrorsOk(txns: map<Xid, Txn>, th: Thread, t: Tid) {
    th.error2 != Ok ==> th.error != Ok && !Outgoing(txns, th.stack, t)
  }

  ghost predicate ThreadOk(s: State, t: Tid, loose: Option<Xid>)
    requires t in s.threads
  {
    && (if t in s.seat then s.seat[t] in s.chains && Some(t) in s.chains[s.seat[t]].who else s.threads[t].stack == None)
    && ErrorsOk(s.txns, s.threads[t], t)
    && NoCallTwice(s.threads[t].todo)
    && forall x | Call(x) in s.threads[t].todo :: Pending(s, x, loose) && s.txns[x].toThread == Some(t)
  }

  ghost predicate ProcOk(s: State, p: Pid, loose: Option<Xid>)
    requires p in s.procTodo
  {
    && NoCallTwice(s.procTodo[p])
    && forall x | Call(x) in s.procTodo[p] ::
        Pending(s, x, loose) && s.txns[x].toThread == None && s.txns[x].toProc == Some(p)
  }

  ghost predicate Inv(s: State, loose: Option<Xid>) {
    && s.home.Keys == s.txns.Keys && s.seat.Keys <= s.threads.Keys
    && (loose.Some? ==> loose.value in s.chains)
    && (forall r {:trigger ChainOk(s, r, loose)} | r in s.chains :: ChainOk(s, r, loose))
    && (forall x {:trigger HomeOk(s, x)} | x in s.txns :: HomeOk(s, x))
    && (forall t {:trigger ThreadOk(s, t, loose)} | t in s.threads :: ThreadOk(s, t, loose))
    && (forall p {:trigger ProcOk(s, p, loose)} | p in s.procTodo :: ProcOk(s, p, loose))
  }

  // ----- what the invariant says about stacks

  /** A thread's stack top is the one its chain gives it. */
  lemma StackIsTop(s: State, loose: Option<Xid>, t: Tid)
    requires Inv(s, loose) && t in s.threads
    ensures t in s.seat ==>
              && s.seat[t] in s.chains && ChainOk(s, s.seat[t], loose)
              && Some(t) in s.chains[s.seat[t]].who
              && s.threads[t].stack == Top(s.chains[s.seat[t]], t) && s.threads[t].stack.Some?
    ensures t !in s.seat ==> s.threads[t].stack == None
  {
    assert ThreadOk(s, t, loose);
    if t in s.seat {
      assert ChainOk(s, s.seat[t], loose);
      TopOfMember(s.threads, s.chains[s.seat[t]], t);
    }
  }

  lemma TopOfMember(threads: map<Tid, Thread>, c: Chain, t: Tid)
    requires c.Shaped() && Seated(threads, c) && Some(t) in c.who
    ensures t in threads && threads[t].stack == Top(c, t) && Top(c, t).Some?
  {
    var i :| 0 <= i < |c.who| && c.who[i] == Some(t);
    assert SeatedAt(threads, c, i);
  }

  /** An incoming stack top is the received last call of the thread's chain, and outgoing for its caller. */
  lemma IncomingTop(threads: map<Tid, Thread>, txns: map<Xid, Txn>, c: Chain, t: Tid)
    requires c.Shaped() && Linked(txns, c) && Seated(threads, c) && Some(t) in c.who
    requires !c.Received() ==> var x := c.xs[|c.xs| - 1];
        x in txns && (txns[x].from.Some? ==> txns[x].toThread != txns[x].from)
    ensures var x := Top(c, t).value;
            && x in txns
            && (txns[x].toThread == Some(t) <==> txns[x].from != Some(t))
            && (txns[x].toThread == Some(t) <==> c.Received() && c.who[|c.xs|] == Some(t))
            && (txns[x].toThread == Some(t) ==> x == c.xs[|c.xs| - 1])
  {
    TopOfMember(threads, c, t);
    var p := LastPos(c.who, t);
    if p < |c.xs| {
      assert Made(txns, c, p);
      if p + 1 < |c.who| {
        assert ReceivedAt(txns, c, p + 1);
      }
    } else {
      assert Made(txns, c, p - 1) && ReceivedAt(txns, c, p) && SeatedAt(threads, c, p);
    }
  }

  /** The last caller of a chain has the chain's last call on top, unless it is also the receiver. */
  lemma LastCallerTop(threads: map<Tid, Thread>, c: Chain, u: Tid)
    requires c.Shaped() && Seated(threads, c) && c.who[|c.xs| - 1] == Some(u)
    ensures u in threads && threads[u].stack == Some(c.xs[|c.xs| - 1])
  {
    assert SeatedAt(threads, c, |c.xs| - 1);
    if c.Received() {
      assert SeatedAt(threads, c, |c.xs|);
    }
    LastPosIs(c.who, u, |c.xs| - 1);
  }

  /**
    Call-stack agreement: when a thread's stack top is incoming and its caller is
    alive, the caller's stack top is that same transaction.
   */
  lemma Agreement(s: State, t: Tid, x: Xid, u: Tid)
    requires Inv(s, None) && t in s.threads
    requires s.threads[t].stack == Some(x)
    requires x in s.txns && s.txns[x].toThread == Some(t) && s.txns[x].from == Some(u)
    ensures u in s.threads && s.threads[u].stack == Some(x)
  {
    StackIsTop(s, None, t);
    var c := s.chains[s.seat[t]];
    IncomingTop(s.threads, s.txns, c, t);
    assert Made(s.txns, c, |c.xs| - 1);
    LastCallerTop(s.threads, c, u);
  }

  /** Below the call that thread `t` made at place `i` of its chain lies, one place down, the call it was serving. */
  lemma BelowOutgoing(s: State, loose: Option<Xid>, t: Tid, r: Xid, i: nat)
    requires Inv(s, loose) && r in s.chains && i < |s.chains[r].xs|
    ensures s.chains[r].xs[i] in s.txns
    ensures var x := s.txns[s.chains[r].xs[i]];
            x.from == Some(t) && x.fromParent.Some? ==>
              && x.fromParent.value in s.txns && s.home[x.fromParent.value] == (r, i - 1)
              && s.txns[x.fromParent.value].toThread == Some(t) && s.txns[x.fromParent.value].from != Some(t)
  {
    assert ChainOk(s, r, loose);
    CallerWasServing(s.threads, s.txns, s.chains[r], t, i);
    if 0 < i {
      HomeAt(s.home, s.seat, r, s.chains[r], i - 1);
    }
  }

  lemma HomeAt(home: map<Xid, (Xid, nat)>, seat: map<Tid, Xid>, r: Xid, c: Chain, i: nat)
    requires Owned(home, seat, r, c) && i < |c.xs|
    ensures c.xs[i] in home && home[c.xs[i]] == (r, i)
  {
  }

  lemma CallerWasServing(threads: map<Tid, Thread>, txns: map<Xid, Txn>, c: Chain, t: Tid, i: nat)
    requires c.Shaped() && Linked(txns, c) && Seated(threads, c) && i < |c.xs|
    ensures c.xs[i] in txns
    ensures txns[c.xs[i]].fromParent == if i == 0 then None else Some(c.xs[i - 1])
    ensures txns[c.xs[i]].from == Some(t) && 0 < i ==>
              c.xs[i - 1] in txns && txns[c.xs[i - 1]].toThread == Some(t) && txns[c.xs[i - 1]].from != Some(t)
  {
    assert Made(txns, c, i);
    if txns[c.xs[i]].from == Some(t) && 0 < i {
      assert Made(txns, c, i - 1) && ReceivedAt(txns, c, i) && SeatedAt(threads, c, i);
    }
  }

  /** Below the call that thread `t` received at place `i` lies, further down, a call that `t` made. */
  lemma BelowIncoming(s: State, loose: Option<Xid>, t: Tid, r: Xid, i: nat)
    requires Inv(s, loose) && r in s.chains && i + 1 < |s.chains[r].who|
    ensures i < |s.chains[r].xs| && s.chains[r].xs[i] in s.txns
    ensures var x := s.txns[s.chains[r].xs[i]];
            x.toThread == Some(t) && x.toParent.Some? ==>
              && x.toParent.value in s.txns && s.home[x.toParent.value].0 == r && s.home[x.toParent.value].1 < i
              && s.txns[x.toParent.value].from == Some(t) && s.txns[x.toParent.value].toThread != Some(t)
  {
    assert ChainOk(s, r, loose);
    var c := s.chains[r];
    var j := i + 1;
    if c.who[j] == Some(t) {
      NextDiffers(s.threads, s.txns, c, j);
      BelowIsOutgoing(s.threads, s.txns, c, j, t);
      var p := LastPos(c.who[..j], t);
      if 0 <= p {
        HomeAt(s.home, s.seat, r, c, p);
      }
    }
    assert ReceivedAt(s.txns, c, j);
  }

  lemma NextDiffers(threads: map<Tid, Thread>, txns: map<Xid, Txn>, c: Chain, j: nat)
    requires c.Shaped() && Linked(txns, c) && Seated(threads, c) && 0 < j < |c.who|
    ensures c.xs[j - 1] in txns && txns[c.xs[j - 1]].toThread == c.who[j]
    ensures c.who[j].Some? ==> c.who[j] != c.who[j - 1]
  {
    assert ReceivedAt(txns, c, j) && SeatedAt(threads, c, j);
  }

  /** What lies below place `j` of a thread's chain is a call that the thread made, before. */
  lemma BelowIsOutgoing(threads: map<Tid, Thread>, txns: map<Xid, Txn>, c: Chain, j: nat, t: Tid)
    requires c.Shaped() && Linked(txns, c) && Seated(threads, c) && 0 < j < |c.who| && c.who[j] == Some(t)
    ensures var p := LastPos(c.who[..j], t);
            && p + 1 < j
            && (0 <= p ==> c.xs[p] in txns && txns[c.xs[p]].from == Some(t) && txns[c.xs[p]].toThread != Some(t))
  {
    NextDiffers(threads, txns, c, j);
    var p := LastPos(c.who[..j], t);
    if 0 <= p {
      assert c.who[..j][p] == c.who[p];
      assert p != j - 1;
      assert Made(txns, c, p);
      NextDiffers(threads, txns, c, p + 1);
    }
  }
}
