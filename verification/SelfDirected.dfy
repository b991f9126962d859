/**
  Calls that are directed to their own sender: when they come about, and what replies
  and thread exit do with them.
 */
module SelfDirected {
  import opened Options
  import opened CallChains
  import opened CallSteps
  import opened CallStacks

  /** Lines 1341-1362: a reply by thread `t` now would take the branch for a bad target stack. */
  predicate ReplyMismatches(s: State, t: Tid)
    requires t in s.threads
  {
    && s.threads[t].stack.Some? && s.threads[t].stack.value in s.txns
    && var x := s.threads[t].stack.value;
       && s.txns[x].toThread == Some(t) && s.txns[x].from.Some? && s.txns[x].from.value in s.threads
       && var u := s.txns[x].from.value;
          (if u == t then s.txns[x].toParent else s.threads[u].stack) != Some(x)
  }

  /** In every reachable state that branch is not taken. */
  lemma RepliesMatch(s: State, t: Tid)
    requires Inv(s, None) && t in s.threads
    ensures !ReplyMismatches(s, t)
  {
    StackIsTop(s, None, t);
    if t in s.seat {
      var c := s.chains[s.seat[t]];
      IncomingTop(s.threads, s.txns, c, t);
      var x := s.threads[t].stack.value;
      if s.txns[x].toThread == Some(t) && s.txns[x].from.Some? {
        Agreement(s, t, x, s.txns[x].from.value);
      }
    }
  }

  /**
    Replies and such calls.  Just when the search
    for a target thread ends at the sender itself, a reply that the sender makes before
    it has received the call takes the branch for a bad target stack, and the call,
    once received, lies below itself on the receiver's stack.
   */
  lemma SelfDirectedIff(s: State, t: Tid, x: Xid, p: Pid)
    requires Inv(s, None) && t in s.threads && x !in s.txns && !Outgoing(s.txns, s.threads[t].stack, t)
    ensures var target := Target(s, t, p); var s1 := Push(s, t, x, p, target);
            ReplyMismatches(s1, t) <==> target == Some(t)
    ensures var target := Target(s, t, p); var s1 := Push(s, t, x, p, target); var r := s1.home[x].0;
            && r in s1.chains && s1.chains[r].xs != [] && s1.chains[r].xs[|s1.chains[r].xs| - 1] == x
            && forall u | u in s1.threads && (if target.Some? then target == Some(u)
                                              else s1.threads[u].stack == None) ::
                 Receive(s1, r, u).txns[x].toParent == Some(x) <==> target == Some(t)
  {
    StackIsTop(s, None, t);
    var target := Target(s, t, p);
    if target.Some? {
      TargetIsMember(s.threads, s.chains[s.seat[t]], p, 0);
    }
    var s1 := Push(s, t, x, p, target);
    forall u | u in s1.threads && (if target.Some? then target == Some(u) else s1.threads[u].stack == None)
      ensures Receive(s1, s1.home[x].0, u).txns[x].toParent == Some(x) <==> target == Some(t)
    {
      if u != t {
        NotYetOnStack(s, u, x);
      }
    }
  }

  lemma NotYetOnStack(s: State, u: Tid, x: Xid)
    requires Inv(s, None) && u in s.threads && x !in s.txns
    ensures s.threads[u].stack != Some(x)
  {
    StackIsTop(s, None, u);
    if u in s.seat {
      TopIsHome(s, None, u);
    }
  }

  // ----- the sender's exit

  /** `n` turns of the walk at lines 2557-2578 by thread `t`: the transactions, and the one it has come to. */
  function Walked(txns: map<Xid, Txn>, t: Tid, cur: Option<Xid>, n: nat): (map<Xid, Txn>, Option<Xid>)
    decreases n
  {
    if n == 0 || cur.None? || cur.value !in txns then (txns, cur)
    else
      var x := cur.value;
      if txns[x].toThread == Some(t) then
        Walked(txns[x := txns[x].(toProc := None, toThread := None)], t, txns[x].toParent, n - 1)
      else if txns[x].from == Some(t) then
        Walked(txns[x := txns[x].(from := None)], t, txns[x].fromParent, n - 1)
      else (txns, cur)  // BUG()
  }

  /** A transaction still points to thread `t`. */
  ghost predicate PointsTo(txns: map<Xid, Txn>, t: Tid) {
    exists y :: y in txns && (txns[y].from == Some(t) || txns[y].toThread == Some(t))
  }

  lemma {:induction false} WalkFrom(s: State, t: Tid, m: nat) returns (n: nat)
    requires Inv(s, None) && t in s.threads && t in s.seat && s.seat[t] in s.chains
    requires IsOwn(s.chains[s.seat[t]], t, m)
    ensures Walked(KilledTxns(s, s.seat[t], t, m + 1), t, Some(s.chains[s.seat[t]].xs[m]), n)
            == (KilledTxns(s, s.seat[t], t, 0), None)
    decreases m
  {
    var p := UnlinkFacts(s, t, m);
    if p < 0 {
      n := 1;
    } else {
      n := WalkFrom(s, t, p);
      n := n + 1;
    }
  }

  /** In every reachable state the walk ends, having passed all the calls that the exit of `t` concerns. */
  lemma WalkIsKill(s: State, t: Tid) returns (n: nat)
    requires Inv(s, None) && t in s.threads
    ensures Walked(s.txns, t, s.threads[t].stack, n) == (Kill(s, t).txns, None)
  {
    StackIsTop(s, None, t);
    if t in s.seat {
      var m := UnlinkStart(s, t);
      n := WalkFrom(s, t, m);
    } else {
      n := 0;
    }
  }

  lemma NonePointTo(s: State, t: Tid)
    requires Inv(s, None) && t !in s.threads
    ensures !PointsTo(s.txns, t)
  {
    forall y | y in s.txns
      ensures s.txns[y].from != Some(t) && s.txns[y].toThread != Some(t)
    {
      assert HomeOk(s, y);
      var r, i := s.home[y].0, s.home[y].1;
      var c := s.chains[r];
      assert ChainOk(s, r, None);
      assert Made(s.txns, c, i) && SeatedAt(s.threads, c, i);
      if i + 1 < |c.who| {
        assert ReceivedAt(s.txns, c, i + 1) && SeatedAt(s.threads, c, i + 1);
      }
    }
  }

  /** Thread `t` has made call `x` into process `p`, and nobody has received it. */
  ghost function JustSent(s: State, t: Tid, x: Xid, p: Pid): State
    requires t in s.threads
  {
    Enqueue(Push(s, t, x, p, Target(s, t, p)), x)
  }

  /** The call went to another thread, or to the process: the exit of its sender leaves nothing that points to it. */
  lemma ExitAfterCall(s: State, t: Tid, x: Xid, p: Pid) returns (n: nat)
    requires Inv(s, None) && t in s.threads && p in s.procTodo && x !in s.txns && s.threads[t].error == Ok
    requires !Outgoing(s.txns, s.threads[t].stack, t) && Target(s, t, p) != Some(t)
    ensures Walked(JustSent(s, t, x, p).txns, t, Some(x), n).1 == None
    ensures !PointsTo(Walked(JustSent(s, t, x, p).txns, t, Some(x), n).0, t)
  {
    var s2 := JustSent(s, t, x, p);
    SentInv(s, t, x, p);
    n := WalkIsKill(s2, t);
    KillInv(s2, t);
    NotServing(s2, t);
    NonePointTo(Kill(s2, t), t);
  }

  lemma SentInv(s: State, t: Tid, x: Xid, p: Pid)
    requires Inv(s, None) && t in s.threads && p in s.procTodo && x !in s.txns && s.threads[t].error == Ok
    requires !Outgoing(s.txns, s.threads[t].stack, t) && Target(s, t, p) != Some(t)
    ensures var s2 := JustSent(s, t, x, p);
            && Inv(s2, None) && t in s2.threads && s2.threads[t].stack == Some(x) && x in s2.txns
            && s2.txns[x].toThread != Some(t) && LooseAfterKill(s2, t) == None
  {
    var target := Target(s, t, p);
    ErrorsOfOk(s, t);
    CallerState(s, t);
    if target.Some? {
      TargetIsMember(s.threads, s.chains[s.seat[t]], p, 0);
    }
    var r := if t in s.seat then s.seat[t] else x;
    PushInv(s, t, x, p, target);
    assert ChainOk(Push(s, t, x, p, target), r, Some(r));
    EnqueueInv(Push(s, t, x, p, target), r, x);
  }

  /** The call was directed to its sender: the walk stops behind it. */
  lemma ExitAfterOwnCall(s: State, t: Tid, x: Xid, p: Pid)
    requires Inv(s, None) && t in s.threads && x !in s.txns && Target(s, t, p) == Some(t)
    ensures var s2 := JustSent(s, t, x, p);
            && s2.threads.Keys == s.threads.Keys && Call(x) in s2.threads[t].todo
            && Walked(s2.txns, t, Some(x), 1) == (s2.txns[x := s2.txns[x].(toProc := None, toThread := None)], None)
            && s2.txns[x].from == Some(t) && (forall y | y in s.txns :: y in s2.txns && s2.txns[y] == s.txns[y])
  {
    var s2 := JustSent(s, t, x, p);
    assert s2.threads[t].todo[|s.threads[t].todo|] == Call(x);
  }

  /**
    The sender's exit before the call is received.  Its walk always ends; just when the
    call was directed to its sender, transactions still point to the thread that goes.
    Then the thread's earlier calls are as they were, among them the one that it was
    serving; and the call itself, which is failed at line 2580 and so freed for its
    sender, is on the list that line 2581 walks.
   */
  lemma SelfDirectedExitIff(s: State, t: Tid, x: Xid, p: Pid) returns (n: nat)
    requires Inv(s, None) && t in s.threads && p in s.procTodo && x !in s.txns && s.threads[t].error == Ok
    requires !Outgoing(s.txns, s.threads[t].stack, t)
    ensures var s2 := JustSent(s, t, x, p); var w := Walked(s2.txns, t, Some(x), n);
            && w.1 == None
            && (PointsTo(w.0, t) <==> Target(s, t, p) == Some(t))
            && (Target(s, t, p) == Some(t) ==>
                  && t in s2.threads && Call(x) in s2.threads[t].todo
                  && x in w.0 && w.0[x].from == Some(t)
                  && (forall y | y in s.txns :: y in w.0 && w.0[y] == s.txns[y])
                  && s.threads[t].stack.Some? && s.threads[t].stack.value in s.txns
                  && s.txns[s.threads[t].stack.value].toThread == Some(t))
  {
    CallerState(s, t);
    if Target(s, t, p) == Some(t) {
      n := 1;
      ExitAfterOwnCall(s, t, x, p);
      assert Walked(JustSent(s, t, x, p).txns, t, Some(x), n).0[x].from == Some(t);
    } else {
      n := ExitAfterCall(s, t, x, p);
    }
  }

  // ----- a run that leads to such a call

  /** Thread 10 of process 1 and thread 20 of process 2. */
  ghost function Idle(): State {
    State(map[10 := Thread(1, None, [], Ok, Ok), 20 := Thread(2, None, [], Ok, Ok)], map[1 := [], 2 := []],
          map[], map[], map[], map[])
  }

  /** Thread 10 has called process 2 ... */
  ghost function Calling(): State {
    State(map[10 := Thread(1, Some(1), [Complete], Ok, Ok), 20 := Thread(2, None, [], Ok, Ok)],
          map[1 := [], 2 := [Call(1)]],
          map[1 := Txn(Some(10), None, Some(2), None, None)],
          map[1 := Chain([1], [Some(10)])], map[1 := (1, 0)], map[10 := 1])
  }

  /** ... thread 20 has received the call ... */
  ghost function Called(): State {
    State(map[10 := Thread(1, Some(1), [Complete], Ok, Ok), 20 := Thread(2, Some(1), [], Ok, Ok)],
          map[1 := [], 2 := []],
          map[1 := Txn(Some(10), None, Some(2), Some(20), None)],
          map[1 := Chain([1], [Some(10), Some(20)])], map[1 := (1, 0)], map[10 := 1, 20 := 1])
  }

  /** ... and called process 1 back, that is, thread 10 ... */
  ghost function CallingBack(): State {
    State(map[10 := Thread(1, Some(1), [Complete, Call(2)], Ok, Ok), 20 := Thread(2, Some(2), [Complete], Ok, Ok)],
          map[1 := [], 2 := []],
          map[1 := Txn(Some(10), None, Some(2), Some(20), None), 2 := Txn(Some(20), Some(1), Some(1), Some(10), None)],
          map[1 := Chain([1, 2], [Some(10), Some(20)])], map[1 := (1, 0), 2 := (1, 1)], map[10 := 1, 20 := 1])
  }

  /** ... which serves that call. */
  ghost function CalledBack(): State {
    State(map[10 := Thread(1, Some(2), [], Ok, Ok), 20 := Thread(2, Some(2), [Complete], Ok, Ok)],
          map[1 := [], 2 := []],
          map[1 := Txn(Some(10), None, Some(2), Some(20), None),
              2 := Txn(Some(20), Some(1), Some(1), Some(10), Some(1))],
          map[1 := Chain([1, 2], [Some(10), Some(20), Some(10)])], map[1 := (1, 0), 2 := (1, 1)], map[10 := 1, 20 := 1])
  }

  lemma Pair<V>(m: map<nat, V>, j: nat, k: nat, a: V, b: V)
    requires m.Keys == {j, k} && j != k && m[j] == a && m[k] == b
    ensures m == map[j := a, k := b]
  {
  }

  lemma StepCalling()
    ensures Noted(Enqueue(Push(Idle(), 10, 1, 2, None), 1), 10, [Complete], Ok, Ok) == Calling()
  {
    var s := Push(Idle(), 10, 1, 2, None);
    assert [] + [1] == [1] && [] + [Call(1)] == [Call(1)] && [] + [Complete] == [Complete];
    var s2 := Noted(Enqueue(s, 1), 10, [Complete], Ok, Ok);
    Pair(s2.procTodo, 1, 2, [], [Call(1)]);
    Pair(s2.threads, 10, 20, Thread(1, Some(1), [Complete], Ok, Ok), Thread(2, None, [], Ok, Ok));
  }

  lemma StepCalled()
    ensures Receive(TakenFromProc(Calling(), 2), 1, 20) == Called()
  {
    assert [Some(10)] + [Some(20)] == [Some(10), Some(20)];
  }

  lemma StepCallingBack()
    ensures Target(Called(), 20, 1) == Some(10)
    ensures Noted(Enqueue(Push(Called(), 20, 2, 1, Some(10)), 2), 20, [Complete], Ok, Ok) == CallingBack()
  {
    var s := Push(Called(), 20, 2, 1, Some(10));
    assert [1] + [2] == [1, 2];
    Pair(s.home, 1, 2, (1, 0), (1, 1));
    Pair(s.txns, 1, 2, Txn(Some(10), None, Some(2), Some(20), None), Txn(Some(20), Some(1), Some(1), Some(10), None));
    var s1 := Enqueue(s, 2);
    assert [Complete] + [Call(2)] == [Complete, Call(2)] && [] + [Complete] == [Complete];
    Pair(s1.threads, 10, 20, Thread(1, Some(1), [Complete, Call(2)], Ok, Ok), Thread(2, Some(2), [], Ok, Ok));
    var s2 := Noted(s1, 20, [Complete], Ok, Ok);
    Pair(s2.threads, 10, 20, Thread(1, Some(1), [Complete, Call(2)], Ok, Ok), Thread(2, Some(2), [Complete], Ok, Ok));
  }

  lemma StepCalledBack()
    ensures Receive(TakenFromThread(TakenFromThread(CallingBack(), 10), 10), 1, 10) == CalledBack()
    ensures Target(CalledBack(), 10, 1) == Some(10)
  {
    var s := TakenFromThread(CallingBack(), 10);
    assert [Complete, Call(2)][1..] == [Call(2)] && [Call(2)][1..] == [];
    Pair(s.threads, 10, 20, Thread(1, Some(1), [Call(2)], Ok, Ok), Thread(2, Some(2), [Complete], Ok, Ok));
    var s2 := TakenFromThread(s, 10);
    Pair(s2.threads, 10, 20, Thread(1, Some(1), [], Ok, Ok), Thread(2, Some(2), [Complete], Ok, Ok));
    var s3 := Receive(s2, 1, 10);
    Pair(s3.threads, 10, 20, Thread(1, Some(2), [], Ok, Ok), Thread(2, Some(2), [Complete], Ok, Ok));
    Pair(s3.txns, 1, 2, Txn(Some(10), None, Some(2), Some(20), None),
         Txn(Some(20), Some(1), Some(1), Some(10), Some(1)));
    Pair(s3.seat, 10, 20, 1, 1);
    assert [Some(10), Some(20)] + [Some(10)] == [Some(10), Some(20), Some(10)];
  }

  /** A call into its own process by thread 10 would now be directed to thread 10. */
  method ReachSelfDirected() returns (c: CallStacks)
    ensures fresh(c) && c.Valid() && c.St() == CalledBack()
    ensures Target(c.St(), 10, 1) == Some(10) && !Outgoing(c.txns, c.threads[10].stack, 10)
    ensures ReplyMismatches(Push(c.St(), 10, 3, 1, Some(10)), 10)
  {
    c := ReachCalledBack();
    StepCalledBack();
    SelfDirectedIff(c.St(), 10, 3, 1);
  }

  method ReachCalledBack() returns (c: CallStacks)
    ensures fresh(c) && c.Valid() && c.St() == CalledBack()
  {
    c := ReachCallingBack();
    StepCalledBack();
    var w := c.ReadWork(10, false);
    w := c.ReadWork(10, false);
  }

  method ReachCallingBack() returns (c: CallStacks)
    ensures fresh(c) && c.Valid() && c.St() == CallingBack()
  {
    c := ReachCalled();
    StepCallingBack();
    c.SendCall(20, InProc(1), 2, true);
  }

  method ReachCalled() returns (c: CallStacks)
    ensures fresh(c) && c.Valid() && c.St() == Called()
  {
    c := Start();
    StepCalling();
    c.SendCall(10, InProc(2), 1, true);
    StepCalled();
    var w := c.ReadWork(20, true);
  }

  method Start() returns (c: CallStacks)
    ensures fresh(c) && c.Valid() && c.St() == Idle()
  {
    c := new CallStacks();
    c.AddProc(1);
    c.AddProc(2);
    c.AddThread(10, 1);
    c.AddThread(20, 2);
    assert c.threads == Idle().threads && c.procTodo == Idle().procTodo;
  }
}
