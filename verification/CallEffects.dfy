/**
  What a thread and its list see of the calls: which threads' fields and which lists
  sending, receiving and replying change, and how.
 */
module CallEffects {
  import opened Options
  import opened CallChains
  import opened CallSteps

  /**
    Thread `t` has called process `p`: the new transaction is its stack top, the last
    item of the target thread's list, or of the process's, and the notice of completion
    is the last item of its own; nothing else has changed.
   */
  ghost predicate WasSent(s: State, s2: State, t: Tid, x: Xid, p: Pid, target: Option<Tid>)
    requires t in s.threads && p in s.procTodo
  {
    && s2.txns == s.txns[x := Txn(Some(t), s.threads[t].stack, Some(p), target, None)]
    && s2.threads.Keys == s.threads.Keys
    && s2.threads[t] == s.threads[t].(stack := Some(x), todo := s.threads[t].todo + [Complete])
    && (forall u | u in s.threads && u != t ::
          s2.threads[u] == if target == Some(u) then s.threads[u].(todo := s.threads[u].todo + [Call(x)])
              else s.threads[u])
    && s2.procTodo == if target.Some? then s.procTodo else s.procTodo[p := s.procTodo[p] + [Call(x)]]
  }

  lemma SentIs(s: State, t: Tid, x: Xid, p: Pid, target: Option<Tid>)
    requires t in s.threads && p in s.procTodo && s.threads[t].error == Ok && s.threads[t].error2 == Ok
    requires target.Some? ==> target.value in s.threads && target != Some(t)
    ensures WasSent(s, Noted(Enqueue(Push(s, t, x, p, target), x), t, [Complete], Ok, Ok), t, x, p, target)
  {
  }

  /** Thread `t` has an error to read, and nothing else has changed. */
  ghost predicate WasRefused(s: State, s2: State, t: Tid, code: Code)
    requires t in s.threads
  {
    s2 == s.(threads := s.threads[t := s.threads[t].(error := code, error2 := Ok)])
  }

  lemma RefusedIs(s: State, t: Tid, code: Code)
    requires t in s.threads
    ensures WasRefused(s, Noted(s, t, [], code, Ok), t, code)
  {
    assert s.threads[t].todo + [] == s.threads[t].todo;
  }

  /** Thread `t` has taken call `x` off its own list, or its process's: it is the stack top, on what lay there. */
  ghost predicate WasReceived(s: State, s2: State, t: Tid, x: Xid, own: bool)
    requires t in s.threads && x in s.txns
    requires if own then s.threads[t].todo != []
        else s.threads[t].proc in s.procTodo && s.procTodo[s.threads[t].proc] != []
  {
    var th, p := s.threads[t], s.threads[t].proc;
    && s2.txns == s.txns[x := s.txns[x].(toParent := th.stack, toThread := Some(t))]
    && s2.threads == s.threads[t := th.(stack := Some(x), todo := if own then th.todo[1..] else th.todo)]
    && s2.procTodo == if own then s.procTodo else s.procTodo[p := s.procTodo[p][1..]]
  }

  lemma ReceivedIs(s: State, t: Tid, r: Xid, own: bool)
    requires t in s.threads && r in s.chains && s.chains[r].xs != [] && s.chains[r].xs[|s.chains[r].xs| - 1] in s.txns
    requires if own then s.threads[t].todo != []
        else s.threads[t].proc in s.procTodo && s.procTodo[s.threads[t].proc] != []
    ensures WasReceived(s, Receive(if own then TakenFromThread(s, t) else TakenFromProc(s, s.threads[t].proc), r, t), t,
                        s.chains[r].xs[|s.chains[r].xs| - 1], own)
  {
  }

  /**
    Thread `t` has answered call `x` of thread `u`: the call is freed, each of the two
    is back at what lay below it, the reply is the last item of the caller's list and the
    notice of completion that of the other's; nothing else has changed.
   */
  ghost predicate WasAnswered(s: State, s2: State, t: Tid, u: Tid, x: Xid)
    requires t in s.threads && u in s.threads && x in s.txns
  {
    && s2.txns == s.txns - {x} && s2.procTodo == s.procTodo
    && s2.threads.Keys == s.threads.Keys
    && s2.threads[t] == s.threads[t].(stack := s.txns[x].toParent, todo := s.threads[t].todo + [Complete])
    && s2.threads[u] == s.threads[u].(stack := s.txns[x].fromParent, todo := s.threads[u].todo + [Message])
    && forall v | v in s.threads && v != t && v != u :: s2.threads[v] == s.threads[v]
  }

  lemma AnsweredIs(s: State, t: Tid, u: Tid, r: Xid)
    requires r in s.chains && ChainOk(s, r, None) && s.chains[r].Received()
        && s.chains[r].who[|s.chains[r].xs|] == Some(t)
    requires s.chains[r].who[|s.chains[r].xs| - 1] == Some(u) && t in s.threads && u in s.threads
    requires s.threads[t].error == Ok && s.threads[t].error2 == Ok
    ensures var c := s.chains[r]; var x := c.xs[|c.xs| - 1];
            && x in s.txns && t != u
            && var mid := Leave(s, r, t);
               var s2 := Noted(Pop(mid, r, u, s.threads[u].error, s.threads[u].error2), u, [Message],
                               s.threads[u].error, s.threads[u].error2);
               WasAnswered(s, Noted(s2, t, [Complete], Ok, Ok), t, u, x)
  {
    var c := s.chains[r];
    assert ReceivedAt(s.txns, c, |c.xs|) && Made(s.txns, c, |c.xs| - 1) && SeatedAt(s.threads, c, |c.xs|);
  }

  /** Thread `t` has given up call `x`: it is back at what lay below, and is told that its command is done with. */
  ghost predicate WasLeft(s: State, s2: State, t: Tid, x: Xid)
    requires t in s.threads && x in s.txns
  {
    && s2.txns == s.txns && s2.procTodo == s.procTodo
    && s2.threads == s.threads[t := s.threads[t].(stack := s.txns[x].toParent, error := TransactionComplete,
                                                  error2 := Ok)]
  }

  lemma LeftIs(s: State, r: Xid, t: Tid)
    requires r in s.chains && ChainOk(s, r, None) && s.chains[r].Received()
        && s.chains[r].who[|s.chains[r].xs|] == Some(t)
    requires t in s.threads
    ensures var x := s.chains[r].xs[|s.chains[r].xs| - 1];
            x in s.txns && WasLeft(s, Noted(Leave(s, r, t), t, [], TransactionComplete, Ok), t, x)
  {
    assert ReceivedAt(s.txns, s.chains[r], |s.chains[r].xs|);
    assert s.threads[t].todo + [] == s.threads[t].todo;
  }
}
