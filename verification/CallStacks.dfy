/**
  The driver's handling of synchronous calls: sending, receiving, replying, failed
  replies and thread exit, on the threads' stacks and todo lists.
 */
module CallStacks {
  import opened Options
  import opened CallChains
  import opened CallSteps
  import opened CallEffects
  import opened FailedReply

  /** The thread of process `p` that made the earliest of the calls from place `k` on. */
  function TargetFrom(threads: map<Tid, Thread>, c: Chain, p: Pid, k: nat): Option<Tid>
    requires k <= |c.xs| <= |c.who|
    decreases |c.xs| - k
  {
    if k == |c.xs| then None
    else if c.who[k].Some? && c.who[k].value in threads && threads[c.who[k].value].proc == p then c.who[k]
    else TargetFrom(threads, c, p, k + 1)
  }

  /** The thread to which a call by `t` into process `p` is directed, if any. */
  function Target(s: State, t: Tid, p: Pid): Option<Tid> {
    if t in s.seat && s.seat[t] in s.chains && |s.chains[s.seat[t]].xs| <= |s.chains[s.seat[t]].who|
    then TargetFrom(s.threads, s.chains[s.seat[t]], p, 0)
    else None
  }

  lemma TargetIsMember(threads: map<Tid, Thread>, c: Chain, p: Pid, k: nat)
    requires k <= |c.xs| <= |c.who|
    ensures var u := TargetFrom(threads, c, p, k);
            u.Some? ==> u.value in threads && threads[u.value].proc == p && u in c.who
    decreases |c.xs| - k
  {
    if k < |c.xs| {
      TargetIsMember(threads, c, p, k + 1);
    }
  }

  /** Lines 1371-1390: the process that a call goes to, or why there is none. */
  datatype Callee =
    | InProc(p: Pid)
    | BadHandle   // the sender has no such handle
    | Gone        // there is no context manager, or the node's owner is gone

  /** What a call that is refused, and one that is sent, amount to. */
  lemma SendEffects(s: State, t: Tid, callee: Callee, x: Xid)
    requires Inv(s, None) && t in s.threads && s.threads[t].error == Ok && (callee.InProc? ==> callee.p in s.procTodo)
    ensures forall code :: WasRefused(s, Noted(s, t, [], code, Ok), t, code)
    ensures callee.InProc? && Target(s, t, callee.p) != Some(t) ==>
              var target := Target(s, t, callee.p);
              WasSent(s, Noted(Enqueue(Push(s, t, x, callee.p, target), x), t, [Complete], Ok, Ok), t, x, callee.p,
                      target)
  {
    assert ThreadOk(s, t, None);
    forall code
      ensures WasRefused(s, Noted(s, t, [], code, Ok), t, code)
    {
      RefusedIs(s, t, code);
    }
    if callee.InProc? && Target(s, t, callee.p) != Some(t) {
      if Target(s, t, callee.p).Some? {
        TargetIsMember(s.threads, s.chains[s.seat[t]], callee.p, 0);
      }
      SentIs(s, t, x, callee.p, Target(s, t, callee.p));
    }
  }

  /** The target, if any, is the caller of the earliest call, among the callers of the process. */
  lemma {:induction false} TargetIsEarliest(threads: map<Tid, Thread>, c: Chain, p: Pid, k: nat)
    requires k <= |c.xs| <= |c.who|
    ensures var u := TargetFrom(threads, c, p, k);
            if u.None? then forall j | k <= j < |c.xs| :: !CallerIn(threads, c.who[j], p)
            else exists j :: k <= j < |c.xs| && c.who[j] == u && CallerIn(threads, u, p)
                             && forall i | k <= i < j :: !CallerIn(threads, c.who[i], p)
    decreases |c.xs| - k
  {
    if k < |c.xs| && !CallerIn(threads, c.who[k], p) {
      TargetIsEarliest(threads, c, p, k + 1);
    }
  }

  /** The caller is alive and a thread of process `p`. */
  predicate CallerIn(threads: map<Tid, Thread>, u: Option<Tid>, p: Pid) {
    u.Some? && u.value in threads && threads[u.value].proc == p
  }

  class CallStacks {
    var threads: map<Tid, Thread>
    var procTodo: map<Pid, seq<Work>>
    var txns: map<Xid, Txn>
    ghost var chains: map<Xid, Chain>
    ghost var home: map<Xid, (Xid, nat)>
    ghost var seat: map<Tid, Xid>

    ghost function St(): State
      reads this
    {
      State(threads, procTodo, txns, chains, home, seat)
    }

    ghost predicate Valid()
      reads this
    {
      Inv(St(), None)
    }

    constructor ()
      ensures Valid() && St() == State(map[], map[], map[], map[], map[], map[])
    {
      threads, procTodo, txns, chains, home, seat := map[], map[], map[], map[], map[], map[];
    }

    /** binder_send_failed_reply */
    method SendFailedReply(x: Xid, code: Code, ghost r: Xid)
      requires Inv(St(), Some(r)) && code != Ok
      requires r in chains && chains[r].xs != [] && x == chains[r].xs[|chains[r].xs| - 1]
      modifies this
      ensures Valid()
      ensures St() == Fail(old(St()), r, code) && ToldNearest(old(St()), St(), r, code)
    {
      FailInv(St(), r, code);
      FailReaches(St(), r, code);
      Propagate(x, code, r);
    }

    /** The loop at lines 1184-1226. */
    method Propagate(x: Xid, code: Code, ghost r: Xid)
      requires Inv(St(), Some(r)) && code != Ok
      requires r in chains && chains[r].xs != [] && x == chains[r].xs[|chains[r].xs| - 1]
      modifies this
      ensures St() == Fail(old(St()), r, code)
    {
      var t := x;
      while true
        invariant Inv(St(), Some(r)) && r in chains && chains[r].xs != [] && t == chains[r].xs[|chains[r].xs| - 1]
        invariant Fail(St(), r, code) == Fail(old(St()), r, code)
        decreases |chains[r].xs|
      {
        ghost var s := St();
        LastHop(s, r);
        if txns[t].from.Some? {
          TellCaller(txns[t].from.value, t, r, code);
          return;
        } else {
          var next := txns[t].fromParent;
          DropInv(s, r);
          PopTransaction(None, t, r, code, Ok);
          if next == None {
            return;
          }
          t := next.value;
        }
      }
    }

    /** Lines 1188-1206: the caller of the last call is told that it failed. */
    method TellCaller(u: Tid, t: Xid, ghost r: Xid, code: Code)
      requires Inv(St(), Some(r)) && code != Ok && t in txns && txns[t].from == Some(u)
      requires r in chains && chains[r].xs != [] && t == chains[r].xs[|chains[r].xs| - 1]
      modifies this
      ensures St() == Fail(old(St()), r, code)
    {
      LastHop(St(), r);
      var e, e2 := threads[u].error, threads[u].error2;
      if e != Ok && e2 == Ok {
        e, e2 := Ok, e;
      }
      assert e == Ok;  // the "has error code already" branch is not taken
      PopTransaction(Some(u), t, r, code, e2);
    }

    /** binder_pop_transaction */
    method PopTransaction(target: Option<Tid>, t: Xid, ghost r: Xid, e: Code, e2: Code)
      requires Inv(St(), Some(r)) && r in chains && chains[r].xs != [] && t == chains[r].xs[|chains[r].xs| - 1]
      requires t in txns && txns[t].from == target
      modifies this
      ensures |old(chains)[r].xs| == |old(chains)[r].who|
      ensures target == None ==> St() == Drop(old(St()), r)
      ensures target.Some? ==> target.value in old(threads) && St() == Pop(old(St()), r, target.value, e, e2)
    {
      ghost var s := St();
      LastHop(s, r);
      ghost var c := chains[r];
      ghost var n := |c.xs|;
      ghost var s2 := if target.Some? then Pop(s, r, target.value, e, e2) else Drop(s, r);
      if target.Some? {
        var u := target.value;
        assert threads[u].stack == Some(t);        // BUG_ON(target_thread->transaction_stack != t)
        assert txns[t].from == Some(u);            // BUG_ON(... ->from != target_thread)
        threads := threads[u := threads[u].(stack := txns[t].fromParent, error := e, error2 := e2)];
        chains := if n == 1 then chains - {r} else chains[r := Chain(c.xs[..n - 1], c.who)];
        seat := if n == 1 then seat - {u} else seat;
      } else {
        chains := if n == 1 then chains - {r} else chains[r := Chain(c.xs[..n - 1], c.who[..n - 1])];
      }
      home := home - {t};
      txns := txns - {t};
      assert St() == s2;
    }

    /** Lines 1410-1414: the walk up the caller's chain that looks for a thread of the target process. */
    method FindTarget(t: Tid, p: Pid) returns (target: Option<Tid>)
      requires Valid() && t in seat && seat[t] in chains && chains[seat[t]].Shaped() && chains[seat[t]].Received()
      requires t in threads && threads[t].stack == Some(chains[seat[t]].xs[|chains[seat[t]].xs| - 1])
      ensures target == Target(St(), t, p)
    {
      ghost var c := chains[seat[t]];
      assert ChainOk(St(), seat[t], None);
      target := None;
      var tmp := threads[t].stack;
      ghost var k := |c.xs|;
      while tmp.Some?
        invariant 0 <= k <= |c.xs|
        invariant tmp == if k == 0 then None else Some(c.xs[k - 1])
        invariant target == TargetFrom(threads, c, p, k)
        decreases k
      {
        k := k - 1;
        assert Made(txns, c, k) && SeatedAt(threads, c, k);
        var from := txns[tmp.value].from;
        if from.Some? && threads[from.value].proc == p {
          target := from;
        }
        tmp := txns[tmp.value].fromParent;
      }
    }

    /** binder_transaction of a synchronous call by thread `t`; as `SendTo` when there is a process to call. */
    method SendCall(t: Tid, callee: Callee, x: Xid, built: bool)
      requires Valid() && t in threads && x !in txns && threads[t].error == Ok
      requires callee.InProc? ==> callee.p in procTodo
      requires callee.InProc? && Target(St(), t, callee.p) == Some(t) ==> !built || Outgoing(txns, threads[t].stack, t)
      modifies this
      ensures var s := old(St());
              match callee
              case InProc(p) =>
                if Outgoing(s.txns, s.threads[t].stack, t) || !built then St() == Noted(s, t, [], FailedReply, Ok)
                else St() == Noted(Enqueue(Push(s, t, x, p, Target(s, t, p)), x), t, [Complete], Ok, Ok)
              case BadHandle => St() == Noted(s, t, [], FailedReply, Ok)
              case Gone => St() == Noted(s, t, [], DeadReply, Ok)
      ensures var s := old(St());
              match callee
              case InProc(p) =>
                if Outgoing(s.txns, s.threads[t].stack, t) || !built then WasRefused(s, St(), t, FailedReply)
                else WasSent(s, St(), t, x, p, Target(s, t, p))
              case BadHandle => WasRefused(s, St(), t, FailedReply)
              case Gone => WasRefused(s, St(), t, DeadReply)
      ensures Valid()
    {
      SendEffects(St(), t, callee, x);
      match callee
      case InProc(p) => SendTo(t, p, x, built);
      case BadHandle => Refuse(t, FailedReply);
      case Gone => Refuse(t, DeadReply);
    }

    /** Lines 1740-1745, of a call */
    method Refuse(t: Tid, code: Code)
      requires Valid() && t in threads && threads[t].error == Ok && code != Ok
      modifies this`threads
      ensures Valid() && St() == Noted(old(St()), t, [], code, Ok)
    {
      ErrorsOfOk(St(), t);
      ErrorInv(St(), None, t, code, Ok);
      SetError(t, code);
    }

    /**
      A call into process `p`.  `built` tells whether the transaction's memory, buffer and objects could be
      had.  A call that would be sent to `t` itself, because its search for a target
      thread ends there, is excluded; module SelfDirected says why.
     */
    method SendTo(t: Tid, p: Pid, x: Xid, built: bool)
      requires Valid() && t in threads && p in procTodo && x !in txns
      requires threads[t].error == Ok
      requires Target(St(), t, p) == Some(t) ==> !built || Outgoing(txns, threads[t].stack, t)
      modifies this
      ensures Valid()
      ensures var s := old(St());
              && (Outgoing(s.txns, s.threads[t].stack, t) || !built ==> St() == Noted(s, t, [], FailedReply, Ok))
              && (!Outgoing(s.txns, s.threads[t].stack, t) && built ==>
                    St() == Noted(Enqueue(Push(s, t, x, p, Target(s, t, p)), x), t, [Complete], Ok, Ok))
    {
      ghost var s := St();
      assert ThreadOk(s, t, None);
      var target := None;
      CallerState(s, t);
      if threads[t].stack.Some? {
        if txns[threads[t].stack.value].toThread != Some(t) {
          Refuse(t, FailedReply);
          return;
        }
        target := FindTarget(t, p);
        TargetIsMember(threads, chains[seat[t]], p, 0);
      }
      if !built {
        Refuse(t, FailedReply);
        return;
      }
      PushAndQueue(t, x, p, target);
    }

    method PushAndQueue(t: Tid, x: Xid, p: Pid, target: Option<Tid>)
      requires Valid() && t in threads && p in procTodo && x !in txns
      requires threads[t].error == Ok && target != Some(t)
      requires t in seat ==>
                 && seat[t] in chains && chains[seat[t]].Shaped() && chains[seat[t]].Received()
                 && chains[seat[t]].who[|chains[seat[t]].xs|] == Some(t)
      requires target.Some? ==>
                 && t in seat && target.value in threads && threads[target.value].proc == p
                     && target in chains[seat[t]].who
      modifies this
      ensures Valid()
      ensures St() == Noted(Enqueue(Push(old(St()), t, x, p, target), x), t, [Complete], Ok, Ok)
    {
      assert ThreadOk(St(), t, None);
      PushInv(St(), t, x, p, target);
      PushCall(t, x, p, target);
      QueueCall(t, x);
    }

    /** binder_get_thread */
    method AddThread(t: Tid, p: Pid)
      requires Valid() && t !in threads
      modifies this`threads
      ensures Valid() && threads == old(threads)[t := Thread(p, None, [], Ok, Ok)]
    {
      AddThreadInv(St(), t, p);
      threads := threads[t := Thread(p, None, [], Ok, Ok)];
    }

    /** binder_open */
    method AddProc(p: Pid)
      requires Valid() && p !in procTodo
      modifies this`procTodo
      ensures Valid() && procTodo == old(procTodo)[p := []]
    {
      AddProcInv(St(), p);
      procTodo := procTodo[p := []];
    }

    /**
      binder_transaction of a reply by thread `t`; `built` tells whether it could be
      put together.  `mid` is the state in which the answered call has lost `t` as
      its receiver and is about to be freed.
     */
    method Reply(t: Tid, built: bool) returns (ghost mid: State)
      requires Valid() && t in threads && threads[t].error == Ok
      modifies this
      ensures Valid()
      ensures var s := old(St());
              var x := s.threads[t].stack;
              if x.None? || Outgoing(s.txns, x, t) then St() == Noted(s, t, [], FailedReply, Ok)
              else
                && t in s.seat && s.seat[t] in s.chains && x.value in s.txns
                && var r := s.seat[t];
                && s.chains[r].Shaped() && s.chains[r].Received() && s.chains[r].xs[|s.chains[r].xs| - 1] == x.value
                && Inv(mid, Some(r))
                && match s.txns[x.value].from
                   case Some(u) =>
                     if built then
                       && mid == Leave(s, r, t)
                       && u in s.threads && u in mid.threads && r in mid.chains && mid.chains[r].xs != []
                       && x.value in mid.txns && |mid.chains[r].who| == |mid.chains[r].xs|
                       && var s2 := Noted(Pop(mid, r, u, s.threads[u].error, s.threads[u].error2), u, [Message],
                                          s.threads[u].error, s.threads[u].error2);
                          t in s2.threads && St() == Noted(s2, t, [Complete], Ok, Ok)
                     else
                       && mid == Noted(Leave(s, r, t), t, [], TransactionComplete, Ok)
                       && St() == Fail(mid, r, FailedReply)
                   case None =>
                     && mid == Noted(Leave(s, r, t), t, [], TransactionComplete, Ok)
                     && St() == Fail(mid, r, DeadReply)
    {
      ghost var s := St();
      ErrorsOfOk(s, t);
      CallerState(s, t);
      mid := s;
      var stack := threads[t].stack;
      if stack == None || txns[stack.value].toThread != Some(t) {
        Refuse(t, FailedReply);
        return;
      }
      var x := stack.value;
      ghost var r := seat[t];
      assert ChainOk(s, r, None);
      LeaveCall(t, x);
      mid := St();
      LastHop(mid, r);
      var from := txns[x].from;
      if from == None {
        mid := FailOwn(t, x, r, DeadReply);
        return;
      }
      assert threads[from.value].stack == Some(x);  // the mismatch at line 1358 does not happen
      if !built {
        mid := FailOwn(t, x, r, FailedReply);
        return;
      }
      DeliverReply(t, from.value, x, r);
    }

    /** binder_transaction of a reply by thread `t`, as it shows in threads, lists and transactions. */
    method SendReply(t: Tid, built: bool) returns (ghost mid: State)
      requires Valid() && t in threads && threads[t].error == Ok
      modifies this
      ensures var s := old(St());
              var x := s.threads[t].stack;
              if x.None? || Outgoing(s.txns, x, t) then WasRefused(s, St(), t, FailedReply)
              else x.value in s.txns
                   && (built && s.txns[x.value].from.Some? ==>
                         s.txns[x.value].from.value in s.threads
                         && WasAnswered(s, St(), t, s.txns[x.value].from.value, x.value))
                   && (!built || s.txns[x.value].from.None? ==>
                         && t in s.seat && WasLeft(s, mid, t, x.value)
                         && ToldNearest(mid, St(), s.seat[t], if s.txns[x.value].from.None? then DeadReply
                                        else FailedReply))
      ensures Valid()
    {
      ghost var s := St();
      RefusedIs(s, t, FailedReply);
      CallerState(s, t);
      mid := Reply(t, built);
      ghost var x := s.threads[t].stack;
      if x.Some? && !Outgoing(s.txns, x, t) {
        if built && s.txns[x.value].from.Some? {
          ReplyEffects(s, t);
        } else {
          LeaveEffects(s, t);
          FailReaches(mid, s.seat[t], if s.txns[x.value].from.None? then DeadReply else FailedReply);
        }
      }
    }

    lemma LeaveEffects(s: State, t: Tid)
      requires Inv(s, None) && t in s.threads && s.threads[t].stack.Some? && s.threads[t].stack.value in s.txns
      requires s.txns[s.threads[t].stack.value].toThread == Some(t)
      ensures t in s.seat && s.seat[t] in s.chains && s.chains[s.seat[t]].Shaped() && s.chains[s.seat[t]].Received()
      ensures WasLeft(s, Noted(Leave(s, s.seat[t], t), t, [], TransactionComplete, Ok), t, s.threads[t].stack.value)
    {
      CallerState(s, t);
      assert ChainOk(s, s.seat[t], None);
      LeftIs(s, s.seat[t], t);
    }

    lemma ReplyEffects(s: State, t: Tid)
      requires Inv(s, None) && t in s.threads && s.threads[t].error == Ok && t in s.seat && s.seat[t] in s.chains
      requires s.threads[t].stack.Some? && s.threads[t].stack.value in s.txns
      requires s.txns[s.threads[t].stack.value].toThread == Some(t) && s.txns[s.threads[t].stack.value].from.Some?
      ensures var x := s.threads[t].stack.value; var u := s.txns[x].from.value; var r := s.seat[t];
              && u in s.threads && s.chains[r].Shaped() && s.chains[r].Received()
              && r in Leave(s, r, t).chains && u in Leave(s, r, t).threads && x in Leave(s, r, t).txns
              && x == s.chains[r].xs[|s.chains[r].xs| - 1]
              && var s2 := Noted(Pop(Leave(s, r, t), r, u, s.threads[u].error, s.threads[u].error2), u, [Message],
                                 s.threads[u].error, s.threads[u].error2);
                 t in s2.threads && WasAnswered(s, Noted(s2, t, [Complete], Ok, Ok), t, u, x)
    {
      CallerState(s, t);
      ErrorsOfOk(s, t);
      var r := s.seat[t];
      var c := s.chains[r];
      assert ChainOk(s, r, None);
      assert Made(s.txns, c, |c.xs| - 1) && SeatedAt(s.threads, c, |c.xs| - 1);
      AnsweredIs(s, t, s.txns[s.threads[t].stack.value].from.value, r);
    }

    /** Line 1352: the thread takes the call it answers off its stack. */
    method LeaveCall(t: Tid, x: Xid)
      requires Valid() && t in threads && threads[t].stack == Some(x) && threads[t].error2 == Ok
      requires t in seat && seat[t] in chains && chains[seat[t]].Shaped() && ChainOk(St(), seat[t], None)
      requires var c := chains[seat[t]]; c.Received() && c.who[|c.xs|] == Some(t) && x == c.xs[|c.xs| - 1]
      requires x in txns
      modifies this
      ensures St() == Leave(old(St()), old(seat[t]), t)
      ensures Inv(St(), Some(old(seat[t])))
    {
      ghost var r := seat[t];
      ghost var c := chains[r];
      LeaveInv(St(), r, t);
      assert ReceivedAt(txns, c, |c.xs|);
      threads := threads[t := threads[t].(stack := txns[x].toParent)];
      chains := chains[r := Chain(c.xs, c.who[..|c.xs|])];
      seat := if Some(t) in c.who[..|c.xs|] then seat else seat - {t};
    }

    /** Lines 1741-1744: the sender is told that its command is done with, the caller that the call failed. */
    method FailOwn(t: Tid, x: Xid, ghost r: Xid, code: Code) returns (ghost mid: State)
      requires Inv(St(), Some(r)) && t in threads && code != Ok
      requires threads[t].error == Ok && threads[t].error2 == Ok
      requires r in chains && chains[r].xs != [] && x == chains[r].xs[|chains[r].xs| - 1]
      modifies this
      ensures Valid()
      ensures mid == Noted(old(St()), t, [], TransactionComplete, Ok) && Inv(mid, Some(r))
      ensures St() == Fail(mid, r, code) && ToldNearest(mid, St(), r, code)
    {
      ErrorInv(St(), Some(r), t, TransactionComplete, Ok);
      SetError(t, TransactionComplete);
      mid := St();
      SendFailedReply(x, code, r);
    }

    /** Lines 1681 and 1697-1699: the answered call is freed, the reply and the completion notice are queued. */
    method DeliverReply(t: Tid, u: Tid, x: Xid, ghost r: Xid)
      requires Inv(St(), Some(r)) && t in threads && u in threads && t != u
      requires r in chains && chains[r].xs != [] && x == chains[r].xs[|chains[r].xs| - 1]
      requires x in txns && txns[x].from == Some(u) && threads[t].error == Ok
      modifies this
      ensures Valid()
      ensures |old(chains)[r].who| == |old(chains)[r].xs|
      ensures var s := old(St());
              var th := s.threads[u];
              var s2 := Noted(Pop(s, r, u, th.error, th.error2), u, [Message], th.error, th.error2);
              St() == Noted(s2, t, [Complete], Ok, Ok)
    {
      ghost var s := St();
      LastHop(s, r);
      assert ThreadOk(s, u, Some(r)) && ThreadOk(s, t, Some(r));
      var e, e2 := threads[u].error, threads[u].error2;
      PopInv(s, r, u, e, e2);
      PopTransaction(Some(u), x, r, e, e2);
      ghost var s1 := St();
      assert ThreadOk(s1, u, None);
      NotedInv(s1, u, Message, e, e2);
      threads := threads[u := threads[u].(todo := threads[u].todo + [Message])];
      ghost var s2 := St();
      assert s2 == Noted(s1, u, [Message], e, e2);
      assert ThreadOk(s2, t, None);
      NotedInv(s2, t, Complete, Ok, Ok);
      threads := threads[t := threads[t].(todo := threads[t].todo + [Complete])];
    }

    method SetError(t: Tid, code: Code)
      requires t in threads
      modifies this`threads
      ensures St() == Noted(old(St()), t, [], code, old(threads[t].error2))
    {
      assert threads[t].todo + [] == threads[t].todo;
      threads := threads[t := threads[t].(error := code)];
    }

    /** Lines 1462-1468 and 1684-1686. */
    method PushCall(t: Tid, x: Xid, p: Pid, target: Option<Tid>)
      requires Valid() && t in threads
      requires t in seat ==> seat[t] in chains
      modifies this
      ensures St() == Push(old(St()), t, x, p, target)
    {
      txns := txns[x := Txn(Some(t), threads[t].stack, Some(p), target, None)];
      threads := threads[t := threads[t].(stack := Some(x))];
      ghost var r := if t in seat then seat[t] else x;
      ghost var c := if t in seat then chains[r] else Chain([], [Some(t)]);
      home := home[x := (r, |c.xs|)];
      chains := chains[r := Chain(c.xs + [x], c.who)];
      seat := seat[t := r];
    }

    /** binder_transaction of a one-way call that goes on the process's list: no stack is involved. */
    method SendOneWay(t: Tid, callee: Callee, built: bool)
      requires Valid() && t in threads && threads[t].error == Ok && (callee.InProc? ==> callee.p in procTodo)
      modifies this
      ensures Valid()
      ensures St() == match callee
                      case InProc(p) =>
                        if built then Noted(ProcNoted(old(St()), p), t, [Complete], Ok, Ok)
                        else Noted(old(St()), t, [], FailedReply, Ok)
                      case BadHandle => Noted(old(St()), t, [], FailedReply, Ok)
                      case Gone => Noted(old(St()), t, [], DeadReply, Ok)
      ensures var s := old(St());
              if callee.InProc? && built then
                && txns == s.txns && procTodo == s.procTodo[callee.p := s.procTodo[callee.p] + [Message]]
                && threads == s.threads[t := s.threads[t].(todo := s.threads[t].todo + [Complete])]
              else WasRefused(s, St(), t, if callee.Gone? then DeadReply else FailedReply)
    {
      ghost var s := St();
      ErrorsOfOk(s, t);
      if !callee.InProc? || !built {
        RefusedIs(s, t, if callee.Gone? then DeadReply else FailedReply);
        Refuse(t, if callee.Gone? then DeadReply else FailedReply);
        return;
      }
      var p := callee.p;
      ProcNotedInv(s, p);
      procTodo := procTodo[p := procTodo[p] + [Message]];
      assert St() == ProcNoted(s, p);
      NotedInv(St(), t, Complete, Ok, Ok);
      threads := threads[t := threads[t].(todo := threads[t].todo + [Complete])];
    }

    /** Lines 2161-2176: the pending errors are reported, the older first; `room` tells whether both fit. */
    method ReadErrors(t: Tid, room: bool) returns (reported: seq<Code>)
      requires Valid() && t in threads
      modifies this`threads
      ensures Valid()
      ensures var th := old(threads)[t];
              reported == if th.error == Ok then []
                          else if th.error2 == Ok then [th.error]
                          else if room then [th.error2, th.error] else [th.error2]
      ensures var th := old(threads)[t];
              threads == old(threads)[t := if th.error2 != Ok && !room then th
                                           else if th.error != Ok then th.(error := Ok, error2 := Ok) else th]
      ensures room ==> reported == Codes(old(threads)[t]) && Codes(threads[t]) == []
    {
      ghost var s := St();
      assert ThreadOk(s, t, None);
      reported := [];
      if threads[t].error != Ok {
        if threads[t].error2 != Ok {
          reported := [threads[t].error2];
          if !room {
            return;
          }
        }
        reported := reported + [threads[t].error];
        ErrorInv(s, None, t, Ok, Ok);
        assert threads[t].todo + [] == threads[t].todo;
        threads := threads[t := threads[t].(error := Ok, error2 := Ok)];
      } else {
        ErrorsOfOk(s, t);
      }
    }

    /**
      One turn of the loop at line 2225: thread `t` takes the first item of its own
      list, or, when it was waiting for process work with an empty stack, of its
      process's list.  A synchronous call goes on the thread's stack.
     */
    method ReadWork(t: Tid, waitForProcWork: bool) returns (w: Option<Work>)
      requires Valid() && t in threads && threads[t].proc in procTodo
      requires waitForProcWork ==> threads[t].stack == None
      modifies this
      ensures Valid()
      ensures var s := old(St()); var p := s.threads[t].proc;
              if s.threads[t].todo != [] then
                && w == Some(s.threads[t].todo[0])
                && var s1 := TakenFromThread(s, t);
                   if !w.value.Call? then St() == s1
                   else w.value.x in s1.home && s1.home[w.value.x].0 in s1.chains && w.value.x in s1.txns
                        && s1.chains[s1.home[w.value.x].0].xs != []
                        && s1.chains[s1.home[w.value.x].0].xs[|s1.chains[s1.home[w.value.x].0].xs| - 1] == w.value.x
                        && St() == Receive(s1, s1.home[w.value.x].0, t)
              else if waitForProcWork && s.procTodo[p] != [] then
                && w == Some(s.procTodo[p][0])
                && var s1 := TakenFromProc(s, p);
                   if !w.value.Call? then St() == s1
                   else w.value.x in s1.home && s1.home[w.value.x].0 in s1.chains && w.value.x in s1.txns
                        && s1.chains[s1.home[w.value.x].0].xs != []
                        && s1.chains[s1.home[w.value.x].0].xs[|s1.chains[s1.home[w.value.x].0].xs| - 1] == w.value.x
                        && St() == Receive(s1, s1.home[w.value.x].0, t)
              else w == None && St() == s
      ensures var s := old(St()); var th := s.threads[t];
              && (w.Some? <==> th.todo != [] || (waitForProcWork && s.procTodo[th.proc] != []))
              && (w.Some? ==> w == Some(if th.todo != [] then th.todo[0] else s.procTodo[th.proc][0]))
              && (w.Some? && w.value.Call? ==> w.value.x in s.txns && WasReceived(s, St(), t, w.value.x, th.todo != []))
              && (w.Some? && !w.value.Call? ==>
                    && txns == s.txns
                    && threads == s.threads[t := if th.todo != [] then th.(todo := th.todo[1..]) else th]
                    && procTodo == if th.todo != [] then s.procTodo
                        else s.procTodo[th.proc := s.procTodo[th.proc][1..]])
    {
      ghost var s := St();
      var p := threads[t].proc;
      if threads[t].todo != [] {
        w := Some(threads[t].todo[0]);
        HeadCallInfo(s, t);
        TakenFromThreadInv(s, t);
        threads := threads[t := threads[t].(todo := threads[t].todo[1..])];
        assert St() == TakenFromThread(s, t);
      } else if procTodo[p] != [] && waitForProcWork {
        w := Some(procTodo[p][0]);
        HeadProcCallInfo(s, t, p);
        TakenFromProcInv(s, p);
        procTodo := procTodo[p := procTodo[p][1..]];
        assert St() == TakenFromProc(s, p);
      } else {
        w := None;
        return;
      }
      if w.value.Call? {
        ReceivedIs(s, t, home[w.value.x].0, s.threads[t].todo != []);
        TakeCall(t, w.value.x);
      }
    }

    /** Lines 2431-2434. */
    method TakeCall(t: Tid, x: Xid)
      requires x in home && Inv(St(), Some(home[x].0)) && t in threads
      requires home[x].0 in chains && chains[home[x].0].Shaped() && ChainOk(St(), home[x].0, Some(home[x].0))
      requires x == chains[home[x].0].xs[|chains[home[x].0].xs| - 1] && x in txns && txns[x].from != Some(t)
      requires t in seat ==> seat[t] == home[x].0
      modifies this
      ensures Valid()
      ensures St() == Receive(old(St()), old(home[x].0), t)
    {
      ghost var r := home[x].0;
      ghost var c := chains[r];
      assert Made(txns, c, |c.xs| - 1);
      ReceiveInv(St(), r, t);
      txns := txns[x := txns[x].(toParent := threads[t].stack, toThread := Some(t))];
      threads := threads[t := threads[t].(stack := Some(x))];
      chains := chains[r := Chain(c.xs, c.who + [Some(t)])];
      seat := seat[t := r];
    }

    /** binder_free_thread */
    method FreeThread(t: Tid)
      requires Valid() && t in threads
      modifies this
      ensures Valid() && t !in threads
      ensures var s := old(St());
              && Inv(Kill(s, t), LooseAfterKill(s, t))
              && St() == match LooseAfterKill(s, t)
                         case Some(r) => Fail(Kill(s, t), r, DeadReply)
                         case None => Kill(s, t)
      ensures var s := old(St());
              LooseAfterKill(s, t).Some? ==> ToldNearest(Kill(s, t), St(), LooseAfterKill(s, t).value, DeadReply)
    {
      ghost var s := St();
      KillInv(s, t);
      CallerState(s, t);
      var thread := threads[t];
      threads := threads - {t};
      var sendReply := thread.stack.Some? && txns[thread.stack.value].toThread == Some(t);
      UnlinkStack(s, t, thread.stack);
      ghost var loose := LooseAfterKill(s, t);
      if loose.Some? {
        FailReaches(Kill(s, t), loose.value, DeadReply);
      }
      chains := Kill(s, t).chains;
      seat := Kill(s, t).seat;
      KilledList(s, t);
      if sendReply {
        ReceiverKilled(s, t);
        SendFailedReply(thread.stack.value, DeadReply, loose.value);
        ReleaseWork(thread.todo, None);
        FailKeepsThreads(Kill(s, t), loose.value, DeadReply, t);
      } else {
        NotServing(s, t);
        ReleaseWork(thread.todo, loose);
        if loose.Some? {
          FailKeepsThreads(Kill(s, t), loose.value, DeadReply, t);
        }
      }
    }

    /** The walk at lines 2557-2578. */
    method UnlinkStack(ghost s: State, t: Tid, stack: Option<Xid>)
      requires Inv(s, None) && t in s.threads && s.threads[t].stack == stack && txns == s.txns
      modifies this`txns
      ensures txns == Kill(s, t).txns
    {
      StackIsTop(s, None, t);
      if stack == None {
        return;
      }
      ghost var r := s.seat[t];
      ghost var c := s.chains[r];
      var cur := stack;
      ghost var m := UnlinkStart(s, t);
      while cur.Some?
        invariant -1 <= m < |c.xs|
        invariant txns == KilledTxns(s, r, t, m + 1)
        invariant m == -1 ==> cur == None
        invariant 0 <= m ==> cur == Some(c.xs[m]) && IsOwn(c, t, m)
        decreases m
      {
        var x := cur.value;
        ghost var p := UnlinkFacts(s, t, m);
        if txns[x].toThread == Some(t) {
          txns := txns[x := txns[x].(toProc := None, toThread := None)];
          cur := txns[x].toParent;
        } else if txns[x].from == Some(t) {
          txns := txns[x := txns[x].(from := None)];
          cur := txns[x].fromParent;
        } else {
          assert false;  // BUG()
        }
        m := p;
      }
    }

    /** binder_release_work on a list that holds no call, or only the last call of loose chain. */
    method ReleaseWork(list: seq<Work>, ghost loose: Option<Xid>)
      requires Inv(St(), loose) && NoCallTwice(list)
      requires loose.Some? ==>
                 && loose.value in chains && chains[loose.value].xs != []
                 && Call(chains[loose.value].xs[|chains[loose.value].xs| - 1]) in list
      requires forall x | Call(x) in list :: loose.Some? && x == chains[loose.value].xs[|chains[loose.value].xs| - 1]
      modifies this
      ensures Valid()
      ensures St() == match loose case Some(r) => Fail(old(St()), r, DeadReply) case None => old(St())
    {
      ghost var s := St();
      ghost var last := if loose.Some? then chains[loose.value].xs[|chains[loose.value].xs| - 1] else 0;
      var k := 0;
      while k < |list|
        invariant 0 <= k <= |list|
        invariant if loose.Some? && Call(last) in list[k..] then St() == s
                  else Valid() && St() == match loose case Some(r) => Fail(s, r, DeadReply) case None => s
      {
        assert list[k..] == [list[k]] + list[k + 1..];
        match list[k] {
          case Call(x) =>
            assert Call(x) in list && Call(x) !in list[k + 1..];
            SendFailedReply(x, DeadReply, loose.value);
          case Message =>
          case Complete =>
        }
        k := k + 1;
      }
    }

    method ReleaseFirst(p: Pid)
      requires Valid() && p in procTodo && procTodo[p] != []
      modifies this
      ensures Valid() && procTodo == old(procTodo)[p := old(procTodo)[p][1..]]
      ensures threads.Keys == old(threads).Keys && txns.Keys <= old(txns).Keys
      ensures var w := old(procTodo)[p][0]; w.Call? ==> w.x !in txns
      ensures FirstFailed(old(St()), St(), p)
    {
      ghost var s := St();
      var w := procTodo[p][0];
      TakenFromProcInv(s, p);
      assert ProcOk(s, p, None);
      assert w.Call? ==> w in procTodo[p];
      procTodo := procTodo[p := procTodo[p][1..]];
      assert St() == TakenFromProc(s, p);
      if w.Call? {
        PendingInfo(s, w.x);
        FailFreesLast(St(), home[w.x].0, DeadReply);
        FailReaches(St(), home[w.x].0, DeadReply);
        SendFailedReply(w.x, DeadReply, home[w.x].0);
      }
    }

    /** Lines 3081 and 3134: once its threads are gone, the process's own list is released and the process removed. */
    method ReleaseProc(p: Pid)
      requires Valid() && p in procTodo
      requires forall t | t in threads :: threads[t].proc != p
      modifies this
      ensures Valid() && procTodo == old(procTodo) - {p}
      ensures threads.Keys == old(threads).Keys && txns.Keys <= old(txns).Keys
      ensures forall x | Call(x) in old(procTodo)[p] :: CallFailed(old(St()), St(), x)
    {
      ghost var s0 := St();
      ghost var done := [];
      NoneFailed(s0, p);
      while procTodo[p] != []
        invariant Valid() && p in procTodo
        invariant procTodo == s0.procTodo[p := procTodo[p]]
        invariant threads.Keys == old(threads).Keys && txns.Keys <= old(txns).Keys
        invariant FailedSoFar(s0, St(), p, done)
        decreases |procTodo[p]|
      {
        ghost var s := St();
        ReleaseFirst(p);
        TurnFails(s0, s, St(), p, done);
        done := done + [s.procTodo[p][0]];
      }
      assert done == s0.procTodo[p];
      RemoveProcInv(St(), p);
      procTodo := procTodo - {p};
    }

    /** Lines 1696-1699: the call and the completion notice are queued. */
    method QueueCall(t: Tid, x: Xid)
      requires x in home && Inv(St(), Some(home[x].0)) && home[x].0 in chains && t in threads && threads[t].error == Ok
      requires var c := chains[home[x].0]; c.xs != [] && x == c.xs[|c.xs| - 1]
      requires x in txns && txns[x].toProc.Some? && txns[x].toProc.value in procTodo
      requires txns[x].toThread.Some? ==>
                 && txns[x].toThread.value in threads && threads[txns[x].toThread.value].proc == txns[x].toProc.value
                 && txns[x].toThread in chains[home[x].0].who && txns[x].from != txns[x].toThread
      modifies this`threads, this`procTodo
      ensures Valid()
      ensures St() == Noted(Enqueue(old(St()), x), t, [Complete], Ok, Ok)
    {
      ghost var s := St();
      ghost var r := home[x].0;
      assert ChainOk(s, r, Some(r)) && ThreadOk(s, t, Some(r));
      EnqueueInv(s, r, x);
      if txns[x].toThread.Some? {
        var u := txns[x].toThread.value;
        threads := threads[u := threads[u].(todo := threads[u].todo + [Call(x)])];
      } else {
        var p := txns[x].toProc.value;
        procTodo := procTodo[p := procTodo[p] + [Call(x)]];
      }
      assert St() == Enqueue(s, x);
      ErrorsOfOk(St(), t);
      NotedInv(St(), t, Complete, Ok, Ok);
      threads := threads[t := threads[t].(todo := threads[t].todo + [Complete])];
    }
  }

  // ----- the walk of an exiting thread's stack

  /** Where the walk starts: no call above that place starts or ends at the thread. */
  lemma UnlinkStart(s: State, t: Tid) returns (m: nat)
    requires Inv(s, None) && t in s.threads && t in s.seat
    ensures s.seat[t] in s.chains
    ensures var c := s.chains[s.seat[t]];
            && IsOwn(c, t, m) && s.threads[t].stack == Some(c.xs[m])
            && KilledTxns(s, s.seat[t], t, m + 1) == s.txns
  {
    StackIsTop(s, None, t);
    var c := s.chains[s.seat[t]];
    var p := LastPos(c.who, t);
    m := if p < |c.xs| then p else p - 1;
    KilledSkip(s, s.seat[t], t, m + 1, |c.xs|);
    KilledNone(s, s.seat[t], t);
  }

  /** No place is at or behind the chain's end. */
  lemma KilledNone(s: State, r: Xid, t: Tid)
    requires Inv(s, None) && r in s.chains
    ensures KilledTxns(s, r, t, |s.chains[r].xs|) == s.txns
  {
    forall x | x in s.txns && x in s.home && s.home[x].0 == r
      ensures s.home[x].1 < |s.chains[r].xs|
    {
      assert HomeOk(s, x);
    }
  }

  /** Places from `a` up to `b` where the thread does not occur make no difference. */
  lemma KilledSkip(s: State, r: Xid, t: Tid, a: nat, b: nat)
    requires r in s.chains && a <= b
    requires forall i | a <= i < b && i < |s.chains[r].who| :: s.chains[r].who[i] != Some(t)
    requires forall i | a < i <= b && i < |s.chains[r].who| :: s.chains[r].who[i] != Some(t)
    ensures KilledTxns(s, r, t, a) == KilledTxns(s, r, t, b)
  {
    forall x | x in s.txns && x in s.home && s.home[x].0 == r && a <= s.home[x].1 < b
      ensures KilledTxn(s.chains[r], s.home[x].1, s.txns[x], t) == s.txns[x]
    {
      var i := s.home[x].1;
      assert i + 1 < |s.chains[r].who| ==> s.chains[r].who[i + 1] != Some(t);
    }
  }

  lemma KilledStep(s: State, r: Xid, t: Tid, m: nat)
    requires Inv(s, None) && r in s.chains && m < |s.chains[r].xs|
    ensures s.chains[r].xs[m] in s.txns
    ensures KilledTxns(s, r, t, m) ==
            KilledTxns(s, r, t, m + 1)[s.chains[r].xs[m] := KilledTxn(s.chains[r], m, s.txns[s.chains[r].xs[m]], t)]
  {
    assert ChainOk(s, r, None);
    var c := s.chains[r];
    HomeAt(s.home, s.seat, r, c, m);
    forall x | x in s.txns && x in s.home && s.home[x] == (r, m)
      ensures x == c.xs[m]
    {
      assert HomeOk(s, x);
    }
  }

  /** Call `m` of the chain starts or ends at thread `t`. */
  ghost predicate IsOwn(c: Chain, t: Tid, m: nat) {
    && m < |c.xs| && m < |c.who|
    && (c.who[m] == Some(t) || (m + 1 < |c.who| && c.who[m + 1] == Some(t)))
  }

  /** One turn of the walk: what it finds at place `m`, what it leaves there, and the place `p` where it goes on. */
  lemma UnlinkFacts(s: State, t: Tid, m: nat) returns (p: int)
    requires Inv(s, None) && t in s.threads && t in s.seat && s.seat[t] in s.chains
    requires IsOwn(s.chains[s.seat[t]], t, m)
    ensures var r := s.seat[t]; var c := s.chains[r]; var x := c.xs[m]; var txns := KilledTxns(s, r, t, m + 1);
            && -1 <= p < m && (0 <= p ==> IsOwn(c, t, p))
            && x in s.txns && x in txns && txns[x] == s.txns[x]
            && (if s.txns[x].toThread == Some(t) then
                  && KilledTxns(s, r, t, p + 1) == txns[x := txns[x].(toProc := None, toThread := None)]
                  && s.txns[x].toParent == (if p < 0 then None else Some(c.xs[p]))
                else
                  && s.txns[x].from == Some(t)
                  && KilledTxns(s, r, t, p + 1) == txns[x := txns[x].(from := None)]
                  && s.txns[x].fromParent == (if p < 0 then None else Some(c.xs[p])))
  {
    var r := s.seat[t];
    var c := s.chains[r];
    OwnCall(s, t, m);
    KilledStep(s, r, t, m);
    if c.who[m] == Some(t) {
      p := m - 1;
    } else {
      p := UnlinkBelow(s, t, m);
    }
  }

  /**
    What the exit of thread `t` does to a transaction: an end at `t` is cleared, but for
    that of a call which is still on `t`'s list, and nothing else changes.
   */
  ghost predicate WasCut(s: State, s2: State, t: Tid, x: Xid)
    requires t in s.threads && x in s.txns && x in s2.txns
  {
    var a, b := s.txns[x], s2.txns[x];
    var received := a.toThread == Some(t) && Call(x) !in s.threads[t].todo;
    && b.from == (if a.from == Some(t) then None else a.from)
    && b.toThread == (if received then None else a.toThread) && b.toProc == (if received then None else a.toProc)
    && b.fromParent == a.fromParent && b.toParent == a.toParent
  }

  lemma KillCuts(s: State, t: Tid, x: Xid)
    requires Inv(s, None) && t in s.threads && x in s.txns
    ensures Kill(s, t).threads == s.threads - {t} && Kill(s, t).procTodo == s.procTodo
    ensures x in Kill(s, t).txns && WasCut(s, Kill(s, t), t, x)
  {
    assert HomeOk(s, x);
    var r, i := s.home[x].0, s.home[x].1;
    var c := s.chains[r];
    assert ChainOk(s, r, None) && ThreadOk(s, t, None);
    assert Made(s.txns, c, i) && SeatedAt(s.threads, c, i);
    HomeAt(s.home, s.seat, r, c, i);
    OnlySeat(s, r, t);
    if i + 1 < |c.who| {
      assert ReceivedAt(s.txns, c, i + 1) && SeatedAt(s.threads, c, i + 1);
      assert !Pending(s, x, None);
    } else {
      assert Queued(s.threads, s.procTodo, s.txns, c);
    }
  }

  lemma OnlySeat(s: State, r: Xid, t: Tid)
    requires Inv(s, None) && r in s.chains
    ensures Some(t) in s.chains[r].who ==> t in s.seat && s.seat[t] == r
  {
    assert ChainOk(s, r, None);
    if Some(t) in s.chains[r].who {
      var i :| 0 <= i < |s.chains[r].who| && s.chains[r].who[i] == Some(t);
      SeatOfMember(s.home, s.seat, r, s.chains[r], i);
    }
  }

  /** A call that the walk takes from its receiver was received, so it is on no list and its buffer was handed out. */
  lemma WalkedIsReceived(s: State, t: Tid, m: nat)
    requires Inv(s, None) && t in s.threads && t in s.seat && s.seat[t] in s.chains
    requires IsOwn(s.chains[s.seat[t]], t, m)
    requires s.chains[s.seat[t]].xs[m] in s.txns && s.txns[s.chains[s.seat[t]].xs[m]].toThread == Some(t)
    ensures forall u | u in s.threads :: Call(s.chains[s.seat[t]].xs[m]) !in s.threads[u].todo
    ensures forall p | p in s.procTodo :: Call(s.chains[s.seat[t]].xs[m]) !in s.procTodo[p]
  {
    var r := s.seat[t];
    var c := s.chains[r];
    OwnCall(s, t, m);
    assert ChainOk(s, r, None);
    HomeAt(s.home, s.seat, r, c, m);
    assert !Pending(s, c.xs[m], None);
    forall u | u in s.threads
      ensures Call(c.xs[m]) !in s.threads[u].todo
    {
      assert ThreadOk(s, u, None);
    }
    forall p | p in s.procTodo
      ensures Call(c.xs[m]) !in s.procTodo[p]
    {
      assert ProcOk(s, p, None);
    }
  }

  lemma OwnCall(s: State, t: Tid, m: nat)
    requires Inv(s, None) && t in s.threads && t in s.seat && s.seat[t] in s.chains
    requires IsOwn(s.chains[s.seat[t]], t, m)
    ensures var c := s.chains[s.seat[t]]; var x := c.xs[m];
            && x in s.txns && x in KilledTxns(s, s.seat[t], t, m + 1)
                && KilledTxns(s, s.seat[t], t, m + 1)[x] == s.txns[x]
            && (s.txns[x].toThread == Some(t) <==> c.who[m] != Some(t))
            && (s.txns[x].toThread == Some(t) ==>
                  KilledTxn(c, m, s.txns[x], t) == s.txns[x].(toProc := None, toThread := None))
            && (c.who[m] == Some(t) ==>
                  && s.txns[x].from == Some(t) && KilledTxn(c, m, s.txns[x], t) == s.txns[x].(from := None)
                  && s.txns[x].fromParent == (if m == 0 then None else Some(c.xs[m - 1])))
  {
    var r := s.seat[t];
    var c := s.chains[r];
    assert ChainOk(s, r, None);
    assert Made(s.txns, c, m);
    HomeAt(s.home, s.seat, r, c, m);
    if m + 1 < |c.who| {
      assert ReceivedAt(s.txns, c, m + 1) && SeatedAt(s.threads, c, m + 1);
    }
  }

  /** From an incoming call the walk goes to the place below; nothing in between is the thread's. */
  lemma UnlinkBelow(s: State, t: Tid, m: nat) returns (p: int)
    requires Inv(s, None) && t in s.threads && t in s.seat && s.seat[t] in s.chains
    requires m < |s.chains[s.seat[t]].xs| && m + 1 < |s.chains[s.seat[t]].who|
    requires s.chains[s.seat[t]].who[m + 1] == Some(t)
    ensures var c := s.chains[s.seat[t]];
            && -1 <= p < m && c.xs[m] in s.txns
            && s.txns[c.xs[m]].toParent == (if p < 0 then None else Some(c.xs[p]))
            && (0 <= p ==> c.who[p] == Some(t))
            && KilledTxns(s, s.seat[t], t, p + 1) == KilledTxns(s, s.seat[t], t, m)
  {
    var r := s.seat[t];
    var c := s.chains[r];
    assert ChainOk(s, r, None);
    assert ReceivedAt(s.txns, c, m + 1);
    NextDiffers(s.threads, s.txns, c, m + 1);
    BelowIsOutgoing(s.threads, s.txns, c, m + 1, t);
    p := LastPos(c.who[..m + 1], t);
    assert forall i | p < i < m + 1 :: c.who[i] == c.who[..m + 1][i];
    assert 0 <= p ==> c.who[p] == c.who[..m + 1][p];
    KilledSkip(s, r, t, p + 1, m);
  }

  /**
    An exiting thread's list holds the last call of the chain left loose, if that call
    was sent to it, and no other.
   */
  lemma KilledList(s: State, t: Tid)
    requires Inv(s, None) && t in s.threads
    ensures NoCallTwice(s.threads[t].todo)
    ensures forall x | Call(x) in s.threads[t].todo ::
              && t in s.seat && LooseAfterKill(s, t) == Some(s.seat[t]) && s.seat[t] in s.chains
              && s.chains[s.seat[t]].Shaped() && !s.chains[s.seat[t]].Received()
              && s.seat[t] in Kill(s, t).chains && Kill(s, t).chains[s.seat[t]].xs == s.chains[s.seat[t]].xs
              && x == s.chains[s.seat[t]].xs[|s.chains[s.seat[t]].xs| - 1]
    ensures LooseAfterKill(s, t).Some? ==>
              && t in s.seat && LooseAfterKill(s, t) == Some(s.seat[t]) && s.seat[t] in s.chains
              && s.chains[s.seat[t]].Shaped()
              && s.seat[t] in Kill(s, t).chains && Kill(s, t).chains[s.seat[t]].xs == s.chains[s.seat[t]].xs
              && (!s.chains[s.seat[t]].Received() ==>
                  Call(s.chains[s.seat[t]].xs[|s.chains[s.seat[t]].xs| - 1]) in s.threads[t].todo)
  {
    assert ThreadOk(s, t, None);
    forall x | Call(x) in s.threads[t].todo
      ensures t in s.seat && Pending(s, x, None) && s.home[x].0 == s.seat[t] && s.txns[x].toThread == Some(t)
    {
      ListedCallsAreOwn(s, t, x);
    }
    if t in s.seat {
      assert ChainOk(s, s.seat[t], None);
    }
  }

  /** A thread that was serving a call had received the last call of its chain, which is now loose. */
  lemma ReceiverKilled(s: State, t: Tid)
    requires Inv(s, None) && t in s.threads && s.threads[t].stack.Some? && s.threads[t].stack.value in s.txns
    requires s.txns[s.threads[t].stack.value].toThread == Some(t)
    ensures t in s.seat && LooseAfterKill(s, t) == Some(s.seat[t]) && s.seat[t] in s.chains
        && s.chains[s.seat[t]].Received()
    ensures s.chains[s.seat[t]].xs != [] && s.threads[t].stack.value ==
        s.chains[s.seat[t]].xs[|s.chains[s.seat[t]].xs| - 1]
  {
    CallerState(s, t);
  }

  lemma NotServing(s: State, t: Tid)
    requires Inv(s, None) && t in s.threads
    requires !(s.threads[t].stack.Some? && s.threads[t].stack.value in s.txns
               && s.txns[s.threads[t].stack.value].toThread == Some(t))
    ensures LooseAfterKill(s, t).Some? ==> !s.chains[s.seat[t]].Received()
  {
    StackIsTop(s, None, t);
    if LooseAfterKill(s, t).Some? && s.chains[s.seat[t]].Received() {
      var c := s.chains[s.seat[t]];
      LastPosIs(c.who, t, |c.xs|);
      LastReceivedAt(s.txns, c);
    }
  }

  lemma LastReceivedAt(txns: map<Xid, Txn>, c: Chain)
    requires c.Shaped() && c.Received() && Linked(txns, c)
    ensures c.xs[|c.xs| - 1] in txns && txns[c.xs[|c.xs| - 1]].toThread == c.who[|c.xs|]
  {
    assert ReceivedAt(txns, c, |c.xs|);
  }

  lemma FailFreesLast(s: State, r: Xid, code: Code)
    requires Inv(s, Some(r))
    ensures r in s.chains && s.chains[r].xs != []
    ensures s.chains[r].xs[|s.chains[r].xs| - 1] !in Fail(s, r, code).txns
    ensures Fail(s, r, code).threads.Keys == s.threads.Keys && Fail(s, r, code).txns.Keys <= s.txns.Keys
    ensures Fail(s, r, code).procTodo == s.procTodo
  {
    FailReaches(s, r, code);
    var c := s.chains[r];
    var k := NearestLiving(c.who, |c.xs|);
    if 0 <= k {
      assert c.xs[k..][|c.xs| - 1 - k] == c.xs[|c.xs| - 1];
    }
  }

  lemma FailKeepsThreads(s: State, r: Xid, code: Code, t: Tid)
    requires Inv(s, Some(r)) && t !in s.threads
    ensures t !in Fail(s, r, code).threads
  {
    FailReaches(s, r, code);
  }

  /** A call on a thread's own list is the last of the thread's chain, and was not made by the thread. */
  lemma HeadCallInfo(s: State, t: Tid)
    requires Inv(s, None) && t in s.threads && s.threads[t].todo != []
    ensures s.threads[t].todo[0].Call? ==> CallInfo(s, t, s.threads[t].todo[0].x)
  {
    var w := s.threads[t].todo[0];
    if w.Call? {
      assert Call(w.x) in s.threads[t].todo;
      ListedCallsAreOwn(s, t, w.x);
      PendingInfo(s, w.x);
      assert ThreadOk(s, t, None);
    }
  }

  lemma HeadProcCallInfo(s: State, t: Tid, p: Pid)
    requires Inv(s, None) && t in s.threads && p in s.procTodo && s.procTodo[p] != [] && s.threads[t].stack == None
    ensures s.procTodo[p][0].Call? ==> CallInfo(s, t, s.procTodo[p][0].x)
  {
    var w := s.procTodo[p][0];
    assert ProcOk(s, p, None);
    if w.Call? {
      assert Call(w.x) in s.procTodo[p];
      PendingInfo(s, w.x);
      StackIsTop(s, None, t);
      var c := s.chains[s.home[w.x].0];
      assert Made(s.txns, c, |c.xs| - 1);
      assert c.who[|c.xs| - 1].Some? ==> c.who[|c.xs| - 1].value in s.seat;
    }
  }

  /** Call `x` can go on thread `t`'s stack. */
  ghost predicate CallInfo(s: State, t: Tid, x: Xid) {
    && x in s.home && x in s.txns && s.home[x].0 in s.chains && s.chains[s.home[x].0].Shaped()
    && x == s.chains[s.home[x].0].xs[|s.chains[s.home[x].0].xs| - 1]
    && s.txns[x].from != Some(t)
    && (t in s.seat ==> s.seat[t] == s.home[x].0)
  }

  lemma PendingInfo(s: State, x: Xid)
    requires Inv(s, None) && Pending(s, x, None)
    ensures s.home[x].0 in s.chains && s.chains[s.home[x].0].Shaped() && ChainOk(s, s.home[x].0, None)
    ensures x == s.chains[s.home[x].0].xs[|s.chains[s.home[x].0].xs| - 1]
    ensures Queued(s.threads, s.procTodo, s.txns, s.chains[s.home[x].0])
  {
    assert ChainOk(s, s.home[x].0, None);
  }

  /** A thread with no pending error has no second one either. */
  lemma ErrorsOfOk(s: State, t: Tid)
    requires Inv(s, None) && t in s.threads && s.threads[t].error == Ok
    ensures s.threads[t].error2 == Ok
  {
    assert ThreadOk(s, t, None);
  }

  /** A thread is in no chain, or it waits for a call it made, or it serves the last call of its chain. */
  lemma CallerState(s: State, t: Tid)
    requires Inv(s, None) && t in s.threads
    ensures s.threads[t].stack.Some? <==> t in s.seat
    ensures t in s.seat ==>
              && s.seat[t] in s.chains && s.chains[s.seat[t]].Shaped()
              && s.threads[t].stack.value in s.txns
              && var c := s.chains[s.seat[t]]; var x := s.threads[t].stack.value;
                 && (s.txns[x].toThread == Some(t) <==> !Outgoing(s.txns, Some(x), t))
                 && (s.txns[x].toThread == Some(t) ==>
                       c.Received() && c.who[|c.xs|] == Some(t) && x == c.xs[|c.xs| - 1])
  {
    StackIsTop(s, None, t);
    if t in s.seat {
      var c := s.chains[s.seat[t]];
      assert Made(s.txns, c, |c.xs| - 1);
      IncomingTop(s.threads, s.txns, c, t);
    }
  }

  // ----- what becomes of the calls of a process that goes

  /**
    Call `x`, the unreceived last call of its chain in `s0`, has failed in `s`: its
    nearest living caller has the error.
   */
  ghost predicate CallFailed(s0: State, s: State, x: Xid) {
    && x in s0.home && s0.home[x].0 in s0.chains && s0.chains[s0.home[x].0].Shaped()
    && var c := s0.chains[s0.home[x].0];
       && |c.who| == |c.xs|
       && var k := NearestLiving(c.who, |c.xs|);
          && (forall y | y in From(c.xs, k) :: y !in s.txns)
          && x !in s.txns
          && (0 <= k ==>
                var u := c.who[k].value;
                && u in s0.threads && u in s.threads
                && var th := s0.threads[u];
                   s.threads[u] == th.(stack := if k == 0 then None else Some(c.xs[k - 1]),
                                       error := DeadReply, error2 := th.error))
  }

  /** The chain of call `x` is as it was in `s0`, and so are its threads. */
  ghost predicate Unfailed(s0: State, s: State, x: Xid) {
    && x in s0.home && x in s.home && s.home[x] == s0.home[x]
    && var r := s0.home[x].0;
       && r in s0.chains && r in s.chains && s.chains[r] == s0.chains[r]
       && s0.chains[r].Shaped() && |s0.chains[r].who| == |s0.chains[r].xs|
       && ChainOk(s0, r, None) && x == s0.chains[r].xs[|s0.chains[r].xs| - 1]
       && forall i | 0 <= i < |s0.chains[r].who| && s0.chains[r].who[i].Some? ::
            var u := s0.chains[r].who[i].value; u in s0.threads && u in s.threads && s.threads[u] == s0.threads[u]
  }

  /** One call of the list fails. */
  ghost predicate FirstFailed(s: State, s2: State, p: Pid) {
    && p in s.procTodo && s.procTodo[p] != []
    && var w := s.procTodo[p][0];
       if w.Call? then
         && w.x in s.home && s.home[w.x].0 in s.chains && s.chains[s.home[w.x].0].Shaped()
         && var c := s.chains[s.home[w.x].0];
            && |c.who| == |c.xs|
            && Reached(TakenFromProc(s, p), s2, s.home[w.x].0, NearestLiving(c.who, |c.xs|), DeadReply)
       else s2 == TakenFromProc(s, p)
  }

  /** A thread in the chain of one call is not in the chain of another. */
  lemma OtherChainsThreads(s0: State, s: State, x: Xid, y: Xid, i: nat, j: nat)
    requires Inv(s0, None) && Pending(s0, x, None) && Pending(s0, y, None) && x != y
    requires Unfailed(s0, s, y) && s0.home[x].0 in s0.chains && ChainOk(s0, s0.home[x].0, None)
    requires i < |s0.chains[s0.home[x].0].who| && j < |s0.chains[s0.home[y].0].who|
    ensures s0.home[x].0 != s0.home[y].0
    ensures s0.chains[s0.home[x].0].who[i].Some? ==> s0.chains[s0.home[x].0].who[i] != s0.chains[s0.home[y].0].who[j]
  {
    if s0.home[x].0 == s0.home[y].0 {
      PendingUnique(s0, x, y, None);
    }
  }

  lemma JustFailed(s0: State, s: State, s2: State, p: Pid)
    requires FirstFailed(s, s2, p) && s.procTodo[p][0].Call? && Unfailed(s0, s, s.procTodo[p][0].x)
    ensures CallFailed(s0, s2, s.procTodo[p][0].x)
  {
    var x := s.procTodo[p][0].x;
    var c := s0.chains[s0.home[x].0];
    var k := NearestLiving(c.who, |c.xs|);
    assert c.xs[|c.xs| - 1] in From(c.xs, k) by {
      if 0 <= k {
        assert c.xs[k..][|c.xs| - 1 - k] == x;
      }
    }
  }

  lemma StaysFailed(s0: State, s: State, s2: State, p: Pid, x: Xid)
    requires Inv(s0, None) && FirstFailed(s, s2, p) && CallFailed(s0, s, x) && Pending(s0, x, None)
    requires var w := s.procTodo[p][0]; w.Call? ==> Unfailed(s0, s, w.x) && Pending(s0, w.x, None) && w.x != x
    ensures CallFailed(s0, s2, x)
  {
    var w := s.procTodo[p][0];
    assert ChainOk(s0, s0.home[x].0, None);
    var c := s0.chains[s0.home[x].0];
    var k := NearestLiving(c.who, |c.xs|);
    if w.Call? {
      var d := s0.chains[s0.home[w.x].0];
      var m := NearestLiving(d.who, |d.xs|);
      if 0 <= k && 0 <= m {
        OtherChainsThreads(s0, s, x, w.x, k, m);
      }
    }
  }

  lemma StaysUnfailed(s0: State, s: State, s2: State, p: Pid, x: Xid)
    requires Inv(s0, None) && Inv(s2, None) && FirstFailed(s, s2, p) && Unfailed(s0, s, x) && Pending(s0, x, None)
    requires var w := s.procTodo[p][0]; w.Call? ==> Unfailed(s0, s, w.x) && Pending(s0, w.x, None) && w.x != x
    ensures Unfailed(s0, s2, x)
  {
    var w := s.procTodo[p][0];
    var r := s0.home[x].0;
    var c := s0.chains[r];
    if w.Call? {
      var d := s0.chains[s0.home[w.x].0];
      var m := NearestLiving(d.who, |d.xs|);
      OtherChainsThreads(s0, s, x, w.x, 0, 0);
      assert s2.chains[r] == c;
      assert ChainOk(s2, r, None);
      HomeAt(s2.home, s2.seat, r, c, |c.xs| - 1);
      HomeAt(s0.home, s0.seat, r, c, |c.xs| - 1);
      if 0 <= m {
        forall i | 0 <= i < |c.who| && c.who[i].Some?
          ensures c.who[i] != d.who[m]
        {
          OtherChainsThreads(s0, s, x, w.x, i, m);
        }
      }
    }
  }

  /** The items `done` of process `p`'s list were released, and their callers told; the others were not. */
  ghost predicate FailedSoFar(s0: State, s: State, p: Pid, done: seq<Work>) {
    && p in s0.procTodo && p in s.procTodo && s0.procTodo[p] == done + s.procTodo[p]
    && (forall x | Call(x) in done :: CallFailed(s0, s, x))
    && (forall x | Call(x) in s.procTodo[p] :: Unfailed(s0, s, x))
  }

  lemma NoneFailed(s: State, p: Pid)
    requires Inv(s, None) && p in s.procTodo
    ensures FailedSoFar(s, s, p, [])
  {
    assert ProcOk(s, p, None);
    forall x | Call(x) in s.procTodo[p]
      ensures Unfailed(s, s, x)
    {
      PendingInfo(s, x);
    }
  }

  lemma TurnFails(s0: State, s: State, s2: State, p: Pid, done: seq<Work>)
    requires Inv(s0, None) && Inv(s2, None) && FailedSoFar(s0, s, p, done) && s.procTodo[p] != []
    requires p in s2.procTodo && s2.procTodo[p] == s.procTodo[p][1..] && FirstFailed(s, s2, p)
    ensures FailedSoFar(s0, s2, p, done + [s.procTodo[p][0]])
  {
    var w := s.procTodo[p][0];
    assert w in s.procTodo[p];
    assert ProcOk(s0, p, None);
    assert s0.procTodo[p] == (done + [w]) + s2.procTodo[p];
    forall x | Call(x) in done + [w]
      ensures CallFailed(s0, s2, x)
    {
      if Call(x) == w {
        JustFailed(s0, s, s2, p);
      } else {
        assert Call(x) in s0.procTodo[p] && w in s0.procTodo[p];
        StaysFailed(s0, s, s2, p, x);
      }
    }
    forall x | Call(x) in s2.procTodo[p]
      ensures Unfailed(s0, s2, x)
    {
      assert Call(x) in s.procTodo[p];
      assert Call(x) in s0.procTodo[p] && w in s0.procTodo[p];
      var i :| 0 <= i < |s2.procTodo[p]| && s2.procTodo[p][i] == Call(x);
      assert s0.procTodo[p][|done|] == w && s0.procTodo[p][|done| + 1 + i] == Call(x);
      StaysUnfailed(s0, s, s2, p, x);
    }
  }
}
