/**
  The driver's nodes, references and buffers together, from the first process on.
  Every buffer is released at most once, by the process that it was made for, and
  what happens to nodes and references happens by the commands below: so the local
  counts are never below zero, the context manager's node stays, and every owner is
  sent what the protocol of counts promises it.
 */
module Driver {
  import opened Options
  import opened Sequences
  import opened NodeRefs
  import opened Persistence
  import opened Translation
  import opened Release
  import opened Undo
  import opened ProcExit
  import opened RefTable
  import opened Ledger
  import OwnerProtocol

  // ----- the buffers of a process

  /** What all the buffers of a process stand for. */
  function Sum(kss: seq<seq<Key>>): multiset<Key>
    decreases |kss|
  {
    if kss == [] then multiset{} else Sum(kss[..|kss| - 1]) + multiset(kss[|kss| - 1])
  }

  lemma SumMore(kss: seq<seq<Key>>, ks: seq<Key>)
    ensures Sum(kss + [ks]) == Sum(kss) + multiset(ks)
  {
    assert (kss + [ks])[..|kss|] == kss;
  }

  lemma {:induction false} SumWithout(kss: seq<seq<Key>>, i: nat)
    requires i < |kss|
    ensures Sum(kss) == Sum(WithoutAt(kss, i)) + multiset(kss[i])
    decreases |kss|
  {
    var m := |kss| - 1;
    var pre := kss[..m];
    assert Sum(kss) == Sum(pre) + multiset(kss[m]);
    if i == m {
      assert WithoutAt(kss, i) == pre;
    } else {
      SumWithout(pre, i);
      SumMore(WithoutAt(pre, i), kss[m]);
      assert WithoutAt(kss, i) == WithoutAt(pre, i) + [kss[m]];
    }
  }

  function Live(keys: map<Pid, seq<seq<Key>>>): Holdings {
    map p | p in keys :: Sum(keys[p])
  }

  ghost predicate BuffersOk(s: State, p: Pid, bs: seq<Buffer>, kss: seq<seq<Key>>) {
    |kss| == |bs| && forall i {:trigger bs[i]} {:trigger kss[i]} | 0 <= i < |bs| :: BufferOk(s, p, bs[i], kss[i])
  }

  /** The nodes, the buffers, what these stand for, and what was said to owners, all in step. */
  ghost predicate Consistent(s: State, buffers: map<Pid, seq<Buffer>>, keys: map<Pid, seq<seq<Key>>>, logs: Logs) {
    && Matched(s, Live(keys), logs)
    && buffers.Keys == keys.Keys == s.procs.Keys
    && AllBuffers(s, buffers, keys)
  }

  ghost predicate AllBuffers(s: State, buffers: map<Pid, seq<Buffer>>, keys: map<Pid, seq<seq<Key>>>)
    requires buffers.Keys == keys.Keys
  {
    forall p {:trigger BuffersOf(s, buffers, keys, p)} | p in keys :: BuffersOf(s, buffers, keys, p)
  }

  ghost predicate BuffersOf(s: State, buffers: map<Pid, seq<Buffer>>, keys: map<Pid, seq<seq<Key>>>, p: Pid)
    requires p in buffers && p in keys
  {
    BuffersOk(s, p, buffers[p], keys[p])
  }

  lemma BufferStays(s: State, s2: State, live2: Holdings, logs2: Logs, p: Pid, b: Buffer, ks: seq<Key>)
    requires Inv(s) && BufferOk(s, p, b, ks) && Persists(s, s2) && Matched(s2, live2, logs2)
    requires p in live2 && multiset(ks) <= live2[p]
    ensures BufferOk(s2, p, b, ks)
  {
    EntriesStay(s, s2, live2, logs2, p, BufferObjects(s, b.target, b.objects), ks);
    if b.target.Some? {
      assert ks[0] in multiset(ks);
      assert BufferObjects(s, b.target, b.objects)[0] == TargetObject(s, b.target.value);
      assert EntryOk(s, p, TargetObject(s, b.target.value), ks[0]);
      assert KeyHeld(s2, p, ks[0]);
      assert NodePersists(s, s2, b.target.value);
    }
  }

  lemma BuffersStay(s: State, s2: State, live2: Holdings, logs2: Logs, p: Pid, bs: seq<Buffer>, kss: seq<seq<Key>>)
    requires Inv(s) && BuffersOk(s, p, bs, kss) && Persists(s, s2) && Matched(s2, live2, logs2)
    requires p in live2 && Sum(kss) <= live2[p]
    ensures BuffersOk(s2, p, bs, kss)
  {
    forall i | 0 <= i < |bs|
      ensures BufferOk(s2, p, bs[i], kss[i])
    {
      SumWithout(kss, i);
      BufferStays(s, s2, live2, logs2, p, bs[i], kss[i]);
    }
  }

  /** A step that leaves the buffers alone. */
  lemma ConsistentStays(s: State, s2: State, buffers: map<Pid, seq<Buffer>>, keys: map<Pid, seq<seq<Key>>>,
                        logs: Logs, logs2: Logs)
    requires Consistent(s, buffers, keys, logs) && Persists(s, s2) && Matched(s2, Live(keys), logs2)
    ensures Consistent(s2, buffers, keys, logs2)
  {
    forall p | p in keys
      ensures BuffersOf(s2, buffers, keys, p)
    {
      assert BuffersOf(s, buffers, keys, p);
      BuffersStay(s, s2, Live(keys), logs2, p, buffers[p], keys[p]);
    }
  }

  /** Process `p` has other buffers now, and the others have theirs. */
  lemma ConsistentBut(s: State, s2: State, buffers: map<Pid, seq<Buffer>>, keys: map<Pid, seq<seq<Key>>>, logs: Logs,
                      p: Pid, bs: seq<Buffer>, kss: seq<seq<Key>>)
    requires Consistent(s, buffers, keys, logs) && Persists(s, s2)
    requires Matched(s2, Live(keys)[p := Sum(kss)], logs) && BuffersOk(s2, p, bs, kss)
    ensures Consistent(s2, buffers[p := bs], keys[p := kss], logs)
  {
    LiveBut(keys, p, kss);
    OthersStay(s, s2, buffers, keys, logs, Live(keys)[p := Sum(kss)], p, bs, kss);
  }

  lemma OthersStay(s: State, s2: State, buffers: map<Pid, seq<Buffer>>, keys: map<Pid, seq<seq<Key>>>, logs: Logs,
                   live2: Holdings, p: Pid,
                   bs: seq<Buffer>, kss: seq<seq<Key>>)
    requires Consistent(s, buffers, keys, logs) && Persists(s, s2) && Matched(s2, live2, logs)
    requires live2 == Live(keys)[p := Sum(kss)] && BuffersOk(s2, p, bs, kss)
    ensures AllBuffers(s2, buffers[p := bs], keys[p := kss])
  {
    var buffers2, keys2 := buffers[p := bs], keys[p := kss];
    forall q | q in keys2
      ensures BuffersOf(s2, buffers2, keys2, q)
    {
      if q != p {
        OtherStays(s, s2, buffers, keys, logs, live2, q);
      }
    }
  }

  lemma LiveGone(keys: map<Pid, seq<seq<Key>>>, p: Pid)
    ensures Live(keys - {p}) == Live(keys) - {p}
  {
  }

  lemma LiveBut(keys: map<Pid, seq<seq<Key>>>, p: Pid, kss: seq<seq<Key>>)
    ensures Live(keys[p := kss]) == Live(keys)[p := Sum(kss)]
  {
  }

  lemma OtherStays(s: State, s2: State, buffers: map<Pid, seq<Buffer>>, keys: map<Pid, seq<seq<Key>>>, logs: Logs,
                   live2: Holdings, q: Pid)
    requires Consistent(s, buffers, keys, logs) && Persists(s, s2) && Matched(s2, live2, logs)
    requires q in keys && q in live2 && live2[q] == Sum(keys[q])
    ensures BuffersOk(s2, q, buffers[q], keys[q])
  {
    assert BuffersOf(s, buffers, keys, q);
    BuffersStay(s, s2, live2, logs, q, buffers[q], keys[q]);
  }

  /** A new buffer. */
  lemma ConsistentMore(s: State, s2: State, buffers: map<Pid, seq<Buffer>>, keys: map<Pid, seq<seq<Key>>>, logs: Logs,
                       p: Pid, b: Buffer, ks: seq<Key>)
    requires Consistent(s, buffers, keys, logs) && Persists(s, s2) && p in keys
    requires Matched(s2, Added(Live(keys), p, multiset(ks)), logs) && BufferOk(s2, p, b, ks)
    ensures Consistent(s2, buffers[p := buffers[p] + [b]], keys[p := keys[p] + [ks]], logs)
  {
    assert BuffersOf(s, buffers, keys, p);
    SumMore(keys[p], ks);
    assert Added(Live(keys), p, multiset(ks)) == Live(keys)[p := Sum(keys[p] + [ks])];
    BuffersStay(s, s2, Added(Live(keys), p, multiset(ks)), logs, p, buffers[p], keys[p]);
    MoreOk(s2, p, buffers[p], keys[p], b, ks);
    ConsistentBut(s, s2, buffers, keys, logs, p, buffers[p] + [b], keys[p] + [ks]);
  }

  /** A buffer that was released. */
  lemma ConsistentLess(s: State, s2: State, buffers: map<Pid, seq<Buffer>>, keys: map<Pid, seq<seq<Key>>>, logs: Logs,
                       p: Pid, i: nat)
    requires Consistent(s, buffers, keys, logs) && Persists(s, s2) && p in keys && i < |keys[p]| == |buffers[p]|
    requires Matched(s2, Removed(Live(keys), p, multiset(keys[p][i])), logs)
    ensures Consistent(s2, buffers[p := WithoutAt(buffers[p], i)], keys[p := WithoutAt(keys[p], i)], logs)
  {
    var bs, kss := WithoutAt(buffers[p], i), WithoutAt(keys[p], i);
    SumWithout(keys[p], i);
    assert Sum(keys[p]) - multiset(keys[p][i]) == Sum(kss);
    assert Removed(Live(keys), p, multiset(keys[p][i])) == Live(keys)[p := Sum(kss)];
    assert BuffersOf(s, buffers, keys, p);
    WithoutOk(s, p, buffers[p], keys[p], i);
    BuffersStay(s, s2, Removed(Live(keys), p, multiset(keys[p][i])), logs, p, bs, kss);
    ConsistentBut(s, s2, buffers, keys, logs, p, bs, kss);
  }

  lemma MoreOk(s: State, p: Pid, bs: seq<Buffer>, kss: seq<seq<Key>>, b: Buffer, ks: seq<Key>)
    requires BuffersOk(s, p, bs, kss) && BufferOk(s, p, b, ks)
    ensures BuffersOk(s, p, bs + [b], kss + [ks])
  {
  }

  lemma WithoutOk(s: State, p: Pid, bs: seq<Buffer>, kss: seq<seq<Key>>, i: nat)
    requires BuffersOk(s, p, bs, kss) && i < |bs|
    ensures BuffersOk(s, p, WithoutAt(bs, i), WithoutAt(kss, i))
  {
    forall j | 0 <= j < |bs| - 1
      ensures BufferOk(s, p, WithoutAt(bs, i)[j], WithoutAt(kss, i)[j])
    {
      var k := if j < i then j else j + 1;
      assert BufferOk(s, p, bs[k], kss[k]);
    }
  }

  /** Process `p` went with its buffers. */
  lemma ConsistentGone(s: State, s2: State, buffers: map<Pid, seq<Buffer>>, keys: map<Pid, seq<seq<Key>>>, logs: Logs,
                       p: Pid)
    requires Consistent(s, buffers, keys, logs) && Persists(s, s2) && Matched(s2, Live(keys) - {p}, logs)
    ensures Consistent(s2, buffers - {p}, keys - {p}, logs)
  {
    LiveGone(keys, p);
    forall q | q in keys - {p}
      ensures BuffersOf(s2, buffers - {p}, keys - {p}, q)
    {
      assert BuffersOf(s, buffers, keys, q);
      BuffersStay(s, s2, Live(keys - {p}), logs, q, buffers[q], keys[q]);
    }
  }

  /** Every count of process `p` is one less for each object that stands for it; a reference's stops at zero. */
  ghost predicate FreedFrom(s: State, s2: State, p: Pid, os: seq<Object>) {
    forall k: Key {:trigger Tally(s, p, os, k)} :: Count(s2, p, k) == Less(Count(s, p, k), Tally(s, p, os, k))
  }

  /** What releasing buffer `i` does to the counts. */
  lemma FreedCounts(s: State, buffers: map<Pid, seq<Buffer>>, keys: map<Pid, seq<seq<Key>>>, logs: Logs, p: Pid, i: nat)
    requires Consistent(s, buffers, keys, logs) && p in keys && i < |buffers[p]|
    ensures |keys[p]| == |buffers[p]|
    ensures var b := buffers[p][i];
            && (b.target.Some? ==> b.target.value in s.nodes && s.nodes[b.target.value].proc == Some(p))
            && FreedFrom(s, ReleaseBuffer(s, p, b.target, b.objects), p, BufferObjects(s, b.target, b.objects))
            && Matched(ReleaseBuffer(s, p, b.target, b.objects), Removed(Live(keys), p, multiset(keys[p][i])), logs)
  {
    assert BuffersOf(s, buffers, keys, p);
    var b := buffers[p][i];
    assert BufferOk(s, p, b, keys[p][i]);
    var all := BufferObjects(s, b.target, b.objects);
    SumWithout(keys[p], i);
    LedgerCovers(s, Live(keys), logs, p, all, keys[p][i]);
    ReleaseBufferIs(s, p, b.target, b.objects);
    ReleaseBufferMatched(s, Live(keys), logs, p, b.target, b.objects, keys[p][i]);
    forall k: Key
      ensures Count(ReleaseBuffer(s, p, b.target, b.objects), p, k) == Less(Count(s, p, k), Tally(s, p, all, k))
    {
      ReleaseCounts(s, p, all, k);
    }
  }

  /** BC_FREE_BUFFER of the process's buffer `i`. */
  lemma FreedStep(s: State, buffers: map<Pid, seq<Buffer>>, keys: map<Pid, seq<seq<Key>>>, logs: Logs, p: Pid, i: nat)
    requires Consistent(s, buffers, keys, logs) && p in keys && i < |buffers[p]|
    ensures |keys[p]| == |buffers[p]|
    ensures var b := buffers[p][i];
            && (b.target.Some? ==> b.target.value in s.nodes && s.nodes[b.target.value].proc == Some(p))
            && var s2 := ReleaseBuffer(s, p, b.target, b.objects);
               && FreedFrom(s, s2, p, BufferObjects(s, b.target, b.objects))
               && Consistent(s2, buffers[p := WithoutAt(buffers[p], i)], keys[p := WithoutAt(keys[p], i)], logs)
  {
    FreedCounts(s, buffers, keys, logs, p, i);
    var b := buffers[p][i];
    BufferPersists(s, p, b.target, b.objects);
    ConsistentLess(s, ReleaseBuffer(s, p, b.target, b.objects), buffers, keys, logs, p, i);
  }

  /** BC_INCREFS_DONE and BC_ACQUIRE_DONE, when accepted. */
  lemma AnswerStep(s: State, buffers: map<Pid, seq<Buffer>>, keys: map<Pid, seq<seq<Key>>>, logs: Logs, n: Nid,
                   strong: bool)
    requires Consistent(s, buffers, keys, logs) && n in s.nodes && s.nodes[n].proc.Some?
    requires if strong then s.nodes[n].pendingStrong else s.nodes[n].pendingWeak
    ensures n in OwnerProtocol.AnswerNode(s, n, strong).nodes
    ensures Consistent(OwnerProtocol.AnswerNode(s, n, strong), buffers, keys,
                       Logged(logs, n, OwnerProtocol.Done(strong)))
  {
    var s1 := s.(nodes := s.nodes[n := OwnerProtocol.Answered(s.nodes[n], strong)]);
    AnswerMatched(s, Live(keys), logs, n, strong);
    AnswerPersists(s, s1, n, strong);
    ConsistentStays(s, OwnerProtocol.AnswerNode(s, n, strong), buffers, keys, logs,
                    Logged(logs, n, OwnerProtocol.Done(strong)));
  }

  class Driver {
    const table: RefTable
    var buffers: map<Pid, seq<Buffer>>
    ghost var keys: map<Pid, seq<seq<Key>>>  // what the objects of each buffer stand for
    ghost var logs: Logs                     // what was said about each node

    ghost predicate Valid()
      reads this, table
    {
      table.Valid() && Consistent(table.View(), buffers, keys, logs)
    }

    constructor ()
      ensures fresh(table) && buffers == map[] && logs == map[]
      ensures Valid()
    {
      table := new RefTable();
      buffers, keys, logs := map[], map[], map[];
    }

    // ----- what holds in every run

    /** No owner's count is below zero, and the context manager's node is there. */
    lemma Counts()
      requires Valid()
      ensures LocalCounts(table.View())
      ensures table.contextMgr.Some? ==> table.contextMgr.value in table.nodes
    {
      MatchedCounts(table.View(), Live(keys), logs);
    }

    /** What an owner has been sent. */
    lemma OwnerSees(n: Nid)
      requires Valid() && n in table.nodes && table.nodes[n].proc.Some?
      ensures OwnerProtocol.SeenWell(table.nodes[n], LogOf(logs, n))
      ensures table.contextMgr == Some(n) ==> LogOf(logs, n) == []
    {
      MatchedOwnerSees(table.View(), Live(keys), logs, n);
    }

    // ----- the operations

    method Open(p: Pid)
      requires Valid() && p !in table.procs
      modifies this, table
      ensures buffers == old(buffers)[p := []] && logs == old(logs)
      ensures table.View() == old(table.View()).(procs := old(table.procs)[p := Proc(map[], map[], map[])])
      ensures Valid()
    {
      ghost var s := table.View();
      OpenMatched(s, Live(keys), logs, p);
      table.Open(p);
      ConsistentBut(s, table.View(), buffers, keys, logs, p, [], []);
      buffers, keys := buffers[p := []], keys[p := []];
    }

    method Keep(p: Pid, b: Buffer, ghost ks: seq<Key>)
      requires table.Valid() && p in buffers && p in keys
      requires Consistent(table.View(), buffers[p := buffers[p] + [b]], keys[p := keys[p] + [ks]], logs)
      modifies `buffers, `keys
      ensures logs == old(logs) && buffers == old(buffers)[p := old(buffers[p]) + [b]]
      ensures Valid()
    {
      buffers, keys := buffers[p := buffers[p] + [b]], keys[p := keys[p] + [ks]];
    }

    /** The objects of a transaction to process `p`: they arrive in a buffer, or no count has changed. */
    method Transact(sender: Pid, p: Pid, target: Option<Nid>, os: seq<Object>, mems: seq<Memory>) returns (ok: bool)
      requires Valid() && sender in table.procs && p in table.procs && |mems| == |os|
      requires target.Some? ==> target.value in table.nodes && table.nodes[target.value].proc == Some(p)
      modifies this, table
      ensures logs == old(logs)
      ensures var t := Transacted(old(table.View()), sender, p, target, os, mems);
              ok == t.0 && table.View() == t.1
                  && (ok ==> p in old(buffers) && buffers == old(buffers)[p := old(buffers[p]) + [Buffer(target, t.2)]])
      ensures !ok ==> buffers == old(buffers) && SameCounts(old(table.View()), table.View())
      ensures Valid()
    {
      ghost var s := table.View();
      Counts();
      ghost var ks := TransactMatched(s, Live(keys), logs, sender, p, target, os, mems);
      var out;
      ok, out := table.Transact(sender, p, target, os, mems);
      if ok {
        ConsistentMore(s, table.View(), buffers, keys, logs, p, Buffer(target, out), ks);
        Keep(p, Buffer(target, out), ks);
      } else {
        ConsistentStays(s, table.View(), buffers, keys, logs, logs);
      }
    }

    method Drop(p: Pid, i: nat)
      requires table.Valid() && p in buffers && p in keys && i < |buffers[p]| == |keys[p]|
      requires Consistent(table.View(), buffers[p := WithoutAt(buffers[p], i)], keys[p := WithoutAt(keys[p], i)], logs)
      modifies `buffers, `keys
      ensures logs == old(logs) && buffers == old(buffers)[p := WithoutAt(old(buffers[p]), i)]
      ensures Valid()
    {
      buffers, keys := buffers[p := WithoutAt(buffers[p], i)], keys[p := WithoutAt(keys[p], i)];
    }

    /** BC_FREE_BUFFER of the process's buffer `i`. */
    method FreeBuffer(p: Pid, i: nat)
      requires Valid() && p in buffers && i < |buffers[p]|
      modifies this, table
      ensures logs == old(logs) && buffers == old(buffers)[p := WithoutAt(old(buffers[p]), i)]
      ensures old(buffers[p][i].target.Some? ==> buffers[p][i].target.value in table.nodes)
      ensures var b := old(buffers[p][i]); var s := old(table.View());
              FreedFrom(s, table.View(), p, BufferObjects(s, b.target, b.objects))
      ensures Valid()
    {
      ghost var s := table.View();
      FreedStep(s, buffers, keys, logs, p, i);
      var b := buffers[p][i];
      ghost var s2 := ReleaseBuffer(s, p, b.target, b.objects);
      table.ReleaseBuffer(p, b.target, b.objects);
      assert table.View() == s2 && logs == old(logs) && buffers == old(buffers);
      Drop(p, i);
    }

    /** BC_INCREFS, BC_ACQUIRE, BC_RELEASE and BC_DECREFS */
    method CountCommand(p: Pid, desc: Desc, strong: bool, up: bool, memory: bool) returns (ok: bool)
      requires Valid() && p in table.procs
      modifies this, table
      ensures logs == old(logs) && buffers == old(buffers)
      ensures !ok <==> old(table.NullReference(p, desc, up, memory))
      ensures table.View() == if ok then CountRef(old(table.View()), p, desc, strong, up) else old(table.View())
      ensures Valid()
    {
      ghost var s := table.View();
      CountRefMatched(s, Live(keys), logs, p, desc, strong, up);
      ok := table.CountCommand(p, desc, strong, up, memory);
      ConsistentStays(s, table.View(), buffers, keys, logs, logs);
    }

    /** BC_INCREFS_DONE and BC_ACQUIRE_DONE */
    method Done(p: Pid, ptr: Ptr, cookie: Ptr, strong: bool) returns (done: bool)
      requires Valid() && p in table.procs
      modifies this, table
      ensures buffers == old(buffers)
      ensures var n := Denotes(old(table.View()), p, BinderObject(true, ptr, 0));
              && (done ==> n.Some? && n.value in table.nodes
                           && logs == Logged(old(logs), n.value, OwnerProtocol.Done(strong)))
              && (!done ==> logs == old(logs) && table.View() == old(table.View()))
      ensures Valid()
    {
      ghost var s := table.View();
      ghost var n := Denotes(s, p, BinderObject(true, ptr, 0));
      done := table.Done(p, ptr, cookie, strong);
      if done {
        assert ProcOk(s, p);
        AnswerStep(s, buffers, keys, logs, n.value, strong);
        assert table.View() == OwnerProtocol.AnswerNode(s, n.value, strong);
        logs := Logged(logs, n.value, OwnerProtocol.Done(strong));
      }
    }

    /** BINDER_WORK_NODE: the owner reads what there is about its node. */
    method ReadNodeWork(n: Nid) returns (command: Option<OwnerProtocol.Command>)
      requires Valid() && n in table.nodes && table.nodes[n].proc.Some? && table.nodes[n].queued
      modifies this, table
      ensures buffers == old(buffers)
      ensures command == OwnerProtocol.NodeCommand(old(table.nodes[n]))
      ensures logs == if command.Some? then Logged(old(logs), n, OwnerProtocol.Sent(command.value)) else old(logs)
      ensures Valid()
    {
      ghost var s := table.View();
      WorkMatched(s, Live(keys), logs, n);
      command := table.ReadNodeWork(n);
      ConsistentStays(s, table.View(), buffers, keys, logs, WorkLogs(s, logs, n));
      logs := WorkLogs(s, logs, n);
    }

    /** BINDER_SET_CONTEXT_MGR */
    method SetContextMgr(p: Pid, memory: bool) returns (ok: bool)
      requires Valid() && p in table.procs
      modifies this, table
      ensures logs == old(logs) && buffers == old(buffers)
      ensures ok <==> old(table.contextMgr).None? && old(0 !in table.procs[p].nodes) && memory
      ensures table.View() == if ok then Managed(old(table.View()), p) else old(table.View())
      ensures Valid()
    {
      ghost var s := table.View();
      ok := table.SetContextMgr(p, memory);
      if ok {
        ManagedMatched(s, Live(keys), logs, p);
        ConsistentStays(s, table.View(), buffers, keys, logs, logs);
      }
    }

    /** The process goes, and its buffers with it: their counts go with its nodes and references. */
    method ReleaseProc(p: Pid)
      requires Valid() && p in table.procs
      modifies this, table
      ensures logs == old(logs) && buffers == old(buffers) - {p}
      ensures Exited(old(table.View()), table.View(), p)
      ensures Valid()
    {
      ghost var s := table.View();
      table.ReleaseProc(p);
      ExitMatched(s, table.View(), Live(keys), logs, p);
      ConsistentGone(s, table.View(), buffers, keys, logs, p);
      buffers, keys := buffers - {p}, keys - {p};
    }
  }
}
