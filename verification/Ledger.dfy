/**
  A ledger of the local counts that the buffers of every process hold, and a log of
  what every owner was sent and answered.  Every operation on nodes and references
  keeps the two in step with the nodes: a node's local counts are the ledger's, one
  more while an answer is pending, and one more for the context manager's own; and
  what the owner was told is what its log says.
 */
module Ledger {
  import opened Options
  import opened NodeRefs
  import opened Handles
  import opened Persistence
  import opened Translation
  import opened Release
  import opened Undo
  import opened ProcExit
  import opened OwnerProtocol

  /** What the buffers of a process stand for, object by object. */
  type Holdings = map<Pid, multiset<Key>>

  type Logs = map<Nid, seq<Event>>

  function LogOf(logs: Logs, n: Nid): seq<Event> {
    if n in logs then logs[n] else []
  }

  function HeldOf(live: Holdings, p: Pid, n: Nid, strong: bool): nat {
    if p in live then live[p][Key(true, n, strong)] else 0
  }

  /** Node `n` with what holds it and what was said about it. */
  function WatchedAt(s: State, live: Holdings, logs: Logs, n: Nid): Watched
    requires n in s.nodes && s.nodes[n].proc.Some?
  {
    var p := s.nodes[n].proc.value;
    var own := if s.mgr == Some(n) then 1 else 0;
    Watched(s.nodes[n], HeldOf(live, p, n, true) + own, HeldOf(live, p, n, false) + own, LogOf(logs, n))
  }

  /** The context manager has its node's counts from the beginning, and is never sent anything about it. */
  ghost predicate WatchedOk(w: Watched, isMgr: bool) {
    if isMgr then Accounted(w) && ToldOf(w.d) == Told(true, true, false, false) && w.log == []
    else OwnerInv(w)
  }

  ghost predicate NodeMatched(s: State, live: Holdings, logs: Logs, n: Nid)
    requires n in s.nodes
  {
    s.nodes[n].proc.Some? ==> WatchedOk(WatchedAt(s, live, logs, n), s.mgr == Some(n))
  }

  /** A local count that a buffer of process `p` holds is of a node that is there and belongs to `p`. */
  ghost predicate KeyHeld(s: State, p: Pid, k: Key) {
    k.local ==> k.node in s.nodes && s.nodes[k.node].proc == Some(p)
  }

  ghost predicate Matched(s: State, live: Holdings, logs: Logs) {
    && Inv(s) && live.Keys == s.procs.Keys
    && (forall n | n in logs :: n < s.nextId)
    && (s.mgr.Some? ==> s.mgr.value in s.nodes && s.nodes[s.mgr.value].proc.Some?)
    && (forall n {:trigger NodeMatched(s, live, logs, n)} | n in s.nodes :: NodeMatched(s, live, logs, n))
    && (forall p, k {:trigger KeyHeld(s, p, k)} | p in live && k in live[p] :: KeyHeld(s, p, k))
  }

  function Added(live: Holdings, p: Pid, ks: multiset<Key>): Holdings {
    live[p := (if p in live then live[p] else multiset{}) + ks]
  }

  function Removed(live: Holdings, p: Pid, ks: multiset<Key>): Holdings {
    live[p := (if p in live then live[p] else multiset{}) - ks]
  }

  lemma AddedNone(live: Holdings, p: Pid)
    requires p in live
    ensures Added(live, p, multiset([])) == live && Removed(live, p, multiset([])) == live
  {
    assert live[p] + multiset([]) == live[p] && live[p] - multiset([]) == live[p];
  }

  lemma AddedMore(live: Holdings, p: Pid, ks: seq<Key>, k: Key)
    requires p in live
    ensures Added(Added(live, p, multiset(ks)), p, multiset{k}) == Added(live, p, multiset(ks + [k]))
  {
    assert multiset(ks + [k]) == multiset(ks) + multiset{k};
    assert (live[p] + multiset(ks)) + multiset{k} == live[p] + multiset(ks + [k]);
  }

  lemma RemovedMore(live: Holdings, p: Pid, ks: seq<Key>, k: Key)
    requires p in live && multiset(ks + [k]) <= live[p]
    ensures Removed(Removed(live, p, multiset(ks)), p, multiset{k}) == Removed(live, p, multiset(ks + [k]))
    ensures multiset(ks) <= live[p] && k in Removed(live, p, multiset(ks))[p]
  {
    assert multiset(ks + [k]) == multiset(ks) + multiset{k};
    assert (live[p] - multiset(ks)) - multiset{k} == live[p] - multiset(ks + [k]);
  }

  lemma AddedRemoved(live: Holdings, p: Pid, ks: multiset<Key>)
    requires p in live
    ensures Removed(Added(live, p, ks), p, ks) == live
  {
    assert (live[p] + ks) - ks == live[p];
    assert live[p := live[p] + ks][p := live[p]] == live;
  }

  // ----- what follows

  /** A held local count is there, so its node is not freed under the buffer. */
  lemma HeldCounts(s: State, live: Holdings, logs: Logs, n: Nid)
    requires Matched(s, live, logs) && n in s.nodes
    ensures s.nodes[n].proc.Some? ==>
              && HeldOf(live, s.nodes[n].proc.value, n, true) + (if s.mgr == Some(n) then 1 else 0)
                 <= s.nodes[n].localStrong
              && HeldOf(live, s.nodes[n].proc.value, n, false) + (if s.mgr == Some(n) then 1 else 0)
                 <= s.nodes[n].localWeak
    ensures 0 <= s.nodes[n].localStrong && 0 <= s.nodes[n].localWeak
  {
    assert NodeMatched(s, live, logs, n) && NodeOk(s, n);
  }

  /** In a matched state no owner's count is below zero. */
  lemma MatchedCounts(s: State, live: Holdings, logs: Logs)
    requires Matched(s, live, logs)
    ensures LocalCounts(s)
  {
    forall n | n in s.nodes
      ensures 0 <= s.nodes[n].localStrong && 0 <= s.nodes[n].localWeak
    {
      HeldCounts(s, live, logs, n);
    }
  }

  /** What the owner of a node has been sent about it, whatever was done with nodes, references and buffers. */
  lemma MatchedOwnerSees(s: State, live: Holdings, logs: Logs, n: Nid)
    requires Matched(s, live, logs) && n in s.nodes && s.nodes[n].proc.Some?
    ensures SeenWell(s.nodes[n], LogOf(logs, n))
    ensures s.mgr == Some(n) ==> LogOf(logs, n) == []
  {
    assert NodeMatched(s, live, logs, n);
    if s.mgr == Some(n) {
      assert [] <= Word([]);
    } else {
      InvSeenWell(WatchedAt(s, live, logs, n));
    }
  }

  // ----- steps that owners take part in

  lemma WatchedNext(w: Watched, step: Step, w2: Watched, isMgr: bool)
    requires WatchedOk(w, isMgr) && w.d.proc.Some? && Next(w, step, w2)
    requires isMgr ==> 1 <= w.heldStrong && 1 <= w.heldWeak
    ensures WatchedOk(w2, isMgr)
  {
    if isMgr {
      match step
      case Counting =>
      case Taken(strong) => TakenInv(w, strong, w2);
      case Returned(strong) => ReturnedInv(w, strong, w2);
      case Work => WorkInv(w, w2);
      case Answer(_) =>
    } else {
      NextInv(w, step, w2);
    }
  }

  /** At most what is held of node `n` differs. */
  ghost predicate OthersHeld(live: Holdings, live2: Holdings, n: Nid) {
    && live2.Keys == live.Keys
    && forall p, k: Key {:trigger live2[p][k]} | p in live && k.node != n :: live2[p][k] == live[p][k]
  }

  /** No other process than `p` has a local count of node `n`. */
  ghost predicate OnlyOwner(live: Holdings, n: Nid, p: Pid) {
    forall q, k: Key | q in live && k in live[q] && k.local && k.node == n :: q == p
  }

  /** At most what was said about node `n` differs. */
  ghost predicate OthersLog(logs: Logs, logs2: Logs, n: Nid) {
    logs2 == logs || (n in logs2 && logs2 == logs[n := logs2[n]])
  }

  lemma OtherNode(s: State, live: Holdings, logs: Logs, n: Nid, s2: State, live2: Holdings, logs2: Logs, m: Nid)
    requires Matched(s, live, logs) && m in s.nodes && m in s2.nodes && s2.nodes[m] == s.nodes[m] && s2.mgr == s.mgr
        && m != n
    requires OthersHeld(live, live2, n) && OthersLog(logs, logs2, n)
    ensures NodeMatched(s2, live2, logs2, m)
  {
    assert NodeMatched(s, live, logs, m);
    if s2.nodes[m].proc.Some? {
      assert WatchedAt(s2, live2, logs2, m) == WatchedAt(s, live, logs, m);
    }
  }

  /** A step of one node and its owner. */
  lemma NodeStep(s: State, live: Holdings, logs: Logs, n: Nid, step: Step, s2: State, live2: Holdings, logs2: Logs)
    requires Matched(s, live, logs) && n in s.nodes && s.nodes[n].proc.Some? && Inv(s2)
    requires n in s2.nodes && s2 == s.(nodes := s.nodes[n := s2.nodes[n]]) && s2.nodes[n].proc == s.nodes[n].proc
    requires OthersHeld(live, live2, n) && OthersLog(logs, logs2, n)
    requires OnlyOwner(live2, n, s.nodes[n].proc.value)
    requires Next(WatchedAt(s, live, logs, n), step, WatchedAt(s2, live2, logs2, n))
    ensures Matched(s2, live2, logs2)
  {
    assert NodeMatched(s, live, logs, n) && NodeOk(s, n);
    WatchedNext(WatchedAt(s, live, logs, n), step, WatchedAt(s2, live2, logs2, n), s.mgr == Some(n));
    forall m | m in s2.nodes
      ensures NodeMatched(s2, live2, logs2, m)
    {
      if m != n {
        OtherNode(s, live, logs, n, s2, live2, logs2, m);
      }
    }
    forall q, k: Key | q in live2 && k in live2[q]
      ensures KeyHeld(s2, q, k)
    {
      if k.node != n {
        assert live2[q][k] == live[q][k];
        assert KeyHeld(s, q, k);
      }
    }
  }

  lemma OwnersKeys(s: State, live: Holdings, logs: Logs, n: Nid, p: Pid)
    requires Matched(s, live, logs) && n in s.nodes && s.nodes[n].proc == Some(p)
    ensures OnlyOwner(live, n, p) && p in live
  {
    forall q, k: Key | q in live && k in live[q] && k.local && k.node == n
      ensures q == p
    {
      assert KeyHeld(s, q, k);
    }
    assert NodeOk(s, n);
  }

  /** One more local count of node `n`. */
  ghost predicate OneMore(live: Holdings, live2: Holdings, p: Pid, n: Nid, strong: bool) {
    && OthersHeld(live, live2, n)
    && HeldOf(live2, p, n, strong) == HeldOf(live, p, n, strong) + 1
    && HeldOf(live2, p, n, !strong) == HeldOf(live, p, n, !strong)
  }

  lemma AddedHeld(live: Holdings, p: Pid, n: Nid, strong: bool)
    requires p in live && OnlyOwner(live, n, p)
    ensures var live2 := Added(live, p, multiset{Key(true, n, strong)});
            OneMore(live, live2, p, n, strong) && OnlyOwner(live2, n, p)
  {
  }

  lemma RemovedHeld(live: Holdings, p: Pid, n: Nid, strong: bool)
    requires p in live && Key(true, n, strong) in live[p] && OnlyOwner(live, n, p)
    ensures var live2 := Removed(live, p, multiset{Key(true, n, strong)});
            OneMore(live2, live, p, n, strong) && OthersHeld(live, live2, n) && OnlyOwner(live2, n, p)
  {
    var left := live[p] - multiset{Key(true, n, strong)};
    assert left[Key(true, n, strong)] == live[p][Key(true, n, strong)] - 1;
    assert forall k: Key | k != Key(true, n, strong) :: left[k] == live[p][k];
    SetHeld(live, p, left, n);
  }

  /** What process `p` holds is set, the same but for node `n`. */
  lemma SetHeld(live: Holdings, p: Pid, left: multiset<Key>, n: Nid)
    requires p in live && OnlyOwner(live, n, p)
    requires forall k: Key {:trigger left[k]} | k.node != n :: left[k] == live[p][k]
    ensures OthersHeld(live, live[p := left], n) && OthersHeld(live[p := left], live, n)
        && OnlyOwner(live[p := left], n, p)
  {
  }

  /** Nobody has a local count of node `n` when its owner has none. */
  lemma NoneHeld(live: Holdings, p: Pid, n: Nid)
    requires HeldOf(live, p, n, true) == 0 && HeldOf(live, p, n, false) == 0 && OnlyOwner(live, n, p)
    ensures NobodyHolds(live, n)
  {
    forall q, k: Key | q in live && k in live[q] && k.local
      ensures k.node != n
    {
      assert k == Key(true, k.node, k.strong);
    }
  }

  ghost predicate NobodyHolds(live: Holdings, n: Nid) {
    forall q, k: Key | q in live && k in live[q] && k.local :: k.node != n
  }

  /** A buffer takes a local count of a node. */
  lemma TakeMatched(s: State, live: Holdings, logs: Logs, p: Pid, n: Nid, strong: bool)
    requires Matched(s, live, logs) && n in s.nodes && s.nodes[n].proc == Some(p)
    ensures Matched(s.(nodes := s.nodes[n := IncNode(s.nodes[n], strong, false, false, s.mgr == Some(n)).1]),
                    Added(live, p, multiset{Key(true, n, strong)}), logs)
  {
    OwnersKeys(s, live, logs, n, p);
    AddedHeld(live, p, n, strong);
    TakeStep(s, live, Added(live, p, multiset{Key(true, n, strong)}), logs, p, n, strong);
  }

  lemma TakeStep(s: State, live: Holdings, live2: Holdings, logs: Logs, p: Pid, n: Nid, strong: bool)
    requires Matched(s, live, logs) && n in s.nodes && s.nodes[n].proc == Some(p)
    requires OneMore(live, live2, p, n, strong) && OnlyOwner(live2, n, p)
    ensures Matched(s.(nodes := s.nodes[n := IncNode(s.nodes[n], strong, false, false, s.mgr == Some(n)).1]), live2,
                    logs)
  {
    IncLocalInv(s, n, strong, false, s.mgr == Some(n));
    NodeStep(s, live, logs, n, Taken(strong),
             s.(nodes := s.nodes[n := IncNode(s.nodes[n], strong, false, false, s.mgr == Some(n)).1]), live2, logs);
  }

  /** A node that nothing holds is freed. */
  lemma FreedMatched(s: State, live: Holdings, live2: Holdings, logs: Logs, n: Nid)
    requires Matched(s, live, logs) && n in s.nodes && s.mgr != Some(n) && Inv(FreeNode(s, n))
    requires OthersHeld(live, live2, n)
    requires NobodyHolds(live2, n)
    ensures Matched(FreeNode(s, n), live2, logs)
  {
    var s2 := FreeNode(s, n);
    forall m | m in s2.nodes
      ensures NodeMatched(s2, live2, logs, m)
    {
      OtherNode(s, live, logs, n, s2, live2, logs, m);
    }
    forall q, k: Key | q in live2 && k in live2[q]
      ensures KeyHeld(s2, q, k)
    {
      FreedKey(s, live, live2, logs, n, q, k);
    }
  }

  lemma FreedKey(s: State, live: Holdings, live2: Holdings, logs: Logs, n: Nid, q: Pid, k: Key)
    requires Matched(s, live, logs) && n in s.nodes && OthersHeld(live, live2, n) && NobodyHolds(live2, n)
    requires q in live2 && k in live2[q]
    ensures KeyHeld(FreeNode(s, n), q, k)
  {
    if k.local {
      assert live2[q][k] == live[q][k];
      assert KeyHeld(s, q, k);
    }
  }

  /** A buffer gives a local count back. */
  lemma ReturnMatched(s: State, live: Holdings, logs: Logs, p: Pid, n: Nid, strong: bool)
    requires Matched(s, live, logs) && p in live && Key(true, n, strong) in live[p] && n in s.nodes
    ensures Matched(DecNode(s, n, strong, false), Removed(live, p, multiset{Key(true, n, strong)}), logs)
  {
    assert KeyHeld(s, p, Key(true, n, strong));
    OwnersKeys(s, live, logs, n, p);
    RemovedHeld(live, p, n, strong);
    ReturnStep(s, live, Removed(live, p, multiset{Key(true, n, strong)}), logs, p, n, strong);
  }

  lemma ReturnStep(s: State, live: Holdings, live2: Holdings, logs: Logs, p: Pid, n: Nid, strong: bool)
    requires Matched(s, live, logs) && n in s.nodes && s.nodes[n].proc == Some(p)
    requires OneMore(live2, live, p, n, strong) && OthersHeld(live, live2, n) && OnlyOwner(live2, n, p)
    ensures Matched(DecNode(s, n, strong, false), live2, logs)
  {
    DecLocalInv(s, n, strong);
    if DecFate(Decremented(s.nodes[n], strong, false), strong) == Freed {
      ReturnFrees(s, live, live2, logs, p, n, strong);
      FreedMatched(s, live, live2, logs, n);
      assert DecNode(s, n, strong, false) == FreeNode(s, n);
    } else {
      ReturnStays(s, DecNode(s, n, strong, false), live, live2, logs, p, n, strong);
    }
  }

  lemma ReturnStays(s: State, s2: State, live: Holdings, live2: Holdings, logs: Logs, p: Pid, n: Nid, strong: bool)
    requires Matched(s, live, logs) && n in s.nodes && s.nodes[n].proc == Some(p) && Inv(s2)
    requires OneMore(live2, live, p, n, strong) && OthersHeld(live, live2, n) && OnlyOwner(live2, n, p)
    requires DecFate(Decremented(s.nodes[n], strong, false), strong) != Freed
    requires s2 == s.(nodes := s.nodes[n := AfterDec(s.nodes[n], strong)])
    ensures Matched(s2, live2, logs)
  {
    NodeStep(s, live, logs, n, Returned(strong), s2, live2, logs);
  }

  lemma ReturnFrees(s: State, live: Holdings, live2: Holdings, logs: Logs, p: Pid, n: Nid, strong: bool)
    requires Matched(s, live, logs) && n in s.nodes && s.nodes[n].proc == Some(p)
    requires OneMore(live2, live, p, n, strong) && OnlyOwner(live2, n, p)
    requires DecFate(Decremented(s.nodes[n], strong, false), strong) == Freed
    ensures NobodyHolds(live2, n) && s.mgr != Some(n)
  {
    HeldCounts(s, live, logs, n);
    NoneHeld(live2, p, n);
  }

  function Logged(logs: Logs, n: Nid, e: Event): Logs {
    logs[n := LogOf(logs, n) + [e]]
  }

  /** The owner answers; the node is not freed, because it still has been told of a count. */
  lemma AnswerMatched(s: State, live: Holdings, logs: Logs, n: Nid, strong: bool)
    requires Matched(s, live, logs) && n in s.nodes && s.nodes[n].proc.Some?
    requires if strong then s.nodes[n].pendingStrong else s.nodes[n].pendingWeak
    ensures n in AnswerNode(s, n, strong).nodes
    ensures Matched(AnswerNode(s, n, strong), live, Logged(logs, n, OwnerProtocol.Done(strong)))
  {
    var s1 := s.(nodes := s.nodes[n := Answered(s.nodes[n], strong)]);
    var s2 := DecNode(s1, n, strong, false);
    assert NodeMatched(s, live, logs, n) && NodeOk(s, n);
    NodeUpdateInv(s, n, s1.nodes[n], {});
    DecLocalInv(s1, n, strong);
    OwnersKeys(s, live, logs, n, s.nodes[n].proc.value);
    assert s2.nodes[n] == AfterDec(s1.nodes[n], strong);
    assert s2.nodes == s.nodes[n := s2.nodes[n]];
    NodeStep(s, live, logs, n, Answer(strong), s2, live, Logged(logs, n, OwnerProtocol.Done(strong)));
  }

  /** What the owner's log is after it read its node's work. */
  function WorkLogs(s: State, logs: Logs, n: Nid): Logs
    requires n in s.nodes
  {
    if NodeCommand(s.nodes[n]).Some? then Logged(logs, n, OwnerProtocol.Sent(NodeCommand(s.nodes[n]).value)) else logs
  }

  /** The owner reads its node's work. */
  lemma WorkMatched(s: State, live: Holdings, logs: Logs, n: Nid)
    requires Matched(s, live, logs) && n in s.nodes && s.nodes[n].proc.Some? && s.nodes[n].queued
    ensures NodeCommand(s.nodes[n]).Some? || IsWeak(s.nodes[n]) ==>
              Matched(s.(nodes := s.nodes[n := NodeWork(s.nodes[n])]), live, WorkLogs(s, logs, n))
    ensures NodeCommand(s.nodes[n]).None? && !IsWeak(s.nodes[n]) ==> Matched(FreeNode(s, n), live, WorkLogs(s, logs, n))
  {
    assert NodeMatched(s, live, logs, n) && NodeOk(s, n);
    OwnersKeys(s, live, logs, n, s.nodes[n].proc.value);
    if NodeCommand(s.nodes[n]).Some? || IsWeak(s.nodes[n]) {
      NodeUpdateInv(s, n, NodeWork(s.nodes[n]), {});
      NodeStep(s, live, logs, n, Work, s.(nodes := s.nodes[n := NodeWork(s.nodes[n])]), live, WorkLogs(s, logs, n));
    } else {
      CountedWeakens(s, n);
      FreeNodeInv(s, n);
      NoneHeld(live, s.nodes[n].proc.value, n);
      FreedMatched(s, live, live, logs, n);
    }
  }

  // ----- steps that no owner takes part in

  lemma QuietMatched(s: State, s2: State, live: Holdings, logs: Logs)
    requires Matched(s, live, logs) && Inv(s2) && Persists(s, s2) && OwnersQuiet(s, s2)
    ensures Matched(s2, live, logs)
  {
    forall m | m in s2.nodes
      ensures NodeMatched(s2, live, logs, m)
    {
      QuietNode(s, s2, live, logs, m);
    }
    forall q, k: Key | q in live && k in live[q]
      ensures KeyHeld(s2, q, k)
    {
      QuietKey(s, s2, live, logs, q, k);
    }
    if s.mgr.Some? {
      HeldCounts(s, live, logs, s.mgr.value);
      assert QuietAt(s, s2, s.mgr.value);
    }
  }

  lemma QuietNode(s: State, s2: State, live: Holdings, logs: Logs, m: Nid)
    requires Matched(s, live, logs) && Inv(s2) && Persists(s, s2) && OwnersQuiet(s, s2) && m in s2.nodes
    ensures NodeMatched(s2, live, logs, m)
  {
    assert NodePersists(s, s2, m);
    if m in s.nodes {
      assert NodeMatched(s, live, logs, m);
      if s2.nodes[m].proc.Some? {
        assert QuietAt(s, s2, m);
        var w, w2 := WatchedAt(s, live, logs, m), WatchedAt(s2, live, logs, m);
        assert NodeOk(s, m);
        WatchedNext(w, Counting, w2, s.mgr == Some(m)) by {
          if s.mgr == Some(m) {
            assert 1 <= w.heldStrong && 1 <= w.heldWeak;
          }
        }
      }
    } else if s2.nodes[m].proc.Some? {
      assert NewAt(s2, m);
      NotHeld(s, live, logs, s2.nodes[m].proc.value, m);
    }
  }

  lemma NotHeld(s: State, live: Holdings, logs: Logs, p: Pid, m: Nid)
    requires Matched(s, live, logs) && m !in s.nodes
    ensures HeldOf(live, p, m, true) == 0 && HeldOf(live, p, m, false) == 0
  {
    if p in live {
      assert Key(true, m, true) in live[p] ==> KeyHeld(s, p, Key(true, m, true));
      assert Key(true, m, false) in live[p] ==> KeyHeld(s, p, Key(true, m, false));
    }
  }

  lemma QuietKey(s: State, s2: State, live: Holdings, logs: Logs, p: Pid, k: Key)
    requires Matched(s, live, logs) && OwnersQuiet(s, s2) && p in live && k in live[p]
    ensures KeyHeld(s2, p, k)
  {
    if k.local {
      assert KeyHeld(s, p, k);
      HeldCounts(s, live, logs, k.node);
      assert QuietAt(s, s2, k.node);
    }
  }

  /** Counts of references are not the ledger's concern. */
  lemma HandlesMatched(s: State, live: Holdings, live2: Holdings, logs: Logs)
    requires Matched(s, live, logs) && live2.Keys == live.Keys
    requires forall p, k: Key {:trigger live2[p][k]} | p in live && k.local :: live2[p][k] == live[p][k]
    ensures Matched(s, live2, logs)
  {
    forall m | m in s.nodes
      ensures NodeMatched(s, live2, logs, m)
    {
      assert NodeMatched(s, live, logs, m);
      if s.nodes[m].proc.Some? {
        assert WatchedAt(s, live2, logs, m) == WatchedAt(s, live, logs, m);
      }
    }
    forall q, k: Key | q in live2 && k in live2[q]
      ensures KeyHeld(s, q, k)
    {
      if k.local {
        assert live2[q][k] == live[q][k];
        assert KeyHeld(s, q, k);
      }
    }
  }

  // ----- the operations

  lemma AddedHandle(s: State, live: Holdings, logs: Logs, p: Pid, k: Key)
    requires Matched(s, live, logs) && p in live && !k.local
    ensures Matched(s, Added(live, p, multiset{k}), logs)
  {
    HandlesMatched(s, live, Added(live, p, multiset{k}), logs);
  }

  lemma RemovedHandle(s: State, live: Holdings, logs: Logs, p: Pid, k: Key)
    requires Matched(s, live, logs) && p in live && !k.local
    ensures Matched(s, Removed(live, p, multiset{k}), logs)
  {
    HandlesMatched(s, live, Removed(live, p, multiset{k}), logs);
  }

  lemma IncRefMatched(s: State, live: Holdings, logs: Logs, r: Rid, strong: bool, listed: bool)
    requires Matched(s, live, logs) && r in s.refs && s.refs[r].node in s.nodes
    ensures Matched(IncRef(s, r, strong, listed), live, logs)
  {
    IncRefInv(s, r, strong, listed);
    IncRefPersists(s, r, strong, listed);
    IncRefOwners(s, r, strong, listed);
    QuietMatched(s, IncRef(s, r, strong, listed), live, logs);
  }

  lemma DecRefMatched(s: State, live: Holdings, logs: Logs, r: Rid, strong: bool)
    requires Matched(s, live, logs) && r in s.refs && s.refs[r].node in s.nodes && s.refs[r].proc in s.procs
    ensures Matched(DecRef(s, r, strong), live, logs)
  {
    DecRefInv(s, r, strong);
    DecRefPersists(s, r, strong);
    DecRefOwners(s, r, strong);
    QuietMatched(s, DecRef(s, r, strong), live, logs);
  }

  lemma NewRefMatched(s: State, live: Holdings, logs: Logs, p: Pid, n: Nid)
    requires Matched(s, live, logs) && p in s.procs && n in s.nodes && n !in s.procs[p].byNode
    ensures Matched(NewRef(s, p, n), live, logs)
  {
    NewRefInv(s, p, n);
    NewRefPersists(s, p, n);
    NewRefOwners(s, p, n);
    QuietMatched(s, NewRef(s, p, n), live, logs);
  }

  lemma NewNodeMatched(s: State, live: Holdings, logs: Logs, p: Pid, ptr: Ptr, cookie: Ptr)
    requires Matched(s, live, logs) && p in s.procs && ptr !in s.procs[p].nodes
    ensures Matched(NewNode(s, p, ptr, cookie), live, logs)
  {
    NewNodeInv(s, p, ptr, cookie);
    NewNodePersists(s, p, ptr, cookie);
    NewNodeOwners(s, p, ptr, cookie);
    QuietMatched(s, NewNode(s, p, ptr, cookie), live, logs);
  }

  lemma ReferMatched(s: State, live: Holdings, logs: Logs, p: Pid, n: Nid, strong: bool, listed: bool, mem: Memory)
    requires Matched(s, live, logs) && p in s.procs && n in s.nodes
    ensures Matched(Refer(s, p, n, strong, listed, mem).1, live, logs)
  {
    assert ProcOk(s, p);
    if n in s.procs[p].byNode {
      IncRefMatched(s, live, logs, s.procs[p].byNode[n], strong, listed);
    } else if mem.ref {
      NewRefMatched(s, live, logs, p, n);
      IncRefMatched(NewRef(s, p, n), live, logs, s.nextId, strong, listed);
    }
  }

  /** BC_INCREFS, BC_ACQUIRE, BC_RELEASE and BC_DECREFS do not concern the ledger. */
  lemma CountRefMatched(s: State, live: Holdings, logs: Logs, p: Pid, desc: Desc, strong: bool, up: bool)
    requires Matched(s, live, logs) && p in s.procs
    ensures Matched(CountRef(s, p, desc, strong, up), live, logs)
  {
    assert ProcOk(s, p);
    if desc == 0 && s.mgr.Some? && up {
      ReferMatched(s, live, logs, p, s.mgr.value, strong, false, Memory(true, true));
    } else if desc in s.procs[p].byDesc {
      var r := s.procs[p].byDesc[desc];
      assert RefOk(s, r);
      if up {
        IncRefMatched(s, live, logs, r, strong, false);
      } else {
        DecRefMatched(s, live, logs, r, strong);
      }
    }
  }

  // ----- translating and releasing

  /** Object `o` of a buffer of process `p` stands for count `k`; the counts of references are not followed further. */
  ghost predicate EntryOk(s: State, p: Pid, o: Object, k: Key) {
    && !o.OtherObject? && k.local == o.BinderObject? && k.strong == o.strong
    && (k.local ==> Denotes(s, p, o) == Some(k.node))
  }

  ghost predicate EntriesOk(s: State, p: Pid, os: seq<Object>, ks: seq<Key>) {
    |ks| == |os| && forall i {:trigger os[i]} {:trigger ks[i]} | 0 <= i < |os| :: EntryOk(s, p, os[i], ks[i])
  }

  /** While its count is held an object of the owner denotes the same node. */
  lemma EntryStays(s: State, s2: State, live2: Holdings, logs2: Logs, p: Pid, o: Object, k: Key)
    requires Inv(s) && EntryOk(s, p, o, k) && Persists(s, s2) && Matched(s2, live2, logs2) && p in live2
        && k in live2[p]
    ensures EntryOk(s2, p, o, k)
  {
    if k.local {
      assert KeyHeld(s2, p, k);
      assert ProcOk(s, p) && NodePersists(s, s2, k.node) && NodeOk(s2, k.node);
    }
  }

  /** What arrives stands for one more count of the target. */
  lemma TranslateMatched(s: State, live: Holdings, logs: Logs, sender: Pid, target: Pid, o: Object, mem: Memory)
    returns (k: Key)
    requires Matched(s, live, logs) && sender in s.procs && target in s.procs
    ensures var t := Translate(s, sender, target, o, mem);
            if t.0 then EntryOk(t.1, target, t.2, k) && Matched(t.1, Added(live, target, multiset{k}), logs)
            else Matched(t.1, live, logs)
  {
    var t := Translate(s, sender, target, o, mem);
    TranslateKeepsIdentity(s, sender, target, o, mem);
    k := if t.0 then KeyOf(t.2, Denotes(t.1, target, t.2).value) else Key(false, 0, false);
    match o
    case BinderObject(strong, ptr, cookie) =>
      OwnerMatched(s, live, logs, sender, target, o, mem);
      if t.0 {
        AddedHandle(t.1, live, logs, target, k);
      }
    case HandleObject(strong, h) =>
      assert ProcOk(s, sender);
      if h in s.procs[sender].byDesc {
        assert RefOk(s, s.procs[sender].byDesc[h]);
        var n := s.refs[s.procs[sender].byDesc[h]].node;
        if s.nodes[n].proc == Some(target) {
          assert NodeOk(s, n);
          TakeMatched(s, live, logs, target, n, strong);
        } else {
          ReferMatched(s, live, logs, target, n, strong, false, mem);
          if t.0 {
            AddedHandle(t.1, live, logs, target, k);
          }
        }
      }
    case OtherObject =>
  }

  lemma OwnerMatched(s: State, live: Holdings, logs: Logs, sender: Pid, target: Pid, o: Object, mem: Memory)
    requires Matched(s, live, logs) && sender in s.procs && target in s.procs && o.BinderObject?
    ensures Matched(FromOwner(s, sender, target, o.strong, o.ptr, o.cookie, mem).1, live, logs)
  {
    SendersNodeInv(s, sender, o.ptr, o.cookie, mem);
    var s1 := SendersNode(s, sender, o.ptr, o.cookie, mem);
    if s1.Some? {
      if o.ptr !in s.procs[sender].nodes {
        NewNodeMatched(s, live, logs, sender, o.ptr, o.cookie);
      }
      var n := s1.value.procs[sender].nodes[o.ptr];
      if o.cookie == s1.value.nodes[n].cookie {
        ReferMatched(s1.value, live, logs, target, n, o.strong, true, mem);
      }
    }
  }

  /** Everything that arrived stands for counts that the ledger gains. */
  lemma {:induction false} SendMatched(s: State, live: Holdings, logs: Logs, sender: Pid, target: Pid,
                                       os: seq<Object>, mems: seq<Memory>)
    returns (ks: seq<Key>)
    requires Matched(s, live, logs) && sender in s.procs && target in s.procs && |mems| == |os|
    ensures var r := SendObjects(s, sender, target, os, mems);
            EntriesOk(r.state, target, r.objects, ks) && Matched(r.state, Added(live, target, multiset(ks)), logs)
    decreases |os|
  {
    if os == [] {
      ks := [];
      AddedNone(live, target);
    } else {
      var i := |os| - 1;
      ks := SendMatched(s, live, logs, sender, target, os[..i], mems[..i]);
      var r := SendObjects(s, sender, target, os[..i], mems[..i]);
      if r.ok {
        ks := NextMatched(r.state, live, logs, sender, target, r.objects, ks, os[i], mems[i]);
      }
    }
  }

  /** One more object. */
  lemma NextMatched(s: State, live: Holdings, logs: Logs, sender: Pid, target: Pid, out: seq<Object>, ks: seq<Key>,
                    o: Object, mem: Memory)
    returns (ks2: seq<Key>)
    requires target in live && Matched(s, Added(live, target, multiset(ks)), logs) && EntriesOk(s, target, out, ks)
    requires sender in s.procs && target in s.procs
    ensures var t := Translate(s, sender, target, o, mem);
            && EntriesOk(t.1, target, if t.0 then out + [t.2] else out, ks2)
            && Matched(t.1, Added(live, target, multiset(ks2)), logs)
  {
    var t := Translate(s, sender, target, o, mem);
    var live1 := Added(live, target, multiset(ks));
    var k := TranslateMatched(s, live1, logs, sender, target, o, mem);
    TranslatePersists(s, sender, target, o, mem);
    if t.0 {
      ks2 := ks + [k];
      AddedMore(live, target, ks, k);
      EntriesGrow(s, t.1, Added(live, target, multiset(ks2)), logs, target, out, ks, t.2, k);
    } else {
      ks2 := ks;
      EntriesStay(s, t.1, live1, logs, target, out, ks);
    }
  }

  lemma EntriesStay(s: State, s2: State, live2: Holdings, logs2: Logs, p: Pid, os: seq<Object>, ks: seq<Key>)
    requires Inv(s) && EntriesOk(s, p, os, ks) && Persists(s, s2) && Matched(s2, live2, logs2) && p in live2
    requires multiset(ks) <= live2[p]
    ensures EntriesOk(s2, p, os, ks)
  {
    forall i | 0 <= i < |os|
      ensures EntryOk(s2, p, os[i], ks[i])
    {
      assert ks[i] in multiset(ks);
      EntryStays(s, s2, live2, logs2, p, os[i], ks[i]);
    }
  }

  lemma EntriesGrow(s: State, s2: State, live2: Holdings, logs2: Logs, p: Pid, os: seq<Object>, ks: seq<Key>,
                    o: Object, k: Key)
    requires Inv(s) && EntriesOk(s, p, os, ks) && Persists(s, s2) && Matched(s2, live2, logs2) && p in live2
    requires multiset(ks) + multiset{k} <= live2[p] && EntryOk(s2, p, o, k)
    ensures EntriesOk(s2, p, os + [o], ks + [k])
  {
    EntriesStay(s, s2, live2, logs2, p, os, ks);
  }

  /** Releasing an object gives back the count that it stands for. */
  lemma ReleaseObjectMatched(s: State, live: Holdings, logs: Logs, p: Pid, o: Object, k: Key)
    requires Matched(s, live, logs) && p in live && k in live[p] && EntryOk(s, p, o, k)
    ensures Matched(ReleaseObject(s, p, o), Removed(live, p, multiset{k}), logs)
  {
    assert ProcOk(s, p);
    match o
    case BinderObject(strong, _, _) =>
      ReturnMatched(s, live, logs, p, k.node, strong);
    case HandleObject(strong, h) =>
      if h in s.procs[p].byDesc {
        assert RefOk(s, s.procs[p].byDesc[h]);
        DecRefMatched(s, live, logs, s.procs[p].byDesc[h], strong);
      }
      RemovedHandle(ReleaseObject(s, p, o), live, logs, p, k);
    case OtherObject =>
  }

  /** Releasing the objects of a buffer takes what they stand for off the ledger. */
  lemma {:induction false} ReleaseMatched(s: State, live: Holdings, logs: Logs, p: Pid, os: seq<Object>, ks: seq<Key>)
    requires Matched(s, live, logs) && p in live && EntriesOk(s, p, os, ks) && multiset(ks) <= live[p]
    ensures Matched(ReleaseObjects(s, p, os), Removed(live, p, multiset(ks)), logs)
    decreases |os|
  {
    if os == [] {
      AddedNone(live, p);
      assert ks == [];
    } else {
      var i := |os| - 1;
      var pre := ks[..i];
      assert ks == pre + [ks[i]];
      RemovedMore(live, p, pre, ks[i]);
      ReleaseMatched(s, live, logs, p, os[..i], pre);
      ReleasePersists(s, p, os[..i]);
      LastReleased(s, ReleaseObjects(s, p, os[..i]), live, logs, p, os[i], pre, ks[i]);
    }
  }

  lemma LastReleased(s: State, s1: State, live: Holdings, logs: Logs, p: Pid, o: Object, pre: seq<Key>, k: Key)
    requires Inv(s) && EntryOk(s, p, o, k) && Persists(s, s1) && p in live && multiset(pre + [k]) <= live[p]
    requires Matched(s1, Removed(live, p, multiset(pre)), logs)
    ensures Matched(ReleaseObject(s1, p, o), Removed(live, p, multiset(pre + [k])), logs)
  {
    RemovedMore(live, p, pre, k);
    EntryStays(s, s1, Removed(live, p, multiset(pre)), logs, p, o, k);
    ReleaseObjectMatched(s1, Removed(live, p, multiset(pre)), logs, p, o, k);
  }

  /** A buffer: the target node that a call holds, and the objects that were translated. */
  datatype Buffer = Buffer(target: Option<Nid>, objects: seq<Object>)

  /** What a buffer of process `p` stands for: its target node first, then the objects. */
  ghost predicate BufferOk(s: State, p: Pid, b: Buffer, ks: seq<Key>) {
    && (b.target.Some? ==> b.target.value in s.nodes && s.nodes[b.target.value].proc == Some(p) && ks != []
                           && ks[0].node == b.target.value)
    && EntriesOk(s, p, BufferObjects(s, b.target, b.objects), ks)
  }

  ghost predicate BufferHeld(s: State, live: Holdings, p: Pid, target: Option<Nid>, os: seq<Object>, ks: seq<Key>) {
    p in live && multiset(ks) <= live[p] && BufferOk(s, p, Buffer(target, os), ks)
  }

  /** binder_transaction_buffer_release */
  lemma ReleaseBufferMatched(s: State, live: Holdings, logs: Logs, p: Pid, target: Option<Nid>, os: seq<Object>,
                             ks: seq<Key>)
    requires Matched(s, live, logs) && BufferHeld(s, live, p, target, os, ks)
    ensures Matched(ReleaseBuffer(s, p, target, os), Removed(live, p, multiset(ks)), logs)
  {
    ReleaseBufferIs(s, p, target, os);
    ReleaseMatched(s, live, logs, p, BufferObjects(s, target, os), ks);
  }

  lemma UndoneMatched(s: State, live: Holdings, logs: Logs, p: Pid, target: Option<Nid>, os: seq<Object>, ks: seq<Key>)
    requires p in live && Matched(s, Added(live, p, multiset(ks)), logs)
    requires BufferHeld(s, Added(live, p, multiset(ks)), p, target, os, ks)
    ensures Matched(ReleaseBuffer(s, p, target, os), live, logs)
  {
    ReleaseBufferMatched(s, Added(live, p, multiset(ks)), logs, p, target, os, ks);
    AddedRemoved(live, p, multiset(ks));
  }

  /** What the buffer of a transaction stands for goes on the ledger; a transaction that fails leaves it as it was. */
  lemma TransactMatched(s: State, live: Holdings, logs: Logs, sender: Pid, p: Pid, target: Option<Nid>,
                        os: seq<Object>, mems: seq<Memory>)
    returns (ks: seq<Key>)
    requires Matched(s, live, logs) && sender in s.procs && p in s.procs && |mems| == |os|
    requires target.Some? ==> target.value in s.nodes && s.nodes[target.value].proc == Some(p)
    ensures var t := Transacted(s, sender, p, target, os, mems);
            if t.0 then
              Matched(t.1, Added(live, p, multiset(ks)), logs)
                  && BufferHeld(t.1, Added(live, p, multiset(ks)), p, target, t.2, ks)
            else Matched(t.1, live, logs)
  {
    AddedCounts(s, sender, p, target, os, mems, Key(true, 0, true));
    var r := SendObjects(Started(s, target), sender, p, os, mems);
    if target.None? {
      ks := SendMatched(s, live, logs, sender, p, os, mems);
    } else {
      TakeMatched(s, live, logs, p, target.value, true);
      var k := Key(true, target.value, true);
      ks := SendMatched(Started(s, target), Added(live, p, multiset{k}), logs, sender, p, os, mems);
      TargetEntry(r.state, live, logs, p, target.value, r.objects, ks);
      ks := [k] + ks;
    }
    if !r.ok {
      UndoneMatched(r.state, live, logs, p, target, r.objects, ks);
    }
  }

  lemma TargetEntry(s: State, live: Holdings, logs: Logs, p: Pid, n: Nid, os: seq<Object>, ks: seq<Key>)
    requires p in live && Matched(s, Added(Added(live, p, multiset{Key(true, n, true)}), p, multiset(ks)), logs)
        && EntriesOk(s, p, os, ks)
    ensures var all := [Key(true, n, true)] + ks;
            Matched(s, Added(live, p, multiset(all)), logs)
                && BufferHeld(s, Added(live, p, multiset(all)), p, Some(n), os, all)
  {
    var k := Key(true, n, true);
    var all := [k] + ks;
    assert multiset(all) == multiset{k} + multiset(ks);
    assert (live[p] + multiset{k}) + multiset(ks) == live[p] + multiset(all);
    assert Added(Added(live, p, multiset{k}), p, multiset(ks)) == Added(live, p, multiset(all));
    TargetFirst(s, Added(live, p, multiset(all)), logs, p, n, os, ks);
  }

  lemma TargetFirst(s2: State, live2: Holdings, logs: Logs, p: Pid, n: Nid, os: seq<Object>, ks: seq<Key>)
    requires Matched(s2, live2, logs) && p in live2 && Key(true, n, true) in live2[p] && EntriesOk(s2, p, os, ks)
    ensures n in s2.nodes && s2.nodes[n].proc == Some(p)
    ensures EntriesOk(s2, p, BufferObjects(s2, Some(n), os), [Key(true, n, true)] + ks)
  {
    assert KeyHeld(s2, p, Key(true, n, true));
    assert NodeOk(s2, n);
  }

  // ----- the owner's counts cover a buffer

  /** The objects of a buffer stand for just what the ledger says of them. */
  lemma {:induction false} TallyIsKeys(s: State, p: Pid, os: seq<Object>, ks: seq<Key>, k: Key)
    requires EntriesOk(s, p, os, ks) && k.local
    ensures Tally(s, p, os, k) == multiset(ks)[k]
    decreases |os|
  {
    if os != [] {
      var i := |os| - 1;
      TallyIsKeys(s, p, os[..i], ks[..i], k);
      assert ks == ks[..i] + [ks[i]];
      assert EntryOk(s, p, os[i], ks[i]);
      assert StandsFor(s, p, os[i], k) <==> ks[i] == k;
    } else {
      assert ks == [];
    }
  }

  lemma LedgerCovers(s: State, live: Holdings, logs: Logs, p: Pid, os: seq<Object>, ks: seq<Key>)
    requires Matched(s, live, logs) && p in live && EntriesOk(s, p, os, ks) && multiset(ks) <= live[p]
    ensures Covered(s, p, os)
  {
    forall k: Key | k.local && 0 < Tally(s, p, os, k)
      ensures Tally(s, p, os, k) <= Count(s, p, k)
    {
      TallyIsKeys(s, p, os, ks, k);
      assert k in live[p];
      assert KeyHeld(s, p, k);
      HeldCounts(s, live, logs, k.node);
      assert k == Key(true, k.node, k.strong);
    }
  }

  // ----- processes

  lemma OpenMatched(s: State, live: Holdings, logs: Logs, p: Pid)
    requires Matched(s, live, logs) && p !in s.procs
    ensures Matched(s.(procs := s.procs[p := Proc(map[], map[], map[])]), live[p := multiset{}], logs)
  {
    var s2 := s.(procs := s.procs[p := Proc(map[], map[], map[])]);
    var live2 := live[p := multiset{}];
    OpenInv(s, p);
    forall m | m in s2.nodes
      ensures NodeMatched(s2, live2, logs, m)
    {
      assert NodeMatched(s, live, logs, m) && NodeOk(s, m);
      if s2.nodes[m].proc.Some? {
        assert WatchedAt(s2, live2, logs, m) == WatchedAt(s, live, logs, m);
      }
    }
    forall q, k | q in live2 && k in live2[q]
      ensures KeyHeld(s2, q, k)
    {
      assert KeyHeld(s, q, k);
    }
  }

  /** The new context manager's node counts itself. */
  lemma ManagedMatched(s: State, live: Holdings, logs: Logs, p: Pid)
    requires Matched(s, live, logs) && p in s.procs && s.mgr.None? && 0 !in s.procs[p].nodes && Inv(Managed(s, p))
    ensures Matched(Managed(s, p), live, logs)
  {
    var s1 := NewNode(s, p, 0, 0);
    var s2 := Managed(s, p);
    var n := s.nextId;
    NextIdIsFresh(s);
    NewNodeMatched(s, live, logs, p, 0, 0);
    NotHeld(s, live, logs, p, n);
    forall m | m in s2.nodes
      ensures NodeMatched(s2, live, logs, m)
    {
      if m != n {
        assert NodeMatched(s1, live, logs, m);
        if s2.nodes[m].proc.Some? {
          assert WatchedAt(s2, live, logs, m) == WatchedAt(s1, live, logs, m);
        }
      }
    }
    forall q, k | q in live && k in live[q]
      ensures KeyHeld(s2, q, k)
    {
      assert KeyHeld(s1, q, k);
    }
  }

  /** A process goes with its buffers; the owners that are left notice nothing. */
  lemma ExitMatched(s: State, s2: State, live: Holdings, logs: Logs, p: Pid)
    requires Matched(s, live, logs) && Inv(s2) && Persists(s, s2) && p in s.procs
    requires Exited(s, s2, p) && OthersQuiet(s, s2, p)
    requires s2.mgr == if s.mgr.Some? && s.mgr.value in s.nodes && s.nodes[s.mgr.value].proc == Some(p) then None
        else s.mgr
    ensures Matched(s2, live - {p}, logs)
  {
    forall m | m in s2.nodes
      ensures NodeMatched(s2, live - {p}, logs, m)
    {
      ExitNode(s, s2, live, logs, p, m);
    }
    forall q, k | q in live - {p} && k in live[q]
      ensures KeyHeld(s2, q, k)
    {
      if k.local {
        assert KeyHeld(s, q, k);
        HeldCounts(s, live, logs, k.node);
        assert QuietAt(s, s2, k.node);
      }
    }
    if s2.mgr.Some? {
      HeldCounts(s, live, logs, s.mgr.value);
      assert QuietAt(s, s2, s.mgr.value);
    }
  }

  lemma ExitNode(s: State, s2: State, live: Holdings, logs: Logs, p: Pid, m: Nid)
    requires Matched(s, live, logs) && p in s.procs && Exited(s, s2, p) && OthersQuiet(s, s2, p) && m in s2.nodes
    requires s2.mgr == if s.mgr.Some? && s.mgr.value in s.nodes && s.nodes[s.mgr.value].proc == Some(p) then None
        else s.mgr
    ensures NodeMatched(s2, live - {p}, logs, m)
  {
    assert NodeMatched(s, live, logs, m);
    if s2.nodes[m].proc.Some? {
      assert QuietAt(s, s2, m);
      WatchedNext(WatchedAt(s, live, logs, m), Counting, WatchedAt(s2, live - {p}, logs, m), s.mgr == Some(m));
    }
  }
}
