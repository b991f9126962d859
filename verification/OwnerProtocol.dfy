/**
  What the driver tells the owner of a node: BR_INCREFS, BR_ACQUIRE, BR_RELEASE and
  BR_DECREFS, and the answers BC_INCREFS_DONE and BC_ACQUIRE_DONE.
 */
module OwnerProtocol {
  import opened Options
  import opened NodeRefs
  import opened Handles

  datatype Command = IncRefs | Acquire | ReleaseStrong | DecRefs

  /** What passes between the driver and the owner about one node. */
  datatype Event = Sent(command: Command) | Done(strong: bool)

  predicate IsStrong(d: Node) {
    d.internalStrong != 0 || d.localStrong != 0
  }

  predicate IsWeak(d: Node) {
    d.refs != {} || d.localWeak != 0 || IsStrong(d)
  }

  /** Lines 2264-2288: the next command for the owner, if any. */
  function NodeCommand(d: Node): Option<Command> {
    if IsWeak(d) && !d.hasWeak then Some(IncRefs)
    else if IsStrong(d) && !d.hasStrong then Some(Acquire)
    else if !IsStrong(d) && d.hasStrong then Some(ReleaseStrong)
    else if !IsWeak(d) && d.hasWeak then Some(DecRefs)
    else None
  }

  /** The node once the owner has been sent `NodeCommand(d)`, or has left the list when there is none. */
  function NodeWork(d: Node): Node {
    match NodeCommand(d)
    case Some(IncRefs) => d.(hasWeak := true, pendingWeak := true, localWeak := d.localWeak + 1)
    case Some(Acquire) => d.(hasStrong := true, pendingStrong := true, localStrong := d.localStrong + 1)
    case Some(ReleaseStrong) => d.(hasStrong := false)
    case Some(DecRefs) => d.(hasWeak := false)
    case None => d.(queued := false)
  }

  // ----- the protocol's states

  /** What the owner has been told, and what it has not yet answered. */
  datatype Told = Told(hasWeak: bool, hasStrong: bool, pendingWeak: bool, pendingStrong: bool)

  function ToldOf(d: Node): Told {
    Told(d.hasWeak, d.hasStrong, d.pendingWeak, d.pendingStrong)
  }

  function Tell(q: Told, e: Event): Option<Told> {
    match e
    case Sent(IncRefs) => if !q.hasWeak then Some(q.(hasWeak := true, pendingWeak := true)) else None
    case Sent(Acquire) => if q.hasWeak && !q.hasStrong then Some(q.(hasStrong := true, pendingStrong := true)) else None
    case Sent(ReleaseStrong) => if q.hasStrong && !q.pendingStrong then Some(q.(hasStrong := false)) else None
    case Sent(DecRefs) => if q.hasWeak && !q.hasStrong && !q.pendingWeak then Some(q.(hasWeak := false)) else None
    case Done(true) => if q.pendingStrong then Some(q.(pendingStrong := false)) else None
    case Done(false) => if q.pendingWeak then Some(q.(pendingWeak := false)) else None
  }

  function TellAll(log: seq<Event>): Option<Told>
    decreases |log|
  {
    if log == [] then Some(Told(false, false, false, false))
    else
      var q := TellAll(log[..|log| - 1]);
      if q.None? then None else Tell(q.value, log[|log| - 1])
  }

  // ----- a node, its owner and the buffers that hold it

  /** `heldStrong` and `heldWeak` are the local counts of buffers, and of the context manager's node for itself. */
  datatype Watched = Watched(d: Node, heldStrong: nat, heldWeak: nat, log: seq<Event>)

  /** The owner was told of a count that is gone. */
  predicate Owed(d: Node) {
    (d.hasStrong && !IsStrong(d)) || (d.hasWeak && !IsWeak(d))
  }

  /** All but the log: the local counts are accounted for, and what the owner is owed is on a list. */
  ghost predicate Accounted(w: Watched) {
    var d := w.d;
    && d.localStrong == w.heldStrong + (if d.pendingStrong then 1 else 0)
    && d.localWeak == w.heldWeak + (if d.pendingWeak then 1 else 0)
    && 0 <= d.internalStrong
    && (d.hasStrong ==> d.hasWeak) && (d.pendingStrong ==> d.hasStrong) && (d.pendingWeak ==> d.hasWeak)
    && (Owed(d) ==> d.queued)
  }

  ghost predicate OwnerInv(w: Watched) {
    Accounted(w) && TellAll(w.log) == Some(ToldOf(w.d))
  }

  /** A node as binder_new_node makes it. */
  ghost predicate Fresh(w: Watched) {
    && w.heldStrong == 0 && w.heldWeak == 0 && w.log == []
    && w.d.internalStrong == 0 && w.d.localStrong == 0 && w.d.localWeak == 0
        && ToldOf(w.d) == Told(false, false, false, false)
  }

  /** Counts of references come and go; the owner is not concerned, except that it may become owed. */
  ghost predicate Quiet(d: Node, d2: Node) {
    && ToldOf(d2) == ToldOf(d) && d2.localStrong == d.localStrong && d2.localWeak == d.localWeak
    && 0 <= d2.internalStrong && (d.queued ==> d2.queued)
    && (Owed(d2) ==> Owed(d) || d2.queued)
  }

  /** What can happen to a node with an owner: a step of the driver that leaves it in place. */
  datatype Step =
    | Counting                   // a reference to it is made, counted or deleted
    | Taken(strong: bool)        // a buffer takes a local count
    | Returned(strong: bool)     // a buffer gives one back
    | Work                       // the owner reads its work
    | Answer(strong: bool)       // the owner answers

  ghost predicate Next(w: Watched, step: Step, w2: Watched) {
    match step
    case Counting => w2 == w.(d := w2.d) && Quiet(w.d, w2.d)
    case Taken(strong) =>
      w2 == w.(d := IncNode(w.d, strong, false, false, false).1,
               heldStrong := if strong then w.heldStrong + 1 else w.heldStrong,
               heldWeak := if strong then w.heldWeak else w.heldWeak + 1)
    case Returned(strong) =>
      && (if strong then 0 < w.heldStrong else 0 < w.heldWeak)
      && DecFate(Decremented(w.d, strong, false), strong) != Freed
      && w2 == w.(d := AfterDec(w.d, strong),
                  heldStrong := if strong then w.heldStrong - 1 else w.heldStrong,
                  heldWeak := if strong then w.heldWeak else w.heldWeak - 1)
    case Work =>
      && w.d.queued
      && w2 == w.(d := NodeWork(w.d), log := if NodeCommand(w.d).Some? then w.log + [Sent(NodeCommand(w.d).value)]
                  else w.log)
    case Answer(strong) =>
      && (if strong then w.d.pendingStrong else w.d.pendingWeak)
      && DecFate(Decremented(Answered(w.d, strong), strong, false), strong) != Freed
      && w2 == w.(d := AfterDec(Answered(w.d, strong), strong), log := w.log + [Done(strong)])
  }

  /** The node after binder_dec_node by its owner's side, when it stays. */
  function AfterDec(d: Node, strong: bool): Node
    requires d.proc.Some? || DecFate(Decremented(d, strong, false), strong) != Freed
  {
    var d1 := Decremented(d, strong, false);
    if DecFate(d1, strong) == Queued then d1.(queued := true) else d1
  }

  function Answered(d: Node, strong: bool): Node {
    if strong then d.(pendingStrong := false) else d.(pendingWeak := false)
  }

  /** The owner of node `n` answers. */
  function AnswerNode(s: State, n: Nid, strong: bool): State
    requires n in s.nodes
  {
    DecNode(s.(nodes := s.nodes[n := Answered(s.nodes[n], strong)]), n, strong, false)
  }

  lemma TakenInv(w: Watched, strong: bool, w2: Watched)
    requires Accounted(w) && Next(w, Taken(strong), w2)
    ensures Accounted(w2) && ToldOf(w2.d) == ToldOf(w.d)
  {
  }

  /** A decrement by the owner's side, when another count of the kind is accounted for. */
  lemma AfterDecOwes(d: Node, strong: bool)
    requires d.proc.Some? && 0 <= d.internalStrong && (Owed(d) ==> d.queued)
    requires DecFate(Decremented(d, strong, false), strong) != Freed
    requires d.hasStrong ==> d.hasWeak
    ensures var d2 := AfterDec(d, strong); Owed(d2) ==> d2.queued
    ensures var d2 := AfterDec(d, strong);
            && ToldOf(d2) == ToldOf(d) && d2.internalStrong == d.internalStrong
            && d2.localStrong == (if strong then d.localStrong - 1 else d.localStrong)
            && d2.localWeak == (if strong then d.localWeak else d.localWeak - 1)
  {
  }

  lemma ReturnedInv(w: Watched, strong: bool, w2: Watched)
    requires Accounted(w) && w.d.proc.Some? && Next(w, Returned(strong), w2)
    ensures Accounted(w2) && ToldOf(w2.d) == ToldOf(w.d)
  {
    AfterDecOwes(w.d, strong);
  }

  lemma WorkInv(w: Watched, w2: Watched)
    requires Accounted(w) && Next(w, Work, w2)
    ensures Accounted(w2)
    ensures var c := NodeCommand(w.d); Some(ToldOf(w2.d)) == if c.Some? then Tell(ToldOf(w.d), Sent(c.value))
        else Some(ToldOf(w.d))
  {
  }

  lemma AnswerInv(w: Watched, strong: bool, w2: Watched)
    requires Accounted(w) && w.d.proc.Some? && Next(w, Answer(strong), w2)
    ensures Accounted(w2) && Tell(ToldOf(w.d), Done(strong)) == Some(ToldOf(w2.d))
  {
    AfterDecOwes(Answered(w.d, strong), strong);
  }

  lemma TellNext(log: seq<Event>, e: Event)
    requires TellAll(log).Some?
    ensures TellAll(log + [e]) == Tell(TellAll(log).value, e)
  {
    assert (log + [e])[..|log|] == log;
  }

  /** Each step keeps the accounts, and what it tells the owner or hears from it is what the protocol allows. */
  lemma NextInv(w: Watched, step: Step, w2: Watched)
    requires OwnerInv(w) && w.d.proc.Some? && Next(w, step, w2)
    ensures OwnerInv(w2)
  {
    match step
    case Counting =>
    case Taken(strong) => TakenInv(w, strong, w2);
    case Returned(strong) => ReturnedInv(w, strong, w2);
    case Work =>
      WorkInv(w, w2);
      if NodeCommand(w.d).Some? {
        TellNext(w.log, Sent(NodeCommand(w.d).value));
      }
    case Answer(strong) =>
      AnswerInv(w, strong, w2);
      TellNext(w.log, Done(strong));
  }

  ghost predicate Run(ws: seq<Watched>, steps: seq<Step>) {
    && |ws| == |steps| + 1
    && forall i {:trigger steps[i]} | 0 <= i < |steps| :: ws[i].d.proc.Some? && Next(ws[i], steps[i], ws[i + 1])
  }

  lemma {:induction false} RunInv(ws: seq<Watched>, steps: seq<Step>, i: nat)
    requires Run(ws, steps) && OwnerInv(ws[0]) && i <= |steps|
    ensures OwnerInv(ws[i])
    decreases i
  {
    if i != 0 {
      RunInv(ws, steps, i - 1);
      NextInv(ws[i - 1], steps[i - 1], ws[i]);
    }
  }

  // ----- what the owner sees

  /** The commands among the events. */
  function Commands(log: seq<Event>): seq<Command>
    decreases |log|
  {
    if log == [] then []
    else Commands(log[..|log| - 1]) + if log[|log| - 1].Sent? then [log[|log| - 1].command] else []
  }

  /** (ACQUIRE RELEASE)^n */
  function Pairs(n: nat): seq<Command> {
    if n == 0 then [] else Pairs(n - 1) + [Acquire, ReleaseStrong]
  }

  /** INCREFS (ACQUIRE RELEASE)^n DECREFS for each n in `cycles`. */
  function Word(cycles: seq<nat>): seq<Command>
    decreases |cycles|
  {
    if cycles == [] then []
    else Word(cycles[..|cycles| - 1]) + [IncRefs] + Pairs(cycles[|cycles| - 1]) + [DecRefs]
  }

  /** The commands are a prefix of (INCREFS (ACQUIRE RELEASE)* DECREFS)*. */
  ghost predicate WellFormed(cmds: seq<Command>) {
    exists cycles: seq<nat> :: cmds <= Word(cycles)
  }

  /** The same by an automaton: whether the owner has a weak and a strong count after the commands. */
  function Ask(cmds: seq<Command>): Option<(bool, bool)>
    decreases |cmds|
  {
    if cmds == [] then Some((false, false))
    else
      var q := Ask(cmds[..|cmds| - 1]);
      if q.None? then None else AskOne(q.value, cmds[|cmds| - 1])
  }

  function AskOne(q: (bool, bool), c: Command): Option<(bool, bool)> {
    match c
    case IncRefs => if !q.0 then Some((true, false)) else None
    case Acquire => if q.0 && !q.1 then Some((true, true)) else None
    case ReleaseStrong => if q.0 && q.1 then Some((true, false)) else None
    case DecRefs => if q.0 && !q.1 then Some((false, false)) else None
  }

  /** The commands that lead to state `q`: whole cycles and, when the owner has a count, a begun one. */
  ghost predicate Leads(cmds: seq<Command>, q: (bool, bool), cycles: seq<nat>, n: nat) {
    cmds == if !q.0 then Word(cycles)
            else if !q.1 then Word(cycles) + [IncRefs] + Pairs(n)
            else Word(cycles) + [IncRefs] + Pairs(n) + [Acquire]
  }

  lemma LeadsNext(cmds: seq<Command>, q: (bool, bool), c: Command, cycles: seq<nat>, n: nat)
    returns (cycles2: seq<nat>, n2: nat)
    requires Leads(cmds, q, cycles, n) && AskOne(q, c).Some?
    ensures Leads(cmds + [c], AskOne(q, c).value, cycles2, n2)
  {
    match c
    case IncRefs => cycles2, n2 := cycles, 0;
    case Acquire => cycles2, n2 := cycles, n;
    case ReleaseStrong =>
      assert Pairs(n + 1) == Pairs(n) + [Acquire, ReleaseStrong];
      cycles2, n2 := cycles, n + 1;
    case DecRefs =>
      assert (cycles + [n])[..|cycles|] == cycles;
      cycles2, n2 := cycles + [n], 0;
  }

  lemma {:induction false} AskLeads(cmds: seq<Command>) returns (cycles: seq<nat>, n: nat)
    requires Ask(cmds).Some?
    ensures Leads(cmds, Ask(cmds).value, cycles, n)
    decreases |cmds|
  {
    if cmds == [] {
      cycles, n := [], 0;
    } else {
      var pre, c := cmds[..|cmds| - 1], cmds[|cmds| - 1];
      var cycles1, n1 := AskLeads(pre);
      cycles, n := LeadsNext(pre, Ask(pre).value, c, cycles1, n1);
      assert cmds == pre + [c];
    }
  }

  lemma AskAppend(cmds: seq<Command>, c: Command)
    ensures Ask(cmds + [c]) == if Ask(cmds).None? then None else AskOne(Ask(cmds).value, c)
  {
    assert (cmds + [c])[..|cmds|] == cmds;
  }

  lemma {:induction false} AskPrefix(cmds: seq<Command>, k: nat)
    requires Ask(cmds).Some? && k <= |cmds|
    ensures Ask(cmds[..k]).Some?
    decreases |cmds|
  {
    if k == |cmds| {
      assert cmds[..k] == cmds;
    } else {
      assert cmds[..|cmds| - 1][..k] == cmds[..k];
      AskPrefix(cmds[..|cmds| - 1], k);
    }
  }

  lemma {:induction false} AskPairs(cmds: seq<Command>, n: nat)
    requires Ask(cmds) == Some((true, false))
    ensures Ask(cmds + Pairs(n)) == Some((true, false))
  {
    if n == 0 {
      assert cmds + Pairs(0) == cmds;
    } else {
      AskPairs(cmds, n - 1);
      AskAppend(cmds + Pairs(n - 1), Acquire);
      AskAppend(cmds + Pairs(n - 1) + [Acquire], ReleaseStrong);
      assert cmds + Pairs(n) == cmds + Pairs(n - 1) + [Acquire] + [ReleaseStrong];
    }
  }

  lemma {:induction false} AskWord(cycles: seq<nat>)
    ensures Ask(Word(cycles)) == Some((false, false))
    decreases |cycles|
  {
    if cycles != [] {
      var pre, n := cycles[..|cycles| - 1], cycles[|cycles| - 1];
      AskWord(pre);
      AskAppend(Word(pre), IncRefs);
      AskPairs(Word(pre) + [IncRefs], n);
      AskAppend(Word(pre) + [IncRefs] + Pairs(n), DecRefs);
    }
  }

  lemma LeadsShape(cmds: seq<Command>, q: (bool, bool), cycles: seq<nat>, n: nat)
    requires Leads(cmds, q, cycles, n)
    ensures WellFormed(cmds)
  {
    if !q.0 {
      assert cmds <= Word(cycles);
    } else {
      var m := if q.1 then n + 1 else n;
      var whole := cycles + [m];
      assert whole[..|cycles|] == cycles;
      assert Pairs(n + 1) == Pairs(n) + [Acquire, ReleaseStrong];
      assert Word(whole) == Word(cycles) + [IncRefs] + Pairs(m) + [DecRefs];
      assert cmds <= Word(whole);
    }
  }

  lemma PrefixAsks(cmds: seq<Command>, cycles: seq<nat>)
    requires cmds <= Word(cycles)
    ensures Ask(cmds).Some?
  {
    AskWord(cycles);
    AskPrefix(Word(cycles), |cmds|);
    assert Word(cycles)[..|cmds|] == cmds;
  }

  /** The automaton accepts exactly the prefixes of (INCREFS (ACQUIRE RELEASE)* DECREFS)*. */
  lemma AskIff(cmds: seq<Command>)
    ensures Ask(cmds).Some? <==> WellFormed(cmds)
  {
    if Ask(cmds).Some? {
      var cycles, n := AskLeads(cmds);
      LeadsShape(cmds, Ask(cmds).value, cycles, n);
    } else if WellFormed(cmds) {
      var cycles: seq<nat> :| cmds <= Word(cycles);
      PrefixAsks(cmds, cycles);
    }
  }

  lemma TellAskNext(cmds: seq<Command>, q: Told, e: Event)
    requires Ask(cmds) == Some((q.hasWeak, q.hasStrong)) && (q.hasStrong ==> q.hasWeak) && Tell(q, e).Some?
    ensures var q2 := Tell(q, e).value;
            && (q2.hasStrong ==> q2.hasWeak)
            && Ask(cmds + if e.Sent? then [e.command] else []) == Some((q2.hasWeak, q2.hasStrong))
  {
    if e.Sent? {
      AskAppend(cmds, e.command);
    } else {
      assert cmds + [] == cmds;
    }
  }

  /** The answers leave the commands as the automaton sees them. */
  lemma {:induction false} TellAsks(log: seq<Event>)
    requires TellAll(log).Some?
    ensures var q := TellAll(log).value; (q.hasStrong ==> q.hasWeak)
                                         && Ask(Commands(log)) == Some((q.hasWeak, q.hasStrong))
    decreases |log|
  {
    if log != [] {
      var pre := log[..|log| - 1];
      TellAsks(pre);
      TellAskNext(Commands(pre), TellAll(pre).value, log[|log| - 1]);
    }
  }

  /** Event `i` comes after an answer, with no command of the kind that asks for one in between. */
  ghost predicate AnsweredBefore(log: seq<Event>, i: nat, asks: Command, answer: Event) {
    exists j :: 0 <= j < i <= |log| && log[j] == answer && forall k | j < k < i :: log[k] != Sent(asks)
  }

  /** When a count is with the owner and nothing is pending, its last request was answered. */
  lemma {:induction false} LastAnswered(log: seq<Event>)
    requires TellAll(log).Some?
    ensures var q := TellAll(log).value;
            && (q.hasStrong && !q.pendingStrong ==> AnsweredBefore(log, |log|, Acquire, Done(true)))
            && (q.hasWeak && !q.pendingWeak ==> AnsweredBefore(log, |log|, IncRefs, Done(false)))
    decreases |log|
  {
    if log != [] {
      var m := |log| - 1;
      LastAnswered(log[..m]);
      var q, q2 := TellAll(log[..m]).value, TellAll(log).value;
      if q2.hasStrong && !q2.pendingStrong {
        AnswerStays(log, Acquire, Done(true), q.hasStrong && !q.pendingStrong);
      }
      if q2.hasWeak && !q2.pendingWeak {
        AnswerStays(log, IncRefs, Done(false), q.hasWeak && !q.pendingWeak);
      }
    }
  }

  lemma AnswerStays(log: seq<Event>, asks: Command, answer: Event, before: bool)
    requires log != [] && answer.Done?
    requires before ==> AnsweredBefore(log[..|log| - 1], |log| - 1, asks, answer) && log[|log| - 1] != Sent(asks)
    requires !before ==> log[|log| - 1] == answer
    ensures AnsweredBefore(log, |log|, asks, answer)
  {
    var m := |log| - 1;
    if before {
      var j :| 0 <= j < m && log[..m][j] == answer && forall k | j < k < m :: log[..m][k] != Sent(asks);
      assert log[j] == answer;
      forall k | j < k < |log|
        ensures log[k] != Sent(asks)
      {
        assert k < m ==> log[..m][k] == log[k];
      }
    } else {
      assert log[m] == answer;
    }
  }

  /**
    No BR_RELEASE is sent before BC_ACQUIRE_DONE has answered the last BR_ACQUIRE, nor
    BR_DECREFS before BC_INCREFS_DONE.
   */
  lemma {:induction false} NoEarlyRelease(log: seq<Event>, i: nat)
    requires TellAll(log).Some? && i < |log|
    ensures log[i] == Sent(ReleaseStrong) ==> AnsweredBefore(log[..i], i, Acquire, Done(true))
    ensures log[i] == Sent(DecRefs) ==> AnsweredBefore(log[..i], i, IncRefs, Done(false))
    decreases |log|
  {
    var m := |log| - 1;
    if i < m {
      NoEarlyRelease(log[..m], i);
      assert log[..m][..i] == log[..i];
    } else {
      LastAnswered(log[..m]);
    }
  }

  /** What an owner has been sent about its node. */
  ghost predicate SeenWell(d: Node, log: seq<Event>) {
    && (d.hasStrong ==> d.hasWeak)
    && WellFormed(Commands(log))
    && forall j {:trigger log[j]} | 0 <= j < |log| ::
         && (log[j] == Sent(ReleaseStrong) ==> AnsweredBefore(log[..j], j, Acquire, Done(true)))
         && (log[j] == Sent(DecRefs) ==> AnsweredBefore(log[..j], j, IncRefs, Done(false)))
  }

  lemma InvSeenWell(w: Watched)
    requires OwnerInv(w)
    ensures SeenWell(w.d, w.log)
  {
    var log := w.log;
    TellAsks(log);
    AskIff(Commands(log));
    forall j | 0 <= j < |log|
      ensures log[j] == Sent(ReleaseStrong) ==> AnsweredBefore(log[..j], j, Acquire, Done(true))
      ensures log[j] == Sent(DecRefs) ==> AnsweredBefore(log[..j], j, IncRefs, Done(false))
    {
      NoEarlyRelease(log, j);
    }
  }

  /**
    In every run from a new node, the commands to its owner form a prefix of
    (INCREFS (ACQUIRE RELEASE)* DECREFS)*, the owner never has a strong count without a
    weak one, and nothing is taken back while its answer is outstanding.
   */
  lemma OwnerSees(ws: seq<Watched>, steps: seq<Step>, i: nat)
    requires Run(ws, steps) && Fresh(ws[0]) && i <= |steps|
    ensures SeenWell(ws[i].d, ws[i].log)
  {
    RunInv(ws, steps, i);
    InvSeenWell(ws[i]);
  }

  /**
    However the node's counts stand, its owner has read all there is after two
    commands: then it has exactly the counts that the node has, and the node leaves the
    list, for good when nothing refers to it.
   */
  lemma WorkSettles(d: Node)
    requires d.hasStrong ==> d.hasWeak
    requires 0 <= d.localStrong && 0 <= d.localWeak && 0 <= d.internalStrong
    ensures var d2 := NodeWork(NodeWork(d)); NodeCommand(d2) == None && d2.hasStrong == IsStrong(d2)
                                             && d2.hasWeak == IsWeak(d2)
    ensures var d2 := NodeWork(NodeWork(d)); IsStrong(d2) == IsStrong(d) && IsWeak(d2) == IsWeak(d)
    ensures !Owed(NodeWork(NodeWork(d))) && !NodeWork(NodeWork(NodeWork(d))).queued
    ensures NodeCommand(d).Some? ==> NodeWork(d).queued == d.queued
  {
  }

  // ----- the operations on references are quiet

  lemma IncRefQuiet(s: State, r: Rid, strong: bool, listed: bool, n: Nid)
    requires Inv(s) && r in s.refs && s.refs[r].node in s.nodes && n in s.nodes
        && n in IncRef(s, r, strong, listed).nodes
    ensures Quiet(s.nodes[n], IncRef(s, r, strong, listed).nodes[n])
  {
    assert NodeOk(s, n);
  }

  lemma NewRefQuiet(s: State, p: Pid, m: Nid, n: Nid)
    requires Inv(s) && p in s.procs && m in s.nodes && n in s.nodes
    ensures Quiet(s.nodes[n], NewRef(s, p, m).nodes[n])
  {
    assert NodeOk(s, n);
  }

  lemma LoweredQuiet(s: State, r: Rid, f1: Ref, n: Nid)
    requires Inv(s) && r in s.refs && s.refs[r].node in s.nodes && n in s.nodes && s.nodes[n].proc.Some?
    requires f1.proc == s.refs[r].proc && f1.node == s.refs[r].node && f1.desc == s.refs[r].desc
        && f1.strong <= s.refs[r].strong
    ensures Quiet(s.nodes[n], Lowered(s, r, f1).nodes[n])
  {
    LoweredInv(s, r, f1);
    assert NodeOk(s, n) && NodeOk(Lowered(s, r, f1), n);
  }

  lemma DeleteRefQuiet(s: State, r: Rid, n: Nid)
    requires Inv(s) && r in s.refs && s.refs[r].node in s.nodes && s.refs[r].proc in s.procs
    requires n in s.nodes && s.nodes[n].proc.Some? && n in DeleteRef(s, r).nodes
    ensures Quiet(s.nodes[n], DeleteRef(s, r).nodes[n])
  {
    assert NodeOk(s, n);
    if n == s.refs[r].node {
      UnlinkedCount(s, r);
      UnlinkedQuiet(s.nodes[n], s.refs[r].strong > 0, r);
    }
  }

  lemma UnlinkedCount(s: State, r: Rid)
    requires Inv(s) && r in s.refs && s.refs[r].node in s.nodes && s.refs[r].proc in s.procs
    ensures s.refs[r].strong > 0 ==> 0 < s.nodes[s.refs[r].node].internalStrong
  {
    assert RefOk(s, r) && NodeOk(s, s.refs[r].node);
    if s.refs[r].strong > 0 {
      assert r in StrongRefs(s, s.refs[r].node);
    }
  }

  /** A node that loses a reference: its share of the strong count, then its place in the list. */
  lemma UnlinkedQuiet(d: Node, counted: bool, r: Rid)
    requires 0 <= d.internalStrong && (counted ==> 0 < d.internalStrong) && d.proc.Some?
    ensures var d1 := if counted then d.(internalStrong := d.internalStrong - 1) else d;
            var d2 := if counted && DecFate(d1, true) == Queued then d1.(queued := true) else d1;
            var d3 := d2.(refs := d2.refs - {r});
            DecFate(d3, false) != Freed ==> Quiet(d, if DecFate(d3, false) == Queued then d3.(queued := true) else d3)
  {
  }

  lemma DecRefQuiet(s: State, r: Rid, strong: bool, n: Nid)
    requires Inv(s) && r in s.refs && s.refs[r].node in s.nodes && s.refs[r].proc in s.procs
    requires n in s.nodes && s.nodes[n].proc.Some? && n in DecRef(s, r, strong).nodes
    ensures Quiet(s.nodes[n], DecRef(s, r, strong).nodes[n])
  {
    var f := s.refs[r];
    assert NodeOk(s, n);
    if if strong then f.strong > 0 else f.weak > 0 {
      var f1 := if strong then f.(strong := f.strong - 1) else f.(weak := f.weak - 1);
      LoweredQuiet(s, r, f1, n);
      LoweredInv(s, r, f1);
      if f1.strong == 0 && f1.weak == 0 {
        DeleteRefQuiet(Lowered(s, r, f1), r, n);
      }
    }
  }

  // ----- what no owner notices

  /** To the owner of node `n` a quiet step; or the node had no local counts and was freed. */
  ghost predicate QuietAt(s: State, s2: State, n: Nid)
    requires n in s.nodes
  {
    if n in s2.nodes then s2.nodes[n].proc == s.nodes[n].proc && Quiet(s.nodes[n], s2.nodes[n])
    else s.nodes[n].localStrong == 0 && s.nodes[n].localWeak == 0
  }

  ghost predicate NewAt(s2: State, n: Nid)
    requires n in s2.nodes
  {
    Fresh(Watched(s2.nodes[n], 0, 0, []))
  }

  /** Between `s` and `s2` there is nothing that an owner takes part in. */
  ghost predicate OwnersQuiet(s: State, s2: State) {
    && s2.procs.Keys == s.procs.Keys && s2.mgr == s.mgr
    && (forall n {:trigger QuietAt(s, s2, n)} | n in s.nodes && s.nodes[n].proc.Some? :: QuietAt(s, s2, n))
    && (forall n {:trigger NewAt(s2, n)} | n in s2.nodes && n !in s.nodes :: NewAt(s2, n))
  }

  lemma OwnersQuietTransitive(s: State, s1: State, s2: State)
    requires OwnersQuiet(s, s1) && OwnersQuiet(s1, s2) && s1.nodes.Keys <= s.nodes.Keys
        && s2.nodes.Keys <= s1.nodes.Keys
    ensures OwnersQuiet(s, s2)
  {
    forall n | n in s.nodes && s.nodes[n].proc.Some?
      ensures QuietAt(s, s2, n)
    {
      assert QuietAt(s, s1, n) && (n in s1.nodes ==> QuietAt(s1, s2, n));
    }
  }

  lemma NothingQuiet(s: State)
    requires Inv(s)
    ensures OwnersQuiet(s, s)
  {
    forall n | n in s.nodes && s.nodes[n].proc.Some?
      ensures QuietAt(s, s, n)
    {
      assert NodeOk(s, n);
    }
  }

  lemma IncRefOwners(s: State, r: Rid, strong: bool, listed: bool)
    requires Inv(s) && r in s.refs && s.refs[r].node in s.nodes
    ensures OwnersQuiet(s, IncRef(s, r, strong, listed))
  {
    forall n | n in s.nodes && s.nodes[n].proc.Some?
      ensures QuietAt(s, IncRef(s, r, strong, listed), n)
    {
      IncRefQuiet(s, r, strong, listed, n);
    }
  }

  lemma NewRefOwners(s: State, p: Pid, m: Nid)
    requires Inv(s) && p in s.procs && m in s.nodes
    ensures OwnersQuiet(s, NewRef(s, p, m))
  {
    forall n | n in s.nodes && s.nodes[n].proc.Some?
      ensures QuietAt(s, NewRef(s, p, m), n)
    {
      NewRefQuiet(s, p, m, n);
    }
  }

  lemma NewNodeOwners(s: State, p: Pid, ptr: Ptr, cookie: Ptr)
    requires Inv(s) && p in s.procs
    ensures OwnersQuiet(s, NewNode(s, p, ptr, cookie))
  {
    NextIdIsFresh(s);
    forall n | n in s.nodes && s.nodes[n].proc.Some?
      ensures QuietAt(s, NewNode(s, p, ptr, cookie), n)
    {
      assert NodeOk(s, n);
    }
  }

  /** A node that goes with its last reference has no local counts. */
  lemma DeleteRefOwners(s: State, r: Rid)
    requires Inv(s) && r in s.refs && s.refs[r].node in s.nodes && s.refs[r].proc in s.procs
    ensures OwnersQuiet(s, DeleteRef(s, r)) && DeleteRef(s, r).nodes.Keys <= s.nodes.Keys
  {
    forall n | n in s.nodes && s.nodes[n].proc.Some?
      ensures QuietAt(s, DeleteRef(s, r), n)
    {
      if n in DeleteRef(s, r).nodes {
        DeleteRefQuiet(s, r, n);
      }
    }
  }

  lemma LoweredOwners(s: State, r: Rid, f1: Ref)
    requires Inv(s) && r in s.refs && s.refs[r].node in s.nodes
    requires f1.proc == s.refs[r].proc && f1.node == s.refs[r].node && f1.desc == s.refs[r].desc
        && f1.strong <= s.refs[r].strong
    ensures OwnersQuiet(s, Lowered(s, r, f1)) && Lowered(s, r, f1).nodes.Keys == s.nodes.Keys
  {
    forall n | n in s.nodes && s.nodes[n].proc.Some?
      ensures QuietAt(s, Lowered(s, r, f1), n)
    {
      LoweredQuiet(s, r, f1, n);
    }
  }

  lemma DecRefOwners(s: State, r: Rid, strong: bool)
    requires Inv(s) && r in s.refs && s.refs[r].node in s.nodes && s.refs[r].proc in s.procs
    ensures OwnersQuiet(s, DecRef(s, r, strong)) && DecRef(s, r, strong).nodes.Keys <= s.nodes.Keys
  {
    var f := s.refs[r];
    if if strong then f.strong > 0 else f.weak > 0 {
      var f1 := if strong then f.(strong := f.strong - 1) else f.(weak := f.weak - 1);
      LoweredOwners(s, r, f1);
      LoweredInv(s, r, f1);
      if f1.strong == 0 && f1.weak == 0 {
        var s1 := Lowered(s, r, f1);
        DeleteRefOwners(s1, r);
        OwnersQuietTransitive(s, s1, DeleteRef(s1, r));
      }
    } else {
      NothingQuiet(s);
    }
  }
}
