/**
  binder_send_failed_reply as a function of the state: which transactions it
  frees, and which thread it reaches.
 */
module FailedReply {
  import opened Options
  import opened CallChains
  import opened CallSteps

  /** A thread's two pending errors after `code` is added. */
  function Pushed(th: Thread, code: Code): (Code, Code) {
    if th.error != Ok && th.error2 == Ok then (code, th.error) else (code, th.error2)
  }

  /** The state after the last call of loose chain `r` failed with `code`. */
  ghost function Fail(s: State, r: Xid, code: Code): State
    requires Inv(s, Some(r))
    decreases if r in s.chains then |s.chains[r].xs| else 0
  {
    LastHop(s, r);
    var c := s.chains[r];
    var n := |c.xs|;
    match c.who[n - 1]
    case Some(u) =>
      var e := Pushed(s.threads[u], code);
      Pop(s, r, u, e.0, e.1)
    case None =>
      DropInv(s, r);
      if n == 1 then Drop(s, r) else Fail(Drop(s, r), r, code)
  }

  lemma {:induction false} FailInv(s: State, r: Xid, code: Code)
    requires Inv(s, Some(r)) && code != Ok
    ensures Inv(Fail(s, r, code), None)
    decreases if r in s.chains then |s.chains[r].xs| else 0
  {
    LastHop(s, r);
    var c := s.chains[r];
    var n := |c.xs|;
    match c.who[n - 1]
    case Some(u) =>
      var e := Pushed(s.threads[u], code);
      PopInv(s, r, u, e.0, e.1);
    case None =>
      DropInv(s, r);
      if 1 < n {
        FailInv(Drop(s, r), r, code);
      }
  }

  /** The last place of a living caller among the first `n`, or -1. */
  function NearestLiving(who: seq<Option<Tid>>, n: nat): (k: int)
    requires n <= |who|
    ensures -1 <= k < n
    ensures 0 <= k ==> who[k].Some?
    ensures forall j | k < j < n :: who[j] == None
  {
    if n == 0 then -1 else if who[n - 1].Some? then n - 1 else NearestLiving(who, n - 1)
  }

  /** The calls from place `k` on. */
  function From(xs: seq<Xid>, k: int): set<Xid> {
    if 0 <= k <= |xs| then set x | x in xs[k..] else set x | x in xs
  }

  /**
    Exactly the calls from place `k` on were freed; the caller at `k` got the error,
    with the one it had, if any, to be read before it, and is back at the call it was
    serving; with no living caller the whole chain is gone and no thread has noticed.
   */
  ghost predicate Reached(s: State, s2: State, r: Xid, k: int, code: Code)
    requires r in s.chains && s.chains[r].Shaped() && -1 <= k < |s.chains[r].xs|
  {
    var c := s.chains[r];
    && s2.txns == s.txns - From(c.xs, k)
    && s2.procTodo == s.procTodo
    && s2.chains == (if k <= 0 then s.chains - {r} else s.chains[r := Chain(c.xs[..k], c.who[..k + 1])])
    && if k < 0 then s2.threads == s.threads
       else
         && c.who[k].Some? && c.who[k].value in s.threads
         && var u := c.who[k].value;
         var th := s.threads[u];
         && th.stack == Some(c.xs[k]) && th.error2 == Ok
         && s2.threads == s.threads[u := th.(
              stack := if k == 0 then None else Some(c.xs[k - 1]), error := code, error2 := th.error)]
  }

  lemma PopReaches(s: State, r: Xid, u: Tid, code: Code)
    requires r in s.chains && ChainOk(s, r, Some(r)) && u in s.threads
    requires s.chains[r].xs[|s.chains[r].xs| - 1] in s.txns
    requires s.chains[r].who[|s.chains[r].xs| - 1] == Some(u) && s.threads[u].error2 == Ok
    ensures var e := Pushed(s.threads[u], code);
            Reached(s, Pop(s, r, u, e.0, e.1), r, |s.chains[r].xs| - 1, code)
  {
    var c := s.chains[r];
    var n := |c.xs|;
    assert Made(s.txns, c, n - 1) && SeatedAt(s.threads, c, n - 1);
    LastPosIs(c.who, u, n - 1);
    assert c.who[..n] == c.who;
    assert c.xs[n - 1..] == [c.xs[n - 1]];
    assert From(c.xs, n - 1) == {c.xs[n - 1]};
  }

  lemma DropReaches(s: State, r: Xid, code: Code)
    requires r in s.chains && ChainOk(s, r, Some(r)) && |s.chains[r].xs| == 1
    ensures Reached(s, Drop(s, r), r, -1, code)
  {
    var c := s.chains[r];
    assert c.xs == [c.xs[0]];
    assert From(c.xs, -1) == {c.xs[0]};
  }

  lemma DropThenReached(s: State, s2: State, r: Xid, k: int, code: Code)
    requires r in s.chains && ChainOk(s, r, Some(r)) && 1 < |s.chains[r].xs|
    requires -1 <= k < |s.chains[r].xs| - 1
    requires r in Drop(s, r).chains && Drop(s, r).chains[r].Shaped() && Reached(Drop(s, r), s2, r, k, code)
    ensures Reached(s, s2, r, k, code)
  {
    var c := s.chains[r];
    var n := |c.xs|;
    var d := Drop(s, r).chains[r];
    assert d.xs == c.xs[..n - 1] && d.who == c.who[..n - 1];
    FromPrefix(c.xs, k);
    if 0 < k {
      assert d.xs[..k] == c.xs[..k] && d.who[..k + 1] == c.who[..k + 1];
    }
  }

  lemma FromPrefix(xs: seq<Xid>, k: int)
    requires 0 < |xs| && -1 <= k < |xs|
    ensures From(xs, k) == From(xs[..|xs| - 1], k) + {xs[|xs| - 1]}
  {
    var n := |xs|;
    var j := if k < 0 then 0 else k;
    assert xs[j..] == xs[..n - 1][j..] + [xs[n - 1]];
  }

  /** Dead-reply propagation: the failure reaches the nearest living caller. */
  lemma {:induction false} FailReaches(s: State, r: Xid, code: Code)
    requires Inv(s, Some(r))
    ensures r in s.chains && s.chains[r].Shaped() && |s.chains[r].xs| == |s.chains[r].who|
    ensures Reached(s, Fail(s, r, code), r, NearestLiving(s.chains[r].who, |s.chains[r].xs|), code)
    decreases if r in s.chains then |s.chains[r].xs| else 0
  {
    LastHop(s, r);
    var c := s.chains[r];
    var n := |c.xs|;
    match c.who[n - 1]
    case Some(u) =>
      PopReaches(s, r, u, code);
    case None =>
      DropInv(s, r);
      if n == 1 {
        DropReaches(s, r, code);
      } else {
        FailReaches(Drop(s, r), r, code);
        NearestLivingSame(c.who, c.who[..n - 1], n - 1);
        DropThenReached(s, Fail(Drop(s, r), r, code), r, NearestLiving(c.who, n), code);
      }
  }

  /** What the failure of loose chain `r` comes to: its nearest living caller is told. */
  ghost predicate ToldNearest(s: State, s2: State, r: Xid, code: Code) {
    && r in s.chains && s.chains[r].Shaped() && |s.chains[r].xs| == |s.chains[r].who|
    && Reached(s, s2, r, NearestLiving(s.chains[r].who, |s.chains[r].xs|), code)
  }

  lemma {:induction false} NearestLivingSame(a: seq<Option<Tid>>, b: seq<Option<Tid>>, n: nat)
    requires n <= |a| && n <= |b| && forall i | 0 <= i < n :: a[i] == b[i]
    ensures NearestLiving(a, n) == NearestLiving(b, n)
  {
    if n == 0 {
    } else {
      NearestLivingSame(a, b, n - 1);
    }
  }

  /** The thread reached was waiting for a call of the chain, so it has at most one error pending: there is room. */
  lemma ReachedHasRoom(s: State, r: Xid)
    requires Inv(s, Some(r))
    ensures r in s.chains && s.chains[r].Shaped() && |s.chains[r].xs| == |s.chains[r].who|
    ensures var c := s.chains[r]; var k := NearestLiving(c.who, |c.xs|);
            0 <= k ==> c.who[k].value in s.threads && s.threads[c.who[k].value].error2 == Ok
  {
    assert ChainOk(s, r, Some(r));
    var c := s.chains[r];
    var k := NearestLiving(c.who, |c.xs|);
    if 0 <= k {
      assert Made(s.txns, c, k) && SeatedAt(s.threads, c, k);
      LastPosIs(c.who, c.who[k].value, k);
      assert ThreadOk(s, c.who[k].value, Some(r));
    }
  }

  /** The codes that a thread has yet to read, in the order in which it reads them. */
  function Codes(th: Thread): seq<Code> {
    if th.error == Ok then [] else if th.error2 == Ok then [th.error] else [th.error2, th.error]
  }

  /** The caller that is reached has one more code to read, after those that it had; no other thread has. */
  lemma FailAddsCode(s: State, r: Xid, code: Code)
    requires Inv(s, Some(r)) && code != Ok
    ensures r in s.chains && s.chains[r].Shaped() && |s.chains[r].xs| == |s.chains[r].who|
    ensures var c := s.chains[r]; var k := NearestLiving(c.who, |c.xs|); var s2 := Fail(s, r, code);
            && s2.threads.Keys == s.threads.Keys
            && forall u | u in s.threads ::
                 Codes(s2.threads[u]) == Codes(s.threads[u]) + if 0 <= k && c.who[k] == Some(u) then [code] else []
  {
    FailReaches(s, r, code);
  }

  /** What the last hop of a loose chain looks like. */
  lemma LastHop(s: State, r: Xid)
    requires Inv(s, Some(r))
    ensures r in s.chains && s.chains[r].Shaped() && |s.chains[r].xs| == |s.chains[r].who| && s.chains[r].xs[0] == r
    ensures var c := s.chains[r]; var n := |c.xs|; var x := c.xs[n - 1];
            && x in s.txns && s.txns[x].from == c.who[n - 1]
            && s.txns[x].fromParent == (if n == 1 then None else Some(c.xs[n - 2]))
            && (c.who[n - 1].Some? ==> c.who[n - 1].value in s.threads && s.threads[c.who[n - 1].value].stack == Some(x)
                                       && s.threads[c.who[n - 1].value].error2 == Ok)
    ensures ChainOk(s, r, Some(r))
  {
    assert ChainOk(s, r, Some(r));
    var c := s.chains[r];
    var n := |c.xs|;
    assert Made(s.txns, c, n - 1) && SeatedAt(s.threads, c, n - 1);
    if c.who[n - 1].Some? {
      LastPosIs(c.who, c.who[n - 1].value, n - 1);
      assert ThreadOk(s, c.who[n - 1].value, Some(r));
    }
  }
}
