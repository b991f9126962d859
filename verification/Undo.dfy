/**
  A transaction's objects together: what translating a list of them adds to the
  counts, what releasing a buffer takes away, and that the second undoes the
  first, whether the whole list was translated or one of its objects failed.
 */
module Undo {
  import opened Options
  import opened NodeRefs
  import opened Persistence
  import opened Translation
  import opened Release

  // ----- translating the objects of a transaction

  /** `objects` are the objects as the target sees them; the first that failed is number |objects|. */
  datatype Sent = Sent(ok: bool, state: State, objects: seq<Object>)

  /** Lines 1516-1678: the objects in order, up to the first that fails. */
  ghost function SendObjects(s: State, sender: Pid, target: Pid, os: seq<Object>, mems: seq<Memory>): (r: Sent)
    requires Inv(s) && sender in s.procs && target in s.procs && |mems| == |os|
    ensures Inv(r.state) && Grows(s, r.state)
    decreases |os|
  {
    if os == [] then Sent(true, s, [])
    else
      var k := |os| - 1;
      var r := SendObjects(s, sender, target, os[..k], mems[..k]);
      if !r.ok then r
      else
        var t := Translate(r.state, sender, target, os[k], mems[k]);
        TranslateKeepsIdentity(r.state, sender, target, os[k], mems[k]);
        GrowsTransitive(s, r.state, t.1);
        Sent(t.0, t.1, if t.0 then r.objects + [t.2] else r.objects)
  }

  ghost predicate SendsAs(s: State, sender: Pid, target: Pid, os: seq<Object>, mems: seq<Memory>, r: Sent)
    requires Inv(s) && sender in s.procs && target in s.procs && |mems| == |os|
  {
    SendObjects(s, sender, target, os, mems) == r
  }

  /** One more object. */
  lemma SendNext(s: State, sender: Pid, target: Pid, os: seq<Object>, mems: seq<Memory>, i: nat, r: Sent,
                 t: (bool, State, Object))
    requires Inv(s) && sender in s.procs && target in s.procs && |mems| == |os| && i < |os|
    requires SendsAs(s, sender, target, os[..i], mems[..i], r) && r.ok
    requires Inv(r.state) && sender in r.state.procs && target in r.state.procs
    requires Translate(r.state, sender, target, os[i], mems[i]) == t
    ensures SendsAs(s, sender, target, os[..i + 1], mems[..i + 1],
                    Sent(t.0, t.1, if t.0 then r.objects + [t.2] else r.objects))
  {
    assert os[..i + 1][..i] == os[..i] && mems[..i + 1][..i] == mems[..i];
  }

  lemma FailureStays(s: State, sender: Pid, target: Pid, os: seq<Object>, mems: seq<Memory>, pre: seq<Object>,
                     memsPre: seq<Memory>, r: Sent)
    requires Inv(s) && sender in s.procs && target in s.procs && |mems| == |os| && os != []
    requires pre == os[..|os| - 1] && memsPre == mems[..|os| - 1]
    requires SendsAs(s, sender, target, pre, memsPre, r) && !r.ok
    ensures SendsAs(s, sender, target, os, mems, r)
  {
  }

  /** Translation ends with the first object that fails. */
  lemma {:induction false} FailureEnds(s: State, sender: Pid, target: Pid, os: seq<Object>, mems: seq<Memory>, k: nat,
                                       j: nat, r: Sent)
    requires Inv(s) && sender in s.procs && target in s.procs && |mems| == |os| && k <= j <= |os|
    requires SendsAs(s, sender, target, os[..k], mems[..k], r) && !r.ok
    ensures SendsAs(s, sender, target, os[..j], mems[..j], r)
    decreases j
  {
    if k < j {
      FailureEnds(s, sender, target, os, mems, k, j - 1, r);
      assert os[..j][..j - 1] == os[..j - 1] && mems[..j][..j - 1] == mems[..j - 1];
      FailureStays(s, sender, target, os[..j], mems[..j], os[..j - 1], mems[..j - 1], r);
    }
  }

  /** Objects are given up just when one cannot be sent: all before it could. */
  lemma {:induction false} SendStops(s: State, sender: Pid, target: Pid, os: seq<Object>, mems: seq<Memory>)
    requires Inv(s) && sender in s.procs && target in s.procs && |mems| == |os|
    ensures var r := SendObjects(s, sender, target, os, mems); var k := |r.objects|;
            && k <= |os| && (r.ok <==> k == |os|)
            && (!r.ok ==>
                  var r1 := SendObjects(s, sender, target, os[..k], mems[..k]);
                  r1.ok && r1.objects == r.objects && Grows(s, r1.state)
                      && !CanSend(r1.state, sender, target, os[k], mems[k]))
    decreases |os|
  {
    if os != [] {
      var k := |os| - 1;
      SendStops(s, sender, target, os[..k], mems[..k]);
      var r := SendObjects(s, sender, target, os[..k], mems[..k]);
      if r.ok {
        SendsIff(r.state, sender, target, os[k], mems[k]);
      } else {
        var j := |r.objects|;
        assert os[..k][..j] == os[..j] && mems[..k][..j] == mems[..j];
      }
    }
  }

  lemma GrowsKeepsSameMeaning(s: State, s2: State, sender: Pid, target: Pid, o: Object, o2: Object)
    requires Grows(s, s2) && SameMeaning(s, sender, target, o, o2)
    ensures SameMeaning(s2, sender, target, o, o2)
  {
    GrowsKeepsMeaning(s, s2, sender, o);
    GrowsKeepsMeaning(s, s2, target, o2);
    assert NodeStays(s, s2, Denotes(s, sender, o).value);
  }

  /** Every object of a transaction, whatever came after it, means to the target what it means to the sender. */
  lemma {:induction false} SendKeepsMeaning(s: State, sender: Pid, target: Pid, os: seq<Object>, mems: seq<Memory>,
                                            i: nat)
    requires Inv(s) && sender in s.procs && target in s.procs && |mems| == |os|
    ensures var r := SendObjects(s, sender, target, os, mems);
            && |r.objects| <= |os|
            && (i < |r.objects| ==> SameMeaning(r.state, sender, target, os[i], r.objects[i]))
    decreases |os|
  {
    if os != [] {
      var k := |os| - 1;
      SendKeepsMeaning(s, sender, target, os[..k], mems[..k], i);
      var r := SendObjects(s, sender, target, os[..k], mems[..k]);
      if r.ok {
        SendCounts(s, sender, target, os[..k], mems[..k], Key(true, 0, true));
        var t := Translate(r.state, sender, target, os[k], mems[k]);
        TranslateKeepsIdentity(r.state, sender, target, os[k], mems[k]);
        if i < |r.objects| {
          GrowsKeepsSameMeaning(r.state, t.1, sender, target, os[i], r.objects[i]);
        }
      }
    }
  }

  /** Object `o` of process `p` stands for one of count `k`. */
  ghost predicate StandsFor(s: State, p: Pid, o: Object, k: Key) {
    !o.OtherObject? && Denotes(s, p, o) == Some(k.node) && o.BinderObject? == k.local && o.strong == k.strong
  }

  /** How many of the objects stand for count `k`. */
  ghost function Tally(s: State, p: Pid, os: seq<Object>, k: Key): nat
    decreases |os|
  {
    if os == [] then 0
    else Tally(s, p, os[..|os| - 1], k) + if StandsFor(s, p, os[|os| - 1], k) then 1 else 0
  }

  ghost predicate AllDenote(s: State, p: Pid, os: seq<Object>) {
    forall i | 0 <= i < |os| :: !os[i].OtherObject? && Denotes(s, p, os[i]).Some?
  }

  lemma {:induction false} TallyGrows(s: State, s2: State, p: Pid, os: seq<Object>, k: Key)
    requires Grows(s, s2) && AllDenote(s, p, os)
    ensures AllDenote(s2, p, os) && Tally(s2, p, os, k) == Tally(s, p, os, k)
    decreases |os|
  {
    if os != [] {
      var o := os[|os| - 1];
      TallyGrows(s, s2, p, os[..|os| - 1], k);
      GrowsKeepsMeaning(s, s2, p, o);
      forall i | 0 <= i < |os|
        ensures !os[i].OtherObject? && Denotes(s2, p, os[i]).Some?
      {
        GrowsKeepsMeaning(s, s2, p, os[i]);
      }
    }
  }

  /** `m` objects that stand for a count took it from `b` to `c`. */
  ghost predicate Within(b: int, c: int, m: nat, local: bool) {
    b <= c <= b + m && (b > 0 || local ==> c == b + m)
  }

  /**
    Each object that was translated adds one to the count that it stands for; only
    counts of references that were zero can stay behind, where increments were refused.
   */
  lemma {:induction false} SendCounts(s: State, sender: Pid, target: Pid, os: seq<Object>, mems: seq<Memory>, k: Key)
    requires Inv(s) && sender in s.procs && target in s.procs && |mems| == |os|
    ensures var r := SendObjects(s, sender, target, os, mems);
            && AllDenote(r.state, target, r.objects)
            && Within(Count(s, target, k), Count(r.state, target, k), Tally(r.state, target, r.objects, k), k.local)
            && (r.ok <==> |r.objects| == |os|) && |r.objects| <= |os|
    decreases |os|
  {
    if os != [] {
      var i := |os| - 1;
      SendCounts(s, sender, target, os[..i], mems[..i], k);
      var r := SendObjects(s, sender, target, os[..i], mems[..i]);
      if r.ok {
        NextCount(r.state, sender, target, os[i], mems[i], r.objects, k);
      }
    }
  }

  lemma NextCount(s: State, sender: Pid, target: Pid, o: Object, mem: Memory, os: seq<Object>, k: Key)
    requires Inv(s) && sender in s.procs && target in s.procs && AllDenote(s, target, os)
    ensures var t := Translate(s, sender, target, o, mem); var c := Count(s, target, k);
        var c2 := Count(t.1, target, k);
            if t.0 then
              && AllDenote(t.1, target, os + [t.2])
              && (c2 - c) + Tally(s, target, os, k) <= Tally(t.1, target, os + [t.2], k) && c <= c2
              && (c > 0 || k.local ==> (c2 - c) + Tally(s, target, os, k) == Tally(t.1, target, os + [t.2], k))
            else AllDenote(t.1, target, os) && c2 == c && Tally(t.1, target, os, k) == Tally(s, target, os, k)
  {
    var t := Translate(s, sender, target, o, mem);
    TranslateKeepsIdentity(s, sender, target, o, mem);
    TranslateCounts(s, sender, target, o, mem);
    TallyGrows(s, t.1, target, os, k);
    if t.0 {
      assert (os + [t.2])[..|os|] == os;
      var key := KeyOf(t.2, Denotes(t.1, target, t.2).value);
      assert StandsFor(t.1, target, t.2, k) <==> k == key;
      assert k != key ==> SameCount(s, t.1, target, k);
    } else {
      assert SameCount(s, t.1, target, k);
    }
  }

  predicate AllOwn(os: seq<Object>) {
    forall j | 0 <= j < |os| :: os[j].BinderObject?
  }

  /** When all objects are the sender's own, each of them that arrived is counted. */
  lemma {:induction false} OwnAreCounted(s: State, sender: Pid, target: Pid, os: seq<Object>, mems: seq<Memory>, k: Key)
    requires Inv(s) && sender in s.procs && target in s.procs && |mems| == |os|
    requires AllOwn(os)
    ensures var r := SendObjects(s, sender, target, os, mems);
            Count(r.state, target, k) == Count(s, target, k) + Tally(r.state, target, r.objects, k)
    decreases |os|
  {
    if os != [] {
      var i := |os| - 1;
      var pre, memsPre, o := os[..i], mems[..i], os[i];
      assert o.BinderObject? && AllOwn(pre);
      OwnAreCounted(s, sender, target, pre, memsPre, k);
      SendCounts(s, sender, target, pre, memsPre, k);
      var r := SendObjects(s, sender, target, pre, memsPre);
      if r.ok {
        OwnCounted(r.state, sender, target, o, mems[i], r.objects, k);
      }
    }
  }

  lemma OwnCounted(s: State, sender: Pid, target: Pid, o: Object, mem: Memory, os: seq<Object>, k: Key)
    requires Inv(s) && sender in s.procs && target in s.procs && AllDenote(s, target, os) && o.BinderObject?
    ensures var t := Translate(s, sender, target, o, mem); var out := if t.0 then os + [t.2] else os;
            Count(t.1, target, k) - Count(s, target, k) == Tally(t.1, target, out, k) - Tally(s, target, os, k)
  {
    var t := Translate(s, sender, target, o, mem);
    TranslateKeepsIdentity(s, sender, target, o, mem);
    TranslateCounts(s, sender, target, o, mem);
    TallyGrows(s, t.1, target, os, k);
    if t.0 {
      assert (os + [t.2])[..|os|] == os;
      var key := KeyOf(t.2, Denotes(t.1, target, t.2).value);
      assert StandsFor(t.1, target, t.2, k) <==> k == key;
      assert k != key ==> SameCount(s, t.1, target, k);
    } else {
      assert SameCount(s, t.1, target, k);
    }
  }

  /** No other process's counts change. */
  lemma {:induction false} SendOthers(s: State, sender: Pid, target: Pid, os: seq<Object>, mems: seq<Memory>, q: Pid,
                                      k: Key)
    requires Inv(s) && sender in s.procs && target in s.procs && |mems| == |os| && q != target && !k.local
    ensures SameCount(s, SendObjects(s, sender, target, os, mems).state, q, k)
    decreases |os|
  {
    if os != [] {
      var i := |os| - 1;
      SendOthers(s, sender, target, os[..i], mems[..i], q, k);
      var r := SendObjects(s, sender, target, os[..i], mems[..i]);
      if r.ok {
        TranslateCounts(r.state, sender, target, os[i], mems[i]);
        assert SameCount(r.state, Translate(r.state, sender, target, os[i], mems[i]).1, q, k);
      }
    }
  }

  // ----- releasing a buffer

  /** What releasing an object does: one less of the count it stands for, if it still denotes anything. */
  lemma ReleaseObjectCounts(s: State, p: Pid, o: Object)
    requires Inv(s)
    ensures var s2 := ReleaseObject(s, p, o);
            && Inv(s2) && Grows(s2, s)
            && (Denotes(s, p, o) == None ==> s2 == s)
            && (Denotes(s, p, o).Some? ==>
                  var k := KeyOf(o, Denotes(s, p, o).value);
                  LoweredBy(s, s2, p, k, if k.local then Count(s, p, k) - 1 else Less(Count(s, p, k), 1)))
  {
    if p in s.procs {
      assert ProcOk(s, p);
      match o
      case BinderObject(strong, ptr, _) =>
        if ptr in s.procs[p].nodes {
          DecLocalCounts(s, p, s.procs[p].nodes[ptr], strong);
        }
      case HandleObject(strong, h) =>
        if h in s.procs[p].byDesc {
          assert RefOk(s, s.procs[p].byDesc[h]);
          DecRefCounts(s, s.procs[p].byDesc[h], strong);
        }
      case OtherObject =>
    }
  }

  /** Lines 1253-1305: the objects in order. */
  ghost function ReleaseObjects(s: State, p: Pid, os: seq<Object>): (r: State)
    requires Inv(s)
    ensures Inv(r) && Grows(r, s)
    decreases |os|
  {
    if os == [] then s
    else
      var r := ReleaseObjects(s, p, os[..|os| - 1]);
      ReleaseObjectCounts(r, p, os[|os| - 1]);
      GrowsTransitive(ReleaseObject(r, p, os[|os| - 1]), r, s);
      ReleaseObject(r, p, os[|os| - 1])
  }

  lemma ReleaseNext(s: State, p: Pid, os: seq<Object>, i: nat)
    requires Inv(s) && i < |os|
    ensures ReleaseObjects(s, p, os[..i + 1]) == ReleaseObject(ReleaseObjects(s, p, os[..i]), p, os[i])
  {
    assert os[..i + 1][..i] == os[..i];
  }

  /** An object that no longer denotes what it did has no count left. */
  lemma GoneIsZero(s: State, s2: State, p: Pid, o: Object, k: Key)
    requires Inv(s) && Inv(s2) && Grows(s2, s) && StandsFor(s, p, o, k)
    ensures Denotes(s2, p, o).Some? || Count(s2, p, k) == 0
  {
    var n := k.node;
    assert ProcOk(s, p) && ProcStays(s2, s, p) && ProcOk(s2, p);
    if o.HandleObject? && n in s2.procs[p].byNode {
      var r := s2.procs[p].byNode[n];
      assert RefStays(s2, s, r) && RefOk(s2, r);
      assert RefOk(s, s.procs[p].byDesc[o.handle]);
    }
    if o.BinderObject? && n in s2.nodes {
      assert NodeStays(s2, s, n) && NodeOk(s2, n);
    }
  }

  /** The owner's counts cover the objects that stand for them. */
  ghost predicate Covered(s: State, p: Pid, os: seq<Object>) {
    forall k: Key {:trigger Tally(s, p, os, k)} | k.local && 0 < Tally(s, p, os, k) ::
        Tally(s, p, os, k) <= Count(s, p, k)
  }

  lemma CoveredPrefix(s: State, p: Pid, os: seq<Object>)
    requires os != [] && Covered(s, p, os)
    ensures Covered(s, p, os[..|os| - 1])
  {
    var pre := os[..|os| - 1];
    forall k: Key | k.local && 0 < Tally(s, p, pre, k)
      ensures Tally(s, p, pre, k) <= Count(s, p, k)
    {
      assert Tally(s, p, pre, k) <= Tally(s, p, os, k);
    }
  }

  /**
    Releasing a buffer, of which the owner's counts cover the objects that stand for
    them, takes from every count one for each object that stands for it; a reference's
    count stops at zero, and an object that denotes nothing takes nothing.
   */
  lemma {:induction false} ReleaseCounts(s: State, p: Pid, os: seq<Object>, k: Key)
    requires Inv(s) && Covered(s, p, os)
    ensures Count(ReleaseObjects(s, p, os), p, k) == Less(Count(s, p, k), Tally(s, p, os, k))
    decreases |os|
  {
    if os != [] {
      var pre, o := os[..|os| - 1], os[|os| - 1];
      CoveredPrefix(s, p, os);
      ReleaseCounts(s, p, pre, k);
      var s1 := ReleaseObjects(s, p, pre);
      ReleaseLast(s, s1, p, o, k, Tally(s, p, pre, k));
    }
  }

  lemma ReleaseLast(s: State, s1: State, p: Pid, o: Object, k: Key, m: nat)
    requires Inv(s) && Inv(s1) && Grows(s1, s)
    requires Count(s1, p, k) == Less(Count(s, p, k), m)
    requires k.local && StandsFor(s, p, o, k) ==> m + 1 <= Count(s, p, k)
    ensures Count(ReleaseObject(s1, p, o), p, k) == Less(Count(s, p, k), if StandsFor(s, p, o, k) then m + 1 else m)
  {
    ReleaseObjectCounts(s1, p, o);
    GrowsKeepsMeaning(s1, s, p, o);
    if Denotes(s1, p, o) == None {
      if StandsFor(s, p, o, k) {
        GoneIsZero(s, s1, p, o, k);
      }
    } else {
      assert StandsFor(s, p, o, k) <==> k == KeyOf(o, Denotes(s1, p, o).value);
      assert StandsFor(s, p, o, k) || SameCount(s1, ReleaseObject(s1, p, o), p, k);
    }
  }

  lemma {:induction false} ReleaseOthers(s: State, p: Pid, os: seq<Object>, q: Pid, k: Key)
    requires Inv(s) && q != p && !k.local
    ensures SameCount(s, ReleaseObjects(s, p, os), q, k)
    decreases |os|
  {
    if os != [] {
      ReleaseOthers(s, p, os[..|os| - 1], q, k);
      var s1 := ReleaseObjects(s, p, os[..|os| - 1]);
      ReleaseObjectCounts(s1, p, os[|os| - 1]);
      assert Denotes(s1, p, os[|os| - 1]).Some? ==> SameCount(s1, ReleaseObject(s1, p, os[|os| - 1]), q, k);
    }
  }

  // ----- the target node of a call

  /** Line 1487: the buffer holds its target node strongly. */
  function HoldTarget(s: State, n: Nid): State
    requires n in s.nodes
  {
    s.(nodes := s.nodes[n := IncNode(s.nodes[n], true, false, false, s.mgr == Some(n)).1])
  }

  /** The target node as an object of its owner. */
  function TargetObject(s: State, n: Nid): Object
    requires n in s.nodes
  {
    BinderObject(true, s.nodes[n].ptr, s.nodes[n].cookie)
  }

  /** binder_transaction_buffer_release: the target node of a call first, then the objects that were translated. */
  ghost function ReleaseBuffer(s: State, p: Pid, target: Option<Nid>, os: seq<Object>): State
    requires Inv(s) && (target.Some? ==> target.value in s.nodes && s.nodes[target.value].proc == Some(p))
  {
    if target.None? then ReleaseObjects(s, p, os)
    else
      DecLocalInv(s, target.value, true);
      ReleaseObjects(DecNode(s, target.value, true, false), p, os)
  }

  /** Releasing the target node is releasing one more object in front. */
  lemma {:induction false} ReleaseFirst(s: State, p: Pid, o: Object, os: seq<Object>)
    requires Inv(s)
    ensures Inv(ReleaseObject(s, p, o))
    ensures ReleaseObjects(s, p, [o] + os) == ReleaseObjects(ReleaseObject(s, p, o), p, os)
    decreases |os|
  {
    ReleaseObjectCounts(s, p, o);
    if os == [] {
      assert [o] + os == [o];
      assert ReleaseObjects(s, p, [o][..0]) == s;
    } else {
      var pre, last := os[..|os| - 1], os[|os| - 1];
      ReleaseFirst(s, p, o, pre);
      var all := [o] + os;
      assert all[..|os|] == [o] + pre && all[|os|] == last;
      var s1 := ReleaseObjects(s, p, [o] + pre);
      assert ReleaseObjects(s, p, all) == ReleaseObject(s1, p, last);
      assert ReleaseObjects(ReleaseObject(s, p, o), p, os) == ReleaseObject(s1, p, last);
    }
  }

  lemma {:induction false} TallyFirst(s: State, p: Pid, o: Object, os: seq<Object>, k: Key)
    ensures Tally(s, p, [o] + os, k) == Tally(s, p, os, k) + if StandsFor(s, p, o, k) then 1 else 0
    decreases |os|
  {
    if os == [] {
      assert [o] + os == [o];
      assert Tally(s, p, [o][..0], k) == 0;
    } else {
      TallyFirst(s, p, o, os[..|os| - 1], k);
      assert ([o] + os)[..|os|] == [o] + os[..|os| - 1];
    }
  }

  // ----- releasing undoes translating

  /** What the release works on: the target node and the objects that were translated. */
  function BufferObjects(s: State, target: Option<Nid>, os: seq<Object>): seq<Object>
    requires target.Some? ==> target.value in s.nodes
  {
    if target.None? then os else [TargetObject(s, target.value)] + os
  }

  lemma HoldTargetCounts(s: State, p: Pid, n: Nid, k: Key)
    requires Inv(s) && n in s.nodes && s.nodes[n].proc == Some(p)
    ensures Inv(HoldTarget(s, n)) && Grows(s, HoldTarget(s, n))
    ensures StandsFor(s, p, TargetObject(s, n), k) <==> k == Key(true, n, true)
    ensures Count(HoldTarget(s, n), p, k) == Count(s, p, k) + if k == Key(true, n, true) then 1 else 0
    ensures forall q :: !k.local ==> SameCount(s, HoldTarget(s, n), q, k)
  {
    IncLocalInv(s, n, true, false, s.mgr == Some(n));
    assert NodeOk(s, n);
    LocalRaised(s, p, n, true, s.mgr == Some(n));
    assert k != Key(true, n, true) ==> SameCount(s, HoldTarget(s, n), p, k);
    forall q | !k.local
      ensures SameCount(s, HoldTarget(s, n), q, k)
    {
    }
  }

  /** The state before the objects are translated: a call's target node is held. */
  function Started(s: State, target: Option<Nid>): State
    requires target.Some? ==> target.value in s.nodes
  {
    if target.None? then s else HoldTarget(s, target.value)
  }

  /** Releasing the buffer is releasing its objects, the target node taken as one of them. */
  lemma ReleaseBufferIs(s: State, p: Pid, target: Option<Nid>, os: seq<Object>)
    requires Inv(s) && (target.Some? ==> target.value in s.nodes && s.nodes[target.value].proc == Some(p))
    ensures ReleaseBuffer(s, p, target, os) == ReleaseObjects(s, p, BufferObjects(s, target, os))
  {
    if target.Some? {
      assert NodeOk(s, target.value);
      ReleaseFirst(s, p, TargetObject(s, target.value), os);
    }
  }

  lemma TargetTally(s: State, p: Pid, n: Nid, os: seq<Object>, k: Key)
    requires Inv(s) && n in s.nodes && s.nodes[n].proc == Some(p) && AllDenote(s, p, os)
    ensures var all := BufferObjects(s, Some(n), os);
            AllDenote(s, p, all) && Tally(s, p, all, k) == Tally(s, p, os, k) + if k == Key(true, n, true) then 1 else 0
  {
    assert NodeOk(s, n);
    var o := TargetObject(s, n);
    TallyFirst(s, p, o, os, k);
    assert StandsFor(s, p, o, k) <==> k == Key(true, n, true);
  }

  /**
    What a transaction has added to a count by the time it ends, with every object
    translated or after one failed.
   */
  lemma AddedCounts(s: State, sender: Pid, p: Pid, target: Option<Nid>, os: seq<Object>, mems: seq<Memory>, k: Key)
    requires Inv(s) && sender in s.procs && p in s.procs && |mems| == |os|
    requires target.Some? ==> target.value in s.nodes && s.nodes[target.value].proc == Some(p)
    ensures Inv(Started(s, target)) && Grows(s, Started(s, target)) && Started(s, target).procs.Keys == s.procs.Keys
    ensures var r := SendObjects(Started(s, target), sender, p, os, mems);
            && (target.Some? ==> target.value in r.state.nodes && r.state.nodes[target.value].proc == Some(p))
            && var all := BufferObjects(r.state, target, r.objects);
               && AllDenote(r.state, p, all)
               && Within(Count(s, p, k), Count(r.state, p, k), Tally(r.state, p, all, k), k.local)
  {
    var s1 := Started(s, target);
    if target.Some? {
      HoldTargetCounts(s, p, target.value, k);
    } else {
      assert Grows(s, s);
    }
    SendCounts(s1, sender, p, os, mems, k);
    var r := SendObjects(s1, sender, p, os, mems);
    if target.Some? {
      var n := target.value;
      assert NodeStays(s, s1, n) && NodeStays(s1, r.state, n);
      TargetTally(r.state, p, n, r.objects, k);
    }
  }

  /** No owner's count is below zero. */
  ghost predicate LocalCounts(s: State) {
    forall n | n in s.nodes :: 0 <= s.nodes[n].localStrong && 0 <= s.nodes[n].localWeak
  }

  lemma AddedCovered(s: State, sender: Pid, p: Pid, target: Option<Nid>, os: seq<Object>, mems: seq<Memory>)
    requires Inv(s) && sender in s.procs && p in s.procs && |mems| == |os| && LocalCounts(s)
    requires target.Some? ==> target.value in s.nodes && s.nodes[target.value].proc == Some(p)
    requires Inv(Started(s, target)) && Started(s, target).procs.Keys == s.procs.Keys
    ensures var r := SendObjects(Started(s, target), sender, p, os, mems);
            && (target.Some? ==> target.value in r.state.nodes)
            && Covered(r.state, p, BufferObjects(r.state, target, r.objects))
  {
    AddedCounts(s, sender, p, target, os, mems, Key(true, 0, true));
    var r := SendObjects(Started(s, target), sender, p, os, mems);
    var all := BufferObjects(r.state, target, r.objects);
    forall j: Key | j.local && 0 < Tally(r.state, p, all, j)
      ensures Tally(r.state, p, all, j) <= Count(r.state, p, j)
    {
      AddedCounts(s, sender, p, target, os, mems, j);
      assert Count(s, p, j) >= 0;
    }
  }

  lemma CountUndone(s: State, sender: Pid, p: Pid, target: Option<Nid>, os: seq<Object>, mems: seq<Memory>, k: Key)
    requires Inv(s) && sender in s.procs && p in s.procs && |mems| == |os| && LocalCounts(s)
    requires target.Some? ==> target.value in s.nodes && s.nodes[target.value].proc == Some(p)
    ensures Inv(Started(s, target)) && Grows(s, Started(s, target)) && Started(s, target).procs.Keys == s.procs.Keys
    ensures var r := SendObjects(Started(s, target), sender, p, os, mems);
            && (target.Some? ==> target.value in r.state.nodes && r.state.nodes[target.value].proc == Some(p))
            && Count(ReleaseBuffer(r.state, p, target, r.objects), p, k) == Count(s, p, k)
  {
    AddedCounts(s, sender, p, target, os, mems, k);
    var r := SendObjects(Started(s, target), sender, p, os, mems);
    var all := BufferObjects(r.state, target, r.objects);
    ReleaseBufferIs(r.state, p, target, r.objects);
    AddedCovered(s, sender, p, target, os, mems);
    ReleaseCounts(r.state, p, all, k);
    assert k.local ==> Count(s, p, k) >= 0;
  }

  lemma OtherUndone(s: State, sender: Pid, p: Pid, target: Option<Nid>, os: seq<Object>, mems: seq<Memory>, q: Pid,
                    k: Key)
    requires Inv(s) && sender in s.procs && p in s.procs && |mems| == |os| && q != p && !k.local
    requires target.Some? ==> target.value in s.nodes && s.nodes[target.value].proc == Some(p)
    ensures Inv(Started(s, target)) && Started(s, target).procs.Keys == s.procs.Keys
    ensures var r := SendObjects(Started(s, target), sender, p, os, mems);
            && (target.Some? ==> target.value in r.state.nodes && r.state.nodes[target.value].proc == Some(p))
            && SameCount(s, ReleaseBuffer(r.state, p, target, r.objects), q, k)
  {
    AddedCounts(s, sender, p, target, os, mems, k);
    var s1 := Started(s, target);
    if target.Some? {
      HoldTargetCounts(s, p, target.value, k);
      assert SameCount(s, s1, q, k);
    }
    SendOthers(s1, sender, p, os, mems, q, k);
    var r := SendObjects(s1, sender, p, os, mems);
    ReleaseBufferIs(r.state, p, target, r.objects);
    ReleaseOthers(r.state, p, BufferObjects(r.state, target, r.objects), q, k);
  }

  /**
    Release undoes translation.  Whether every object was translated or one of them
    failed, releasing the buffer puts every owner's local counts and every process's
    counts of every node back to what they were; a node or reference that was made on
    the way and is gone again counts as zero.
   */
  lemma ReleaseUndoesTranslation(s: State, sender: Pid, p: Pid, target: Option<Nid>, os: seq<Object>, mems: seq<Memory>)
    requires Inv(s) && sender in s.procs && p in s.procs && |mems| == |os| && LocalCounts(s)
    requires target.Some? ==> target.value in s.nodes && s.nodes[target.value].proc == Some(p)
    ensures Inv(Started(s, target)) && Started(s, target).procs.Keys == s.procs.Keys
    ensures var r := SendObjects(Started(s, target), sender, p, os, mems);
            && (target.Some? ==> target.value in r.state.nodes && r.state.nodes[target.value].proc == Some(p))
            && SameCounts(s, ReleaseBuffer(r.state, p, target, r.objects))
  {
    CountUndone(s, sender, p, target, os, mems, Key(true, 0, true));
    var r := SendObjects(Started(s, target), sender, p, os, mems);
    forall q: Pid, j: Key
      ensures SameCount(s, ReleaseBuffer(r.state, p, target, r.objects), q, j)
    {
      if q == p || j.local {
        CountUndone(s, sender, p, target, os, mems, j);
      } else {
        OtherUndone(s, sender, p, target, os, mems, q, j);
      }
    }
  }

  /** The objects of a transaction to process `p`: translated and left to the buffer, or undone. */
  ghost function Transacted(s: State, sender: Pid, p: Pid, target: Option<Nid>, os: seq<Object>,
                            mems: seq<Memory>): (bool, State, seq<Object>)
    requires Inv(s) && sender in s.procs && p in s.procs && |mems| == |os|
    requires target.Some? ==> target.value in s.nodes && s.nodes[target.value].proc == Some(p)
  {
    AddedCounts(s, sender, p, target, os, mems, Key(true, 0, true));
    var r := SendObjects(Started(s, target), sender, p, os, mems);
    (r.ok, if r.ok then r.state else ReleaseBuffer(r.state, p, target, r.objects), r.objects)
  }

  // ----- transactions persist

  lemma {:induction false} SendPersists(s: State, sender: Pid, target: Pid, os: seq<Object>, mems: seq<Memory>)
    requires Inv(s) && sender in s.procs && target in s.procs && |mems| == |os|
    ensures Persists(s, SendObjects(s, sender, target, os, mems).state)
    decreases |os|
  {
    if os == [] {
      NodesSetPersists(s, s);
    } else {
      var k := |os| - 1;
      SendPersists(s, sender, target, os[..k], mems[..k]);
      var r := SendObjects(s, sender, target, os[..k], mems[..k]);
      if r.ok {
        TranslatePersists(r.state, sender, target, os[k], mems[k]);
        PersistsTransitive(s, r.state, Translate(r.state, sender, target, os[k], mems[k]).1);
      }
    }
  }

  lemma ReleaseObjectPersists(s: State, p: Pid, o: Object)
    requires Inv(s)
    ensures Persists(s, ReleaseObject(s, p, o))
  {
    NodesSetPersists(s, s);
    if p in s.procs {
      assert ProcOk(s, p);
      match o
      case BinderObject(strong, ptr, _) =>
        if ptr in s.procs[p].nodes {
          DecNodePersists(s, s.procs[p].nodes[ptr], strong, false);
        }
      case HandleObject(strong, h) =>
        if h in s.procs[p].byDesc {
          assert RefOk(s, s.procs[p].byDesc[h]);
          DecRefPersists(s, s.procs[p].byDesc[h], strong);
        }
      case OtherObject =>
    }
  }

  lemma {:induction false} ReleasePersists(s: State, p: Pid, os: seq<Object>)
    requires Inv(s)
    ensures Persists(s, ReleaseObjects(s, p, os))
    decreases |os|
  {
    if os == [] {
      NodesSetPersists(s, s);
    } else {
      var s1 := ReleaseObjects(s, p, os[..|os| - 1]);
      ReleasePersists(s, p, os[..|os| - 1]);
      ReleaseObjectPersists(s1, p, os[|os| - 1]);
      PersistsTransitive(s, s1, ReleaseObject(s1, p, os[|os| - 1]));
    }
  }

  lemma BufferPersists(s: State, p: Pid, target: Option<Nid>, os: seq<Object>)
    requires Inv(s) && (target.Some? ==> target.value in s.nodes && s.nodes[target.value].proc == Some(p))
    ensures Persists(s, ReleaseBuffer(s, p, target, os))
  {
    if target.Some? {
      DecLocalInv(s, target.value, true);
      DecNodePersists(s, target.value, true, false);
      var s1 := DecNode(s, target.value, true, false);
      ReleasePersists(s1, p, os);
      PersistsTransitive(s, s1, ReleaseObjects(s1, p, os));
    } else {
      ReleasePersists(s, p, os);
    }
  }

  lemma TransactPersists(s: State, sender: Pid, p: Pid, target: Option<Nid>, os: seq<Object>, mems: seq<Memory>)
    requires Inv(s) && sender in s.procs && p in s.procs && |mems| == |os|
    requires target.Some? ==> target.value in s.nodes && s.nodes[target.value].proc == Some(p)
    ensures Inv(Started(s, target)) && Started(s, target).procs.Keys == s.procs.Keys
    ensures var r := SendObjects(Started(s, target), sender, p, os, mems);
            && Persists(s, r.state)
            && (target.Some? ==> target.value in r.state.nodes && r.state.nodes[target.value].proc == Some(p))
            && Persists(s, ReleaseBuffer(r.state, p, target, r.objects))
  {
    AddedCounts(s, sender, p, target, os, mems, Key(true, 0, true));
    var s1 := Started(s, target);
    NodesSetPersists(s, s1);
    SendPersists(s1, sender, p, os, mems);
    var r := SendObjects(s1, sender, p, os, mems);
    PersistsTransitive(s, s1, r.state);
    BufferPersists(r.state, p, target, r.objects);
    PersistsTransitive(s, r.state, ReleaseBuffer(r.state, p, target, r.objects));
  }
}
