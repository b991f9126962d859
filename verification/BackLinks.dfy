/**
  A transaction and its buffer point at each other or at nothing, from the sending of
  the transaction to the freeing of the last of the two, whichever goes first.
 */
module BackLinks {
  import opened Options

  type Pid = nat
  type Xid = nat
  type Bid = nat  // a buffer

  datatype Kind = Call | OneWay | Reply

  /** Where a transaction is. */
  datatype Place =
    | Listed(p: Pid)   // on a todo list of process `p` or of one of its threads
    | Waiting(p: Pid)  // behind another one-way call, at a node of process `p`
    | Received         // on its receiver's stack

  datatype Txn = Txn(kind: Kind, buffer: Option<Bid>, place: Place)

  datatype Buf = Buf(proc: Pid, transaction: Option<Xid>, userFree: bool)

  datatype State = State(txns: map<Xid, Txn>, bufs: map<Bid, Buf>, procs: set<Pid>, used: set<Pid>)

  /** The transaction has a buffer of process `p`, which the process does not yet know of. */
  predicate Sealed(s: State, x: Txn, p: Pid) {
    x.buffer.Some? && x.buffer.value in s.bufs && s.bufs[x.buffer.value].proc == p && !s.bufs[x.buffer.value].userFree
  }

  predicate TxnOk(s: State, x: Xid)
    requires x in s.txns
  {
    var t := s.txns[x];
    && (t.buffer.Some? ==> t.buffer.value in s.bufs && s.bufs[t.buffer.value].transaction == Some(x))
    && match t.place
       case Listed(p) => p in s.procs && Sealed(s, t, p)
       case Waiting(p) => t.kind == OneWay && p in s.used && (p in s.procs ==> Sealed(s, t, p))
       case Received => t.kind == Call
  }

  predicate BufOk(s: State, b: Bid)
    requires b in s.bufs
  {
    var x := s.bufs[b].transaction;
    x.Some? ==> x.value in s.txns && s.txns[x.value].buffer == Some(b)
  }

  ghost predicate Inv(s: State) {
    && s.procs <= s.used
    && (forall x {:trigger TxnOk(s, x)} | x in s.txns :: TxnOk(s, x))
    && (forall b {:trigger BufOk(s, b)} | b in s.bufs :: BufOk(s, b))
  }

  /** The links agree in both directions, and no two transactions share a buffer. */
  lemma LinksAgree(s: State, x: Xid, b: Bid)
    requires Inv(s) && x in s.txns && b in s.bufs
    ensures s.txns[x].buffer == Some(b) <==> s.bufs[b].transaction == Some(x)
    ensures forall y | y in s.txns && y != x && s.txns[y].buffer.Some? :: s.txns[y].buffer != s.txns[x].buffer
  {
    assert TxnOk(s, x) && BufOk(s, b);
    forall y | y in s.txns && y != x && s.txns[y].buffer.Some?
      ensures s.txns[y].buffer != s.txns[x].buffer
    {
      assert TxnOk(s, y);
    }
  }

  /** A transaction on a list, or waiting at a node whose owner is there, has a buffer that nobody else frees. */
  lemma UnreadHasBuffer(s: State, x: Xid)
    requires Inv(s) && x in s.txns
    requires s.txns[x].place.Listed? || (s.txns[x].place.Waiting? && s.txns[x].place.p in s.procs)
    ensures Sealed(s, s.txns[x], s.txns[x].place.p)
  {
    assert TxnOk(s, x);
  }

  // ----- cutting the links

  /** Transaction `x` goes, and its buffer no longer points to it. */
  function Gone(s: State, x: Xid): State
    requires x in s.txns
  {
    var b := s.txns[x].buffer;
    s.(txns := s.txns - {x},
       bufs := if b.Some? && b.value in s.bufs then s.bufs[b.value := s.bufs[b.value].(transaction := None)]
           else s.bufs)
  }

  lemma GoneInv(s: State, x: Xid)
    requires Inv(s) && x in s.txns
    ensures Inv(Gone(s, x))
  {
    var s2 := Gone(s, x);
    assert TxnOk(s, x);
    forall y | y in s2.txns
      ensures TxnOk(s2, y)
    {
      assert TxnOk(s, y);
    }
    forall b | b in s2.bufs
      ensures BufOk(s2, b)
    {
      assert BufOk(s, b);
    }
  }

  /** Buffer `b` and the transaction that it points to are parted. */
  function Parted(s: State, b: Bid): State
    requires b in s.bufs
  {
    var x := s.bufs[b].transaction;
    s.(txns := if x.Some? && x.value in s.txns then s.txns[x.value := s.txns[x.value].(buffer := None)] else s.txns,
       bufs := s.bufs[b := s.bufs[b].(transaction := None)])
  }

  /** The process knows of the buffer, or is gone. */
  predicate Free(s: State, b: Bid)
    requires b in s.bufs
  {
    s.bufs[b].userFree || s.bufs[b].proc !in s.procs
  }

  lemma PartedInv(s: State, b: Bid)
    requires Inv(s) && b in s.bufs && Free(s, b)
    ensures Inv(Parted(s, b))
  {
    var s2 := Parted(s, b);
    assert BufOk(s, b);
    forall y | y in s2.txns
      ensures TxnOk(s2, y)
    {
      assert TxnOk(s, y);
    }
    forall c | c in s2.bufs
      ensures BufOk(s2, c)
    {
      assert BufOk(s, c);
    }
  }

  /** A buffer that points to nothing, and of which the process knows or is gone, can be freed. */
  lemma FreedInv(s: State, b: Bid)
    requires Inv(s) && b in s.bufs && s.bufs[b].transaction == None
    ensures Inv(s.(bufs := s.bufs - {b}))
  {
    var s2 := s.(bufs := s.bufs - {b});
    forall y | y in s2.txns
      ensures TxnOk(s2, y)
    {
      assert TxnOk(s, y);
    }
    forall c | c in s2.bufs
      ensures BufOk(s2, c)
    {
      assert BufOk(s, c);
    }
  }

  class BackLinks {
    var txns: map<Xid, Txn>
    var bufs: map<Bid, Buf>
    ghost var procs: set<Pid>
    ghost var used: set<Pid>  // every process there ever was

    ghost function View(): State
      reads this
    {
      State(txns, bufs, procs, used)
    }

    ghost predicate Valid()
      reads this
    {
      Inv(View())
    }

    constructor ()
      ensures Valid() && View() == State(map[], map[], {}, {})
    {
      txns, bufs, procs, used := map[], map[], {}, {};
    }

    ghost method Open(p: Pid)
      requires Valid() && p !in used
      modifies `procs, `used
      ensures Valid() && procs == old(procs) + {p} && used == old(used) + {p}
    {
      ghost var s := View();
      procs, used := procs + {p}, used + {p};
      forall x | x in txns
        ensures TxnOk(View(), x)
      {
        assert TxnOk(s, x);
      }
      forall b | b in bufs
        ensures BufOk(View(), b)
      {
        assert BufOk(s, b);
      }
    }

    /** Lines 1475-1483 and 1679-1697: transaction `x` with its buffer `b`, on a list or waiting at its node. */
    method Send(x: Xid, kind: Kind, b: Bid, p: Pid, waits: bool)
      requires Valid() && x !in txns && b !in bufs && p in procs && (waits ==> kind == OneWay)
      modifies `txns, `bufs
      ensures Valid() && bufs == old(bufs)[b := Buf(p, Some(x), false)]
      ensures txns == old(txns)[x := Txn(kind, Some(b), if waits then Waiting(p) else Listed(p))]
    {
      ghost var s := View();
      txns := txns[x := Txn(kind, Some(b), if waits then Waiting(p) else Listed(p))];
      bufs := bufs[b := Buf(p, Some(x), false)];
      forall y | y in txns
        ensures TxnOk(View(), y)
      {
        assert y != x ==> TxnOk(s, y);
      }
      forall c | c in bufs
        ensures BufOk(View(), c)
      {
        assert c != b ==> BufOk(s, c);
      }
    }

    /** Line 821 of binder_free_buf: no caller passes a buffer that still points to a transaction. */
    method FreeBuf(b: Bid)
      requires Valid() && b in bufs && bufs[b].transaction == None
      modifies `bufs
      ensures Valid() && bufs == old(bufs) - {b}
    {
      assert bufs[b].transaction == None;  // BUG_ON(buffer->transaction != NULL)
      FreedInv(View(), b);
      bufs := bufs - {b};
    }

    /** Lines 1475-1483 and 1713-1721: a transaction that fails after its buffer was allocated. */
    method SendFails(x: Xid, b: Bid, p: Pid)
      requires Valid() && x !in txns && b !in bufs && p in procs
      modifies `txns, `bufs
      ensures Valid() && View() == old(View())
    {
      ghost var s := View();
      Send(x, Call, b, p, false);
      PopTransaction(x);
      FreeBuf(b);
      assert txns == s.txns && bufs == s.bufs;
    }

    /** Lines 2371-2438: the transaction at the head of a list is delivered; a call stays, for its reply. */
    method Read(x: Xid)
      requires Valid() && x in txns && txns[x].place.Listed?
      modifies `txns, `bufs
      ensures Valid()
      ensures var b := old(txns)[x].buffer;
              && b.Some? && b.value in bufs && bufs[b.value].userFree
              && bufs[b.value].transaction == (if old(txns)[x].kind == Call then Some(x) else None)
              && bufs == old(bufs)[b.value := bufs[b.value]]
      ensures txns == if old(txns)[x].kind == Call then old(txns)[x := old(txns)[x].(place := Received)]
          else old(txns) - {x}
    {
      ghost var s := View();
      assert TxnOk(s, x);
      assert txns[x].buffer != None;  // BUG_ON(t->buffer == NULL)
      var b := txns[x].buffer.value;
      if txns[x].kind == Call {
        txns := txns[x := txns[x].(place := Received)];
        bufs := bufs[b := bufs[b].(userFree := true)];
        ReadInv(s, x);
      } else {
        PopTransaction(x);
        HandedInv(View(), b);
        bufs := bufs[b := bufs[b].(userFree := true)];
      }
    }

    lemma HandedInv(s: State, b: Bid)
      requires Inv(s) && b in s.bufs && s.bufs[b].transaction == None
      ensures Inv(s.(bufs := s.bufs[b := s.bufs[b].(userFree := true)]))
    {
      var s2 := s.(bufs := s.bufs[b := s.bufs[b].(userFree := true)]);
      forall y | y in s2.txns
        ensures TxnOk(s2, y)
      {
        assert TxnOk(s, y);
      }
      forall c | c in s2.bufs
        ensures BufOk(s2, c)
      {
        assert BufOk(s, c);
      }
    }

    lemma ReadInv(s: State, x: Xid)
      requires Inv(s) && x in s.txns && s.txns[x].kind == Call && s.txns[x].buffer.Some?
          && s.txns[x].buffer.value in s.bufs
      ensures var b := s.txns[x].buffer.value;
              Inv(s.(txns := s.txns[x := s.txns[x].(place := Received)],
                     bufs := s.bufs[b := s.bufs[b].(userFree := true)]))
    {
      var b := s.txns[x].buffer.value;
      var s2 := s.(txns := s.txns[x := s.txns[x].(place := Received)],
                   bufs := s.bufs[b := s.bufs[b].(userFree := true)]);
      assert TxnOk(s, x);
      forall y | y in s2.txns
        ensures TxnOk(s2, y)
      {
        assert TxnOk(s, y);
      }
      forall c | c in s2.bufs
        ensures BufOk(s2, c)
      {
        assert BufOk(s, c);
      }
    }

    /**
      Lines 1171-1174, and wherever else a transaction is freed: its buffer, if it is
      still there, stays without it.
     */
    method PopTransaction(x: Xid)
      requires Valid() && x in txns
      modifies `txns, `bufs
      ensures Valid() && View() == Gone(old(View()), x)
    {
      assert TxnOk(View(), x);
      GoneInv(View(), x);
      if txns[x].buffer.Some? {
        var b := txns[x].buffer.value;
        bufs := bufs[b := bufs[b].(transaction := None)];
      }
      txns := txns - {x};
    }

    /** Lines 2469-2485: an undelivered transaction; its buffer, at which line 2473 looks, is there. */
    method ReleaseWork(x: Xid)
      requires Valid() && x in txns && txns[x].place.Listed?
      modifies `txns, `bufs
      ensures Valid() && View() == Gone(old(View()), x)
      ensures old(txns)[x].buffer.Some?
    {
      UnreadHasBuffer(View(), x);
      assert txns[x].buffer != None;
      PopTransaction(x);
    }

    /** Lines 2566-2571: the receiver of call `x` exits. */
    method ExitReceiver(x: Xid)
      requires Valid() && x in txns && txns[x].place == Received
      modifies `txns, `bufs
      ensures Valid() && txns == old(txns)[x := old(txns)[x].(buffer := None)] && bufs.Keys == old(bufs).Keys
      ensures forall b | b in bufs :: bufs[b] == old(bufs)[b]
                                      || (old(txns)[x].buffer == Some(b)
                                          && bufs[b] == old(bufs)[b].(transaction := None))
    {
      ghost var s := View();
      assert TxnOk(s, x);
      if txns[x].buffer.Some? {
        var b := txns[x].buffer.value;
        bufs := bufs[b := bufs[b].(transaction := None)];
        txns := txns[x := txns[x].(buffer := None)];
        ExitInv(s, x);
      } else {
        assert txns[x := txns[x].(buffer := None)] == txns;
      }
    }

    lemma ExitInv(s: State, x: Xid)
      requires Inv(s) && x in s.txns && s.txns[x].place == Received && s.txns[x].buffer.Some?
          && s.txns[x].buffer.value in s.bufs
      ensures Inv(Parted(s, s.txns[x].buffer.value))
      ensures Parted(s, s.txns[x].buffer.value).txns == s.txns[x := s.txns[x].(buffer := None)]
    {
      var b := s.txns[x].buffer.value;
      assert TxnOk(s, x);
      var s2 := Parted(s, b);
      forall y | y in s2.txns
        ensures TxnOk(s2, y)
      {
        assert TxnOk(s, y);
      }
      forall c | c in s2.bufs
        ensures BufOk(s2, c)
      {
        assert BufOk(s, c);
      }
    }

    /** Lines 1913-1916 and 3090-3097: the buffer and its transaction are parted, and the buffer is freed. */
    method PartAndFree(b: Bid)
      requires Valid() && b in bufs && Free(View(), b)
      modifies `txns, `bufs
      ensures Valid() && bufs == old(bufs) - {b} && txns == Parted(old(View()), b).txns
    {
      ghost var s := View();
      assert BufOk(s, b);
      PartedInv(s, b);
      if bufs[b].transaction.Some? {
        var x := bufs[b].transaction.value;
        txns := txns[x := txns[x].(buffer := None)];
        bufs := bufs[b := bufs[b].(transaction := None)];
      }
      assert bufs == Parted(s, b).bufs;
      FreeBuf(b);
      assert bufs == s.bufs - {b};
    }

    /** BC_FREE_BUFFER; `next` is the one-way call that waited behind this buffer's, if any. */
    method FreeBuffer(b: Bid, next: Option<Xid>) returns (freed: bool)
      requires Valid() && b in bufs && bufs[b].proc in procs
      requires next.Some? ==> next.value in txns && txns[next.value].place == Waiting(bufs[b].proc)
      modifies `txns, `bufs
      ensures Valid() && freed == old(bufs)[b].userFree
      ensures if freed then bufs == old(bufs) - {b} else bufs == old(bufs) && txns == old(txns)
      ensures freed && next.Some? ==> next.value in txns
                                      && txns[next.value] == old(txns)[next.value].(place := Listed(old(bufs)[b].proc))
      ensures freed ==> txns.Keys == old(txns).Keys && forall x | x in txns && next != Some(x) ::
                txns[x] == if old(txns)[x].buffer == Some(b) then old(txns)[x].(buffer := None) else old(txns)[x]
    {
      if !bufs[b].userFree {
        return false;
      }
      freed := true;
      OnlyOwner(View(), b);
      if next.Some? {
        ghost var s := View();
        var x := next.value;
        assert TxnOk(s, x);
        txns := txns[x := txns[x].(place := Listed(bufs[b].proc))];
        NextInv(s, x);
        assert BufOk(s, b) && bufs[b].transaction != Some(x);
        assert TxnOk(View(), x);
      }
      PartAndFree(b);
    }

    /** The transaction that the buffer points to is the only one that points to the buffer. */
    lemma OnlyOwner(s: State, b: Bid)
      requires Inv(s) && b in s.bufs
      ensures forall x | x in s.txns :: s.txns[x].buffer == Some(b) <==> s.bufs[b].transaction == Some(x)
    {
      forall x | x in s.txns
        ensures s.txns[x].buffer == Some(b) <==> s.bufs[b].transaction == Some(x)
      {
        LinksAgree(s, x, b);
      }
    }

    lemma NextInv(s: State, x: Xid)
      requires Inv(s) && x in s.txns && s.txns[x].place.Waiting? && s.txns[x].place.p in s.procs
      ensures Inv(s.(txns := s.txns[x := s.txns[x].(place := Listed(s.txns[x].place.p))]))
    {
      var s2 := s.(txns := s.txns[x := s.txns[x].(place := Listed(s.txns[x].place.p))]);
      forall y | y in s2.txns
        ensures TxnOk(s2, y)
      {
        assert TxnOk(s, x) && TxnOk(s, y);
      }
      forall c | c in s2.bufs
        ensures BufOk(s2, c)
      {
        assert BufOk(s, c);
      }
    }

    /** Lines 3084-3098: once its lists were released, a process goes with all its buffers. */
    method ReleaseProc(p: Pid)
      requires Valid() && p in procs
      requires forall x | x in txns :: txns[x].place != Listed(p)
      modifies this
      ensures Valid() && procs == old(procs) - {p} && used == old(used)
      ensures forall b | b in bufs :: b in old(bufs) && bufs[b].proc != p
      ensures forall b | b in old(bufs) && old(bufs)[b].proc != p :: b in bufs && bufs[b] == old(bufs)[b]
      ensures txns.Keys == old(txns).Keys
    {
      LeaveInv(View(), p);
      procs := procs - {p};
      while exists b :: b in bufs && bufs[b].proc == p
        invariant Valid() && procs == old(procs) - {p} && used == old(used)
        invariant forall b | b in bufs :: b in old(bufs) && bufs[b] == old(bufs)[b]
        invariant forall b | b in old(bufs) && old(bufs)[b].proc != p :: b in bufs
        invariant txns.Keys == old(txns).Keys
        decreases bufs.Keys
      {
        var b :| b in bufs && bufs[b].proc == p;
        assert BufOk(View(), b);
        PartAndFree(b);
      }
    }

    lemma LeaveInv(s: State, p: Pid)
      requires Inv(s) && forall x | x in s.txns :: s.txns[x].place != Listed(p)
      ensures Inv(s.(procs := s.procs - {p}))
    {
      var s2 := s.(procs := s.procs - {p});
      forall y | y in s2.txns
        ensures TxnOk(s2, y)
      {
        assert TxnOk(s, y);
      }
      forall c | c in s2.bufs
        ensures BufOk(s2, c)
      {
        assert BufOk(s, c);
      }
    }
  }
}
