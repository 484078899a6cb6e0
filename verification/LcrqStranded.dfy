// Values that are lost or overtaken: which ones, exactly.

module LcrqStranded {
  import opened Options
  import opened LcrqRing
  import opened LcrqSystem
  import opened LcrqInvariant
  import opened LcrqPreserve
  import opened LcrqFlow
  import opened LcrqHistory
  import opened LcrqOrder
  import opened LcrqTheorems
  import opened LcrqSolo
  import opened LcrqSequential

  // The threads that read head when it was still r and are about to draw a ticket from that ring.
  ghost function Stale(s: Sys, r: nat): set<nat> {
    set i: nat | i < |s.threads| && s.threads[i].pc == DFaaHead(r)
  }

  lemma {:induction false} OnlyHeadIsDrawnFrom(s: Sys, tid: nat, cmd: Cmd)
    requires Quick(s, tid)
    ensures var pc' := Step(s, tid, cmd).threads[tid].pc; pc'.DFaaHead? ==> pc'.rq == s.head
  {
    StepFlows(s, tid, cmd);
  }

  // In a ring that head has left, each stale thread draws one more ticket, and nobody else any.
  lemma {:induction false} TicketsLeft(s: Sys, tid: nat, cmd: Cmd, r: nat)
    requires Core(s) && tid < |s.threads| && r < s.head
    ensures Shape(s) && r < |s.rings|
    ensures var s' := Step(s, tid, cmd);
            && r < s'.head && r < |s'.rings|
            && Stale(s', r) == Stale(s, r) - {tid}
            && s'.rings[r].head == s.rings[r].head + if tid in Stale(s, r) then 1 else 0
  {
    CoreToLocal(s, tid);
    OnlyHeadIsDrawnFrom(s, tid, cmd);
    StepHead(s, tid, cmd);
    StepOk(s, tid, cmd);
  }

  lemma {:induction false} TurnKeepsTickets(s: Sys, e: Event, r: nat)
    requires Core(s) && r < s.head
    ensures var s' := Turn(s, e);
            r < s'.head && r < |s.rings| && s'.rings[r].head + |Stale(s', r)| == s.rings[r].head + |Stale(s, r)|
  {
    if e.tid < |s.threads| { TicketsLeft(s, e.tid, e.cmd, r); }
  }

  lemma {:induction false} RunKeepsTickets(s: Sys, sched: seq<Event>, r: nat)
    requires Core(s) && r < s.head
    ensures var s' := Run(s, sched);
            r < s'.head && r < |s.rings| && s'.rings[r].head + |Stale(s', r)| == s.rings[r].head + |Stale(s, r)|
    decreases |sched|
  {
    if sched != [] {
      var m := |sched| - 1;
      RunKeepsTickets(s, sched[..m], r);
      TurnKeepsTickets(Run(s, sched[..m]), sched[m], r);
    }
  }

  // --------------------------------- a claimed value can always be returned

  ghost predicate CanReturn(s: Sys, r: nat, k: nat)
    requires Core(s)
  {
    exists sched: seq<Event> :: k in TakenOf(Run(s, sched), r)
  }

  lemma {:induction false} CanReturnLater(s: Sys, i: nat, m: nat, r: nat, k: nat)
    requires Core(s) && CanReturn(Solo(s, i, Dequeue, m), r, k)
    ensures CanReturn(s, r, k)
  {
    var sched :| k in TakenOf(Run(Solo(s, i, Dequeue, m), sched), r);
    RunSplit(s, Alone(i, Dequeue, m), sched);
    assert k in TakenOf(Run(s, Alone(i, Dequeue, m) + sched), r);
  }

  lemma {:induction false} TakesInThree(tr: seq<Sys>, i: nat, r: nat, k: nat)
    requires Ready(tr, 0, 3, i, Dequeue) && tr[0].threads[i].pc == DLoadIdx(r, k)
    requires CellOf(tr[0], r, k).idx == k && CellOf(tr[0], r, k).val != EMPTY
    ensures k in TakenOf(tr[3], r)
  {
    ReadIdxTurn(tr, 0, i, Dequeue);
    DequeueTakes(tr, 1, i, Dequeue);
  }

  // A dequeuer about to read its own cell, with its value in it, takes it in three turns.
  lemma {:induction false} TakesFromHere(s: Sys, i: nat, r: nat, k: nat)
    requires Core(s) && i < |s.threads| && s.threads[i].pc == DLoadIdx(r, k)
    requires r < |s.rings| && s.R == |s.rings[r].cells| > 0
    requires CellOf(s, r, k).idx == k && CellOf(s, r, k).val != EMPTY
    ensures CanReturn(s, r, k)
  {
    CoreShape(s);
    var tr := TraceOf(s, i, Dequeue, 3);
    TakesInThree(tr, i, r, k);
    assert k in TakenOf(Run(s, Alone(i, Dequeue, 3)), r);
  }

  // One turn brings a dequeuer with stale reads nearer to its read of the cell.
  function Distance(pc: Pc): nat {
    match pc
    case DLoadVal(_, _, _, _) => 3
    case DLoadTail(_, _, _, _) => 2
    case DTake(_, _, _, _) => 1
    case DMark(_, _, _, _, _) => 1
    case DSkip(_, _, _, _) => 1
    case _ => 0
  }

  lemma {:induction false} StaleTurn(s: Sys, i: nat, r: nat, k: nat)
    requires Quick(s, i) && InnerPc(s.threads[i].pc) && !s.threads[i].pc.DLoadIdx?
    requires HoldsDequeue(s.threads[i].pc) == Some((r, k))
    requires CellOf(s, r, k).idx == k && CellOf(s, r, k).val != EMPTY
    ensures var s' := InnerStep(s, i);
            || k in TakenOf(s', r)
            || (s'.rings == s.rings && HoldsDequeue(s'.threads[i].pc) == Some((r, k))
                && Distance(s'.threads[i].pc) < Distance(s.threads[i].pc))
  {
    assert ThreadInv(s, i);
  }

  lemma {:induction false} HolderTakes(s: Sys, i: nat, r: nat, k: nat)
    requires Core(s) && i < |s.threads| && r < |s.rings| && s.R == |s.rings[r].cells| > 0
    requires HoldsDequeue(s.threads[i].pc) == Some((r, k))
    requires CellOf(s, r, k).idx == k && CellOf(s, r, k).val != EMPTY
    ensures CanReturn(s, r, k)
    decreases Distance(s.threads[i].pc)
  {
    if s.threads[i].pc.DLoadIdx? {
      TakesFromHere(s, i, r, k);
    } else {
      CoreToLocal(s, i);
      SoloNext(s, i, Dequeue, 0);
      assert Solo(s, i, Dequeue, 0) == s;
      StaleTurn(s, i, r, k);
      var s' := Solo(s, i, Dequeue, 1);
      if k in TakenOf(s', r) {
        assert CanReturn(s, r, k);
      } else {
        HolderTakes(s', i, r, k);
        CanReturnLater(s, i, 1, r, k);
      }
    }
  }

  lemma {:induction false} ClaimedCanReturn(s: Sys, r: nat, k: nat)
    requires Core(s) && Deposited(s, r, k) && k < s.rings[r].head
    ensures CanReturn(s, r, k)
  {
    var g := s.rings[r];
    assert RingInv(s.R, g) && DepositInv(s.R, g, k);
    if k in g.log.taken {
      assert Run(s, []) == s;
    } else {
      assert Pending(g, k);
      assert Claimed(s, r, k);
      HolderTakes(s, g.log.deq[k], r, k);
    }
  }

  // One more stale thread draws its ticket.
  lemma {:induction false} StaleDraws(s: Sys, i: nat, r: nat, k: nat) returns (s': Sys)
    requires Core(s) && r < s.head && Deposited(s, r, k) && i in Stale(s, r)
    ensures Core(s') && r < s'.head && Deposited(s', r, k) && s' == Solo(s, i, Dequeue, 1)
    ensures Stale(s', r) == Stale(s, r) - {i} && s'.rings[r].head == s.rings[r].head + 1
  {
    SoloNext(s, i, Dequeue, 0);
    assert Solo(s, i, Dequeue, 0) == s;
    s' := Solo(s, i, Dequeue, 1);
    TicketsLeft(s, i, Dequeue, r);
    TurnGrows(s, Event(i, Dequeue));
    assert Grows(s.rings[r], s'.rings[r]);
  }

  lemma {:induction false} StaleCanReturn(s: Sys, r: nat, k: nat)
    requires Core(s) && r < s.head && Deposited(s, r, k) && k < s.rings[r].head + |Stale(s, r)|
    ensures CanReturn(s, r, k)
    decreases |Stale(s, r)|
  {
    if k < s.rings[r].head {
      ClaimedCanReturn(s, r, k);
    } else {
      var i :| i in Stale(s, r);
      var s' := StaleDraws(s, i, r, k);
      StaleCanReturn(s', r, k);
      CanReturnLater(s, i, 1, r, k);
    }
  }

  /** Exactly which values are lost. In a ring that head has left, a value can be returned in some
      continuation if and only if its ticket lies below the ring's dequeue counter plus the number
      of threads that are still about to draw a ticket from the ring. */
  lemma {:induction false} LostIff(R: nat, n: nat, a: seq<Event>, r: nat, k: nat)
    requires R > 0 && r < Reach(R, n, a).head && Deposited(Reach(R, n, a), r, k)
    ensures var s := Reach(R, n, a); CanReturn(s, r, k) <==> k < s.rings[r].head + |Stale(s, r)|
  {
    var s := Reach(R, n, a);
    if CanReturn(s, r, k) {
      var sched :| k in TakenOf(Run(s, sched), r);
      RunKeepsTickets(s, sched, r);
      assert RingInv(s.R, Run(s, sched).rings[r]) by { RunGrows(s, sched); }
    }
    if k < s.rings[r].head + |Stale(s, r)| { StaleCanReturn(s, r, k); }
  }

  /** Once no thread is about to draw from such a ring, the dequeue counter alone decides. */
  lemma {:induction false} LostIffQuiet(R: nat, n: nat, a: seq<Event>, r: nat, k: nat)
    requires R > 0 && r < Reach(R, n, a).head && Deposited(Reach(R, n, a), r, k) && Stale(Reach(R, n, a), r) == {}
    ensures CanReturn(Reach(R, n, a), r, k) <==> k < Reach(R, n, a).rings[r].head
  {
    LostIff(R, n, a, r, k);
  }

  // ------------------------------------------------------- loss and overtaking

  // The value deposited under ticket k of ring r is never returned, whatever happens next.
  ghost predicate Lost(s: Sys, r: nat, k: nat)
    requires Core(s)
  {
    Deposited(s, r, k) && k !in s.rings[r].log.taken && Finished(s, OpOf(s, r, k)) && !CanReturn(s, r, k)
  }

  // Enqueue A finished before enqueue B began, B's value was returned, and A's never will be.
  ghost predicate OrderBroken(s1: Sys, s: Sys, r: nat, k: nat, r': nat, k': nat)
    requires Core(s)
  {
    && Deposited(s1, r, k) && Finished(s1, OpOf(s1, r, k))
    && Deposited(s, r', k') && NotBegun(s1, OpOf(s, r', k'))
    && k' in s.rings[r'].log.taken
    && k !in TakenOf(s, r) && !CanReturn(s, r, k)
  }

  /** Exactly when the order holds: of two values placed one before the other, with the later one
      returned, the earlier one was returned or is claimed if and only if its ticket lies below
      its ring's dequeue counter; and across rings it can still be returned if and only if it lies
      below that counter plus the number of threads still about to draw from the ring. */
  lemma {:induction false} FifoIff(R: nat, n: nat, sched: seq<Event>, r: nat, k: nat, r': nat, k': nat)
    requires R > 0
    requires var s := Reach(R, n, sched);
             Deposited(s, r, k) && Deposited(s, r', k') && Before(r, k, r', k') && k' in s.rings[r'].log.taken
    ensures var s := Reach(R, n, sched);
            && (k in s.rings[r].log.taken || (k in s.rings[r].log.deq && Claimed(s, r, k)) <==> k < s.rings[r].head)
            && (r < r' ==> (CanReturn(s, r, k) <==> k < s.rings[r].head + |Stale(s, r)|))
            && (r == r' ==> k < s.rings[r].head && CanReturn(s, r, k))
  {
    var s := Reach(R, n, sched);
    assert RingInv(s.R, s.rings[r]) && RingInv(s.R, s.rings[r']);
    if k in s.rings[r].log.deq && k !in s.rings[r].log.taken { assert Pending(s.rings[r], k); }
    if r < r' { LostIff(R, n, sched, r, k); }
    if k < s.rings[r].head { ClaimedCanReturn(s, r, k); }
  }
}
