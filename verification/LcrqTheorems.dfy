// What holds in every interleaving of enqueues and dequeues.

module LcrqTheorems {
  import opened Options
  import opened LcrqRing
  import opened LcrqSystem
  import opened LcrqInvariant
  import opened LcrqPreserve
  import opened LcrqFlow
  import opened LcrqHistory
  import opened LcrqOrder

  // ------------------------------------------------------- reachable states

  ghost predicate Inv(s: Sys) {
    && Core(s)
    && Ops(s)
    && OneDepositEach(s)
    && Answers(s)
    && PlacedInv(s)
    && Swings(s)
  }

  lemma {:induction false} TurnInv(s: Sys, e: Event)
    requires Inv(s)
    ensures Inv(Turn(s, e))
  {
    if e.tid < |s.threads| {
      CoreToLocal(s, e.tid);
      StepOk(s, e.tid, e.cmd);
      StepBooks(s, e.tid, e.cmd);
      var s' := Step(s, e.tid, e.cmd);
      OpsKept(s, s', e.tid);
      OneDepositKept(s, s', e.tid);
      StepAnswers(s, e.tid, e.cmd);
      AnswersKept(s, s', e.tid);
      PlacedKept(s, e.tid, e.cmd);
      SwingsKept(s, e.tid, e.cmd);
    }
  }

  lemma {:induction false} RunInv(s: Sys, sched: seq<Event>)
    requires Inv(s)
    ensures Inv(Run(s, sched))
    decreases |sched|
  {
    if sched != [] {
      var m := |sched| - 1;
      RunInv(s, sched[..m]);
      TurnInv(Run(s, sched[..m]), sched[m]);
    }
  }

  // The state after a schedule, from an empty queue with ring size R and n threads.
  ghost function Reach(R: nat, n: nat, sched: seq<Event>): (s: Sys)
    requires R > 0
    ensures Inv(s) && s.R == R && |s.threads| == n
  {
    InitOk(R, n);
    RunInv(Init(R, n), sched);
    RunGrows(Init(R, n), sched);
    Run(Init(R, n), sched)
  }

  // ------------------------------------- a ticket given up is never deposited

  // Out of the inner loop without a value.
  predicate LeftEmptyHanded(pc: Pc) {
    pc.DCheckTail? || PastCheck(pc)
  }

  lemma {:induction false} GaveUpOfThread(s: Sys, tid: nat)
    requires Core(s) && tid < |s.threads| && LeftEmptyHanded(s.threads[tid].pc)
    ensures GaveUp(s, tid, s.threads[tid].pc.rq, s.threads[tid].pc.h)
  {
    assert ThreadInv(s, tid);
  }

  /** Once a dequeuer with ticket h of ring rq has left the inner loop without a value,
      nothing is ever deposited under h in rq: not by an enqueuer with stale reads, and
      no cell of rq holds a value with index h again. */
  lemma {:induction false} GivenUpStaysEmpty(R: nat, n: nat, a: seq<Event>, b: seq<Event>, tid: nat)
    requires R > 0 && tid < n
    requires LeftEmptyHanded(Reach(R, n, a).threads[tid].pc)
    ensures var pc := Reach(R, n, a).threads[tid].pc;
            var s := Run(Reach(R, n, a), b);
            && pc.rq < |s.rings| && |s.rings[pc.rq].cells| == R
            && pc.h !in s.rings[pc.rq].log.dep
            && (forall j: nat :: j < R && s.rings[pc.rq].cells[j].idx == pc.h ==> s.rings[pc.rq].cells[j].val == EMPTY)
  {
    var s1 := Reach(R, n, a);
    var s := Run(s1, b);
    var pc := s1.threads[tid].pc;
    GaveUpOfThread(s1, tid);
    RunGrows(s1, b);
    assert Grows(s1.rings[pc.rq], s.rings[pc.rq]) && RingInv(s.R, s.rings[pc.rq]);
  }

  // -------------------------------------------------------- EMPTY means empty

  // Between the emptiness check and the read of next.
  predicate AfterCheck(pc: Pc) {
    FixPc(pc) || pc.DLoadNext?
  }

  // A thread gets past the check only from the check itself, or was past it before.
  ghost predicate CheckedFrom(s: Sys, th: Thread, th': Thread) {
    && (th.pc.DCheckTail? || AfterCheck(th.pc))
    && AfterCheck(th'.pc)
    && th'.pc.rq == th.pc.rq && th'.pc.h == th.pc.h && th'.ops == th.ops
    && (AfterCheck(th.pc) ==> th'.sawClosed == th.sawClosed)
    && (th.pc.DCheckTail? ==> th.pc.rq < |s.rings| && NearEmpty(s.rings[th.pc.rq].tail, th.pc.h)
                              && th'.sawClosed == s.rings[th.pc.rq].closed)
  }

  lemma {:induction false} TicketChecked(s: Sys, tid: nat)
    requires Quick(s, tid) && TicketPc(s.threads[tid].pc)
    requires AfterCheck(TicketStep(s, tid).threads[tid].pc)
    ensures CheckedFrom(s, s.threads[tid], TicketStep(s, tid).threads[tid])
  {
  }

  lemma {:induction false} FixChecked(s: Sys, tid: nat)
    requires Quick(s, tid) && FixPc(s.threads[tid].pc)
    ensures CheckedFrom(s, s.threads[tid], FixStep(s, tid).threads[tid])
  {
  }

  lemma {:induction false} CheckedBefore(s: Sys, tid: nat, cmd: Cmd)
    requires Quick(s, tid) && AfterCheck(Step(s, tid, cmd).threads[tid].pc)
    ensures CheckedFrom(s, s.threads[tid], Step(s, tid, cmd).threads[tid])
  {
    StepFlows(s, tid, cmd);
    if FixPc(s.threads[tid].pc) { FixChecked(s, tid); } else { TicketChecked(s, tid); }
  }

  lemma {:induction false} TurnChecked(s: Sys, e: Event)
    requires Core(s) && e.tid < |s.threads| && AfterCheck(Turn(s, e).threads[e.tid].pc)
    ensures CheckedFrom(s, s.threads[e.tid], Turn(s, e).threads[e.tid])
  {
    CoreToLocal(s, e.tid);
    CheckedBefore(s, e.tid, e.cmd);
  }

  // s is where the thread that is now at th, past the emptiness check, made that check.
  ghost predicate CheckMade(s: Sys, th: Thread, tid: nat) {
    && AfterCheck(th.pc) && tid < |s.threads|
    && s.threads[tid].pc == DCheckTail(th.pc.rq, th.pc.h) && s.threads[tid].ops == th.ops
    && th.pc.rq < |s.rings|
    && NearEmpty(s.rings[th.pc.rq].tail, th.pc.h) && th.sawClosed == s.rings[th.pc.rq].closed
  }

  // A turn after which thread tid is past its check: it was before, or made the check.
  lemma {:induction false} CheckMadeTurn(s: Sys, s': Sys, e: Event, tid: nat)
    requires Core(s) && tid < |s.threads| && s' == Turn(s, e) && AfterCheck(s'.threads[tid].pc)
    ensures AfterCheck(s.threads[tid].pc) ==>
              forall s0: Sys :: CheckMade(s0, s.threads[tid], tid) ==> CheckMade(s0, s'.threads[tid], tid)
    ensures !AfterCheck(s.threads[tid].pc) ==> e.tid == tid && CheckMade(s, s'.threads[tid], tid)
  {
    if e.tid == tid { TurnChecked(s, e); } else { TurnOthers(s, e, tid); }
  }

  // The turn at which a thread past the emptiness check made that check.
  lemma {:induction false} CheckPoint(R: nat, n: nat, sched: seq<Event>, tid: nat) returns (p: nat)
    requires R > 0 && tid < n && AfterCheck(Reach(R, n, sched).threads[tid].pc)
    ensures p < |sched| && sched[p].tid == tid
    ensures CheckMade(Reach(R, n, sched[..p]), Reach(R, n, sched).threads[tid], tid)
    decreases |sched|
  {
    var m := |sched| - 1;
    if sched == [] {
      assert false;
    }
    var s := Reach(R, n, sched[..m]);
    CheckMadeTurn(s, Reach(R, n, sched), sched[m], tid);
    p := m;
    if AfterCheck(s.threads[tid].pc) {
      p := CheckPoint(R, n, sched[..m], tid);
      assert sched[..m][..p] == sched[..p];
    }
  }

  lemma {:induction false} TurnOthers(s: Sys, e: Event, tid: nat)
    requires Core(s) && tid < |s.threads| && e.tid != tid
    ensures Turn(s, e).threads[tid] == s.threads[tid]
  {
    if e.tid < |s.threads| { StepOk(s, e.tid, e.cmd); }
  }

  // Every value in the ring is about to be taken by a dequeuer other than tid.
  ghost predicate NothingUnclaimed(s: Sys, rq: nat, h: nat, tid: nat)
    requires rq < |s.rings|
  {
    forall k: nat :: k in s.rings[rq].log.dep && k !in s.rings[rq].log.taken ==>
      k < h && k in s.rings[rq].log.deq && Claimed(s, rq, k) && s.rings[rq].log.deq[k] != tid
  }

  lemma {:induction false} ValuesAtCheck(s: Sys, tid: nat)
    requires Core(s) && tid < |s.threads| && s.threads[tid].pc.DCheckTail?
    requires var pc := s.threads[tid].pc; pc.rq < |s.rings| && NearEmpty(s.rings[pc.rq].tail, pc.h)
    ensures NothingUnclaimed(s, s.threads[tid].pc.rq, s.threads[tid].pc.h, tid)
  {
    var pc := s.threads[tid].pc;
    var g := s.rings[pc.rq];
    assert ThreadInv(s, tid) && RingInv(s.R, g);
    forall k: nat | k in g.log.dep && k !in g.log.taken
      ensures k < pc.h && k in g.log.deq && Claimed(s, pc.rq, k) && g.log.deq[k] != tid
    {
      StillPending(s.R, g, pc.h, k);
    }
  }

  lemma {:induction false} StillPending(R: nat, g: Ring, h: nat, k: nat)
    requires RingInv(R, g) && NearEmpty(g.tail, h) && h in g.log.gaveUp && k in g.log.dep && k !in g.log.taken
    ensures k < h && Pending(g, k)
  {
    assert k in g.log.dep.Keys && h in g.log.gaveUp && h in g.log.deq.Keys;
    assert k in g.log.enq && k < g.tail <= h + 1;
    assert k != h && h < g.head;
  }

  // Turn p of the schedule is the emptiness check of the dequeue that thread tid is in.
  ghost predicate EmptyAt(R: nat, n: nat, sched: seq<Event>, tid: nat, p: nat)
    requires R > 0 && tid < n && Reach(R, n, sched).threads[tid].pc.DLoadNext?
  {
    var th := Reach(R, n, sched).threads[tid];
    && p < |sched| && sched[p].tid == tid
    && var s := Reach(R, n, sched[..p]);
    && s.threads[tid].pc == DCheckTail(th.pc.rq, th.pc.h)
    && s.threads[tid].ops == th.ops
    && th.pc.rq == s.head == |s.rings| - 1
    && NothingUnclaimed(s, th.pc.rq, th.pc.h, tid)
  }

  lemma {:induction false} ReachGrows(R: nat, n: nat, sched: seq<Event>, p: nat)
    requires R > 0 && p <= |sched|
    ensures Grew(Reach(R, n, sched[..p]), Reach(R, n, sched))
  {
    assert sched == sched[..p] + sched[p..];
    InitOk(R, n);
    RunSplit(Init(R, n), sched[..p], sched[p..]);
    RunGrows(Reach(R, n, sched[..p]), sched[p..]);
  }

  // A ring without a successor now was the last at the check, and the first.
  lemma {:induction false} EmptyAtCheck(s: Sys, s2: Sys, tid: nat)
    requires Core(s) && Grew(s, s2) && tid < |s2.threads| && CheckMade(s, s2.threads[tid], tid)
    requires var rq := s2.threads[tid].pc.rq; rq < |s2.rings| && s2.rings[rq].next.None?
    ensures var pc := s2.threads[tid].pc;
            pc.rq == s.head == |s.rings| - 1 && NothingUnclaimed(s, pc.rq, pc.h, tid)
  {
    var rq := s2.threads[tid].pc.rq;
    ValuesAtCheck(s, tid);
    assert Grows(s.rings[rq], s2.rings[rq]);
    assert ThreadInv(s, tid);
  }

  /** When dequeue is about to return EMPTY, there was a moment inside that same operation,
      its emptiness check, at which its ring was both the first and the last of the queue and
      every value in it was already claimed by another dequeuer at work. */
  lemma {:induction false} EmptyWasEmpty(R: nat, n: nat, sched: seq<Event>, tid: nat)
    requires R > 0 && tid < n && Reach(R, n, sched).threads[tid].pc.DLoadNext?
    requires var s := Reach(R, n, sched);
             s.threads[tid].pc.rq < |s.rings| && s.rings[s.threads[tid].pc.rq].next.None?
    ensures exists p: nat :: EmptyAt(R, n, sched, tid, p)
  {
    var p := CheckPoint(R, n, sched, tid);
    ReachGrows(R, n, sched, p);
    EmptyAtCheck(Reach(R, n, sched[..p]), Reach(R, n, sched), tid);
    assert EmptyAt(R, n, sched, tid, p);
  }

  // ------------------------------------------------------ leaving a ring

  // No value is, or will be, in the ring without a dequeuer at work to take it.
  ghost predicate NothingStranded(s: Sys, r: nat) {
    && r < |s.rings|
    && (forall k: nat :: k in s.rings[r].log.dep && k !in s.rings[r].log.taken ==>
          k in s.rings[r].log.deq && Claimed(s, r, k))
    && (forall i: nat, t: nat :: i < |s.threads| && HoldsEnqueue(s.threads[i].pc) == Some((r, t)) ==>
          t in s.rings[r].log.deq)
  }

  lemma {:induction false} DrainedStrandsNothing(s: Sys, r: nat)
    requires Core(s) && r < |s.rings| && Drained(s.rings[r])
    ensures NothingStranded(s, r)
  {
    var g := s.rings[r];
    assert RingInv(s.R, g);
    forall k: nat | k in g.log.dep && k !in g.log.taken ensures k in g.log.deq && Claimed(s, r, k) {
      assert Pending(g, k);
    }
    forall i: nat, t: nat | i < |s.threads| && HoldsEnqueue(s.threads[i].pc) == Some((r, t)) ensures t in g.log.deq {
      assert ThreadInv(s, i);
    }
  }

  lemma {:induction false} DrainedWhenLeft(s: Sys, tid: nat)
    requires Core(s) && tid < |s.threads| && s.threads[tid].pc.DSwingHead? && s.threads[tid].sawClosed
    ensures s.threads[tid].pc.rq < |s.rings| && Drained(s.rings[s.threads[tid].pc.rq])
  {
    assert ThreadInv(s, tid);
  }

  lemma {:induction false} StrandsNothingLater(s1: Sys, s: Sys, r: nat)
    requires Core(s) && Grew(s1, s) && r < |s1.rings| && Drained(s1.rings[r])
    ensures NothingStranded(s, r)
  {
    DrainedGrows(s1.rings[r], s.rings[r]);
    DrainedStrandsNothing(s, r);
  }

  /** If the emptiness check that sends a dequeuer on to the next ring read a closed tail,
      then nothing is stranded in the ring it leaves, then or at any later time. */
  lemma {:induction false} ClosedCheckStrandsNothing(R: nat, n: nat, a: seq<Event>, b: seq<Event>, tid: nat)
    requires R > 0 && tid < n
    requires var th := Reach(R, n, a).threads[tid]; th.pc.DSwingHead? && th.sawClosed
    ensures NothingStranded(Run(Reach(R, n, a), b), Reach(R, n, a).threads[tid].pc.rq)
  {
    var s1 := Reach(R, n, a);
    DrainedWhenLeft(s1, tid);
    RunGrows(s1, b);
    StrandsNothingLater(s1, Run(s1, b), s1.threads[tid].pc.rq);
  }

  // ------------------------------------------------------------------- FIFO

  predicate Before(r: nat, k: nat, r': nat, k': nat) {
    r < r' || (r == r' && k < k')
  }

  lemma {:induction false} TurnSince(s1: Sys, s: Sys, e: Event)
    requires Core(s) && Grew(s1, s) && Since(s1, s) && s1.tail < |s1.rings|
    ensures Since(s1, Turn(s, e))
  {
    if e.tid < |s.threads| { SinceKept(s1, s, e.tid, e.cmd); }
  }

  lemma {:induction false} RunSince(s1: Sys, sched: seq<Event>)
    requires Inv(s1)
    ensures Since(s1, Run(s1, sched))
    decreases |sched|
  {
    if sched == [] {
    } else {
      var m := |sched| - 1;
      var s := Run(s1, sched[..m]);
      RunSince(s1, sched[..m]);
      RunGrows(s1, sched[..m]);
      TurnSince(s1, s, sched[m]);
    }
  }

  /** If enqueue A has deposited and finished before enqueue B begins, then B's value is
      placed after A's: in a later ring, or in the same ring under a larger ticket. */
  lemma {:induction false} EnqueueOrder(R: nat, n: nat, a: seq<Event>, b: seq<Event>, r: nat, k: nat, r': nat, k': nat)
    requires R > 0
    requires var s1 := Reach(R, n, a); Deposited(s1, r, k) && Finished(s1, OpOf(s1, r, k))
    requires var s := Run(Reach(R, n, a), b); Deposited(s, r', k') && NotBegun(Reach(R, n, a), OpOf(s, r', k'))
    ensures Before(r, k, r', k')
  {
    var s1 := Reach(R, n, a);
    RunSince(s1, b);
    assert PlacedByTail(s1, r, OpOf(s1, r, k));
    assert RingInv(s1.R, s1.rings[r]);
    assert LatePlace(s1, r', k');
  }

  /** Values of one ring are claimed in the order they were placed; values of different
      rings are too, unless head left the earlier ring after a check that read it open. */
  lemma {:induction false} ClaimOrder(R: nat, n: nat, sched: seq<Event>, r: nat, k: nat, r': nat, k': nat)
    requires R > 0
    requires var s := Reach(R, n, sched);
             Deposited(s, r, k) && Deposited(s, r', k') && Before(r, k, r', k') && k' in s.rings[r'].log.deq
    requires r == r' || r !in Reach(R, n, sched).early
    ensures k in Reach(R, n, sched).rings[r].log.deq
  {
    var s := Reach(R, n, sched);
    assert RingInv(s.R, s.rings[r]) && RingInv(s.R, s.rings[r']);
  }

  /** First in, first out: if enqueue A finished before enqueue B began and B's value has been
      returned, then A's value has been returned, or its dequeuer drew its ticket and is at work.
      Across rings this needs head never to have left A's ring after reading it open. */
  lemma {:induction false} Fifo(R: nat, n: nat, a: seq<Event>, b: seq<Event>, r: nat, k: nat, r': nat, k': nat)
    requires R > 0
    requires var s1 := Reach(R, n, a); Deposited(s1, r, k) && Finished(s1, OpOf(s1, r, k))
    requires var s := Run(Reach(R, n, a), b);
             && Deposited(s, r', k') && NotBegun(Reach(R, n, a), OpOf(s, r', k'))
             && k' in s.rings[r'].log.taken
             && (r == r' || r !in s.early)
    ensures var s := Run(Reach(R, n, a), b);
            && r < |s.rings|
            && (k in s.rings[r].log.taken || (k in s.rings[r].log.deq && Claimed(s, r, k)))
  {
    var s1 := Reach(R, n, a);
    var s := Run(s1, b);
    EnqueueOrder(R, n, a, b, r, k, r', k');
    InitOk(R, n);
    RunSplit(Init(R, n), a, b);
    RunGrows(s1, b);
    assert Grows(s1.rings[r], s.rings[r]);
    assert Reach(R, n, a + b) == s;
    assert RingInv(s.R, s.rings[r]) && RingInv(s.R, s.rings[r']);
    assert Deposited(s, r, k);
    ClaimOrder(R, n, a + b, r, k, r', k');
    if k !in s.rings[r].log.taken {
      assert Pending(s.rings[r], k);
    }
  }

  /** No value is lost: every value ever deposited in a ring that head did not leave after reading
      it open was returned exactly once, or is claimed by a dequeuer at work, or waits in its cell,
      in a ring at or after head, under a ticket still to be drawn. */
  lemma {:induction false} NoLoss(R: nat, n: nat, sched: seq<Event>, r: nat, k: nat)
    requires R > 0 && Deposited(Reach(R, n, sched), r, k) && r !in Reach(R, n, sched).early
    ensures var s := Reach(R, n, sched);
            var g := s.rings[r];
            && |g.cells| == R
            && (k in g.log.taken ==> exists i: nat :: Answered(s, r, k, i) && s.answers[i].val == g.log.dep[k])
            && (k !in g.log.taken ==>
                  && CellOf(s, r, k).val == g.log.dep[k] && CellOf(s, r, k).idx == k
                  && ((k in g.log.deq && Claimed(s, r, k)) || (k !in g.log.deq && s.head <= r && g.head <= k)))
  {
    var s := Reach(R, n, sched);
    var g := s.rings[r];
    assert RingInv(s.R, g) && DepositInv(s.R, g, k);
    if k in g.log.taken {
      assert k in TakenOf(s, r);
      var i: nat :| Answered(s, r, k, i);
      assert Justified(s, s.answers[i]);
    } else if k in g.log.deq {
      assert Pending(g, k);
    }
  }

  // ---------------------------------------------------------- exactly once

  /** Every value returned was deposited by one enqueue, under the ticket of the dequeuer that
      returned it; and no two returned values come from the same enqueue. */
  lemma {:induction false} ReturnedOnce(R: nat, n: nat, sched: seq<Event>, i: nat)
    requires R > 0 && i < |Reach(R, n, sched).answers| && Reach(R, n, sched).answers[i].val != EMPTY
    ensures var s := Reach(R, n, sched);
            var a := s.answers[i];
            && Deposited(s, a.rq, a.ticket)
            && s.rings[a.rq].log.dep[a.ticket] == a.val
            && a.ticket in s.rings[a.rq].log.deq && s.rings[a.rq].log.deq[a.ticket] == a.tid
            && (forall r: nat, k: nat :: Deposited(s, r, k) && OpOf(s, r, k) == OpOf(s, a.rq, a.ticket) ==>
                  r == a.rq && k == a.ticket)
            && (forall j: nat :: j < |s.answers| && s.answers[j].val != EMPTY && j != i ==>
                  Deposited(s, s.answers[j].rq, s.answers[j].ticket)
                  && OpOf(s, s.answers[j].rq, s.answers[j].ticket) != OpOf(s, a.rq, a.ticket))
  {
    var s := Reach(R, n, sched);
    var a := s.answers[i];
    assert Justified(s, a) && RingInv(s.R, s.rings[a.rq]);
    forall j: nat | j < |s.answers| && s.answers[j].val != EMPTY && j != i
      ensures Deposited(s, s.answers[j].rq, s.answers[j].ticket)
              && OpOf(s, s.answers[j].rq, s.answers[j].ticket) != OpOf(s, a.rq, a.ticket)
    {
      var c := s.answers[j];
      assert Justified(s, c) && RingInv(s.R, s.rings[c.rq]);
      assert Answered(s, c.rq, c.ticket, j) && Answered(s, a.rq, a.ticket, i);
    }
  }

  // ------------------------------------------------------ cells and the chain

  /** Slot j only ever carries indices congruent to j, indices never go back, and a cell state
      that was left does not come back, so a CAS2 that succeeds saw no change in between. */
  lemma {:induction false} CellsMoveForward(R: nat, n: nat, a: seq<Event>, b: seq<Event>, c: seq<Event>, r: nat, j: nat)
    requires R > 0 && r < |Reach(R, n, a).rings| && j < R
    ensures var s0 := Reach(R, n, a);
            var s1 := Run(s0, b);
            var s2 := Run(s1, c);
            && r < |s1.rings| && r < |s2.rings|
            && |s0.rings[r].cells| == |s1.rings[r].cells| == |s2.rings[r].cells| == R
            && Slot(s0.rings[r].cells[j].idx, R) == j
            && s0.rings[r].cells[j].idx <= s1.rings[r].cells[j].idx
            && (s1.rings[r].cells[j] != s0.rings[r].cells[j] ==> s2.rings[r].cells[j] != s0.rings[r].cells[j])
  {
    var s0 := Reach(R, n, a);
    var s1 := Run(s0, b);
    RunGrows(s0, b);
    RunGrows(s1, c);
    assert Grows(s0.rings[r], s1.rings[r]) && Grows(s1.rings[r], Run(s1, c).rings[r]);
    assert RingInv(R, s0.rings[r]);
  }

  /** A deposited value leaves its cell only when the dequeuer that drew the same ticket takes it. */
  lemma {:induction false} ValuesStayPut(R: nat, n: nat, a: seq<Event>, b: seq<Event>, r: nat, k: nat)
    requires R > 0 && Deposited(Reach(R, n, a), r, k)
    ensures var s0 := Reach(R, n, a);
            var s := Run(s0, b);
            && r < |s.rings| && |s.rings[r].cells| == R
            && var g := s.rings[r];
               || (CellOf(s, r, k).val == s0.rings[r].log.dep[k] && CellOf(s, r, k).idx == k && k !in g.log.taken)
               || exists i: nat :: Answered(s, r, k, i) && k in g.log.deq && s.answers[i].tid == g.log.deq[k]
  {
    var s0 := Reach(R, n, a);
    var s := Run(s0, b);
    RunInv(s0, b);
    RunGrows(s0, b);
    assert Grows(s0.rings[r], s.rings[r]) && RingInv(s.R, s.rings[r]) && DepositInv(s.R, s.rings[r], k);
    if k in s.rings[r].log.taken {
      assert k in TakenOf(s, r);
      var i: nat :| Answered(s, r, k, i);
      assert Justified(s, s.answers[i]);
    }
  }

  /** The rings form one acyclic chain; next is written once; a ring with a successor is closed,
      a closed ring stays closed and gets no further enqueue ticket, and nothing is deposited in
      it but under tickets drawn before it closed; head and tail only move forward, and tail is
      the last ring or the last but one. */
  lemma {:induction false} ChainOnlyGrows(R: nat, n: nat, a: seq<Event>, b: seq<Event>, r: nat)
    requires R > 0 && r < |Reach(R, n, a).rings|
    ensures var s0 := Reach(R, n, a);
            var s := Run(s0, b);
            && s0.head <= s.head < |s.rings|
            && s0.tail <= s.tail < |s.rings| <= s.tail + 2
            && r < |s.rings|
            && s.rings[r].next == (if r + 1 < |s.rings| then Some(r + 1) else None)
            && (s0.rings[r].next.Some? ==> s.rings[r].next == s0.rings[r].next)
            && (s.rings[r].next.Some? ==> s.rings[r].closed)
            && (s0.rings[r].closed ==> s.rings[r].closed && s.rings[r].log.enq == s0.rings[r].log.enq)
            && s.rings[r].log.dep.Keys <= s.rings[r].log.enq.Keys
  {
    var s0 := Reach(R, n, a);
    var s := Run(s0, b);
    RunGrows(s0, b);
    assert Grows(s0.rings[r], s.rings[r]) && RingInv(s.R, s.rings[r]);
  }
}
