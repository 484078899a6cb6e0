// What closes a ring: a ticket that found no place, and a dequeue counter that had passed it
// or lagged a whole ring behind. A ring may be closed while it is empty.

module LcrqClosing {
  import opened Options
  import opened LcrqRing
  import opened LcrqSystem
  import opened LcrqInvariant
  import opened LcrqPreserve
  import opened LcrqFlow
  import opened LcrqHistory
  import opened LcrqTheorems
  import opened LcrqSolo
  import opened LcrqSequential
  import opened LcrqTale
  import opened LcrqSchedule

  // ------------------------------------------------- why a ring was closed

  // The step of thread tid closes ring r.
  ghost predicate Shuts(s: Sys, s': Sys, r: nat) {
    r < |s.rings| && r < |s'.rings| && !s.rings[r].closed && s'.rings[r].closed
  }

  lemma {:induction false} SelectShuts(s: Sys, tid: nat, r: nat)
    requires Quick(s, tid) && SelectPc(s.threads[tid].pc)
    ensures !Shuts(s, SelectStep(s, tid), r)
  {
  }

  lemma {:induction false} DepositShuts(s: Sys, tid: nat, r: nat)
    requires Quick(s, tid) && DepositPc(s.threads[tid].pc) && Shuts(s, DepositStep(s, tid), r)
    ensures var pc := s.threads[tid].pc; pc.EClose? && pc.rq == r
  {
  }

  lemma {:induction false} AppendShuts(s: Sys, tid: nat, r: nat)
    requires Quick(s, tid) && AppendPc(s.threads[tid].pc)
    ensures !Shuts(s, AppendStep(s, tid), r)
  {
  }

  lemma {:induction false} TicketShuts(s: Sys, tid: nat, r: nat)
    requires Quick(s, tid) && TicketPc(s.threads[tid].pc)
    ensures !Shuts(s, TicketStep(s, tid), r)
  {
  }

  lemma {:induction false} InnerShuts(s: Sys, tid: nat, r: nat)
    requires Quick(s, tid) && InnerPc(s.threads[tid].pc)
    ensures !Shuts(s, InnerStep(s, tid), r)
  {
  }

  lemma {:induction false} FixShuts(s: Sys, tid: nat, r: nat)
    requires Quick(s, tid) && FixPc(s.threads[tid].pc)
    ensures !Shuts(s, FixStep(s, tid), r)
  {
  }

  lemma {:induction false} StepShuts(s: Sys, tid: nat, cmd: Cmd, r: nat)
    requires Quick(s, tid) && Shuts(s, Step(s, tid, cmd), r)
    ensures var pc := s.threads[tid].pc; pc.EClose? && pc.rq == r
  {
    var pc := s.threads[tid].pc;
    if SelectPc(pc) {
      SelectShuts(s, tid, r);
    } else if DepositPc(pc) {
      DepositShuts(s, tid, r);
    } else if AppendPc(pc) {
      AppendShuts(s, tid, r);
    } else if TicketPc(pc) {
      TicketShuts(s, tid, r);
    } else if InnerPc(pc) {
      InnerShuts(s, tid, r);
    } else if FixPc(pc) {
      FixShuts(s, tid, r);
    }
  }

  // At the read of head, or about to close.
  predicate Shutting(pc: Pc) { pc.ELoadHead? || pc.EClose? }

  // A thread comes to the close from its read of head.
  lemma {:induction false} ComesToClose(s: Sys, e: Event, th': Thread)
    requires Core(s) && e.tid < |s.threads| && th' == Turn(s, e).threads[e.tid] && th'.pc.EClose?
    ensures var pc := s.threads[e.tid].pc;
            pc == ELoadHead(th'.pc.rq, th'.pc.t) && pc.rq < |s.rings| && LooksFull(s.R, pc.t, s.rings[pc.rq].head)
    ensures th'.ops == s.threads[e.tid].ops
  {
    CoreToLocal(s, e.tid);
    StepFlows(s, e.tid, e.cmd);
    DepositToClose(s, e.tid);
  }

  lemma {:induction false} DepositToClose(s: Sys, tid: nat)
    requires Quick(s, tid) && DepositPc(s.threads[tid].pc) && DepositStep(s, tid).threads[tid].pc.EClose?
    ensures var pc, th' := s.threads[tid].pc, DepositStep(s, tid).threads[tid];
            && pc == ELoadHead(th'.pc.rq, th'.pc.t) && pc.rq < |s.rings| && LooksFull(s.R, pc.t, s.rings[pc.rq].head)
            && th'.ops == s.threads[tid].ops
  {
  }

  // The turn at which a thread about to close a ring read the ring's head.
  lemma {:induction false} HeadRead(R: nat, n: nat, sched: seq<Event>, tid: nat) returns (p: nat)
    requires R > 0 && tid < n && Reach(R, n, sched).threads[tid].pc.EClose?
    ensures p < |sched| && sched[p].tid == tid
    ensures var th, th0 := Reach(R, n, sched).threads[tid], Reach(R, n, sched[..p]).threads[tid];
            && th0.pc == ELoadHead(th.pc.rq, th.pc.t) && th0.ops == th.ops
            && th.pc.rq < |Reach(R, n, sched[..p]).rings|
            && LooksFull(R, th.pc.t, Reach(R, n, sched[..p]).rings[th.pc.rq].head)
    decreases |sched|
  {
    var m := |sched| - 1;
    if sched == [] {
      assert false;
    }
    var s, e := Reach(R, n, sched[..m]), sched[m];
    assert Reach(R, n, sched) == Turn(s, e);
    if e.tid != tid {
      TurnOthers(s, e, tid);
      p := HeadRead(R, n, sched[..m], tid);
      assert sched[..m][..p] == sched[..p];
    } else {
      ComesToClose(s, e, Turn(s, e).threads[tid]);
      p := m;
    }
  }

  /** Whenever a turn closes a ring, its thread had drawn a ticket of the ring and, earlier in the
      same operation, had read a dequeue counter that had passed the ticket or that the ticket was
      a whole ring ahead of. */
  lemma {:induction false} ClosedFor(R: nat, n: nat, sched: seq<Event>, e: Event, r: nat) returns (t: nat, p: nat)
    requires R > 0 && Shuts(Reach(R, n, sched), Turn(Reach(R, n, sched), e), r)
    ensures e.tid < n && p < |sched| && sched[p].tid == e.tid
    ensures var th, th0 := Reach(R, n, sched).threads[e.tid], Reach(R, n, sched[..p]).threads[e.tid];
            && th.pc == EClose(r, t) && th0.pc == ELoadHead(r, t) && th0.ops == th.ops
            && r < |Reach(R, n, sched[..p]).rings|
            && var h := Reach(R, n, sched[..p]).rings[r].head; h > t || t - h >= R
  {
    var s := Reach(R, n, sched);
    CoreToLocal(s, e.tid);
    StepShuts(s, e.tid, e.cmd, r);
    t := s.threads[e.tid].pc.t;
    p := HeadRead(R, n, sched, e.tid);
  }

  // ------------------------------------------------- closed while it is empty

  ghost predicate AllEmpty(g: Ring) {
    forall j: nat :: j < |g.cells| ==> g.cells[j].val == EMPTY
  }

  // A ring without values between operations run one at a time has none in any cell.
  lemma {:induction false} EmptyCells(R: nat, g: Ring)
    requires SeqRing(R, g) && g.head == End(g) == 1
    ensures AllEmpty(g)
  {
    SlotZero(R);
    SlotPlus(0, R);
    forall j: nat | j < R ensures g.cells[j].val == EMPTY {
      SlotSelf(j, R);
      var k := if j == 0 then R else j;
      assert g.cells[Slot(k, R)].val == EMPTY;
    }
  }

  // One ring without a value, whose head is h; thread 1 holds ticket 1.
  ghost predicate Lagging(s: Sys, h: nat) {
    && |s.threads| >= 2 && |s.rings| == 1 && s.head == s.tail == 0
    && s.threads[0].pc.Idle? && s.threads[1].pc == ELoadIdx(0, 1) && s.threads[1].tries == 0
    && var g := s.rings[0];
    && |g.cells| == s.R > 0 && g.head == h && g.tail == 2 && !g.closed && g.next.None? && AllEmpty(g)
  }

  lemma {:induction false} LagStage(tr: seq<Sys>)
    requires Trace(tr, 1, Enqueue(8)) && |tr| == 5 && OneOut(tr[0])
    ensures Lagging(tr[4], 1) && CellOf(tr[4], 0, 1) == Cell(EMPTY, 1, false)
  {
    var s := tr[0];
    assert s.rings[0].cells[Slot(1, s.R)] == Cell(EMPTY, 1, false);
    EmptyCells(s.R, s.rings[0]);
    EnqueueDraws(tr, 0, 1, 8);
  }

  // fixState leaves a ring whose head has not overtaken its tail.
  lemma {:induction false} FixedTurn(tr: seq<Sys>, k: nat, i: nat, cmd: Cmd)
    requires Ready(tr, k, 1, i, cmd) && tr[k].threads[i].pc.FReload?
    requires var g, pc := tr[k].rings[tr[k].threads[i].pc.rq], tr[k].threads[i].pc;
             g.tail == pc.ft && g.closed == pc.fclosed && pc.fh <= pc.ft
    ensures var th := tr[k].threads[i]; At(tr[k], tr[k + 1], i, th.(pc := DLoadNext(th.pc.rq, th.pc.h)))
  {
    OneTurn(tr, k, i, cmd);
  }

  // A dequeue gives ticket 1 up and returns EMPTY: twelve turns.
  lemma {:induction false} GivesUpStage(tr: seq<Sys>)
    requires Trace(tr, 0, Dequeue) && |tr| == 13 && Lagging(tr[0], 1)
    requires CellOf(tr[0], 0, 1) == Cell(EMPTY, 1, false)
    ensures Lagging(tr[12], 2) && CellOf(tr[12], 0, 1).idx > 1
  {
    BeginTurn(tr);
    DequeueGivesUpState(tr, 1, 0, Dequeue);
    FixReads(tr, 7, 0, Dequeue);
    FixedTurn(tr, 10, 0, Dequeue);
    EmptyTurn(tr, 11, 0, Dequeue);
  }

  lemma {:induction false} ShutStage(tr: seq<Sys>)
    requires Trace(tr, 1, Enqueue(8)) && |tr| == 5 && Lagging(tr[0], 2) && CellOf(tr[0], 0, 1).idx > 1
    ensures |tr[4].rings| == 1 && tr[4].rings[0].closed && AllEmpty(tr[4].rings[0])
  {
    EnqueueCloses(tr, 0, 1, Enqueue(8));
  }

  /** On rings of every size, as soon as there are two threads, a ring can be closed while no cell
      of it holds a value. */
  lemma {:induction false} ClosedWhileEmpty(R: nat, n: nat) returns (sched: seq<Event>)
    requires R > 0 && n >= 2
    ensures var s := Reach(R, n, sched); |s.rings| == 1 && s.rings[0].closed && AllEmpty(s.rings[0])
  {
    StartFresh(R, n);
    var a, ta := Tells(R, n, [], 0, Enqueue(7), 7);
    var b, tb := Tells(R, n, a, 0, Dequeue, 6);
    InTale(ta);
    OutTale(tb);
    var c, tc := Tells(R, n, b, 1, Enqueue(8), 4);
    LagStage(tc);
    var d, td := Tells(R, n, c, 0, Dequeue, 12);
    GivesUpStage(td);
    var e, te := Tells(R, n, d, 1, Enqueue(8), 4);
    ShutStage(te);
    sched := e;
  }
}
