// Every step of every thread keeps the invariant. The step of a thread is first
// examined with only that thread and its ring in view, then put into the system.

module LcrqPreserve {
  import opened Options
  import opened LcrqRing
  import opened LcrqSystem
  import opened LcrqInvariant

  // ------------------------------------------------------- the local picture

  // All that the step of thread tid has to go on.
  ghost predicate Local(s: Sys, tid: nat) {
    && Shape(s)
    && Chain(s)
    && tid < |s.threads|
    && ThreadInv(s, tid)
    && (RingOf(s.threads[tid].pc).Some? ==> RingInv(s.R, s.rings[s.threads[tid].pc.rq]))
  }

  // Enough for the steps that read no log.
  ghost predicate Quick(s: Sys, tid: nat) {
    && Shape(s)
    && Chain(s)
    && tid < |s.threads|
    && ThreadInv(s, tid)
  }

  // A step that leaves every ring alone, and the thread's dequeue ticket with it.
  ghost predicate QuietGoal(s: Sys, s': Sys, tid: nat) {
    && tid < |s.threads|
    && s'.R == s.R
    && s'.rings == s.rings
    && |s'.threads| == |s.threads| && s'.threads == s.threads[tid := s'.threads[tid]]
    && s.head <= s'.head < |s.rings|
    && s.tail <= s'.tail < |s.rings|
    && HoldsDequeue(s'.threads[tid].pc) == HoldsDequeue(s.threads[tid].pc)
    && ThreadInv(s', tid)
  }

  // A step that changes only ring rq: it evolves, and a ticket that stays pending stays the thread's own.
  ghost predicate RingGoal(s: Sys, s': Sys, tid: nat, rq: nat, g': Ring) {
    && tid < |s.threads|
    && rq < |s.rings|
    && s'.R == s.R && s'.head == s.head && s'.tail == s.tail
    && s'.rings == s.rings[rq := g']
    && |s'.threads| == |s.threads| && s'.threads == s.threads[tid := s'.threads[tid]]
    && g'.next == s.rings[rq].next
    && RingInv(s.R, g')
    && Evolves(s.rings[rq], g', tid)
    && KeepsTicket(s, s', tid, rq)
    && ThreadInv(s', tid)
  }

  ghost predicate KeepsTicket(s: Sys, s': Sys, tid: nat, rq: nat)
    requires tid < |s.threads| == |s'.threads| && rq < |s.rings| == |s'.rings|
  {
    && (HoldsDequeue(s.threads[tid].pc).Some? ==> HoldsDequeue(s.threads[tid].pc).value.0 == rq)
    && (forall k: nat :: Pending(s'.rings[rq], k) && s'.rings[rq].log.deq[k] == tid && StillHeld(s, tid, rq, k) ==>
          HoldsDequeue(s'.threads[tid].pc) == Some((rq, k)))
  }

  // What the invariant says of a ticket that was pending before the step.
  ghost predicate StillHeld(s: Sys, tid: nat, rq: nat, k: nat)
    requires rq < |s.rings| && tid < |s.threads|
  {
    Pending(s.rings[rq], k) && s.rings[rq].log.deq[k] == tid ==> HoldsDequeue(s.threads[tid].pc) == Some((rq, k))
  }

  lemma {:induction false} QuietToGoal(s: Sys, s': Sys, tid: nat)
    requires Core(s) && QuietGoal(s, s', tid)
    ensures StepGoal(s, s', tid)
  {
    forall r: nat, k: nat | r < |s'.rings| && Pending(s'.rings[r], k) && s'.rings[r].log.deq[k] == tid
      ensures HoldsDequeue(s'.threads[tid].pc) == Some((r, k))
    {
      assert Claimed(s, r, k);
    }
  }

  lemma {:induction false} RingToGoal(s: Sys, s': Sys, tid: nat, rq: nat, g': Ring)
    requires Core(s) && RingGoal(s, s', tid, rq, g')
    ensures StepGoal(s, s', tid)
  {
    forall r: nat | r < |s'.rings| ensures RingInv(s.R, s'.rings[r]) {
      assert RingInv(s.R, s.rings[r]);
    }
    RingClaims(s, s', tid, rq, g');
  }

  lemma {:induction false} RingClaims(s: Sys, s': Sys, tid: nat, rq: nat, g': Ring)
    requires Claims(s) && RingGoal(s, s', tid, rq, g')
    ensures OwnClaims(s', tid)
  {
    forall r: nat, k: nat | r < |s'.rings| && Pending(s'.rings[r], k) && s'.rings[r].log.deq[k] == tid
      ensures HoldsDequeue(s'.threads[tid].pc) == Some((r, k))
    {
      if Pending(s.rings[r], k) && s.rings[r].log.deq[k] == tid {
        assert Claimed(s, r, k);
      }
      assert r == rq ==> StillHeld(s, tid, r, k);
    }
  }

  lemma {:induction false} CoreToLocal(s: Sys, tid: nat)
    requires Core(s) && tid < |s.threads|
    ensures Local(s, tid)
  {
    CoreShape(s);
    assert ThreadInv(s, tid);
    if RingOf(s.threads[tid].pc).Some? { assert RingInv(s.R, s.rings[s.threads[tid].pc.rq]); }
  }

  lemma {:induction false} BeginQuiet(s: Sys, tid: nat, cmd: Cmd)
    requires Quick(s, tid) && s.threads[tid].pc.Idle?
    ensures QuietGoal(s, Begin(s, tid, cmd), tid)
  {
    assert ThreadInv(Begin(s, tid, cmd), tid);
  }

  // ---------------------------------------------------------------- enqueue

  lemma {:induction false} ELoadTailQuiet(s: Sys, tid: nat)
    requires Quick(s, tid) && s.threads[tid].pc.ELoadTail?
    ensures QuietGoal(s, SelectStep(s, tid), tid)
  {
    var s' := SelectStep(s, tid);
    assert ThreadInv(s', tid);
  }

  lemma {:induction false} ELoadNextQuiet(s: Sys, tid: nat)
    requires Quick(s, tid) && s.threads[tid].pc.ELoadNext?
    ensures QuietGoal(s, SelectStep(s, tid), tid)
  {
    var s' := SelectStep(s, tid);
    assert ThreadInv(s', tid);
  }

  lemma {:induction false} EHelpTailQuiet(s: Sys, tid: nat)
    requires Quick(s, tid) && s.threads[tid].pc.EHelpTail?
    ensures QuietGoal(s, SelectStep(s, tid), tid)
  {
    var s' := SelectStep(s, tid);
    assert ThreadInv(s', tid);
  }

  lemma {:induction false} ELoadIdxQuiet(s: Sys, tid: nat)
    requires Quick(s, tid) && s.threads[tid].pc.ELoadIdx?
    ensures QuietGoal(s, DepositStep(s, tid), tid)
  {
    var s' := DepositStep(s, tid);
    assert ThreadInv(s', tid);
  }

  lemma {:induction false} ELoadValQuiet(s: Sys, tid: nat)
    requires Quick(s, tid) && s.threads[tid].pc.ELoadVal?
    ensures QuietGoal(s, DepositStep(s, tid), tid)
  {
    var s' := DepositStep(s, tid);
    assert ThreadInv(s', tid);
  }

  // No dequeuer has reached ticket t yet, so none has given it up.
  lemma {:induction false} ELoadHeadGuardQuiet(s: Sys, tid: nat)
    requires Local(s, tid) && s.threads[tid].pc.ELoadHeadGuard?
    ensures QuietGoal(s, DepositStep(s, tid), tid)
  {
    var pc := s.threads[tid].pc;
    var g := s.rings[pc.rq];
    if g.head < pc.t {
      assert forall k :: k in g.log.gaveUp ==> k < g.head;
      assert Overtaken(s.R, g, pc.t, pc.idx);
    }
    assert ThreadInv(DepositStep(s, tid), tid);
  }

  lemma {:induction false} ELoadHeadQuiet(s: Sys, tid: nat)
    requires Quick(s, tid) && s.threads[tid].pc.ELoadHead?
    ensures QuietGoal(s, DepositStep(s, tid), tid)
  {
    var s', pc := DepositStep(s, tid), s.threads[tid].pc;
    assert s'.threads[tid].pc == if LooksFull(s.R, pc.t, s.rings[pc.rq].head) then EClose(pc.rq, pc.t) else ELoadTail;
    assert ThreadInv(s', tid);
  }

  lemma {:induction false} EInitRingQuiet(s: Sys, tid: nat)
    requires Quick(s, tid) && s.threads[tid].pc.EInitRing?
    ensures QuietGoal(s, AppendStep(s, tid), tid)
  {
    var s' := AppendStep(s, tid);
    assert ThreadInv(s', tid);
  }

  lemma {:induction false} ESoloQuiet(s: Sys, tid: nat)
    requires Quick(s, tid) && s.threads[tid].pc.ESolo?
    ensures QuietGoal(s, AppendStep(s, tid), tid)
  {
    var s' := AppendStep(s, tid);
    assert ThreadInv(s', tid);
  }

  lemma {:induction false} ESwingTailQuiet(s: Sys, tid: nat)
    requires Quick(s, tid) && s.threads[tid].pc.ESwingTail?
    ensures QuietGoal(s, AppendStep(s, tid), tid)
  {
    var s' := AppendStep(s, tid);
    assert ThreadInv(s', tid);
  }

  lemma {:induction false} EFaaTailGoal(s: Sys, tid: nat)
    requires Local(s, tid) && s.threads[tid].pc.EFaaTail?
    ensures RingGoal(s, SelectStep(s, tid), tid, s.threads[tid].pc.rq,
                     DrawEnqueue(s.rings[s.threads[tid].pc.rq], Op(tid, s.threads[tid].ops)))
  {
    var th := s.threads[tid];
    var g := s.rings[th.pc.rq];
    DrawEnqueueOk(s.R, g, Op(tid, th.ops));
    assert g.tail !in g.log.enq;
    assert ThreadInv(SelectStep(s, tid), tid);
  }

  lemma {:induction false} ECas2Fails(s: Sys, tid: nat)
    requires Quick(s, tid) && s.threads[tid].pc.ECas2?
    requires var pc := s.threads[tid].pc; CellOf(s, pc.rq, pc.t) != Cell(EMPTY, pc.idx, pc.unsafe)
    ensures QuietGoal(s, DepositStep(s, tid), tid)
  {
    assert ThreadInv(DepositStep(s, tid), tid);
  }

  lemma {:induction false} ECas2Goal(s: Sys, tid: nat)
    requires Local(s, tid) && s.threads[tid].pc.ECas2?
    requires var pc := s.threads[tid].pc; CellOf(s, pc.rq, pc.t) == Cell(EMPTY, pc.idx, pc.unsafe)
    ensures var th := s.threads[tid];
            RingGoal(s, DepositStep(s, tid), tid, th.pc.rq, Deposit(s.R, s.rings[th.pc.rq], th.pc.t, th.arg))
  {
    var th := s.threads[tid];
    var g, t := s.rings[th.pc.rq], th.pc.t;
    assert t in g.log.gaveUp ==> GaveUpInv(s.R, g, t);
    DepositOk(s.R, g, t, th.arg);
    assert ThreadInv(DepositStep(s, tid), tid);
  }

  predicate Closes(s: Sys, tid: nat)
    requires Shape(s) && tid < |s.threads| && s.threads[tid].pc.EClose?
  {
    DepositStep(s, tid).threads[tid].pc.EInitRing?
  }

  lemma {:induction false} ECloseFails(s: Sys, tid: nat)
    requires Quick(s, tid) && s.threads[tid].pc.EClose? && !Closes(s, tid)
    ensures QuietGoal(s, DepositStep(s, tid), tid)
  {
    assert ThreadInv(DepositStep(s, tid), tid);
  }

  lemma {:induction false} ECloseGoal(s: Sys, tid: nat)
    requires Local(s, tid) && s.threads[tid].pc.EClose? && Closes(s, tid)
    ensures var rq := s.threads[tid].pc.rq;
            RingGoal(s, DepositStep(s, tid), tid, rq, s.rings[rq].(closed := true))
  {
    var g := s.rings[s.threads[tid].pc.rq];
    HeaderOk(s.R, g, g.(closed := true), tid);
    assert ThreadInv(DepositStep(s, tid), tid);
  }

  lemma SlotZero(R: nat)
    requires R > 0
    ensures Slot(0, R) == 0
  {
  }

  lemma {:induction false} PublishedRingOk(R: nat, g: Ring, op: Op, arg: int)
    requires PrivateRing(R, g) && g.tail == 1 && g.cells[0].val == arg != EMPTY
    ensures RingInv(R, g.(log := NO_LOG.(enq := map[0 := op], dep := map[0 := arg])))
  {
    var g' := g.(log := NO_LOG.(enq := map[0 := op], dep := map[0 := arg]));
    assert DepositInv(R, g', 0) by { SlotZero(R); }
    forall j: nat | 0 < j < R ensures Slot(g'.cells[j].idx, R) == j { assert g'.cells[j] == Cell(EMPTY, j, false); }
  }

  lemma {:induction false} ELinkFails(s: Sys, tid: nat)
    requires Quick(s, tid) && s.threads[tid].pc.ELink? && s.rings[s.threads[tid].pc.rq].next.Some?
    ensures QuietGoal(s, AppendStep(s, tid), tid)
  {
    assert ThreadInv(AppendStep(s, tid), tid);
  }

  // The CAS on next succeeds: the private ring becomes the last of the chain.
  ghost predicate LinkGoal(s: Sys, s': Sys, tid: nat, g: Ring, g': Ring) {
    && tid < |s.threads|
    && s'.R == s.R && s'.head == s.head && s'.tail == s.tail == |s.rings| - 1
    && s'.rings == s.rings[s.tail := g] + [g']
    && |s'.threads| == |s.threads| && s'.threads == s.threads[tid := s'.threads[tid]]
    && HoldsDequeue(s'.threads[tid].pc) == HoldsDequeue(s.threads[tid].pc)
    && g == s.rings[s.tail].(next := Some(|s.rings|)) && g.closed
    && RingInv(s.R, g) && Evolves(s.rings[s.tail], g, tid)
    && RingInv(s.R, g') && g'.log.deq == map[] && g'.next.None?
    && ThreadInv(s', tid)
  }

  lemma {:induction false} ELinkPublishes(s: Sys, tid: nat)
    requires Local(s, tid) && s.threads[tid].pc.ELink? && s.rings[s.threads[tid].pc.rq].next.None?
    ensures var s' := AppendStep(s, tid);
            |s'.rings| == |s.rings| + 1 && LinkGoal(s, s', tid, s'.rings[s.tail], s'.rings[|s.rings|])
  {
    var th := s.threads[tid];
    var rq := th.pc.rq;
    assert rq == s.tail == |s.rings| - 1;
    var g := s.rings[rq];
    HeaderOk(s.R, g, g.(next := Some(|s.rings|)), tid);
    PublishedRingOk(s.R, th.nrq.value, Op(tid, th.ops), th.arg);
    assert ThreadInv(AppendStep(s, tid), tid);
  }

  lemma {:induction false} LinkToGoal(s: Sys, s': Sys, tid: nat, g: Ring, g': Ring)
    requires Core(s) && LinkGoal(s, s', tid, g, g')
    ensures StepGoal(s, s', tid)
  {
    LinkedChain(s, s', tid, g, g');
    LinkedMoves(s, s', tid, g, g');
    LinkedClaims(s, s', tid, g, g');
  }

  lemma {:induction false} LinkedChain(s: Sys, s': Sys, tid: nat, g: Ring, g': Ring)
    requires Chain(s) && RingInvs(s) && LinkGoal(s, s', tid, g, g')
    ensures Chain(s') && RingInvs(s') && NewRings(s, s')
  {
    forall r: nat | r < |s'.rings| ensures RingInv(s.R, s'.rings[r]) {
      if r < |s.rings| { assert RingInv(s.R, s.rings[r]); }
    }
  }

  lemma {:induction false} LinkedMoves(s: Sys, s': Sys, tid: nat, g: Ring, g': Ring)
    requires Chain(s) && LinkGoal(s, s', tid, g, g')
    ensures Moves(s, s', tid)
  {
    forall r: nat | r < |s.rings| ensures Evolves(s.rings[r], s'.rings[r], tid) {
      assert r != s.tail ==> s'.rings[r] == s.rings[r];
    }
  }

  lemma {:induction false} LinkedClaims(s: Sys, s': Sys, tid: nat, g: Ring, g': Ring)
    requires Chain(s) && Claims(s) && LinkGoal(s, s', tid, g, g')
    ensures OwnClaims(s', tid)
  {
    forall r: nat, k: nat | r < |s'.rings| && Pending(s'.rings[r], k) && s'.rings[r].log.deq[k] == tid
      ensures HoldsDequeue(s'.threads[tid].pc) == Some((r, k))
    {
      assert Pending(s.rings[r], k);
      assert Claimed(s, r, k);
    }
  }

  // ---------------------------------------------------------------- dequeue

  lemma {:induction false} DLoadHeadQuiet(s: Sys, tid: nat)
    requires Quick(s, tid) && s.threads[tid].pc.DLoadHead?
    ensures QuietGoal(s, TicketStep(s, tid), tid)
  {
    var s' := TicketStep(s, tid);
    assert ThreadInv(s', tid);
  }

  lemma {:induction false} DLoadIdxQuiet(s: Sys, tid: nat)
    requires Quick(s, tid) && s.threads[tid].pc.DLoadIdx?
    ensures QuietGoal(s, InnerStep(s, tid), tid)
  {
    var s' := InnerStep(s, tid);
    assert ThreadInv(s', tid);
  }

  lemma {:induction false} DLoadTailQuiet(s: Sys, tid: nat)
    requires Quick(s, tid) && s.threads[tid].pc.DLoadTail?
    ensures QuietGoal(s, InnerStep(s, tid), tid)
  {
    var s' := InnerStep(s, tid);
    assert ThreadInv(s', tid);
  }

  lemma {:induction false} DLoadNextQuiet(s: Sys, tid: nat)
    requires Quick(s, tid) && s.threads[tid].pc.DLoadNext?
    ensures QuietGoal(s, TicketStep(s, tid), tid)
  {
    var s' := TicketStep(s, tid);
    var pc := s.threads[tid].pc;
    if s.rings[pc.rq].next.None? {
      assert s'.threads[tid] == s.threads[tid].(pc := Idle);
    } else {
      assert s' == Go(s, tid, DSwingHead(pc.rq, pc.h, s.rings[pc.rq].next.value));
      assert PcInv(s', tid, s'.threads[tid]);
    }
    assert ThreadInv(s', tid);
  }

  lemma {:induction false} DSwingHeadQuiet(s: Sys, tid: nat)
    requires Quick(s, tid) && s.threads[tid].pc.DSwingHead?
    ensures QuietGoal(s, TicketStep(s, tid), tid)
  {
    var s' := TicketStep(s, tid);
    assert ThreadInv(s', tid);
  }

  // A closed tail at or below the ticket: every enqueue ticket has been matched.
  lemma {:induction false} DrainedAtCheck(R: nat, g: Ring, h: nat)
    requires RingInv(R, g) && h in g.log.gaveUp
    requires NearEmpty(g.tail, h) && g.closed
    ensures Drained(g)
  {
    assert h < g.head;
  }

  lemma {:induction false} DCheckTailQuiet(s: Sys, tid: nat)
    requires Local(s, tid) && s.threads[tid].pc.DCheckTail?
    ensures QuietGoal(s, TicketStep(s, tid), tid)
  {
    var pc := s.threads[tid].pc;
    var g := s.rings[pc.rq];
    if NearEmpty(g.tail, pc.h) && g.closed {
      DrainedAtCheck(s.R, g, pc.h);
    }
    assert ThreadInv(TicketStep(s, tid), tid);
  }

  lemma {:induction false} DFaaHeadGoal(s: Sys, tid: nat)
    requires Local(s, tid) && s.threads[tid].pc.DFaaHead?
    ensures var rq := s.threads[tid].pc.rq;
            RingGoal(s, TicketStep(s, tid), tid, rq, DrawDequeue(s.rings[rq], tid))
  {
    var g := s.rings[s.threads[tid].pc.rq];
    DrawDequeueOk(s.R, g, tid);
    assert g.head !in g.log.deq;
    assert ThreadInv(TicketStep(s, tid), tid);
  }

  lemma {:induction false} DecideOk(s: Sys, tid: nat, th: Thread, rq: nat, h: nat, idx: nat, unsafe: bool)
    requires s.R > 0 && OwnsDequeue(s, tid, rq, h) && idx <= h
    ensures PcInv(s, tid, Decide(th, rq, h, idx, unsafe))
  {
  }

  lemma {:induction false} DLoadValReads(s: Sys, tid: nat)
    requires Quick(s, tid) && s.threads[tid].pc.DLoadVal? && s.threads[tid].pc.idx <= s.threads[tid].pc.h
    requires var th := s.threads[tid]; CellOf(s, th.pc.rq, th.pc.h).val != EMPTY || th.r % TAIL_PERIOD == 0
    ensures QuietGoal(s, InnerStep(s, tid), tid)
  {
    var s' := InnerStep(s, tid);
    assert s' == Go(s, tid, s'.threads[tid].pc);
    assert PcInv(s', tid, s'.threads[tid]);
  }

  lemma {:induction false} DLoadValQuiet(s: Sys, tid: nat)
    requires Quick(s, tid) && s.threads[tid].pc.DLoadVal? && s.threads[tid].pc.idx <= s.threads[tid].pc.h
    ensures QuietGoal(s, InnerStep(s, tid), tid)
  {
    var th := s.threads[tid];
    var pc := th.pc;
    var s' := InnerStep(s, tid);
    if CellOf(s, pc.rq, pc.h).val == EMPTY && th.r % TAIL_PERIOD != 0 {
      var th' := Decide(th, pc.rq, pc.h, pc.idx, pc.unsafe);
      assert s' == s.(threads := s.threads[tid := th']);
      DecideOk(s', tid, th, pc.rq, pc.h, pc.idx, pc.unsafe);
    } else {
      DLoadValReads(s, tid);
    }
  }

  lemma {:induction false} DLoadValGoal(s: Sys, tid: nat)
    requires Local(s, tid) && s.threads[tid].pc.DLoadVal? && s.threads[tid].pc.idx > s.threads[tid].pc.h
    ensures var pc := s.threads[tid].pc;
            RingGoal(s, InnerStep(s, tid), tid, pc.rq, Leave(s.rings[pc.rq], pc.h))
  {
    var pc := s.threads[tid].pc;
    LeaveOk(s.R, s.rings[pc.rq], pc.h);
    assert ThreadInv(InnerStep(s, tid), tid);
  }

  predicate Cas2Pc(pc: Pc) { pc.DTake? || pc.DMark? || pc.DSkip? }

  // The cell content a dequeuer's CAS2 expects.
  function Expected(pc: Pc): Cell
    requires Cas2Pc(pc)
  {
    match pc
    case DTake(_, h, unsafe, val) => Cell(val, h, unsafe)
    case DMark(_, _, idx, unsafe, val) => Cell(val, idx, unsafe)
    case DSkip(_, _, idx, unsafe) => Cell(EMPTY, idx, unsafe)
  }

  lemma {:induction false} DCas2Fails(s: Sys, tid: nat)
    requires Quick(s, tid) && Cas2Pc(s.threads[tid].pc)
    requires var pc := s.threads[tid].pc; CellOf(s, pc.rq, pc.h) != Expected(pc)
    ensures QuietGoal(s, InnerStep(s, tid), tid)
  {
    assert ThreadInv(InnerStep(s, tid), tid);
  }

  lemma {:induction false} DTakeGoal(s: Sys, tid: nat)
    requires Local(s, tid) && s.threads[tid].pc.DTake?
    requires var pc := s.threads[tid].pc; CellOf(s, pc.rq, pc.h) == Expected(pc)
    ensures var pc := s.threads[tid].pc;
            RingGoal(s, InnerStep(s, tid), tid, pc.rq, Take(s.R, s.rings[pc.rq], pc.h))
  {
    var pc := s.threads[tid].pc;
    TakeOk(s.R, s.rings[pc.rq], pc.h);
    assert ThreadInv(InnerStep(s, tid), tid);
  }

  lemma {:induction false} DMarkGoal(s: Sys, tid: nat)
    requires Local(s, tid) && s.threads[tid].pc.DMark?
    requires var pc := s.threads[tid].pc; CellOf(s, pc.rq, pc.h) == Expected(pc)
    ensures var pc := s.threads[tid].pc;
            RingGoal(s, InnerStep(s, tid), tid, pc.rq, MarkUnsafe(s.R, s.rings[pc.rq], pc.h))
  {
    var pc := s.threads[tid].pc;
    MarkUnsafeOk(s.R, s.rings[pc.rq], pc.h);
    assert ThreadInv(InnerStep(s, tid), tid);
  }

  lemma {:induction false} DSkipGoal(s: Sys, tid: nat)
    requires Local(s, tid) && s.threads[tid].pc.DSkip?
    requires var pc := s.threads[tid].pc; CellOf(s, pc.rq, pc.h) == Expected(pc)
    ensures var pc := s.threads[tid].pc;
            RingGoal(s, InnerStep(s, tid), tid, pc.rq, Advance(s.R, s.rings[pc.rq], pc.h))
  {
    var pc := s.threads[tid].pc;
    AdvanceOk(s.R, s.rings[pc.rq], pc.h);
    assert ThreadInv(InnerStep(s, tid), tid);
  }

  lemma {:induction false} FReloadQuiet(s: Sys, tid: nat)
    requires Quick(s, tid) && s.threads[tid].pc.FReload?
    ensures QuietGoal(s, FixStep(s, tid), tid)
  {
    assert ThreadInv(FixStep(s, tid), tid);
  }

  lemma {:induction false} FixReadQuiet(s: Sys, tid: nat)
    requires Quick(s, tid) && (s.threads[tid].pc.FLoadTail? || s.threads[tid].pc.FLoadHead?)
    ensures QuietGoal(s, FixStep(s, tid), tid)
  {
    assert ThreadInv(FixStep(s, tid), tid);
  }

  predicate Repairs(s: Sys, tid: nat)
    requires Shape(s) && tid < |s.threads| && s.threads[tid].pc.FCas?
  {
    FixStep(s, tid).threads[tid].pc.DLoadNext?
  }

  lemma {:induction false} FCasFails(s: Sys, tid: nat)
    requires Quick(s, tid) && s.threads[tid].pc.FCas? && !Repairs(s, tid)
    ensures QuietGoal(s, FixStep(s, tid), tid)
  {
    assert ThreadInv(FixStep(s, tid), tid);
  }

  lemma {:induction false} FCasGoal(s: Sys, tid: nat)
    requires Local(s, tid) && s.threads[tid].pc.FCas? && Repairs(s, tid)
    ensures var pc := s.threads[tid].pc;
            RingGoal(s, FixStep(s, tid), tid, pc.rq, s.rings[pc.rq].(tail := pc.fh))
  {
    var pc := s.threads[tid].pc;
    var g := s.rings[pc.rq];
    HeaderOk(s.R, g, g.(tail := pc.fh), tid);
    assert ThreadInv(FixStep(s, tid), tid);
  }

  // ------------------------------------------------------------- every step

  lemma {:induction false} SelectStepGoal(s: Sys, tid: nat)
    requires Core(s) && Local(s, tid) && SelectPc(s.threads[tid].pc)
    ensures StepGoal(s, SelectStep(s, tid), tid)
  {
    var s' := SelectStep(s, tid);
    match s.threads[tid].pc
    case ELoadTail => ELoadTailQuiet(s, tid); QuietToGoal(s, s', tid);
    case ELoadNext(_) => ELoadNextQuiet(s, tid); QuietToGoal(s, s', tid);
    case EHelpTail(_, _) => EHelpTailQuiet(s, tid); QuietToGoal(s, s', tid);
    case EFaaTail(rq) =>
      EFaaTailGoal(s, tid); RingToGoal(s, s', tid, rq, DrawEnqueue(s.rings[rq], Op(tid, s.threads[tid].ops)));
  }

  lemma {:induction false} DepositStepGoal(s: Sys, tid: nat)
    requires Core(s) && Local(s, tid) && DepositPc(s.threads[tid].pc)
    ensures StepGoal(s, DepositStep(s, tid), tid)
  {
    var s' := DepositStep(s, tid);
    match s.threads[tid].pc
    case ELoadIdx(_, _) => ELoadIdxQuiet(s, tid); QuietToGoal(s, s', tid);
    case ELoadVal(_, _, _, _) => ELoadValQuiet(s, tid); QuietToGoal(s, s', tid);
    case ELoadHeadGuard(_, _, _) => ELoadHeadGuardQuiet(s, tid); QuietToGoal(s, s', tid);
    case ECas2(rq, t, idx, unsafe) =>
      if CellOf(s, rq, t) == Cell(EMPTY, idx, unsafe) {
        ECas2Goal(s, tid); RingToGoal(s, s', tid, rq, Deposit(s.R, s.rings[rq], t, s.threads[tid].arg));
      } else {
        ECas2Fails(s, tid); QuietToGoal(s, s', tid);
      }
    case ELoadHead(_, _) => ELoadHeadQuiet(s, tid); QuietToGoal(s, s', tid);
    case EClose(rq, _) =>
      if Closes(s, tid) {
        ECloseGoal(s, tid); RingToGoal(s, s', tid, rq, s.rings[rq].(closed := true));
      } else {
        ECloseFails(s, tid); QuietToGoal(s, s', tid);
      }
  }

  lemma {:induction false} AppendStepGoal(s: Sys, tid: nat)
    requires Core(s) && Local(s, tid) && AppendPc(s.threads[tid].pc)
    ensures StepGoal(s, AppendStep(s, tid), tid)
  {
    var s' := AppendStep(s, tid);
    match s.threads[tid].pc
    case EInitRing(_) => EInitRingQuiet(s, tid); QuietToGoal(s, s', tid);
    case ESolo(_) => ESoloQuiet(s, tid); QuietToGoal(s, s', tid);
    case ELink(rq) =>
      if s.rings[rq].next.Some? {
        ELinkFails(s, tid); QuietToGoal(s, s', tid);
      } else {
        ELinkPublishes(s, tid); LinkToGoal(s, s', tid, s'.rings[s.tail], s'.rings[|s.rings|]);
      }
    case ESwingTail(_, _) => ESwingTailQuiet(s, tid); QuietToGoal(s, s', tid);
  }

  lemma {:induction false} TicketStepGoal(s: Sys, tid: nat)
    requires Core(s) && Local(s, tid) && TicketPc(s.threads[tid].pc)
    ensures StepGoal(s, TicketStep(s, tid), tid)
  {
    var s' := TicketStep(s, tid);
    match s.threads[tid].pc
    case DLoadHead => DLoadHeadQuiet(s, tid); QuietToGoal(s, s', tid);
    case DFaaHead(rq) => DFaaHeadGoal(s, tid); RingToGoal(s, s', tid, rq, DrawDequeue(s.rings[rq], tid));
    case DCheckTail(_, _) => DCheckTailQuiet(s, tid); QuietToGoal(s, s', tid);
    case DLoadNext(_, _) => DLoadNextQuiet(s, tid); QuietToGoal(s, s', tid);
    case DSwingHead(_, _, _) => DSwingHeadQuiet(s, tid); QuietToGoal(s, s', tid);
  }

  lemma {:induction false} Cas2Goal(s: Sys, tid: nat)
    requires Core(s) && Local(s, tid) && Cas2Pc(s.threads[tid].pc)
    ensures StepGoal(s, InnerStep(s, tid), tid)
  {
    var s', pc := InnerStep(s, tid), s.threads[tid].pc;
    var rq, h := pc.rq, pc.h;
    if CellOf(s, rq, h) != Expected(pc) {
      DCas2Fails(s, tid); QuietToGoal(s, s', tid);
    } else if pc.DTake? {
      DTakeGoal(s, tid); RingToGoal(s, s', tid, rq, Take(s.R, s.rings[rq], h));
    } else if pc.DMark? {
      DMarkGoal(s, tid); RingToGoal(s, s', tid, rq, MarkUnsafe(s.R, s.rings[rq], h));
    } else {
      DSkipGoal(s, tid); RingToGoal(s, s', tid, rq, Advance(s.R, s.rings[rq], h));
    }
  }

  lemma {:induction false} InnerStepGoal(s: Sys, tid: nat)
    requires Core(s) && Local(s, tid) && InnerPc(s.threads[tid].pc)
    ensures StepGoal(s, InnerStep(s, tid), tid)
  {
    var s', pc := InnerStep(s, tid), s.threads[tid].pc;
    if pc.DLoadIdx? {
      DLoadIdxQuiet(s, tid); QuietToGoal(s, s', tid);
    } else if pc.DLoadVal? && pc.idx > pc.h {
      DLoadValGoal(s, tid); RingToGoal(s, s', tid, pc.rq, Leave(s.rings[pc.rq], pc.h));
    } else if pc.DLoadVal? {
      DLoadValQuiet(s, tid); QuietToGoal(s, s', tid);
    } else if pc.DLoadTail? {
      DLoadTailQuiet(s, tid); QuietToGoal(s, s', tid);
    } else {
      Cas2Goal(s, tid);
    }
  }

  lemma {:induction false} FixStepGoal(s: Sys, tid: nat)
    requires Core(s) && Local(s, tid) && FixPc(s.threads[tid].pc)
    ensures StepGoal(s, FixStep(s, tid), tid)
  {
    var pc := s.threads[tid].pc;
    var s' := FixStep(s, tid);
    if pc.FLoadTail? || pc.FLoadHead? {
      FixReadQuiet(s, tid); QuietToGoal(s, s', tid);
    } else if pc.FReload? {
      FReloadQuiet(s, tid); QuietToGoal(s, s', tid);
    } else if Repairs(s, tid) {
      FCasGoal(s, tid); RingToGoal(s, s', tid, pc.rq, s.rings[pc.rq].(tail := pc.fh));
    } else {
      FCasFails(s, tid); QuietToGoal(s, s', tid);
    }
  }

  lemma {:induction false} StepOk(s: Sys, tid: nat, cmd: Cmd)
    requires Core(s) && tid < |s.threads|
    ensures Shape(s)
    ensures Moves(s, Step(s, tid, cmd), tid)
    ensures Core(Step(s, tid, cmd))
  {
    CoreToLocal(s, tid);
    var s' := Step(s, tid, cmd);
    var pc := s.threads[tid].pc;
    if SelectPc(pc) {
      SelectStepGoal(s, tid);
    } else if DepositPc(pc) {
      DepositStepGoal(s, tid);
    } else if AppendPc(pc) {
      AppendStepGoal(s, tid);
    } else if TicketPc(pc) {
      TicketStepGoal(s, tid);
    } else if InnerPc(pc) {
      InnerStepGoal(s, tid);
    } else if FixPc(pc) {
      FixStepGoal(s, tid);
    } else {
      BeginQuiet(s, tid, cmd); QuietToGoal(s, s', tid);
    }
    Finish(s, s', tid);
  }
}
