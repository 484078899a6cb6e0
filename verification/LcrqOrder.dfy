// Order in real time: an enqueue that begins after another has finished gets a
// later place in the chain of rings.

module LcrqOrder {
  import opened Options
  import opened LcrqRing
  import opened LcrqSystem
  import opened LcrqInvariant
  import opened LcrqPreserve
  import opened LcrqFlow
  import opened LcrqHistory

  // ----------------------------------------------- where deposits are placed

  // A ring past tail is the one whose publisher is about to swing tail to it.
  ghost predicate PlacedInv(s: Sys) {
    forall r: nat, k: nat :: Deposited(s, r, k) ==> PlacedByTail(s, r, OpOf(s, r, k))
  }

  ghost predicate PlacedByTail(s: Sys, r: nat, op: Op) {
    r <= s.tail || (op.tid < |s.threads| && s.threads[op.tid].ops == op.n &&
                    s.threads[op.tid].pc.ESwingTail? && s.threads[op.tid].pc.next == r)
  }

  ghost predicate Finished(s: Sys, op: Op) {
    && op.tid < |s.threads|
    && (s.threads[op.tid].ops > op.n || (s.threads[op.tid].ops == op.n && s.threads[op.tid].pc.Idle?))
  }

  ghost predicate NotBegun(s: Sys, op: Op) {
    op.tid < |s.threads| && s.threads[op.tid].ops < op.n
  }

  // Only a thread at ESwingTail forgets the ring it published, and then tail is there.
  lemma {:induction false} StepSwings(s: Sys, tid: nat, cmd: Cmd)
    requires Local(s, tid) && s.threads[tid].pc.ESwingTail?
    ensures Step(s, tid, cmd).tail >= s.threads[tid].pc.next
  {
  }

  lemma {:induction false} StepDepositPlace(s: Sys, tid: nat, cmd: Cmd)
    requires Local(s, tid) && Deposits(s, tid).Some?
    ensures PlacedByTail(Step(s, tid, cmd), Deposits(s, tid).value.0, Op(tid, s.threads[tid].ops))
  {
    var pc := s.threads[tid].pc;
    if pc.ELink? {
      assert Step(s, tid, cmd) == AppendStep(s, tid);
    } else {
      assert Step(s, tid, cmd) == DepositStep(s, tid);
    }
  }

  lemma {:induction false} PlacedKept(s: Sys, tid: nat, cmd: Cmd)
    requires Core(s) && tid < |s.threads| && PlacedInv(s)
    ensures Shape(s)
    ensures PlacedInv(Step(s, tid, cmd))
  {
    CoreToLocal(s, tid);
    StepOk(s, tid, cmd);
    StepBooks(s, tid, cmd);
    var s' := Step(s, tid, cmd);
    if s.threads[tid].pc.ESwingTail? { StepSwings(s, tid, cmd); }
    if Deposits(s, tid).Some? { StepDepositPlace(s, tid, cmd); }
    forall r: nat, k: nat | Deposited(s', r, k) ensures PlacedByTail(s', r, OpOf(s', r, k)) {
      assert BooksOfRing(s, s', tid, r);
      if Deposits(s, tid) != Some((r, k)) {
        assert RingInv(s.R, s.rings[r]);
        assert Deposited(s, r, k) && OpOf(s, r, k) == OpOf(s', r, k);
        assert PlacedByTail(s, r, OpOf(s, r, k));
      }
    }
  }

  // ------------------------------------------------ operations begun after s1

  // A place that an operation begun after s1 can be given.
  predicate LatePlace(s1: Sys, r: nat, k: nat) {
    r >= s1.tail && (r < |s1.rings| ==> k >= s1.rings[r].tail)
  }

  ghost predicate LateThread(s1: Sys, pc: Pc) {
    && (EnqueuePc(pc) && RingOf(pc).Some? ==> pc.rq >= s1.tail)
    && (HoldsEnqueue(pc).Some? ==> LatePlace(s1, HoldsEnqueue(pc).value.0, HoldsEnqueue(pc).value.1))
  }

  ghost predicate Since(s1: Sys, s: Sys) {
    && |s.threads| == |s1.threads|
    && (forall i: nat :: i < |s.threads| ==>
          s1.threads[i].ops <= s.threads[i].ops
          && (s1.threads[i].ops < s.threads[i].ops ==> LateThread(s1, s.threads[i].pc)))
    && (forall r: nat, k: nat :: Deposited(s, r, k) && NotBegun(s1, OpOf(s, r, k)) ==> LatePlace(s1, r, k))
  }

  lemma {:induction false} LateSelect(s1: Sys, s: Sys, tid: nat)
    requires Local(s, tid) && SelectPc(s.threads[tid].pc) && Grew(s1, s) && LateThread(s1, s.threads[tid].pc)
    ensures LateThread(s1, SelectStep(s, tid).threads[tid].pc)
  {
    var pc := s.threads[tid].pc;
    if pc.EFaaTail? && pc.rq < |s1.rings| {
      assert Grows(s1.rings[pc.rq], s.rings[pc.rq]);
    }
  }

  lemma {:induction false} LateDeposit(s1: Sys, s: Sys, tid: nat)
    requires Local(s, tid) && DepositPc(s.threads[tid].pc) && LateThread(s1, s.threads[tid].pc)
    ensures LateThread(s1, DepositStep(s, tid).threads[tid].pc)
  {
  }

  lemma {:induction false} LateAppend(s1: Sys, s: Sys, tid: nat)
    requires Local(s, tid) && AppendPc(s.threads[tid].pc) && LateThread(s1, s.threads[tid].pc)
    ensures LateThread(s1, AppendStep(s, tid).threads[tid].pc)
  {
  }

  lemma {:induction false} LateTicket(s1: Sys, s: Sys, tid: nat)
    requires Quick(s, tid) && TicketPc(s.threads[tid].pc)
    ensures LateThread(s1, TicketStep(s, tid).threads[tid].pc)
  {
  }

  lemma {:induction false} LateInner(s1: Sys, s: Sys, tid: nat, pc': Pc)
    requires Quick(s, tid) && InnerPc(s.threads[tid].pc) && pc' == InnerStep(s, tid).threads[tid].pc
    ensures LateThread(s1, pc')
  {
    InnerFlows(s, tid);
    FlowsLate(s1, s.threads[tid].pc, pc');
  }

  lemma {:induction false} FlowsLate(s1: Sys, pc: Pc, pc': Pc)
    requires Follows(pc, pc') && InnerPc(pc)
    ensures LateThread(s1, pc')
  {
  }

  lemma {:induction false} LateFix(s1: Sys, s: Sys, tid: nat)
    requires Quick(s, tid) && FixPc(s.threads[tid].pc)
    ensures LateThread(s1, FixStep(s, tid).threads[tid].pc)
  {
  }

  lemma {:induction false} LateStep(s1: Sys, s: Sys, tid: nat, cmd: Cmd)
    requires Local(s, tid) && Grew(s1, s)
    requires s.threads[tid].pc.Idle? || LateThread(s1, s.threads[tid].pc)
    ensures LateThread(s1, Step(s, tid, cmd).threads[tid].pc)
  {
    var pc := s.threads[tid].pc;
    if SelectPc(pc) {
      LateSelect(s1, s, tid);
    } else if DepositPc(pc) {
      LateDeposit(s1, s, tid);
    } else if AppendPc(pc) {
      LateAppend(s1, s, tid);
    } else if TicketPc(pc) {
      LateTicket(s1, s, tid);
    } else if InnerPc(pc) {
      LateInner(s1, s, tid, InnerStep(s, tid).threads[tid].pc);
    } else if FixPc(pc) {
      LateFix(s1, s, tid);
    }
  }

  lemma {:induction false} EnqueueOps(s: Sys, tid: nat, cmd: Cmd)
    requires Quick(s, tid) && EnqueuePc(s.threads[tid].pc)
    ensures Step(s, tid, cmd).threads[tid].ops == s.threads[tid].ops
  {
    var pc := s.threads[tid].pc;
    if SelectPc(pc) {
      assert SelectStep(s, tid).threads[tid].ops == s.threads[tid].ops;
    } else if DepositPc(pc) {
      assert DepositStep(s, tid).threads[tid].ops == s.threads[tid].ops;
    } else {
      assert AppendStep(s, tid).threads[tid].ops == s.threads[tid].ops;
    }
  }

  lemma {:induction false} TicketOps(s: Sys, tid: nat)
    requires Quick(s, tid) && TicketPc(s.threads[tid].pc)
    ensures TicketStep(s, tid).threads[tid].ops == s.threads[tid].ops
  {
  }

  lemma {:induction false} FixOps(s: Sys, tid: nat)
    requires Quick(s, tid) && FixPc(s.threads[tid].pc)
    ensures FixStep(s, tid).threads[tid].ops == s.threads[tid].ops
  {
  }

  // Ops change only when an operation begins.
  lemma {:induction false} StepOps(s: Sys, tid: nat, cmd: Cmd)
    requires Quick(s, tid) && !s.threads[tid].pc.Idle?
    ensures Step(s, tid, cmd).threads[tid].ops == s.threads[tid].ops
  {
    var pc := s.threads[tid].pc;
    if EnqueuePc(pc) {
      EnqueueOps(s, tid, cmd);
    } else if TicketPc(pc) {
      TicketOps(s, tid);
    } else if InnerPc(pc) {
      InnerKeepsOps(s, tid);
    } else {
      FixOps(s, tid);
    }
  }

  lemma {:induction false} LateDepositPlace(s1: Sys, s: Sys, tid: nat)
    requires Local(s, tid) && Grew(s1, s) && LateThread(s1, s.threads[tid].pc) && Deposits(s, tid).Some?
    requires s1.tail < |s1.rings|
    ensures LatePlace(s1, Deposits(s, tid).value.0, Deposits(s, tid).value.1)
  {
  }

  lemma {:induction false} SinceKept(s1: Sys, s: Sys, tid: nat, cmd: Cmd)
    requires Core(s) && tid < |s.threads| && Grew(s1, s) && Since(s1, s) && s1.tail < |s1.rings|
    ensures Shape(s)
    ensures Since(s1, Step(s, tid, cmd))
  {
    CoreToLocal(s, tid);
    StepOk(s, tid, cmd);
    StepBooks(s, tid, cmd);
    var s' := Step(s, tid, cmd);
    var late := s1.threads[tid].ops < s.threads[tid].ops;
    if s.threads[tid].pc.Idle? || late { LateStep(s1, s, tid, cmd); }
    if !s.threads[tid].pc.Idle? { StepOps(s, tid, cmd); }
    if Deposits(s, tid).Some? && late { LateDepositPlace(s1, s, tid); }
    forall r: nat, k: nat | Deposited(s', r, k) && NotBegun(s1, OpOf(s', r, k)) ensures LatePlace(s1, r, k) {
      assert BooksOfRing(s, s', tid, r);
      if Deposits(s, tid) != Some((r, k)) {
        assert RingInv(s.R, s.rings[r]);
        assert Deposited(s, r, k) && OpOf(s, r, k) == OpOf(s', r, k);
      }
    }
  }

  // ---------------------------------------------------- rings left behind

  // Every ring head has passed was swung off early or is drained; rings ahead of
  // head have served no dequeuer.
  ghost predicate Swings(s: Sys) {
    && (forall r: nat :: r < s.head && r < |s.rings| ==> r in s.early || Drained(s.rings[r]))
    && (forall r: nat :: s.head < r < |s.rings| ==> s.rings[r].head == 0)
  }

  ghost predicate HeadBooks(s: Sys, s': Sys, tid: nat)
    requires tid < |s.threads|
  {
    var pc := s.threads[tid].pc;
    && (if pc.DSwingHead? && s.head == pc.rq
        then s'.head == pc.next && s'.early == if s.threads[tid].sawClosed then s.early else s.early + {pc.rq}
        else s'.head == s.head && s'.early == s.early)
    && (forall r: nat :: r < |s'.rings| ==>
          s'.rings[r].head == if r >= |s.rings| then 0
                              else if pc == DFaaHead(r) then s.rings[r].head + 1
                              else s.rings[r].head)
  }

  lemma {:induction false} SelectHead(s: Sys, tid: nat)
    requires Local(s, tid) && SelectPc(s.threads[tid].pc)
    ensures HeadBooks(s, SelectStep(s, tid), tid)
  {
  }

  lemma {:induction false} DepositHead(s: Sys, tid: nat)
    requires Local(s, tid) && DepositPc(s.threads[tid].pc)
    ensures HeadBooks(s, DepositStep(s, tid), tid)
  {
  }

  lemma {:induction false} AppendHead(s: Sys, tid: nat)
    requires Local(s, tid) && AppendPc(s.threads[tid].pc)
    ensures HeadBooks(s, AppendStep(s, tid), tid)
  {
  }

  lemma {:induction false} TicketHead(s: Sys, tid: nat)
    requires Local(s, tid) && TicketPc(s.threads[tid].pc)
    ensures HeadBooks(s, TicketStep(s, tid), tid)
  {
  }

  lemma {:induction false} InnerHead(s: Sys, tid: nat)
    requires Local(s, tid) && InnerPc(s.threads[tid].pc)
    ensures HeadBooks(s, InnerStep(s, tid), tid)
  {
  }

  lemma {:induction false} FixHead(s: Sys, tid: nat)
    requires Local(s, tid) && FixPc(s.threads[tid].pc)
    ensures HeadBooks(s, FixStep(s, tid), tid)
  {
  }

  lemma {:induction false} StepHead(s: Sys, tid: nat, cmd: Cmd)
    requires Local(s, tid)
    ensures HeadBooks(s, Step(s, tid, cmd), tid)
  {
    var pc := s.threads[tid].pc;
    if SelectPc(pc) {
      SelectHead(s, tid);
    } else if DepositPc(pc) {
      DepositHead(s, tid);
    } else if AppendPc(pc) {
      AppendHead(s, tid);
    } else if TicketPc(pc) {
      TicketHead(s, tid);
    } else if InnerPc(pc) {
      InnerHead(s, tid);
    } else if FixPc(pc) {
      FixHead(s, tid);
    }
  }

  lemma {:induction false} DrainedGrows(g: Ring, g': Ring)
    requires Drained(g) && Grows(g, g')
    ensures Drained(g')
  {
  }

  lemma {:induction false} SwingsKept(s: Sys, tid: nat, cmd: Cmd)
    requires Core(s) && tid < |s.threads| && Swings(s)
    ensures Shape(s)
    ensures Swings(Step(s, tid, cmd))
  {
    CoreToLocal(s, tid);
    StepOk(s, tid, cmd);
    StepHead(s, tid, cmd);
    SwingsOn(s, tid);
    SwingsFollow(s, Step(s, tid, cmd), tid);
  }

  // What the invariant says of a thread about to draw a dequeue ticket, or to swing head.
  ghost predicate SwingsWell(s: Sys, th: Thread) {
    && (th.pc.DFaaHead? ==> th.pc.rq <= s.head)
    && (th.pc.DSwingHead? ==>
          && th.pc.rq < |s.rings| && th.pc.next == th.pc.rq + 1
          && (th.sawClosed ==> Drained(s.rings[th.pc.rq])))
  }

  lemma {:induction false} SwingsOn(s: Sys, tid: nat)
    requires tid < |s.threads| && ThreadInv(s, tid)
    ensures SwingsWell(s, s.threads[tid])
  {
  }

  lemma {:induction false} SwingsFollow(s: Sys, s': Sys, tid: nat)
    requires tid < |s.threads| && Swings(s) && HeadBooks(s, s', tid) && SwingsWell(s, s.threads[tid])
    requires s.head < |s.rings| <= |s'.rings|
    requires forall r: nat :: r < |s.rings| ==> Grows(s.rings[r], s'.rings[r])
    ensures Swings(s')
  {
    forall r: nat | r < s'.head && r < |s'.rings| ensures r in s'.early || Drained(s'.rings[r]) {
      if Drained(s.rings[r]) { DrainedGrows(s.rings[r], s'.rings[r]); }
    }
  }
}
