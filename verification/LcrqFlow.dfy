// The order of the program: where the next step of a thread can lead.

module LcrqFlow {
  import opened Options
  import opened LcrqRing
  import opened LcrqSystem
  import opened LcrqInvariant
  import opened LcrqPreserve

  // Where the step of a thread at pc can lead.
  predicate Follows(pc: Pc, pc': Pc) {
    match pc
    case Idle => pc'.ELoadTail? || pc'.DLoadHead?
    case ELoadTail => pc'.ELoadNext?
    case ELoadNext(rq) => (pc'.EHelpTail? || pc'.EFaaTail?) && pc'.rq == rq
    case EHelpTail(_, _) => pc'.ELoadTail?
    case EFaaTail(rq) => (pc'.ELoadIdx? || pc'.EInitRing?) && pc'.rq == rq
    case ELoadIdx(rq, t) => pc'.ELoadVal? && pc'.rq == rq && pc'.t == t
    case ELoadVal(rq, t, idx, unsafe) =>
      pc' == ELoadHeadGuard(rq, t, idx) || pc' == ECas2(rq, t, idx, unsafe) || pc' == ELoadHead(rq, t)
    case ELoadHeadGuard(rq, t, idx) => pc' == ECas2(rq, t, idx, true) || pc' == ELoadHead(rq, t)
    case ECas2(rq, t, _, _) => pc'.Idle? || pc' == ELoadHead(rq, t)
    case ELoadHead(rq, t) => pc' == EClose(rq, t) || pc'.ELoadTail?
    case EClose(rq, _) => pc' == EInitRing(rq) || pc'.ELoadTail?
    case EInitRing(rq) => pc' == ESolo(rq)
    case ESolo(rq) => pc' == ELink(rq)
    case ELink(rq) => pc'.ELoadTail? || (pc'.ESwingTail? && pc'.rq == rq)
    case ESwingTail(_, _) => pc'.Idle?
    case DLoadHead => pc'.DFaaHead?
    case DFaaHead(rq) => pc'.DLoadIdx? && pc'.rq == rq
    case DLoadIdx(rq, h) => pc'.DLoadVal? && pc'.rq == rq && pc'.h == h
    case DLoadVal(rq, h, idx, unsafe) =>
      || pc' == DCheckTail(rq, h) || pc' == DLoadTail(rq, h, idx, unsafe)
      || pc' == DSkip(rq, h, idx, unsafe) || pc' == DLoadIdx(rq, h)
      || (pc'.DTake? && pc'.rq == rq && pc'.h == h && pc'.unsafe == unsafe && idx == h)
      || (pc'.DMark? && pc'.rq == rq && pc'.h == h && pc'.unsafe == unsafe && pc'.idx == idx)
    case DLoadTail(rq, h, idx, unsafe) => pc' == DSkip(rq, h, idx, unsafe) || pc' == DLoadIdx(rq, h)
    case DTake(rq, h, _, _) => pc'.Idle? || pc' == DLoadIdx(rq, h)
    case DMark(rq, h, _, _, _) => pc' == DCheckTail(rq, h) || pc' == DLoadIdx(rq, h)
    case DSkip(rq, h, _, _) => pc' == DCheckTail(rq, h) || pc' == DLoadIdx(rq, h)
    case DCheckTail(rq, h) => pc' == FLoadTail(rq, h) || pc'.DLoadHead?
    case FLoadTail(rq, h) => pc'.FLoadHead? && pc'.rq == rq && pc'.h == h
    case FLoadHead(rq, h, ft, fclosed) =>
      pc'.FReload? && pc'.rq == rq && pc'.h == h && pc'.ft == ft && pc'.fclosed == fclosed
    case FReload(rq, h, ft, _, fh) =>
      pc' == FLoadTail(rq, h) || pc' == FCas(rq, h, ft, fh) || pc' == DLoadNext(rq, h)
    case FCas(rq, h, _, _) => pc' == FLoadTail(rq, h) || pc' == DLoadNext(rq, h)
    case DLoadNext(rq, h) => pc'.Idle? || (pc'.DSwingHead? && pc'.rq == rq && pc'.h == h)
    case DSwingHead(_, _, _) => pc'.DLoadHead?
  }

  // The step of a thread goes on as the program does, within the same operation. A ring that was
  // published is not kept, and one that was not is.
  ghost predicate Flows(th: Thread, th': Thread) {
    && Follows(th.pc, th'.pc)
    && (!th.pc.Idle? ==> th'.ops == th.ops)
    && (if th.pc.ESwingTail? then th'.nrq.None? else th.nrq.Some? ==> th'.nrq.Some?)
  }

  lemma {:induction false} SelectFlows(s: Sys, tid: nat)
    requires Quick(s, tid) && SelectPc(s.threads[tid].pc)
    ensures Flows(s.threads[tid], SelectStep(s, tid).threads[tid])
  {
  }

  lemma {:induction false} DepositFlows(s: Sys, tid: nat)
    requires Quick(s, tid) && DepositPc(s.threads[tid].pc)
    ensures Flows(s.threads[tid], DepositStep(s, tid).threads[tid])
  {
  }

  lemma {:induction false} AppendFlows(s: Sys, tid: nat)
    requires Quick(s, tid) && AppendPc(s.threads[tid].pc)
    ensures Flows(s.threads[tid], AppendStep(s, tid).threads[tid])
  {
  }

  lemma {:induction false} TicketFlows(s: Sys, tid: nat)
    requires Quick(s, tid) && TicketPc(s.threads[tid].pc)
    ensures Flows(s.threads[tid], TicketStep(s, tid).threads[tid])
  {
  }

  lemma {:induction false} LookFlows(s: Sys, tid: nat)
    requires Quick(s, tid) && s.threads[tid].pc.DLoadVal?
    ensures Flows(s.threads[tid], InnerStep(s, tid).threads[tid])
  {
  }

  lemma {:induction false} InnerFlows(s: Sys, tid: nat)
    requires Quick(s, tid) && InnerPc(s.threads[tid].pc)
    ensures Flows(s.threads[tid], InnerStep(s, tid).threads[tid])
  {
    if s.threads[tid].pc.DLoadVal? { LookFlows(s, tid); }
  }

  lemma {:induction false} FixFlows(s: Sys, tid: nat)
    requires Quick(s, tid) && FixPc(s.threads[tid].pc)
    ensures Flows(s.threads[tid], FixStep(s, tid).threads[tid])
  {
  }

  lemma {:induction false} StepFlows(s: Sys, tid: nat, cmd: Cmd)
    requires Quick(s, tid)
    ensures Flows(s.threads[tid], Step(s, tid, cmd).threads[tid])
  {
    var pc := s.threads[tid].pc;
    if SelectPc(pc) {
      SelectFlows(s, tid);
    } else if DepositPc(pc) {
      DepositFlows(s, tid);
    } else if AppendPc(pc) {
      AppendFlows(s, tid);
    } else if TicketPc(pc) {
      TicketFlows(s, tid);
    } else if InnerPc(pc) {
      InnerFlows(s, tid);
    } else if FixPc(pc) {
      FixFlows(s, tid);
    } else {
      assert Step(s, tid, cmd) == Begin(s, tid, cmd);
    }
  }
}
