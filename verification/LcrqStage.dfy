// What an operation has come to, and how one step of its thread can change that.

module LcrqStage {
  import opened Options
  import opened LcrqRing
  import opened LcrqSystem
  import opened LcrqInvariant
  import opened LcrqPreserve
  import opened LcrqHistory

  datatype Stage =
    | Resting
    | Trying                           // an enqueue without a ticket
    | Holding(r: nat, k: nat)          // an enqueue that may deposit under ticket k of ring r
    | Placed                           // an enqueue that has published its ring
    | Searching                        // a dequeue without a ticket, or with one given up
    | Claiming(r: nat, k: nat)         // a dequeue in the inner loop
    | Emptying(r: nat, k: nat)         // a dequeue past the emptiness check

  function StageOf(th: Thread): Stage {
    match th.pc
    case Idle => Resting
    case ELoadIdx(rq, t) => Holding(rq, t)
    case ELoadVal(rq, t, _, _) => Holding(rq, t)
    case ELoadHeadGuard(rq, t, _) => Holding(rq, t)
    case ECas2(rq, t, _, _) => Holding(rq, t)
    case ESwingTail(_, _) => Placed
    case ELoadTail => Trying
    case ELoadNext(_) => Trying
    case EHelpTail(_, _) => Trying
    case EFaaTail(_) => Trying
    case ELoadHead(_, _) => Trying
    case EClose(_, _) => Trying
    case EInitRing(_) => Trying
    case ESolo(_) => Trying
    case ELink(_) => Trying
    case DLoadHead => Searching
    case DFaaHead(_) => Searching
    case DCheckTail(_, _) => Searching
    case DSwingHead(_, _, _) => Searching
    case DLoadIdx(rq, h) => Claiming(rq, h)
    case DLoadVal(rq, h, _, _) => Claiming(rq, h)
    case DLoadTail(rq, h, _, _) => Claiming(rq, h)
    case DTake(rq, h, _, _) => Claiming(rq, h)
    case DMark(rq, h, _, _, _) => Claiming(rq, h)
    case DSkip(rq, h, _, _) => Claiming(rq, h)
    case FLoadTail(rq, h) => Emptying(rq, h)
    case FLoadHead(rq, h, _, _) => Emptying(rq, h)
    case FReload(rq, h, _, _, _) => Emptying(rq, h)
    case FCas(rq, h, _, _) => Emptying(rq, h)
    case DLoadNext(rq, h) => Emptying(rq, h)
  }

  // The enqueue ticket that the next step of the thread draws, if it does.
  function Draws(s: Sys, tid: nat): Option<(nat, nat)>
    requires Shape(s) && tid < |s.threads|
  {
    var pc := s.threads[tid].pc;
    assert ThreadShape(s, s.threads[tid]);
    match pc
    case EFaaTail(rq) => if s.rings[rq].closed then None else Some((rq, s.rings[rq].tail))
    case ELink(rq) => if s.rings[rq].next.None? then Some((|s.rings|, 0)) else None
    case _ => None
  }

  predicate Drawn(s: Sys, r: nat, k: nat) {
    r < |s.rings| && k in s.rings[r].log.enq
  }

  // ------------------------------------------------------------ enqueue books

  ghost predicate DrawBooks(s: Sys, s': Sys, tid: nat)
    requires Shape(s) && tid < |s.threads|
  {
    forall r: nat, k: nat :: Drawn(s', r, k) <==> Drawn(s, r, k) || Draws(s, tid) == Some((r, k))
  }

  lemma {:induction false} SelectDraws(s: Sys, tid: nat)
    requires Local(s, tid) && SelectPc(s.threads[tid].pc)
    ensures DrawBooks(s, SelectStep(s, tid), tid)
  {
  }

  lemma {:induction false} DepositDraws(s: Sys, tid: nat)
    requires Local(s, tid) && DepositPc(s.threads[tid].pc)
    ensures DrawBooks(s, DepositStep(s, tid), tid)
  {
  }

  lemma {:induction false} AppendDraws(s: Sys, tid: nat)
    requires Local(s, tid) && AppendPc(s.threads[tid].pc)
    ensures DrawBooks(s, AppendStep(s, tid), tid)
  {
  }

  lemma {:induction false} FixKeepsTickets(s: Sys, tid: nat)
    requires Quick(s, tid) && FixPc(s.threads[tid].pc)
    ensures var s' := FixStep(s, tid);
            |s'.rings| == |s.rings| && forall r: nat :: r < |s.rings| ==> s'.rings[r].log == s.rings[r].log
  {
  }

  lemma {:induction false} StepDraws(s: Sys, tid: nat, cmd: Cmd)
    requires Local(s, tid)
    ensures DrawBooks(s, Step(s, tid, cmd), tid)
  {
    var pc := s.threads[tid].pc;
    if SelectPc(pc) {
      SelectDraws(s, tid);
    } else if DepositPc(pc) {
      DepositDraws(s, tid);
    } else if AppendPc(pc) {
      AppendDraws(s, tid);
    } else if TicketPc(pc) {
      TicketKeepsBooks(s, tid);
    } else if InnerPc(pc) {
      InnerKeepsBooks(s, tid);
    } else if FixPc(pc) {
      FixKeepsTickets(s, tid);
    }
  }

  // ------------------------------------------------------------------- stages

  ghost predicate DepOf(s: Sys, r: nat, k: nat, v: int) {
    r < |s.rings| && k in s.rings[r].log.dep && s.rings[r].log.dep[k] == v
  }

  // What a step makes of the stage of its thread.
  ghost predicate StageMove(s: Sys, s': Sys, tid: nat, cmd: Cmd)
    requires Shape(s) && tid < |s.threads| == |s'.threads|
  {
    var th, th' := s.threads[tid], s'.threads[tid];
    if th.pc.Idle?
    then th'.ops == th.ops + 1 && s'.answers == s.answers && Draws(s, tid).None? && Deposits(s, tid).None?
         && (match cmd
             case Enqueue(v) => StageOf(th') == Trying && th'.arg == v
             case Dequeue => StageOf(th') == Searching)
    else th'.ops == th.ops && th'.arg == th.arg && StageStep(s, s', tid)
  }

  ghost predicate StageStep(s: Sys, s': Sys, tid: nat)
    requires Shape(s) && tid < |s.threads| == |s'.threads|
  {
    var th, a' := s.threads[tid], StageOf(s'.threads[tid]);
    match StageOf(th)
    case Resting => false
    case Trying => EnqueueTries(s, s', tid, a')
    case Holding(r, k) =>
      && s'.answers == s.answers && Draws(s, tid).None?
      && (match Deposits(s, tid)
          case None => a' == StageOf(th) || a' == Trying
          case Some(d) => d == (r, k) && a' == Resting && DepOf(s', r, k, th.arg))
    case Placed => s'.answers == s.answers && Draws(s, tid).None? && Deposits(s, tid).None? && a' == Resting
    case Searching =>
      && Draws(s, tid).None? && Deposits(s, tid).None?
      && s'.answers == s.answers && DequeueSearches(s, tid, a')
    case Claiming(r, k) =>
      && Draws(s, tid).None? && Deposits(s, tid).None?
      && (if a' == Resting
          then exists v: int :: v != EMPTY && DepOf(s, r, k, v) && s'.answers == s.answers + [Answer(tid, r, k, v)]
          else s'.answers == s.answers
               && (a' == StageOf(th) || (a' == Searching && r < |s'.rings| && k in s'.rings[r].log.gaveUp)))
    case Emptying(r, k) =>
      && Draws(s, tid).None? && Deposits(s, tid).None? && r < |s.rings|
      && (if a' == Resting then s.rings[r].next.None? && s'.answers == s.answers + [Answer(tid, r, k, EMPTY)]
          else s'.answers == s.answers && (a' == StageOf(th) || (a' == Searching && s.rings[r].next.Some?)))
  }

  ghost predicate EnqueueTries(s: Sys, s': Sys, tid: nat, a': Stage)
    requires Shape(s) && tid < |s.threads|
  {
    && s'.answers == s.answers
    && (match Draws(s, tid)
        case None => a' == Trying && Deposits(s, tid).None?
        case Some(d) =>
          if s.threads[tid].pc.ELink?
          then a' == Placed && Deposits(s, tid) == Some(d) && DepOf(s', d.0, d.1, s.threads[tid].arg)
          else a' == Holding(d.0, d.1) && Deposits(s, tid).None? && d.0 < |s.rings| && d.1 == s.rings[d.0].tail
               && !s.rings[d.0].closed)
  }

  ghost predicate DequeueSearches(s: Sys, tid: nat, a': Stage)
    requires Shape(s) && tid < |s.threads|
  {
    var pc := s.threads[tid].pc;
    if pc.DFaaHead? then pc.rq < |s.rings| && a' == Claiming(pc.rq, s.rings[pc.rq].head)
    else if pc.DCheckTail? && pc.rq < |s.rings| && NearEmpty(s.rings[pc.rq].tail, pc.h) then a' == Emptying(pc.rq, pc.h)
    else a' == Searching
  }

  lemma {:induction false} SelectMoves(s: Sys, tid: nat, cmd: Cmd)
    requires Local(s, tid) && SelectPc(s.threads[tid].pc)
    ensures StageMove(s, SelectStep(s, tid), tid, cmd)
  {
  }

  lemma {:induction false} DepositMoves(s: Sys, tid: nat, cmd: Cmd)
    requires Local(s, tid) && DepositPc(s.threads[tid].pc)
    ensures StageMove(s, DepositStep(s, tid), tid, cmd)
  {
  }

  lemma {:induction false} AppendMoves(s: Sys, tid: nat, cmd: Cmd)
    requires Local(s, tid) && AppendPc(s.threads[tid].pc)
    ensures StageMove(s, AppendStep(s, tid), tid, cmd)
  {
  }

  lemma {:induction false} SearchMoves(s: Sys, tid: nat, cmd: Cmd)
    requires Quick(s, tid) && TicketPc(s.threads[tid].pc) && !s.threads[tid].pc.DLoadNext?
    ensures StageMove(s, TicketStep(s, tid), tid, cmd)
  {
    if s.threads[tid].pc.DCheckTail? {
      CheckMoves(s, tid, cmd);
    } else if s.threads[tid].pc.DFaaHead? {
      DrawMoves(s, tid, cmd);
    } else {
      HeadMoves(s, tid, cmd);
    }
  }

  lemma {:induction false} CheckMoves(s: Sys, tid: nat, cmd: Cmd)
    requires Quick(s, tid) && s.threads[tid].pc.DCheckTail?
    ensures StageMove(s, TicketStep(s, tid), tid, cmd)
  {
  }

  lemma {:induction false} DrawMoves(s: Sys, tid: nat, cmd: Cmd)
    requires Quick(s, tid) && s.threads[tid].pc.DFaaHead?
    ensures StageMove(s, TicketStep(s, tid), tid, cmd)
  {
  }

  lemma {:induction false} HeadMoves(s: Sys, tid: nat, cmd: Cmd)
    requires Quick(s, tid) && (s.threads[tid].pc.DLoadHead? || s.threads[tid].pc.DSwingHead?)
    ensures StageMove(s, TicketStep(s, tid), tid, cmd)
  {
  }

  lemma {:induction false} NextMoves(s: Sys, tid: nat, cmd: Cmd)
    requires Quick(s, tid) && s.threads[tid].pc.DLoadNext?
    ensures StageMove(s, TicketStep(s, tid), tid, cmd)
  {
    var s', pc := TicketStep(s, tid), s.threads[tid].pc;
    if s.rings[pc.rq].next.None? {
      assert s' == Go(s.(answers := s.answers + [Answer(tid, pc.rq, pc.h, EMPTY)]), tid, Idle);
    } else {
      assert s' == Go(s, tid, DSwingHead(pc.rq, pc.h, s.rings[pc.rq].next.value));
    }
  }

  lemma {:induction false} TakeMoves(s: Sys, tid: nat, cmd: Cmd)
    requires Local(s, tid) && s.threads[tid].pc.DTake?
    ensures StageMove(s, InnerStep(s, tid), tid, cmd)
  {
    var s', pc := InnerStep(s, tid), s.threads[tid].pc;
    if CellOf(s, pc.rq, pc.h) == Expected(pc) {
      assert DepOf(s, pc.rq, pc.h, pc.val);
    } else {
      assert s' == Go(s, tid, DLoadIdx(pc.rq, pc.h));
    }
  }

  // A dequeuer that takes nothing goes on with its ticket or gives it up.
  ghost predicate KeepsClaim(s: Sys, s': Sys, tid: nat)
    requires tid < |s.threads|
  {
    && |s'.threads| == |s.threads|
    && var th, th' := s.threads[tid], s'.threads[tid];
    && th'.ops == th.ops && th'.arg == th.arg && s'.answers == s.answers
    && (StageOf(th') == StageOf(th) ||
        (StageOf(th).Claiming? && StageOf(th') == Searching && StageOf(th).r < |s'.rings|
         && StageOf(th).k in s'.rings[StageOf(th).r].log.gaveUp))
  }

  lemma {:induction false} PastMoves(s: Sys, tid: nat)
    requires Quick(s, tid) && s.threads[tid].pc.DLoadVal? && s.threads[tid].pc.idx > s.threads[tid].pc.h
    ensures KeepsClaim(s, InnerStep(s, tid), tid)
  {
  }

  lemma {:induction false} LookMoves(s: Sys, tid: nat)
    requires Quick(s, tid) && s.threads[tid].pc.DLoadVal? && s.threads[tid].pc.idx <= s.threads[tid].pc.h
    ensures KeepsClaim(s, InnerStep(s, tid), tid)
  {
  }

  lemma {:induction false} ReadMoves(s: Sys, tid: nat)
    requires Quick(s, tid)
    requires var pc := s.threads[tid].pc; pc.DLoadIdx? || pc.DLoadTail?
    ensures KeepsClaim(s, InnerStep(s, tid), tid)
  {
  }

  lemma {:induction false} LeaveMoves(s: Sys, tid: nat)
    requires Quick(s, tid)
    requires var pc := s.threads[tid].pc; pc.DMark? || pc.DSkip?
    ensures KeepsClaim(s, InnerStep(s, tid), tid)
  {
  }

  lemma {:induction false} InnerMoves(s: Sys, tid: nat, cmd: Cmd)
    requires Local(s, tid) && InnerPc(s.threads[tid].pc)
    ensures StageMove(s, InnerStep(s, tid), tid, cmd)
  {
    var pc := s.threads[tid].pc;
    if pc.DTake? {
      TakeMoves(s, tid, cmd);
    } else if pc.DMark? || pc.DSkip? {
      LeaveMoves(s, tid);
    } else if pc.DLoadVal? && pc.idx > pc.h {
      PastMoves(s, tid);
    } else if pc.DLoadVal? {
      LookMoves(s, tid);
    } else {
      ReadMoves(s, tid);
    }
  }

  lemma {:induction false} FixReadStays(s: Sys, tid: nat)
    requires Quick(s, tid)
    requires var pc := s.threads[tid].pc; pc.FLoadTail? || pc.FLoadHead?
    ensures KeepsClaim(s, FixStep(s, tid), tid) && StageOf(FixStep(s, tid).threads[tid]) == StageOf(s.threads[tid])
  {
  }

  lemma {:induction false} FixTriesStays(s: Sys, tid: nat)
    requires Quick(s, tid)
    requires var pc := s.threads[tid].pc; pc.FReload? || pc.FCas?
    ensures KeepsClaim(s, FixStep(s, tid), tid) && StageOf(FixStep(s, tid).threads[tid]) == StageOf(s.threads[tid])
  {
  }

  lemma {:induction false} FixMoves(s: Sys, tid: nat, cmd: Cmd)
    requires Quick(s, tid) && FixPc(s.threads[tid].pc)
    ensures StageMove(s, FixStep(s, tid), tid, cmd)
  {
    var pc := s.threads[tid].pc;
    if pc.FLoadTail? || pc.FLoadHead? { FixReadStays(s, tid); } else { FixTriesStays(s, tid); }
  }

  lemma {:induction false} TicketMoves(s: Sys, tid: nat, cmd: Cmd)
    requires Local(s, tid) && TicketPc(s.threads[tid].pc)
    ensures StageMove(s, TicketStep(s, tid), tid, cmd)
  {
    if s.threads[tid].pc.DLoadNext? { NextMoves(s, tid, cmd); } else { SearchMoves(s, tid, cmd); }
  }

  lemma {:induction false} StepMoves(s: Sys, tid: nat, cmd: Cmd)
    requires Local(s, tid)
    ensures |Step(s, tid, cmd).threads| == |s.threads| && StageMove(s, Step(s, tid, cmd), tid, cmd)
  {
    var pc := s.threads[tid].pc;
    if SelectPc(pc) {
      SelectMoves(s, tid, cmd);
    } else if DepositPc(pc) {
      DepositMoves(s, tid, cmd);
    } else if AppendPc(pc) {
      AppendMoves(s, tid, cmd);
    } else if TicketPc(pc) {
      TicketMoves(s, tid, cmd);
    } else if InnerPc(pc) {
      InnerMoves(s, tid, cmd);
    } else if FixPc(pc) {
      FixMoves(s, tid, cmd);
    } else {
      assert Step(s, tid, cmd) == Begin(s, tid, cmd);
    }
  }
}
