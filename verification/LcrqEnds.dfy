// From which states an operation ends when its thread runs alone from there on.

module LcrqEnds {
  import opened Options
  import opened LcrqRing
  import opened LcrqSystem
  import opened LcrqInvariant
  import opened LcrqPreserve
  import opened LcrqFlow
  import opened LcrqHistory
  import opened LcrqTheorems
  import opened LcrqSolo
  import opened LcrqClosing
  import opened LcrqNoEnqueue

  // ---------------------------------------------------- what is left to do

  // How far an operation is from its end, compared entry by entry.
  datatype Rung = Rung(a: nat, b: nat, c: nat, d: nat, e: nat, f: nat, g: nat)

  predicate Below(x: Rung, y: Rung) {
    if x.a != y.a then x.a < y.a
    else if x.b != y.b then x.b < y.b
    else if x.c != y.c then x.c < y.c
    else if x.d != y.d then x.d < y.d
    else if x.e != y.e then x.e < y.e
    else if x.f != y.f then x.f < y.f
    else x.g < y.g
  }

  // ---------------------------------------------------------------- enqueue

  // A ticket of the ring that finds no place closes it, or finds it closed.
  predicate WillClose(R: nat, g: Ring) {
    g.closed || LooksFull(R, g.tail, g.head)
  }

  // Tickets that may still be drawn before one closes the ring.
  function Slack(R: nat, g: Ring): nat {
    if g.closed then 0 else if LooksFull(R, g.tail, g.head) then 1 else 2 + R - (g.tail - g.head)
  }

  // The enqueue will not start over if its thread runs alone.
  predicate Sure(s: Sys, pc: Pc)
    requires |s.rings| > 0
  {
    var last := |s.rings| - 1;
    var g := s.rings[last];
    match pc
    case ELoadTail => s.tail == last && WillClose(s.R, g)
    case ELoadNext(rq) => rq == last && WillClose(s.R, g)
    case EFaaTail(rq) => rq == last && WillClose(s.R, g)
    case EInitRing(rq) => rq == last
    case ESolo(rq) => rq == last
    case ELink(rq) => rq == last
    case ESwingTail(_, _) => true
    case _ => DepositPc(pc) && pc.rq == last && !g.closed && g.tail == pc.t + 1 && LooksFull(s.R, pc.t, g.head)
  }

  // The thread is at an attempt that will not draw a ticket of the last ring any more.
  predicate Spent(s: Sys, pc: Pc)
    requires |s.rings| > 0
  {
    match pc
    case ELoadTail => false
    case ELoadNext(rq) => rq != s.tail
    case EHelpTail(rq, _) => rq != s.tail
    case EFaaTail(rq) => rq != |s.rings| - 1
    case _ => true
  }

  function EnqueueRank(pc: Pc): nat {
    match pc
    case ELoadTail => 12
    case ELoadNext(_) => 11
    case EHelpTail(_, _) => 10
    case EFaaTail(_) => 10
    case ELoadIdx(_, _) => 9
    case ELoadVal(_, _, _, _) => 8
    case ELoadHeadGuard(_, _, _) => 7
    case ECas2(_, _, _, _) => 6
    case ELoadHead(_, _) => 5
    case EClose(_, _) => 4
    case EInitRing(_) => 3
    case ESolo(_) => 2
    case ELink(_) => 1
    case _ => 0
  }

  function EnqueueRung(s: Sys, pc: Pc): Rung
    requires s.tail < |s.rings|
  {
    if Sure(s, pc) then Rung(0, 0, 0, 0, 0, 0, EnqueueRank(pc))
    else
      var last := |s.rings| - 1;
      Rung(1, last - s.tail, Slack(s.R, s.rings[last]), if Spent(s, pc) then 1 else 0, 0, 0, EnqueueRank(pc))
  }

  // The step from s to s' ends the enqueue of thread tid or brings it nearer to its end.
  ghost predicate EnqueueNearer(s: Sys, s': Sys, tid: nat) {
    && tid < |s.threads| && tid < |s'.threads| && s.tail < |s.rings| && s'.tail < |s'.rings|
    && (s'.threads[tid].pc.Idle?
        || (EnqueuePc(s'.threads[tid].pc)
            && Below(EnqueueRung(s', s'.threads[tid].pc), EnqueueRung(s, s.threads[tid].pc))))
  }

  lemma {:induction false} SelectNearer(s: Sys, tid: nat)
    requires Quick(s, tid) && SelectPc(s.threads[tid].pc) && !s.threads[tid].pc.EFaaTail?
    ensures EnqueueNearer(s, SelectStep(s, tid), tid)
  {
  }

  lemma {:induction false} DrawNearer(s: Sys, tid: nat)
    requires Quick(s, tid) && s.threads[tid].pc.EFaaTail?
    ensures EnqueueNearer(s, SelectStep(s, tid), tid)
  {
  }

  lemma {:induction false} PlaceNearer(s: Sys, tid: nat)
    requires Quick(s, tid) && DepositPc(s.threads[tid].pc) && !Shutting(s.threads[tid].pc)
    ensures EnqueueNearer(s, DepositStep(s, tid), tid)
  {
  }

  lemma {:induction false} ShutNearer(s: Sys, tid: nat)
    requires Quick(s, tid) && Shutting(s.threads[tid].pc)
    ensures EnqueueNearer(s, DepositStep(s, tid), tid)
  {
  }

  lemma {:induction false} AppendNearer(s: Sys, tid: nat)
    requires Quick(s, tid) && AppendPc(s.threads[tid].pc)
    ensures EnqueueNearer(s, AppendStep(s, tid), tid)
  {
  }

  // ---------------------------------------------------------------- dequeue

  predicate DequeuePc(pc: Pc) { TicketPc(pc) || InnerPc(pc) || FixPc(pc) }

  // What the thread has read is out of date.
  predicate Outdated(s: Sys, pc: Pc)
    requires RingOf(pc).Some? ==> pc.rq < |s.rings| && s.R == |s.rings[pc.rq].cells| > 0
  {
    match pc
    case DLoadVal(rq, h, idx, unsafe) => CellOf(s, rq, h).idx != idx || CellOf(s, rq, h).unsafe != unsafe
    case DLoadTail(rq, h, idx, unsafe) => CellOf(s, rq, h) != Cell(EMPTY, idx, unsafe)
    case DTake(rq, h, _, _) => CellOf(s, rq, h) != Expected(pc)
    case DMark(rq, h, _, _, _) => CellOf(s, rq, h) != Expected(pc)
    case DSkip(rq, h, _, _) => CellOf(s, rq, h) != Expected(pc)
    case FLoadHead(rq, _, ft, fclosed) => s.rings[rq].tail != ft || s.rings[rq].closed != fclosed
    case FReload(rq, _, ft, fclosed, _) => s.rings[rq].tail != ft || s.rings[rq].closed != fclosed
    case FCas(rq, _, ft, _) => s.rings[rq].tail != ft || s.rings[rq].closed
    case _ => false
  }

  // An attempt whose ticket passes the emptiness check is nearer to its end.
  function Attempt(g: Ring, h: nat): nat {
    if g.tail <= h + 1 then 2 else 5
  }

  function Stage(g: Ring, pc: Pc): nat {
    match pc
    case DLoadHead => 4
    case DFaaHead(_) => 3
    case DLoadIdx(_, h) => Attempt(g, h)
    case DLoadVal(_, h, _, _) => Attempt(g, h)
    case DLoadTail(_, h, _, _) => Attempt(g, h)
    case DTake(_, h, _, _) => Attempt(g, h)
    case DMark(_, h, _, _, _) => Attempt(g, h)
    case DSkip(_, h, _, _) => Attempt(g, h)
    case DCheckTail(_, h) => Attempt(g, h)
    case FLoadTail(_, _) => 1
    case FLoadHead(_, _, _, _) => 1
    case FReload(_, _, _, _, _) => 1
    case FCas(_, _, _, _) => 1
    case _ => 0
  }

  function DequeueRank(pc: Pc): nat {
    match pc
    case DLoadIdx(_, _) => 5
    case DLoadVal(_, _, _, _) => 4
    case DLoadTail(_, _, _, _) => 3
    case DTake(_, _, _, _) => 2
    case DMark(_, _, _, _, _) => 2
    case DSkip(_, _, _, _) => 2
    case FLoadTail(_, _) => 3
    case FLoadHead(_, _, _, _) => 2
    case FReload(_, _, _, _, _) => 1
    case DLoadNext(_, _) => 1
    case _ => 0
  }

  // The turns of the inner loop that are left before it gives the ticket up.
  function Spins(th: Thread): nat {
    if InnerPc(th.pc) && th.r <= SPIN_LIMIT then SPIN_LIMIT + 1 - th.r else 0
  }

  function DequeueRung(s: Sys, th: Thread): Rung
    requires s.head < |s.rings|
    requires RingOf(th.pc).Some? ==> th.pc.rq < |s.rings| && s.R == |s.rings[th.pc.rq].cells| > 0
  {
    var rq := if RingOf(th.pc).Some? then th.pc.rq else s.head;
    var g := s.rings[rq];
    Rung(
      if rq < s.head then 1 else 0,
      |s.rings| - 1 - s.head,
      if g.tail > g.head then g.tail - g.head else 0,
      Stage(g, th.pc),
      if Outdated(s, th.pc) then 1 else 0,
      Spins(th),
      DequeueRank(th.pc))
  }

  ghost predicate DequeueNearer(s: Sys, s': Sys, tid: nat) {
    && Shape(s) && Shape(s') && tid < |s.threads| && tid < |s'.threads|
    && (s'.threads[tid].pc.Idle?
        || (DequeuePc(s'.threads[tid].pc)
            && Below(DequeueRung(s', s'.threads[tid]), DequeueRung(s, s.threads[tid]))))
  }

  ghost predicate AllTailed(s: Sys) {
    forall r: nat :: r < |s.rings| ==> s.rings[r].tail >= 1
  }

  lemma {:induction false} DrawTicketNearer(s: Sys, tid: nat)
    requires Quick(s, tid) && (s.threads[tid].pc.DLoadHead? || s.threads[tid].pc.DFaaHead?) && Shape(TicketStep(s, tid))
    ensures DequeueNearer(s, TicketStep(s, tid), tid)
  {
  }

  // The emptiness check fails only for an attempt that was not about to pass it.
  lemma {:induction false} CheckNearer(s: Sys, tid: nat)
    requires Quick(s, tid) && s.threads[tid].pc.DCheckTail? && AllTailed(s) && Shape(TicketStep(s, tid))
    ensures DequeueNearer(s, TicketStep(s, tid), tid)
  {
  }

  lemma {:induction false} NextNearer(s: Sys, tid: nat)
    requires Quick(s, tid) && s.threads[tid].pc.DLoadNext? && Shape(TicketStep(s, tid))
    ensures DequeueNearer(s, TicketStep(s, tid), tid)
  {
  }

  lemma {:induction false} SwingNearer(s: Sys, tid: nat)
    requires Quick(s, tid) && s.threads[tid].pc.DSwingHead? && Shape(TicketStep(s, tid))
    ensures DequeueNearer(s, TicketStep(s, tid), tid)
  {
  }

  lemma {:induction false} FixReadNearer(s: Sys, tid: nat)
    requires Quick(s, tid) && (s.threads[tid].pc.FLoadTail? || s.threads[tid].pc.FLoadHead?) && Shape(FixStep(s, tid))
    ensures DequeueNearer(s, FixStep(s, tid), tid)
  {
  }

  lemma {:induction false} ReloadNearer(s: Sys, tid: nat)
    requires Quick(s, tid) && s.threads[tid].pc.FReload? && Shape(FixStep(s, tid))
    ensures DequeueNearer(s, FixStep(s, tid), tid)
  {
  }

  lemma {:induction false} RepairNearer(s: Sys, tid: nat)
    requires Quick(s, tid) && s.threads[tid].pc.FCas? && Shape(FixStep(s, tid))
    ensures DequeueNearer(s, FixStep(s, tid), tid)
  {
  }

  lemma {:induction false} LoadIdxNearer(s: Sys, tid: nat)
    requires Quick(s, tid) && s.threads[tid].pc.DLoadIdx? && Shape(InnerStep(s, tid))
    ensures DequeueNearer(s, InnerStep(s, tid), tid)
  {
  }

  // A ticket whose cell has moved past it is given up.
  lemma {:induction false} LeaveNearer(s: Sys, tid: nat)
    requires Quick(s, tid) && s.threads[tid].pc.DLoadVal? && s.threads[tid].pc.idx > s.threads[tid].pc.h
    requires Shape(InnerStep(s, tid))
    ensures DequeueNearer(s, InnerStep(s, tid), tid)
  {
  }

  // The cell holds a value, or tail is to be read.
  lemma {:induction false} LookNearer(s: Sys, tid: nat)
    requires Quick(s, tid) && s.threads[tid].pc.DLoadVal? && s.threads[tid].pc.idx <= s.threads[tid].pc.h
    requires var th := s.threads[tid]; CellOf(s, th.pc.rq, th.pc.h).val != EMPTY || th.r % TAIL_PERIOD == 0
    requires Shape(InnerStep(s, tid))
    ensures DequeueNearer(s, InnerStep(s, tid), tid)
  {
  }

  lemma {:induction false} SpinNearer(s: Sys, tid: nat)
    requires Quick(s, tid) && s.threads[tid].pc.DLoadVal? && s.threads[tid].pc.idx <= s.threads[tid].pc.h
    requires var th := s.threads[tid]; CellOf(s, th.pc.rq, th.pc.h).val == EMPTY && th.r % TAIL_PERIOD != 0
    requires Shape(InnerStep(s, tid))
    ensures DequeueNearer(s, InnerStep(s, tid), tid)
  {
  }

  lemma {:induction false} LoadTailNearer(s: Sys, tid: nat)
    requires Quick(s, tid) && s.threads[tid].pc.DLoadTail? && Shape(InnerStep(s, tid))
    ensures DequeueNearer(s, InnerStep(s, tid), tid)
  {
  }

  // A CAS2 fails only on an outdated read.
  lemma {:induction false} FailNearer(s: Sys, tid: nat)
    requires Quick(s, tid) && Cas2Pc(s.threads[tid].pc) && Shape(InnerStep(s, tid))
    requires var pc := s.threads[tid].pc; CellOf(s, pc.rq, pc.h) != Expected(pc)
    ensures DequeueNearer(s, InnerStep(s, tid), tid)
  {
  }

  lemma {:induction false} GiveUpNearer(s: Sys, tid: nat)
    requires Quick(s, tid) && Cas2Pc(s.threads[tid].pc) && !s.threads[tid].pc.DTake? && Shape(InnerStep(s, tid))
    requires var pc := s.threads[tid].pc; CellOf(s, pc.rq, pc.h) == Expected(pc)
    ensures DequeueNearer(s, InnerStep(s, tid), tid)
  {
  }

  lemma {:induction false} TakeEnds(s: Sys, tid: nat)
    requires Quick(s, tid) && s.threads[tid].pc.DTake? && Shape(InnerStep(s, tid))
    requires var pc := s.threads[tid].pc; CellOf(s, pc.rq, pc.h) == Expected(pc)
    ensures DequeueNearer(s, InnerStep(s, tid), tid)
  {
  }

  lemma {:induction false} InnerNearer(s: Sys, tid: nat)
    requires Quick(s, tid) && InnerPc(s.threads[tid].pc) && Shape(InnerStep(s, tid))
    ensures DequeueNearer(s, InnerStep(s, tid), tid)
  {
    var pc, r := s.threads[tid].pc, s.threads[tid].r;
    if pc.DLoadIdx? {
      LoadIdxNearer(s, tid);
    } else if pc.DLoadVal? {
      if pc.idx > pc.h {
        LeaveNearer(s, tid);
      } else if CellOf(s, pc.rq, pc.h).val != EMPTY || r % TAIL_PERIOD == 0 {
        LookNearer(s, tid);
      } else {
        SpinNearer(s, tid);
      }
    } else if pc.DLoadTail? {
      LoadTailNearer(s, tid);
    } else if CellOf(s, pc.rq, pc.h) != Expected(pc) {
      FailNearer(s, tid);
    } else if pc.DTake? {
      TakeEnds(s, tid);
    } else {
      GiveUpNearer(s, tid);
    }
  }

  lemma {:induction false} FixNearer(s: Sys, tid: nat)
    requires Quick(s, tid) && FixPc(s.threads[tid].pc) && Shape(FixStep(s, tid))
    ensures DequeueNearer(s, FixStep(s, tid), tid)
  {
    var pc := s.threads[tid].pc;
    if pc.FReload? {
      ReloadNearer(s, tid);
    } else if pc.FCas? {
      RepairNearer(s, tid);
    } else {
      FixReadNearer(s, tid);
    }
  }

  lemma {:induction false} TicketNearer(s: Sys, tid: nat)
    requires Quick(s, tid) && TicketPc(s.threads[tid].pc) && AllTailed(s) && Shape(TicketStep(s, tid))
    ensures DequeueNearer(s, TicketStep(s, tid), tid)
  {
    var pc := s.threads[tid].pc;
    if pc.DCheckTail? {
      CheckNearer(s, tid);
    } else if pc.DLoadNext? {
      NextNearer(s, tid);
    } else if pc.DSwingHead? {
      SwingNearer(s, tid);
    } else {
      DrawTicketNearer(s, tid);
    }
  }

  lemma {:induction false} EnqueueStepNearer(s: Sys, tid: nat, cmd: Cmd)
    requires Quick(s, tid) && EnqueuePc(s.threads[tid].pc)
    ensures EnqueueNearer(s, Step(s, tid, cmd), tid)
  {
    var pc := s.threads[tid].pc;
    if pc.EFaaTail? {
      DrawNearer(s, tid);
    } else if SelectPc(pc) {
      SelectNearer(s, tid);
    } else if Shutting(pc) {
      ShutNearer(s, tid);
    } else if DepositPc(pc) {
      PlaceNearer(s, tid);
    } else {
      AppendNearer(s, tid);
    }
  }

  lemma {:induction false} DequeueStepNearer(s: Sys, s': Sys, tid: nat, cmd: Cmd)
    requires Quick(s, tid) && DequeuePc(s.threads[tid].pc) && AllTailed(s) && s' == Step(s, tid, cmd) && Shape(s')
    ensures DequeueNearer(s, s', tid)
  {
    var pc := s.threads[tid].pc;
    if TicketPc(pc) {
      assert s' == TicketStep(s, tid);
      TicketNearer(s, tid);
    } else if InnerPc(pc) {
      assert s' == InnerStep(s, tid);
      InnerNearer(s, tid);
    } else {
      assert s' == FixStep(s, tid);
      FixNearer(s, tid);
    }
  }

  // --------------------------------------------------------------- running on

  // The m-th turn of thread i, running alone, ends the operation it is at, or begins here.
  ghost predicate EndsAt(s: Sys, i: nat, cmd: Cmd, m: nat)
    requires Core(s)
  {
    m > 0 && i < |s.threads| && Solo(s, i, cmd, m).threads[i].pc.Idle?
  }

  ghost predicate Ends(s: Sys, i: nat, cmd: Cmd)
    requires Core(s)
  {
    exists m: nat :: EndsAt(s, i, cmd, m)
  }

  lemma {:induction false} SoloFirst(s: Sys, i: nat, cmd: Cmd, m: nat)
    requires Core(s)
    ensures Solo(s, i, cmd, m + 1) == Solo(Turn(s, Event(i, cmd)), i, cmd, m)
  {
    var one := [Event(i, cmd)];
    assert Alone(i, cmd, m + 1) == one + Alone(i, cmd, m);
    RunSplit(s, one, Alone(i, cmd, m));
    assert Run(s, []) == s;
    RunNext(s, [], Event(i, cmd));
    assert [] + one == one;
  }

  // What ends after one more turn ends.
  lemma {:induction false} EndsAfter(s: Sys, i: nat, cmd: Cmd)
    requires Core(s) && i < |s.threads|
    requires var s' := Turn(s, Event(i, cmd)); s'.threads[i].pc.Idle? || Ends(s', i, cmd)
    ensures Ends(s, i, cmd)
  {
    var s' := Turn(s, Event(i, cmd));
    if s'.threads[i].pc.Idle? {
      SoloFirst(s, i, cmd, 0);
      assert EndsAt(s, i, cmd, 1);
    } else {
      var m: nat :| EndsAt(s', i, cmd, m);
      SoloFirst(s, i, cmd, m);
      assert EndsAt(s, i, cmd, m + 1);
    }
  }

  lemma {:induction false} EnqueueTurnNearer(s: Sys, i: nat, cmd: Cmd)
    requires Core(s) && i < |s.threads| && EnqueuePc(s.threads[i].pc)
    ensures EnqueueNearer(s, Turn(s, Event(i, cmd)), i)
  {
    CoreToLocal(s, i);
    EnqueueStepNearer(s, i, cmd);
  }

  ghost function EnqueueLeft(s: Sys, i: nat): Rung
    requires Core(s) && i < |s.threads|
  {
    EnqueueRung(s, s.threads[i].pc)
  }

  lemma {:induction false} EnqueueEnds(s: Sys, i: nat, cmd: Cmd)
    requires Core(s) && i < |s.threads| && EnqueuePc(s.threads[i].pc)
    ensures Ends(s, i, cmd)
    decreases EnqueueLeft(s, i).a, EnqueueLeft(s, i).b, EnqueueLeft(s, i).c, EnqueueLeft(s, i).d,
              EnqueueLeft(s, i).e, EnqueueLeft(s, i).f, EnqueueLeft(s, i).g
  {
    var s' := Turn(s, Event(i, cmd));
    EnqueueTurnNearer(s, i, cmd);
    if !s'.threads[i].pc.Idle? {
      EnqueueEnds(s', i, cmd);
    }
    EndsAfter(s, i, cmd);
  }

  ghost function DequeueLeft(s: Sys, i: nat): Rung
    requires Core(s) && i < |s.threads|
  {
    CoreShape(s);
    assert ThreadShape(s, s.threads[i]);
    DequeueRung(s, s.threads[i])
  }

  lemma {:induction false} DequeueTurnNearer(s: Sys, i: nat, cmd: Cmd)
    requires Core(s) && i < |s.threads| && DequeuePc(s.threads[i].pc) && AllTailed(s)
    ensures DequeueNearer(s, Turn(s, Event(i, cmd)), i)
  {
    CoreToLocal(s, i);
    CoreShape(Turn(s, Event(i, cmd)));
    DequeueStepNearer(s, Turn(s, Event(i, cmd)), i, cmd);
  }

  // A dequeuer adds no ring.
  lemma {:induction false} DequeueAddsNone(s: Sys, i: nat, cmd: Cmd)
    requires Core(s) && i < |s.threads| && DequeuePc(s.threads[i].pc)
    ensures |Turn(s, Event(i, cmd)).rings| == |s.rings|
  {
    CoreToLocal(s, i);
  }

  lemma {:induction false} DequeueTurnTailed(s: Sys, i: nat, cmd: Cmd)
    requires Core(s) && i < |s.threads| && DequeuePc(s.threads[i].pc) && AllTailed(s)
    ensures AllTailed(Turn(s, Event(i, cmd)))
  {
    var s' := Turn(s, Event(i, cmd));
    DequeueAddsNone(s, i, cmd);
    TurnGrows(s, Event(i, cmd));
    forall r: nat | r < |s'.rings| ensures s'.rings[r].tail >= 1 {
      assert Grows(s.rings[r], s'.rings[r]);
    }
  }

  lemma {:induction false} DequeueEnds(s: Sys, i: nat, cmd: Cmd)
    requires Core(s) && i < |s.threads| && DequeuePc(s.threads[i].pc) && AllTailed(s)
    ensures Ends(s, i, cmd)
    decreases DequeueLeft(s, i).a, DequeueLeft(s, i).b, DequeueLeft(s, i).c, DequeueLeft(s, i).d,
              DequeueLeft(s, i).e, DequeueLeft(s, i).f, DequeueLeft(s, i).g
  {
    var s' := Turn(s, Event(i, cmd));
    DequeueTurnNearer(s, i, cmd);
    DequeueTurnTailed(s, i, cmd);
    if !s'.threads[i].pc.Idle? {
      DequeueEnds(s', i, cmd);
    }
    EndsAfter(s, i, cmd);
  }

  // ------------------------------------------------------ tails along a run

  // The points of the program that are past a ticket or a tail of the ring that is not 0.
  predicate KnowsTail(pc: Pc) { Shutting(pc) || AfterCheck(pc) }

  ghost predicate TailKnown(s: Sys, pc: Pc) {
    KnowsTail(pc) ==> pc.rq < |s.rings| && s.rings[pc.rq].tail >= 1
  }

  // Only an open first ring can have tail 0.
  ghost predicate Tails(s: Sys) {
    && (forall r: nat :: 0 < r < |s.rings| ==> s.rings[r].tail >= 1)
    && (forall r: nat :: r < |s.rings| && s.rings[r].closed ==> s.rings[r].tail >= 1)
    && (forall i: nat :: i < |s.threads| ==> TailKnown(s, s.threads[i].pc))
  }

  lemma {:induction false} NewRingTailed(s: Sys, tid: nat, cmd: Cmd, r: nat)
    requires Quick(s, tid) && |s.rings| <= r < |Step(s, tid, cmd).rings|
    ensures Step(s, tid, cmd).rings[r].tail >= 1
  {
    var pc := s.threads[tid].pc;
    if AppendPc(pc) {
      AppendedTailed(s, tid, r);
    } else {
      OthersAddNone(s, tid, cmd);
    }
  }

  lemma {:induction false} AppendedTailed(s: Sys, tid: nat, r: nat)
    requires Quick(s, tid) && AppendPc(s.threads[tid].pc) && |s.rings| <= r < |AppendStep(s, tid).rings|
    ensures AppendStep(s, tid).rings[r].tail >= 1
  {
  }

  lemma {:induction false} OthersAddNone(s: Sys, tid: nat, cmd: Cmd)
    requires Quick(s, tid) && !AppendPc(s.threads[tid].pc)
    ensures |Step(s, tid, cmd).rings| == |s.rings|
  {
  }

  lemma {:induction false} HeldTailed(s: Sys, tid: nat, rq: nat, t: nat)
    requires Local(s, tid) && HoldsEnqueue(s.threads[tid].pc) == Some((rq, t))
    ensures rq < |s.rings| && s.rings[rq].tail >= 1
  {
  }

  lemma {:induction false} CheckTailed(s: Sys, tid: nat)
    requires Quick(s, tid) && s.threads[tid].pc.DCheckTail? && TicketStep(s, tid).threads[tid].pc.FLoadTail?
    ensures s.threads[tid].pc.rq < |s.rings| && s.rings[s.threads[tid].pc.rq].tail >= 1
  {
  }

  // Where a thread can come from that knows the tail of its ring.
  lemma {:induction false} KnowsTailFrom(pc: Pc, pc': Pc)
    requires Follows(pc, pc') && KnowsTail(pc')
    ensures || (pc'.ELoadHead? && HoldsEnqueue(pc) == Some((pc'.rq, pc'.t)))
            || (KnowsTail(pc) && pc.rq == pc'.rq)
            || (pc.DCheckTail? && pc'.FLoadTail? && pc.rq == pc'.rq)
  {
  }

  // Where the thread that moves on to pc' knows the tail of its ring, that was not 0 before.
  lemma {:induction false} TailKnownBefore(s: Sys, tid: nat, pc: Pc, pc': Pc)
    requires Local(s, tid) && pc == s.threads[tid].pc && TailKnown(s, pc) && Follows(pc, pc')
    requires pc.DCheckTail? && pc'.FLoadTail? ==> pc.rq < |s.rings| && s.rings[pc.rq].tail >= 1
    ensures TailKnown(s, pc')
  {
    if KnowsTail(pc') {
      KnowsTailFrom(pc, pc');
      if pc'.ELoadHead? { HeldTailed(s, tid, pc'.rq, pc'.t); }
    }
  }

  lemma {:induction false} TailsKept(s: Sys, s': Sys, tid: nat)
    requires Tails(s) && Grew(s, s') && tid < |s.threads|
    requires forall i: nat :: i < |s.threads| && i != tid ==> s'.threads[i] == s.threads[i]
    requires forall r: nat :: |s.rings| <= r < |s'.rings| ==> s'.rings[r].tail >= 1
    requires forall r: nat :: Shuts(s, s', r) ==> s.rings[r].tail >= 1
    requires TailKnown(s, s'.threads[tid].pc)
    ensures Tails(s')
  {
    forall r: nat | 0 < r < |s'.rings| ensures s'.rings[r].tail >= 1 {
      if r < |s.rings| { assert Grows(s.rings[r], s'.rings[r]); }
    }
    forall r: nat | r < |s'.rings| && s'.rings[r].closed ensures s'.rings[r].tail >= 1 {
      if r < |s.rings| {
        assert Grows(s.rings[r], s'.rings[r]);
        assert s.rings[r].closed || Shuts(s, s', r);
      }
    }
    forall i: nat | i < |s'.threads| ensures TailKnown(s', s'.threads[i].pc) {
      var pc := s'.threads[i].pc;
      assert i != tid ==> TailKnown(s, pc);
      if KnowsTail(pc) { assert Grows(s.rings[pc.rq], s'.rings[pc.rq]); }
    }
  }

  lemma {:induction false} TurnTailKnown(s: Sys, e: Event)
    requires Core(s) && Tails(s) && e.tid < |s.threads|
    ensures TailKnown(s, Turn(s, e).threads[e.tid].pc)
  {
    CoreToLocal(s, e.tid);
    StepFlows(s, e.tid, e.cmd);
    var pc, pc' := s.threads[e.tid].pc, Turn(s, e).threads[e.tid].pc;
    assert TailKnown(s, pc);
    if pc.DCheckTail? && pc'.FLoadTail? { CheckTailed(s, e.tid); }
    TailKnownBefore(s, e.tid, pc, pc');
  }

  lemma {:induction false} TailsTurn(s: Sys, e: Event)
    requires Core(s) && Tails(s)
    ensures Tails(Turn(s, e))
  {
    if e.tid < |s.threads| {
      var s' := Turn(s, e);
      CoreToLocal(s, e.tid);
      TurnGrows(s, e);
      StepOk(s, e.tid, e.cmd);
      forall r: nat | |s.rings| <= r < |s'.rings| ensures s'.rings[r].tail >= 1 { NewRingTailed(s, e.tid, e.cmd, r); }
      forall r: nat | Shuts(s, s', r) ensures s.rings[r].tail >= 1 {
        StepShuts(s, e.tid, e.cmd, r);
        assert TailKnown(s, s.threads[e.tid].pc);
      }
      TurnTailKnown(s, e);
      TailsKept(s, s', e.tid);
    }
  }

  lemma {:induction false} RunTails(R: nat, n: nat, sched: seq<Event>)
    requires R > 0
    ensures Tails(Reach(R, n, sched))
    decreases |sched|
  {
    InitOk(R, n);
    if sched == [] {
      assert Reach(R, n, sched) == Init(R, n);
    } else {
      var m := |sched| - 1;
      RunTails(R, n, sched[..m]);
      TailsTurn(Reach(R, n, sched[..m]), sched[m]);
    }
  }

  // ------------------------------------------------------------ never ending

  // While the tail of the first ring is 0, a dequeuer is still searching in it.
  lemma {:induction false} BarrenHere(s: Sys, i: nat)
    requires Core(s) && Tails(s) && s.rings[0].tail == 0 && i < |s.threads| && DequeuePc(s.threads[i].pc)
    ensures SearchingAt(s, i)
  {
    CoreShape(s);
    assert TailKnown(s, s.threads[i].pc) && ThreadInv(s, i);
    assert RingInv(s.R, s.rings[0]);
  }

  lemma {:induction false} SearchesOn(s: Sys, i: nat, cmd: Cmd, m: nat)
    requires Core(s) && SearchingAt(s, i)
    ensures SearchingAt(Solo(s, i, cmd, m), i)
  {
    if m > 0 {
      SearchesOn(s, i, cmd, m - 1);
      SoloNext(s, i, cmd, m - 1);
      BarrenSearch(Solo(s, i, cmd, m - 1), i, cmd);
      CoreShape(Solo(s, i, cmd, m));
    }
  }

  lemma {:induction false} NeverEnds(s: Sys, i: nat, cmd: Cmd)
    requires Core(s) && Tails(s) && s.rings[0].tail == 0 && i < |s.threads| && DequeuePc(s.threads[i].pc)
    ensures !Ends(s, i, cmd)
  {
    BarrenHere(s, i);
    forall m: nat ensures !EndsAt(s, i, cmd, m) { SearchesOn(s, i, cmd, m); }
  }

  // The thread is at an enqueue, or idle and about to begin one.
  predicate EnqueueNext(pc: Pc, cmd: Cmd) {
    EnqueuePc(pc) || (pc.Idle? && cmd.Enqueue?)
  }

  lemma {:induction false} EndsIffBusy(s: Sys, i: nat, cmd: Cmd)
    requires Core(s) && Tails(s) && i < |s.threads| && !s.threads[i].pc.Idle?
    ensures Ends(s, i, cmd) <==> EnqueuePc(s.threads[i].pc) || s.rings[0].tail >= 1
  {
    if EnqueuePc(s.threads[i].pc) {
      EnqueueEnds(s, i, cmd);
    } else if s.rings[0].tail >= 1 {
      DequeueEnds(s, i, cmd);
    } else {
      NeverEnds(s, i, cmd);
    }
  }

  // An idle thread first begins its operation.
  lemma {:induction false} BeginsBusy(s: Sys, i: nat, cmd: Cmd)
    requires Core(s) && i < |s.threads| && s.threads[i].pc.Idle?
    ensures var s' := Turn(s, Event(i, cmd));
            && s'.rings == s.rings && !s'.threads[i].pc.Idle?
            && (EnqueuePc(s'.threads[i].pc) <==> cmd.Enqueue?)
  {
    CoreShape(s);
    assert Turn(s, Event(i, cmd)) == Begin(s, i, cmd);
  }

  // The operation that goes on after a turn ends exactly if it does after that turn.
  lemma {:induction false} EndsIffAfter(s: Sys, s': Sys, i: nat, cmd: Cmd)
    requires Core(s) && i < |s.threads| && s' == Turn(s, Event(i, cmd)) && !s'.threads[i].pc.Idle?
    ensures Ends(s, i, cmd) <==> Ends(s', i, cmd)
  {
    if Ends(s, i, cmd) {
      var m: nat :| EndsAt(s, i, cmd, m);
      SoloFirst(s, i, cmd, m - 1);
      assert Solo(s', i, cmd, 0) == s';
      assert EndsAt(s', i, cmd, m - 1);
    }
    if Ends(s', i, cmd) { EndsAfter(s, i, cmd); }
  }

  /** From every state that any schedule leads to, an operation whose thread runs alone from there
      on ends if and only if it is an enqueue or the first ring's tail is not 0. So an enqueue never
      waits for another thread, and a dequeue waits only while no enqueue has drawn a ticket. */
  lemma {:induction false} EndsIff(R: nat, n: nat, sched: seq<Event>, i: nat, cmd: Cmd)
    requires R > 0 && i < n
    ensures var s := Reach(R, n, sched);
            Ends(s, i, cmd) <==> EnqueueNext(s.threads[i].pc, cmd) || s.rings[0].tail >= 1
  {
    var s := Reach(R, n, sched);
    RunTails(R, n, sched);
    if s.threads[i].pc.Idle? {
      BeginsBusy(s, i, cmd);
      TailsTurn(s, Event(i, cmd));
      EndsIffAfter(s, Turn(s, Event(i, cmd)), i, cmd);
      EndsIffBusy(Turn(s, Event(i, cmd)), i, cmd);
    } else {
      EndsIffBusy(s, i, cmd);
    }
  }
}
