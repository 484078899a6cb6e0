// The queue as a transition system: any number of threads, any ring size, one
// shared access per step (snippets/lcrq.c).

module LcrqSystem {
  import opened Options
  import opened LcrqRing

  // Arguments of enqueue: anything but the empty mark.
  type Item = v: int | v != EMPTY witness 0

  datatype Cmd = Enqueue(arg: Item) | Dequeue

  // The next shared access of a thread. rq is the ring it works on, t and h its ticket.
  datatype Pc =
    | Idle
    // enqueue
    | ELoadTail
    | ELoadNext(rq: nat)
    | EHelpTail(rq: nat, next: nat)
    | EFaaTail(rq: nat)
    | ELoadIdx(rq: nat, t: nat)
    | ELoadVal(rq: nat, t: nat, idx: nat, unsafe: bool)
    | ELoadHeadGuard(rq: nat, t: nat, idx: nat)
    | ECas2(rq: nat, t: nat, idx: nat, unsafe: bool)
    | ELoadHead(rq: nat, t: nat)
    | EClose(rq: nat, t: nat)
    | EInitRing(rq: nat)
    | ESolo(rq: nat)
    | ELink(rq: nat)
    | ESwingTail(rq: nat, next: nat)
    // dequeue
    | DLoadHead
    | DFaaHead(rq: nat)
    | DLoadIdx(rq: nat, h: nat)
    | DLoadVal(rq: nat, h: nat, idx: nat, unsafe: bool)
    | DLoadTail(rq: nat, h: nat, idx: nat, unsafe: bool)
    | DTake(rq: nat, h: nat, unsafe: bool, val: int)
    | DMark(rq: nat, h: nat, idx: nat, unsafe: bool, val: int)
    | DSkip(rq: nat, h: nat, idx: nat, unsafe: bool)
    | DCheckTail(rq: nat, h: nat)
    // fixState, called by dequeue
    | FLoadTail(rq: nat, h: nat)
    | FLoadHead(rq: nat, h: nat, ft: nat, fclosed: bool)
    | FReload(rq: nat, h: nat, ft: nat, fclosed: bool, fh: nat)
    | FCas(rq: nat, h: nat, ft: nat, fh: nat)
    | DLoadNext(rq: nat, h: nat)
    | DSwingHead(rq: nat, h: nat, next: nat)

  // A thread with its locals. ops counts the operations it has begun; sawClosed
  // records whether its last emptiness check read a closed tail.
  datatype Thread = Thread(
    pc: Pc, ops: nat, nrq: Option<Ring>, arg: int, tries: nat,
    r: nat, ttTail: nat, ttClosed: bool, sawClosed: bool)

  datatype Answer = Answer(tid: nat, rq: nat, ticket: nat, val: int)

  // rings holds the published rings; answers lists the finished dequeues; early
  // records the rings that head left after a check that read an open tail.
  datatype Sys = Sys(
    R: nat, rings: seq<Ring>, head: nat, tail: nat, threads: seq<Thread>,
    answers: seq<Answer>, early: set<nat>)

  const SPIN_LIMIT := 200000
  const TAIL_PERIOD := 1024
  const GENTLE_TRIES := 10

  // ----------------------------------------------------------------- guards

  // tail_index(tail) - 1 <= h on unsigned words
  predicate NearEmpty(t: nat, h: nat) { 1 <= t <= h + 1 }

  // t - h >= RING_SIZE on unsigned words
  predicate LooksFull(R: nat, t: nat, h: nat) { h > t || t - h >= R }

  // ------------------------------------------------------------------ steps

  function IdleThread(): Thread {
    Thread(Idle, 0, None, 0, 0, 0, 0, false, false)
  }

  function Init(R: nat, n: nat): Sys {
    Sys(R, [InitRing(R)], 0, 0, seq(n, i => IdleThread()), [], {})
  }

  function Go(s: Sys, tid: nat, pc: Pc): Sys
    requires tid < |s.threads|
  {
    s.(threads := s.threads[tid := s.threads[tid].(pc := pc)])
  }

  function PutRing(s: Sys, rq: nat, g: Ring): Sys
    requires rq < |s.rings|
  {
    s.(rings := s.rings[rq := g])
  }

  function CellOf(s: Sys, rq: nat, k: nat): Cell
    requires rq < |s.rings| && s.R == |s.rings[rq].cells| > 0
  {
    s.rings[rq].cells[Slot(k, s.R)]
  }

  // The ring a thread is at work on, if any.
  function RingOf(pc: Pc): Option<nat> {
    match pc
    case Idle => None
    case ELoadTail => None
    case DLoadHead => None
    case _ => Some(pc.rq)
  }

  ghost predicate Shape(s: Sys) {
    && s.R > 0
    && s.head < |s.rings|
    && s.tail < |s.rings|
    && (forall r: nat :: r < |s.rings| ==> |s.rings[r].cells| == s.R)
    && (forall i: nat :: i < |s.threads| ==> ThreadShape(s, s.threads[i]))
  }

  ghost predicate ThreadShape(s: Sys, th: Thread) {
    && (RingOf(th.pc).Some? ==> th.pc.rq < |s.rings|)
    && (th.nrq.Some? ==> |th.nrq.value.cells| == s.R)
    && (th.pc.ESolo? || th.pc.ELink? ==> th.nrq.Some?)
  }

  function Step(s: Sys, tid: nat, cmd: Cmd): Sys
    requires Shape(s) && tid < |s.threads|
  {
    var pc := s.threads[tid].pc;
    if SelectPc(pc) then SelectStep(s, tid)
    else if DepositPc(pc) then DepositStep(s, tid)
    else if AppendPc(pc) then AppendStep(s, tid)
    else if TicketPc(pc) then TicketStep(s, tid)
    else if InnerPc(pc) then InnerStep(s, tid)
    else if FixPc(pc) then FixStep(s, tid)
    else Begin(s, tid, cmd)
  }

  // Enqueue, lines 247-262: find the last ring and draw a ticket.
  predicate SelectPc(pc: Pc) { pc.ELoadTail? || pc.ELoadNext? || pc.EHelpTail? || pc.EFaaTail? }

  // Enqueue, lines 282-301: deposit under the ticket, or close the ring.
  predicate DepositPc(pc: Pc) {
    pc.ELoadIdx? || pc.ELoadVal? || pc.ELoadHeadGuard? || pc.ECas2? || pc.ELoadHead? || pc.EClose?
  }

  // Enqueue, lines 265-279: append a ring that holds the value.
  predicate AppendPc(pc: Pc) { pc.EInitRing? || pc.ESolo? || pc.ELink? || pc.ESwingTail? }

  predicate EnqueuePc(pc: Pc) { SelectPc(pc) || DepositPc(pc) || AppendPc(pc) }

  // Dequeue outside the inner loop: draw a ticket (308-317), return empty or move on (365-372).
  predicate TicketPc(pc: Pc) { pc.DLoadHead? || pc.DFaaHead? || pc.DCheckTail? || pc.DLoadNext? || pc.DSwingHead? }

  // Dequeue, the inner loop of lines 326-363.
  predicate InnerPc(pc: Pc) {
    pc.DLoadIdx? || pc.DLoadVal? || pc.DLoadTail? || pc.DTake? || pc.DMark? || pc.DSkip?
  }

  // fixState, lines 196-208.
  predicate FixPc(pc: Pc) { pc.FLoadTail? || pc.FLoadHead? || pc.FReload? || pc.FCas? }

  function Begin(s: Sys, tid: nat, cmd: Cmd): Sys
    requires tid < |s.threads|
  {
    var th := s.threads[tid];
    match cmd
    case Enqueue(arg) =>
      s.(threads := s.threads[tid := th.(pc := ELoadTail, ops := th.ops + 1, arg := arg, tries := 0)])
    case Dequeue => s.(threads := s.threads[tid := th.(pc := DLoadHead, ops := th.ops + 1)])
  }

  function SelectStep(s: Sys, tid: nat): Sys
    requires Shape(s) && tid < |s.threads| && SelectPc(s.threads[tid].pc)
  {
    var th := s.threads[tid];
    assert ThreadShape(s, th);
    match th.pc
    case ELoadTail => Go(s, tid, ELoadNext(s.tail))
    case ELoadNext(rq) =>
      Go(s, tid, match s.rings[rq].next case Some(next) => EHelpTail(rq, next) case None => EFaaTail(rq))
    case EHelpTail(rq, next) => Go(if s.tail == rq then s.(tail := next) else s, tid, ELoadTail)
    case EFaaTail(rq) =>
      var g := s.rings[rq];
      Go(PutRing(s, rq, DrawEnqueue(g, Op(tid, th.ops))), tid, if g.closed then EInitRing(rq) else ELoadIdx(rq, g.tail))
  }

  function DepositStep(s: Sys, tid: nat): Sys
    requires Shape(s) && tid < |s.threads| && DepositPc(s.threads[tid].pc)
  {
    var th := s.threads[tid];
    assert ThreadShape(s, th);
    match th.pc
    case ELoadIdx(rq, t) =>
      var c := CellOf(s, rq, t);
      Go(s, tid, ELoadVal(rq, t, c.idx, c.unsafe))
    case ELoadVal(rq, t, idx, unsafe) =>
      var c := CellOf(s, rq, t);
      Go(s, tid, if c.val == EMPTY && idx <= t
                 then (if unsafe then ELoadHeadGuard(rq, t, idx) else ECas2(rq, t, idx, unsafe))
                 else ELoadHead(rq, t))
    case ELoadHeadGuard(rq, t, idx) =>
      Go(s, tid, if s.rings[rq].head < t then ECas2(rq, t, idx, true) else ELoadHead(rq, t))
    case ECas2(rq, t, idx, unsafe) =>
      if CellOf(s, rq, t) == Cell(EMPTY, idx, unsafe)
      then Go(PutRing(s, rq, Deposit(s.R, s.rings[rq], t, th.arg)), tid, Idle)
      else Go(s, tid, ELoadHead(rq, t))
    case ELoadHead(rq, t) =>
      if LooksFull(s.R, t, s.rings[rq].head)
      then s.(threads := s.threads[tid := th.(pc := EClose(rq, t), tries := th.tries + 1)])
      else Go(s, tid, ELoadTail)
    case EClose(rq, t) =>
      var g := s.rings[rq];
      if !g.closed && (th.tries < GENTLE_TRIES ==> g.tail == t + 1)
      then Go(PutRing(s, rq, g.(closed := true)), tid, EInitRing(rq))
      else Go(s, tid, ELoadTail)
  }

  function AppendStep(s: Sys, tid: nat): Sys
    requires Shape(s) && tid < |s.threads| && AppendPc(s.threads[tid].pc)
  {
    var th := s.threads[tid];
    assert ThreadShape(s, th);
    match th.pc
    case EInitRing(rq) =>
      s.(threads := s.threads[tid := th.(pc := ESolo(rq), nrq := if th.nrq.None? then Some(InitRing(s.R)) else th.nrq)])
    case ESolo(rq) =>
      var g := th.nrq.value;
      s.(threads := s.threads[tid := th.(pc := ELink(rq),
         nrq := Some(g.(tail := 1, cells := g.cells[0 := g.cells[0].(val := th.arg, idx := 0)])))])
    case ELink(rq) =>
      if s.rings[rq].next.None?
      then
        var g := th.nrq.value.(log := NO_LOG.(enq := map[0 := Op(tid, th.ops)], dep := map[0 := th.arg]));
        var n := |s.rings|;
        Go(s.(rings := s.rings[rq := s.rings[rq].(next := Some(n))] + [g]), tid, ESwingTail(rq, n))
      else Go(s, tid, ELoadTail)
    case ESwingTail(rq, next) =>
      s.(tail := if s.tail == rq then next else s.tail, threads := s.threads[tid := th.(pc := Idle, nrq := None)])
  }

  // Lines 349-361: what an empty cell makes a dequeuer do, given its last read of tail.
  function Decide(th: Thread, rq: nat, h: nat, idx: nat, unsafe: bool): Thread {
    if unsafe || NearEmpty(th.ttTail, h) || th.r > SPIN_LIMIT || th.ttClosed
    then th.(pc := DSkip(rq, h, idx, unsafe))
    else th.(pc := DLoadIdx(rq, h), r := th.r + 1)
  }

  function TicketStep(s: Sys, tid: nat): Sys
    requires Shape(s) && tid < |s.threads| && TicketPc(s.threads[tid].pc)
  {
    var th := s.threads[tid];
    assert ThreadShape(s, th);
    match th.pc
    case DLoadHead => Go(s, tid, DFaaHead(s.head))
    case DFaaHead(rq) =>
      var g := s.rings[rq];
      PutRing(s.(threads := s.threads[tid := th.(pc := DLoadIdx(rq, g.head), r := 0)]), rq, DrawDequeue(g, tid))
    case DCheckTail(rq, h) =>
      var g := s.rings[rq];
      if NearEmpty(g.tail, h)
      then s.(threads := s.threads[tid := th.(pc := FLoadTail(rq, h), sawClosed := g.closed)])
      else Go(s, tid, DLoadHead)
    case DLoadNext(rq, h) =>
      (match s.rings[rq].next
       case None => Go(s.(answers := s.answers + [Answer(tid, rq, h, EMPTY)]), tid, Idle)
       case Some(next) => Go(s, tid, DSwingHead(rq, h, next)))
    case DSwingHead(rq, h, next) =>
      Go(if s.head == rq
         then s.(head := next, early := if th.sawClosed then s.early else s.early + {rq})
         else s, tid, DLoadHead)
  }

  function InnerStep(s: Sys, tid: nat): Sys
    requires Shape(s) && tid < |s.threads| && InnerPc(s.threads[tid].pc)
  {
    var th := s.threads[tid];
    assert ThreadShape(s, th);
    match th.pc
    case DLoadIdx(rq, h) =>
      var c := CellOf(s, rq, h);
      Go(s, tid, DLoadVal(rq, h, c.idx, c.unsafe))
    case DLoadVal(rq, h, idx, unsafe) =>
      var c := CellOf(s, rq, h);
      if idx > h then Go(PutRing(s, rq, Leave(s.rings[rq], h)), tid, DCheckTail(rq, h))
      else if c.val != EMPTY then
        Go(s, tid, if idx == h then DTake(rq, h, unsafe, c.val) else DMark(rq, h, idx, unsafe, c.val))
      else if th.r % TAIL_PERIOD == 0 then Go(s, tid, DLoadTail(rq, h, idx, unsafe))
      else s.(threads := s.threads[tid := Decide(th, rq, h, idx, unsafe)])
    case DLoadTail(rq, h, idx, unsafe) =>
      var g := s.rings[rq];
      s.(threads := s.threads[tid := Decide(th.(ttTail := g.tail, ttClosed := g.closed), rq, h, idx, unsafe)])
    case DTake(rq, h, unsafe, val) =>
      if CellOf(s, rq, h) == Cell(val, h, unsafe)
      then Go(PutRing(s.(answers := s.answers + [Answer(tid, rq, h, val)]), rq, Take(s.R, s.rings[rq], h)), tid, Idle)
      else Go(s, tid, DLoadIdx(rq, h))
    case DMark(rq, h, idx, unsafe, val) =>
      if CellOf(s, rq, h) == Cell(val, idx, unsafe)
      then Go(PutRing(s, rq, MarkUnsafe(s.R, s.rings[rq], h)), tid, DCheckTail(rq, h))
      else Go(s, tid, DLoadIdx(rq, h))
    case DSkip(rq, h, idx, unsafe) =>
      if CellOf(s, rq, h) == Cell(EMPTY, idx, unsafe)
      then Go(PutRing(s, rq, Advance(s.R, s.rings[rq], h)), tid, DCheckTail(rq, h))
      else Go(s, tid, DLoadIdx(rq, h))
  }

  function FixStep(s: Sys, tid: nat): Sys
    requires Shape(s) && tid < |s.threads| && FixPc(s.threads[tid].pc)
  {
    var th := s.threads[tid];
    assert ThreadShape(s, th);
    var g := s.rings[th.pc.rq];
    match th.pc
    case FLoadTail(rq, h) => Go(s, tid, FLoadHead(rq, h, g.tail, g.closed))
    case FLoadHead(rq, h, ft, fclosed) => Go(s, tid, FReload(rq, h, ft, fclosed, g.head))
    case FReload(rq, h, ft, fclosed, fh) =>
      Go(s, tid, if g.tail != ft || g.closed != fclosed then FLoadTail(rq, h)
                 else if !fclosed && fh > ft then FCas(rq, h, ft, fh)
                 else DLoadNext(rq, h))
    case FCas(rq, h, ft, fh) =>
      if g.tail == ft && !g.closed
      then Go(PutRing(s, rq, g.(tail := fh)), tid, DLoadNext(rq, h))
      else Go(s, tid, FLoadTail(rq, h))
  }
}
