// The invariant of the transition system, and what a step must do to keep it.

module LcrqInvariant {
  import opened Options
  import opened LcrqRing
  import opened LcrqSystem

  // ------------------------------------------------------------- invariants

  // The enqueue ticket a thread may still deposit under.
  function HoldsEnqueue(pc: Pc): Option<(nat, nat)> {
    match pc
    case ELoadIdx(rq, t) => Some((rq, t))
    case ELoadVal(rq, t, _, _) => Some((rq, t))
    case ELoadHeadGuard(rq, t, _) => Some((rq, t))
    case ECas2(rq, t, _, _) => Some((rq, t))
    case _ => None
  }

  // The dequeue ticket of a thread inside the inner loop.
  function HoldsDequeue(pc: Pc): Option<(nat, nat)> {
    match pc
    case DLoadIdx(rq, h) => Some((rq, h))
    case DLoadVal(rq, h, _, _) => Some((rq, h))
    case DLoadTail(rq, h, _, _) => Some((rq, h))
    case DTake(rq, h, _, _) => Some((rq, h))
    case DMark(rq, h, _, _, _) => Some((rq, h))
    case DSkip(rq, h, _, _) => Some((rq, h))
    case _ => None
  }

  // Past the emptiness check of line 365.
  predicate PastCheck(pc: Pc) {
    FixPc(pc) || pc.DLoadNext? || pc.DSwingHead?
  }

  // Every enqueue ticket ever drawn on the ring has a dequeue ticket, and no more will be drawn.
  ghost predicate Drained(g: Ring) {
    g.closed && forall k :: k in g.log.enq ==> k < g.head
  }

  ghost predicate PrivateRing(R: nat, g: Ring) {
    && R == |g.cells| > 0
    && g == Ring(0, g.tail, false, None, g.cells, NO_LOG)
    && g.tail <= 1
    && (forall j: nat :: 0 < j < R ==> g.cells[j] == Cell(EMPTY, j, false))
    && g.cells[0].idx == 0
    && !g.cells[0].unsafe
  }

  ghost predicate ThreadInv(s: Sys, i: nat)
    requires i < |s.threads|
  {
    var th := s.threads[i];
    && s.R > 0
    && (th.nrq.Some? ==> PrivateRing(s.R, th.nrq.value))
    && PcInv(s, i, th)
  }

  // What a thread may rely on at each point of its program.
  ghost predicate PcInv(s: Sys, i: nat, th: Thread)
    requires s.R > 0
  {
    match th.pc
    case Idle => true
    case ELoadTail => th.arg != EMPTY
    case ELoadNext(rq) => Enqueuing(s, th, rq)
    case EHelpTail(rq, next) => Enqueuing(s, th, rq) && next == rq + 1 < |s.rings|
    case EFaaTail(rq) => Enqueuing(s, th, rq)
    case ELoadIdx(rq, t) => Enqueuing(s, th, rq) && OwnsEnqueue(s, i, th, rq, t)
    case ELoadVal(rq, t, idx, _) =>
      Enqueuing(s, th, rq) && OwnsEnqueue(s, i, th, rq, t) && idx <= CellOf(s, rq, t).idx
    case ELoadHeadGuard(rq, t, idx) =>
      Enqueuing(s, th, rq) && OwnsEnqueue(s, i, th, rq, t) && idx <= CellOf(s, rq, t).idx && idx <= t
    case ECas2(rq, t, idx, unsafe) =>
      && Enqueuing(s, th, rq) && OwnsEnqueue(s, i, th, rq, t) && idx <= CellOf(s, rq, t).idx && idx <= t
      && (unsafe ==> Overtaken(s.R, s.rings[rq], t, idx))
    case ELoadHead(rq, _) => Enqueuing(s, th, rq)
    case EClose(rq, _) => Enqueuing(s, th, rq)
    case EInitRing(rq) => Enqueuing(s, th, rq) && s.rings[rq].closed
    case ESolo(rq) => Enqueuing(s, th, rq) && s.rings[rq].closed && th.nrq.Some?
    case ELink(rq) =>
      && Enqueuing(s, th, rq) && s.rings[rq].closed && th.nrq.Some?
      && var g := th.nrq.value; |g.cells| == s.R && g.cells[0].val == th.arg && g.tail == 1
    case ESwingTail(rq, next) => Enqueuing(s, th, rq) && next == rq + 1 < |s.rings|
    case DLoadHead => true
    case DFaaHead(rq) => Dequeuing(s, rq)
    case DLoadIdx(rq, h) => OwnsDequeue(s, i, rq, h)
    case DLoadVal(rq, h, idx, _) => OwnsDequeue(s, i, rq, h) && idx <= CellOf(s, rq, h).idx
    case DLoadTail(rq, h, idx, _) => OwnsDequeue(s, i, rq, h) && idx <= h
    case DTake(rq, h, _, val) => OwnsDequeue(s, i, rq, h) && val != EMPTY
    case DMark(rq, h, idx, _, val) => OwnsDequeue(s, i, rq, h) && idx < h && val != EMPTY
    case DSkip(rq, h, idx, _) => OwnsDequeue(s, i, rq, h) && idx <= h
    case DCheckTail(rq, h) => GaveUp(s, i, rq, h)
    case FLoadTail(rq, h) => Checked(s, i, th, rq, h)
    case FLoadHead(rq, h, _, _) => Checked(s, i, th, rq, h)
    case FReload(rq, h, _, _, fh) => Checked(s, i, th, rq, h) && fh <= s.rings[rq].head
    case FCas(rq, h, ft, fh) => Checked(s, i, th, rq, h) && ft < fh <= s.rings[rq].head
    case DLoadNext(rq, h) => Checked(s, i, th, rq, h)
    case DSwingHead(rq, h, next) => Checked(s, i, th, rq, h) && next == rq + 1 < |s.rings|
  }

  ghost predicate Enqueuing(s: Sys, th: Thread, rq: nat) {
    && th.arg != EMPTY
    && rq <= s.tail
    && rq < |s.rings|
    && |s.rings[rq].cells| == s.R
  }

  // The thread drew enqueue ticket t of ring rq and has not deposited under it.
  ghost predicate OwnsEnqueue(s: Sys, i: nat, th: Thread, rq: nat, t: nat)
    requires rq < |s.rings|
  {
    var log := s.rings[rq].log;
    t in log.enq && log.enq[t] == Op(i, th.ops) && t !in log.dep
  }

  // If the cell an enqueuer read as (empty, idx, unsafe) was since given up by the
  // dequeuer of its ticket or of a later one, the cell has moved on for good.
  ghost predicate Overtaken(R: nat, g: Ring, t: nat, idx: nat)
    requires R == |g.cells| > 0
  {
    forall k :: k in g.log.gaveUp && Slot(k, R) == Slot(t, R) && k >= t ==> Rank(g.cells[Slot(t, R)]) > 3 * idx
  }

  ghost predicate Dequeuing(s: Sys, rq: nat) {
    && rq <= s.head
    && rq < |s.rings|
    && |s.rings[rq].cells| == s.R
  }

  // The thread drew dequeue ticket h of ring rq and is still inside the inner loop.
  ghost predicate OwnsDequeue(s: Sys, i: nat, rq: nat, h: nat) {
    Dequeuing(s, rq) && Pending(s.rings[rq], h) && s.rings[rq].log.deq[h] == i
  }

  // The thread drew dequeue ticket h of ring rq and left the inner loop without a value.
  ghost predicate GaveUp(s: Sys, i: nat, rq: nat, h: nat) {
    Dequeuing(s, rq) && h in s.rings[rq].log.gaveUp && h in s.rings[rq].log.deq && s.rings[rq].log.deq[h] == i
  }

  // The thread gave up ticket h and found tail at or below it.
  ghost predicate Checked(s: Sys, i: nat, th: Thread, rq: nat, h: nat) {
    && GaveUp(s, i, rq, h)
    && (th.sawClosed ==> Drained(s.rings[rq]))
  }

  // Rings are linked in publication order; a ring with a successor is closed.
  ghost predicate Chain(s: Sys) {
    && s.head < |s.rings|
    && s.tail < |s.rings| <= s.tail + 2
    && (forall r: nat :: r < |s.rings| ==>
          s.rings[r].next == if r + 1 < |s.rings| then Some(r + 1) else None)
    && (forall r: nat :: r < |s.rings| && s.rings[r].next.Some? ==> s.rings[r].closed)
  }

  ghost predicate RingInvs(s: Sys) {
    forall r: nat :: r < |s.rings| ==> RingInv(s.R, s.rings[r])
  }

  // A dequeue ticket that neither took a value nor was given up is at work.
  ghost predicate Claimed(s: Sys, r: nat, k: nat)
    requires r < |s.rings| && k in s.rings[r].log.deq
  {
    var i := s.rings[r].log.deq[k];
    i < |s.threads| && HoldsDequeue(s.threads[i].pc) == Some((r, k))
  }

  ghost predicate Claims(s: Sys) {
    forall r: nat, k: nat :: r < |s.rings| && Pending(s.rings[r], k) ==> Claimed(s, r, k)
  }

  ghost predicate Core(s: Sys) {
    && s.R > 0
    && Chain(s)
    && RingInvs(s)
    && (forall i: nat :: i < |s.threads| ==> ThreadInv(s, i))
    && Claims(s)
  }

  lemma {:induction false} CoreShape(s: Sys)
    requires Core(s)
    ensures Shape(s)
  {
    forall r: nat | r < |s.rings| ensures |s.rings[r].cells| == s.R { assert RingInv(s.R, s.rings[r]); }
    forall i: nat | i < |s.threads| ensures ThreadShape(s, s.threads[i]) {
      assert ThreadInv(s, i);
    }
  }

  // ------------------------------------------------------- one step, locally

  // What a step of thread tid may do to the rest of the system.
  ghost predicate Moves(s: Sys, s': Sys, tid: nat) {
    && s'.R == s.R
    && s.head <= s'.head
    && s.tail <= s'.tail
    && |s.rings| <= |s'.rings|
    && (forall r: nat :: r < |s.rings| ==> Evolves(s.rings[r], s'.rings[r], tid))
    && |s'.threads| == |s.threads|
    && (forall i: nat :: i < |s.threads| && i != tid ==> s'.threads[i] == s.threads[i])
  }

  // The tickets thread tid has drawn and not resolved are the one it is working on.
  ghost predicate OwnClaims(s: Sys, tid: nat)
    requires tid < |s.threads|
  {
    forall r: nat, k: nat :: r < |s.rings| && Pending(s.rings[r], k) && s.rings[r].log.deq[k] == tid ==>
      HoldsDequeue(s.threads[tid].pc) == Some((r, k))
  }

  // New rings come without dequeue tickets.
  ghost predicate NewRings(s: Sys, s': Sys) {
    forall r: nat :: |s.rings| <= r < |s'.rings| ==> s'.rings[r].log.deq == map[]
  }

  ghost predicate StepGoal(s: Sys, s': Sys, tid: nat) {
    && tid < |s.threads|
    && Moves(s, s', tid)
    && Chain(s')
    && RingInvs(s')
    && NewRings(s, s')
    && ThreadInv(s', tid)
    && OwnClaims(s', tid)
  }

  // A thread that does not move is unaffected by the step of another.
  lemma {:induction false} OthersKeep(s: Sys, s': Sys, tid: nat, i: nat)
    requires Core(s) && Moves(s, s', tid) && i < |s.threads| && i != tid
    ensures ThreadInv(s', i)
  {
    var th := s.threads[i];
    assert ThreadInv(s, i);
    if RingOf(th.pc).Some? {
      assert Evolves(s.rings[th.pc.rq], s'.rings[th.pc.rq], tid);
      PcKeeps(s, s', tid, i, th);
    }
  }

  lemma {:induction false} PcKeeps(s: Sys, s': Sys, tid: nat, i: nat, th: Thread)
    requires s.R == s'.R > 0 && i != tid && s.head <= s'.head && s.tail <= s'.tail && |s.rings| <= |s'.rings|
    requires PcInv(s, i, th) && RingOf(th.pc).Some? && Evolves(s.rings[th.pc.rq], s'.rings[th.pc.rq], tid)
    ensures PcInv(s', i, th)
  {
    var rq := th.pc.rq;
    match th.pc
    case ELoadVal(_, t, _, _) => CellKeeps(s, s', tid, rq, t);
    case ELoadHeadGuard(_, t, _) => CellKeeps(s, s', tid, rq, t);
    case ECas2(_, t, idx, unsafe) =>
      CellKeeps(s, s', tid, rq, t);
      if unsafe { OvertakenKeeps(s.R, s.rings[rq], s'.rings[rq], tid, t, idx); }
    case DLoadVal(_, h, _, _) => CellKeeps(s, s', tid, rq, h);
    case _ =>
  }

  lemma {:induction false} CellKeeps(s: Sys, s': Sys, tid: nat, rq: nat, k: nat)
    requires s.R == s'.R > 0 && rq < |s.rings| <= |s'.rings| && |s.rings[rq].cells| == s.R
    requires Evolves(s.rings[rq], s'.rings[rq], tid)
    ensures |s'.rings[rq].cells| == s.R && CellOf(s, rq, k).idx <= CellOf(s', rq, k).idx
  {
  }

  lemma {:induction false} OvertakenKeeps(R: nat, g: Ring, g': Ring, tid: nat, t: nat, idx: nat)
    requires R == |g.cells| > 0 && Evolves(g, g', tid)
    requires idx <= g.cells[Slot(t, R)].idx && idx <= t
    requires Overtaken(R, g, t, idx)
    ensures Overtaken(R, g', t, idx)
  {
    var c, c' := g.cells[Slot(t, R)], g'.cells[Slot(t, R)];
    forall k | k in g'.log.gaveUp && Slot(k, R) == Slot(t, R) && k >= t
      ensures Rank(c') > 3 * idx
    {
      if k !in g.log.gaveUp {
        assert AbandonedCell(c', k);
      }
    }
  }

  lemma {:induction false} Finish(s: Sys, s': Sys, tid: nat)
    requires Core(s) && StepGoal(s, s', tid)
    ensures Core(s')
  {
    forall i: nat | i < |s'.threads| ensures ThreadInv(s', i) {
      if i != tid { OthersKeep(s, s', tid, i); }
    }
    forall r: nat, k: nat | r < |s'.rings| && Pending(s'.rings[r], k) ensures Claimed(s', r, k) {
      if r < |s.rings| {
        assert Evolves(s.rings[r], s'.rings[r], tid);
        if s'.rings[r].log.deq[k] != tid {
          assert Pending(s.rings[r], k);
          assert Claimed(s, r, k);
        }
      }
    }
  }
}
