// A queue on which no enqueue has begun: its dequeues never return, not even EMPTY.

module LcrqNoEnqueue {
  import opened Options
  import opened LcrqRing
  import opened LcrqSystem
  import opened LcrqInvariant
  import opened LcrqPreserve
  import opened LcrqHistory
  import opened LcrqTheorems
  import opened LcrqSolo
  import opened LcrqSequential

  // Where a dequeue can be while tail is 0, which the emptiness check takes for a huge number.
  predicate Searching(pc: Pc) {
    match pc
    case DLoadHead => true
    case DFaaHead(rq) => rq == 0
    case DLoadIdx(rq, _) => rq == 0
    case DLoadVal(rq, _, _, _) => rq == 0
    case DLoadTail(rq, _, _, _) => rq == 0
    case DTake(rq, _, _, val) => rq == 0 && val != EMPTY
    case DMark(rq, _, _, _, val) => rq == 0 && val != EMPTY
    case DSkip(rq, _, _, _) => rq == 0
    case DCheckTail(rq, _) => rq == 0
    case _ => false
  }

  // The first ring, with tail 0 and no values.
  ghost predicate Untouched(R: nat, g: Ring) {
    && R == |g.cells| > 0 && g.tail == 0 && !g.closed && g.next.None?
    && (forall j: nat :: j < R ==> g.cells[j].val == EMPTY)
  }

  // No enqueue has drawn a ticket, and no dequeue has moved tail.
  ghost predicate BarrenRing(s: Sys) {
    s.head == s.tail == 0 && |s.rings| == 1 && Untouched(s.R, s.rings[0])
  }

  ghost predicate Barren(s: Sys) {
    && BarrenRing(s)
    && s.answers == []
    && (forall i: nat :: i < |s.threads| ==> Unanswered(s.threads[i]))
  }

  predicate Unanswered(th: Thread) {
    if th.pc.Idle? then th.ops == 0 else th.ops > 0 && Searching(th.pc)
  }

  // What a step of a dequeuer does to a barren queue: it stays as it is, and the dequeuer at work.
  ghost predicate BarrenStep(s: Sys, s': Sys, tid: nat) {
    && tid < |s.threads|
    && BarrenRing(s') && s'.answers == s.answers
    && |s'.threads| == |s.threads| && s'.threads == s.threads[tid := s'.threads[tid]]
    && s'.threads[tid].ops >= s.threads[tid].ops && Searching(s'.threads[tid].pc)
  }

  // A dequeuer at work on a barren queue.
  ghost predicate SearchingAt(s: Sys, tid: nat) {
    Shape(s) && BarrenRing(s) && tid < |s.threads| && Searching(s.threads[tid].pc)
  }

  lemma {:induction false} BarrenTicket(s: Sys, tid: nat)
    requires SearchingAt(s, tid) && TicketPc(s.threads[tid].pc)
    ensures BarrenStep(s, TicketStep(s, tid), tid)
  {
  }

  lemma {:induction false} BarrenSkip(s: Sys, tid: nat)
    requires SearchingAt(s, tid) && s.threads[tid].pc.DSkip?
    ensures BarrenStep(s, InnerStep(s, tid), tid)
  {
  }

  // A CAS2 that expects a value fails.
  lemma {:induction false} BarrenFails(s: Sys, tid: nat)
    requires SearchingAt(s, tid) && (s.threads[tid].pc.DTake? || s.threads[tid].pc.DMark?)
    ensures BarrenStep(s, InnerStep(s, tid), tid)
  {
    var pc := s.threads[tid].pc;
    assert CellOf(s, 0, pc.h).val == EMPTY;
  }

  lemma {:induction false} BarrenReadIdx(s: Sys, tid: nat)
    requires SearchingAt(s, tid) && s.threads[tid].pc.DLoadIdx?
    ensures BarrenStep(s, InnerStep(s, tid), tid)
  {
  }

  // A ticket whose cell has moved past it is given up.
  lemma {:induction false} BarrenLeave(s: Sys, tid: nat)
    requires SearchingAt(s, tid) && s.threads[tid].pc.DLoadVal? && s.threads[tid].pc.idx > s.threads[tid].pc.h
    ensures BarrenStep(s, InnerStep(s, tid), tid)
  {
  }

  lemma {:induction false} BarrenReadVal(s: Sys, tid: nat)
    requires SearchingAt(s, tid) && s.threads[tid].pc.DLoadVal? && s.threads[tid].pc.idx <= s.threads[tid].pc.h
    ensures BarrenStep(s, InnerStep(s, tid), tid)
  {
    var pc := s.threads[tid].pc;
    assert CellOf(s, 0, pc.h).val == EMPTY;
    assert InnerStep(s, tid) == s.(threads := s.threads[tid := InnerStep(s, tid).threads[tid]]);
  }

  lemma {:induction false} BarrenReadTail(s: Sys, tid: nat)
    requires SearchingAt(s, tid) && s.threads[tid].pc.DLoadTail?
    ensures BarrenStep(s, InnerStep(s, tid), tid)
  {
  }

  lemma {:induction false} BarrenInner(s: Sys, tid: nat)
    requires SearchingAt(s, tid) && InnerPc(s.threads[tid].pc)
    ensures BarrenStep(s, InnerStep(s, tid), tid)
  {
    var pc := s.threads[tid].pc;
    if pc.DSkip? {
      BarrenSkip(s, tid);
    } else if pc.DLoadIdx? {
      BarrenReadIdx(s, tid);
    } else if pc.DLoadVal? && pc.idx > pc.h {
      BarrenLeave(s, tid);
    } else if pc.DLoadVal? {
      BarrenReadVal(s, tid);
    } else if pc.DLoadTail? {
      BarrenReadTail(s, tid);
    } else {
      BarrenFails(s, tid);
    }
  }

  lemma {:induction false} BarrenSearch(s: Sys, tid: nat, cmd: Cmd)
    requires SearchingAt(s, tid)
    ensures BarrenStep(s, Step(s, tid, cmd), tid)
  {
    if TicketPc(s.threads[tid].pc) {
      BarrenTicket(s, tid);
    } else {
      BarrenInner(s, tid);
    }
  }

  lemma {:induction false} BarrenKept(s: Sys, tid: nat)
    requires Shape(s) && Barren(s) && tid < |s.threads|
    ensures Barren(Step(s, tid, Dequeue))
  {
    assert Unanswered(s.threads[tid]);
    if s.threads[tid].pc.Idle? {
      assert Step(s, tid, Dequeue) == Begin(s, tid, Dequeue);
    } else {
      BarrenSearch(s, tid, Dequeue);
    }
  }

  lemma {:induction false} BarrenRun(R: nat, n: nat, sched: seq<Event>)
    requires R > 0 && forall j: nat :: j < |sched| ==> sched[j].cmd == Dequeue
    ensures Barren(Reach(R, n, sched))
    decreases |sched|
  {
    InitOk(R, n);
    if sched == [] {
      assert Reach(R, n, sched) == Init(R, n);
    } else {
      var m := |sched| - 1;
      BarrenRun(R, n, sched[..m]);
      var s := Reach(R, n, sched[..m]);
      if sched[m].tid < |s.threads| {
        CoreShape(s);
        BarrenKept(s, sched[m].tid);
      }
    }
  }

  /** In every interleaving of dequeues on a fresh queue, no dequeue ever returns: the emptiness
      check reads tail 0, less one, as the largest word. */
  lemma {:induction false} NothingReturns(R: nat, n: nat, sched: seq<Event>, i: nat)
    requires R > 0 && i < n && forall j: nat :: j < |sched| ==> sched[j].cmd == Dequeue
    ensures var s := Reach(R, n, sched);
            s.answers == [] && (s.threads[i].pc.Idle? ==> s.threads[i].ops == 0)
  {
    BarrenRun(R, n, sched);
    assert Unanswered(Reach(R, n, sched).threads[i]);
  }

  lemma {:induction false} NeverCompletes(R: nat, n: nat, i: nat, m: nat)
    requires R > 0
    ensures Core(Init(R, n)) && !Completes(Init(R, n), i, Dequeue, m)
  {
    InitOk(R, n);
    if i < n { NothingReturns(R, n, Alone(i, Dequeue, m), i); }
  }

  lemma {:induction false} NoSerial(R: nat, n: nat, ops: seq<Event>, s: Sys)
    requires R > 0 && ops != [] && ops[0].cmd.Dequeue?
    ensures Core(Init(R, n)) && !Serial(Init(R, n), ops, s)
  {
    InitOk(R, n);
    forall m: nat ensures !Completes(Init(R, n), ops[0].tid, Dequeue, m) {
      NeverCompletes(R, n, ops[0].tid, m);
    }
  }

  /** Exactly which lists of operations can be run one at a time from a fresh queue: the empty
      one and those that start with an enqueue. */
  lemma {:induction false} SerialIff(R: nat, n: nat, ops: seq<Event>)
    requires R > 0 && ThreadsExist(ops, n)
    ensures Core(Init(R, n))
    ensures (exists s: Sys :: Serial(Init(R, n), ops, s)) <==> (ops == [] || ops[0].cmd.Enqueue?)
  {
    InitOk(R, n);
    if ops == [] || ops[0].cmd.Enqueue? {
      SequentialFifo(R, n, ops);
    } else {
      forall s: Sys | Serial(Init(R, n), ops, s) ensures false { NoSerial(R, n, ops, s); }
    }
  }
}
