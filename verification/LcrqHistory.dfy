// Runs of the system, and what they record: deposits, answers and swings of head.

module LcrqHistory {
  import opened Options
  import opened LcrqRing
  import opened LcrqSystem
  import opened LcrqInvariant
  import opened LcrqPreserve

  // ------------------------------------------------------------------- runs

  // One turn of the scheduler. cmd matters only to a thread that is idle.
  datatype Event = Event(tid: nat, cmd: Cmd)

  ghost function Turn(s: Sys, e: Event): (s': Sys)
    requires Core(s)
    ensures Core(s') && |s'.threads| == |s.threads|
  {
    if e.tid < |s.threads| then StepOk(s, e.tid, e.cmd); Step(s, e.tid, e.cmd) else s
  }

  ghost function Run(s: Sys, sched: seq<Event>): (s': Sys)
    requires Core(s)
    ensures Core(s') && |s'.threads| == |s.threads|
  {
    if sched == [] then s else Turn(Run(s, sched[..|sched| - 1]), sched[|sched| - 1])
  }

  lemma {:induction false} InitOk(R: nat, n: nat)
    requires R > 0
    ensures Core(Init(R, n))
  {
    var s := Init(R, n);
    var g := InitRing(R);
    forall j: nat | j < R ensures Slot(g.cells[j].idx, R) == j { SlotSelf(j, R); }
    assert RingInv(R, g);
    assert forall i: nat :: i < n ==> ThreadInv(s, i);
  }

  lemma SlotSelf(j: nat, R: nat)
    requires j < R
    ensures Slot(j, R) == j
  {
  }

  lemma {:induction false} RunNext(s: Sys, sched: seq<Event>, e: Event)
    requires Core(s)
    ensures Run(s, sched + [e]) == Turn(Run(s, sched), e)
  {
    var more := sched + [e];
    assert more[..|more| - 1] == sched && more[|more| - 1] == e;
  }

  lemma {:induction false} RunSplit(s: Sys, a: seq<Event>, b: seq<Event>)
    requires Core(s)
    ensures Run(s, a + b) == Run(Run(s, a), b)
    decreases |b|
  {
    if b == [] {
      assert a + b == a;
    } else {
      var m := |b| - 1;
      assert a + b == (a + b[..m]) + [b[m]] && b == b[..m] + [b[m]];
      RunSplit(s, a, b[..m]);
      RunNext(s, a + b[..m], b[m]);
      RunNext(Run(s, a), b[..m], b[m]);
    }
  }

  // Everything only ever grows.
  ghost predicate Grew(s: Sys, s': Sys) {
    && s'.R == s.R
    && s.head <= s'.head
    && s.tail <= s'.tail
    && |s.rings| <= |s'.rings|
    && |s'.threads| == |s.threads|
    && (forall r: nat :: r < |s.rings| ==> Grows(s.rings[r], s'.rings[r]))
  }

  lemma {:induction false} GrewTransitive(s0: Sys, s1: Sys, s2: Sys)
    requires Grew(s0, s1) && Grew(s1, s2)
    ensures Grew(s0, s2)
  {
    forall r: nat | r < |s0.rings| ensures Grows(s0.rings[r], s2.rings[r]) {
      GrowsTransitive(s0.rings[r], s1.rings[r], s2.rings[r]);
    }
  }

  lemma {:induction false} TurnGrows(s: Sys, e: Event)
    requires Core(s)
    ensures Grew(s, Turn(s, e))
  {
    if e.tid < |s.threads| { StepOk(s, e.tid, e.cmd); }
  }

  lemma {:induction false} RunGrows(s: Sys, sched: seq<Event>)
    requires Core(s)
    ensures Grew(s, Run(s, sched))
    decreases |sched|
  {
    if sched != [] {
      var m := |sched| - 1;
      RunGrows(s, sched[..m]);
      TurnGrows(Run(s, sched[..m]), sched[m]);
      GrewTransitive(s, Run(s, sched[..m]), Run(s, sched));
    }
  }

  // --------------------------------------------------------------- deposits

  // An enqueue in progress whose value is not in the queue yet.
  predicate Undeposited(pc: Pc) {
    EnqueuePc(pc) && !pc.ESwingTail?
  }

  // The (ring, ticket) under which the next step of the thread deposits, if it does.
  function Deposits(s: Sys, tid: nat): Option<(nat, nat)>
    requires Shape(s) && tid < |s.threads|
  {
    var pc := s.threads[tid].pc;
    assert ThreadShape(s, s.threads[tid]);
    match pc
    case ECas2(rq, t, idx, unsafe) => if CellOf(s, rq, t) == Cell(EMPTY, idx, unsafe) then Some((rq, t)) else None
    case ELink(rq) => if s.rings[rq].next.None? then Some((|s.rings|, 0)) else None
    case _ => None
  }

  // The operation that drew enqueue ticket k of ring r.
  function OpOf(s: Sys, r: nat, k: nat): Op
    requires r < |s.rings| && k in s.rings[r].log.enq
  {
    s.rings[r].log.enq[k]
  }

  predicate Deposited(s: Sys, r: nat, k: nat) {
    r < |s.rings| && k in s.rings[r].log.dep && k in s.rings[r].log.enq
  }

  // Ops(s): tickets belong to operations already begun, and an operation whose
  // value is still outside the queue has no deposit anywhere.
  ghost predicate Ops(s: Sys) {
    && (forall r: nat, k: nat :: r < |s.rings| && k in s.rings[r].log.enq ==>
          var op := OpOf(s, r, k); op.tid < |s.threads| && op.n <= s.threads[op.tid].ops)
    && (forall r: nat, k: nat :: Deposited(s, r, k) ==>
          var op := OpOf(s, r, k);
          op.tid < |s.threads| && (op.n == s.threads[op.tid].ops ==> !Undeposited(s.threads[op.tid].pc)))
  }

  ghost predicate OneDepositEach(s: Sys) {
    forall r: nat, k: nat, r': nat, k': nat ::
      Deposited(s, r, k) && Deposited(s, r', k') && OpOf(s, r, k) == OpOf(s, r', k') ==> r == r' && k == k'
  }

  // How one step changes the books on enqueue tickets and deposits.
  ghost predicate Books(s: Sys, s': Sys, tid: nat)
    requires Shape(s) && tid < |s.threads|
  {
    var d := Deposits(s, tid);
    var th := s.threads[tid];
    && |s'.threads| == |s.threads|
    && |s.rings| <= |s'.rings|
    && (forall i: nat :: i < |s.threads| && i != tid ==> s'.threads[i] == s.threads[i])
    && th.ops <= s'.threads[tid].ops
    && (s'.threads[tid].ops == th.ops && !Undeposited(th.pc) ==> !Undeposited(s'.threads[tid].pc))
    && (d.Some? ==>
          && d.value.0 < |s'.rings| && s'.threads[tid].ops == th.ops
          && Undeposited(th.pc) && !Undeposited(s'.threads[tid].pc))
    && (forall r: nat :: r < |s'.rings| ==> BooksOfRing(s, s', tid, r))
  }

  ghost predicate BooksOfRing(s: Sys, s': Sys, tid: nat, r: nat)
    requires Shape(s) && tid < |s.threads| && r < |s'.rings|
  {
    var d := Deposits(s, tid);
    var log' := s'.rings[r].log;
    var log := if r < |s.rings| then s.rings[r].log else NO_LOG;
    && (forall k :: k in log'.enq && k !in log.enq ==> log'.enq[k] == Op(tid, s.threads[tid].ops))
    && (forall k :: k in log.enq ==> k in log'.enq && log'.enq[k] == log.enq[k])
    && (forall k: nat :: k in log'.dep <==> k in log.dep || d == Some((r, k)))
    && (forall k: nat :: d == Some((r, k)) ==> k in log'.enq && log'.enq[k] == Op(tid, s.threads[tid].ops))
  }

  lemma {:induction false} SelectBooks(s: Sys, tid: nat)
    requires Local(s, tid) && SelectPc(s.threads[tid].pc)
    ensures Books(s, SelectStep(s, tid), tid)
  {
    var s' := SelectStep(s, tid);
    forall r: nat | r < |s'.rings| ensures BooksOfRing(s, s', tid, r) {
    }
  }

  lemma {:induction false} DepositBooks(s: Sys, tid: nat)
    requires Local(s, tid) && DepositPc(s.threads[tid].pc)
    ensures Books(s, DepositStep(s, tid), tid)
  {
    var s' := DepositStep(s, tid);
    forall r: nat | r < |s'.rings| ensures BooksOfRing(s, s', tid, r) {
    }
  }

  lemma {:induction false} AppendBooks(s: Sys, tid: nat)
    requires Local(s, tid) && AppendPc(s.threads[tid].pc)
    ensures Books(s, AppendStep(s, tid), tid)
  {
    var s' := AppendStep(s, tid);
    forall r: nat | r < |s'.rings| ensures BooksOfRing(s, s', tid, r) {
    }
  }

  // A step that leaves the enqueue tickets and the deposits alone.
  lemma {:induction false} SameBooks(s: Sys, s': Sys, tid: nat)
    requires Shape(s) && tid < |s.threads| == |s'.threads| && |s'.rings| == |s.rings|
    requires Deposits(s, tid).None? && s'.threads[tid].ops == s.threads[tid].ops && !Undeposited(s'.threads[tid].pc)
    requires forall i: nat :: i < |s.threads| && i != tid ==> s'.threads[i] == s.threads[i]
    requires forall r: nat :: r < |s.rings| ==>
               s'.rings[r].log.enq == s.rings[r].log.enq && s'.rings[r].log.dep == s.rings[r].log.dep
    ensures Books(s, s', tid)
  {
    forall r: nat | r < |s'.rings| ensures BooksOfRing(s, s', tid, r) {
    }
  }

  lemma {:induction false} TicketKeepsBooks(s: Sys, tid: nat)
    requires Quick(s, tid) && TicketPc(s.threads[tid].pc)
    ensures var s' := TicketStep(s, tid);
            && |s'.rings| == |s.rings|
            && |s'.threads| == |s.threads|
            && s'.threads[tid].ops == s.threads[tid].ops
            && !Undeposited(s'.threads[tid].pc)
            && (forall i: nat :: i < |s.threads| && i != tid ==> s'.threads[i] == s.threads[i])
            && (forall r: nat :: r < |s.rings| ==>
                  s'.rings[r].log.enq == s.rings[r].log.enq && s'.rings[r].log.dep == s.rings[r].log.dep)
  {
  }

  lemma {:induction false} TicketBooks(s: Sys, tid: nat)
    requires Quick(s, tid) && TicketPc(s.threads[tid].pc)
    ensures Books(s, TicketStep(s, tid), tid)
  {
    TicketKeepsBooks(s, tid);
    SameBooks(s, TicketStep(s, tid), tid);
  }

  lemma {:induction false} InnerKeepsBooks(s: Sys, tid: nat)
    requires Local(s, tid) && InnerPc(s.threads[tid].pc)
    ensures var s' := InnerStep(s, tid);
            && |s'.rings| == |s.rings|
            && (forall r: nat :: r < |s.rings| ==>
                  s'.rings[r].log.enq == s.rings[r].log.enq && s'.rings[r].log.dep == s.rings[r].log.dep)
  {
  }

  lemma {:induction false} InnerKeepsOps(s: Sys, tid: nat)
    requires Quick(s, tid) && InnerPc(s.threads[tid].pc)
    ensures var s' := InnerStep(s, tid);
            && |s'.threads| == |s.threads|
            && s'.threads[tid].ops == s.threads[tid].ops
            && !Undeposited(s'.threads[tid].pc)
            && (forall i: nat :: i < |s.threads| && i != tid ==> s'.threads[i] == s.threads[i])
  {
  }

  lemma {:induction false} InnerBooks(s: Sys, tid: nat)
    requires Local(s, tid) && InnerPc(s.threads[tid].pc)
    ensures Books(s, InnerStep(s, tid), tid)
  {
    InnerKeepsBooks(s, tid);
    InnerKeepsOps(s, tid);
    SameBooks(s, InnerStep(s, tid), tid);
  }

  lemma {:induction false} FixBooks(s: Sys, tid: nat)
    requires Local(s, tid) && FixPc(s.threads[tid].pc)
    ensures Books(s, FixStep(s, tid), tid)
  {
    var s' := FixStep(s, tid);
    forall r: nat | r < |s'.rings| ensures BooksOfRing(s, s', tid, r) {
    }
  }

  lemma {:induction false} StepBooks(s: Sys, tid: nat, cmd: Cmd)
    requires Local(s, tid)
    ensures Books(s, Step(s, tid, cmd), tid)
  {
    var pc := s.threads[tid].pc;
    if SelectPc(pc) {
      SelectBooks(s, tid);
    } else if DepositPc(pc) {
      DepositBooks(s, tid);
    } else if AppendPc(pc) {
      AppendBooks(s, tid);
    } else if TicketPc(pc) {
      TicketBooks(s, tid);
    } else if InnerPc(pc) {
      InnerBooks(s, tid);
    } else if FixPc(pc) {
      FixBooks(s, tid);
    } else {
      var s' := Begin(s, tid, cmd);
      assert forall r: nat :: r < |s'.rings| ==> BooksOfRing(s, s', tid, r);
    }
  }

  lemma {:induction false} OpsKept(s: Sys, s': Sys, tid: nat)
    requires Core(s) && Shape(s) && tid < |s.threads| && Books(s, s', tid) && Ops(s)
    ensures Ops(s')
  {
    forall r: nat, k: nat | r < |s'.rings| && k in s'.rings[r].log.enq
      ensures var op := OpOf(s', r, k); op.tid < |s'.threads| && op.n <= s'.threads[op.tid].ops
    {
      assert BooksOfRing(s, s', tid, r);
      if r < |s.rings| && k in s.rings[r].log.enq { assert OpOf(s, r, k) == OpOf(s', r, k); }
    }
    forall r: nat, k: nat | Deposited(s', r, k)
      ensures var op := OpOf(s', r, k);
              op.tid < |s'.threads| && (op.n == s'.threads[op.tid].ops ==> !Undeposited(s'.threads[op.tid].pc))
    {
      assert BooksOfRing(s, s', tid, r);
      if r < |s.rings| && k in s.rings[r].log.dep {
        assert RingInv(s.R, s.rings[r]);
        assert Deposited(s, r, k);
      }
    }
  }

  lemma {:induction false} OneDepositKept(s: Sys, s': Sys, tid: nat)
    requires Core(s) && Shape(s) && tid < |s.threads| && Books(s, s', tid) && Ops(s) && OneDepositEach(s)
    ensures OneDepositEach(s')
  {
    var op := Op(tid, s.threads[tid].ops);
    forall r: nat, k: nat | Deposited(s', r, k)
      ensures Deposits(s, tid) == Some((r, k)) || (Deposited(s, r, k) && OpOf(s, r, k) == OpOf(s', r, k))
      ensures Deposits(s, tid) == Some((r, k)) ==> OpOf(s', r, k) == op
    {
      assert BooksOfRing(s, s', tid, r);
      if r < |s.rings| { assert RingInv(s.R, s.rings[r]); }
    }
    if Deposits(s, tid).Some? {
      // the operation that deposits now had deposited nothing before
      assert forall r: nat, k: nat :: Deposited(s, r, k) ==> OpOf(s, r, k) != op;
    }
  }

  // ---------------------------------------------------------------- answers

  // The taken tickets of a ring, none for a ring yet to come.
  function TakenOf(s: Sys, r: nat): set<nat> {
    if r < |s.rings| then s.rings[r].log.taken else {}
  }

  // A dequeue that returns a value returns the one deposited under its own ticket;
  // one that returns EMPTY gave its ticket up.
  ghost predicate Justified(s: Sys, a: Answer) {
    && a.rq < |s.rings|
    && var log := s.rings[a.rq].log;
    && a.ticket in log.deq && log.deq[a.ticket] == a.tid
    && (if a.val == EMPTY then a.ticket in log.gaveUp
        else a.ticket in log.taken && a.ticket in log.dep && log.dep[a.ticket] == a.val)
  }

  predicate Answered(s: Sys, r: nat, k: nat, i: nat) {
    i < |s.answers| && s.answers[i].rq == r && s.answers[i].ticket == k && s.answers[i].val != EMPTY
  }

  ghost predicate Answers(s: Sys) {
    && (forall i: nat :: i < |s.answers| ==> Justified(s, s.answers[i]))
    && (forall i: nat, j: nat, r: nat, k: nat :: Answered(s, r, k, i) && Answered(s, r, k, j) ==> i == j)
    && (forall r: nat, k: nat :: k in TakenOf(s, r) ==> exists i: nat :: Answered(s, r, k, i))
  }

  // How one step changes the answers and the taken tickets.
  ghost predicate AnswerBooks(s: Sys, s': Sys, tid: nat) {
    || (s'.answers == s.answers && forall r: nat :: TakenOf(s', r) == TakenOf(s, r))
    || (exists a: Answer :: NewAnswer(s, s', tid, a))
  }

  ghost predicate NewAnswer(s: Sys, s': Sys, tid: nat, a: Answer) {
    && a.tid == tid
    && s'.answers == s.answers + [a]
    && Justified(s', a)
    && (forall r: nat :: TakenOf(s', r) == TakenOf(s, r) + if r == a.rq && a.val != EMPTY then {a.ticket} else {})
    && (a.val != EMPTY ==> a.ticket !in TakenOf(s, a.rq))
  }

  lemma {:induction false} InnerKeepsTaken(s: Sys, tid: nat)
    requires Local(s, tid) && InnerPc(s.threads[tid].pc)
    requires !s.threads[tid].pc.DTake?
    ensures var s' := InnerStep(s, tid);
            s'.answers == s.answers && forall r: nat :: TakenOf(s', r) == TakenOf(s, r)
  {
  }

  lemma {:induction false} TakeAnswers(s: Sys, tid: nat)
    requires Local(s, tid) && s.threads[tid].pc.DTake?
    ensures AnswerBooks(s, InnerStep(s, tid), tid)
  {
    var pc := s.threads[tid].pc;
    var s' := InnerStep(s, tid);
    var g := s.rings[pc.rq];
    if CellOf(s, pc.rq, pc.h) == Expected(pc) {
      TakeOk(s.R, g, pc.h);
      assert NewAnswer(s, s', tid, Answer(tid, pc.rq, pc.h, pc.val));
    }
  }

  lemma {:induction false} TicketAnswers(s: Sys, tid: nat)
    requires Local(s, tid) && TicketPc(s.threads[tid].pc)
    ensures AnswerBooks(s, TicketStep(s, tid), tid)
  {
    var pc := s.threads[tid].pc;
    var s' := TicketStep(s, tid);
    assert forall r: nat :: TakenOf(s', r) == TakenOf(s, r);
    if pc.DLoadNext? && s.rings[pc.rq].next.None? {
      assert NewAnswer(s, s', tid, Answer(tid, pc.rq, pc.h, EMPTY));
    }
  }

  lemma {:induction false} SelectAnswers(s: Sys, tid: nat)
    requires Local(s, tid) && SelectPc(s.threads[tid].pc)
    ensures AnswerBooks(s, SelectStep(s, tid), tid)
  {
  }

  lemma {:induction false} DepositAnswers(s: Sys, tid: nat)
    requires Local(s, tid) && DepositPc(s.threads[tid].pc)
    ensures AnswerBooks(s, DepositStep(s, tid), tid)
  {
  }

  lemma {:induction false} AppendAnswers(s: Sys, tid: nat)
    requires Local(s, tid) && AppendPc(s.threads[tid].pc)
    ensures AnswerBooks(s, AppendStep(s, tid), tid)
  {
  }

  lemma {:induction false} FixAnswers(s: Sys, tid: nat)
    requires Local(s, tid) && FixPc(s.threads[tid].pc)
    ensures AnswerBooks(s, FixStep(s, tid), tid)
  {
  }

  lemma {:induction false} StepAnswers(s: Sys, tid: nat, cmd: Cmd)
    requires Local(s, tid)
    ensures AnswerBooks(s, Step(s, tid, cmd), tid)
  {
    var pc := s.threads[tid].pc;
    if SelectPc(pc) {
      SelectAnswers(s, tid);
    } else if DepositPc(pc) {
      DepositAnswers(s, tid);
    } else if AppendPc(pc) {
      AppendAnswers(s, tid);
    } else if TicketPc(pc) {
      TicketAnswers(s, tid);
    } else if InnerPc(pc) {
      if pc.DTake? { TakeAnswers(s, tid); } else { InnerKeepsTaken(s, tid); }
    } else if FixPc(pc) {
      FixAnswers(s, tid);
    }
  }

  lemma {:induction false} JustifiedGrows(s: Sys, s': Sys, a: Answer)
    requires Grew(s, s') && Justified(s, a)
    ensures Justified(s', a)
  {
    assert Grows(s.rings[a.rq], s'.rings[a.rq]);
  }

  lemma {:induction false} AnswersKept(s: Sys, s': Sys, tid: nat)
    requires Grew(s, s') && AnswerBooks(s, s', tid) && Answers(s)
    ensures Answers(s')
  {
    forall i: nat | i < |s'.answers| ensures Justified(s', s'.answers[i]) {
      if i < |s.answers| { JustifiedGrows(s, s', s.answers[i]); }
    }
    assert forall i: nat :: i < |s.answers| ==> s'.answers[i] == s.answers[i];
    forall i: nat, j: nat, r: nat, k: nat | Answered(s', r, k, i) && Answered(s', r, k, j) ensures i == j {
      if i < |s.answers| { assert Answered(s, r, k, i) && Justified(s, s.answers[i]); }
      if j < |s.answers| { assert Answered(s, r, k, j) && Justified(s, s.answers[j]); }
    }
    forall r: nat, k: nat | k in TakenOf(s', r) ensures exists i: nat :: Answered(s', r, k, i) {
      if k in TakenOf(s, r) {
        var i: nat :| Answered(s, r, k, i);
        assert Answered(s', r, k, i);
      } else {
        assert Answered(s', r, k, |s.answers|);
      }
    }
  }
}
