// Linearizability: what it means for a run of the queue, and what a run's final
// state says in advance about the states it goes through.

module LcrqLinear {
  import opened Options
  import opened LcrqRing
  import opened LcrqSystem
  import opened LcrqInvariant
  import opened LcrqPreserve
  import opened LcrqHistory
  import opened LcrqOrder
  import opened LcrqTheorems
  import opened LcrqSequential
  import opened LcrqStage

  // ------------------------------------------------- histories and their order

  // What a caller sees: operations being invoked, and returning. An enqueue returns nothing.
  datatype Note = Invoked(op: Op, cmd: Cmd) | Returned(op: Op, ret: Option<int>)

  ghost function Noted(s: Sys, s': Sys, e: Event): seq<Note>
    requires e.tid < |s.threads| == |s'.threads|
  {
    var th, th' := s.threads[e.tid], s'.threads[e.tid];
    if th.pc.Idle? then [Invoked(Op(e.tid, th'.ops), e.cmd)]
    else if th'.pc.Idle? then
      [Returned(Op(e.tid, th.ops), if |s'.answers| > |s.answers| then Some(s'.answers[|s.answers|].val) else None)]
    else []
  }

  // The history of a run.
  ghost function Story(s: Sys, sched: seq<Event>): seq<Note>
    requires Core(s)
  {
    if sched == [] then []
    else
      var m := |sched| - 1;
      var s1 := Run(s, sched[..m]);
      Story(s, sched[..m]) + if sched[m].tid < |s1.threads| then Noted(s1, Turn(s1, sched[m]), sched[m]) else []
  }

  // An operation in a sequential execution.
  datatype Done = Done(op: Op, cmd: Cmd, ret: Option<int>)

  function Result(q: seq<int>, cmd: Cmd): Option<int> {
    match cmd
    case Enqueue(_) => None
    case Dequeue => Some(if q == [] then EMPTY else q[0])
  }

  function QueueAfter(l: seq<Done>): seq<int> {
    if l == [] then [] else After(QueueAfter(l[..|l| - 1]), l[|l| - 1].cmd)
  }

  // Every operation returns what it returns on a FIFO queue.
  predicate Legal(l: seq<Done>) {
    l == [] || (Legal(l[..|l| - 1]) && l[|l| - 1].ret == Result(QueueAfter(l[..|l| - 1]), l[|l| - 1].cmd))
  }

  // l arranges operations of the history, all that returned among them with what they returned,
  // and one that returned before another was invoked comes before it.
  ghost predicate Arranges(l: seq<Done>, notes: seq<Note>) {
    && (forall i: nat, j: nat :: i < j < |l| ==> l[i].op != l[j].op)
    && AllInvoked(l, notes)
    && AllListed(l, notes)
    && RealTime(l, notes)
  }

  ghost predicate AllInvoked(l: seq<Done>, notes: seq<Note>) {
    forall i: nat :: i < |l| ==> Invoked(l[i].op, l[i].cmd) in notes
  }

  ghost predicate AllListed(l: seq<Done>, notes: seq<Note>) {
    forall op: Op, ret: Option<int> :: Returned(op, ret) in notes ==> Lists(l, op, ret)
  }

  ghost predicate Lists(l: seq<Done>, op: Op, ret: Option<int>) {
    exists i: nat :: i < |l| && l[i].op == op && l[i].ret == ret
  }

  ghost predicate RealTime(l: seq<Done>, notes: seq<Note>) {
    forall p: nat, q: nat, i: nat, j: nat :: (p < q < |notes| && i < |l| && j < |l|
      && notes[p].Returned? && notes[q].Invoked? && l[i].op == notes[p].op && l[j].op == notes[q].op) ==> i < j
  }

  ghost predicate Linearizable(notes: seq<Note>) {
    exists l: seq<Done> :: Legal(l) && Arranges(l, notes)
  }

  // ------------------------------------------------ what the final state tells

  // Ticket k of ring r has a deposit in the end.
  predicate Kept(F: Sys, r: nat, k: nat) {
    r < |F.rings| && k in F.rings[r].log.dep
  }

  function ValAt(F: Sys, r: nat, k: nat): int {
    if Kept(F, r, k) then F.rings[r].log.dep[k] else EMPTY
  }

  // Thread i, past the emptiness check with ticket k, will return EMPTY.
  ghost predicate Ahead(s: Sys, F: Sys, i: nat, r: nat, k: nat) {
    exists j: nat :: |s.answers| <= j < |F.answers| && F.answers[j] == Answer(i, r, k, EMPTY)
  }

  // Head has left no ticket behind under which there is a deposit in the end.
  ghost predicate Cleared(s: Sys, F: Sys) {
    forall r: nat, k: nat {:trigger Kept(F, r, k)} :: Kept(F, r, k) && r < s.head && r < |s.rings| ==>
        k < s.rings[r].head
  }

  ghost predicate Foretold(s: Sys, F: Sys) {
    && Cleared(s, F)
    && |s.rings| <= |F.rings|
    && (forall r: nat, k: nat {:trigger Kept(F, r, k)} :: r < |s.rings| && k in s.rings[r].log.dep ==>
          Kept(F, r, k) && ValAt(F, r, k) == s.rings[r].log.dep[k])
    && (forall r: nat, k: nat {:trigger Kept(F, r, k)} :: Kept(F, r, k) && r < |s.rings| ==>
          k !in s.rings[r].log.gaveUp)
    && (forall r: nat, k: nat {:trigger Kept(F, r, k)} ::
          Kept(F, r, k) && Drawn(s, r, k) && k !in s.rings[r].log.dep ==> HeldFor(s, r, k, ValAt(F, r, k)))
    && |s.answers| <= |F.answers| && F.answers[..|s.answers|] == s.answers
    && (forall j: nat :: |s.answers| <= j < |F.answers| && F.answers[j].val == EMPTY && F.answers[j].rq < |s.rings| ==>
          s.rings[F.answers[j].rq].next.None?)
  }

  // The thread that drew ticket k of ring r holds it, with value v to deposit.
  predicate HeldFor(s: Sys, r: nat, k: nat, v: int) {
    && Drawn(s, r, k)
    && var i := s.rings[r].log.enq[k].tid;
    i < |s.threads| && StageOf(s.threads[i]) == Holding(r, k) && s.threads[i].arg == v
  }

  // ------------------------------------------------- why it may be trusted

  // All that one turn of a thread does.
  ghost predicate Moved(s: Sys, s': Sys, tid: nat, cmd: Cmd) {
    && Core(s) && Shape(s) && tid < |s.threads| == |s'.threads|
    && Grew(s, s')
    && Books(s, s', tid) && DrawBooks(s, s', tid) && HeadBooks(s, s', tid)
    && StageMove(s, s', tid, cmd)
  }

  lemma {:induction false} TurnMoves(s: Sys, e: Event)
    requires Core(s) && e.tid < |s.threads|
    ensures Moved(s, Turn(s, e), e.tid, e.cmd)
  {
    TurnGrows(s, e);
    CoreToLocal(s, e.tid);
    StepOk(s, e.tid, e.cmd);
    StepBooks(s, e.tid, e.cmd);
    StepDraws(s, e.tid, e.cmd);
    StepHead(s, e.tid, e.cmd);
    StepMoves(s, e.tid, e.cmd);
  }

  // A ticket drawn already is held now only by who has held it all along.
  lemma {:induction false} HeldBefore(s: Sys, s': Sys, tid: nat, cmd: Cmd, r: nat, k: nat, v: int)
    requires Moved(s, s', tid, cmd) && Drawn(s, r, k) && HeldFor(s', r, k, v) && RingInv(s.R, s.rings[r])
    ensures HeldFor(s, r, k, v)
  {
    assert BooksOfRing(s, s', tid, r);
    var i := s.rings[r].log.enq[k].tid;
    if i == tid { HoldsOn(s, s', tid, cmd, r, k); } else { assert s'.threads[i] == s.threads[i]; }
  }

  lemma {:induction false} HoldsOn(s: Sys, s': Sys, tid: nat, cmd: Cmd, r: nat, k: nat)
    requires Moved(s, s', tid, cmd) && Drawn(s, r, k) && RingInv(s.R, s.rings[r])
             && StageOf(s'.threads[tid]) == Holding(r, k)
    ensures StageOf(s.threads[tid]) == Holding(r, k) && s'.threads[tid].arg == s.threads[tid].arg
  {
  }

  // A deposit is made by the thread that holds the ticket.
  lemma {:induction false} DepositedBy(s: Sys, s': Sys, tid: nat, cmd: Cmd, r: nat, k: nat)
    requires Moved(s, s', tid, cmd) && Drawn(s, r, k) && k !in s.rings[r].log.dep && r < |s'.rings|
             && k in s'.rings[r].log.dep
    ensures HeldFor(s, r, k, s'.rings[r].log.dep[k])
  {
    assert BooksOfRing(s, s', tid, r);
    assert Deposits(s, tid) == Some((r, k));
  }

  lemma {:induction false} HeldAlong(s: Sys, rest: seq<Event>, r: nat, k: nat, v: int)
    requires Core(s) && Drawn(s, r, k) && HeldFor(Run(s, rest), r, k, v)
    ensures HeldFor(s, r, k, v)
    decreases |rest|
  {
    if rest != [] {
      var m := |rest| - 1;
      var s1 := Run(s, rest[..m]);
      RunGrows(s, rest[..m]);
      assert Grows(s.rings[r], s1.rings[r]) && RingInv(s1.R, s1.rings[r]);
      if rest[m].tid < |s1.threads| {
        TurnMoves(s1, rest[m]);
        HeldBefore(s1, Run(s, rest), rest[m].tid, rest[m].cmd, r, k, v);
      }
      HeldAlong(s, rest[..m], r, k, v);
    }
  }

  lemma {:induction false} KeptIsHeld(s: Sys, rest: seq<Event>, r: nat, k: nat)
    requires Core(s) && Drawn(s, r, k) && k !in s.rings[r].log.dep && Kept(Run(s, rest), r, k)
    ensures HeldFor(s, r, k, ValAt(Run(s, rest), r, k))
    decreases |rest|
  {
    if rest != [] {
      var m := |rest| - 1;
      var s1, F := Run(s, rest[..m]), Run(s, rest);
      RunGrows(s, rest[..m]);
      assert Grows(s.rings[r], s1.rings[r]);
      if rest[m].tid < |s1.threads| {
        TurnMoves(s1, rest[m]);
        assert Grows(s1.rings[r], F.rings[r]);
        if Kept(s1, r, k) {
          KeptIsHeld(s, rest[..m], r, k);
        } else {
          DepositedBy(s1, F, rest[m].tid, rest[m].cmd, r, k);
          HeldAlong(s, rest[..m], r, k, ValAt(F, r, k));
        }
      } else {
        KeptIsHeld(s, rest[..m], r, k);
      }
    }
  }

  // The answers of a run go on from those of its start.
  ghost predicate AnswersFollow(s: Sys, F: Sys) {
    && |s.answers| <= |F.answers| && F.answers[..|s.answers|] == s.answers
    && (forall j: nat :: |s.answers| <= j < |F.answers| && F.answers[j].val == EMPTY && F.answers[j].rq < |s.rings| ==>
          s.rings[F.answers[j].rq].next.None?)
  }

  lemma {:induction false} TurnAnswers(s: Sys, s1: Sys, F: Sys, tid: nat, cmd: Cmd)
    requires AnswersFollow(s, s1) && Grew(s, s1) && Moved(s1, F, tid, cmd)
    ensures AnswersFollow(s, F)
  {
    assert s1.answers == F.answers || (|F.answers| == |s1.answers| + 1 && F.answers[..|s1.answers|] == s1.answers);
    assert F.answers[..|s.answers|] == F.answers[..|s1.answers|][..|s.answers|];
    forall j: nat | |s.answers| <= j < |F.answers| && F.answers[j].val == EMPTY && F.answers[j].rq < |s.rings|
      ensures s.rings[F.answers[j].rq].next.None?
    {
      var r := F.answers[j].rq;
      assert Grows(s.rings[r], s1.rings[r]);
      if j < |s1.answers| { assert F.answers[j] == s1.answers[j]; }
    }
  }

  lemma {:induction false} RunAnswers(s: Sys, rest: seq<Event>)
    requires Core(s)
    ensures AnswersFollow(s, Run(s, rest))
    decreases |rest|
  {
    if rest == [] {
      assert s.answers[..|s.answers|] == s.answers;
    } else {
      var m := |rest| - 1;
      var s1 := Run(s, rest[..m]);
      RunAnswers(s, rest[..m]);
      RunGrows(s, rest[..m]);
      if rest[m].tid < |s1.threads| {
        TurnMoves(s1, rest[m]);
        TurnAnswers(s, s1, Run(s, rest), rest[m].tid, rest[m].cmd);
      }
    }
  }

  lemma {:induction false} RunForetold(s: Sys, rest: seq<Event>)
    requires Core(s) && Cleared(s, Run(s, rest))
    ensures Foretold(s, Run(s, rest))
  {
    var F := Run(s, rest);
    RunAnswers(s, rest);
    RunGrows(s, rest);
    forall r: nat, k: nat | r < |s.rings| && k in s.rings[r].log.dep
      ensures Kept(F, r, k) && ValAt(F, r, k) == s.rings[r].log.dep[k]
    {
      assert Grows(s.rings[r], F.rings[r]);
    }
    forall r: nat, k: nat | Kept(F, r, k) && r < |s.rings| ensures k !in s.rings[r].log.gaveUp {
      assert Grows(s.rings[r], F.rings[r]) && RingInv(F.R, F.rings[r]);
    }
    forall r: nat, k: nat | Kept(F, r, k) && Drawn(s, r, k) && k !in s.rings[r].log.dep
      ensures HeldFor(s, r, k, ValAt(F, r, k))
    {
      KeptIsHeld(s, rest, r, k);
    }
  }
}
