// Every run in which head never leaves a ring after reading it open is linearizable. The
// order is built along the run, with the final state foretelling which tickets will count.

module LcrqLinearProof {
  import opened Options
  import opened LcrqRing
  import opened LcrqSystem
  import opened LcrqInvariant
  import opened LcrqPreserve
  import opened LcrqHistory
  import opened LcrqOrder
  import opened LcrqTheorems
  import opened LcrqSequential
  import opened LcrqStage
  import opened LcrqLinear

  // ------------------------------------------------------ the abstract queue

  // Ticket k of ring r is drawn, will be deposited under, and has no dequeuer yet.
  predicate Waiting(s: Sys, F: Sys, r: nat, k: nat) {
    Drawn(s, r, k) && Kept(F, r, k) && s.rings[r].head <= k
  }

  // q lists the waiting tickets in the order of their places.
  ghost predicate Line(s: Sys, F: Sys, q: seq<(nat, nat)>) {
    && (forall i: nat, j: nat :: i < j < |q| ==> Before(q[i].0, q[i].1, q[j].0, q[j].1))
    && (forall r: nat, k: nat :: (r, k) in q <==> Waiting(s, F, r, k))
  }

  function Vals(F: Sys, q: seq<(nat, nat)>): seq<int> {
    seq(|q|, i requires 0 <= i < |q| => ValAt(F, q[i].0, q[i].1))
  }

  // Ticket k of ring r is drawn by an enqueue whose dequeuer is already there.
  predicate Overdue(s: Sys, r: nat, k: nat) {
    r < |s.rings| && k < s.rings[r].head
  }

  // What the step of a thread makes of the line.
  function NextLine(s: Sys, F: Sys, tid: nat, q: seq<(nat, nat)>): seq<(nat, nat)>
    requires Shape(s) && tid < |s.threads|
  {
    var pc := s.threads[tid].pc;
    assert ThreadShape(s, s.threads[tid]);
    match Draws(s, tid)
    case Some(d) => if Kept(F, d.0, d.1) && !Overdue(s, d.0, d.1) then q + [d] else q
    case None =>
      if pc.DFaaHead? && Waiting(s, F, pc.rq, s.rings[pc.rq].head) && q != [] then q[1..] else q
  }

  // The rings are linked, and those ahead of head have served no dequeuer.
  ghost predicate Settled(s: Sys) {
    && s.R > 0 && Chain(s) && RingInvs(s)
    && (forall r: nat :: s.head < r < |s.rings| ==> s.rings[r].head == 0)
  }

  // Where a ticket is drawn from the last ring, everything in the line comes before it.
  lemma {:induction false} DrawnLast(s: Sys, tid: nat, r: nat, k: nat)
    requires Settled(s) && Shape(s) && tid < |s.threads| && Draws(s, tid).Some?
    requires Drawn(s, r, k)
    ensures var d := Draws(s, tid).value; Before(r, k, d.0, d.1)
  {
    assert RingInv(s.R, s.rings[r]);
  }

  lemma {:induction false} DrawnIsNew(s: Sys, tid: nat)
    requires Settled(s) && Shape(s) && tid < |s.threads| && Draws(s, tid).Some?
    ensures var d := Draws(s, tid).value; !Drawn(s, d.0, d.1) && (d.0 < |s.rings| ==> d.0 + 1 == |s.rings|)
  {
    var d := Draws(s, tid).value;
    if d.0 < |s.rings| { assert RingInv(s.R, s.rings[d.0]); }
  }

  lemma FirstIsIn(q: seq<(nat, nat)>)
    requires q != []
    ensures (q[0].0, q[0].1) in q
  {
    assert q[0] == (q[0].0, q[0].1);
  }

  // Where the dequeuer of a new ticket is already there, nothing waits.
  lemma {:induction false} OverdueAlone(s: Sys, F: Sys, tid: nat, r: nat, k: nat)
    requires Settled(s) && Cleared(s, F) && Shape(s) && tid < |s.threads|
    requires Draws(s, tid).Some? && Overdue(s, Draws(s, tid).value.0, Draws(s, tid).value.1)
    ensures !Waiting(s, F, r, k)
  {
    DrawnIsNew(s, tid);
    if Drawn(s, r, k) { DrawnLast(s, tid, r, k); }
  }

  // Where the emptiness check of the last ring passes, nothing waits.
  lemma {:induction false} NothingWaits(s: Sys, F: Sys, h: nat, r: nat, k: nat)
    requires Settled(s) && Cleared(s, F) && s.head + 1 == |s.rings|
    requires NearEmpty(s.rings[s.head].tail, h) && h < s.rings[s.head].head
    ensures !Waiting(s, F, r, k)
  {
    if Drawn(s, r, k) { assert RingInv(s.R, s.rings[r]); }
  }

  lemma {:induction false} EmptyLine(s: Sys, F: Sys, q: seq<(nat, nat)>)
    requires Line(s, F, q) && forall r: nat, k: nat :: !Waiting(s, F, r, k)
    ensures q == []
  {
    if q != [] { FirstIsIn(q); }
  }

  lemma {:induction false} NoneBefore(s: Sys, F: Sys, rq: nat, r: nat, k: nat)
    requires Settled(s) && Cleared(s, F) && rq <= s.head && rq < |s.rings| && Waiting(s, F, r, k)
    ensures !Before(r, k, rq, s.rings[rq].head)
  {
  }

  // Where a dequeuer draws a waiting ticket, it is the first of the line.
  lemma {:induction false} ClaimsFirst(s: Sys, F: Sys, rq: nat, q: seq<(nat, nat)>)
    requires Settled(s) && Cleared(s, F) && rq <= s.head && Line(s, F, q) && Waiting(s, F, rq, s.rings[rq].head)
    ensures q != [] && q[0] == (rq, s.rings[rq].head)
  {
    var p := (rq, s.rings[rq].head);
    assert p in q;
    var i: nat :| i < |q| && q[i] == p;
    FirstIsIn(q);
    NoneBefore(s, F, rq, q[0].0, q[0].1);
  }

  // How a step changes what waits.
  lemma {:induction false} WaitingMoves(s: Sys, s': Sys, F: Sys, tid: nat, cmd: Cmd, r: nat, k: nat)
    requires Moved(s, s', tid, cmd) && Settled(s) && ThreadInv(s, tid)
    ensures Waiting(s', F, r, k) <==>
              || (Waiting(s, F, r, k) && !(s.threads[tid].pc == DFaaHead(r) && k == s.rings[r].head))
              || (Draws(s, tid) == Some((r, k)) && Kept(F, r, k) && !Overdue(s, r, k))
  {
    if Drawn(s, r, k) { assert Grows(s.rings[r], s'.rings[r]); }
    if Draws(s, tid).Some? { DrawnIsNew(s, tid); }
  }

  lemma SortedMore(q: seq<(nat, nat)>, d: (nat, nat))
    requires forall i: nat, j: nat :: i < j < |q| ==> Before(q[i].0, q[i].1, q[j].0, q[j].1)
    requires forall i: nat :: i < |q| ==> Before(q[i].0, q[i].1, d.0, d.1)
    ensures var q' := q + [d]; forall i: nat, j: nat :: i < j < |q'| ==> Before(q'[i].0, q'[i].1, q'[j].0, q'[j].1)
  {
  }

  lemma {:induction false} LineDraws(s: Sys, s': Sys, F: Sys, tid: nat, cmd: Cmd, q: seq<(nat, nat)>)
    requires Moved(s, s', tid, cmd) && Settled(s) && ThreadInv(s, tid) && Line(s, F, q) && Draws(s, tid).Some?
    ensures Line(s', F, NextLine(s, F, tid, q))
  {
    var d := Draws(s, tid).value;
    var q' := NextLine(s, F, tid, q);
    forall r: nat, k: nat ensures (r, k) in q' <==> Waiting(s', F, r, k) {
      WaitingMoves(s, s', F, tid, cmd, r, k);
    }
    forall i: nat | i < |q| ensures Before(q[i].0, q[i].1, d.0, d.1) {
      assert q[i] in q && Waiting(s, F, q[i].0, q[i].1);
      DrawnLast(s, tid, q[i].0, q[i].1);
    }
    SortedMore(q, d);
  }

  lemma {:induction false} LineTickets(s: Sys, s': Sys, F: Sys, tid: nat, cmd: Cmd, q: seq<(nat, nat)>)
    requires Moved(s, s', tid, cmd) && Settled(s) && ThreadInv(s, tid) && Cleared(s, F) && Line(s, F, q)
             && Draws(s, tid).None?
    ensures Line(s', F, NextLine(s, F, tid, q))
  {
    var q' := NextLine(s, F, tid, q);
    var pc := s.threads[tid].pc;
    if pc.DFaaHead? && Waiting(s, F, pc.rq, s.rings[pc.rq].head) { ClaimsFirst(s, F, pc.rq, q); }
    forall r: nat, k: nat ensures (r, k) in q' <==> Waiting(s', F, r, k) {
      WaitingMoves(s, s', F, tid, cmd, r, k);
      if q' != q { InRest(q, (r, k)); }
    }
  }

  lemma {:induction false} InRest(q: seq<(nat, nat)>, x: (nat, nat))
    requires q != [] && forall i: nat, j: nat :: i < j < |q| ==> Before(q[i].0, q[i].1, q[j].0, q[j].1)
    ensures x in q[1..] <==> x in q && x != q[0]
  {
    if x in q {
      var i: nat :| i < |q| && q[i] == x;
      assert i > 0 ==> q[1..][i - 1] == x && Before(q[0].0, q[0].1, x.0, x.1);
    }
    if x in q[1..] {
      var i: nat :| i < |q[1..]| && q[1..][i] == x;
      assert q[i + 1] == x && Before(q[0].0, q[0].1, x.0, x.1);
    }
  }

  // ------------------------------------------------- the order, step by step

  function ItemOf(v: int): Item { if v == EMPTY then 0 else v }

  predicate HasClaimant(s: Sys, r: nat, k: nat) {
    r < |s.rings| && k in s.rings[r].log.deq && s.rings[r].log.deq[k] < |s.threads|
  }

  // The dequeue that drew ticket k of ring r before the enqueue did.
  function Claimant(s: Sys, F: Sys, r: nat, k: nat): Done
    requires HasClaimant(s, r, k)
  {
    var i := s.rings[r].log.deq[k];
    Done(Op(i, s.threads[i].ops), Dequeue, Some(ValAt(F, r, k)))
  }

  // The operations that take effect at the next step of the thread: an enqueue when it draws the
  // ticket it will deposit under, a dequeue when it and the enqueue of its ticket have both drawn,
  // an empty dequeue at its emptiness check.
  ghost function Points(s: Sys, F: Sys, tid: nat): seq<Done>
    requires Shape(s) && tid < |s.threads|
  {
    var th := s.threads[tid];
    assert ThreadShape(s, th);
    var op := Op(tid, th.ops);
    match Draws(s, tid)
    case Some(d) =>
      if !Kept(F, d.0, d.1) then []
      else [Done(op, Enqueue(ItemOf(th.arg)), None)]
           + if Overdue(s, d.0, d.1) && HasClaimant(s, d.0, d.1) then [Claimant(s, F, d.0, d.1)] else []
    case None =>
      if th.pc.DFaaHead? && Waiting(s, F, th.pc.rq, s.rings[th.pc.rq].head)
      then [Done(op, Dequeue, Some(ValAt(F, th.pc.rq, s.rings[th.pc.rq].head)))]
      else if th.pc.DCheckTail? && NearEmpty(s.rings[th.pc.rq].tail, th.pc.h) && Ahead(s, F, tid, th.pc.rq, th.pc.h)
      then [Done(op, Dequeue, Some(EMPTY))]
      else []
  }

  ghost predicate QueueInv(s: Sys, F: Sys, l: seq<Done>, q: seq<(nat, nat)>) {
    Line(s, F, q) && Legal(l) && QueueAfter(l) == Vals(F, q)
  }

  lemma {:induction false} LegalMore(l: seq<Done>, d: Done)
    requires Legal(l) && d.ret == Result(QueueAfter(l), d.cmd)
    ensures Legal(l + [d]) && QueueAfter(l + [d]) == After(QueueAfter(l), d.cmd)
  {
    assert (l + [d])[..|l + [d]| - 1] == l;
  }

  // What a ticket drawn by this step is worth.
  lemma {:induction false} DrawnValue(s: Sys, s': Sys, F: Sys, tid: nat, cmd: Cmd)
    requires Moved(s, s', tid, cmd) && Settled(s) && ThreadInv(s, tid) && Foretold(s', F)
    requires Draws(s, tid).Some? && Kept(F, Draws(s, tid).value.0, Draws(s, tid).value.1)
    ensures var d := Draws(s, tid).value; ValAt(F, d.0, d.1) == s.threads[tid].arg != EMPTY
  {
    var d := Draws(s, tid).value;
    DrawnIsNew(s, tid);
    assert Drawn(s', d.0, d.1);
    assert BooksOfRing(s, s', tid, d.0);
    if d.0 < |s.rings| { assert RingInv(s.R, s.rings[d.0]); }
    assert d.1 !in s'.rings[d.0].log.dep ==> HeldFor(s', d.0, d.1, ValAt(F, d.0, d.1));
  }

  lemma ValsMore(F: Sys, q: seq<(nat, nat)>, d: (nat, nat))
    ensures Vals(F, q + [d]) == Vals(F, q) + [ValAt(F, d.0, d.1)]
  {
  }

  lemma ValsRest(F: Sys, q: seq<(nat, nat)>)
    requires q != []
    ensures Vals(F, q) == [ValAt(F, q[0].0, q[0].1)] + Vals(F, q[1..])
  {
  }

  lemma {:induction false} OverdueClaimed(s: Sys, r: nat, k: nat)
    requires Core(s) && Overdue(s, r, k)
    ensures k in s.rings[r].log.deq
    ensures k !in s.rings[r].log.gaveUp && k !in s.rings[r].log.taken ==>
              HasClaimant(s, r, k) && HoldsDequeue(s.threads[s.rings[r].log.deq[k]].pc) == Some((r, k))
  {
    assert RingInv(s.R, s.rings[r]);
    if k !in s.rings[r].log.gaveUp && k !in s.rings[r].log.taken { assert Pending(s.rings[r], k) && Claimed(s, r, k); }
  }

  // A new ticket whose dequeuer is already there: that dequeuer is at work on it.
  lemma {:induction false} DrawnClaimant(s: Sys, F: Sys, tid: nat)
    requires Core(s) && Settled(s) && Shape(s) && tid < |s.threads| && Foretold(s, F)
    requires Draws(s, tid).Some?
    requires var d := Draws(s, tid).value; Kept(F, d.0, d.1) && Overdue(s, d.0, d.1)
    ensures var d := Draws(s, tid).value;
            HasClaimant(s, d.0, d.1) && HoldsDequeue(s.threads[s.rings[d.0].log.deq[d.1]].pc) == Some(d)
  {
    var d := Draws(s, tid).value;
    DrawnIsNew(s, tid);
    assert RingInv(s.R, s.rings[d.0]);
    OverdueClaimed(s, d.0, d.1);
  }

  lemma {:induction false} OverdueEmpty(s: Sys, F: Sys, tid: nat, q: seq<(nat, nat)>)
    requires Settled(s) && Cleared(s, F) && Shape(s) && tid < |s.threads| && Line(s, F, q)
    requires Draws(s, tid).Some? && Overdue(s, Draws(s, tid).value.0, Draws(s, tid).value.1)
    ensures q == []
  {
    forall r: nat, k: nat ensures !Waiting(s, F, r, k) { OverdueAlone(s, F, tid, r, k); }
    EmptyLine(s, F, q);
  }

  // A dequeue that will return EMPTY made its emptiness check while nothing waited.
  lemma {:induction false} CheckedEmpty(s: Sys, F: Sys, tid: nat, q: seq<(nat, nat)>)
    requires Settled(s) && Shape(s) && tid < |s.threads| && ThreadInv(s, tid) && Foretold(s, F) && Line(s, F, q)
    requires var pc := s.threads[tid].pc;
             && pc.DCheckTail? && pc.rq < |s.rings| && NearEmpty(s.rings[pc.rq].tail, pc.h)
             && Ahead(s, F, tid, pc.rq, pc.h)
    ensures q == []
  {
    var pc := s.threads[tid].pc;
    assert s.rings[pc.rq].next.None? && RingInv(s.R, s.rings[pc.rq]);
    forall r: nat, k: nat ensures !Waiting(s, F, r, k) { NothingWaits(s, F, pc.h, r, k); }
    EmptyLine(s, F, q);
  }

  // An enqueue that joins the line, and one that is dequeued at once.
  lemma {:induction false} QueueJoins(F: Sys, l: seq<Done>, q: seq<(nat, nat)>, d: (nat, nat), e: Done, v: Item)
    requires Legal(l) && QueueAfter(l) == Vals(F, q) && e.cmd == Enqueue(v) && e.ret == None && ValAt(F, d.0, d.1) == v
    ensures Legal(l + [e]) && QueueAfter(l + [e]) == Vals(F, q + [d])
  {
    LegalMore(l, e);
    ValsMore(F, q, d);
  }

  lemma {:induction false} QueuePasses(F: Sys, l: seq<Done>, e: Done, c: Done, v: Item)
    requires Legal(l) && QueueAfter(l) == [] && e.cmd == Enqueue(v) && e.ret == None && c.cmd == Dequeue
             && c.ret == Some(v)
    ensures Legal(l + ([e] + [c])) && QueueAfter(l + ([e] + [c])) == []
  {
    LegalMore(l, e);
    LegalMore(l + [e], c);
    assert l + [e] + [c] == l + ([e] + [c]);
  }

  lemma {:induction false} QueueDraws(s: Sys, s': Sys, F: Sys, tid: nat, cmd: Cmd, l: seq<Done>, q: seq<(nat, nat)>)
    requires Moved(s, s', tid, cmd) && Settled(s) && ThreadInv(s, tid) && Foretold(s, F) && Foretold(s', F)
    requires QueueInv(s, F, l, q) && Draws(s, tid).Some?
    ensures QueueInv(s', F, l + Points(s, F, tid), NextLine(s, F, tid, q))
  {
    LineDraws(s, s', F, tid, cmd, q);
    var d, v := Draws(s, tid).value, ItemOf(s.threads[tid].arg);
    var e := Done(Op(tid, s.threads[tid].ops), Enqueue(v), None);
    if !Kept(F, d.0, d.1) {
      assert l + [] == l;
    } else if Overdue(s, d.0, d.1) {
      DrawnValue(s, s', F, tid, cmd);
      OverdueEmpty(s, F, tid, q);
      DrawnClaimant(s, F, tid);
      QueuePasses(F, l, e, Claimant(s, F, d.0, d.1), v);
    } else {
      DrawnValue(s, s', F, tid, cmd);
      QueueJoins(F, l, q, d, e, v);
      assert Points(s, F, tid) == [e];
    }
  }

  lemma {:induction false} QueueTickets(s: Sys, s': Sys, F: Sys, tid: nat, cmd: Cmd, l: seq<Done>, q: seq<(nat, nat)>)
    requires Moved(s, s', tid, cmd) && Settled(s) && ThreadInv(s, tid) && Foretold(s, F)
    requires QueueInv(s, F, l, q) && Draws(s, tid).None?
    ensures QueueInv(s', F, l + Points(s, F, tid), NextLine(s, F, tid, q))
  {
    LineTickets(s, s', F, tid, cmd, q);
    var pc := s.threads[tid].pc;
    var p := Points(s, F, tid);
    if pc.DFaaHead? && Waiting(s, F, pc.rq, s.rings[pc.rq].head) {
      ClaimsFirst(s, F, pc.rq, q);
      ValsRest(F, q);
      LegalMore(l, p[0]);
    } else if pc.DCheckTail? && NearEmpty(s.rings[pc.rq].tail, pc.h) && Ahead(s, F, tid, pc.rq, pc.h) {
      CheckedEmpty(s, F, tid, q);
      LegalMore(l, p[0]);
    } else {
      assert l + [] == l;
    }
  }

  // ---------------------------------------------- who has taken effect already

  // The operation that thread i is at has taken effect.
  ghost predicate Marked(s: Sys, F: Sys, i: nat)
    requires i < |s.threads|
  {
    match StageOf(s.threads[i])
    case Resting => false
    case Trying => false
    case Holding(r, k) => Kept(F, r, k)
    case Placed => true
    case Searching => false
    case Claiming(r, k) => Kept(F, r, k) && Drawn(s, r, k)
    case Emptying(r, k) => Ahead(s, F, i, r, k)
  }

  // The operation of thread i, with what it returns if it has taken effect.
  function DoneOf(s: Sys, F: Sys, i: nat): Done
    requires i < |s.threads|
  {
    var th := s.threads[i];
    var op := Op(i, th.ops);
    match StageOf(th)
    case Trying => Done(op, Enqueue(ItemOf(th.arg)), None)
    case Holding(_, _) => Done(op, Enqueue(ItemOf(th.arg)), None)
    case Placed => Done(op, Enqueue(ItemOf(th.arg)), None)
    case Claiming(r, k) => Done(op, Dequeue, Some(ValAt(F, r, k)))
    case _ => Done(op, Dequeue, Some(EMPTY))
  }

  predicate Current(s: Sys, op: Op) {
    op.tid < |s.threads| && op.n == s.threads[op.tid].ops && !s.threads[op.tid].pc.Idle?
  }

  // The order built so far: each operation once, begun ones only, and of those still at work
  // exactly the ones that have taken effect.
  ghost predicate Marks(s: Sys, F: Sys, l: seq<Done>) {
    && (forall i: nat, j: nat :: i < j < |l| ==> l[i].op != l[j].op)
    && (forall x: nat :: x < |l| ==> l[x].op.tid < |s.threads| && l[x].op.n <= s.threads[l[x].op.tid].ops)
    && (forall x: nat :: x < |l| && Current(s, l[x].op) ==>
          Marked(s, F, l[x].op.tid) && l[x] == DoneOf(s, F, l[x].op.tid))
    && (forall i: nat :: i < |s.threads| && Marked(s, F, i) ==> DoneOf(s, F, i) in l)
  }

  // What a step marks: the operation of its own thread, and a dequeue that has waited for it.
  ghost predicate OwnPoint(s: Sys, s': Sys, F: Sys, tid: nat)
    requires Shape(s) && tid < |s.threads| == |s'.threads|
  {
    var p := Points(s, F, tid);
    && (Marked(s, F, tid) ==>
          p == [] && (s'.threads[tid].pc.Idle? || (Marked(s', F, tid) && DoneOf(s', F, tid) == DoneOf(s, F, tid))))
    && (!Marked(s, F, tid) ==> (Marked(s', F, tid) <==> p != []))
    && (p != [] ==> !s.threads[tid].pc.Idle? && p[0] == DoneOf(s', F, tid))
  }

  lemma {:induction false} PointTries(s: Sys, s': Sys, F: Sys, tid: nat, cmd: Cmd)
    requires Moved(s, s', tid, cmd) && Foretold(s', F) && StageOf(s.threads[tid]) == Trying
    ensures OwnPoint(s, s', F, tid)
  {
    var d := Draws(s, tid);
    if d.Some? && s.threads[tid].pc.ELink? { assert Kept(F, d.value.0, d.value.1); }
  }

  // A ticket that will be deposited under is not let go.
  lemma {:induction false} HoldsKept(s: Sys, s': Sys, F: Sys, tid: nat, cmd: Cmd, r: nat, k: nat)
    requires Moved(s, s', tid, cmd) && ThreadInv(s, tid) && Foretold(s', F) && StageOf(s.threads[tid]) == Holding(r, k)
    requires Kept(F, r, k)
    ensures StageOf(s'.threads[tid]) != Trying
  {
    assert BooksOfRing(s, s', tid, r);
    assert OwnsEnqueue(s, tid, s.threads[tid], r, k);
    if k !in s'.rings[r].log.dep { assert HeldFor(s', r, k, ValAt(F, r, k)); }
  }

  lemma {:induction false} PointHolds(s: Sys, s': Sys, F: Sys, tid: nat, cmd: Cmd)
    requires Moved(s, s', tid, cmd) && ThreadInv(s, tid) && Foretold(s', F) && StageOf(s.threads[tid]).Holding?
    ensures OwnPoint(s, s', F, tid)
  {
    var r, k := StageOf(s.threads[tid]).r, StageOf(s.threads[tid]).k;
    if Kept(F, r, k) { HoldsKept(s, s', F, tid, cmd, r, k); }
  }

  lemma {:induction false} PointSearches(s: Sys, s': Sys, F: Sys, tid: nat, cmd: Cmd)
    requires Moved(s, s', tid, cmd) && StageOf(s.threads[tid]) == Searching
    ensures OwnPoint(s, s', F, tid)
  {
  }

  lemma {:induction false} ClaimAddsNothing(s: Sys, F: Sys, tid: nat)
    requires Shape(s) && tid < |s.threads| && StageOf(s.threads[tid]).Claiming?
    ensures Points(s, F, tid) == []
  {
  }

  lemma {:induction false} PointClaims(s: Sys, s': Sys, F: Sys, tid: nat, cmd: Cmd)
    requires Moved(s, s', tid, cmd) && Foretold(s', F) && StageOf(s.threads[tid]).Claiming?
    ensures OwnPoint(s, s', F, tid)
  {
    var r, k := StageOf(s.threads[tid]).r, StageOf(s.threads[tid]).k;
    ClaimAddsNothing(s, F, tid);
    assert Drawn(s', r, k) <==> Drawn(s, r, k);
  }

  lemma {:induction false} PointEmpties(s: Sys, s': Sys, F: Sys, tid: nat, cmd: Cmd)
    requires Moved(s, s', tid, cmd) && Foretold(s, F) && StageOf(s.threads[tid]).Emptying?
    ensures OwnPoint(s, s', F, tid)
  {
  }

  lemma {:induction false} StepPoint(s: Sys, s': Sys, F: Sys, tid: nat, cmd: Cmd)
    requires Moved(s, s', tid, cmd) && ThreadInv(s, tid) && Foretold(s, F) && Foretold(s', F)
    ensures OwnPoint(s, s', F, tid)
  {
    match StageOf(s.threads[tid])
    case Resting =>
    case Trying => PointTries(s, s', F, tid, cmd);
    case Holding(_, _) => PointHolds(s, s', F, tid, cmd);
    case Placed =>
    case Searching => PointSearches(s, s', F, tid, cmd);
    case Claiming(_, _) => PointClaims(s, s', F, tid, cmd);
    case Emptying(_, _) => PointEmpties(s, s', F, tid, cmd);
  }

  // What a step marks of another thread.
  ghost predicate OtherPoint(s: Sys, s': Sys, F: Sys, tid: nat, i: nat)
    requires Shape(s) && tid < |s.threads| == |s'.threads| && i < |s.threads|
  {
    var p := Points(s, F, tid);
    && DoneOf(s', F, i) == DoneOf(s, F, i)
    && (Marked(s, F, i) ==> Marked(s', F, i))
    && (Marked(s', F, i) && !Marked(s, F, i) ==> |p| == 2 && p[1] == DoneOf(s, F, i))
  }

  lemma {:induction false} StepOtherPoint(s: Sys, s': Sys, F: Sys, tid: nat, cmd: Cmd, i: nat)
    requires Moved(s, s', tid, cmd) && i < |s.threads| && i != tid && ThreadInv(s, i) && Foretold(s', F)
    ensures OtherPoint(s, s', F, tid, i)
  {
    assert s'.threads[i] == s.threads[i];
    match StageOf(s.threads[i])
    case Claiming(r, k) =>
      assert OwnsDequeue(s, i, r, k) && RingInv(s.R, s.rings[r]);
      assert Drawn(s, r, k) ==> Drawn(s', r, k);
    case Emptying(r, k) => AheadForOthers(s, s', F, tid, cmd, i, r, k);
    case _ =>
  }

  lemma {:induction false} OwnAnswer(s: Sys, s': Sys, F: Sys, tid: nat, cmd: Cmd)
    requires Moved(s, s', tid, cmd) && Foretold(s', F)
    ensures |s.answers| <= |s'.answers| <= |s.answers| + 1
    ensures |s.answers| < |s'.answers| ==> F.answers[|s.answers|].tid == tid
  {
    OneAnswer(s, s', tid, cmd);
    if |s'.answers| > |s.answers| { assert F.answers[..|s'.answers|][|s.answers|] == s'.answers[|s.answers|]; }
  }

  lemma {:induction false} AheadForOthers(s: Sys, s': Sys, F: Sys, tid: nat, cmd: Cmd, i: nat, r: nat, k: nat)
    requires Moved(s, s', tid, cmd) && i != tid && Foretold(s', F)
    ensures Ahead(s, F, i, r, k) <==> Ahead(s', F, i, r, k)
  {
    OwnAnswer(s, s', F, tid, cmd);
    LaterAnswers(|s.answers|, |s'.answers|, F, tid, i, r, k);
  }

  lemma LaterAnswers(a: nat, b: nat, F: Sys, tid: nat, i: nat, r: nat, k: nat)
    requires a <= b <= a + 1 && b <= |F.answers| && i != tid && (a < b ==> F.answers[a].tid == tid)
    ensures (exists j: nat :: a <= j < |F.answers| && F.answers[j] == Answer(i, r, k, EMPTY)) <==>
            (exists j: nat :: b <= j < |F.answers| && F.answers[j] == Answer(i, r, k, EMPTY))
  {
  }

  lemma {:induction false} OneAnswer(s: Sys, s': Sys, tid: nat, cmd: Cmd)
    requires Moved(s, s', tid, cmd)
    ensures s'.answers == s.answers || (|s'.answers| == |s.answers| + 1 && s'.answers[|s.answers|].tid == tid)
  {
  }

  // The second point of a step is that of another thread, at work on the ticket just drawn.
  lemma {:induction false} SecondPoint(s: Sys, s': Sys, F: Sys, tid: nat, cmd: Cmd) returns (i: nat)
    requires Moved(s, s', tid, cmd) && Settled(s) && Foretold(s, F) && |Points(s, F, tid)| > 1
    ensures |Points(s, F, tid)| == 2
    ensures i < |s.threads| && i != tid && Points(s, F, tid)[1] == DoneOf(s, F, i)
    ensures Marked(s', F, i) && !Marked(s, F, i) && !s.threads[i].pc.Idle?
  {
    var d := Draws(s, tid).value;
    DrawnClaimant(s, F, tid);
    DrawnIsNew(s, tid);
    i := s.rings[d.0].log.deq[d.1];
    assert StageOf(s.threads[i]) == Claiming(d.0, d.1);
    assert Drawn(s', d.0, d.1);
    assert StageOf(s.threads[tid]) == Trying;
    assert s'.threads[i] == s.threads[i];
  }

  // An operation at work that has not taken effect is not in the order yet.
  lemma {:induction false} NotInYet(s: Sys, F: Sys, l: seq<Done>, i: nat)
    requires Marks(s, F, l) && i < |s.threads| && !s.threads[i].pc.Idle? && !Marked(s, F, i)
    ensures forall x: nat :: x < |l| ==> l[x].op != DoneOf(s, F, i).op
  {
    assert Current(s, DoneOf(s, F, i).op);
  }

  // d takes effect at this step: it is the operation a thread is at, and had not taken effect.
  ghost predicate TakesEffect(s: Sys, s': Sys, F: Sys, d: Done) {
    && d.op.tid < |s.threads| == |s'.threads|
    && Current(s, d.op) && !Marked(s, F, d.op.tid)
    && Current(s', d.op) && Marked(s', F, d.op.tid) && d == DoneOf(s', F, d.op.tid)
  }

  ghost predicate Fresh(s: Sys, s': Sys, F: Sys, p: seq<Done>) {
    && |s'.threads| == |s.threads|
    && (forall x: nat :: x < |p| ==> TakesEffect(s, s', F, p[x]))
    && (forall x: nat, y: nat :: x < y < |p| ==> p[x].op != p[y].op)
  }

  lemma {:induction false} FirstPoint(s: Sys, s': Sys, F: Sys, tid: nat, cmd: Cmd)
    requires Moved(s, s', tid, cmd) && ThreadInv(s, tid) && Foretold(s, F) && Foretold(s', F) && Points(s, F, tid) != []
    ensures Points(s, F, tid)[0].op == Op(tid, s.threads[tid].ops) && TakesEffect(s, s', F, Points(s, F, tid)[0])
  {
    StepPoint(s, s', F, tid, cmd);
  }

  lemma {:induction false} OtherFresh(s: Sys, s': Sys, F: Sys, tid: nat, cmd: Cmd)
    requires Moved(s, s', tid, cmd) && Settled(s) && Foretold(s, F) && |Points(s, F, tid)| > 1
    ensures |Points(s, F, tid)| == 2
    ensures Points(s, F, tid)[1].op.tid != tid && TakesEffect(s, s', F, Points(s, F, tid)[1])
  {
    var i := SecondPoint(s, s', F, tid, cmd);
    assert s'.threads[i] == s.threads[i];
  }

  lemma {:induction false} PointsFresh(s: Sys, s': Sys, F: Sys, tid: nat, cmd: Cmd)
    requires Moved(s, s', tid, cmd) && Settled(s) && ThreadInv(s, tid) && Foretold(s, F) && Foretold(s', F)
    ensures Fresh(s, s', F, Points(s, F, tid))
  {
    if Points(s, F, tid) != [] { FirstPoint(s, s', F, tid, cmd); }
    if |Points(s, F, tid)| > 1 { OtherFresh(s, s', F, tid, cmd); }
  }

  lemma {:induction false} MarksMore(s: Sys, s': Sys, F: Sys, l: seq<Done>, p: seq<Done>)
    requires Marks(s, F, l) && Fresh(s, s', F, p)
    requires forall i: nat :: i < |s.threads| ==> s.threads[i].ops <= s'.threads[i].ops
    requires forall x: nat :: x < |l| && Current(s', l[x].op) ==>
               Marked(s', F, l[x].op.tid) && l[x] == DoneOf(s', F, l[x].op.tid)
    requires forall i: nat :: i < |s'.threads| && Marked(s', F, i) ==> DoneOf(s', F, i) in l + p
    ensures Marks(s', F, l + p)
  {
    var l' := l + p;
    forall x: nat | x < |p| ensures forall y: nat :: y < |l| ==> l[y].op != p[x].op {
      assert TakesEffect(s, s', F, p[x]);
      NotInYet(s, F, l, p[x].op.tid);
    }
    forall i: nat, j: nat | i < j < |l'| ensures l'[i].op != l'[j].op {
      if j >= |l| && i >= |l| { assert p[i - |l|].op != p[j - |l|].op; }
    }
  }

  lemma {:induction false} MarksKept(s: Sys, s': Sys, F: Sys, tid: nat, cmd: Cmd, l: seq<Done>)
    requires Moved(s, s', tid, cmd) && Settled(s) && Foretold(s, F) && Foretold(s', F) && Marks(s, F, l)
    ensures Marks(s', F, l + Points(s, F, tid))
  {
    var p := Points(s, F, tid);
    assert ThreadInv(s, tid);
    PointsFresh(s, s', F, tid, cmd);
    StepPoint(s, s', F, tid, cmd);
    forall x: nat | x < |l| && Current(s', l[x].op)
      ensures Marked(s', F, l[x].op.tid) && l[x] == DoneOf(s', F, l[x].op.tid)
    {
      var i := l[x].op.tid;
      if i != tid {
        assert ThreadInv(s, i);
        StepOtherPoint(s, s', F, tid, cmd, i);
        assert Current(s, l[x].op);
      } else {
        assert Current(s, l[x].op);
      }
    }
    forall i: nat | i < |s'.threads| && Marked(s', F, i) ensures DoneOf(s', F, i) in l + p {
      if i != tid {
        assert ThreadInv(s, i);
        StepOtherPoint(s, s', F, tid, cmd, i);
        if !Marked(s, F, i) { assert DoneOf(s', F, i) == p[1]; }
      } else if !Marked(s, F, i) {
        assert DoneOf(s', F, i) == p[0];
      }
    }
    MarksMore(s, s', F, l, p);
  }

  // ---------------------------------------------------------------- the history

  // The order agrees with the history so far.
  ghost predicate Told(s: Sys, F: Sys, l: seq<Done>, notes: seq<Note>) {
    && (forall op: Op, ret: Option<int> :: Returned(op, ret) in notes ==> Finished(s, op) && Lists(l, op, ret))
    && (forall x: nat :: x < |l| ==> Invoked(l[x].op, l[x].cmd) in notes)
    && (forall i: nat :: i < |s.threads| && !s.threads[i].pc.Idle? ==>
          Invoked(DoneOf(s, F, i).op, DoneOf(s, F, i).cmd) in notes)
    && RealTime(l, notes)
  }

  // An operation that returns has taken effect, with what it returns.
  lemma {:induction false} ReturnsMarked(s: Sys, s': Sys, F: Sys, e: Event)
    requires Moved(s, s', e.tid, e.cmd) && ThreadInv(s, e.tid) && Foretold(s, F) && Foretold(s', F)
    requires !s.threads[e.tid].pc.Idle? && s'.threads[e.tid].pc.Idle?
    ensures Marked(s, F, e.tid)
    ensures Noted(s, s', e) == [Returned(DoneOf(s, F, e.tid).op, DoneOf(s, F, e.tid).ret)]
  {
    var tid := e.tid;
    assert StageOf(s'.threads[tid]) == Resting;
    match StageOf(s.threads[tid])
    case Resting =>
    case Trying =>
    case Holding(r, k) => assert Kept(F, r, k);
    case Placed =>
    case Searching =>
    case Claiming(r, k) =>
      var v: int :| v != EMPTY && DepOf(s, r, k, v) && s'.answers == s.answers + [Answer(tid, r, k, v)];
      assert Kept(F, r, k) && RingInv(s.R, s.rings[r]);
    case Emptying(r, k) =>
      assert F.answers[..|s'.answers|][|s.answers|] == s'.answers[|s.answers|];
  }

  // A step does not change what operation its thread is at.
  lemma {:induction false} SameCommand(s: Sys, s': Sys, F: Sys, tid: nat, cmd: Cmd)
    requires Moved(s, s', tid, cmd) && !s'.threads[tid].pc.Idle?
    ensures if s.threads[tid].pc.Idle? then DoneOf(s', F, tid).cmd == cmd
            else DoneOf(s', F, tid).cmd == DoneOf(s, F, tid).cmd && DoneOf(s', F, tid).op == DoneOf(s, F, tid).op
  {
  }

  lemma {:induction false} ReturnedIsOld(s: Sys, s': Sys, F: Sys, l: seq<Done>, p: seq<Done>, notes: seq<Note>,
                                         a: nat, x: nat)
    requires Told(s, F, l, notes) && Fresh(s, s', F, p) && a < |notes| && notes[a].Returned? && x < |p|
    ensures p[x].op != notes[a].op
  {
    assert notes[a] == Returned(notes[a].op, notes[a].ret) && notes[a] in notes;
    assert Finished(s, notes[a].op);
  }

  lemma {:induction false} RealTimeMore(s: Sys, s': Sys, F: Sys, l: seq<Done>, p: seq<Done>, notes: seq<Note>)
    requires Told(s, F, l, notes) && Fresh(s, s', F, p)
    ensures RealTime(l + p, notes)
  {
    var l' := l + p;
    forall a: nat, x: nat | a < |notes| && notes[a].Returned? && x < |p| ensures p[x].op != notes[a].op {
      ReturnedIsOld(s, s', F, l, p, notes, a, x);
    }
    forall i: nat | |l| <= i < |l'| ensures l'[i] == p[i - |l|] { }
  }

  // Adding the note of the step to the history.
  lemma {:induction false} RealTimeNoted(l: seq<Done>, notes: seq<Note>, more: seq<Note>)
    requires RealTime(l, notes) && |more| <= 1
    requires more != [] && more[0].Invoked? ==> forall x: nat :: x < |l| ==> l[x].op != more[0].op
    ensures RealTime(l, notes + more)
  {
  }

  lemma ListsMore(l: seq<Done>, p: seq<Done>, op: Op, ret: Option<int>)
    requires Lists(l, op, ret)
    ensures Lists(l + p, op, ret)
  {
    var i: nat :| i < |l| && l[i].op == op && l[i].ret == ret;
    assert (l + p)[i] == l[i];
  }

  // The operations that take effect were invoked.
  lemma {:induction false} PointInvoked(s: Sys, s': Sys, F: Sys, tid: nat, cmd: Cmd, notes: seq<Note>, d: Done)
    requires Moved(s, s', tid, cmd) && d.op.tid < |s.threads| && Current(s, d.op) && Current(s', d.op)
             && d == DoneOf(s', F, d.op.tid)
    requires Invoked(DoneOf(s, F, d.op.tid).op, DoneOf(s, F, d.op.tid).cmd) in notes
    ensures Invoked(d.op, d.cmd) in notes
  {
    var i := d.op.tid;
    if i == tid { SameCommand(s, s', F, tid, cmd); } else { assert s'.threads[i] == s.threads[i]; }
  }

  lemma InvokedMore(l: seq<Done>, p: seq<Done>, notes: seq<Note>, more: seq<Note>)
    requires forall x: nat :: x < |l| ==> Invoked(l[x].op, l[x].cmd) in notes
    requires forall x: nat :: x < |p| ==> Invoked(p[x].op, p[x].cmd) in notes
    ensures forall x: nat :: x < |l + p| ==> Invoked((l + p)[x].op, (l + p)[x].cmd) in notes + more
  {
  }

  lemma {:induction false} FinishedStays(s: Sys, s': Sys, tid: nat, cmd: Cmd, op: Op)
    requires Moved(s, s', tid, cmd) && Finished(s, op)
    ensures Finished(s', op)
  {
    assert op.tid != tid ==> s'.threads[op.tid] == s.threads[op.tid];
  }

  lemma {:induction false} ReturnsTold(s: Sys, s': Sys, F: Sys, e: Event, l: seq<Done>, notes: seq<Note>, op: Op,
                                       ret: Option<int>)
    requires Moved(s, s', e.tid, e.cmd) && Foretold(s, F) && Foretold(s', F) && Marks(s, F, l) && Told(s, F, l, notes)
    requires Returned(op, ret) in notes + Noted(s, s', e)
    ensures Finished(s', op) && Lists(l, op, ret)
  {
    if Returned(op, ret) in notes {
      FinishedStays(s, s', e.tid, e.cmd, op);
    } else {
      assert ThreadInv(s, e.tid);
      ReturnsMarked(s, s', F, e);
      var d := DoneOf(s, F, e.tid);
      var i: nat :| i < |l| && l[i] == d;
      assert op == d.op && ret == d.ret;
    }
  }

  // The note of a step, if it is of an operation being invoked, is of one not in the order.
  lemma {:induction false} InvokedIsNew(s: Sys, s': Sys, F: Sys, e: Event, l: seq<Done>)
    requires Moved(s, s', e.tid, e.cmd) && Marks(s', F, l)
    ensures var more := Noted(s, s', e);
            more != [] && more[0].Invoked? ==> forall x: nat :: x < |l| ==> l[x].op != more[0].op
  {
    if s.threads[e.tid].pc.Idle? { NotInYet(s', F, l, e.tid); }
  }

  // The operation of a thread at work has been invoked.
  lemma {:induction false} BusyInvoked(s: Sys, s': Sys, F: Sys, e: Event, l: seq<Done>, notes: seq<Note>)
    requires Moved(s, s', e.tid, e.cmd) && Told(s, F, l, notes)
    ensures forall i: nat :: i < |s'.threads| && !s'.threads[i].pc.Idle? ==>
              Invoked(DoneOf(s', F, i).op, DoneOf(s', F, i).cmd) in notes + Noted(s, s', e)
  {
    forall i: nat | i < |s'.threads| && !s'.threads[i].pc.Idle?
      ensures Invoked(DoneOf(s', F, i).op, DoneOf(s', F, i).cmd) in notes + Noted(s, s', e)
    {
      if i == e.tid { SameCommand(s, s', F, i, e.cmd); } else { assert s'.threads[i] == s.threads[i]; }
    }
  }

  lemma {:induction false} ToldKept(s: Sys, s': Sys, F: Sys, e: Event, l: seq<Done>, notes: seq<Note>)
    requires Moved(s, s', e.tid, e.cmd) && Settled(s) && Foretold(s, F) && Foretold(s', F)
    requires Marks(s, F, l) && Marks(s', F, l + Points(s, F, e.tid)) && Told(s, F, l, notes)
    ensures Told(s', F, l + Points(s, F, e.tid), notes + Noted(s, s', e))
  {
    var tid, p, more := e.tid, Points(s, F, e.tid), Noted(s, s', e);
    var l', notes' := l + p, notes + more;
    assert Fresh(s, s', F, p) by {
      assert ThreadInv(s, tid);
      PointsFresh(s, s', F, tid, e.cmd);
    }
    RealTimeMore(s, s', F, l, p, notes);
    InvokedIsNew(s, s', F, e, l');
    RealTimeNoted(l', notes, more);
    forall op: Op, ret: Option<int> | Returned(op, ret) in notes' ensures Finished(s', op) && Lists(l', op, ret) {
      ReturnsTold(s, s', F, e, l, notes, op, ret);
      ListsMore(l, p, op, ret);
    }
    forall x: nat | x < |p| ensures Invoked(p[x].op, p[x].cmd) in notes {
      assert TakesEffect(s, s', F, p[x]);
      PointInvoked(s, s', F, tid, e.cmd, notes, p[x]);
    }
    InvokedMore(l, p, notes, more);
    BusyInvoked(s, s', F, e, l, notes);
  }

  // ------------------------------------------------------------- the theorem

  // All that is known of the order built up to a state.
  ghost predicate Ordered(s: Sys, F: Sys, l: seq<Done>, q: seq<(nat, nat)>, notes: seq<Note>) {
    QueueInv(s, F, l, q) && Marks(s, F, l) && Told(s, F, l, notes)
  }

  lemma {:induction false} OrderedStep(s: Sys, s': Sys, F: Sys, e: Event, l: seq<Done>, q: seq<(nat, nat)>,
                                       notes: seq<Note>)
    requires Moved(s, s', e.tid, e.cmd) && Settled(s) && Foretold(s, F) && Foretold(s', F) && Ordered(s, F, l, q, notes)
    ensures Ordered(s', F, l + Points(s, F, e.tid), NextLine(s, F, e.tid, q), notes + Noted(s, s', e))
  {
    assert ThreadInv(s, e.tid);
    if Draws(s, e.tid).Some? {
      QueueDraws(s, s', F, e.tid, e.cmd, l, q);
    } else {
      QueueTickets(s, s', F, e.tid, e.cmd, l, q);
    }
    MarksKept(s, s', F, e.tid, e.cmd, l);
    ToldKept(s, s', F, e, l, notes);
  }

  // The states of a run, and at each turn all that the proof needs of it; F is the last state.
  ghost predicate Known(tr: seq<Sys>, sched: seq<Event>, k: nat)
    requires |tr| == |sched| + 1 && k < |sched|
  {
    var F, e := tr[|sched|], sched[k];
    if e.tid < |tr[k].threads|
    then Moved(tr[k], tr[k + 1], e.tid, e.cmd) && Settled(tr[k]) && Foretold(tr[k], F) && Foretold(tr[k + 1], F)
    else tr[k + 1] == tr[k]
  }

  ghost predicate KnownRun(tr: seq<Sys>, sched: seq<Event>) {
    |tr| == |sched| + 1 && forall k: nat {:trigger Known(tr, sched, k)} :: k < |sched| ==> Known(tr, sched, k)
  }

  // The history, read off the states.
  ghost function Tale(tr: seq<Sys>, sched: seq<Event>, m: nat): seq<Note>
    requires |tr| == |sched| + 1 && m <= |sched|
  {
    if m == 0 then []
    else Tale(tr, sched, m - 1)
         + if sched[m - 1].tid < |tr[m - 1].threads| == |tr[m].threads| then Noted(tr[m - 1], tr[m], sched[m - 1])
           else []
  }

  lemma {:induction false} OrderedArranges(s: Sys, F: Sys, l: seq<Done>, q: seq<(nat, nat)>, notes: seq<Note>)
    requires Ordered(s, F, l, q, notes)
    ensures Linearizable(notes)
  {
    assert Legal(l) && Arranges(l, notes);
  }

  lemma {:induction false} OrderedInit(R: nat, n: nat, F: Sys)
    requires R > 0
    ensures Ordered(Init(R, n), F, [], [], [])
  {
  }

  // Whenever head has left a ring, each value ever deposited there has its dequeuer already.
  ghost predicate LeavesNothing(R: nat, n: nat, sched: seq<Event>)
    requires R > 0
  {
    forall m: nat {:trigger sched[..m]} :: m <= |sched| ==> Cleared(Reach(R, n, sched[..m]), Reach(R, n, sched))
  }

  // One turn of a known run, and what it adds to the history.
  ghost predicate OneKnown(s: Sys, s': Sys, F: Sys, e: Event, notes: seq<Note>, notes': seq<Note>) {
    if e.tid < |s.threads|
    then Moved(s, s', e.tid, e.cmd) && Settled(s) && Foretold(s, F) && Foretold(s', F)
         && notes' == notes + Noted(s, s', e)
    else s' == s && notes' == notes
  }

  lemma {:induction false} OrderedOne(s: Sys, s': Sys, F: Sys, e: Event, l: seq<Done>, q: seq<(nat, nat)>,
                                      notes: seq<Note>, notes': seq<Note>) returns (l': seq<Done>, q': seq<(nat, nat)>)
    requires Ordered(s, F, l, q, notes) && OneKnown(s, s', F, e, notes, notes')
    ensures Ordered(s', F, l', q', notes')
  {
    l', q' := l, q;
    if e.tid < |s.threads| {
      OrderedStep(s, s', F, e, l, q, notes);
      l', q' := l + Points(s, F, e.tid), NextLine(s, F, e.tid, q);
    }
  }

  lemma {:induction false} TurnKnown(tr: seq<Sys>, sched: seq<Event>, k: nat, m: nat)
    requires KnownRun(tr, sched) && m == k + 1 <= |sched|
    ensures OneKnown(tr[k], tr[m], tr[|sched|], sched[k], Tale(tr, sched, k), Tale(tr, sched, m))
  {
    assert Known(tr, sched, k);
    assert Tale(tr, sched, k) + [] == Tale(tr, sched, k);
  }

  lemma {:induction false} OrderedNext(tr: seq<Sys>, sched: seq<Event>, k: nat, m: nat, l: seq<Done>,
                                       q: seq<(nat, nat)>)
      returns (l': seq<Done>, q': seq<(nat, nat)>)
    requires KnownRun(tr, sched) && m == k + 1 <= |sched| && Ordered(tr[k], tr[|sched|], l, q, Tale(tr, sched, k))
    ensures Ordered(tr[m], tr[|sched|], l', q', Tale(tr, sched, m))
  {
    TurnKnown(tr, sched, k, m);
    l', q' := OrderedOne(tr[k], tr[m], tr[|sched|], sched[k], l, q, Tale(tr, sched, k), Tale(tr, sched, m));
  }

  lemma {:induction false} OrderedUpTo(tr: seq<Sys>, sched: seq<Event>, m: nat)
      returns (l: seq<Done>, q: seq<(nat, nat)>)
    requires KnownRun(tr, sched) && m <= |sched| && Ordered(tr[0], tr[|sched|], [], [], Tale(tr, sched, 0))
    ensures Ordered(tr[m], tr[|sched|], l, q, Tale(tr, sched, m))
  {
    if m == 0 {
      l, q := [], [];
    } else {
      var k := m - 1;
      var l0, q0 := OrderedUpTo(tr, sched, k);
      l, q := OrderedNext(tr, sched, k, m, l0, q0);
    }
  }

  lemma {:induction false} KnownTurn(s: Sys, e: Event, rest: seq<Event>)
    requires Inv(s) && Cleared(s, Run(s, [e] + rest)) && Cleared(Turn(s, e), Run(s, [e] + rest)) && e.tid < |s.threads|
    ensures Moved(s, Turn(s, e), e.tid, e.cmd) && Settled(s)
    ensures Foretold(s, Run(s, [e] + rest)) && Foretold(Turn(s, e), Run(s, [e] + rest))
  {
    RunSplit(s, [e], rest);
    RunNext(s, [], e);
    assert [] + [e] == [e];
    RunForetold(s, [e] + rest);
    RunForetold(Turn(s, e), rest);
    TurnMoves(s, e);
  }

  lemma {:induction false} ReachNext(R: nat, n: nat, sched: seq<Event>, k: nat)
    requires R > 0 && k < |sched|
    ensures Reach(R, n, sched[..k + 1]) == Turn(Reach(R, n, sched[..k]), sched[k])
    ensures Reach(R, n, sched) == Run(Reach(R, n, sched[..k]), [sched[k]] + sched[k + 1..])
  {
    InitOk(R, n);
    var a, e, rest := sched[..k], sched[k], sched[k + 1..];
    assert sched == a + ([e] + rest) && sched[..k + 1] == a + [e];
    RunSplit(Init(R, n), a, [e] + rest);
    RunNext(Init(R, n), a, e);
  }

  lemma {:induction false} StatesKnown(R: nat, n: nat, sched: seq<Event>) returns (tr: seq<Sys>)
    requires R > 0 && LeavesNothing(R, n, sched)
    ensures KnownRun(tr, sched) && tr[0] == Init(R, n)
    ensures Core(Init(R, n)) && forall k: nat {:trigger tr[k]} :: k <= |sched| ==> tr[k] == Run(Init(R, n), sched[..k])
  {
    InitOk(R, n);
    tr := seq(|sched| + 1, k requires 0 <= k <= |sched| => Reach(R, n, sched[..k]));
    assert sched[..|sched|] == sched;
    forall k: nat | k < |sched| ensures Known(tr, sched, k) {
      ReachNext(R, n, sched, k);
      var s, e := Reach(R, n, sched[..k]), sched[k];
      assert tr[k] == s && tr[k + 1] == Turn(s, e) && tr[|sched|] == Reach(R, n, sched);
      if e.tid < n {
        assert Cleared(Reach(R, n, sched[..k]), Reach(R, n, sched))
               && Cleared(Reach(R, n, sched[..k + 1]), Reach(R, n, sched));
        KnownTurn(s, e, sched[k + 1..]);
      }
    }
  }

  lemma {:induction false} StoryNext(s: Sys, a: seq<Event>, e: Event)
    requires Core(s)
    ensures var s1 := Run(s, a);
            Story(s, a + [e]) == Story(s, a) + if e.tid < |s1.threads| then Noted(s1, Turn(s1, e), e) else []
  {
    assert (a + [e])[..|a|] == a && (a + [e])[|a|] == e;
  }

  lemma {:induction false} StoryStep(s: Sys, sched: seq<Event>, k: nat, m: nat)
    requires Core(s) && m == k + 1 <= |sched|
    ensures var s1, s2, e := Run(s, sched[..k]), Run(s, sched[..m]), sched[k];
            && |s1.threads| == |s2.threads|
            && Story(s, sched[..m]) == Story(s, sched[..k]) + if e.tid < |s1.threads| then Noted(s1, s2, e) else []
  {
    assert sched[..m] == sched[..k] + [sched[k]];
    RunNext(s, sched[..k], sched[k]);
    StoryNext(s, sched[..k], sched[k]);
  }

  lemma {:induction false} TaleIsStory(s: Sys, sched: seq<Event>, tr: seq<Sys>, m: nat)
    requires Core(s) && m <= |sched| && |tr| == |sched| + 1
    requires forall k: nat {:trigger tr[k]} :: k <= |sched| ==> tr[k] == Run(s, sched[..k])
    ensures Tale(tr, sched, m) == Story(s, sched[..m])
  {
    if m > 0 {
      var k := m - 1;
      TaleIsStory(s, sched, tr, k);
      StoryStep(s, sched, k, m);
      assert tr[k] == Run(s, sched[..k]) && tr[m] == Run(s, sched[..m]);
    }
  }

  /** The queue is linearizable in every run in which head never leaves a value behind: all
      operations that returned, and some that are still at work, can be put in an order that
      respects real time and in which a FIFO queue would have answered as they did. */
  lemma {:induction false} RunsAreLinearizable(R: nat, n: nat, sched: seq<Event>)
    requires R > 0 && LeavesNothing(R, n, sched)
    ensures Core(Init(R, n)) && Linearizable(Story(Init(R, n), sched))
  {
    InitOk(R, n);
    var tr := StatesKnown(R, n, sched);
    OrderedInit(R, n, tr[|sched|]);
    var l, q := OrderedUpTo(tr, sched, |sched|);
    TaleIsStory(Init(R, n), sched, tr, |sched|);
    assert sched[..|sched|] == sched;
    OrderedArranges(tr[|sched|], tr[|sched|], l, q, Story(Init(R, n), sched));
  }

  lemma {:induction false} EarlyGrows(s: Sys, rest: seq<Event>)
    requires Core(s)
    ensures s.early <= Run(s, rest).early
    decreases |rest|
  {
    if rest != [] {
      var m := |rest| - 1;
      EarlyGrows(s, rest[..m]);
      if rest[m].tid < |s.threads| { TurnMoves(Run(s, rest[..m]), rest[m]); }
    }
  }

  lemma {:induction false} ClearedRun(s: Sys, rest: seq<Event>)
    requires Inv(s) && Run(s, rest).early == {}
    ensures Cleared(s, Run(s, rest))
  {
    var F := Run(s, rest);
    EarlyGrows(s, rest);
    RunGrows(s, rest);
    forall r: nat, k: nat | Kept(F, r, k) && r < s.head && r < |s.rings| ensures k < s.rings[r].head {
      assert Drained(s.rings[r]);
      assert Grows(s.rings[r], F.rings[r]) && RingInv(F.R, F.rings[r]);
    }
  }

  /** In particular it is linearizable in every run in which each check that made head leave a
      ring read a closed tail. */
  lemma {:induction false} ClosedRunsAreLinearizable(R: nat, n: nat, sched: seq<Event>)
    requires R > 0 && Reach(R, n, sched).early == {}
    ensures LeavesNothing(R, n, sched)
    ensures Core(Init(R, n)) && Linearizable(Story(Init(R, n), sched))
  {
    InitOk(R, n);
    forall m: nat | m <= |sched| ensures Cleared(Reach(R, n, sched[..m]), Reach(R, n, sched)) {
      assert sched == sched[..m] + sched[m..];
      RunSplit(Init(R, n), sched[..m], sched[m..]);
      ClearedRun(Reach(R, n, sched[..m]), sched[m..]);
    }
    RunsAreLinearizable(R, n, sched);
  }
}
