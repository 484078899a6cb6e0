// Why a thread does what it does next, in terms of what it read at earlier turns of the same
// operation: when an enqueuer may deposit, when it passes its ticket over, closes the ring or
// starts over.

module LcrqReasons {
  import opened Options
  import opened LcrqRing
  import opened LcrqSystem
  import opened LcrqInvariant
  import opened LcrqPreserve
  import opened LcrqFlow
  import opened LcrqHistory
  import opened LcrqTheorems
  import opened LcrqLinearProof
  import opened LcrqClosing

  // ----------------------------------------------------------- runs, by turns

  // The states of a run, one before each turn and one at the end.
  ghost function States(R: nat, n: nat, sched: seq<Event>): seq<Sys>
    requires R > 0
  {
    seq(|sched| + 1, k requires 0 <= k <= |sched| => Reach(R, n, sched[..k]))
  }

  // Turn k leads from tr[k] to tr[k + 1].
  ghost predicate Went(tr: seq<Sys>, sched: seq<Event>, k: nat)
    requires k < |sched| && |tr| == |sched| + 1
  {
    Core(tr[k]) && tr[k + 1] == Turn(tr[k], sched[k])
  }

  ghost predicate Passes(tr: seq<Sys>, sched: seq<Event>, n: nat) {
    && |tr| == |sched| + 1
    && (forall k: nat {:trigger tr[k]} :: k < |tr| ==> |tr[k].threads| == n)
    && (forall i: nat :: i < n ==> tr[0].threads[i].pc.Idle?)
    && (forall k: nat {:trigger Went(tr, sched, k)} :: k < |sched| ==> Went(tr, sched, k))
  }

  lemma {:induction false} StatesPass(R: nat, n: nat, sched: seq<Event>)
    requires R > 0
    ensures Passes(States(R, n, sched), sched, n)
  {
    var tr := States(R, n, sched);
    assert tr[0] == Init(R, n) by { InitOk(R, n); }
    forall k: nat | k < |sched| ensures Went(tr, sched, k) { ReachNext(R, n, sched, k); }
  }

  // Turn k is one of thread tid, at the given pc.
  ghost predicate Took(tr: seq<Sys>, sched: seq<Event>, k: nat, tid: nat, pc: Pc) {
    k < |sched| && k < |tr| && sched[k].tid == tid < |tr[k].threads| && tr[k].threads[tid].pc == pc
  }

  // The last turn of thread tid before m left it as it is at m.
  lemma {:induction false} LastTurn(tr: seq<Sys>, sched: seq<Event>, n: nat, m: nat, tid: nat) returns (k: nat)
    requires Passes(tr, sched, n) && m <= |sched| && tid < n && !tr[m].threads[tid].pc.Idle?
    ensures k < m && sched[k].tid == tid && tr[k + 1].threads[tid] == tr[m].threads[tid]
    ensures Went(tr, sched, k) && Flows(tr[k].threads[tid], tr[m].threads[tid])
    decreases m
  {
    if m == 0 {
      assert false;
    }
    k := m - 1;
    assert Went(tr, sched, k);
    if sched[k].tid == tid {
      CoreToLocal(tr[k], tid);
      StepFlows(tr[k], tid, sched[k].cmd);
    } else {
      TurnOthers(tr[k], sched[k], tid);
      k := LastTurn(tr, sched, n, k, tid);
    }
  }

  // Turns p and m of thread tid are in the same operation.
  ghost predicate SameOp(tr: seq<Sys>, p: nat, m: nat, tid: nat) {
    && p < |tr| && m < |tr| && tid < |tr[p].threads| && tid < |tr[m].threads|
    && tr[p].threads[tid].ops == tr[m].threads[tid].ops
  }

  ghost predicate SawCell(s: Sys, rq: nat, k: nat, idx: nat, unsafe: bool) {
    && rq < |s.rings| && s.R == |s.rings[rq].cells| > 0
    && CellOf(s, rq, k).idx == idx && CellOf(s, rq, k).unsafe == unsafe
  }

  ghost predicate SawVal(s: Sys, rq: nat, k: nat, v: int) {
    rq < |s.rings| && s.R == |s.rings[rq].cells| > 0 && CellOf(s, rq, k).val == v
  }

  // ------------------------------------------------------ placing a value

  // Before m, in the same operation, the enqueuer with ticket t read index and unsafe bit of its
  // cell at turn p, and then the value v at turn q.
  ghost predicate LookedAt(tr: seq<Sys>, sched: seq<Event>, m: nat, tid: nat, rq: nat, t: nat,
                           idx: nat, unsafe: bool, v: int, p: nat, q: nat) {
    && p < q < m
    && Took(tr, sched, p, tid, ELoadIdx(rq, t)) && SawCell(tr[p], rq, t, idx, unsafe) && SameOp(tr, p, m, tid)
    && Took(tr, sched, q, tid, ELoadVal(rq, t, idx, unsafe)) && SawVal(tr[q], rq, t, v) && SameOp(tr, q, m, tid)
  }

  // At turn u the enqueuer read the ring's head h, because its cell was unsafe.
  ghost predicate GuardRead(tr: seq<Sys>, sched: seq<Event>, u: nat, tid: nat, rq: nat, t: nat, idx: nat, h: nat) {
    Took(tr, sched, u, tid, ELoadHeadGuard(rq, t, idx)) && rq < |tr[u].rings| && tr[u].rings[rq].head == h
  }

  lemma {:induction false} CameToVal(s: Sys, e: Event, th': Thread)
    requires Core(s) && e.tid < |s.threads| && th' == Turn(s, e).threads[e.tid]
    requires s.threads[e.tid].pc.ELoadIdx? && th'.pc.ELoadVal?
    ensures SawCell(s, th'.pc.rq, th'.pc.t, th'.pc.idx, th'.pc.unsafe)
  {
    CoreToLocal(s, e.tid);
    assert Step(s, e.tid, e.cmd) == DepositStep(s, e.tid);
  }

  // What the turn that reads the value of the cell decides.
  lemma {:induction false} ValTurn(s: Sys, e: Event, th': Thread) returns (v: int)
    requires Core(s) && e.tid < |s.threads| && th' == Turn(s, e).threads[e.tid] && s.threads[e.tid].pc.ELoadVal?
    ensures var pc := s.threads[e.tid].pc;
            && SawVal(s, pc.rq, pc.t, v)
            && (th'.pc.ECas2? ==> v == EMPTY && pc.idx <= pc.t && !pc.unsafe)
            && (th'.pc.ELoadHeadGuard? ==> v == EMPTY && pc.idx <= pc.t && pc.unsafe)
            && (th'.pc.ELoadHead? ==> v != EMPTY || pc.idx > pc.t)
  {
    CoreToLocal(s, e.tid);
    assert Step(s, e.tid, e.cmd) == DepositStep(s, e.tid);
    v := CellOf(s, s.threads[e.tid].pc.rq, s.threads[e.tid].pc.t).val;
  }

  lemma {:induction false} GuardTurn(s: Sys, e: Event, th': Thread)
    requires Core(s) && e.tid < |s.threads| && th' == Turn(s, e).threads[e.tid] && s.threads[e.tid].pc.ELoadHeadGuard?
    ensures var pc := s.threads[e.tid].pc;
            && pc.rq < |s.rings|
            && (th'.pc.ECas2? ==> s.rings[pc.rq].head < pc.t)
            && (th'.pc.ELoadHead? ==> s.rings[pc.rq].head >= pc.t)
  {
    CoreToLocal(s, e.tid);
    assert Step(s, e.tid, e.cmd) == DepositStep(s, e.tid);
  }

  lemma {:induction false} CasTurn(s: Sys, e: Event, th': Thread)
    requires Core(s) && e.tid < |s.threads| && th' == Turn(s, e).threads[e.tid] && s.threads[e.tid].pc.ECas2?
    ensures var pc := s.threads[e.tid].pc;
            th'.pc.Idle? <==> SawVal(s, pc.rq, pc.t, EMPTY) && SawCell(s, pc.rq, pc.t, pc.idx, pc.unsafe)
  {
    CoreToLocal(s, e.tid);
    assert Step(s, e.tid, e.cmd) == DepositStep(s, e.tid);
  }

  // An enqueuer that has read the value, or is about to, has read the index.
  lemma {:induction false} IdxRead(tr: seq<Sys>, sched: seq<Event>, n: nat, m: nat, tid: nat) returns (p: nat)
    requires Passes(tr, sched, n) && m <= |sched| && tid < n && tr[m].threads[tid].pc.ELoadVal?
    ensures var pc := tr[m].threads[tid].pc;
            && p < m && Took(tr, sched, p, tid, ELoadIdx(pc.rq, pc.t))
            && SawCell(tr[p], pc.rq, pc.t, pc.idx, pc.unsafe) && SameOp(tr, p, m, tid)
  {
    p := LastTurn(tr, sched, n, m, tid);
    CameToVal(tr[p], sched[p], tr[m].threads[tid]);
  }

  // The turn q at which an enqueuer read its cell's value, together with what it read before.
  lemma {:induction false} ValRead(tr: seq<Sys>, sched: seq<Event>, n: nat, q: nat, tid: nat, th': Thread)
      returns (v: int, p: nat)
    requires Passes(tr, sched, n) && q < |sched| && tid < n && sched[q].tid == tid
    requires tr[q].threads[tid].pc.ELoadVal? && th' == tr[q + 1].threads[tid]
    ensures var pc := tr[q].threads[tid].pc;
            && p < q && SameOp(tr, p, q, tid)
            && Took(tr, sched, p, tid, ELoadIdx(pc.rq, pc.t)) && SawCell(tr[p], pc.rq, pc.t, pc.idx, pc.unsafe)
            && Took(tr, sched, q, tid, pc) && SawVal(tr[q], pc.rq, pc.t, v)
            && (th'.pc.ECas2? ==> v == EMPTY && pc.idx <= pc.t && !pc.unsafe)
            && (th'.pc.ELoadHeadGuard? ==> v == EMPTY && pc.idx <= pc.t && pc.unsafe)
            && (th'.pc.ELoadHead? ==> v != EMPTY || pc.idx > pc.t)
  {
    assert Went(tr, sched, q);
    p := IdxRead(tr, sched, n, q, tid);
    v := ValTurn(tr[q], sched[q], th');
  }

  // At the read of head for an unsafe cell.
  lemma {:induction false} GuardFor(tr: seq<Sys>, sched: seq<Event>, n: nat, m: nat, tid: nat) returns (p: nat, q: nat)
    requires Passes(tr, sched, n) && m <= |sched| && tid < n && tr[m].threads[tid].pc.ELoadHeadGuard?
    ensures var pc := tr[m].threads[tid].pc;
            LookedAt(tr, sched, m, tid, pc.rq, pc.t, pc.idx, true, EMPTY, p, q) && pc.idx <= pc.t
  {
    q := LastTurn(tr, sched, n, m, tid);
    var v, p0 := ValRead(tr, sched, n, q, tid, tr[m].threads[tid]);
    p := p0;
  }

  // What the enqueuer at pc, about to deposit, has read: an index at or below its ticket and then
  // an empty value, and, if the cell was unsafe, a dequeue counter h below the ticket.
  ghost predicate MayPlace(tr: seq<Sys>, sched: seq<Event>, m: nat, tid: nat, pc: Pc, p: nat, q: nat, u: nat, h: nat)
    requires pc.ECas2?
  {
    && LookedAt(tr, sched, m, tid, pc.rq, pc.t, pc.idx, pc.unsafe, EMPTY, p, q) && pc.idx <= pc.t
    && (pc.unsafe ==> q < u < m && GuardRead(tr, sched, u, tid, pc.rq, pc.t, pc.idx, h) && h < pc.t)
  }

  lemma {:induction false} CasAfterGuard(tr: seq<Sys>, sched: seq<Event>, n: nat, m: nat, tid: nat, u: nat)
      returns (p: nat, q: nat, h: nat)
    requires Passes(tr, sched, n) && u < m <= |sched| && tid < n && sched[u].tid == tid && Went(tr, sched, u)
    requires tr[u + 1].threads[tid] == tr[m].threads[tid] && Flows(tr[u].threads[tid], tr[m].threads[tid])
    requires tr[u].threads[tid].pc.ELoadHeadGuard? && tr[m].threads[tid].pc.ECas2?
    ensures MayPlace(tr, sched, m, tid, tr[m].threads[tid].pc, p, q, u, h)
  {
    p, q := GuardFor(tr, sched, n, u, tid);
    GuardTurn(tr[u], sched[u], tr[m].threads[tid]);
    h := tr[u].rings[tr[u].threads[tid].pc.rq].head;
  }

  /** An enqueuer tries to deposit only after it has read, in the same operation and under the same
      ticket, an index at or below the ticket and then an empty value, and, if the cell was unsafe,
      a dequeue counter below the ticket. */
  lemma {:induction false} CasFor(tr: seq<Sys>, sched: seq<Event>, n: nat, m: nat, tid: nat)
      returns (p: nat, q: nat, u: nat, h: nat)
    requires Passes(tr, sched, n) && m <= |sched| && tid < n && tr[m].threads[tid].pc.ECas2?
    ensures MayPlace(tr, sched, m, tid, tr[m].threads[tid].pc, p, q, u, h)
  {
    u := LastTurn(tr, sched, n, m, tid);
    if tr[u].threads[tid].pc.ELoadVal? {
      var v, p0 := ValRead(tr, sched, n, u, tid, tr[m].threads[tid]);
      p, q, h := p0, u, 0;
    } else {
      p, q, h := CasAfterGuard(tr, sched, n, m, tid, u);
    }
  }

  /** Whenever a turn deposits under ticket t of a ring that was there before, its thread has read
      all that, and finds the cell empty, with the index and the unsafe bit that it read. */
  lemma {:induction false} DepositedFor(tr: seq<Sys>, sched: seq<Event>, n: nat, m: nat, r: nat, t: nat)
      returns (p: nat, q: nat, u: nat, h: nat)
    requires Passes(tr, sched, n) && m < |sched| && r < |tr[m].rings| && r < |tr[m + 1].rings|
    requires t !in tr[m].rings[r].log.dep && t in tr[m + 1].rings[r].log.dep
    ensures var tid := sched[m].tid;
            && tid < n
            && var pc := tr[m].threads[tid].pc;
            && pc.ECas2? && pc.rq == r && pc.t == t && MayPlace(tr, sched, m, tid, pc, p, q, u, h)
            && SawVal(tr[m], r, t, EMPTY) && SawCell(tr[m], r, t, pc.idx, pc.unsafe)
  {
    assert Went(tr, sched, m);
    DepositTurn(tr[m], sched[m], tr[m + 1], r, t);
    p, q, u, h := CasFor(tr, sched, n, m, sched[m].tid);
  }

  lemma {:induction false} DepositTurn(s: Sys, e: Event, s': Sys, r: nat, t: nat)
    requires Core(s) && s' == Turn(s, e) && r < |s.rings| && r < |s'.rings|
    requires t !in s.rings[r].log.dep && t in s'.rings[r].log.dep
    ensures e.tid < |s.threads|
    ensures var pc := s.threads[e.tid].pc;
            && pc.ECas2? && pc.rq == r && pc.t == t
            && SawVal(s, r, t, EMPTY) && SawCell(s, r, t, pc.idx, pc.unsafe)
  {
    CoreToLocal(s, e.tid);
    StepBooks(s, e.tid, e.cmd);
    assert BooksOfRing(s, s', e.tid, r);
  }

  // Why the enqueuer with ticket t, which read idx, unsafe and v, does not deposit under it.
  ghost predicate CannotPlace(tr: seq<Sys>, sched: seq<Event>, m: nat, tid: nat, rq: nat, t: nat,
                              idx: nat, unsafe: bool, v: int, q: nat, u: nat) {
    || v != EMPTY
    || idx > t
    || (unsafe && q < u < m && exists h: nat :: GuardRead(tr, sched, u, tid, rq, t, idx, h) && h >= t)
    || (q < u < m && Took(tr, sched, u, tid, ECas2(rq, t, idx, unsafe))
        && !(SawVal(tr[u], rq, t, EMPTY) && SawCell(tr[u], rq, t, idx, unsafe)))
  }

  lemma {:induction false} PassedAfterGuard(tr: seq<Sys>, sched: seq<Event>, n: nat, m: nat, tid: nat, u: nat)
      returns (p: nat, q: nat)
    requires Passes(tr, sched, n) && u < m <= |sched| && tid < n && sched[u].tid == tid && Went(tr, sched, u)
    requires tr[u + 1].threads[tid] == tr[m].threads[tid] && Flows(tr[u].threads[tid], tr[m].threads[tid])
    requires tr[u].threads[tid].pc.ELoadHeadGuard? && tr[m].threads[tid].pc.ELoadHead?
    ensures var pc := tr[u].threads[tid].pc;
            && LookedAt(tr, sched, m, tid, pc.rq, pc.t, pc.idx, true, EMPTY, p, q)
            && CannotPlace(tr, sched, m, tid, pc.rq, pc.t, pc.idx, true, EMPTY, q, u)
  {
    var pc := tr[u].threads[tid].pc;
    p, q := GuardFor(tr, sched, n, u, tid);
    GuardTurn(tr[u], sched[u], tr[m].threads[tid]);
    assert GuardRead(tr, sched, u, tid, pc.rq, pc.t, pc.idx, tr[u].rings[pc.rq].head);
  }

  lemma {:induction false} PassedAfterCas(tr: seq<Sys>, sched: seq<Event>, n: nat, m: nat, tid: nat, u: nat)
      returns (p: nat, q: nat)
    requires Passes(tr, sched, n) && u < m <= |sched| && tid < n && sched[u].tid == tid && Went(tr, sched, u)
    requires tr[u + 1].threads[tid] == tr[m].threads[tid] && Flows(tr[u].threads[tid], tr[m].threads[tid])
    requires tr[u].threads[tid].pc.ECas2? && tr[m].threads[tid].pc.ELoadHead?
    ensures var pc := tr[u].threads[tid].pc;
            && LookedAt(tr, sched, m, tid, pc.rq, pc.t, pc.idx, pc.unsafe, EMPTY, p, q)
            && CannotPlace(tr, sched, m, tid, pc.rq, pc.t, pc.idx, pc.unsafe, EMPTY, q, u)
  {
    var p0, q0, _, _ := CasFor(tr, sched, n, u, tid);
    p, q := p0, q0;
    CasTurn(tr[u], sched[u], tr[m].threads[tid]);
  }

  /** An enqueuer passes its ticket over only if, in the same operation, it read a value in its
      cell, or an index past the ticket, or an unsafe cell and a dequeue counter not below the
      ticket, or its CAS2 found the cell changed. */
  lemma {:induction false} PassedOverFor(tr: seq<Sys>, sched: seq<Event>, n: nat, m: nat, tid: nat)
      returns (idx: nat, unsafe: bool, v: int, p: nat, q: nat, u: nat)
    requires Passes(tr, sched, n) && m <= |sched| && tid < n && tr[m].threads[tid].pc.ELoadHead?
    ensures var pc := tr[m].threads[tid].pc;
            && LookedAt(tr, sched, m, tid, pc.rq, pc.t, idx, unsafe, v, p, q)
            && CannotPlace(tr, sched, m, tid, pc.rq, pc.t, idx, unsafe, v, q, u)
  {
    u := LastTurn(tr, sched, n, m, tid);
    var pc := tr[u].threads[tid].pc;
    idx := pc.idx;
    if pc.ELoadVal? {
      unsafe, q := pc.unsafe, u;
      v, p := ValRead(tr, sched, n, u, tid, tr[m].threads[tid]);
    } else if pc.ELoadHeadGuard? {
      unsafe, v := true, EMPTY;
      p, q := PassedAfterGuard(tr, sched, n, m, tid, u);
    } else {
      unsafe, v := pc.unsafe, EMPTY;
      p, q := PassedAfterCas(tr, sched, n, m, tid, u);
    }
  }

  // ---------------------------------------------------------- closing a ring

  // At turn k, in its c-th operation, the thread found a ring full.
  ghost predicate FoundFull(tr: seq<Sys>, sched: seq<Event>, k: nat, tid: nat, c: nat) {
    && k < |sched| && k < |tr| && sched[k].tid == tid < |tr[k].threads| && tr[k].threads[tid].ops == c
    && var pc := tr[k].threads[tid].pc;
    && pc.ELoadHead? && pc.rq < |tr[k].rings|
    && var h := tr[k].rings[pc.rq].head; h > pc.t || pc.t - h >= tr[k].R
  }

  // How often the thread found a ring full in its c-th operation, in the turns before m.
  ghost function FullReads(tr: seq<Sys>, sched: seq<Event>, m: nat, tid: nat, c: nat): nat {
    if m == 0 then 0 else FullReads(tr, sched, m - 1, tid, c) + if FoundFull(tr, sched, m - 1, tid, c) then 1 else 0
  }

  // What a step does to the count of the tries to close.
  ghost predicate TriesStep(s: Sys, th: Thread, th': Thread) {
    if th.pc.Idle? then th'.ops == th.ops + 1 && (th'.pc.ELoadTail? ==> th'.tries == 0)
    else
      && th'.ops == th.ops
      && th'.tries == (if th.pc.ELoadHead? && th'.pc.EClose? then th.tries + 1 else th.tries)
      && (th.pc.ELoadHead? ==> (
            && th.pc.rq < |s.rings|
            && var h := s.rings[th.pc.rq].head;
            th'.pc.EClose? <==> h > th.pc.t || th.pc.t - h >= s.R))
  }

  lemma {:induction false} DepositTries(s: Sys, tid: nat)
    requires Quick(s, tid) && DepositPc(s.threads[tid].pc)
    ensures TriesStep(s, s.threads[tid], DepositStep(s, tid).threads[tid])
  {
  }

  lemma {:induction false} StepTries(s: Sys, tid: nat, cmd: Cmd)
    requires Quick(s, tid) && (EnqueuePc(s.threads[tid].pc) || s.threads[tid].pc.Idle?)
    ensures TriesStep(s, s.threads[tid], Step(s, tid, cmd).threads[tid])
  {
    var pc := s.threads[tid].pc;
    if DepositPc(pc) {
      DepositTries(s, tid);
    } else if SelectPc(pc) {
      assert Step(s, tid, cmd) == SelectStep(s, tid);
    } else if AppendPc(pc) {
      assert Step(s, tid, cmd) == AppendStep(s, tid);
    } else {
      assert Step(s, tid, cmd) == Begin(s, tid, cmd);
    }
  }

  // An operation not begun yet has found nothing full.
  lemma {:induction false} NoneFull(tr: seq<Sys>, sched: seq<Event>, n: nat, m: nat, tid: nat, c: nat)
    requires Passes(tr, sched, n) && m <= |sched| && tid < n && c > tr[m].threads[tid].ops
    ensures FullReads(tr, sched, m, tid, c) == 0
  {
    if m > 0 {
      assert Went(tr, sched, m - 1);
      OpsGrowInTurn(tr[m - 1], sched[m - 1], tid);
      NoneFull(tr, sched, n, m - 1, tid, c);
    }
  }

  lemma {:induction false} OpsGrowInTurn(s: Sys, e: Event, tid: nat)
    requires Core(s) && tid < |s.threads|
    ensures s.threads[tid].ops <= Turn(s, e).threads[tid].ops
  {
    if e.tid < |s.threads| {
      CoreToLocal(s, e.tid);
      StepBooks(s, e.tid, e.cmd);
    }
  }

  lemma {:induction false} TurnTries(s: Sys, e: Event, tid: nat, th: Thread, th': Thread)
    requires Core(s) && tid < |s.threads| && th == s.threads[tid] && th' == Turn(s, e).threads[tid] && EnqueuePc(th'.pc)
    ensures if e.tid == tid then Flows(th, th') && TriesStep(s, th, th') else th' == th
  {
    if e.tid == tid {
      CoreToLocal(s, tid);
      StepFlows(s, tid, e.cmd);
      StepTries(s, tid, e.cmd);
    } else {
      TurnOthers(s, e, tid);
    }
  }

  lemma {:induction false} TriesInTurn(tr: seq<Sys>, sched: seq<Event>, n: nat, k: nat, m: nat, tid: nat)
    requires Passes(tr, sched, n) && m == k + 1 <= |sched| && tid < n && EnqueuePc(tr[m].threads[tid].pc)
    ensures var th, th' := tr[k].threads[tid], tr[m].threads[tid];
            if sched[k].tid == tid && th.pc.Idle?
            then th'.tries == 0 && th'.ops > th.ops && !FoundFull(tr, sched, k, tid, th'.ops)
            else
              && EnqueuePc(th.pc) && th'.ops == th.ops
              && th'.tries == th.tries + if FoundFull(tr, sched, k, tid, th.ops) then 1 else 0
  {
    assert Went(tr, sched, k);
    TurnTries(tr[k], sched[k], tid, tr[k].threads[tid], tr[m].threads[tid]);
  }

  // The count of tries is that of the reads that found a ring full.
  lemma {:induction false} TriesCount(tr: seq<Sys>, sched: seq<Event>, n: nat, m: nat, tid: nat)
    requires Passes(tr, sched, n) && m <= |sched| && tid < n && EnqueuePc(tr[m].threads[tid].pc)
    ensures tr[m].threads[tid].tries == FullReads(tr, sched, m, tid, tr[m].threads[tid].ops)
  {
    if m == 0 {
      assert false;
    }
    var k := m - 1;
    var th, th' := tr[k].threads[tid], tr[m].threads[tid];
    TriesInTurn(tr, sched, n, k, m, tid);
    if sched[k].tid == tid && th.pc.Idle? {
      NoneFull(tr, sched, n, k, tid, th'.ops);
    } else {
      TriesCount(tr, sched, n, k, tid);
    }
  }

  lemma {:induction false} CloseStep(s: Sys, e: Event, s': Sys)
    requires Core(s) && e.tid < |s.threads| && s' == Turn(s, e) && s.threads[e.tid].pc.EClose?
    ensures s.threads[e.tid].pc.rq < |s.rings| <= |s'.rings|
    ensures var th := s.threads[e.tid];
            var g := s.rings[th.pc.rq];
            (if !g.closed && (g.tail == th.pc.t + 1 || th.tries >= 10)
                then s'.rings[th.pc.rq].closed && s'.threads[e.tid].pc == EInitRing(th.pc.rq)
                else s'.rings == s.rings && s'.threads[e.tid].pc == ELoadTail)
  {
    CoreToLocal(s, e.tid);
    assert Step(s, e.tid, e.cmd) == DepositStep(s, e.tid);
  }

  /** A thread that has passed ticket t over reads the dequeue counter h and goes on to close the
      ring exactly if h is past t or a whole ring behind it; it starts over otherwise. The close
      succeeds exactly if the ring is still open and either no ticket was drawn since t or the
      operation has found a ring full ten times; the thread starts over otherwise. */
  lemma {:induction false} ClosesIff(tr: seq<Sys>, sched: seq<Event>, n: nat, k: nat, tid: nat)
    requires Passes(tr, sched, n) && k < |sched| && sched[k].tid == tid < n
    requires Shutting(tr[k].threads[tid].pc)
    ensures var pc, pc' := tr[k].threads[tid].pc, tr[k + 1].threads[tid].pc;
            && pc.rq < |tr[k].rings|
            && var g := tr[k].rings[pc.rq];
            if pc.ELoadHead?
            then pc' == if g.head > pc.t || pc.t - g.head >= tr[k].R then EClose(pc.rq, pc.t) else ELoadTail
            else
              if !g.closed && (g.tail == pc.t + 1 || FullReads(tr, sched, k, tid, tr[k].threads[tid].ops) >= 10)
              then pc.rq < |tr[k + 1].rings| && tr[k + 1].rings[pc.rq].closed && pc' == EInitRing(pc.rq)
              else tr[k + 1].rings == tr[k].rings && pc' == ELoadTail
  {
    assert Went(tr, sched, k);
    var pc := tr[k].threads[tid].pc;
    if pc.EClose? {
      TriesCount(tr, sched, n, k, tid);
      CloseStep(tr[k], sched[k], tr[k + 1]);
    } else {
      CoreToLocal(tr[k], tid);
      StepFlows(tr[k], tid, sched[k].cmd);
      StepTries(tr[k], tid, sched[k].cmd);
    }
  }
}
