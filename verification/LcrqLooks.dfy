// Why a dequeuer leaves its ticket, looks at its cell again, or reports EMPTY, in terms of what it
// read at earlier turns under the same ticket.

module LcrqLooks {
  import opened Options
  import opened LcrqRing
  import opened LcrqSystem
  import opened LcrqInvariant
  import opened LcrqPreserve
  import opened LcrqFlow
  import opened LcrqHistory
  import opened LcrqTheorems
  import opened LcrqReasons

  // ------------------------------------------------------------ looks counted

  // At turn k the dequeuer with ticket h found its cell empty and went back to look again.
  ghost predicate LooksAgain(tr: seq<Sys>, sched: seq<Event>, k: nat, tid: nat, rq: nat, h: nat) {
    && k < |sched| && k + 1 < |tr| && sched[k].tid == tid < |tr[k].threads| && tid < |tr[k + 1].threads|
    && var pc, pc' := tr[k].threads[tid].pc, tr[k + 1].threads[tid].pc;
    (pc.DLoadVal? || pc.DLoadTail?) && pc.rq == rq && pc.h == h && pc' == DLoadIdx(rq, h)
  }

  // How often it has done so in the turns before m.
  ghost function Looks(tr: seq<Sys>, sched: seq<Event>, m: nat, tid: nat, rq: nat, h: nat): nat {
    if m == 0 then 0
    else Looks(tr, sched, m - 1, tid, rq, h) + if LooksAgain(tr, sched, m - 1, tid, rq, h) then 1 else 0
  }

  // At turn k the dequeuer with ticket h read the ring's tail.
  ghost predicate ReadsTail(tr: seq<Sys>, sched: seq<Event>, k: nat, tid: nat, rq: nat, h: nat) {
    && k < |sched| && k < |tr| && sched[k].tid == tid < |tr[k].threads|
    && var pc := tr[k].threads[tid].pc;
    pc.DLoadTail? && pc.rq == rq && pc.h == h && rq < |tr[k].rings|
  }

  // The last turn before m at which it did.
  ghost function LastTail(tr: seq<Sys>, sched: seq<Event>, m: nat, tid: nat, rq: nat, h: nat): (u: Option<nat>)
    ensures u.Some? ==> u.value < m && ReadsTail(tr, sched, u.value, tid, rq, h)
  {
    if m == 0 then None
    else if ReadsTail(tr, sched, m - 1, tid, rq, h) then Some(m - 1)
    else LastTail(tr, sched, m - 1, tid, rq, h)
  }

  // What a step in the inner loop does to the thread's count of looks and last read of tail.
  ghost predicate LookStep(s: Sys, th: Thread, th': Thread) {
    InnerPc(th'.pc) ==>
      if th.pc.DFaaHead? then
        && th.pc.rq < |s.rings| && th'.r == 0 && th'.pc == DLoadIdx(th.pc.rq, s.rings[th.pc.rq].head)
      else
        && InnerPc(th.pc) && th'.pc.rq == th.pc.rq && th'.pc.h == th.pc.h
        && th'.r == (if (th.pc.DLoadVal? || th.pc.DLoadTail?) && th'.pc.DLoadIdx? then th.r + 1 else th.r)
        && (if th.pc.DLoadTail?
            then th.pc.rq < |s.rings|
                 && th'.ttTail == s.rings[th.pc.rq].tail && th'.ttClosed == s.rings[th.pc.rq].closed
            else th'.ttTail == th.ttTail && th'.ttClosed == th.ttClosed)
        && (th'.pc.DSkip? || (th.pc.DLoadVal? && th'.pc.DLoadIdx?) ==> th.pc.DLoadTail? || th.r > 0)
        && (th'.pc.DSkip? && !th'.pc.unsafe ==> th'.ttClosed || 1 <= th'.ttTail <= th'.pc.h + 1 || th'.r > 200000)
  }

  lemma {:induction false} ValLooks(s: Sys, tid: nat)
    requires Quick(s, tid) && s.threads[tid].pc.DLoadVal?
    ensures LookStep(s, s.threads[tid], InnerStep(s, tid).threads[tid])
  {
  }

  lemma {:induction false} InnerLooks(s: Sys, tid: nat)
    requires Quick(s, tid) && InnerPc(s.threads[tid].pc) && !s.threads[tid].pc.DLoadVal?
    ensures LookStep(s, s.threads[tid], InnerStep(s, tid).threads[tid])
  {
  }

  lemma {:induction false} StepLooks(s: Sys, tid: nat, cmd: Cmd)
    requires Quick(s, tid) && (InnerPc(s.threads[tid].pc) || s.threads[tid].pc.DFaaHead?)
    ensures LookStep(s, s.threads[tid], Step(s, tid, cmd).threads[tid])
  {
    var pc := s.threads[tid].pc;
    if pc.DFaaHead? {
      assert Step(s, tid, cmd) == TicketStep(s, tid);
    } else if pc.DLoadVal? {
      ValLooks(s, tid);
    } else {
      InnerLooks(s, tid);
    }
  }

  lemma {:induction false} ComesToInner(pc: Pc, pc': Pc)
    requires Follows(pc, pc') && InnerPc(pc')
    ensures InnerPc(pc) || pc.DFaaHead?
  {
  }

  lemma {:induction false} TurnLooks(s: Sys, e: Event, tid: nat, th: Thread, th': Thread)
    requires Core(s) && tid < |s.threads| && th == s.threads[tid] && th' == Turn(s, e).threads[tid] && InnerPc(th'.pc)
    ensures if e.tid == tid then LookStep(s, th, th') else th' == th
  {
    if e.tid == tid {
      CoreToLocal(s, tid);
      StepFlows(s, tid, e.cmd);
      ComesToInner(th.pc, th'.pc);
      StepLooks(s, tid, e.cmd);
    } else {
      TurnOthers(s, e, tid);
    }
  }

  // A ticket not drawn yet.
  ghost predicate Undrawn(s: Sys, rq: nat, h: nat) {
    rq < |s.rings| ==> s.rings[rq].head <= h
  }

  lemma {:induction false} DrawnWhenWorking(s: Sys, tid: nat)
    requires Core(s) && tid < |s.threads| && InnerPc(s.threads[tid].pc)
    ensures !Undrawn(s, s.threads[tid].pc.rq, s.threads[tid].pc.h)
  {
    assert ThreadInv(s, tid) && RingInv(s.R, s.rings[s.threads[tid].pc.rq]);
  }

  lemma {:induction false} UndrawnBefore(s: Sys, e: Event, rq: nat, h: nat)
    requires Core(s) && Undrawn(Turn(s, e), rq, h)
    ensures Undrawn(s, rq, h)
  {
    TurnGrows(s, e);
    if rq < |s.rings| { assert Grows(s.rings[rq], Turn(s, e).rings[rq]); }
  }

  // Nobody has looked under a ticket not drawn yet.
  lemma {:induction false} NoLooksYet(tr: seq<Sys>, sched: seq<Event>, n: nat, m: nat, tid: nat, rq: nat, h: nat)
    requires Passes(tr, sched, n) && m <= |sched| && tid < n && Undrawn(tr[m], rq, h)
    ensures Looks(tr, sched, m, tid, rq, h) == 0 && LastTail(tr, sched, m, tid, rq, h) == None
  {
    if m > 0 {
      var k := m - 1;
      assert Went(tr, sched, k);
      UndrawnBefore(tr[k], sched[k], rq, h);
      NoLooksYet(tr, sched, n, k, tid, rq, h);
      if InnerPc(tr[k].threads[tid].pc) { DrawnWhenWorking(tr[k], tid); }
    }
  }

  // The thread's own count and its last read are those of the history.
  ghost predicate Remembers(tr: seq<Sys>, sched: seq<Event>, m: nat, tid: nat)
    requires m < |tr| && tid < |tr[m].threads| && InnerPc(tr[m].threads[tid].pc)
  {
    var th := tr[m].threads[tid];
    var u := LastTail(tr, sched, m, tid, th.pc.rq, th.pc.h);
    && th.r == Looks(tr, sched, m, tid, th.pc.rq, th.pc.h)
    && (th.r > 0 || th.pc.DSkip? ==> u.Some?)
    && (th.pc.DSkip? && !th.pc.unsafe ==> th.ttClosed || 1 <= th.ttTail <= th.pc.h + 1 || th.r > 200000)
    && (u.Some? ==>
          && th.pc.rq < |tr[u.value].rings|
          && th.ttTail == tr[u.value].rings[th.pc.rq].tail && th.ttClosed == tr[u.value].rings[th.pc.rq].closed)
  }

  // One turn later the thread still remembers.
  lemma {:induction false} RemembersNext(tr: seq<Sys>, sched: seq<Event>, n: nat, k: nat, m: nat, tid: nat)
    requires Passes(tr, sched, n) && m == k + 1 <= |sched| && tid < n && InnerPc(tr[m].threads[tid].pc)
    requires if sched[k].tid == tid then LookStep(tr[k], tr[k].threads[tid], tr[m].threads[tid])
             else tr[m].threads[tid] == tr[k].threads[tid]
    requires InnerPc(tr[k].threads[tid].pc) && Remembers(tr, sched, k, tid)
    ensures Remembers(tr, sched, m, tid)
  {
  }

  lemma {:induction false} RemembersAll(tr: seq<Sys>, sched: seq<Event>, n: nat, m: nat, tid: nat)
    requires Passes(tr, sched, n) && m <= |sched| && tid < n && InnerPc(tr[m].threads[tid].pc)
    ensures Remembers(tr, sched, m, tid)
  {
    if m == 0 {
      assert false;
    }
    var k := m - 1;
    assert Went(tr, sched, k);
    var th, th' := tr[k].threads[tid], tr[m].threads[tid];
    TurnLooks(tr[k], sched[k], tid, th, th');
    if sched[k].tid == tid && th.pc.DFaaHead? {
      NoLooksYet(tr, sched, n, k, tid, th'.pc.rq, th'.pc.h);
    } else {
      RemembersAll(tr, sched, n, k, tid);
      RemembersNext(tr, sched, n, k, m, tid);
    }
  }

  // ---------------------------------------------------------------- decisions

  // By the tail and the closed bit last read, and the number of looks, the dequeuer with ticket h
  // waits no longer for a value: no enqueuer has the ticket yet, or none will, or it took too long.
  predicate WaitsNoLonger(g: Ring, h: nat, looks: nat) {
    g.closed || 1 <= g.tail <= h + 1 || looks > 200000
  }

  // What a dequeuer does next that has read index idx and unsafe bit of its cell, then the value v,
  // after so many looks and with g the ring at its last read of tail.
  ghost predicate Decided(pc: Pc, pc': Pc, v: int, looks: nat, g: Option<Ring>)
    requires pc.DLoadVal?
  {
    if pc.idx > pc.h then pc' == DCheckTail(pc.rq, pc.h)
    else if v != EMPTY then
      pc' == if pc.idx == pc.h then DTake(pc.rq, pc.h, pc.unsafe, v) else DMark(pc.rq, pc.h, pc.idx, pc.unsafe, v)
    else if looks % 1024 == 0 then pc' == DLoadTail(pc.rq, pc.h, pc.idx, pc.unsafe)
    else g.Some? && DecidedEmpty(pc, pc', looks, g.value)
  }

  ghost predicate DecidedEmpty(pc: Pc, pc': Pc, looks: nat, g: Ring)
    requires pc.DLoadVal? || pc.DLoadTail?
  {
    pc' == if pc.unsafe || WaitsNoLonger(g, pc.h, looks) then DSkip(pc.rq, pc.h, pc.idx, pc.unsafe)
           else DLoadIdx(pc.rq, pc.h)
  }

  lemma {:induction false} CameToVal(s: Sys, e: Event, th': Thread)
    requires Core(s) && e.tid < |s.threads| && th' == Turn(s, e).threads[e.tid]
    requires s.threads[e.tid].pc.DLoadIdx? && th'.pc.DLoadVal?
    ensures SawCell(s, th'.pc.rq, th'.pc.h, th'.pc.idx, th'.pc.unsafe)
  {
    CoreToLocal(s, e.tid);
    assert Step(s, e.tid, e.cmd) == InnerStep(s, e.tid);
  }

  lemma {:induction false} ValTurn(s: Sys, e: Event, th: Thread, th': Thread, g: Option<Ring>) returns (v: int)
    requires Core(s) && e.tid < |s.threads| && th == s.threads[e.tid] && th' == Turn(s, e).threads[e.tid]
    requires th.pc.DLoadVal?
    requires th.r > 0 ==> g.Some? && g.value.tail == th.ttTail && g.value.closed == th.ttClosed
    ensures SawVal(s, th.pc.rq, th.pc.h, v) && Decided(th.pc, th'.pc, v, th.r, g)
  {
    CoreToLocal(s, e.tid);
    assert Step(s, e.tid, e.cmd) == InnerStep(s, e.tid);
    v := CellOf(s, th.pc.rq, th.pc.h).val;
  }

  lemma {:induction false} TailTurn(s: Sys, e: Event, th: Thread, th': Thread)
    requires Core(s) && e.tid < |s.threads| && th == s.threads[e.tid] && th' == Turn(s, e).threads[e.tid]
    requires th.pc.DLoadTail?
    ensures th.pc.rq < |s.rings| && DecidedEmpty(th.pc, th'.pc, th.r, s.rings[th.pc.rq])
  {
    CoreToLocal(s, e.tid);
    assert Step(s, e.tid, e.cmd) == InnerStep(s, e.tid);
  }

  // The ring at the last read of its tail.
  ghost function TailSeen(tr: seq<Sys>, sched: seq<Event>, m: nat, tid: nat, rq: nat, h: nat): Option<Ring> {
    var u := LastTail(tr, sched, m, tid, rq, h);
    if u.Some? && rq < |tr[u.value].rings| then Some(tr[u.value].rings[rq]) else None
  }

  /** What a dequeuer decides when it has read its cell: it leaves a ticket whose cell is past it,
      goes for a value, reads tail at every 1024th look at an empty cell, and otherwise gives the
      cell up exactly if that is unsafe, or the ring was closed or its tail at most one past the
      ticket when last read, or it has looked more than 200000 times; else it looks again. */
  lemma {:induction false} LookIff(tr: seq<Sys>, sched: seq<Event>, n: nat, k: nat, tid: nat)
      returns (p: nat, v: int)
    requires Passes(tr, sched, n) && k < |sched| && sched[k].tid == tid < n
    requires tr[k].threads[tid].pc.DLoadVal?
    ensures var pc := tr[k].threads[tid].pc;
            && p < k && Took(tr, sched, p, tid, DLoadIdx(pc.rq, pc.h)) && SameOp(tr, p, k, tid)
            && SawCell(tr[p], pc.rq, pc.h, pc.idx, pc.unsafe) && SawVal(tr[k], pc.rq, pc.h, v)
            && Decided(pc, tr[k + 1].threads[tid].pc, v, Looks(tr, sched, k, tid, pc.rq, pc.h),
                       TailSeen(tr, sched, k, tid, pc.rq, pc.h))
  {
    assert Went(tr, sched, k);
    var th := tr[k].threads[tid];
    p := LastTurn(tr, sched, n, k, tid);
    CameToVal(tr[p], sched[p], th);
    RemembersAll(tr, sched, n, k, tid);
    v := ValTurn(tr[k], sched[k], th, tr[k + 1].threads[tid], TailSeen(tr, sched, k, tid, th.pc.rq, th.pc.h));
  }

  /** What it decides when it has read tail: the same, by the tail just read. */
  lemma {:induction false} TailIff(tr: seq<Sys>, sched: seq<Event>, n: nat, k: nat, tid: nat)
    requires Passes(tr, sched, n) && k < |sched| && sched[k].tid == tid < n
    requires tr[k].threads[tid].pc.DLoadTail?
    ensures var pc := tr[k].threads[tid].pc;
            && pc.rq < |tr[k].rings|
            && DecidedEmpty(pc, tr[k + 1].threads[tid].pc, Looks(tr, sched, k, tid, pc.rq, pc.h), tr[k].rings[pc.rq])
  {
    assert Went(tr, sched, k);
    RemembersAll(tr, sched, n, k, tid);
    TailTurn(tr[k], sched[k], tr[k].threads[tid], tr[k + 1].threads[tid]);
  }

  // Why the dequeuer at pc may give its ticket up: the cell was past the ticket, or holds a value
  // of an older ticket, or is empty and unsafe, or is empty and not worth waiting for.
  ghost predicate MayGiveUp(tr: seq<Sys>, sched: seq<Event>, k: nat, tid: nat, pc: Pc)
    requires InnerPc(pc) && k < |tr|
  {
    match pc
    case DLoadVal(_, h, idx, _) => idx > h
    case DMark(rq, h, idx, unsafe, v) =>
      idx < h && v != EMPTY && SawVal(tr[k], rq, h, v) && SawCell(tr[k], rq, h, idx, unsafe)
    case DSkip(rq, h, idx, unsafe) =>
      && idx <= h && SawVal(tr[k], rq, h, EMPTY) && SawCell(tr[k], rq, h, idx, unsafe)
      && (unsafe || (
            && TailSeen(tr, sched, k, tid, rq, h).Some?
            && WaitsNoLonger(TailSeen(tr, sched, k, tid, rq, h).value, h, Looks(tr, sched, k, tid, rq, h))))
    case _ => false
  }

  lemma {:induction false} GiveUpTurn(s: Sys, e: Event, s': Sys, r: nat, h: nat)
    requires Core(s) && s' == Turn(s, e) && r < |s.rings| && r < |s'.rings|
    requires h !in s.rings[r].log.gaveUp && h in s'.rings[r].log.gaveUp
    ensures e.tid < |s.threads| && HoldsDequeue(s.threads[e.tid].pc) == Some((r, h))
  {
    StepOk(s, e.tid, e.cmd);
    CoreToLocal(s, e.tid);
    assert Evolves(s.rings[r], s'.rings[r], e.tid);
    assert RingInv(s'.R, s'.rings[r]) && RingInv(s.R, s.rings[r]);
    assert Pending(s.rings[r], h) && Claimed(s, r, h);
  }

  lemma {:induction false} GivesUpWhen(s: Sys, e: Event, s': Sys, rq: nat, h: nat)
    requires Core(s) && s' == Turn(s, e) && rq < |s.rings| && rq < |s'.rings|
    requires e.tid < |s.threads| && InnerPc(s.threads[e.tid].pc) && s.threads[e.tid].pc.rq == rq
    requires h !in s.rings[rq].log.gaveUp && h in s'.rings[rq].log.gaveUp
    ensures match s.threads[e.tid].pc
            case DLoadVal(_, h, idx, _) => idx > h
            case DMark(rq, h, idx, unsafe, v) => SawVal(s, rq, h, v) && SawCell(s, rq, h, idx, unsafe)
            case DSkip(rq, h, idx, unsafe) => SawVal(s, rq, h, EMPTY) && SawCell(s, rq, h, idx, unsafe)
            case _ => false
  {
    CoreToLocal(s, e.tid);
    assert s' == InnerStep(s, e.tid);
  }

  /** Whenever a turn gives a dequeue ticket up, its thread drew the ticket and, under it, has seen
      one of these four: nothing else makes a dequeuer leave a cell without a value. */
  lemma {:induction false} GivesUpFor(tr: seq<Sys>, sched: seq<Event>, n: nat, k: nat, r: nat, h: nat)
    requires Passes(tr, sched, n) && k < |sched| && r < |tr[k].rings| && r < |tr[k + 1].rings|
    requires h !in tr[k].rings[r].log.gaveUp && h in tr[k + 1].rings[r].log.gaveUp
    ensures var tid := sched[k].tid;
            && tid < n
            && var pc := tr[k].threads[tid].pc;
            HoldsDequeue(pc) == Some((r, h)) && MayGiveUp(tr, sched, k, tid, pc)
  {
    assert Went(tr, sched, k);
    var tid := sched[k].tid;
    GiveUpTurn(tr[k], sched[k], tr[k + 1], r, h);
    GivesUpWhen(tr[k], sched[k], tr[k + 1], r, h);
    RemembersAll(tr, sched, n, k, tid);
    assert ThreadInv(tr[k], tid);
  }

  // ----------------------------------------------------- the emptiness check

  /** With its ticket given up, a dequeuer goes on to report EMPTY exactly if tail is at least 1 and
      at most one past the ticket, and draws another ticket otherwise. */
  lemma {:induction false} CheckIff(s: Sys, e: Event)
    requires Core(s) && e.tid < |s.threads| && s.threads[e.tid].pc.DCheckTail?
    ensures var pc, pc' := s.threads[e.tid].pc, Turn(s, e).threads[e.tid].pc;
            && pc.rq < |s.rings|
            && pc' == if 1 <= s.rings[pc.rq].tail <= pc.h + 1 then FLoadTail(pc.rq, pc.h) else DLoadHead
  {
    CoreToLocal(s, e.tid);
    assert Step(s, e.tid, e.cmd) == TicketStep(s, e.tid);
  }

  // What fixState reads and does, turn by turn.
  ghost predicate FixDone(s: Sys, s': Sys, pc: Pc, pc': Pc)
    requires FixPc(pc)
  {
    && pc.rq < |s.rings| && pc.rq < |s'.rings|
    && var g := s.rings[pc.rq];
    match pc
    case FLoadTail(_, _) => pc'.FLoadHead? && pc'.ft == g.tail && pc'.fclosed == g.closed
    case FLoadHead(_, _, _, _) => pc'.FReload? && pc'.fh == g.head
    case FReload(_, _, ft, fclosed, fh) =>
      && (!pc'.FLoadTail? ==> g.tail == ft && g.closed == fclosed)
      && (pc'.FCas? ==> !fclosed && fh > ft) && (pc'.DLoadNext? ==> fclosed || fh <= ft)
    case FCas(_, _, ft, fh) =>
      pc'.DLoadNext? ==> g.tail == ft && !g.closed && s'.rings[pc.rq] == g.(tail := fh)
  }

  lemma {:induction false} FixTurn(s: Sys, e: Event, s': Sys)
    requires Core(s) && e.tid < |s.threads| && s' == Turn(s, e) && FixPc(s.threads[e.tid].pc)
    ensures e.tid < |s'.threads| && FixDone(s, s', s.threads[e.tid].pc, s'.threads[e.tid].pc)
  {
    CoreToLocal(s, e.tid);
    assert Step(s, e.tid, e.cmd) == FixStep(s, e.tid);
  }

  // Before m the dequeuer read tail at p, with the closed bit, and then head at q.
  ghost predicate FixRead(tr: seq<Sys>, sched: seq<Event>, m: nat, tid: nat, rq: nat, h: nat,
                          ft: nat, fclosed: bool, fh: nat, p: nat, q: nat) {
    && p < q < m
    && Took(tr, sched, p, tid, FLoadTail(rq, h)) && rq < |tr[p].rings|
    && tr[p].rings[rq].tail == ft && tr[p].rings[rq].closed == fclosed && SameOp(tr, p, m, tid)
    && Took(tr, sched, q, tid, FLoadHead(rq, h, ft, fclosed)) && rq < |tr[q].rings| && tr[q].rings[rq].head == fh
  }

  lemma {:induction false} ReloadFor(tr: seq<Sys>, sched: seq<Event>, n: nat, m: nat, tid: nat)
      returns (p: nat, q: nat)
    requires Passes(tr, sched, n) && m <= |sched| && tid < n && tr[m].threads[tid].pc.FReload?
    ensures var pc := tr[m].threads[tid].pc;
            FixRead(tr, sched, m, tid, pc.rq, pc.h, pc.ft, pc.fclosed, pc.fh, p, q)
  {
    q := LastTurn(tr, sched, n, m, tid);
    FixTurn(tr[q], sched[q], tr[q + 1]);
    p := LastTurn(tr, sched, n, q, tid);
    FixTurn(tr[p], sched[p], tr[p + 1]);
  }

  lemma {:induction false} ReloadTurn(s: Sys, e: Event, th': Thread)
    requires Core(s) && e.tid < |s.threads| && th' == Turn(s, e).threads[e.tid]
    requires s.threads[e.tid].pc.FReload? && th'.pc.FCas?
    ensures !s.threads[e.tid].pc.fclosed && s.threads[e.tid].pc.fh > s.threads[e.tid].pc.ft
  {
    FixTurn(s, e, Turn(s, e));
  }

  lemma {:induction false} RepairFor(tr: seq<Sys>, sched: seq<Event>, n: nat, m: nat, tid: nat)
      returns (p: nat, q: nat)
    requires Passes(tr, sched, n) && m <= |sched| && tid < n && tr[m].threads[tid].pc.FCas?
    ensures var pc := tr[m].threads[tid].pc;
            FixRead(tr, sched, m, tid, pc.rq, pc.h, pc.ft, false, pc.fh, p, q) && pc.fh > pc.ft
  {
    var k := LastTurn(tr, sched, n, m, tid);
    ReloadTurn(tr[k], sched[k], tr[m].threads[tid]);
    p, q := ReloadFor(tr, sched, n, k, tid);
  }

  /** A dequeuer leaves fixState only at a turn u at which the ring's tail and closed bit were still
      as it had read them before it read head: with that head not past the tail, or the ring closed,
      or else having moved the tail up to that head. */
  lemma {:induction false} FixedFor(tr: seq<Sys>, sched: seq<Event>, n: nat, m: nat, tid: nat)
      returns (ft: nat, fclosed: bool, fh: nat, p: nat, q: nat, u: nat)
    requires Passes(tr, sched, n) && m <= |sched| && tid < n && tr[m].threads[tid].pc.DLoadNext?
    ensures var pc := tr[m].threads[tid].pc;
            && FixRead(tr, sched, m, tid, pc.rq, pc.h, ft, fclosed, fh, p, q)
            && q < u < m && sched[u].tid == tid && pc.rq < |tr[u].rings| && pc.rq < |tr[u + 1].rings|
            && var g := tr[u].rings[pc.rq];
            && g.tail == ft && g.closed == fclosed
            && (fclosed || fh <= ft || tr[u + 1].rings[pc.rq] == g.(tail := fh))
  {
    u := LastTurn(tr, sched, n, m, tid);
    FixTurn(tr[u], sched[u], tr[u + 1]);
    var pc := tr[u].threads[tid].pc;
    ft, fh := pc.ft, pc.fh;
    if pc.FReload? {
      fclosed := pc.fclosed;
      p, q := ReloadFor(tr, sched, n, u, tid);
    } else {
      fclosed := false;
      p, q := RepairFor(tr, sched, n, u, tid);
    }
  }
}
