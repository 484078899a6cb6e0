// What one operation does when its thread runs alone from start to finish.

module LcrqSolo {
  import opened Options
  import opened LcrqRing
  import opened LcrqSystem
  import opened LcrqInvariant
  import opened LcrqPreserve
  import opened LcrqHistory

  // m turns of thread i, which begins with cmd if it is idle.
  function Alone(i: nat, cmd: Cmd, m: nat): seq<Event> {
    seq(m, _ => Event(i, cmd))
  }

  ghost function Solo(s: Sys, i: nat, cmd: Cmd, m: nat): (s': Sys)
    requires Core(s)
    ensures Core(s') && |s'.threads| == |s.threads|
  {
    Run(s, Alone(i, cmd, m))
  }

  // tr[k + 1] is what a turn of thread i makes of tr[k].
  ghost predicate Link(tr: seq<Sys>, k: nat, i: nat, cmd: Cmd)
    requires k + 1 < |tr|
  {
    Core(tr[k]) && i < |tr[k].threads| && tr[k + 1] == Turn(tr[k], Event(i, cmd))
  }

  // The states that thread i runs through alone.
  ghost predicate Trace(tr: seq<Sys>, i: nat, cmd: Cmd) {
    forall k: nat {:trigger Link(tr, k, i, cmd)} :: k + 1 < |tr| ==> Link(tr, k, i, cmd)
  }

  lemma {:induction false} TraceOf(s: Sys, i: nat, cmd: Cmd, m: nat) returns (tr: seq<Sys>)
    requires Core(s) && i < |s.threads|
    ensures Trace(tr, i, cmd) && |tr| == m + 1 && tr[0] == s
    ensures forall k: nat {:trigger tr[k]} :: k <= m ==>
              Core(tr[k]) && tr[k] == Solo(s, i, cmd, k) && |tr[k].threads| == |s.threads|
  {
    tr := seq(m + 1, k requires 0 <= k <= m => Solo(s, i, cmd, k));
    forall k: nat | k < m ensures Link(tr, k, i, cmd) { SoloNext(s, i, cmd, k); }
  }

  lemma {:induction false} SoloNext(s: Sys, i: nat, cmd: Cmd, m: nat)
    requires Core(s)
    ensures Solo(s, i, cmd, m + 1) == Turn(Solo(s, i, cmd, m), Event(i, cmd))
  {
    RunNext(s, Alone(i, cmd, m), Event(i, cmd));
    assert Alone(i, cmd, m + 1) == Alone(i, cmd, m) + [Event(i, cmd)];
  }

  lemma {:induction false} OneTurn(tr: seq<Sys>, k: nat, i: nat, cmd: Cmd)
    requires Trace(tr, i, cmd) && k + 1 < |tr|
    ensures Shape(tr[k]) && i < |tr[k].threads| && tr[k + 1] == Step(tr[k], i, cmd)
  {
    assert Link(tr, k, i, cmd);
    CoreShape(tr[k]);
  }

  // s' is s but for thread i, which is now th.
  ghost predicate At(s: Sys, s': Sys, i: nat, th: Thread) {
    i < |s.threads| && s' == s.(threads := s.threads[i := th])
  }

  lemma AtAgain(s: Sys, s1: Sys, s2: Sys, i: nat, th1: Thread, th2: Thread)
    requires At(s, s1, i, th1) && At(s1, s2, i, th2)
    ensures At(s, s2, i, th2)
  {
    assert s.threads[i := th1][i := th2] == s.threads[i := th2];
  }

  // Thread i is in a trace, and the ring it is at work on exists.
  ghost predicate Ready(tr: seq<Sys>, k: nat, m: nat, i: nat, cmd: Cmd) {
    && Trace(tr, i, cmd)
    && k + m < |tr|
    && i < |tr[k].threads|
    && tr[k].head < |tr[k].rings| && tr[k].tail < |tr[k].rings|
    && var pc := tr[k].threads[i].pc;
       RingOf(pc).Some? ==> pc.rq < |tr[k].rings| && |tr[k].rings[pc.rq].cells| == tr[k].R > 0
  }

  // ---------------------------------------------------------------- enqueue

  // From idle to the drawn ticket: four turns.
  lemma {:induction false} EnqueueDraws(tr: seq<Sys>, k: nat, i: nat, v: Item)
    requires Ready(tr, k, 4, i, Enqueue(v)) && tr[k].threads[i].pc.Idle?
    requires var g := tr[k].rings[tr[k].tail]; g.next.None? && !g.closed && |g.cells| == tr[k].R > 0
    ensures var s := tr[k];
            var g, th := s.rings[s.tail], s.threads[i];
            At(s.(rings := s.rings[s.tail := DrawEnqueue(g, Op(i, th.ops + 1))]), tr[k + 4], i,
               th.(pc := ELoadIdx(s.tail, g.tail), ops := th.ops + 1, arg := v, tries := 0))
  {
    var s, cmd := tr[k], Enqueue(v);
    var th := s.threads[i].(ops := s.threads[i].ops + 1, arg := v, tries := 0);
    var th1, th2, th3 := th.(pc := ELoadTail), th.(pc := ELoadNext(s.tail)), th.(pc := EFaaTail(s.tail));
    assert At(s, tr[k + 1], i, th1) by { OneTurn(tr, k, i, cmd); }
    assert At(s, tr[k + 2], i, th2) by {
      assert At(tr[k + 1], tr[k + 2], i, th2) by { OneTurn(tr, k + 1, i, cmd); }
      AtAgain(s, tr[k + 1], tr[k + 2], i, th1, th2);
    }
    assert At(s, tr[k + 3], i, th3) by {
      assert At(tr[k + 2], tr[k + 3], i, th3) by { OneTurn(tr, k + 2, i, cmd); }
      AtAgain(s, tr[k + 2], tr[k + 3], i, th2, th3);
    }
    DrawTurn(tr, k + 3, i, cmd);
    var th4 := th.(pc := ELoadIdx(s.tail, s.rings[s.tail].tail));
    assert s.threads[i := th3][i := th4] == s.threads[i := th4];
  }

  lemma {:induction false} DrawTurn(tr: seq<Sys>, k: nat, i: nat, cmd: Cmd)
    requires Ready(tr, k, 1, i, cmd) && tr[k].threads[i].pc.EFaaTail? && !tr[k].rings[tr[k].threads[i].pc.rq].closed
    ensures var s, th := tr[k], tr[k].threads[i];
            var g := s.rings[th.pc.rq];
            At(s.(rings := s.rings[th.pc.rq := DrawEnqueue(g, Op(i, th.ops))]), tr[k + 1], i,
               th.(pc := ELoadIdx(th.pc.rq, g.tail)))
  {
    OneTurn(tr, k, i, cmd);
  }

  // The cell of the ticket is free: three more turns.
  lemma {:induction false} EnqueueDeposits(tr: seq<Sys>, k: nat, i: nat, cmd: Cmd)
    requires Ready(tr, k, 3, i, cmd) && tr[k].threads[i].pc.ELoadIdx?
    requires var s, pc := tr[k], tr[k].threads[i].pc;
             var c := CellOf(s, pc.rq, pc.t); c.val == EMPTY && c.idx <= pc.t && !c.unsafe
    ensures var s, th := tr[k], tr[k].threads[i];
            At(s.(rings := s.rings[th.pc.rq := Deposit(s.R, s.rings[th.pc.rq], th.pc.t, th.arg)]), tr[k + 3], i,
               th.(pc := Idle))
  {
    var s, th := tr[k], tr[k].threads[i];
    var rq, t := th.pc.rq, th.pc.t;
    var c := CellOf(s, rq, t);
    var th1, th2, th3 := th.(pc := ELoadVal(rq, t, c.idx, false)), th.(pc := ECas2(rq, t, c.idx, false)),
      th.(pc := Idle);
    assert At(s, tr[k + 1], i, th1) by { OneTurn(tr, k, i, cmd); }
    assert At(s, tr[k + 2], i, th2) by {
      assert At(tr[k + 1], tr[k + 2], i, th2) by { OneTurn(tr, k + 1, i, cmd); }
      AtAgain(s, tr[k + 1], tr[k + 2], i, th1, th2);
    }
    DepositTurn(tr, k + 2, i, cmd);
    assert s.threads[i := th2][i := th3] == s.threads[i := th3];
  }

  lemma {:induction false} DepositTurn(tr: seq<Sys>, k: nat, i: nat, cmd: Cmd)
    requires Ready(tr, k, 1, i, cmd) && tr[k].threads[i].pc.ECas2?
    requires var pc := tr[k].threads[i].pc; CellOf(tr[k], pc.rq, pc.t) == Cell(EMPTY, pc.idx, pc.unsafe)
    ensures var s, th := tr[k], tr[k].threads[i];
            At(s.(rings := s.rings[th.pc.rq := Deposit(s.R, s.rings[th.pc.rq], th.pc.t, th.arg)]), tr[k + 1], i,
               th.(pc := Idle))
  {
    OneTurn(tr, k, i, cmd);
  }

  // The cell of the ticket is occupied or past it, and the ring looks full: four turns close it.
  lemma {:induction false} EnqueueCloses(tr: seq<Sys>, k: nat, i: nat, cmd: Cmd)
    requires Ready(tr, k, 4, i, cmd) && tr[k].threads[i].pc.ELoadIdx? && tr[k].threads[i].tries == 0
    requires var s, pc := tr[k], tr[k].threads[i].pc;
             && (CellOf(s, pc.rq, pc.t).val != EMPTY || CellOf(s, pc.rq, pc.t).idx > pc.t)
             && var g := s.rings[pc.rq]; LooksFull(s.R, pc.t, g.head) && !g.closed && g.tail == pc.t + 1
    ensures var s, th := tr[k], tr[k].threads[i];
            At(s.(rings := s.rings[th.pc.rq := s.rings[th.pc.rq].(closed := true)]), tr[k + 4], i,
               th.(pc := EInitRing(th.pc.rq), tries := 1))
  {
    var s, th := tr[k], tr[k].threads[i];
    var rq, t := th.pc.rq, th.pc.t;
    var c := CellOf(s, rq, t);
    var th1, th2 := th.(pc := ELoadVal(rq, t, c.idx, c.unsafe)), th.(pc := ELoadHead(rq, t));
    var th3, th4 := th.(pc := EClose(rq, t), tries := 1), th.(pc := EInitRing(rq), tries := 1);
    assert At(s, tr[k + 1], i, th1) by { OneTurn(tr, k, i, cmd); }
    assert At(s, tr[k + 2], i, th2) by {
      assert At(tr[k + 1], tr[k + 2], i, th2) by { OneTurn(tr, k + 1, i, cmd); }
      AtAgain(s, tr[k + 1], tr[k + 2], i, th1, th2);
    }
    assert At(s, tr[k + 3], i, th3) by {
      assert At(tr[k + 2], tr[k + 3], i, th3) by { OneTurn(tr, k + 2, i, cmd); }
      AtAgain(s, tr[k + 2], tr[k + 3], i, th2, th3);
    }
    CloseTurn(tr, k + 3, i, cmd);
    assert s.threads[i := th3][i := th4] == s.threads[i := th4];
  }

  lemma {:induction false} CloseTurn(tr: seq<Sys>, k: nat, i: nat, cmd: Cmd)
    requires Ready(tr, k, 1, i, cmd) && tr[k].threads[i].pc.EClose?
    requires var g, pc := tr[k].rings[tr[k].threads[i].pc.rq], tr[k].threads[i].pc; !g.closed && g.tail == pc.t + 1
    ensures var s, th := tr[k], tr[k].threads[i];
            At(s.(rings := s.rings[th.pc.rq := s.rings[th.pc.rq].(closed := true)]), tr[k + 1], i,
               th.(pc := EInitRing(th.pc.rq)))
  {
    OneTurn(tr, k, i, cmd);
  }

  // A ring holding just the value of its solo enqueue.
  ghost predicate SoloRing(R: nat, g: Ring, v: int) {
    && R == |g.cells| > 0
    && g.head == 0 && g.tail == 1 && !g.closed && g.next.None?
    && g.cells[0] == Cell(v, 0, false)
    && (forall j: nat :: 0 < j < R ==> g.cells[j] == Cell(EMPTY, j, false))
  }

  lemma {:induction false} InitTurn(tr: seq<Sys>, k: nat, i: nat, cmd: Cmd) returns (g: Ring)
    requires Ready(tr, k, 1, i, cmd) && tr[k].threads[i].pc.EInitRing?
    ensures PrivateRing(tr[k].R, g)
    ensures var th := tr[k].threads[i]; At(tr[k], tr[k + 1], i, th.(pc := ESolo(th.pc.rq), nrq := Some(g)))
  {
    var s, th := tr[k], tr[k].threads[i];
    OneTurn(tr, k, i, cmd);
    g := if th.nrq.None? then InitRing(s.R) else th.nrq.value;
    assert PrivateRing(s.R, g) by {
      assert Link(tr, k, i, cmd);
      assert ThreadInv(s, i);
    }
  }

  lemma {:induction false} SoloTurn(tr: seq<Sys>, k: nat, i: nat, cmd: Cmd, g: Ring) returns (g': Ring)
    requires Ready(tr, k, 1, i, cmd) && tr[k].threads[i].pc.ESolo?
    requires tr[k].threads[i].nrq == Some(g) && PrivateRing(tr[k].R, g)
    ensures SoloRing(tr[k].R, g', tr[k].threads[i].arg)
    ensures var th := tr[k].threads[i]; At(tr[k], tr[k + 1], i, th.(pc := ELink(th.pc.rq), nrq := Some(g')))
  {
    var th := tr[k].threads[i];
    OneTurn(tr, k, i, cmd);
    g' := g.(tail := 1, cells := g.cells[0 := g.cells[0].(val := th.arg, idx := 0)]);
  }

  lemma {:induction false} LinkTurn(tr: seq<Sys>, k: nat, i: nat, cmd: Cmd, g: Ring)
    requires Ready(tr, k, 1, i, cmd) && tr[k].threads[i].pc == ELink(tr[k].tail)
    requires tr[k].threads[i].nrq == Some(g) && tr[k].rings[tr[k].tail].next.None?
    ensures var s, th := tr[k], tr[k].threads[i];
            var n := |s.rings|;
            var g' := g.(log := NO_LOG.(enq := map[0 := Op(i, th.ops)], dep := map[0 := th.arg]));
            At(s.(rings := s.rings[s.tail := s.rings[s.tail].(next := Some(n))] + [g']), tr[k + 1], i,
               th.(pc := ESwingTail(s.tail, n)))
  {
    OneTurn(tr, k, i, cmd);
  }

  lemma {:induction false} SwingTurn(tr: seq<Sys>, k: nat, i: nat, cmd: Cmd, next: nat)
    requires Ready(tr, k, 1, i, cmd) && tr[k].threads[i].pc == ESwingTail(tr[k].tail, next)
    ensures At(tr[k].(tail := next), tr[k + 1], i, tr[k].threads[i].(pc := Idle, nrq := None))
  {
    OneTurn(tr, k, i, cmd);
  }

  // A new ring is appended behind the last: four turns.
  lemma {:induction false} EnqueueAppends(tr: seq<Sys>, k: nat, i: nat, cmd: Cmd) returns (g: Ring)
    requires Ready(tr, k, 4, i, cmd) && tr[k].threads[i].pc == EInitRing(tr[k].tail)
    requires tr[k].rings[tr[k].tail].next.None?
    ensures SoloRing(tr[k].R, g, tr[k].threads[i].arg)
    ensures var th := tr[k].threads[i]; g.log == NO_LOG.(enq := map[0 := Op(i, th.ops)], dep := map[0 := th.arg])
    ensures var s, th := tr[k], tr[k].threads[i];
            var n := |s.rings|;
            At(s.(rings := s.rings[s.tail := s.rings[s.tail].(next := Some(n))] + [g], tail := n), tr[k + 4], i,
               th.(pc := Idle, nrq := None))
  {
    var s, th := tr[k], tr[k].threads[i];
    var g1 := InitTurn(tr, k, i, cmd);
    var g2 := SoloTurn(tr, k + 1, i, cmd, g1);
    var th1, th2 := th.(pc := ESolo(s.tail), nrq := Some(g1)), th.(pc := ELink(s.tail), nrq := Some(g2));
    assert At(s, tr[k + 2], i, th2) by { AtAgain(s, tr[k + 1], tr[k + 2], i, th1, th2); }
    LinkTurn(tr, k + 2, i, cmd, g2);
    g := g2.(log := NO_LOG.(enq := map[0 := Op(i, th.ops)], dep := map[0 := th.arg]));
    SwingTurn(tr, k + 3, i, cmd, |s.rings|);
    UpdateThrice(s.threads, i, th2, th2.(pc := ESwingTail(s.tail, |s.rings|)), th.(pc := Idle, nrq := None));
  }

  lemma UpdateThrice<T>(xs: seq<T>, i: nat, a: T, b: T, c: T)
    requires i < |xs|
    ensures xs[i := a][i := b][i := c] == xs[i := c]
  {
  }

  // ---------------------------------------------------------------- dequeue

  lemma {:induction false} TicketTurn(tr: seq<Sys>, k: nat, i: nat, cmd: Cmd)
    requires Ready(tr, k, 1, i, cmd) && tr[k].threads[i].pc.DFaaHead?
    ensures var s, th := tr[k], tr[k].threads[i];
            var g := s.rings[th.pc.rq];
            At(s.(rings := s.rings[th.pc.rq := DrawDequeue(g, i)]), tr[k + 1], i,
               th.(pc := DLoadIdx(th.pc.rq, g.head), r := 0))
  {
    OneTurn(tr, k, i, cmd);
  }

  lemma {:induction false} ReadIdxTurn(tr: seq<Sys>, k: nat, i: nat, cmd: Cmd)
    requires Ready(tr, k, 1, i, cmd) && tr[k].threads[i].pc.DLoadIdx?
    ensures var th := tr[k].threads[i];
            var c := CellOf(tr[k], th.pc.rq, th.pc.h);
            At(tr[k], tr[k + 1], i, th.(pc := DLoadVal(th.pc.rq, th.pc.h, c.idx, c.unsafe)))
  {
    OneTurn(tr, k, i, cmd);
  }

  // From the read of head to the index of the cell: three turns.
  lemma {:induction false} DequeueDraws(tr: seq<Sys>, k: nat, i: nat, cmd: Cmd)
    requires Ready(tr, k, 3, i, cmd) && tr[k].threads[i].pc.DLoadHead? && |tr[k].rings[tr[k].head].cells| == tr[k].R > 0
    ensures var s, th := tr[k], tr[k].threads[i];
            var g := s.rings[s.head];
            var c := CellOf(s, s.head, g.head);
            At(s.(rings := s.rings[s.head := DrawDequeue(g, i)]), tr[k + 3], i,
               th.(pc := DLoadVal(s.head, g.head, c.idx, c.unsafe), r := 0))
  {
    var s, th := tr[k], tr[k].threads[i];
    var g := s.rings[s.head];
    var c := CellOf(s, s.head, g.head);
    assert At(s, tr[k + 1], i, th.(pc := DFaaHead(s.head))) by { OneTurn(tr, k, i, cmd); }
    TicketTurn(tr, k + 1, i, cmd);
    ReadIdxTurn(tr, k + 2, i, cmd);
    UpdateThrice(s.threads, i, th.(pc := DFaaHead(s.head)), th.(pc := DLoadIdx(s.head, g.head), r := 0),
                 th.(pc := DLoadVal(s.head, g.head, c.idx, c.unsafe), r := 0));
  }

  lemma {:induction false} TakeTurn(tr: seq<Sys>, k: nat, i: nat, cmd: Cmd)
    requires Ready(tr, k, 1, i, cmd) && tr[k].threads[i].pc.DTake?
    requires var pc := tr[k].threads[i].pc; CellOf(tr[k], pc.rq, pc.h) == Cell(pc.val, pc.h, pc.unsafe)
    ensures var s, th := tr[k], tr[k].threads[i];
            var rq, h := th.pc.rq, th.pc.h;
            At(s.(rings := s.rings[rq := Take(s.R, s.rings[rq], h)],
                  answers := s.answers + [Answer(i, rq, h, th.pc.val)]),
               tr[k + 1], i, th.(pc := Idle))
  {
    OneTurn(tr, k, i, cmd);
  }

  // The cell holds the value of the ticket: two turns.
  lemma {:induction false} DequeueTakes(tr: seq<Sys>, k: nat, i: nat, cmd: Cmd)
    requires Ready(tr, k, 2, i, cmd) && tr[k].threads[i].pc.DLoadVal?
    requires var pc := tr[k].threads[i].pc;
             && pc.idx == pc.h
             && var c := CellOf(tr[k], pc.rq, pc.h); c == Cell(c.val, pc.h, pc.unsafe) && c.val != EMPTY
    ensures var s, th := tr[k], tr[k].threads[i];
            var rq, h := th.pc.rq, th.pc.h;
            At(s.(rings := s.rings[rq := Take(s.R, s.rings[rq], h)],
                  answers := s.answers + [Answer(i, rq, h, CellOf(s, rq, h).val)]),
               tr[k + 2], i, th.(pc := Idle))
  {
    var s, th := tr[k], tr[k].threads[i];
    var th1 := th.(pc := DTake(th.pc.rq, th.pc.h, th.pc.unsafe, CellOf(s, th.pc.rq, th.pc.h).val));
    assert At(s, tr[k + 1], i, th1) by { OneTurn(tr, k, i, cmd); }
    TakeTurn(tr, k + 1, i, cmd);
    assert s.threads[i := th1][i := th.(pc := Idle)] == s.threads[i := th.(pc := Idle)];
  }

  lemma {:induction false} SkipTurn(tr: seq<Sys>, k: nat, i: nat, cmd: Cmd)
    requires Ready(tr, k, 1, i, cmd) && tr[k].threads[i].pc.DSkip?
    requires var pc := tr[k].threads[i].pc; CellOf(tr[k], pc.rq, pc.h) == Cell(EMPTY, pc.idx, pc.unsafe)
    ensures var s, th := tr[k], tr[k].threads[i];
            var rq, h := th.pc.rq, th.pc.h;
            At(s.(rings := s.rings[rq := Advance(s.R, s.rings[rq], h)]), tr[k + 1], i, th.(pc := DCheckTail(rq, h)))
  {
    OneTurn(tr, k, i, cmd);
  }

  // The cell is empty and so, by its tail, is the ring: three turns give the ticket up.
  lemma {:induction false} DequeueSkips(tr: seq<Sys>, k: nat, i: nat, cmd: Cmd)
    requires Ready(tr, k, 3, i, cmd) && tr[k].threads[i].pc.DLoadVal? && tr[k].threads[i].r == 0
    requires var s, pc := tr[k], tr[k].threads[i].pc;
             && pc.idx == pc.h && !pc.unsafe
             && CellOf(s, pc.rq, pc.h) == Cell(EMPTY, pc.h, false)
             && NearEmpty(s.rings[pc.rq].tail, pc.h)
    ensures var s, th := tr[k], tr[k].threads[i];
            var rq, h := th.pc.rq, th.pc.h;
            var g := s.rings[rq];
            At(s.(rings := s.rings[rq := Advance(s.R, g, h)]), tr[k + 3], i,
               th.(pc := DCheckTail(rq, h), ttTail := g.tail, ttClosed := g.closed))
  {
    var s, th := tr[k], tr[k].threads[i];
    var rq, h := th.pc.rq, th.pc.h;
    var g := s.rings[rq];
    var th1 := th.(pc := DLoadTail(rq, h, h, false));
    var th2 := th.(pc := DSkip(rq, h, h, false), ttTail := g.tail, ttClosed := g.closed);
    assert At(s, tr[k + 1], i, th1) by { OneTurn(tr, k, i, cmd); }
    assert At(s, tr[k + 2], i, th2) by {
      assert At(tr[k + 1], tr[k + 2], i, th2) by { OneTurn(tr, k + 1, i, cmd); }
      AtAgain(s, tr[k + 1], tr[k + 2], i, th1, th2);
    }
    SkipTurn(tr, k + 2, i, cmd);
    assert s.threads[i := th2][i := th2.(pc := DCheckTail(rq, h))] == s.threads[i := th2.(pc := DCheckTail(rq, h))];
  }

  // The emptiness check and the reads of tail and head in fixState: three turns.
  lemma {:induction false} FixReads(tr: seq<Sys>, k: nat, i: nat, cmd: Cmd)
    requires Ready(tr, k, 3, i, cmd) && tr[k].threads[i].pc.DCheckTail?
    requires var pc := tr[k].threads[i].pc; NearEmpty(tr[k].rings[pc.rq].tail, pc.h)
    ensures var s, th := tr[k], tr[k].threads[i];
            var g := s.rings[th.pc.rq];
            At(s, tr[k + 3], i, th.(pc := FReload(th.pc.rq, th.pc.h, g.tail, g.closed, g.head), sawClosed := g.closed))
  {
    var s := tr[k];
    var g := s.rings[s.threads[i].pc.rq];
    var th := s.threads[i].(sawClosed := g.closed);
    var rq, h := th.pc.rq, th.pc.h;
    var th1, th2, th3 := th.(pc := FLoadTail(rq, h)), th.(pc := FLoadHead(rq, h, g.tail, g.closed)),
                         th.(pc := FReload(rq, h, g.tail, g.closed, g.head));
    assert At(s, tr[k + 1], i, th1) by { OneTurn(tr, k, i, cmd); }
    assert At(s, tr[k + 2], i, th2) by {
      assert At(tr[k + 1], tr[k + 2], i, th2) by { OneTurn(tr, k + 1, i, cmd); }
      AtAgain(s, tr[k + 1], tr[k + 2], i, th1, th2);
    }
    assert At(tr[k + 2], tr[k + 3], i, th3) by { OneTurn(tr, k + 2, i, cmd); }
    AtAgain(s, tr[k + 2], tr[k + 3], i, th2, th3);
  }

  lemma {:induction false} RepairTurn(tr: seq<Sys>, k: nat, i: nat, cmd: Cmd)
    requires Ready(tr, k, 1, i, cmd) && tr[k].threads[i].pc.FCas?
    requires var g := tr[k].rings[tr[k].threads[i].pc.rq]; g.tail == tr[k].threads[i].pc.ft && !g.closed
    ensures var s, th := tr[k], tr[k].threads[i];
            At(s.(rings := s.rings[th.pc.rq := s.rings[th.pc.rq].(tail := th.pc.fh)]), tr[k + 1], i,
               th.(pc := DLoadNext(th.pc.rq, th.pc.h)))
  {
    OneTurn(tr, k, i, cmd);
  }

  // fixState repairs an open ring whose head has overtaken its tail: five turns.
  lemma {:induction false} DequeueRepairs(tr: seq<Sys>, k: nat, i: nat, cmd: Cmd)
    requires Ready(tr, k, 5, i, cmd) && tr[k].threads[i].pc.DCheckTail?
    requires var pc := tr[k].threads[i].pc;
             var g := tr[k].rings[pc.rq]; NearEmpty(g.tail, pc.h) && !g.closed && g.head > g.tail
    ensures var s, th := tr[k], tr[k].threads[i];
            var rq, h := th.pc.rq, th.pc.h;
            var g := s.rings[rq];
            At(s.(rings := s.rings[rq := g.(tail := g.head)]), tr[k + 5], i,
               th.(pc := DLoadNext(rq, h), sawClosed := false))
  {
    var s := tr[k];
    var g := s.rings[s.threads[i].pc.rq];
    var th := s.threads[i].(sawClosed := false);
    var rq, h := th.pc.rq, th.pc.h;
    var th3, th4, th5 := th.(pc := FReload(rq, h, g.tail, false, g.head)), th.(pc := FCas(rq, h, g.tail, g.head)),
      th.(pc := DLoadNext(rq, h));
    FixReads(tr, k, i, cmd);
    assert At(s, tr[k + 4], i, th4) by {
      assert At(tr[k + 3], tr[k + 4], i, th4) by { OneTurn(tr, k + 3, i, cmd); }
      AtAgain(s, tr[k + 3], tr[k + 4], i, th3, th4);
    }
    RepairTurn(tr, k + 4, i, cmd);
    assert s.threads[i := th4][i := th5] == s.threads[i := th5];
  }

  lemma {:induction false} EmptyTurn(tr: seq<Sys>, k: nat, i: nat, cmd: Cmd)
    requires Ready(tr, k, 1, i, cmd) && tr[k].threads[i].pc.DLoadNext? && tr[k].rings[tr[k].threads[i].pc.rq].next.None?
    ensures var s, th := tr[k], tr[k].threads[i];
            At(s.(answers := s.answers + [Answer(i, th.pc.rq, th.pc.h, EMPTY)]), tr[k + 1], i, th.(pc := Idle))
  {
    OneTurn(tr, k, i, cmd);
  }

  lemma {:induction false} NextTurn(tr: seq<Sys>, k: nat, i: nat, cmd: Cmd, next: nat)
    requires Ready(tr, k, 1, i, cmd) && tr[k].threads[i].pc.DLoadNext?
             && tr[k].rings[tr[k].threads[i].pc.rq].next == Some(next)
    ensures var th := tr[k].threads[i];
            At(tr[k], tr[k + 1], i, th.(pc := DSwingHead(th.pc.rq, th.pc.h, next)))
  {
    OneTurn(tr, k, i, cmd);
  }

  lemma {:induction false} HeadTurn(tr: seq<Sys>, k: nat, i: nat, cmd: Cmd)
    requires Ready(tr, k, 1, i, cmd) && tr[k].threads[i].pc.DSwingHead? && tr[k].threads[i].pc.rq == tr[k].head
    ensures var s, th := tr[k], tr[k].threads[i];
            At(s.(head := th.pc.next, early := if th.sawClosed then s.early else s.early + {s.head}), tr[k + 1], i,
               th.(pc := DLoadHead))
  {
    OneTurn(tr, k, i, cmd);
  }

  // The thread sees the next ring and swings head to it: two turns.
  lemma {:induction false} DequeueSwings(tr: seq<Sys>, k: nat, i: nat, cmd: Cmd, next: nat)
    requires Ready(tr, k, 2, i, cmd) && tr[k].threads[i].pc.DLoadNext? && tr[k].threads[i].pc.rq == tr[k].head
    requires tr[k].rings[tr[k].head].next == Some(next)
    ensures var s, th := tr[k], tr[k].threads[i];
            At(s.(head := next, early := if th.sawClosed then s.early else s.early + {s.head}), tr[k + 2], i,
               th.(pc := DLoadHead))
  {
    var s, th := tr[k], tr[k].threads[i];
    NextTurn(tr, k, i, cmd, next);
    HeadTurn(tr, k + 1, i, cmd);
    var th1, th2 := th.(pc := DSwingHead(s.head, th.pc.h, next)), th.(pc := DLoadHead);
    assert s.threads[i := th1][i := th2] == s.threads[i := th2];
  }

  // fixState leaves a closed ring as it is, and head moves on: six turns.
  lemma {:induction false} DequeueMovesOn(tr: seq<Sys>, k: nat, i: nat, cmd: Cmd, next: nat)
    requires Ready(tr, k, 6, i, cmd) && tr[k].threads[i].pc.DCheckTail? && tr[k].threads[i].pc.rq == tr[k].head
    requires var pc := tr[k].threads[i].pc;
             var g := tr[k].rings[pc.rq]; NearEmpty(g.tail, pc.h) && g.closed && g.next == Some(next)
    ensures At(tr[k].(head := next), tr[k + 6], i, tr[k].threads[i].(pc := DLoadHead, sawClosed := true))
  {
    var s := tr[k];
    var g := s.rings[s.head];
    var th := s.threads[i].(sawClosed := true);
    var h := th.pc.h;
    var th3, th4, th6 := th.(pc := FReload(s.head, h, g.tail, true, g.head)), th.(pc := DLoadNext(s.head, h)),
      th.(pc := DLoadHead);
    FixReads(tr, k, i, cmd);
    assert At(s, tr[k + 4], i, th4) by {
      assert At(tr[k + 3], tr[k + 4], i, th4) by { OneTurn(tr, k + 3, i, cmd); }
      AtAgain(s, tr[k + 3], tr[k + 4], i, th3, th4);
    }
    DequeueSwings(tr, k + 4, i, cmd, next);
    assert s.threads[i := th4][i := th6] == s.threads[i := th6];
  }
}
