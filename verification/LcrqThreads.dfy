// How many threads the queue serves: with one it is a linearizable queue, with two or more
// there are runs in which it is not, whatever the size of its rings.

module LcrqThreads {
  import opened Options
  import opened LcrqRing
  import opened LcrqSystem
  import opened LcrqInvariant
  import opened LcrqPreserve
  import opened LcrqFlow
  import opened LcrqHistory
  import opened LcrqOrder
  import opened LcrqTheorems
  import opened LcrqSolo
  import opened LcrqSequential
  import opened LcrqStage
  import opened LcrqLinear
  import opened LcrqLinearProof
  import opened LcrqStranded
  import opened LcrqNotLinear
  import opened LcrqSchedule

  // ---------------------------------------------------------------- one thread

  // A lone thread that found its ring open is still at the last ring, so that head never leaves
  // a ring after an open check.
  ghost predicate Sole(s: Sys) {
    && |s.threads| <= 1 && s.early == {}
    && forall i: nat :: i < |s.threads| ==> SoleThread(s, s.threads[i])
  }

  predicate SoleThread(s: Sys, th: Thread) {
    && (AfterCheck(th.pc) && !th.sawClosed ==> th.pc.rq + 1 == |s.rings|)
    && (th.pc.DSwingHead? ==> th.sawClosed)
  }

  lemma {:induction false} TicketSwings(s: Sys, tid: nat)
    requires Quick(s, tid) && TicketPc(s.threads[tid].pc) && TicketStep(s, tid).threads[tid].pc.DSwingHead?
    ensures var th, th' := s.threads[tid], TicketStep(s, tid).threads[tid];
            && th.pc.DLoadNext? && th.pc.rq < |s.rings| && s.rings[th.pc.rq].next.Some? && th'.sawClosed == th.sawClosed
  {
  }

  // Around the emptiness check no ring is added.
  lemma {:induction false} CheckKeepsRings(s: Sys, tid: nat, cmd: Cmd)
    requires Quick(s, tid)
    requires TicketPc(s.threads[tid].pc) || FixPc(s.threads[tid].pc)
    ensures |Step(s, tid, cmd).rings| == |s.rings|
  {
    if TicketPc(s.threads[tid].pc) { TicketKeepsBooks(s, tid); } else { FixKeepsTickets(s, tid); }
  }

  lemma {:induction false} SoleChecks(s: Sys, tid: nat, cmd: Cmd)
    requires Quick(s, tid) && SoleThread(s, s.threads[tid]) && AfterCheck(Step(s, tid, cmd).threads[tid].pc)
    ensures SoleThread(Step(s, tid, cmd), Step(s, tid, cmd).threads[tid])
  {
    CheckedBefore(s, tid, cmd);
    CheckKeepsRings(s, tid, cmd);
  }

  lemma {:induction false} SoleSwings(s: Sys, tid: nat, cmd: Cmd)
    requires Quick(s, tid) && SoleThread(s, s.threads[tid]) && Step(s, tid, cmd).threads[tid].pc.DSwingHead?
    ensures Step(s, tid, cmd).threads[tid].sawClosed
  {
    StepFlows(s, tid, cmd);
    TicketSwings(s, tid);
  }

  lemma {:induction false} SoleStep(s: Sys, s': Sys, tid: nat, cmd: Cmd, pc': Pc)
    requires Quick(s, tid) && SoleThread(s, s.threads[tid]) && s' == Step(s, tid, cmd) && pc' == s'.threads[tid].pc
    ensures SoleThread(s', s'.threads[tid])
  {
    if AfterCheck(pc') {
      SoleChecks(s, tid, cmd);
    } else if pc'.DSwingHead? {
      SoleSwings(s, tid, cmd);
    }
  }

  lemma {:induction false} SoleTurn(s: Sys, e: Event)
    requires Core(s) && Sole(s)
    ensures Sole(Turn(s, e))
  {
    if e.tid < |s.threads| {
      CoreToLocal(s, e.tid);
      assert SoleThread(s, s.threads[e.tid]);
      SoleStep(s, Turn(s, e), e.tid, e.cmd, Turn(s, e).threads[e.tid].pc);
      StepHead(s, e.tid, e.cmd);
    }
  }

  lemma {:induction false} SoleRun(s: Sys, sched: seq<Event>)
    requires Core(s) && Sole(s)
    ensures Sole(Run(s, sched))
    decreases |sched|
  {
    if sched != [] {
      var m := |sched| - 1;
      SoleRun(s, sched[..m]);
      SoleTurn(Run(s, sched[..m]), sched[m]);
    }
  }

  lemma {:induction false} SoleReach(R: nat, n: nat, sched: seq<Event>)
    requires R > 0 && n <= 1
    ensures Reach(R, n, sched).early == {}
  {
    InitOk(R, n);
    SoleRun(Init(R, n), sched);
  }

  // ------------------------------------------------------- two threads or more

  lemma {:induction false} TensTell(m: nat, x: Note)
    requires x in Tens(m)
    ensures x.op.tid == 1 && x.op.n >= 2
    ensures if x.Invoked? then x.cmd == Enqueue(10) else x.ret == None
  {
    if m > 1 && x !in Ten(m) { TensTell(m - 1, x); }
  }

  function Full9(R: nat): seq<Note>
    requires R > 0
  {
    Before9(R) + [Returned(Op(0, 3), Some(9))]
  }

  // What the history says, note by note.
  lemma {:induction false} Full9Tells(R: nat, x: Note)
    requires R > 0 && x in Full9(R)
    ensures || x in SETUP || x == Invoked(Op(1, 1), Enqueue(8)) || x == Returned(Op(1, 1), None)
            || (x.op.tid == 1 && x.op.n >= 2 && if x.Invoked? then x.cmd == Enqueue(10) else x.ret == None)
            || x == Invoked(Op(1, R + 1), Enqueue(9)) || x == Returned(Op(1, R + 1), None)
            || x == Returned(Op(0, 3), Some(9))
  {
    if x in Tens(R) { TensTell(R, x); }
  }

  lemma {:induction false} Full9Jumps(R: nat)
    requires R > 0
    ensures Jumped(Full9(R), Op(1, 1), Op(1, R + 1), Op(0, 3), 8, 9, 6, 7 + |Tens(R)|)
  {
    var notes := Full9(R);
    var q := 7 + |Tens(R)|;
    assert notes[6] == Returned(Op(1, 1), None) && notes[q] == Invoked(Op(1, R + 1), Enqueue(9));
    assert notes[3] == Returned(Op(0, 2), Some(7)) && notes[q + 2] == Returned(Op(0, 3), Some(9));
    forall c: Cmd | Invoked(Op(1, 1), c) in notes ensures c == Enqueue(8) { Full9Tells(R, Invoked(Op(1, 1), c)); }
    forall op: Op | Invoked(op, Enqueue(9)) in notes
      ensures op == Op(1, R + 1)
    {
      Full9Tells(R, Invoked(op, Enqueue(9)));
    }
    forall op: Op | Invoked(op, Dequeue) in notes
      ensures exists ret: Option<int> :: Returned(op, ret) in notes && ret != Some(8)
    {
      Full9Tells(R, Invoked(op, Dequeue));
      assert Returned(Op(0, 2), Some(7)) in notes && Returned(Op(0, 3), Some(9)) in notes;
    }
  }

  // A schedule, and how the queue looks in the middle of it: enqueue 8 has returned, 9 not begun.
  lemma {:induction false} Jump(R: nat, n: nat) returns (a: seq<Event>, b: seq<Event>)
    requires R > 0 && n >= 2
    ensures Filling(Reach(R, n, a), 3, 1) && TookSecond(Reach(R, n, a + b), R + 1)
    ensures StoryOf(R, n, a + b) == Full9(R)
  {
    var a', c := Schedule(R, n);
    var sched := TakeSecond(R, n, a' + c, R + 1);
    Join(a', c, Alone(0, Dequeue, 5));
    a, b := a', c + Alone(0, Dequeue, 5);
  }

  lemma {:induction false} LeftBehind(R: nat, n: nat, sched: seq<Event>)
    requires R > 0
    requires var s := Reach(R, n, sched);
             s.head == 1 && Deposited(s, 0, 2) && s.rings[0].head == 2 && Stale(s, 0) == {}
    ensures var s := Reach(R, n, sched); !CanReturn(s, 0, 2) && 2 !in s.rings[0].log.taken
  {
    LostIff(R, n, sched, 0, 2);
    assert RingInv(R, Reach(R, n, sched).rings[0]);
  }

  /** A value can be lost, with rings of any size and any two threads: there is a schedule in which
      an enqueue finishes and its value is never returned by any continuation. The dequeuer that
      moved head on had read the ring's tail before that enqueue drew its ticket. */
  lemma {:induction false} ValueCanBeLost(R: nat, n: nat)
    requires R > 0 && n >= 2
    ensures exists sched: seq<Event> :: Lost(Reach(R, n, sched), 0, 2) && Reach(R, n, sched).early == {0}
  {
    var a, b := Schedule(R, n);
    LeftBehind(R, n, a + b);
    assert Lost(Reach(R, n, a + b), 0, 2);
  }

  lemma {:induction false} FifoFails(R: nat, n: nat)
    requires R > 0 && n >= 2
    ensures exists a: seq<Event>, b: seq<Event> :: OrderBroken(Reach(R, n, a), Reach(R, n, a + b), 0, 2, 1, 0)
  {
    var a, b := Jump(R, n);
    LeftBehind(R, n, a + b);
    assert OrderBroken(Reach(R, n, a), Reach(R, n, a + b), 0, 2, 1, 0);
  }

  lemma {:induction false} SoleKeepsOrder(R: nat, n: nat, a: seq<Event>, b: seq<Event>, r: nat, k: nat, r': nat,
                                          k': nat)
    requires R > 0 && n <= 1
    ensures !OrderBroken(Reach(R, n, a), Reach(R, n, a + b), r, k, r', k')
  {
    var s1, s := Reach(R, n, a), Reach(R, n, a + b);
    InitOk(R, n);
    RunSplit(Init(R, n), a, b);
    SoleReach(R, n, a + b);
    if OrderBroken(s1, s, r, k, r', k') {
      RunGrows(s1, b);
      assert Grows(s1.rings[r], s.rings[r]) && RingInv(s.R, s.rings[r]);
      Fifo(R, n, a, b, r, k, r', k');
      ClaimedCanReturn(s, r, k);
    }
  }

  /** First in, first out holds in every run if and only if at most one thread uses the queue. */
  lemma {:induction false} OrderIff(R: nat, n: nat)
    requires R > 0
    ensures (forall a: seq<Event>, b: seq<Event>, r: nat, k: nat, r': nat, k': nat ::
               !OrderBroken(Reach(R, n, a), Reach(R, n, a + b), r, k, r', k')) <==> n <= 1
  {
    if n <= 1 {
      forall a: seq<Event>, b: seq<Event>, r: nat, k: nat, r': nat, k': nat
        ensures !OrderBroken(Reach(R, n, a), Reach(R, n, a + b), r, k, r', k')
      {
        SoleKeepsOrder(R, n, a, b, r, k, r', k');
      }
    } else {
      FifoFails(R, n);
    }
  }

  /** With two threads or more, and rings of any size, there is a run whose history is not
      linearizable: enqueue 8 returns before enqueue 9 is invoked, 9 is dequeued, and all
      operations return, none of them 8. */
  lemma {:induction false} NotLinearizable(R: nat, n: nat)
    requires R > 0 && n >= 2
    ensures exists sched: seq<Event> :: !Linearizable(StoryOf(R, n, sched))
  {
    var a, b := Jump(R, n);
    Full9Jumps(R);
    JumpedIsNotLinearizable(Full9(R), Op(1, 1), Op(1, R + 1), Op(0, 3), 8, 9, 6, 7 + |Tens(R)|);
    assert !Linearizable(StoryOf(R, n, a + b));
  }

  /** Exactly when the queue is linearizable: every run of it is, if and only if at most one
      thread uses it. */
  lemma {:induction false} LinearizableIff(R: nat, n: nat)
    requires R > 0
    ensures (forall sched: seq<Event> :: Linearizable(StoryOf(R, n, sched))) <==> n <= 1
  {
    if n <= 1 {
      forall sched: seq<Event> ensures Linearizable(StoryOf(R, n, sched)) {
        SoleReach(R, n, sched);
        ClosedRunsAreLinearizable(R, n, sched);
      }
    } else {
      NotLinearizable(R, n);
    }
  }

  // ------------------------------------------ a run is not lost with a value

  // The history of the schedule up to the swing of head, on rings of one cell.
  const TOLD: seq<Note> := SETUP + [
    Invoked(Op(1, 1), Enqueue(8)), Returned(Op(1, 1), None),
    Invoked(Op(1, 2), Enqueue(9)), Returned(Op(1, 2), None)
  ]

  const ORDER: seq<Done> := [
    Done(Op(0, 1), Enqueue(7), None), Done(Op(0, 2), Dequeue, Some(7)),
    Done(Op(1, 1), Enqueue(8), None), Done(Op(1, 2), Enqueue(9), None)
  ]

  lemma OrderIsLegal()
    ensures Legal(ORDER)
  {
    assert ORDER[..3][..2] == ORDER[..2] && ORDER[..2][..1] == ORDER[..1] && ORDER[..1][..0] == [];
    assert QueueAfter(ORDER[..1]) == [7];
    assert Legal(ORDER[..1]) && Legal(ORDER[..2]) && Legal(ORDER[..3]);
  }

  // The place in the order of the operation that each note is about.
  const PLACES: seq<nat> := [0, 0, 1, 1, 4, 2, 2, 3, 3]

  lemma PlaceOf(p: nat, i: nat)
    requires p < 9 && i < 4 && ORDER[i].op == TOLD[p].op
    ensures i == PLACES[p]
  {
  }

  lemma PlacesAscend(p: nat, q: nat)
    requires p < q < 9 && TOLD[p].Returned? && TOLD[q].Invoked?
    ensures PLACES[p] < PLACES[q]
  {
  }

  lemma OrderListed(p: nat)
    requires p < 9 && TOLD[p].Returned?
    ensures Lists(ORDER, TOLD[p].op, TOLD[p].ret)
  {
    assert ORDER[PLACES[p]].op == TOLD[p].op;
  }

  lemma OrderInTime()
    ensures RealTime(ORDER, TOLD)
  {
    forall p: nat, q: nat, i: nat, j: nat | p < q < |TOLD| && i < |ORDER| && j < |ORDER|
      && TOLD[p].Returned? && TOLD[q].Invoked? && ORDER[i].op == TOLD[p].op && ORDER[j].op == TOLD[q].op
      ensures i < j
    {
      PlaceOf(p, i);
      PlaceOf(q, j);
      PlacesAscend(p, q);
    }
  }

  lemma OrderInvoked(i: nat)
    requires i < |ORDER|
    ensures Invoked(ORDER[i].op, ORDER[i].cmd) in TOLD
  {
    assert Invoked(ORDER[0].op, ORDER[0].cmd) == TOLD[0] && Invoked(ORDER[1].op, ORDER[1].cmd) == TOLD[2];
    assert Invoked(ORDER[2].op, ORDER[2].cmd) == TOLD[5] && Invoked(ORDER[3].op, ORDER[3].cmd) == TOLD[7];
  }

  lemma OrderReturned(op: Op, ret: Option<int>)
    requires Returned(op, ret) in TOLD
    ensures Lists(ORDER, op, ret)
  {
    var p: nat :| p < |TOLD| && TOLD[p] == Returned(op, ret);
    OrderListed(p);
  }

  lemma OrderDistinct(i: nat, j: nat)
    requires i < j < |ORDER|
    ensures ORDER[i].op != ORDER[j].op
  {
  }

  lemma OrderAllInvoked()
    ensures AllInvoked(ORDER, TOLD)
  {
    forall i: nat | i < |ORDER| ensures Invoked(ORDER[i].op, ORDER[i].cmd) in TOLD { OrderInvoked(i); }
  }

  lemma OrderAllListed()
    ensures AllListed(ORDER, TOLD)
  {
    forall op: Op, ret: Option<int> | Returned(op, ret) in TOLD
      ensures Lists(ORDER, op, ret)
    {
      OrderReturned(op, ret);
    }
  }

  lemma OrderArranges()
    ensures Arranges(ORDER, TOLD)
  {
    forall i: nat, j: nat | i < j < |ORDER| ensures ORDER[i].op != ORDER[j].op { OrderDistinct(i, j); }
    OrderAllInvoked();
    OrderAllListed();
    OrderInTime();
  }

  lemma ToldIsBefore9()
    ensures Before9(1) == TOLD
  {
    assert Tens(1) == [];
  }

  lemma {:induction false} LeavesOne(R: nat, n: nat, sched: seq<Event>, c: nat)
    requires R > 0 && LeftOne(Reach(R, n, sched), c)
    ensures !LeavesNothing(R, n, sched)
  {
    assert sched[..|sched|] == sched;
    assert Kept(Reach(R, n, sched), 0, 2);
  }

  lemma ToldLinearizable(notes: seq<Note>)
    requires notes == TOLD
    ensures Linearizable(notes)
  {
    OrderIsLegal();
    OrderArranges();
  }

  /** That head leaves no value behind is enough for a run to be linearizable, but not needed by a
      single run: on rings of one cell, the schedule up to the swing of head still is. */
  lemma {:induction false} LeavingMayGoUnnoticed(n: nat)
    requires n >= 2
    ensures exists sched: seq<Event> :: Linearizable(StoryOf(1, n, sched)) && !LeavesNothing(1, n, sched)
  {
    var a, b := Schedule(1, n);
    LeavesOne(1, n, a + b, 2);
    ToldIsBefore9();
    ToldLinearizable(StoryOf(1, n, a + b));
  }
}
