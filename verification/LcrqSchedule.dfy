// A schedule of two threads, for rings of any size, in which head leaves a value behind: its
// states and its history.

module LcrqSchedule {
  import opened Options
  import opened LcrqRing
  import opened LcrqSystem
  import opened LcrqInvariant
  import opened LcrqPreserve
  import opened LcrqHistory
  import opened LcrqOrder
  import opened LcrqTheorems
  import opened LcrqSolo
  import opened LcrqSequential
  import opened LcrqStage
  import opened LcrqLinear
  import opened LcrqTale
  import opened LcrqStranded

  // ---------------------------------------------------------- single operations

  // One open ring, whose cells are as operations run one at a time leave them.
  ghost predicate OneRing(s: Sys) {
    && |s.rings| == 1 && s.head == s.tail == 0 && s.early == {}
    && var g := s.rings[0];
    !g.closed && g.next.None? && SeqRing(s.R, g)
  }

  // Only thread i has moved.
  ghost predicate Aside(s: Sys, s': Sys, i: nat) {
    i < |s.threads| == |s'.threads| && s'.threads == s.threads[i := s'.threads[i]]
  }

  // Thread i has run one operation to its end.
  ghost predicate DidOne(s: Sys, s': Sys, i: nat) {
    Aside(s, s', i) && s'.R == s.R && s'.threads[i].pc.Idle? && s'.threads[i].ops == s.threads[i].ops + 1
  }

  // An enqueue that finds room: seven turns.
  lemma {:induction false} EnqueueStage(tr: seq<Sys>, i: nat, v: Item)
    requires Trace(tr, i, Enqueue(v)) && |tr| == 8 && OneRing(tr[0])
    requires i < |tr[0].threads| && tr[0].threads[i].pc.Idle?
    requires tr[0].rings[0].tail < tr[0].rings[0].head + tr[0].R
    ensures OneRing(tr[7]) && DidOne(tr[0], tr[7], i) && tr[7].answers == tr[0].answers
    ensures var s, g, g' := tr[0], tr[0].rings[0], tr[7].rings[0];
            && g'.head == g.head && g'.tail == g.tail + 1 && CellOf(tr[7], 0, g.tail).val == v
            && g'.log.enq == g.log.enq[g.tail := Op(i, s.threads[i].ops + 1)] && g'.log.dep == g.log.dep[g.tail := v]
  {
    var s, g := tr[0], tr[0].rings[0];
    assert g.cells[Slot(g.tail, s.R)] == Cell(EMPTY, g.tail, false);
    EnqueueFitsState(tr, 0, i, v);
    DepositExtends(s.R, g, Op(i, s.threads[i].ops + 1), v);
  }

  lemma {:induction false} BeginTurn(tr: seq<Sys>)
    requires Trace(tr, 0, Dequeue) && |tr| > 1 && 0 < |tr[0].threads| && tr[0].threads[0].pc.Idle?
    ensures At(tr[0], tr[1], 0, tr[0].threads[0].(pc := DLoadHead, ops := tr[0].threads[0].ops + 1))
  {
    OneTurn(tr, 0, 0, Dequeue);
  }

  // A dequeue that finds a value: six turns.
  lemma {:induction false} TakeStage(tr: seq<Sys>)
    requires Trace(tr, 0, Dequeue) && |tr| == 7 && OneRing(tr[0])
    requires 0 < |tr[0].threads| && tr[0].threads[0].pc.Idle? && tr[0].rings[0].head < tr[0].rings[0].tail
    ensures OneRing(tr[6]) && DidOne(tr[0], tr[6], 0)
    ensures var s, g, g' := tr[0], tr[0].rings[0], tr[6].rings[0];
            && g'.head == g.head + 1 && g'.tail == g.tail
            && tr[6].answers == s.answers + [Answer(0, 0, g.head, CellOf(s, 0, g.head).val)]
  {
    var s, g := tr[0], tr[0].rings[0];
    assert g.cells[Slot(g.head, s.R)].idx == g.head;
    BeginTurn(tr);
    DequeueFindsState(tr, 1, 0, Dequeue);
    TakeShortens(s.R, g, 0);
  }

  // A dequeue that finds nothing, up to its read of next: twelve turns.
  lemma {:induction false} EmptyStage(tr: seq<Sys>)
    requires Trace(tr, 0, Dequeue) && |tr| == 13 && OneRing(tr[0])
    requires 0 < |tr[0].threads| && tr[0].threads[0].pc.Idle? && tr[0].rings[0].head == tr[0].rings[0].tail >= 1
    ensures OneRing(tr[12]) && Aside(tr[0], tr[12], 0) && tr[12].R == tr[0].R
    ensures var s, g, g', th' := tr[0], tr[0].rings[0], tr[12].rings[0], tr[12].threads[0];
            && g'.head == g'.tail == g.head + 1
            && th'.pc == DLoadNext(0, g.head) && !th'.sawClosed && th'.ops == s.threads[0].ops + 1
  {
    var s, g := tr[0], tr[0].rings[0];
    assert g.cells[Slot(g.head, s.R)] == Cell(EMPTY, g.head, false);
    BeginTurn(tr);
    DequeueGivesUpState(tr, 1, 0, Dequeue);
    DequeueRepairs(tr, 7, 0, Dequeue);
    SkipKeepsEmpty(s.R, g, 0);
  }

  // An enqueue that finds the ring full closes it and appends another: twelve turns.
  lemma {:induction false} CloseStage(tr: seq<Sys>, i: nat, v: Item) returns (g2: Ring)
    requires Trace(tr, i, Enqueue(v)) && |tr| == 13 && OneRing(tr[0])
    requires i < |tr[0].threads| && tr[0].threads[i].pc.Idle?
    requires tr[0].rings[0].tail == tr[0].rings[0].head + tr[0].R
    ensures DidOne(tr[0], tr[12], i) && tr[12].answers == tr[0].answers
    ensures SoloRing(tr[0].R, g2, v)
    ensures g2.log == NO_LOG.(enq := map[0 := Op(i, tr[0].threads[i].ops + 1)], dep := map[0 := v])
    ensures var s, s', g := tr[0], tr[12], tr[0].rings[0];
            && s'.head == 0 && s'.tail == 1 && s'.early == {}
            && s'.rings == [DrawEnqueue(g, Op(i, s.threads[i].ops + 1)).(closed := true, next := Some(1)), g2]
  {
    var s, g := tr[0], tr[0].rings[0];
    SlotPlus(g.head, s.R);
    assert g.cells[Slot(g.head, s.R)].val != EMPTY;
    g2 := EnqueueOverflowsState(tr, 0, i, v);
  }

  // --------------------------------------------------------------- the schedule

  // The history of a schedule.
  ghost function StoryOf(R: nat, n: nat, sched: seq<Event>): seq<Note>
    requires R > 0
  {
    InitOk(R, n);
    Story(Init(R, n), sched)
  }

  // Thread i runs alone for m turns more.
  lemma {:induction false} Tells(R: nat, n: nat, sched: seq<Event>, i: nat, cmd: Cmd, m: nat)
      returns (sched': seq<Event>, tr: seq<Sys>)
    requires R > 0 && i < n
    ensures sched' == sched + Alone(i, cmd, m)
    ensures Trace(tr, i, cmd) && |tr| == m + 1 && tr[0] == Reach(R, n, sched) && tr[m] == Reach(R, n, sched')
    ensures StoryOf(R, n, sched') == StoryOf(R, n, sched) + SoloTale(tr, i, cmd, 0, m)
  {
    InitOk(R, n);
    var s := Reach(R, n, sched);
    sched' := sched + Alone(i, cmd, m);
    tr := TraceOf(s, i, cmd, m);
    RunSplit(Init(R, n), sched, Alone(i, cmd, m));
    StoryConcat(Init(R, n), sched, Alone(i, cmd, m));
    SoloStory(s, tr, i, cmd, m);
  }

  // All threads but the first are idle.
  ghost predicate OthersIdle(s: Sys) {
    |s.threads| >= 2 && forall j: nat :: 0 < j < |s.threads| ==> s.threads[j].pc.Idle?
  }

  // Thread 0 has found the ring empty and open, and is about to read its next.
  ghost predicate Poised(s: Sys) {
    && OthersIdle(s)
    && s.threads[0].pc == DLoadNext(0, 1) && !s.threads[0].sawClosed && s.threads[0].ops == 3
  }

  ghost predicate Fresh(s: Sys) {
    && OneRing(s) && s.rings[0].head == s.rings[0].tail == 0 && s.answers == []
    && OthersIdle(s) && s.threads[0].pc.Idle? && s.threads[0].ops == 0 && s.threads[1].ops == 0
  }

  const SETUP: seq<Note> := [
    Invoked(Op(0, 1), Enqueue(7)), Returned(Op(0, 1), None),
    Invoked(Op(0, 2), Dequeue), Returned(Op(0, 2), Some(7)),
    Invoked(Op(0, 3), Dequeue)
  ]

  // The value 7 has been enqueued, and then dequeued.
  ghost predicate OneIn(s: Sys) {
    && OneRing(s) && s.rings[0].head == 0 && s.rings[0].tail == 1 && CellOf(s, 0, 0).val == 7 && s.answers == []
    && OthersIdle(s) && s.threads[0].pc.Idle? && s.threads[0].ops == 1 && s.threads[1].ops == 0
  }

  ghost predicate OneOut(s: Sys) {
    && OneRing(s) && s.rings[0].head == s.rings[0].tail == 1
    && OthersIdle(s) && s.threads[0].pc.Idle? && s.threads[0].ops == 2 && s.threads[1].ops == 0
  }

  lemma {:induction false} InState(tr: seq<Sys>)
    requires Trace(tr, 0, Enqueue(7)) && |tr| == 8 && Fresh(tr[0])
    ensures OneIn(tr[7]) && tr[7].R == tr[0].R && tr[7].answers == tr[0].answers
  {
    EnqueueStage(tr, 0, 7);
  }

  lemma {:induction false} InTale(tr: seq<Sys>)
    requires Trace(tr, 0, Enqueue(7)) && |tr| == 8 && Fresh(tr[0])
    ensures OneIn(tr[7]) && tr[7].R == tr[0].R && SoloTale(tr, 0, Enqueue(7), 0, 7) == SETUP[..2]
  {
    InState(tr);
    TellsOperation(tr, 0, Enqueue(7), 7);
  }

  lemma {:induction false} OutTale(tr: seq<Sys>)
    requires Trace(tr, 0, Dequeue) && |tr| == 7 && OneIn(tr[0])
    ensures OneOut(tr[6]) && tr[6].R == tr[0].R && SoloTale(tr, 0, Dequeue, 0, 6) == SETUP[2..4]
  {
    TakeStage(tr);
    TellsOperation(tr, 0, Dequeue, 6);
  }

  lemma {:induction false} EmptyTale(tr: seq<Sys>)
    requires Trace(tr, 0, Dequeue) && |tr| == 13 && OneOut(tr[0])
    ensures OneRing(tr[12]) && Poised(tr[12]) && tr[12].threads[1].ops == 0
    ensures tr[12].R == tr[0].R && tr[12].rings[0].head == tr[12].rings[0].tail == 2
    ensures SoloTale(tr, 0, Dequeue, 0, 12) == SETUP[4..]
  {
    EmptyStage(tr);
    TellsBeginning(tr, 0, Dequeue, 12);
  }

  lemma {:induction false} StartFresh(R: nat, n: nat)
    requires R > 0 && n >= 2
    ensures StoryOf(R, n, []) == [] && Fresh(Reach(R, n, [])) && Reach(R, n, []).R == R
  {
    InitOk(R, n);
    InitQuiet(R, n);
    HeadRing(Init(R, n));
    assert Reach(R, n, []) == Init(R, n);
  }

  lemma Parts<T>(s: seq<T>, i: nat, j: nat)
    requires i <= j <= |s|
    ensures [] + s[..i] + s[i..j] + s[j..] == s
  {
  }

  lemma {:induction false} Setup(R: nat, n: nat) returns (sched: seq<Event>)
    requires R > 0 && n >= 2
    ensures StoryOf(R, n, sched) == SETUP
    ensures var s := Reach(R, n, sched);
            OneRing(s) && Poised(s) && s.threads[1].ops == 0 && s.rings[0].head == s.rings[0].tail == 2
  {
    StartFresh(R, n);
    var a, ta := Tells(R, n, [], 0, Enqueue(7), 7);
    var b, tb := Tells(R, n, a, 0, Dequeue, 6);
    var c, tc := Tells(R, n, b, 0, Dequeue, 12);
    InTale(ta);
    OutTale(tb);
    EmptyTale(tc);
    Parts(SETUP, 2, 4);
    sched := c;
  }

  // Thread 1 fills the ring; its first value went in under ticket 2.
  ghost predicate Filling(s: Sys, t: nat, c: nat) {
    && OneRing(s) && Poised(s) && s.rings[0].head == 2 && s.rings[0].tail == t >= 3 && s.threads[1].ops == c
    && Deposited(s, 0, 2) && OpOf(s, 0, 2) == Op(1, 1)
  }

  lemma {:induction false} FirstTale(tr: seq<Sys>)
    requires Trace(tr, 1, Enqueue(8)) && |tr| == 8 && OneRing(tr[0]) && Poised(tr[0]) && tr[0].threads[1].ops == 0
    requires tr[0].rings[0].head == tr[0].rings[0].tail == 2
    ensures Filling(tr[7], 3, 1) && tr[7].R == tr[0].R
    ensures SoloTale(tr, 1, Enqueue(8), 0, 7) == [Invoked(Op(1, 1), Enqueue(8)), Returned(Op(1, 1), None)]
  {
    EnqueueStage(tr, 1, 8);
    TellsOperation(tr, 1, Enqueue(8), 7);
  }

  lemma {:induction false} FillState(tr: seq<Sys>, t: nat, c: nat)
    requires Trace(tr, 1, Enqueue(10)) && |tr| == 8 && Filling(tr[0], t, c) && t < 2 + tr[0].R
    ensures Filling(tr[7], t + 1, c + 1) && tr[7].R == tr[0].R && tr[7].answers == tr[0].answers
    ensures tr[7].threads[1].pc.Idle?
  {
    EnqueueStage(tr, 1, 10);
  }

  lemma {:induction false} FillTale(tr: seq<Sys>, t: nat, c: nat)
    requires Trace(tr, 1, Enqueue(10)) && |tr| == 8 && Filling(tr[0], t, c) && t < 2 + tr[0].R
    ensures Filling(tr[7], t + 1, c + 1) && tr[7].R == tr[0].R
    ensures SoloTale(tr, 1, Enqueue(10), 0, 7) == Ten(c + 1)
  {
    FillState(tr, t, c);
    TellsOperation(tr, 1, Enqueue(10), 7);
  }

  function Ten(m: nat): seq<Note> {
    [Invoked(Op(1, m), Enqueue(10)), Returned(Op(1, m), None)]
  }

  // The history of the enqueues of 10 by thread 1, its operations 2 to m.
  function Tens(m: nat): seq<Note> {
    if m <= 1 then [] else Tens(m - 1) + Ten(m)
  }

  // Operations up to the m-th have filled the ring up to ticket m + 2, and told so.
  ghost predicate Filled(s: Sys, told0: seq<Note>, told: seq<Note>, m: nat) {
    Filling(s, m + 2, m) && told == told0 + Tens(m)
  }

  // One more 10.
  lemma {:induction false} FillOne(R: nat, n: nat, sched0: seq<Event>, t: nat, c: nat, m: nat)
      returns (sched: seq<Event>)
    requires R > 0 && n >= 2 && Filling(Reach(R, n, sched0), t, c) && t < 2 + R && m == c + 1
    ensures Filling(Reach(R, n, sched), t + 1, m) && sched == sched0 + Alone(1, Enqueue(10), 7)
    ensures StoryOf(R, n, sched) == StoryOf(R, n, sched0) + Ten(m)
  {
    var b, tr := Tells(R, n, sched0, 1, Enqueue(10), 7);
    FillTale(tr, t, c);
    sched := b;
  }

  lemma JoinNotes(s0: seq<Note>, s1: seq<Note>, s2: seq<Note>, m: nat)
    requires m >= 2 && s1 == s0 + Tens(m - 1) && s2 == s1 + Ten(m)
    ensures s2 == s0 + Tens(m)
  {
    Join(s0, Tens(m - 1), Ten(m));
  }

  lemma {:induction false} FilledMore(s: Sys, s': Sys, told0: seq<Note>, told: seq<Note>, told': seq<Note>, c: nat,
                                      m: nat)
    requires Filled(s, told0, told, c) && m == c + 1 >= 2 && Filling(s', c + 3, m) && told' == told + Ten(m)
    ensures Filled(s', told0, told', m)
  {
    JoinNotes(told0, told, told', m);
  }

  lemma {:induction false} Fill(R: nat, n: nat, sched0: seq<Event>, m: nat) returns (sched: seq<Event>, d: seq<Event>)
    requires R > 0 && n >= 2 && Filling(Reach(R, n, sched0), 3, 1) && 1 <= m <= R
    ensures sched == sched0 + d
    ensures Filled(Reach(R, n, sched), StoryOf(R, n, sched0), StoryOf(R, n, sched), m)
  {
    if m == 1 {
      sched, d := sched0, [];
      assert sched == sched0 + d && Tens(m) == [];
    } else {
      var c := m - 1;
      var a, d0 := Fill(R, n, sched0, c);
      sched := FillOne(R, n, a, c + 2, c, m);
      FilledMore(Reach(R, n, a), Reach(R, n, sched), StoryOf(R, n, sched0), StoryOf(R, n, a), StoryOf(R, n, sched), c,
                 m);
      d := d0 + Alone(1, Enqueue(10), 7);
      Join(sched0, d0, Alone(1, Enqueue(10), 7));
    }
  }

  lemma Join<T>(a: seq<T>, b: seq<T>, c: seq<T>)
    ensures a + b + c == a + (b + c)
  {
  }

  // The ring is closed and another appended, with head still at the first.
  ghost predicate Appended(s: Sys, c: nat) {
    && Poised(s) && |s.rings| == 2 && s.head == 0 && s.tail == 1 && s.early == {} && s.threads[1].ops == c
    && |s.rings[0].cells| == s.R > 0 && s.rings[0].head == 2 && s.rings[0].next == Some(1)
    && Deposited(s, 0, 2) && OpOf(s, 0, 2) == Op(1, 1)
    && SoloRing(s.R, s.rings[1], 9) && Deposited(s, 1, 0) && OpOf(s, 1, 0) == Op(1, c)
  }

  lemma {:induction false} CloseState(tr: seq<Sys>, c: nat)
    requires Trace(tr, 1, Enqueue(9)) && |tr| == 13 && Filling(tr[0], 2 + tr[0].R, c)
    ensures Appended(tr[12], c + 1) && DidOne(tr[0], tr[12], 1) && tr[12].answers == tr[0].answers
  {
    var g2 := CloseStage(tr, 1, 9);
    assert tr[12].rings[0].log.dep == tr[0].rings[0].log.dep;
  }

  lemma {:induction false} CloseTale(tr: seq<Sys>, c: nat)
    requires Trace(tr, 1, Enqueue(9)) && |tr| == 13 && Filling(tr[0], 2 + tr[0].R, c)
    ensures Appended(tr[12], c + 1)
    ensures SoloTale(tr, 1, Enqueue(9), 0, 12) == [Invoked(Op(1, c + 1), Enqueue(9)), Returned(Op(1, c + 1), None)]
  {
    CloseState(tr, c);
    TellsOperation(tr, 1, Enqueue(9), 12);
  }

  // Head has left the first ring, with the value of ticket 2 in it and no thread about to draw.
  ghost predicate LeftOne(s: Sys, c: nat) {
    && OthersIdle(s) && s.threads[0].pc.DLoadHead? && s.threads[0].ops == 3 && s.threads[1].ops == c
    && |s.rings| == 2 && s.head == s.tail == 1 && s.early == {0} && s.R > 0
    && s.rings[0].head == 2 && Stale(s, 0) == {} && Deposited(s, 0, 2) && OpOf(s, 0, 2) == Op(1, 1)
    && SoloRing(s.R, s.rings[1], 9) && Deposited(s, 1, 0) && OpOf(s, 1, 0) == Op(1, c)
  }

  lemma {:induction false} LeaveTale(tr: seq<Sys>, c: nat)
    requires Trace(tr, 0, Dequeue) && |tr| == 3 && Appended(tr[0], c)
    ensures LeftOne(tr[2], c) && SoloTale(tr, 0, Dequeue, 0, 2) == []
  {
    DequeueSwings(tr, 0, 0, Dequeue, 1);
    TellsNothing(tr, 0, Dequeue, 0, 2);
  }

  // The value of the second ring is returned, and that of the first is behind.
  ghost predicate TookSecond(s: Sys, c: nat) {
    && |s.rings| == 2 && s.head == 1 && s.rings[0].head == 2 && Stale(s, 0) == {}
    && Deposited(s, 0, 2) && OpOf(s, 0, 2) == Op(1, 1)
    && Deposited(s, 1, 0) && OpOf(s, 1, 0) == Op(1, c) && 0 in s.rings[1].log.taken
  }

  lemma {:induction false} LastTale(tr: seq<Sys>, c: nat)
    requires Trace(tr, 0, Dequeue) && |tr| == 6 && LeftOne(tr[0], c)
    ensures TookSecond(tr[5], c)
    ensures SoloTale(tr, 0, Dequeue, 0, 5) == [Returned(Op(0, 3), Some(9))]
  {
    assert Slot(0, tr[0].R) == 0 by { SlotSelf(0, tr[0].R); }
    DequeueFindsState(tr, 0, 0, Dequeue);
    TellsReturn(tr, 0, Dequeue, 0, 5);
  }

  // ------------------------------------------------------------- its history

  function Before9(R: nat): seq<Note>
    requires R > 0
  {
    SETUP + [Invoked(Op(1, 1), Enqueue(8)), Returned(Op(1, 1), None)] + Tens(R)
    + [Invoked(Op(1, R + 1), Enqueue(9)), Returned(Op(1, R + 1), None)]
  }

  lemma {:induction false} First(R: nat, n: nat) returns (sched: seq<Event>)
    requires R > 0 && n >= 2
    ensures Filling(Reach(R, n, sched), 3, 1)
    ensures StoryOf(R, n, sched) == SETUP + [Invoked(Op(1, 1), Enqueue(8)), Returned(Op(1, 1), None)]
  {
    var z := Setup(R, n);
    var a, tr := Tells(R, n, z, 1, Enqueue(8), 7);
    FirstTale(tr);
    sched := a;
  }

  lemma {:induction false} Close(R: nat, n: nat, sched0: seq<Event>, c: nat) returns (sched: seq<Event>)
    requires R > 0 && n >= 2 && Filling(Reach(R, n, sched0), 2 + R, c)
    ensures Appended(Reach(R, n, sched), c + 1) && sched == sched0 + Alone(1, Enqueue(9), 12)
    ensures StoryOf(R, n, sched)
         == StoryOf(R, n, sched0) + [Invoked(Op(1, c + 1), Enqueue(9)), Returned(Op(1, c + 1), None)]
  {
    var b, tr := Tells(R, n, sched0, 1, Enqueue(9), 12);
    CloseTale(tr, c);
    sched := b;
  }

  lemma {:induction false} LeaveRing(R: nat, n: nat, sched0: seq<Event>, c: nat) returns (sched: seq<Event>)
    requires R > 0 && n >= 2 && Appended(Reach(R, n, sched0), c)
    ensures LeftOne(Reach(R, n, sched), c) && sched == sched0 + Alone(0, Dequeue, 2)
    ensures StoryOf(R, n, sched) == StoryOf(R, n, sched0)
  {
    var b, tr := Tells(R, n, sched0, 0, Dequeue, 2);
    LeaveTale(tr, c);
    sched := b;
  }

  // Up to the return of enqueue 8, and from there to the swing of head.
  lemma {:induction false} Schedule(R: nat, n: nat) returns (a: seq<Event>, b: seq<Event>)
    requires R > 0 && n >= 2
    ensures Filling(Reach(R, n, a), 3, 1)
    ensures LeftOne(Reach(R, n, a + b), R + 1) && StoryOf(R, n, a + b) == Before9(R)
  {
    a := First(R, n);
    var f, d := Fill(R, n, a, R);
    var g := Close(R, n, f, R);
    var h := LeaveRing(R, n, g, R + 1);
    Join(a, d, Alone(1, Enqueue(9), 12));
    Join(a, d + Alone(1, Enqueue(9), 12), Alone(0, Dequeue, 2));
    b := d + Alone(1, Enqueue(9), 12) + Alone(0, Dequeue, 2);
    assert h == a + b;
  }

  // Thread 0 returns 9.
  lemma {:induction false} TakeSecond(R: nat, n: nat, sched0: seq<Event>, c: nat) returns (sched: seq<Event>)
    requires R > 0 && n >= 2 && LeftOne(Reach(R, n, sched0), c)
    ensures TookSecond(Reach(R, n, sched), c) && sched == sched0 + Alone(0, Dequeue, 5)
    ensures StoryOf(R, n, sched) == StoryOf(R, n, sched0) + [Returned(Op(0, 3), Some(9))]
  {
    var b, tr := Tells(R, n, sched0, 0, Dequeue, 5);
    LastTale(tr, c);
    sched := b;
  }
}
