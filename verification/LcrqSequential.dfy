// Run one operation at a time, the queue is an unbounded FIFO queue.

module LcrqSequential {
  import opened Options
  import opened LcrqRing
  import opened LcrqSystem
  import opened LcrqInvariant
  import opened LcrqPreserve
  import opened LcrqHistory
  import opened LcrqSolo

  // ------------------------------------------------------------ slots again

  lemma MulAtMost(R: nat, d: int)
    requires d <= 0
    ensures R * d <= 0
  {
    assert R * -d >= 0;
    assert R * d == -(R * -d);
  }

  lemma {:induction false} SlotDistinct(k: nat, k': nat, R: nat)
    requires R > 0 && k < k' < k + R
    ensures Slot(k, R) != Slot(k', R)
  {
    if Slot(k, R) == Slot(k', R) {
      var d := k' / R - k / R;
      assert k' - k == R * (k' / R) - R * (k / R);
      MulDiff(R, k' / R, k / R);
      if d >= 1 {
        MulAtLeast(R, d);
      } else {
        MulAtMost(R, d);
      }
    }
  }

  // ------------------------------------------------------ rings between runs

  // One past the last deposited ticket: closing consumed one more ticket.
  function End(g: Ring): int {
    if g.closed then g.tail - 1 else g.tail
  }

  // Tickets head..End hold values, the following ones, up to head + R, are free.
  ghost predicate SeqRing(R: nat, g: Ring) {
    && R == |g.cells| > 0
    && g.head <= End(g) <= g.head + R
    && (forall k: nat :: g.head <= k < g.head + R ==>
          var c := g.cells[Slot(k, R)]; c.idx == k && !c.unsafe && (c.val == EMPTY <==> k >= End(g)))
  }

  function RingContents(R: nat, g: Ring): seq<int>
    requires R == |g.cells| > 0 && g.head <= End(g)
  {
    seq(End(g) - g.head, j requires 0 <= j < End(g) - g.head => g.cells[Slot(g.head + j, R)].val)
  }

  ghost predicate SeqRings(R: nat, gs: seq<Ring>) {
    forall r: nat :: r < |gs| ==> SeqRing(R, gs[r])
  }

  ghost function AllContents(R: nat, gs: seq<Ring>): seq<int>
    requires SeqRings(R, gs)
  {
    if gs == [] then [] else RingContents(R, gs[0]) + AllContents(R, gs[1..])
  }

  lemma Concat3<T>(a: seq<T>, b: seq<T>, c: seq<T>)
    ensures a + (b + c) == a + b + c
  {
  }

  lemma {:induction false} AllContentsAppend(R: nat, gs: seq<Ring>, hs: seq<Ring>)
    requires SeqRings(R, gs + hs)
    ensures SeqRings(R, gs) && SeqRings(R, hs) && AllContents(R, gs + hs) == AllContents(R, gs) + AllContents(R, hs)
    decreases |gs|
  {
    forall r: nat | r < |gs| ensures SeqRing(R, gs[r]) { assert (gs + hs)[r] == gs[r]; }
    forall r: nat | r < |hs| ensures SeqRing(R, hs[r]) { assert (gs + hs)[|gs| + r] == hs[r]; }
    if gs == [] {
      assert gs + hs == hs;
      assert [] + AllContents(R, hs) == AllContents(R, hs);
    } else {
      assert (gs + hs)[1..] == gs[1..] + hs && (gs + hs)[0] == gs[0];
      AllContentsAppend(R, gs[1..], hs);
      Concat3(RingContents(R, gs[0]), AllContents(R, gs[1..]), AllContents(R, hs));
    }
  }

  // The rings from head on look as solo operations leave them.
  ghost predicate RingsAtRest(s: Sys) {
    && s.head <= s.tail == |s.rings| - 1
    && SeqRings(s.R, s.rings[s.head..])
    && (forall r: nat :: s.head <= r < |s.rings| ==> (s.rings[r].closed <==> r < s.tail))
    && (forall r: nat :: s.head < r < |s.rings| ==> s.rings[r].head == 0 && End(s.rings[r]) >= 1)
  }

  // No operation is in progress.
  ghost predicate Quiet(s: Sys) {
    RingsAtRest(s) && forall i: nat :: i < |s.threads| ==> s.threads[i].pc.Idle?
  }

  ghost function Contents(s: Sys): seq<int>
    requires RingsAtRest(s)
  {
    AllContents(s.R, s.rings[s.head..])
  }

  // The first operation was an enqueue: on a ring with tail 0 the source never reports empty.
  ghost predicate Started(s: Sys) {
    s.tail < |s.rings| && s.rings[s.tail].tail >= 1
  }

  // One operation of thread i, run alone from start to finish in m turns.
  ghost predicate Completes(s: Sys, i: nat, cmd: Cmd, m: nat)
    requires Core(s)
  {
    && i < |s.threads|
    && Solo(s, i, cmd, m).threads[i].pc.Idle?
    && Solo(s, i, cmd, m).threads[i].ops == s.threads[i].ops + 1
  }

  // ---------------------------------------------------------------- enqueue

  lemma {:induction false} DepositExtends(R: nat, g: Ring, op: Op, v: Item)
    requires SeqRing(R, g) && !g.closed && g.tail < g.head + R
    ensures var g' := Deposit(R, DrawEnqueue(g, op), g.tail, v);
            SeqRing(R, g') && RingContents(R, g') == RingContents(R, g) + [v]
  {
    var g' := Deposit(R, DrawEnqueue(g, op), g.tail, v);
    forall k: nat | g.head <= k < g.head + R && k != g.tail ensures Slot(k, R) != Slot(g.tail, R) {
      if k < g.tail { SlotDistinct(k, g.tail, R); } else { SlotDistinct(g.tail, k, R); }
    }
  }

  lemma {:induction false} CloseKeeps(R: nat, g: Ring, g': Ring)
    requires SeqRing(R, g) && !g.closed
    requires g'.cells == g.cells && g'.head == g.head && g'.tail == g.tail + 1 && g'.closed
    ensures SeqRing(R, g') && RingContents(R, g') == RingContents(R, g)
  {
  }

  lemma {:induction false} SoloRingContents(R: nat, g: Ring, v: Item)
    requires SoloRing(R, g, v)
    ensures SeqRing(R, g) && RingContents(R, g) == [v]
  {
    forall k: nat | k < R ensures Slot(k, R) == k { SlotSelf(k, R); }
  }

  // The contents after the last ring is replaced by hs.
  lemma {:induction false} LastReplaced(R: nat, gs: seq<Ring>, hs: seq<Ring>, v: int)
    requires |gs| > 0 && SeqRings(R, gs) && SeqRings(R, hs)
    requires AllContents(R, hs) == RingContents(R, gs[|gs| - 1]) + [v]
    ensures SeqRings(R, gs[..|gs| - 1] + hs)
    ensures AllContents(R, gs[..|gs| - 1] + hs) == AllContents(R, gs) + [v]
  {
    var m := |gs| - 1;
    var front, last := gs[..m], gs[m..];
    assert gs == front + last;
    AllContentsAppend(R, front, last);
    assert last[0] == gs[m] && last[1..] == [];
    assert AllContents(R, last) == RingContents(R, gs[m]);
    AllContentsAppend(R, front, hs);
  }

  // The last ring holds one value more, and nothing else has changed.
  lemma {:induction false} QuietAfterDeposit(s: Sys, s': Sys, i: nat, g': Ring, v: int)
    requires Quiet(s) && i < |s.threads| == |s'.threads|
    requires s'.R == s.R && s'.rings == s.rings[s.tail := g'] && s'.head == s.head && s'.tail == s.tail
    requires forall j: nat :: j < |s.threads| ==> s'.threads[j].pc.Idle?
    requires SeqRing(s.R, g') && !g'.closed && g'.head == s.rings[s.tail].head && End(g') >= 1
    requires SeqRing(s.R, s.rings[s.tail]) && RingContents(s.R, g') == RingContents(s.R, s.rings[s.tail]) + [v]
    ensures Quiet(s') && Started(s') && Contents(s') == Contents(s) + [v]
  {
    var gs := s.rings[s.head..];
    assert gs[|gs| - 1] == s.rings[s.tail];
    UpdateLast(s.rings, s.head, g');
    assert s'.rings[s'.head..] == gs[..|gs| - 1] + [g'];
    assert AllContents(s.R, [g']) == RingContents(s.R, g') by { assert [g'][1..] == []; }
    LastReplaced(s.R, gs, [g'], v);
  }

  lemma {:induction false} EnqueueFitsState(tr: seq<Sys>, k: nat, i: nat, v: Item)
    requires Ready(tr, k, 7, i, Enqueue(v)) && tr[k].threads[i].pc.Idle?
    requires var s := tr[k];
             var g := s.rings[s.tail];
             && g.next.None? && !g.closed && |g.cells| == s.R > 0
             && CellOf(s, s.tail, g.tail) == Cell(EMPTY, g.tail, false)
    ensures var s := tr[k];
            var g, th := s.rings[s.tail], s.threads[i];
            var g' := Deposit(s.R, DrawEnqueue(g, Op(i, th.ops + 1)), g.tail, v);
            At(s.(rings := s.rings[s.tail := g']), tr[k + 7], i,
               th.(pc := Idle, ops := th.ops + 1, arg := v, tries := 0))
  {
    var s := tr[k];
    var g, th := s.rings[s.tail], s.threads[i];
    EnqueueDraws(tr, k, i, v);
    EnqueueDeposits(tr, k + 4, i, Enqueue(v));
    var th4 := th.(pc := ELoadIdx(s.tail, g.tail), ops := th.ops + 1, arg := v, tries := 0);
    UpdateTwice(s.threads, i, th4, th4.(pc := Idle));
    var g4 := DrawEnqueue(g, Op(i, th.ops + 1));
    UpdateTwice(s.rings, s.tail, g4, Deposit(s.R, g4, g.tail, v));
  }

  lemma {:induction false} EnqueueFitsAt(tr: seq<Sys>, i: nat, v: Item)
    requires Trace(tr, i, Enqueue(v)) && |tr| == 8 && Quiet(tr[0]) && i < |tr[0].threads|
    requires var s := tr[0];
             var g := s.rings[s.tail]; g.next.None? && SeqRing(s.R, g) && g.tail < g.head + s.R
    ensures var s, s' := tr[0], tr[7];
            Quiet(s') && Started(s') && Contents(s') == Contents(s) + [v] && s'.answers == s.answers
    ensures i < |tr[7].threads| && tr[7].threads[i].ops == tr[0].threads[i].ops + 1
  {
    var s := tr[0];
    var g := s.rings[s.tail];
    var op := Op(i, s.threads[i].ops + 1);
    assert var c := g.cells[Slot(g.tail, s.R)]; c == Cell(EMPTY, g.tail, false);
    EnqueueFitsState(tr, 0, i, v);
    DepositExtends(s.R, g, op, v);
    QuietAfterDeposit(s, tr[7], i, Deposit(s.R, DrawEnqueue(g, op), g.tail, v), v);
  }

  lemma {:induction false} EnqueueFits(s: Sys, i: nat, v: Item)
    requires Core(s) && Quiet(s) && i < |s.threads| && s.rings[s.tail].tail < s.rings[s.tail].head + s.R
    ensures Completes(s, i, Enqueue(v), 7)
    ensures var s' := Solo(s, i, Enqueue(v), 7);
            Quiet(s') && Started(s') && Contents(s') == Contents(s) + [v] && s'.answers == s.answers
  {
    HeadRing(s);
    assert s.rings[s.tail].next.None?;
    var tr := TraceOf(s, i, Enqueue(v), 7);
    EnqueueFitsAt(tr, i, v);
  }

  // The last ring is closed with its values and a new ring holds one value more.
  ghost predicate Appended(s: Sys, s': Sys, g1: Ring, g2: Ring) {
    && s'.R == s.R && s.tail < |s.rings| && s'.rings == s.rings[s.tail := g1] + [g2]
    && s'.head == s.head && s'.tail == |s.rings|
    && g1.closed && g1.head == s.rings[s.tail].head && End(g1) >= 1
  }

  lemma {:induction false} AppendedContents(s: Sys, s': Sys, g1: Ring, g2: Ring, v: Item)
    requires RingsAtRest(s) && Appended(s, s', g1, g2) && SeqRing(s.R, g1) && SoloRing(s.R, g2, v)
    requires SeqRing(s.R, s.rings[s.tail]) && RingContents(s.R, g1) == RingContents(s.R, s.rings[s.tail])
    ensures SeqRings(s.R, s'.rings[s'.head..])
    ensures AllContents(s.R, s'.rings[s'.head..]) == Contents(s) + [v]
  {
    var gs := s.rings[s.head..];
    assert gs[|gs| - 1] == s.rings[s.tail];
    assert s'.rings[s'.head..] == gs[..|gs| - 1] + [g1, g2] by { AppendLast(s.rings, s.head, g1, g2); }
    assert SeqRing(s.R, g2) && RingContents(s.R, g2) == [v] by { SoloRingContents(s.R, g2, v); }
    TwoContents(s.R, g1, g2);
    LastReplaced(s.R, gs, [g1, g2], v);
  }

  lemma {:induction false} QuietAfterAppend(s: Sys, s': Sys, i: nat, g1: Ring, g2: Ring, v: Item)
    requires Quiet(s) && i < |s.threads| == |s'.threads| && Appended(s, s', g1, g2)
    requires forall j: nat :: j < |s.threads| ==> s'.threads[j].pc.Idle?
    requires SeqRing(s.R, g1) && SoloRing(s.R, g2, v)
    requires SeqRing(s.R, s.rings[s.tail]) && RingContents(s.R, g1) == RingContents(s.R, s.rings[s.tail])
    ensures Quiet(s') && Started(s') && Contents(s') == Contents(s) + [v]
  {
    AppendedContents(s, s', g1, g2, v);
  }

  lemma {:induction false} TwoContents(R: nat, g1: Ring, g2: Ring)
    requires SeqRing(R, g1) && SeqRing(R, g2)
    ensures SeqRings(R, [g1, g2]) && AllContents(R, [g1, g2]) == RingContents(R, g1) + RingContents(R, g2)
  {
    assert [g1, g2][1..] == [g2] && [g2][1..] == [];
    assert AllContents(R, [g2]) == RingContents(R, g2) + [];
  }

  lemma {:induction false} EnqueueOverflowsState(tr: seq<Sys>, k: nat, i: nat, v: Item) returns (g2: Ring)
    requires Ready(tr, k, 12, i, Enqueue(v)) && tr[k].threads[i].pc.Idle?
    requires var s := tr[k];
             var g := s.rings[s.tail];
             && g.next.None? && !g.closed && |g.cells| == s.R > 0
             && CellOf(s, s.tail, g.tail).val != EMPTY && LooksFull(s.R, g.tail, g.head)
    ensures SoloRing(tr[k].R, g2, v)
    ensures g2.log == NO_LOG.(enq := map[0 := Op(i, tr[k].threads[i].ops + 1)], dep := map[0 := v])
    ensures var s, th := tr[k], tr[k].threads[i];
            var g, n := s.rings[s.tail], |s.rings|;
            var g1 := DrawEnqueue(g, Op(i, th.ops + 1)).(closed := true, next := Some(n));
            At(s.(rings := s.rings[s.tail := g1] + [g2], tail := n), tr[k + 12], i,
               th.(pc := Idle, ops := th.ops + 1, arg := v, tries := 1, nrq := None))
  {
    var s, cmd := tr[k], Enqueue(v);
    var g, th, n := s.rings[s.tail], s.threads[i], |s.rings|;
    var g4 := DrawEnqueue(g, Op(i, th.ops + 1));
    var g8 := g4.(closed := true);
    var th4 := th.(pc := ELoadIdx(s.tail, g.tail), ops := th.ops + 1, arg := v, tries := 0);
    var th8 := th4.(pc := EInitRing(s.tail), tries := 1);
    EnqueueDraws(tr, k, i, v);
    EnqueueCloses(tr, k + 4, i, cmd);
    assert At(s.(rings := s.rings[s.tail := g8]), tr[k + 8], i, th8) by {
      UpdateTwice(s.threads, i, th4, th8);
      UpdateTwice(s.rings, s.tail, g4, g8);
    }
    g2 := EnqueueAppends(tr, k + 8, i, cmd);
    UpdateTwice(s.threads, i, th8, th8.(pc := Idle, nrq := None));
    UpdateTwice(s.rings, s.tail, g8, g8.(next := Some(n)));
  }

  // A full ring is closed and a new one appended.
  lemma {:induction false} EnqueueOverflows(s: Sys, i: nat, v: Item)
    requires Core(s) && Quiet(s) && i < |s.threads| && s.rings[s.tail].tail == s.rings[s.tail].head + s.R
    ensures Completes(s, i, Enqueue(v), 12)
    ensures var s' := Solo(s, i, Enqueue(v), 12);
            Quiet(s') && Started(s') && Contents(s') == Contents(s) + [v] && s'.answers == s.answers
  {
    HeadRing(s);
    assert s.rings[s.tail].next.None?;
    var tr := TraceOf(s, i, Enqueue(v), 12);
    EnqueueOverflowsAt(tr, i, v);
  }

  // The cell of the next ticket of a full ring holds a value.
  lemma {:induction false} FullCell(R: nat, g: Ring)
    requires SeqRing(R, g) && !g.closed && g.tail == g.head + R
    ensures g.cells[Slot(g.tail, R)].val != EMPTY
  {
    SlotPlus(g.head, R);
    assert g.cells[Slot(g.head, R)].val != EMPTY;
  }

  lemma {:induction false} EnqueueOverflowsAt(tr: seq<Sys>, i: nat, v: Item)
    requires Trace(tr, i, Enqueue(v)) && |tr| == 13 && Quiet(tr[0]) && i < |tr[0].threads|
    requires var s := tr[0];
             var g := s.rings[s.tail]; g.next.None? && SeqRing(s.R, g) && g.tail == g.head + s.R
    ensures var s, s' := tr[0], tr[12];
            Quiet(s') && Started(s') && Contents(s') == Contents(s) + [v] && s'.answers == s.answers
    ensures i < |tr[12].threads| && tr[12].threads[i].ops == tr[0].threads[i].ops + 1
  {
    var s, n := tr[0], |tr[0].rings|;
    var g := s.rings[s.tail];
    FullCell(s.R, g);
    var g2 := EnqueueOverflowsState(tr, 0, i, v);
    var g1 := DrawEnqueue(g, Op(i, s.threads[i].ops + 1)).(closed := true, next := Some(n));
    CloseKeeps(s.R, g, g1);
    QuietAfterAppend(s, tr[12], i, g1, g2, v);
  }

  /** An enqueue run alone completes and appends its value. */
  lemma {:induction false} EnqueueRefines(s: Sys, i: nat, v: Item) returns (m: nat)
    requires Core(s) && Quiet(s) && i < |s.threads|
    ensures Completes(s, i, Enqueue(v), m)
    ensures var s' := Solo(s, i, Enqueue(v), m);
            Quiet(s') && Started(s') && Contents(s') == Contents(s) + [v] && s'.answers == s.answers
  {
    HeadRing(s);
    if s.rings[s.tail].tail < s.rings[s.tail].head + s.R {
      EnqueueFits(s, i, v);
      m := 7;
    } else {
      EnqueueOverflows(s, i, v);
      m := 12;
    }
  }

  // ---------------------------------------------------------------- dequeue

  lemma {:induction false} TakeShortens(R: nat, g: Ring, i: nat)
    requires SeqRing(R, g) && g.head < End(g)
    ensures var g' := Take(R, DrawDequeue(g, i), g.head);
            && SeqRing(R, g')
            && RingContents(R, g) == [g.cells[Slot(g.head, R)].val] + RingContents(R, g')
  {
    var g' := Take(R, DrawDequeue(g, i), g.head);
    SlotPlus(g.head, R);
    forall k: nat | g.head < k < g.head + R ensures Slot(k, R) != Slot(g.head, R) {
      SlotDistinct(g.head, k, R);
    }
  }

  lemma {:induction false} SkipKeepsEmpty(R: nat, g: Ring, i: nat)
    requires SeqRing(R, g) && g.head == End(g) && !g.closed
    ensures var g' := Advance(R, DrawDequeue(g, i), g.head).(tail := g.head + 1);
            SeqRing(R, g') && RingContents(R, g') == []
  {
    var g' := Advance(R, DrawDequeue(g, i), g.head).(tail := g.head + 1);
    SlotPlus(g.head, R);
    forall k: nat | g.head < k < g.head + R ensures Slot(k, R) != Slot(g.head, R) {
      SlotDistinct(g.head, k, R);
    }
  }

  // A dequeue is at its read of head, everybody else is idle.
  ghost predicate QuietBut(s: Sys, i: nat) {
    && RingsAtRest(s)
    && i < |s.threads|
    && s.threads[i].pc.DLoadHead?
    && (forall j: nat :: j < |s.threads| && j != i ==> s.threads[j].pc.Idle?)
  }

  lemma {:induction false} HeadRing(s: Sys)
    requires RingsAtRest(s)
    ensures SeqRing(s.R, s.rings[s.head]) && SeqRing(s.R, s.rings[s.tail])
  {
    assert s.rings[s.head..][0] == s.rings[s.head];
    assert s.rings[s.head..][s.tail - s.head] == s.rings[s.tail];
  }

  lemma UpdateTwice<T>(xs: seq<T>, h: nat, y: T, z: T)
    requires h < |xs|
    ensures xs[h := y][h := z] == xs[h := z]
  {
  }

  lemma SuffixAppend<T>(xs: seq<T>, ys: seq<T>, h: nat)
    requires h <= |xs|
    ensures (xs + ys)[h..] == xs[h..] + ys
  {
  }

  lemma UpdateLast<T>(xs: seq<T>, h: nat, y: T)
    requires h < |xs|
    ensures xs[|xs| - 1 := y][h..] == xs[h..][..|xs| - 1 - h] + [y]
  {
  }

  lemma AppendLast<T>(xs: seq<T>, h: nat, y: T, z: T)
    requires h < |xs|
    ensures (xs[|xs| - 1 := y] + [z])[h..] == xs[h..][..|xs| - 1 - h] + [y, z]
  {
    UpdateLast(xs, h, y);
    SuffixAppend(xs[|xs| - 1 := y], [z], h);
  }

  // What a dequeue must do to the abstract queue q.
  ghost predicate DequeueDone(answers: seq<Answer>, s': Sys, i: nat, q: seq<int>) {
    && Quiet(s') && Started(s')
    && |s'.answers| == |answers| + 1 && s'.answers[..|answers|] == answers
    && s'.answers[|answers|].tid == i
    && s'.answers[|answers|].val == (if q == [] then EMPTY else q[0])
    && Contents(s') == (if q == [] then [] else q[1..])
  }

  lemma {:induction false} FirstReplaced(R: nat, gs: seq<Ring>, g': Ring)
    requires gs != [] && SeqRings(R, gs) && SeqRing(R, g')
    ensures SeqRings(R, gs[0 := g']) && SeqRings(R, gs[1..])
    ensures AllContents(R, gs) == RingContents(R, gs[0]) + AllContents(R, gs[1..])
    ensures AllContents(R, gs[0 := g']) == RingContents(R, g') + AllContents(R, gs[1..])
  {
    assert gs[0 := g'][1..] == gs[1..];
  }

  lemma {:induction false} QuietAfterHead(s: Sys, s': Sys, i: nat, g': Ring)
    requires QuietBut(s, i) && Started(s) && |s'.threads| == |s.threads|
    requires s'.R == s.R && s'.rings == s.rings[s.head := g'] && s'.head == s.head && s'.tail == s.tail
    requires forall j: nat :: j < |s.threads| ==> s'.threads[j].pc.Idle?
    requires SeqRing(s.R, g') && g'.closed == s.rings[s.head].closed && g'.tail >= s.rings[s.head].tail
    ensures Quiet(s') && Started(s') && s'.rings[s'.head..] == s.rings[s.head..][0 := g']
    ensures s.head == s.tail ==> s.rings[s.head..][1..] == []
  {
    var gs, gs' := s.rings[s.head..], s'.rings[s'.head..];
    assert gs' == gs[0 := g'];
    forall r: nat | r < |gs'| ensures SeqRing(s.R, gs'[r]) {
      assert r > 0 ==> SeqRing(s.R, gs[r]);
    }
  }

  // The head ring changes from contents q0 to contents q1, and the answer says how.
  lemma {:induction false} DoneAfterHead(s: Sys, s': Sys, i: nat, g': Ring, a: Answer)
    requires RingsAtRest(s) && Quiet(s') && Started(s')
    requires s'.R == s.R && SeqRing(s.R, g') && s'.rings[s'.head..] == s.rings[s.head..][0 := g']
    requires s'.answers == s.answers + [a] && a.tid == i
    requires SeqRing(s.R, s.rings[s.head])
    requires var q0, q1 := RingContents(s.R, s.rings[s.head]), RingContents(s.R, g');
             if a.val == EMPTY then q0 == q1 == [] && s.rings[s.head..][1..] == [] else q0 == [a.val] + q1
    ensures DequeueDone(s.answers, s', i, AllContents(s.R, s.rings[s.head..]))
  {
    var gs := s.rings[s.head..];
    assert gs[0] == s.rings[s.head];
    FirstReplaced(s.R, gs, g');
    FirstOf(RingContents(s.R, s.rings[s.head]), RingContents(s.R, g'), AllContents(s.R, gs[1..]), a.val);
    assert s'.answers[..|s.answers|] == s.answers;
  }

  lemma FirstOf(q0: seq<int>, q1: seq<int>, rest: seq<int>, v: int)
    requires if v == EMPTY then q0 == q1 == [] && rest == [] else q0 == [v] + q1
    ensures var q := q0 + rest;
            v == (if q == [] then EMPTY else q[0]) && q1 + rest == (if q == [] then [] else q[1..])
  {
  }

  lemma {:induction false} DequeueFindsState(tr: seq<Sys>, k: nat, i: nat, cmd: Cmd)
    requires Ready(tr, k, 5, i, cmd) && tr[k].threads[i].pc.DLoadHead?
    requires var s := tr[k];
             var g := s.rings[s.head];
             && |g.cells| == s.R > 0
             && var c := CellOf(s, s.head, g.head); c.val != EMPTY && c.idx == g.head && !c.unsafe
    ensures var s := tr[k];
            var g, th := s.rings[s.head], s.threads[i];
            var v := CellOf(s, s.head, g.head).val;
            At(s.(rings := s.rings[s.head := Take(s.R, DrawDequeue(g, i), g.head)],
                  answers := s.answers + [Answer(i, s.head, g.head, v)]),
               tr[k + 5], i, th.(pc := Idle, r := 0))
  {
    var s := tr[k];
    var g, th := s.rings[s.head], s.threads[i];
    DequeueDraws(tr, k, i, cmd);
    DequeueTakes(tr, k + 3, i, cmd);
    UpdateTwice(s.threads, i, th.(pc := DLoadVal(s.head, g.head, g.head, false), r := 0), th.(pc := Idle, r := 0));
    UpdateTwice(s.rings, s.head, DrawDequeue(g, i), Take(s.R, DrawDequeue(g, i), g.head));
  }

  // A dequeue at its read of head, in a trace, while everybody else is idle.
  ghost predicate QuietAt(tr: seq<Sys>, k: nat, m: nat, i: nat, cmd: Cmd) {
    Trace(tr, i, cmd) && k + m < |tr| && QuietBut(tr[k], i) && Started(tr[k])
  }

  // The head ring holds a value: five turns.
  lemma {:induction false} DequeueFinds(tr: seq<Sys>, k: nat, i: nat, cmd: Cmd)
    requires QuietAt(tr, k, 5, i, cmd) && tr[k].rings[tr[k].head].head < End(tr[k].rings[tr[k].head])
    ensures DequeueDone(tr[k].answers, tr[k + 5], i, Contents(tr[k]))
    ensures |tr[k + 5].threads| == |tr[k].threads| && tr[k + 5].threads[i].ops == tr[k].threads[i].ops
  {
    var s, s' := tr[k], tr[k + 5];
    var g := s.rings[s.head];
    HeadRing(s);
    DequeueFindsState(tr, k, i, cmd);
    var g' := Take(s.R, DrawDequeue(g, i), g.head);
    TakeShortens(s.R, g, i);
    QuietAfterHead(s, s', i, g');
    DoneAfterHead(s, s', i, g', Answer(i, s.head, g.head, CellOf(s, s.head, g.head).val));
  }

  // Six turns that draw a ticket and give it up on an empty cell.
  lemma {:induction false} DequeueGivesUpState(tr: seq<Sys>, k: nat, i: nat, cmd: Cmd)
    requires Ready(tr, k, 6, i, cmd) && tr[k].threads[i].pc.DLoadHead?
    requires var s := tr[k];
             var g := s.rings[s.head];
             && |g.cells| == s.R > 0 && CellOf(s, s.head, g.head) == Cell(EMPTY, g.head, false)
             && NearEmpty(g.tail, g.head)
    ensures var s := tr[k];
            var g := s.rings[s.head];
            At(s.(rings := s.rings[s.head := Advance(s.R, DrawDequeue(g, i), g.head)]), tr[k + 6], i,
               s.threads[i].(pc := DCheckTail(s.head, g.head), r := 0, ttTail := g.tail, ttClosed := g.closed))
  {
    var s := tr[k];
    var g := s.rings[s.head];
    DequeueDraws(tr, k, i, cmd);
    DequeueSkips(tr, k + 3, i, cmd);
    var th3 := s.threads[i].(pc := DLoadVal(s.head, g.head, g.head, false), r := 0);
    UpdateTwice(s.threads, i, th3, th3.(pc := DCheckTail(s.head, g.head), ttTail := g.tail, ttClosed := g.closed));
    UpdateTwice(s.rings, s.head, DrawDequeue(g, i), Advance(s.R, DrawDequeue(g, i), g.head));
  }

  // From the emptiness check to EMPTY, with the repair: six turns.
  lemma {:induction false} DequeueReportsState(tr: seq<Sys>, k: nat, i: nat, cmd: Cmd)
    requires Ready(tr, k, 6, i, cmd) && tr[k].threads[i].pc.DCheckTail?
    requires var pc := tr[k].threads[i].pc;
             var g := tr[k].rings[pc.rq]; NearEmpty(g.tail, pc.h) && !g.closed && g.head > g.tail && g.next.None?
    ensures var s, th := tr[k], tr[k].threads[i];
            var g := s.rings[th.pc.rq];
            At(s.(rings := s.rings[th.pc.rq := g.(tail := g.head)],
                  answers := s.answers + [Answer(i, th.pc.rq, th.pc.h, EMPTY)]),
               tr[k + 6], i, th.(pc := Idle, sawClosed := false))
  {
    var s, th := tr[k], tr[k].threads[i];
    DequeueRepairs(tr, k, i, cmd);
    EmptyTurn(tr, k + 5, i, cmd);
    var th5 := th.(pc := DLoadNext(th.pc.rq, th.pc.h), sawClosed := false);
    UpdateTwice(s.threads, i, th5, th5.(pc := Idle));
  }

  // An empty last ring: EMPTY is returned and the ring repaired.
  lemma {:induction false} DequeueFindsNothingState(tr: seq<Sys>, k: nat, i: nat, cmd: Cmd)
    requires Ready(tr, k, 12, i, cmd) && tr[k].threads[i].pc.DLoadHead?
    requires var s := tr[k];
             var g := s.rings[s.head];
             && |g.cells| == s.R > 0
             && CellOf(s, s.head, g.head) == Cell(EMPTY, g.head, false)
             && NearEmpty(g.tail, g.head) && g.tail == g.head && !g.closed && g.next.None?
    ensures var s := tr[k];
            var g := s.rings[s.head];
            At(s.(rings := s.rings[s.head := Advance(s.R, DrawDequeue(g, i), g.head).(tail := g.head + 1)],
                  answers := s.answers + [Answer(i, s.head, g.head, EMPTY)]),
               tr[k + 12], i,
               s.threads[i].(pc := Idle, r := 0, ttTail := g.tail, ttClosed := false, sawClosed := false))
  {
    var s := tr[k];
    var g := s.rings[s.head];
    var g6 := Advance(s.R, DrawDequeue(g, i), g.head);
    var th6 := s.threads[i].(pc := DCheckTail(s.head, g.head), r := 0, ttTail := g.tail, ttClosed := false);
    DequeueGivesUpState(tr, k, i, cmd);
    DequeueReportsState(tr, k + 6, i, cmd);
    UpdateTwice(s.threads, i, th6, th6.(pc := Idle, sawClosed := false));
    UpdateTwice(s.rings, s.head, g6, g6.(tail := g6.head));
  }

  lemma {:induction false} DequeueFindsNothing(tr: seq<Sys>, k: nat, i: nat, cmd: Cmd)
    requires QuietAt(tr, k, 12, i, cmd)
    requires tr[k].head == tr[k].tail && tr[k].rings[tr[k].head].head == End(tr[k].rings[tr[k].head])
    requires tr[k].rings[tr[k].head].next.None?
    ensures DequeueDone(tr[k].answers, tr[k + 12], i, Contents(tr[k]))
    ensures |tr[k + 12].threads| == |tr[k].threads| && tr[k + 12].threads[i].ops == tr[k].threads[i].ops
  {
    var s, s' := tr[k], tr[k + 12];
    var g := s.rings[s.head];
    HeadRing(s);
    assert g.cells[Slot(g.head, s.R)] == Cell(EMPTY, g.head, false);
    DequeueFindsNothingState(tr, k, i, cmd);
    SkipKeepsEmpty(s.R, g, i);
    var g' := Advance(s.R, DrawDequeue(g, i), g.head).(tail := g.head + 1);
    QuietAfterHead(s, s', i, g');
    DoneAfterHead(s, s', i, g', Answer(i, s.head, g.head, EMPTY));
  }

  lemma {:induction false} DequeueLeavesRingState(tr: seq<Sys>, k: nat, i: nat, cmd: Cmd)
    requires Ready(tr, k, 12, i, cmd) && tr[k].threads[i].pc.DLoadHead?
    requires var s := tr[k];
             var g := s.rings[s.head];
             && |g.cells| == s.R > 0
             && CellOf(s, s.head, g.head) == Cell(EMPTY, g.head, false)
             && NearEmpty(g.tail, g.head) && g.closed && g.next == Some(s.head + 1)
    ensures var s := tr[k];
            var g := s.rings[s.head];
            At(s.(rings := s.rings[s.head := Advance(s.R, DrawDequeue(g, i), g.head)], head := s.head + 1),
               tr[k + 12], i,
               s.threads[i].(pc := DLoadHead, r := 0, ttTail := g.tail, ttClosed := true, sawClosed := true))
  {
    var s := tr[k];
    var g := s.rings[s.head];
    var th6 := s.threads[i].(pc := DCheckTail(s.head, g.head), r := 0, ttTail := g.tail, ttClosed := true);
    DequeueGivesUpState(tr, k, i, cmd);
    DequeueMovesOn(tr, k + 6, i, cmd, s.head + 1);
    UpdateTwice(s.threads, i, th6, th6.(pc := DLoadHead, sawClosed := true));
  }

  // The head ring is drained and closed: head moves to the next ring, twelve turns.
  lemma {:induction false} DequeueLeavesRing(tr: seq<Sys>, k: nat, i: nat, cmd: Cmd)
    requires QuietAt(tr, k, 12, i, cmd)
    requires tr[k].head < tr[k].tail && tr[k].rings[tr[k].head].head == End(tr[k].rings[tr[k].head])
    requires tr[k].rings[tr[k].head].next == Some(tr[k].head + 1) && tr[k].rings[tr[k].head].tail >= 1
    ensures var s, s' := tr[k], tr[k + 12];
            && QuietBut(s', i) && Started(s') && |s'.threads| == |s.threads|
            && s'.answers == s.answers && s'.threads[i].ops == s.threads[i].ops
            && s'.rings[s'.head].head < End(s'.rings[s'.head])
            && Contents(s') == Contents(s)
  {
    var s, s' := tr[k], tr[k + 12];
    var g := s.rings[s.head];
    HeadRing(s);
    assert g.cells[Slot(g.head, s.R)] == Cell(EMPTY, g.head, false);
    DequeueLeavesRingState(tr, k, i, cmd);
    assert s'.rings[s'.head..] == s.rings[s.head..][1..];
    forall r: nat | r < |s'.rings[s'.head..]| ensures SeqRing(s'.R, s'.rings[s'.head..][r]) {
      assert s'.rings[s'.head..][r] == s.rings[s.head..][r + 1];
    }
    assert RingContents(s.R, g) == [];
  }

  lemma {:induction false} DequeueFindsNext(tr: seq<Sys>, k: nat, i: nat, cmd: Cmd)
    requires QuietAt(tr, k, 17, i, cmd)
    requires tr[k].head < tr[k].tail && tr[k].rings[tr[k].head].head == End(tr[k].rings[tr[k].head])
    requires tr[k].rings[tr[k].head].next == Some(tr[k].head + 1) && tr[k].rings[tr[k].head].tail >= 1
    ensures DequeueDone(tr[k].answers, tr[k + 17], i, Contents(tr[k]))
    ensures |tr[k + 17].threads| == |tr[k].threads| && tr[k + 17].threads[i].ops == tr[k].threads[i].ops
  {
    DequeueLeavesRing(tr, k, i, cmd);
    DequeueFinds(tr, k + 12, i, cmd);
  }

  // The first turn of a dequeue reads nothing.
  lemma {:induction false} DequeueBegins(tr: seq<Sys>, i: nat)
    requires Trace(tr, i, Dequeue) && |tr| > 1 && i < |tr[0].threads| && Quiet(tr[0]) && Started(tr[0])
    ensures At(tr[0], tr[1], i, tr[0].threads[i].(pc := DLoadHead, ops := tr[0].threads[i].ops + 1))
    ensures QuietBut(tr[1], i) && Started(tr[1]) && Contents(tr[1]) == Contents(tr[0])
  {
    OneTurn(tr, 0, i, Dequeue);
  }

  // How the rings of a state are linked, and that a ring past the first operation has tail >= 1.
  lemma {:induction false} HeadLinks(s: Sys)
    requires Core(s) && RingsAtRest(s) && Started(s)
    ensures s.rings[s.head].next == if s.head < s.tail then Some(s.head + 1) else None
    ensures s.rings[s.head].tail >= 1
  {
    HeadRing(s);
  }

  /** A dequeue run alone completes and returns the first value, or EMPTY from an empty queue. */
  lemma {:induction false} DequeueRefines(s: Sys, i: nat) returns (m: nat)
    requires Core(s) && Quiet(s) && Started(s) && i < |s.threads|
    ensures Completes(s, i, Dequeue, m)
    ensures DequeueDone(s.answers, Solo(s, i, Dequeue, m), i, Contents(s))
  {
    HeadLinks(s);
    var tr := TraceOf(s, i, Dequeue, 18);
    m := DequeueEnds(tr, i);
  }

  lemma {:induction false} DequeueEnds(tr: seq<Sys>, i: nat) returns (m: nat)
    requires Trace(tr, i, Dequeue) && |tr| == 19 && i < |tr[0].threads| && Quiet(tr[0]) && Started(tr[0])
    requires var s := tr[0];
             && s.rings[s.head].next == (if s.head < s.tail then Some(s.head + 1) else None)
             && s.rings[s.head].tail >= 1
    ensures m <= 18 && i < |tr[m].threads| && tr[m].threads[i].ops == tr[0].threads[i].ops + 1
    ensures DequeueDone(tr[0].answers, tr[m], i, Contents(tr[0]))
  {
    DequeueBegins(tr, i);
    m := DequeueEndsBegun(tr, i);
  }

  lemma {:induction false} DequeueEndsBegun(tr: seq<Sys>, i: nat) returns (m: nat)
    requires |tr| == 19 && QuietAt(tr, 1, 17, i, Dequeue)
    requires var s := tr[1];
             && s.rings[s.head].next == (if s.head < s.tail then Some(s.head + 1) else None)
             && s.rings[s.head].tail >= 1
    ensures 1 < m <= 18 && |tr[m].threads| == |tr[1].threads| && tr[m].threads[i].ops == tr[1].threads[i].ops
    ensures DequeueDone(tr[1].answers, tr[m], i, Contents(tr[1]))
  {
    var s := tr[1];
    var g := s.rings[s.head];
    HeadRing(s);
    if g.head < End(g) {
      DequeueFinds(tr, 1, i, Dequeue);
      m := 6;
    } else if s.head == s.tail {
      DequeueFindsNothing(tr, 1, i, Dequeue);
      m := 13;
    } else {
      DequeueFindsNext(tr, 1, i, Dequeue);
      m := 18;
    }
  }

  // -------------------------------------------------------- whole histories

  // One operation on the abstract queue: what it returns, if it is a dequeue, and what it leaves.
  function Output(q: seq<int>, cmd: Cmd): seq<int> {
    match cmd
    case Enqueue(v) => []
    case Dequeue => [if q == [] then EMPTY else q[0]]
  }

  function After(q: seq<int>, cmd: Cmd): seq<int> {
    match cmd
    case Enqueue(v) => q + [v]
    case Dequeue => if q == [] then [] else q[1..]
  }

  // The abstract queue: what a list of operations returns and leaves behind.
  function Outputs(q: seq<int>, ops: seq<Event>): seq<int>
    decreases |ops|
  {
    if ops == [] then [] else Output(q, ops[0].cmd) + Outputs(After(q, ops[0].cmd), ops[1..])
  }

  function Remaining(q: seq<int>, ops: seq<Event>): seq<int>
    decreases |ops|
  {
    if ops == [] then q else Remaining(After(q, ops[0].cmd), ops[1..])
  }

  // s' is reached from s by running the operations one after the other, each alone and to its end.
  ghost predicate Serial(s: Sys, ops: seq<Event>, s': Sys)
    requires Core(s)
    decreases |ops|
  {
    if ops == [] then s' == s
    else
      var i, cmd := ops[0].tid, ops[0].cmd;
      exists m: nat :: Completes(s, i, cmd, m) && Serial(Solo(s, i, cmd, m), ops[1..], s')
  }

  function Values(answers: seq<Answer>): seq<int> {
    seq(|answers|, j requires 0 <= j < |answers| => answers[j].val)
  }

  lemma {:induction false} ValuesMore(a: seq<Answer>, a': seq<Answer>)
    requires |a'| == |a| + 1 && a'[..|a|] == a
    ensures Values(a') == Values(a) + [a'[|a|].val]
  {
    forall j: nat | j < |a| ensures Values(a')[j] == Values(a)[j] {
      assert a'[..|a|][j] == a'[j];
    }
  }

  predicate ThreadsExist(ops: seq<Event>, n: nat) {
    forall j: nat :: j < |ops| ==> ops[j].tid < n
  }

  lemma {:induction false} OutputsTrans(q: seq<int>, ops: seq<Event>, a0: seq<int>, a1: seq<int>, a2: seq<int>)
    requires ops != []
    requires a1 == a0 + Output(q, ops[0].cmd) && a2 == a1 + Outputs(After(q, ops[0].cmd), ops[1..])
    ensures a2 == a0 + Outputs(q, ops)
  {
  }

  // s' is where the queue should be after ops from s.
  ghost predicate SerialTo(s: Sys, ops: seq<Event>, s': Sys)
    requires Core(s) && RingsAtRest(s)
  {
    && Serial(s, ops, s')
    && Quiet(s')
    && Values(s'.answers) == Values(s.answers) + Outputs(Contents(s), ops)
    && Contents(s') == Remaining(Contents(s), ops)
  }

  lemma {:induction false} SerialCons(s: Sys, ops: seq<Event>, m: nat, s': Sys)
    requires Core(s) && RingsAtRest(s) && ops != [] && Completes(s, ops[0].tid, ops[0].cmd, m)
    requires var mid := Solo(s, ops[0].tid, ops[0].cmd, m);
             && RingsAtRest(mid)
             && Values(mid.answers) == Values(s.answers) + Output(Contents(s), ops[0].cmd)
             && Contents(mid) == After(Contents(s), ops[0].cmd)
             && SerialTo(mid, ops[1..], s')
    ensures SerialTo(s, ops, s')
  {
    var mid := Solo(s, ops[0].tid, ops[0].cmd, m);
    assert Serial(s, ops, s') by {
      assert Completes(s, ops[0].tid, ops[0].cmd, m) && Serial(mid, ops[1..], s');
    }
    OutputsTrans(Contents(s), ops, Values(s.answers), Values(mid.answers), Values(s'.answers));
  }

  lemma {:induction false} OneOperation(s: Sys, i: nat, cmd: Cmd) returns (m: nat)
    requires Core(s) && Quiet(s) && i < |s.threads| && (Started(s) || cmd.Enqueue?)
    ensures Completes(s, i, cmd, m)
    ensures var s' := Solo(s, i, cmd, m);
            && Quiet(s') && Started(s')
            && Values(s'.answers) == Values(s.answers) + Output(Contents(s), cmd)
            && Contents(s') == After(Contents(s), cmd)
  {
    if cmd.Enqueue? {
      m := EnqueueRefines(s, i, cmd.arg);
    } else {
      m := DequeueRefines(s, i);
      ValuesMore(s.answers, Solo(s, i, cmd, m).answers);
    }
  }

  lemma {:induction false} SerialFrom(s: Sys, ops: seq<Event>) returns (s': Sys)
    requires Core(s) && Quiet(s) && (Started(s) || ops == [] || ops[0].cmd.Enqueue?)
    requires ThreadsExist(ops, |s.threads|)
    ensures SerialTo(s, ops, s')
    decreases |ops|
  {
    if ops == [] {
      s' := s;
      assert Values(s.answers) == Values(s.answers) + Outputs(Contents(s), ops);
    } else {
      assert ops[0] == Event(ops[0].tid, ops[0].cmd);
      var m := OneOperation(s, ops[0].tid, ops[0].cmd);
      s' := SerialFrom(Solo(s, ops[0].tid, ops[0].cmd, m), ops[1..]);
      SerialCons(s, ops, m, s');
    }
  }

  lemma {:induction false} OpsGrow(tr: seq<Sys>, i: nat, cmd: Cmd, k: nat, m: nat)
    requires Trace(tr, i, cmd) && k <= m < |tr| && i < |tr[k].threads|
    ensures i < |tr[m].threads| && tr[k].threads[i].ops <= tr[m].threads[i].ops
    decreases m
  {
    if k < m {
      OpsGrow(tr, i, cmd, k, m - 1);
      OpsGrowOnce(tr, i, cmd, m - 1);
    }
  }

  lemma {:induction false} OpsGrowOnce(tr: seq<Sys>, i: nat, cmd: Cmd, k: nat)
    requires Trace(tr, i, cmd) && k + 1 < |tr| && i < |tr[k].threads|
    ensures i < |tr[k + 1].threads| && tr[k].threads[i].ops <= tr[k + 1].threads[i].ops
    ensures tr[k].threads[i].pc.Idle? ==> tr[k + 1].threads[i].ops == tr[k].threads[i].ops + 1
  {
    OneTurn(tr, k, i, cmd);
    assert Link(tr, k, i, cmd);
    CoreToLocal(tr[k], i);
    StepBooks(tr[k], i, cmd);
  }

  // An operation completes at one turn only.
  lemma {:induction false} CompletesOnce(s: Sys, i: nat, cmd: Cmd, m: nat, m': nat)
    requires Core(s) && Completes(s, i, cmd, m) && Completes(s, i, cmd, m') && m <= m'
    ensures m == m'
  {
    if m < m' {
      var tr := TraceOf(s, i, cmd, m');
      OpsGrowOnce(tr, i, cmd, m);
      OpsGrow(tr, i, cmd, m + 1, m');
    }
  }

  lemma {:induction false} SerialUnique(s: Sys, ops: seq<Event>, s1: Sys, s2: Sys)
    requires Core(s) && Serial(s, ops, s1) && Serial(s, ops, s2)
    ensures s1 == s2
    decreases |ops|
  {
    if ops != [] {
      var i, cmd := ops[0].tid, ops[0].cmd;
      var m1: nat :| Completes(s, i, cmd, m1) && Serial(Solo(s, i, cmd, m1), ops[1..], s1);
      var m2: nat :| Completes(s, i, cmd, m2) && Serial(Solo(s, i, cmd, m2), ops[1..], s2);
      if m1 <= m2 { CompletesOnce(s, i, cmd, m1, m2); } else { CompletesOnce(s, i, cmd, m2, m1); }
      SerialUnique(Solo(s, i, cmd, m1), ops[1..], s1, s2);
    }
  }

  lemma {:induction false} InitQuiet(R: nat, n: nat)
    requires R > 0
    ensures Quiet(Init(R, n)) && Contents(Init(R, n)) == []
  {
    var s := Init(R, n);
    var g := InitRing(R);
    forall k: nat | k < R ensures Slot(k, R) == k { SlotSelf(k, R); }
    assert SeqRing(R, g) && RingContents(R, g) == [];
    var gs := s.rings[s.head..];
    assert gs == [g] && gs[1..] == [];
    assert SeqRings(R, gs);
    assert AllContents(R, gs) == [];
  }

  /** Any list of operations by any threads that starts with an enqueue, run one at a time on
      rings of any size, completes, in one way only, returns what an unbounded FIFO queue returns
      and leaves what it leaves: through wrap-around, repair after empty dequeues, closing, and
      moving from ring to ring. */
  lemma {:induction false} SequentialFifo(R: nat, n: nat, ops: seq<Event>)
    requires R > 0 && ThreadsExist(ops, n)
    requires ops != [] ==> ops[0].cmd.Enqueue?
    ensures Core(Init(R, n)) && exists s: Sys :: Serial(Init(R, n), ops, s)
    ensures forall s: Sys :: Serial(Init(R, n), ops, s) ==>
              Quiet(s) && Values(s.answers) == Outputs([], ops) && Contents(s) == Remaining([], ops)
  {
    InitOk(R, n);
    InitQuiet(R, n);
    var s := SerialFrom(Init(R, n), ops);
    assert Values(Init(R, n).answers) == [];
    assert Values(s.answers) == [] + Outputs([], ops) == Outputs([], ops);
    forall s': Sys | Serial(Init(R, n), ops, s') ensures s' == s { SerialUnique(Init(R, n), ops, s', s); }
  }
}
