// One ring of the queue: its cells, its counters, and the atomic updates that
// enqueuers and dequeuers apply to it (snippets/lcrq.c).

module Options {
  datatype Option<+T> = None | Some(value: T)
}

module LcrqRing {
  import opened Options

  // The all-ones word that marks a cell without a value.
  const EMPTY: int := -1

  // An enqueue operation: the thread that runs it and its number in that thread.
  datatype Op = Op(tid: nat, n: nat)

  // A ring cell. The source packs idx and the unsafe bit into one word.
  datatype Cell = Cell(val: int, idx: nat, unsafe: bool)

  // What has happened on a ring. No step reads it; it only records.
  datatype Log = Log(
    enq: map<nat, Op>,    // enqueue ticket -> the operation that drew it
    deq: map<nat, nat>,   // dequeue ticket -> the thread that drew it
    dep: map<nat, int>,   // enqueue ticket -> the value deposited under it
    taken: set<nat>,      // dequeue tickets that took a value
    gaveUp: set<nat>)     // dequeue tickets that left the inner loop without one

  // The source packs tail and the closed bit into one word.
  datatype Ring = Ring(head: nat, tail: nat, closed: bool, next: Option<nat>, cells: seq<Cell>, log: Log)

  const NO_LOG := Log(map[], map[], map[], {}, {})

  function InitRing(R: nat): Ring {
    Ring(0, 0, false, None, seq(R, i requires 0 <= i < R => Cell(EMPTY, i, false)), NO_LOG)
  }

  function Slot(k: nat, R: nat): (j: nat)
    requires R > 0
    ensures j < R
  {
    k % R
  }

  lemma SlotPlus(k: nat, R: nat)
    requires R > 0
    ensures Slot(k + R, R) == Slot(k, R)
  {
    var q, m := k / R, k % R;
    SameQuotient(R, (k + R) / R, (k + R) % R, q + 1, m);
  }

  // Quotient and remainder are unique.
  lemma SameQuotient(R: nat, q: int, m: nat, q': int, m': nat)
    requires m < R && m' < R && R * q + m == R * q' + m'
    ensures m == m'
  {
    MulDiff(R, q, q');
    if q > q' {
      MulAtLeast(R, q - q');
    } else if q < q' {
      MulDiff(R, q', q);
      MulAtLeast(R, q' - q);
    }
  }

  lemma MulDiff(R: nat, a: int, b: int)
    ensures R * (a - b) == R * a - R * b
  {
  }

  lemma MulAtLeast(R: nat, d: int)
    requires d >= 1
    ensures R * d >= R
  {
    var e: nat := d - 1;
    assert R * e >= 0;
    MulDiff(R, d, 1);
  }

  // ---------------------------------------------------------------- updates

  function DrawEnqueue(g: Ring, op: Op): Ring {
    g.(tail := g.tail + 1, log := if g.closed then g.log else g.log.(enq := g.log.enq[g.tail := op]))
  }

  function DrawDequeue(g: Ring, tid: nat): Ring {
    g.(head := g.head + 1, log := g.log.(deq := g.log.deq[g.head := tid]))
  }

  function Deposit(R: nat, g: Ring, t: nat, val: int): Ring
    requires R == |g.cells| > 0
  {
    g.(cells := g.cells[Slot(t, R) := Cell(val, t, false)], log := g.log.(dep := g.log.dep[t := val]))
  }

  function Take(R: nat, g: Ring, h: nat): Ring
    requires R == |g.cells| > 0
  {
    var c := g.cells[Slot(h, R)];
    g.(cells := g.cells[Slot(h, R) := Cell(EMPTY, h + R, c.unsafe)], log := g.log.(taken := g.log.taken + {h}))
  }

  // A dequeuer leaves the inner loop empty-handed, with the cell as it is.
  function Leave(g: Ring, h: nat): Ring {
    g.(log := g.log.(gaveUp := g.log.gaveUp + {h}))
  }

  function MarkUnsafe(R: nat, g: Ring, h: nat): Ring
    requires R == |g.cells| > 0
  {
    var c := g.cells[Slot(h, R)];
    Leave(g.(cells := g.cells[Slot(h, R) := c.(unsafe := true)]), h)
  }

  function Advance(R: nat, g: Ring, h: nat): Ring
    requires R == |g.cells| > 0
  {
    var c := g.cells[Slot(h, R)];
    Leave(g.(cells := g.cells[Slot(h, R) := Cell(EMPTY, h + R, c.unsafe)]), h)
  }

  // ------------------------------------------------------------- invariants

  // Every successful CAS2 raises the rank, so no cell state comes back.
  function Rank(c: Cell): nat {
    3 * c.idx + if c.val == EMPTY then 0 else if !c.unsafe then 1 else 2
  }

  ghost predicate RingInv(R: nat, g: Ring) {
    && R == |g.cells| > 0
    && (forall j: nat :: j < R ==> Slot(g.cells[j].idx, R) == j)
    && (forall k :: k in g.log.enq ==> k < g.tail)
    && (forall k: nat :: k in g.log.deq <==> k < g.head)
    && g.log.dep.Keys <= g.log.enq.Keys
    && g.log.taken <= g.log.dep.Keys
    && g.log.taken <= g.log.deq.Keys
    && g.log.gaveUp <= g.log.deq.Keys
    && g.log.gaveUp !! g.log.dep.Keys
    && (forall k :: k in g.log.dep ==> DepositInv(R, g, k))
    && (forall j: nat :: j < R && g.cells[j].val != EMPTY ==>
          g.cells[j].idx in g.log.dep && g.cells[j].idx !in g.log.taken)
    && (forall k :: k in g.log.gaveUp ==> GaveUpInv(R, g, k))
  }

  // A deposited value stays in its cell until the dequeuer with the same ticket takes it.
  ghost predicate DepositInv(R: nat, g: Ring, k: nat)
    requires R == |g.cells| > 0 && k in g.log.dep
  {
    var c := g.cells[Slot(k, R)];
    && g.log.dep[k] != EMPTY
    && (k !in g.log.taken ==> c.idx == k && c.val == g.log.dep[k])
    && (k in g.log.taken ==> c.idx > k)
  }

  // The cell of an abandoned ticket is past it or barred by the unsafe bit.
  ghost predicate GaveUpInv(R: nat, g: Ring, k: nat)
    requires R == |g.cells| > 0
  {
    var c := g.cells[Slot(k, R)];
    c.idx > k || c.unsafe
  }

  // How a ring may change over any number of steps.
  ghost predicate Grows(g: Ring, g': Ring) {
    && g.head <= g'.head
    && g.tail <= g'.tail
    && (g.closed ==> g'.closed && g'.log.enq == g.log.enq)
    && (g.next.Some? ==> g'.next == g.next)
    && |g'.cells| == |g.cells|
    && (forall j: nat :: j < |g.cells| ==> g'.cells[j] == g.cells[j] || Rank(g.cells[j]) < Rank(g'.cells[j]))
    && (forall k :: k in g.log.enq ==> k in g'.log.enq && g'.log.enq[k] == g.log.enq[k])
    && (forall k :: k in g'.log.enq && k !in g.log.enq ==> k >= g.tail)
    && (forall k :: k in g.log.deq ==> k in g'.log.deq && g'.log.deq[k] == g.log.deq[k])
    && (forall k :: k in g.log.dep ==> k in g'.log.dep && g'.log.dep[k] == g.log.dep[k])
    && g.log.taken <= g'.log.taken
    && g.log.gaveUp <= g'.log.gaveUp
  }

  lemma GrowsTransitive(g0: Ring, g1: Ring, g2: Ring)
    requires Grows(g0, g1) && Grows(g1, g2)
    ensures Grows(g0, g2)
  {
  }

  // What one step of thread tid may do to a ring.
  ghost predicate Evolves(g: Ring, g': Ring, tid: nat) {
    && Grows(g, g')
    && (forall k :: k in g'.log.enq && k !in g.log.enq ==> g'.log.enq[k].tid == tid)
    && (forall k :: k in g'.log.deq && k !in g.log.deq ==> g'.log.deq[k] == tid)
    && (forall k :: k in g'.log.dep && k !in g.log.dep ==> k in g.log.enq && g.log.enq[k].tid == tid)
    && (forall k :: k in g'.log.taken && k !in g.log.taken ==> k in g.log.deq && g.log.deq[k] == tid)
    && (forall k :: k in g'.log.gaveUp && k !in g.log.gaveUp ==> (
          && k in g.log.deq && g.log.deq[k] == tid
          && |g.cells| > 0 && AbandonedCell(g'.cells[Slot(k, |g.cells|)], k)))
  }

  // The state in which a dequeuer that gives up ticket k leaves its cell.
  ghost predicate AbandonedCell(c: Cell, k: nat) {
    c.idx > k || c.val != EMPTY
  }

  // A dequeuer that drew ticket h is still inside the inner loop.
  ghost predicate Pending(g: Ring, h: nat) {
    h in g.log.deq && h !in g.log.taken && h !in g.log.gaveUp
  }

  // ------------------------------------------------- every update is allowed

  lemma DrawEnqueueOk(R: nat, g: Ring, op: Op)
    requires RingInv(R, g)
    ensures RingInv(R, DrawEnqueue(g, op)) && Evolves(g, DrawEnqueue(g, op), op.tid)
  {
    var g' := DrawEnqueue(g, op);
    forall k | k in g'.log.dep ensures DepositInv(R, g', k) { assert DepositInv(R, g, k); }
    forall k | k in g'.log.gaveUp ensures GaveUpInv(R, g', k) { assert GaveUpInv(R, g, k); }
  }

  lemma DrawDequeueOk(R: nat, g: Ring, tid: nat)
    requires RingInv(R, g)
    ensures RingInv(R, DrawDequeue(g, tid)) && Evolves(g, DrawDequeue(g, tid), tid)
  {
    var g' := DrawDequeue(g, tid);
    forall k | k in g'.log.dep ensures DepositInv(R, g', k) { assert DepositInv(R, g, k); }
    forall k | k in g'.log.gaveUp ensures GaveUpInv(R, g', k) { assert GaveUpInv(R, g, k); }
  }

  // Changing only the tail upwards, the closed bit or an unset next pointer.
  lemma HeaderOk(R: nat, g: Ring, g': Ring, tid: nat)
    requires RingInv(R, g)
    requires g' == g.(tail := g'.tail, closed := g'.closed, next := g'.next)
    requires g.tail <= g'.tail && (g.closed ==> g'.closed) && (g.next.Some? ==> g'.next == g.next)
    ensures RingInv(R, g') && Evolves(g, g', tid)
  {
    forall k | k in g'.log.dep ensures DepositInv(R, g', k) { assert DepositInv(R, g, k); }
    forall k | k in g'.log.gaveUp ensures GaveUpInv(R, g', k) { assert GaveUpInv(R, g, k); }
  }

  // The enqueuer's CAS2 succeeds on an empty cell.
  lemma DepositOk(R: nat, g: Ring, t: nat, val: int)
    requires RingInv(R, g)
    requires t in g.log.enq && t !in g.log.dep && t !in g.log.gaveUp && val != EMPTY
    requires var c := g.cells[Slot(t, R)]; c.val == EMPTY && c.idx <= t
    // an unsafe cell is only reused after every dequeue ticket given up on it is overtaken
    requires g.cells[Slot(t, R)].unsafe ==> forall k :: k in g.log.gaveUp && Slot(k, R) == Slot(t, R) ==> k < t
    ensures RingInv(R, Deposit(R, g, t, val)) && Evolves(g, Deposit(R, g, t, val), g.log.enq[t].tid)
  {
    var g' := Deposit(R, g, t, val);
    var j := Slot(t, R);
    forall k | k in g'.log.dep ensures DepositInv(R, g', k) {
      if k != t { assert DepositInv(R, g, k); }
    }
    forall k | k in g'.log.gaveUp ensures GaveUpInv(R, g', k) { assert GaveUpInv(R, g, k); }
  }

  // The dequeuer's CAS2 succeeds on the cell that carries its ticket.
  lemma TakeOk(R: nat, g: Ring, h: nat)
    requires RingInv(R, g) && Pending(g, h)
    requires var c := g.cells[Slot(h, R)]; c.val != EMPTY && c.idx == h
    ensures RingInv(R, Take(R, g, h)) && Evolves(g, Take(R, g, h), g.log.deq[h])
    ensures h in g.log.dep && g.log.dep[h] == g.cells[Slot(h, R)].val
  {
    var g' := Take(R, g, h);
    SlotPlus(h, R);
    assert DepositInv(R, g, h);
    forall k | k in g'.log.dep ensures DepositInv(R, g', k) { assert DepositInv(R, g, k); }
    forall k | k in g'.log.gaveUp ensures GaveUpInv(R, g', k) { assert GaveUpInv(R, g, k); }
  }

  lemma LeaveOk(R: nat, g: Ring, h: nat)
    requires RingInv(R, g) && Pending(g, h)
    requires g.cells[Slot(h, R)].idx > h
    ensures RingInv(R, Leave(g, h)) && Evolves(g, Leave(g, h), g.log.deq[h])
  {
    var g' := Leave(g, h);
    assert h in g.log.dep ==> DepositInv(R, g, h);
    forall k | k in g'.log.dep ensures DepositInv(R, g', k) { assert DepositInv(R, g, k); }
    forall k | k in g'.log.gaveUp ensures GaveUpInv(R, g', k) {
      if k != h { assert GaveUpInv(R, g, k); }
    }
  }

  lemma MarkUnsafeOk(R: nat, g: Ring, h: nat)
    requires RingInv(R, g) && Pending(g, h)
    requires var c := g.cells[Slot(h, R)]; c.val != EMPTY && c.idx < h
    ensures RingInv(R, MarkUnsafe(R, g, h)) && Evolves(g, MarkUnsafe(R, g, h), g.log.deq[h])
  {
    MarkUnsafeInv(R, g, h);
    var c, c' := g.cells[Slot(h, R)], MarkUnsafe(R, g, h).cells[Slot(h, R)];
    assert c == c' || Rank(c) < Rank(c');
  }

  lemma MarkUnsafeInv(R: nat, g: Ring, h: nat)
    requires RingInv(R, g) && Pending(g, h)
    requires var c := g.cells[Slot(h, R)]; c.val != EMPTY && c.idx < h
    ensures RingInv(R, MarkUnsafe(R, g, h))
  {
    var g' := MarkUnsafe(R, g, h);
    assert h in g.log.dep ==> DepositInv(R, g, h);
    forall k | k in g'.log.dep ensures DepositInv(R, g', k) { assert DepositInv(R, g, k); }
    forall k | k in g'.log.gaveUp ensures GaveUpInv(R, g', k) {
      if k != h { assert GaveUpInv(R, g, k); }
    }
  }

  lemma AdvanceOk(R: nat, g: Ring, h: nat)
    requires RingInv(R, g) && Pending(g, h)
    requires var c := g.cells[Slot(h, R)]; c.val == EMPTY && c.idx <= h
    ensures RingInv(R, Advance(R, g, h)) && Evolves(g, Advance(R, g, h), g.log.deq[h])
  {
    AdvanceInv(R, g, h);
    var c, c' := g.cells[Slot(h, R)], Advance(R, g, h).cells[Slot(h, R)];
    assert c == c' || Rank(c) < Rank(c');
  }

  lemma AdvanceInv(R: nat, g: Ring, h: nat)
    requires RingInv(R, g) && Pending(g, h)
    requires var c := g.cells[Slot(h, R)]; c.val == EMPTY && c.idx <= h
    ensures RingInv(R, Advance(R, g, h))
  {
    var g' := Advance(R, g, h);
    SlotPlus(h, R);
    assert h in g.log.dep ==> DepositInv(R, g, h);
    forall k | k in g'.log.dep ensures DepositInv(R, g', k) { assert DepositInv(R, g, k); }
    forall k | k in g'.log.gaveUp ensures GaveUpInv(R, g', k) {
      if k != h { assert GaveUpInv(R, g, k); }
    }
  }
}
