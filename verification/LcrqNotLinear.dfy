// A run whose history is not linearizable.

module LcrqNotLinear {
  import opened Options
  import opened LcrqRing
  import opened LcrqSystem
  import opened LcrqInvariant
  import opened LcrqPreserve
  import opened LcrqHistory
  import opened LcrqTheorems
  import opened LcrqSolo
  import opened LcrqSequential
  import opened LcrqStage
  import opened LcrqLinear
  import opened LcrqLinearProof
  import opened LcrqStranded

  // --------------------------------------------- an order no queue can keep

  // a is in the queue, and no b is before it.
  ghost predicate InFront(q: seq<int>, a: int, b: int) {
    exists u: nat :: u < |q| && q[u] == a && b !in q[..u]
  }

  lemma InFrontMore(q: seq<int>, a: int, b: int, v: int)
    requires InFront(q, a, b)
    ensures InFront(q + [v], a, b)
  {
    var u: nat :| u < |q| && q[u] == a && b !in q[..u];
    assert (q + [v])[..u] == q[..u] && (q + [v])[u] == a;
  }

  lemma InFrontRest(q: seq<int>, a: int, b: int)
    requires InFront(q, a, b) && q[0] != a
    ensures q != [] && InFront(q[1..], a, b)
  {
    var u: nat :| u < |q| && q[u] == a && b !in q[..u];
    assert q[1..][..u - 1] == q[1..u] && q[..u][1..] == q[1..u];
    assert q[1..][u - 1] == a;
  }

  predicate NoneBut(l: seq<Done>, b: Item, j: nat) {
    forall y: nat :: y < |l| && l[y].cmd == Enqueue(b) ==> y == j
  }

  // Before its enqueue a value is not in the queue.
  lemma {:induction false} NotYetIn(l: seq<Done>, b: Item, j: nat, p: nat)
    requires NoneBut(l, b, j) && p <= |l| && p <= j
    ensures b !in QueueAfter(l[..p])
  {
    if p > 0 {
      NotYetIn(l, b, j, p - 1);
      assert l[..p][..p - 1] == l[..p - 1] && l[..p][p - 1] == l[p - 1];
    }
  }

  // A value that is enqueued first and never dequeued stays in front.
  lemma {:induction false} StaysInFront(l: seq<Done>, a: Item, b: Item, i: nat, j: nat, p: nat)
    requires Legal(l) && NoneBut(l, b, j) && i < j && i < p <= |l| && l[i].cmd == Enqueue(a) && a != b
    requires forall y: nat :: y < |l| && l[y].cmd == Dequeue ==> l[y].ret != Some(a as int)
    ensures InFront(QueueAfter(l[..p]), a, b)
  {
    var m := p - 1;
    var q := QueueAfter(l[..m]);
    assert l[..p][..m] == l[..m] && l[..p][m] == l[m];
    if m == i {
      NotYetIn(l, b, j, m);
      assert (q + [a as int])[..|q|] == q;
    } else {
      StaysInFront(l, a, b, i, j, m);
      LegalAt(l, m);
      match l[m].cmd
      case Enqueue(v) => InFrontMore(q, a, b, v);
      case Dequeue => InFrontRest(q, a, b);
    }
  }

  lemma {:induction false} LegalAt(l: seq<Done>, m: nat)
    requires Legal(l) && m < |l|
    ensures l[m].ret == Result(QueueAfter(l[..m]), l[m].cmd)
    decreases |l|
  {
    if m < |l| - 1 {
      LegalAt(l[..|l| - 1], m);
      assert l[..|l| - 1][..m] == l[..m];
    }
  }

  // Where a value comes out of the queue, it was put in.
  lemma {:induction false} CameIn(l: seq<Done>, b: Item, p: nat) returns (j: nat)
    requires p <= |l| && (b as int) in QueueAfter(l[..p])
    ensures j < p && l[j].cmd == Enqueue(b)
  {
    var m := p - 1;
    assert l[..p][..m] == l[..m] && l[..p][m] == l[m];
    if (b as int) in QueueAfter(l[..m]) { j := CameIn(l, b, m); } else { j := m; }
  }

  // The history: A enqueues a and returns before B, which enqueues b, is invoked; b is dequeued,
  // and every dequeue has returned, none of them a.
  ghost predicate Jumped(notes: seq<Note>, A: Op, B: Op, D: Op, a: Item, b: Item, p: nat, q: nat) {
    && a != b && p < q < |notes| && notes[p] == Returned(A, None) && notes[q] == Invoked(B, Enqueue(b))
    && Returned(D, Some(b)) in notes
    && (forall c: Cmd :: Invoked(A, c) in notes ==> c == Enqueue(a))
    && (forall op: Op :: Invoked(op, Enqueue(b)) in notes ==> op == B)
    && (forall op: Op :: Invoked(op, Dequeue) in notes ==>
          exists ret: Option<int> :: Returned(op, ret) in notes && ret != Some(a as int))
  }

  lemma InFrontFirst(q: seq<int>, a: int, b: int)
    requires InFront(q, a, b) && a != b
    ensures q != [] && q[0] != b
  {
    var u: nat :| u < |q| && q[u] == a && b !in q[..u];
    assert u > 0 ==> q[..u][0] == q[0];
  }

  lemma {:induction false} PlaceOfA(notes: seq<Note>, l: seq<Done>, A: Op, B: Op, D: Op, a: Item, b: Item, p: nat,
                                    q: nat) returns (i: nat)
    requires Jumped(notes, A, B, D, a, b, p, q) && Arranges(l, notes)
    ensures i < |l| && l[i].op == A && l[i].cmd == Enqueue(a)
  {
    assert Returned(A, None) in notes;
    assert Lists(l, A, None);
    i :| i < |l| && l[i].op == A && l[i].ret == None;
    assert Invoked(l[i].op, l[i].cmd) in notes;
  }

  lemma {:induction false} ComesOut(l: seq<Done>, D: Op, b: Item) returns (x: nat)
    requires Legal(l) && Lists(l, D, Some(b as int))
    ensures x < |l| && QueueAfter(l[..x]) != [] && QueueAfter(l[..x])[0] == b
  {
    x :| x < |l| && l[x].op == D && l[x].ret == Some(b as int);
    LegalAt(l, x);
  }

  lemma {:induction false} PlaceOfB(notes: seq<Note>, l: seq<Done>, A: Op, B: Op, D: Op, a: Item, b: Item, p: nat,
                                    q: nat)
      returns (j: nat, x: nat)
    requires Jumped(notes, A, B, D, a, b, p, q) && Legal(l) && Arranges(l, notes)
    ensures j < x < |l| && l[j].cmd == Enqueue(b) && l[j].op == B
    ensures QueueAfter(l[..x]) != [] && QueueAfter(l[..x])[0] == b
  {
    assert Lists(l, D, Some(b as int));
    x := ComesOut(l, D, b);
    j := CameIn(l, b, x);
    assert Invoked(l[j].op, l[j].cmd) in notes;
  }

  // The dequeue that returns b does so after the enqueue of b, and after that of a.
  lemma {:induction false} JumpedPlaces(notes: seq<Note>, l: seq<Done>, A: Op, B: Op, D: Op, a: Item, b: Item, p: nat,
                                        q: nat)
      returns (i: nat, j: nat, x: nat)
    requires Jumped(notes, A, B, D, a, b, p, q) && Legal(l) && Arranges(l, notes)
    ensures i < j < x < |l| && l[i].cmd == Enqueue(a) && l[j].cmd == Enqueue(b) && l[j].op == B
    ensures QueueAfter(l[..x]) != [] && QueueAfter(l[..x])[0] == b
  {
    i := PlaceOfA(notes, l, A, B, D, a, b, p, q);
    j, x := PlaceOfB(notes, l, A, B, D, a, b, p, q);
    assert l[i].op == notes[p].op && l[j].op == notes[q].op;
  }

  // What an operation returned in the history it returns in the order.
  lemma {:induction false} ListedOnce(notes: seq<Note>, l: seq<Done>, y: nat, ret: Option<int>)
    requires Arranges(l, notes) && y < |l| && Returned(l[y].op, ret) in notes
    ensures l[y].ret == ret
  {
    assert Lists(l, l[y].op, ret);
    var z: nat :| z < |l| && l[z].op == l[y].op && l[z].ret == ret;
    assert z == y;
  }

  lemma {:induction false} JumpedNone(notes: seq<Note>, l: seq<Done>, A: Op, B: Op, D: Op, a: Item, b: Item, p: nat,
                                      q: nat, y: nat)
    requires Jumped(notes, A, B, D, a, b, p, q) && Arranges(l, notes) && y < |l| && l[y].cmd == Dequeue
    ensures l[y].ret != Some(a as int)
  {
    assert Invoked(l[y].op, Dequeue) in notes;
    var ret: Option<int> :| Returned(l[y].op, ret) in notes && ret != Some(a as int);
    ListedOnce(notes, l, y, ret);
  }

  lemma {:induction false} JumpedOnce(notes: seq<Note>, l: seq<Done>, A: Op, B: Op, D: Op, a: Item, b: Item, p: nat,
                                      q: nat, j: nat)
    requires Jumped(notes, A, B, D, a, b, p, q) && Arranges(l, notes) && j < |l| && l[j].cmd == Enqueue(b)
    ensures NoneBut(l, b, j)
  {
    forall y: nat | y < |l| && l[y].cmd == Enqueue(b) ensures y == j {
      assert Invoked(l[y].op, l[y].cmd) in notes && Invoked(l[j].op, l[j].cmd) in notes;
    }
  }

  /** Such a history is not linearizable. */
  lemma {:induction false} JumpedIsNotLinearizable(notes: seq<Note>, A: Op, B: Op, D: Op, a: Item, b: Item, p: nat,
                                                   q: nat)
    requires Jumped(notes, A, B, D, a, b, p, q)
    ensures !Linearizable(notes)
  {
    forall l: seq<Done> | Legal(l) ensures !Arranges(l, notes) {
      if Arranges(l, notes) {
        var i, j, x := JumpedPlaces(notes, l, A, B, D, a, b, p, q);
        JumpedOnce(notes, l, A, B, D, a, b, p, q, j);
        forall y: nat | y < |l| && l[y].cmd == Dequeue ensures l[y].ret != Some(a as int) {
          JumpedNone(notes, l, A, B, D, a, b, p, q, y);
        }
        StaysInFront(l, a, b, i, j, x);
        InFrontFirst(QueueAfter(l[..x]), a, b);
      }
    }
  }
}
