// The history of a thread that runs alone.

module LcrqTale {
  import opened Options
  import opened LcrqRing
  import opened LcrqSystem
  import opened LcrqInvariant
  import opened LcrqPreserve
  import opened LcrqHistory
  import opened LcrqSolo
  import opened LcrqSequential
  import opened LcrqStage
  import opened LcrqLinear
  import opened LcrqLinearProof

  lemma {:induction false} StoryConcat(s: Sys, a: seq<Event>, b: seq<Event>)
    requires Core(s)
    ensures Story(s, a + b) == Story(s, a) + Story(Run(s, a), b)
    decreases |b|
  {
    if b == [] {
      assert a + b == a;
    } else {
      var m := |b| - 1;
      assert a + b == (a + b[..m]) + [b[m]] && b == b[..m] + [b[m]];
      StoryConcat(s, a, b[..m]);
      StoryNext(s, a + b[..m], b[m]);
      StoryNext(Run(s, a), b[..m], b[m]);
      RunSplit(s, a, b[..m]);
    }
  }

  // What thread i, alone, adds to the history between the states k and m of its trace.
  ghost function SoloTale(tr: seq<Sys>, i: nat, cmd: Cmd, k: nat, m: nat): seq<Note>
    requires k <= m < |tr|
    decreases m
  {
    if m == k then []
    else SoloTale(tr, i, cmd, k, m - 1)
         + if i < |tr[m - 1].threads| == |tr[m].threads| then Noted(tr[m - 1], tr[m], Event(i, cmd)) else []
  }

  lemma {:induction false} SoloTaleSplit(tr: seq<Sys>, i: nat, cmd: Cmd, k: nat, j: nat, m: nat)
    requires k <= j <= m < |tr|
    ensures SoloTale(tr, i, cmd, k, m) == SoloTale(tr, i, cmd, k, j) + SoloTale(tr, i, cmd, j, m)
    decreases m
  {
    if j < m { SoloTaleSplit(tr, i, cmd, k, j, m - 1); }
  }

  lemma {:induction false} SoloStory(s: Sys, tr: seq<Sys>, i: nat, cmd: Cmd, m: nat)
    requires Core(s) && i < |s.threads| && m < |tr|
    requires forall k: nat {:trigger tr[k]} :: k <= m ==> tr[k] == Solo(s, i, cmd, k) && |tr[k].threads| == |s.threads|
    ensures Story(s, Alone(i, cmd, m)) == SoloTale(tr, i, cmd, 0, m)
  {
    if m > 0 {
      SoloStory(s, tr, i, cmd, m - 1);
      assert Alone(i, cmd, m) == Alone(i, cmd, m - 1) + [Event(i, cmd)];
      StoryNext(s, Alone(i, cmd, m - 1), Event(i, cmd));
      RunNext(s, Alone(i, cmd, m - 1), Event(i, cmd));
      assert tr[m - 1] == Solo(s, i, cmd, m - 1) && tr[m] == Solo(s, i, cmd, m);
    }
  }

  lemma {:induction false} SoloMoves(tr: seq<Sys>, i: nat, cmd: Cmd, k: nat)
    requires Trace(tr, i, cmd) && k + 1 < |tr|
    ensures Moved(tr[k], tr[k + 1], i, cmd)
  {
    assert Link(tr, k, i, cmd);
    TurnMoves(tr[k], Event(i, cmd));
  }

  // An operation that goes on answers nothing.
  lemma {:induction false} AnswersNothing(s: Sys, s': Sys, tid: nat, cmd: Cmd)
    requires Shape(s) && tid < |s.threads| == |s'.threads| && StageMove(s, s', tid, cmd)
    requires !s.threads[tid].pc.Idle? && !s'.threads[tid].pc.Idle?
    ensures s'.answers == s.answers
  {
  }

  lemma {:induction false} TellsNoneNow(tr: seq<Sys>, i: nat, cmd: Cmd, k: nat)
    requires Trace(tr, i, cmd) && k + 1 < |tr| && i < |tr[k].threads| && !tr[k].threads[i].pc.Idle?
    requires i < |tr[k + 1].threads| && !tr[k + 1].threads[i].pc.Idle?
    ensures |tr[k].threads| == |tr[k + 1].threads| && Noted(tr[k], tr[k + 1], Event(i, cmd)) == []
    ensures tr[k + 1].answers == tr[k].answers
  {
    SoloMoves(tr, i, cmd, k);
    AnswersNothing(tr[k], tr[k + 1], i, cmd);
  }

  // While its operation goes on, a thread adds nothing to the history or the answers.
  lemma {:induction false} TellsNothing(tr: seq<Sys>, i: nat, cmd: Cmd, k: nat, m: nat)
    requires Trace(tr, i, cmd) && k <= m < |tr| && i < |tr[k].threads| && !tr[k].threads[i].pc.Idle?
    requires i < |tr[m].threads| && !tr[m].threads[i].pc.Idle? && tr[m].threads[i].ops == tr[k].threads[i].ops
    ensures SoloTale(tr, i, cmd, k, m) == [] && tr[m].answers == tr[k].answers
    decreases m
  {
    if k < m {
      OpsGrow(tr, i, cmd, k, m - 1);
      OpsGrowOnce(tr, i, cmd, m - 1);
      TellsNothing(tr, i, cmd, k, m - 1);
      TellsNoneNow(tr, i, cmd, m - 1);
    }
  }

  // The operation that a thread is at comes to its end.
  lemma {:induction false} TellsReturn(tr: seq<Sys>, i: nat, cmd: Cmd, k: nat, m: nat)
    requires Trace(tr, i, cmd) && k < m < |tr| && i < |tr[k].threads| && !tr[k].threads[i].pc.Idle?
    requires i < |tr[m].threads| && tr[m].threads[i].pc.Idle? && tr[m].threads[i].ops == tr[k].threads[i].ops
    ensures |tr[k].answers| <= |tr[m].answers|
    ensures SoloTale(tr, i, cmd, k, m)
              == [Returned(Op(i, tr[k].threads[i].ops),
                           if |tr[m].answers| > |tr[k].answers| then Some(tr[m].answers[|tr[k].answers|].val)
                           else None)]
  {
    OpsGrow(tr, i, cmd, k, m - 1);
    OpsGrowOnce(tr, i, cmd, m - 1);
    TellsNothing(tr, i, cmd, k, m - 1);
    SoloMoves(tr, i, cmd, m - 1);
    OneAnswer(tr[m - 1], tr[m], i, cmd);
  }

  // An operation is invoked.
  lemma {:induction false} TellsInvoke(tr: seq<Sys>, i: nat, cmd: Cmd)
    requires Trace(tr, i, cmd) && 1 < |tr| && i < |tr[0].threads| && tr[0].threads[i].pc.Idle?
    ensures i < |tr[1].threads| && tr[1].threads[i].ops == tr[0].threads[i].ops + 1 && !tr[1].threads[i].pc.Idle?
    ensures tr[1].answers == tr[0].answers && |tr[1].threads| == |tr[0].threads|
    ensures SoloTale(tr, i, cmd, 0, 1) == [Invoked(Op(i, tr[0].threads[i].ops + 1), cmd)]
  {
    SoloMoves(tr, i, cmd, 0);
    assert SoloTale(tr, i, cmd, 0, 1) == [] + Noted(tr[0], tr[1], Event(i, cmd));
  }

  lemma {:induction false} TellsOperation(tr: seq<Sys>, i: nat, cmd: Cmd, m: nat)
    requires Trace(tr, i, cmd) && 1 < m < |tr| && i < |tr[0].threads| && tr[0].threads[i].pc.Idle?
    requires i < |tr[m].threads| && tr[m].threads[i].pc.Idle? && tr[m].threads[i].ops == tr[0].threads[i].ops + 1
    ensures |tr[0].answers| <= |tr[m].answers|
    ensures var op := Op(i, tr[0].threads[i].ops + 1);
            SoloTale(tr, i, cmd, 0, m)
              == [Invoked(op, cmd),
                  Returned(op, if |tr[m].answers| > |tr[0].answers| then Some(tr[m].answers[|tr[0].answers|].val)
                           else None)]
  {
    TellsInvoke(tr, i, cmd);
    TellsReturn(tr, i, cmd, 1, m);
    SoloTaleSplit(tr, i, cmd, 0, 1, m);
  }

  lemma {:induction false} TellsBeginning(tr: seq<Sys>, i: nat, cmd: Cmd, m: nat)
    requires Trace(tr, i, cmd) && 1 <= m < |tr| && i < |tr[0].threads| && tr[0].threads[i].pc.Idle?
    requires i < |tr[m].threads| && !tr[m].threads[i].pc.Idle? && tr[m].threads[i].ops == tr[0].threads[i].ops + 1
    ensures SoloTale(tr, i, cmd, 0, m) == [Invoked(Op(i, tr[0].threads[i].ops + 1), cmd)]
  {
    TellsInvoke(tr, i, cmd);
    TellsNothing(tr, i, cmd, 1, m);
    SoloTaleSplit(tr, i, cmd, 0, 1, m);
  }
}
