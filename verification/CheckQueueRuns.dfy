// The check queue over every interleaving: nothing is lost or done twice, Wait answers for
// everything added, and a Wait always comes to its end.
module CheckQueueRuns {
  import Bits
  import opened CheckQueueState

  // Inside the critical section of thread t, which is taken out of the list meanwhile.
  ghost predicate Locked(eval: Outcome, s: State, t: nat) {
    && t < |s.threads| && s.threads[t].Out?
    && s.nTotal == Sum(s.threads, InLoop) + 1
    && s.nIdle == Sum(s.threads, WaitingCount)
    && s.nTodo == |s.queue| + Sum(s.threads, Claimed)
    && NoneLost(s) && MasterOk(s) && AnswersOk(eval, s) && BatchesOk(eval, s)
    && (s.fAllOk <==> AllTrue(eval, s.finished))
  }

  lemma SumsUpdate(ts: seq<Thread>, i: nat, t: Thread)
    requires i < |ts|
    ensures Sum(ts[i := t], InLoop) == Sum(ts, InLoop) - InLoop(ts[i]) + InLoop(t)
    ensures Sum(ts[i := t], WaitingCount) == Sum(ts, WaitingCount) - WaitingCount(ts[i]) + WaitingCount(t)
    ensures Sum(ts[i := t], Claimed) == Sum(ts, Claimed) - Claimed(ts[i]) + Claimed(t)
  {
    SumUpdate(ts, InLoop, i, t);
    SumUpdate(ts, WaitingCount, i, t);
    SumUpdate(ts, Claimed, i, t);
  }

  // Only the batch of one thread changes hands: nothing is lost when what it gains comes out
  // of the queue and what it gives up is finished.
  lemma NoneLostStep(s: State, s': State, t: nat, gained: multiset<Check>)
    requires NoneLost(s) && t < |s.threads| && s'.added == s.added
    requires |s'.threads| == |s.threads| && s'.threads == s.threads[t := s'.threads[t]]
    requires multiset(s.queue) == multiset(s'.queue) + gained
    requires || (Batch(s'.threads[t]) == Batch(s.threads[t]) && s'.finished == s.finished && gained == multiset{})
             || (!s.threads[t].Busy? && Batch(s'.threads[t]) == gained && s'.finished == s.finished)
             || (!s'.threads[t].Busy? && s'.finished == s.finished + Batch(s.threads[t]) && gained == multiset{})
    ensures NoneLost(s')
  {
    HeldMoves(s.threads, t, s'.threads[t]);
    hide Held, Batch;
    var q, f := multiset(s'.queue), s'.finished;
    Moved(q, gained, Held(s.threads), f);
    if !s'.threads[t].Busy? && s'.finished == s.finished + Batch(s.threads[t]) && gained == multiset{} {
      assert q + gained == q;
      Regroup(q, Held(s'.threads), Batch(s.threads[t]), s.finished);
    } else if gained == multiset{} {
      assert q + gained == q;
    }
  }

  lemma Moved(q: multiset<Check>, b: multiset<Check>, h: multiset<Check>, f: multiset<Check>)
    ensures (q + b) + h + f == q + (h + b) + f
  {
  }

  lemma Regroup(q: multiset<Check>, h: multiset<Check>, b: multiset<Check>, f: multiset<Check>)
    ensures q + (h + b) + f == q + h + (f + b)
  {
  }

  lemma BatchesUpdate(eval: Outcome, s: State, s': State, t: nat)
    requires BatchesOk(eval, s) && t < |s.threads| && |s'.threads| == |s.threads|
    requires s'.threads == s.threads[t := s'.threads[t]] && BatchOk(eval, s'.threads[t], s'.fAllOk)
    requires s'.fAllOk ==> s.fAllOk
    ensures BatchesOk(eval, s')
  {
    forall u | 0 <= u < |s.threads|
      ensures BatchOk(eval, s'.threads[u], s'.fAllOk)
    {
      assert BatchOk(eval, s.threads[u], s.fAllOk);
    }
  }

  // When nothing is left to do, no thread holds a batch and nothing is held.
  lemma {:induction false} NothingHeld(eval: Outcome, ts: seq<Thread>, fAllOk: bool)
    requires forall t :: 0 <= t < |ts| ==> BatchOk(eval, ts[t], fAllOk)
    requires Sum(ts, Claimed) == 0
    ensures Held(ts) == multiset{}
    ensures forall t :: 0 <= t < |ts| ==> !ts[t].Busy?
    ensures Sum(ts, InLoop) == Sum(ts, WaitingCount)
  {
    if ts != [] {
      SumBounds(ts[1..], Claimed);
      assert BatchOk(eval, ts[0], fAllOk);
      NothingHeld(eval, ts[1..], fAllOk);
    }
  }

  lemma Returns(eval: Outcome, nBatchSize: nat, s: State)
    requires Locked(eval, s, MASTER) && s.queue == [] && s.nTodo == 0 && s.nTotal >= 0 && s.nIdle >= 0
    ensures Inv(eval, Proceed(nBatchSize, s, MASTER))
  {
    var s' := Proceed(nBatchSize, s, MASTER);
    NothingHeld(eval, s.threads, s.fAllOk);
    assert s.added == s.finished;
    assert s'.threads == s.threads;
    assert AnswersOk(eval, s') by { hide AllTrue; }
    assert BatchesOk(eval, s');
  }

  lemma Waits(eval: Outcome, nBatchSize: nat, s: State, t: nat)
    requires Locked(eval, s, t) && s.queue == [] && (t == MASTER ==> s.nTodo != 0) && s.nTotal >= 0 && s.nIdle >= 0
    ensures Inv(eval, Proceed(nBatchSize, s, t))
  {
    hide AllTrue, BatchesOk, AnswersOk, NoneLost, Sum, BatchOk;
    var s' := Proceed(nBatchSize, s, t);
    SumsUpdate(s.threads, t, Waiting);
    NoneLostStep(s, s', t, multiset{});
    BatchesUpdate(eval, s, s', t);
    assert AnswersOk(eval, s') by { AnswersSame(eval, s, s'); }
  }

  lemma AnswersSame(eval: Outcome, s: State, s': State)
    requires AnswersOk(eval, s) && s'.answers == s.answers
    ensures AnswersOk(eval, s')
  {
    hide AllTrue;
  }

  lemma {:induction false} TakenPlaces(queue: seq<Check>, n: nat)
    requires n <= |queue|
    ensures forall i :: 0 <= i < n ==> Taken(queue, n)[i] == queue[|queue| - 1 - i]
  {
    if n > 0 {
      TakenPlaces(queue[..|queue| - 1], n - 1);
    }
  }

  lemma {:induction false} ReversedSame(s: seq<Check>, r: seq<Check>)
    requires |r| == |s| && forall i :: 0 <= i < |s| ==> r[i] == s[|s| - 1 - i]
    ensures multiset(r) == multiset(s)
  {
    if s != [] {
      var last := s[|s| - 1];
      ReversedSame(s[..|s| - 1], r[1..]);
      BothEnds(s[..|s| - 1], last, r[1..]);
      assert s == s[..|s| - 1] + [last] && r == [last] + r[1..];
    }
  }

  lemma BothEnds(rest: seq<Check>, last: Check, taken: seq<Check>)
    ensures multiset(rest + [last]) == multiset(rest) + multiset{last}
    ensures multiset([last] + taken) == multiset{last} + multiset(taken)
  {
  }

  // What is taken leaves the queue.
  lemma TakenSplits(queue: seq<Check>, n: nat)
    requires n <= |queue|
    ensures multiset(queue) == multiset(queue[..|queue| - n]) + multiset(Taken(queue, n))
  {
    var k := |queue| - n;
    TakenPlaces(queue, n);
    ReversedSame(queue[k..], Taken(queue, n));
    hide Taken;
    assert queue == queue[..k] + queue[k..];
  }

  lemma Claims(eval: Outcome, nBatchSize: nat, s: State, t: nat)
    requires Locked(eval, s, t) && s.queue != [] && s.nTotal >= 0 && s.nIdle >= 0
    ensures Inv(eval, Proceed(nBatchSize, s, t))
  {
    hide AllTrue, BatchesOk, AnswersOk, Taken, NoneLost, Sum, BatchSize;
    var s' := Proceed(nBatchSize, s, t);
    var nNow := BatchSize(nBatchSize, |s.queue|, s.nTotal, s.nIdle);
    TakenSplits(s.queue, nNow);
    SumsUpdate(s.threads, t, s'.threads[t]);
    NoneLostStep(s, s', t, multiset(Taken(s.queue, nNow)));
    BatchesUpdate(eval, s, s', t);
    AnswersSame(eval, s, s');
  }

  lemma ProceedKeeps(eval: Outcome, nBatchSize: nat, s: State, t: nat)
    requires Locked(eval, s, t) && s.nTotal >= 0 && s.nIdle >= 0
    ensures Inv(eval, Proceed(nBatchSize, s, t))
  {
    hide Inv, Locked, Proceed;
    if s.queue != [] {
      Claims(eval, nBatchSize, s, t);
    } else if t == MASTER && s.nTodo == 0 {
      Returns(eval, nBatchSize, s);
    } else {
      Waits(eval, nBatchSize, s, t);
    }
  }

  // Ending a batch: the checks it held are finished, and fAllOk says whether all of those passed.
  lemma EndedLocked(eval: Outcome, s: State, t: nat)
    requires Inv(eval, s) && Enabled(s, EndBatch(t))
    ensures Locked(eval, Ended(s, t), t)
  {
    hide AnswersOk, NoneLost, Sum;
    var s', b := Ended(s, t), s.threads[t];
    NoneLostStep(s, s', t, multiset{});
    SumsUpdate(s.threads, t, Out);
    assert BatchOk(eval, b, s.fAllOk);
    assert b.vChecks[..b.ran] == b.vChecks;
    PassedIff(eval, b.vChecks);
    FinishedIff(eval, s.finished, multiset(b.vChecks));
    hide AllTrue, Passed;
    BatchesUpdate(eval, s, s', t);
    AnswersSame(eval, s, s');
    SumBounds(s'.threads, Claimed);
  }

  lemma PassedIff(eval: Outcome, checks: seq<Check>)
    ensures Passed(eval, checks) <==> AllTrue(eval, multiset(checks))
  {
    forall c | c in multiset(checks)
      ensures exists i :: 0 <= i < |checks| && checks[i] == c
    {
      assert c in checks;
    }
    if AllTrue(eval, multiset(checks)) {
      forall i | 0 <= i < |checks|
        ensures eval(checks[i])
      {
        assert checks[i] in multiset(checks);
      }
    }
  }

  lemma FinishedIff(eval: Outcome, a: multiset<Check>, b: multiset<Check>)
    ensures AllTrue(eval, a + b) <==> AllTrue(eval, a) && AllTrue(eval, b)
  {
    assert forall c :: c in a ==> c in a + b;
    assert forall c :: c in b ==> c in a + b;
  }

  lemma WokenLocked(eval: Outcome, s: State, t: nat)
    requires Inv(eval, s) && Enabled(s, Wake(t))
    ensures Locked(eval, Woken(s, t), t)
  {
    hide AllTrue, AnswersOk, BatchesOk, NoneLost, Sum, BatchOk;
    var s' := Woken(s, t);
    NoneLostStep(s, s', t, multiset{});
    SumsUpdate(s.threads, t, Out);
    BatchesUpdate(eval, s, s', t);
    AnswersSame(eval, s, s');
  }

  lemma RunCheckKeeps(eval: Outcome, nBatchSize: nat, s: State, t: nat)
    requires Inv(eval, s) && Enabled(s, RunCheck(t))
    ensures Inv(eval, Next(eval, nBatchSize, s, RunCheck(t)))
  {
    hide AllTrue, AnswersOk, BatchesOk, NoneLost, Sum, BatchOk, Proceed;
    var s', b := Next(eval, nBatchSize, s, RunCheck(t)), s.threads[t];
    var b' := s'.threads[t];
    RunCheckBatch(eval, s, t);
    NoneLostStep(s, s', t, multiset{});
    SumsUpdate(s.threads, t, b');
    BatchesUpdate(eval, s, s', t);
    AnswersSame(eval, s, s');
  }

  lemma RunCheckBatch(eval: Outcome, s: State, t: nat)
    requires BatchesOk(eval, s) && Enabled(s, RunCheck(t))
    ensures var b := s.threads[t]; BatchOk(eval, Busy(b.vChecks, b.ran + 1, b.fOk && eval(b.vChecks[b.ran])), s.fAllOk)
  {
    var b := s.threads[t];
    assert BatchOk(eval, b, s.fAllOk);
    assert b.vChecks[..b.ran + 1] == b.vChecks[..b.ran] + [b.vChecks[b.ran]];
    RanOne(eval, b.vChecks[..b.ran], b.vChecks[b.ran]);
    hide Passed;
  }

  lemma RanOne(eval: Outcome, ran: seq<Check>, c: Check)
    ensures Passed(eval, ran + [c]) <==> Passed(eval, ran) && eval(c)
  {
    if Passed(eval, ran + [c]) {
      forall i | 0 <= i < |ran|
        ensures eval(ran[i])
      {
        assert (ran + [c])[i] == ran[i];
      }
      assert (ran + [c])[|ran|] == c;
    }
  }

  lemma AddKeeps(eval: Outcome, nBatchSize: nat, s: State, vChecks: seq<Check>)
    requires Inv(eval, s) && Enabled(s, Add(vChecks))
    ensures Inv(eval, Next(eval, nBatchSize, s, Add(vChecks)))
  {
    var s' := Next(eval, nBatchSize, s, Add(vChecks));
    hide AllTrue, Held, AnswersOk, Sum;
    AnswersSame(eval, s, s');
    assert BatchesOk(eval, s') by { hide BatchOk; }
  }

  // Every step of every thread keeps the invariant.
  lemma StepKeeps(eval: Outcome, nBatchSize: nat, s: State, a: Action)
    requires Inv(eval, s) && Enabled(s, a)
    ensures Inv(eval, Next(eval, nBatchSize, s, a))
  {
    match a {
      case Add(vChecks) => AddKeeps(eval, nBatchSize, s, vChecks);
      case Enter(t) => EnterKeeps(eval, nBatchSize, s, t);
      case Wake(t) => WakeKeeps(eval, nBatchSize, s, t);
      case RunCheck(t) => RunCheckKeeps(eval, nBatchSize, s, t);
      case EndBatch(t) => EndBatchKeeps(eval, nBatchSize, s, t);
    }
  }

  lemma EnterKeeps(eval: Outcome, nBatchSize: nat, s: State, t: nat)
    requires Inv(eval, s) && Enabled(s, Enter(t))
    ensures Inv(eval, Next(eval, nBatchSize, s, Enter(t)))
  {
    hide AllTrue, Held, AnswersOk, BatchesOk, Sum, Proceed;
    CountsBound(s, t);
    var s' := s.(nTotal := s.nTotal + 1);
    BatchesUpdate(eval, s, s', t);
    AnswersSame(eval, s, s');
    ProceedKeeps(eval, nBatchSize, s', t);
  }

  lemma WakeKeeps(eval: Outcome, nBatchSize: nat, s: State, t: nat)
    requires Inv(eval, s) && Enabled(s, Wake(t))
    ensures Inv(eval, Next(eval, nBatchSize, s, Wake(t)))
  {
    WokenLocked(eval, s, t);
    CountsBound(s, t);
    hide Proceed, Locked;
    ProceedKeeps(eval, nBatchSize, Woken(s, t), t);
  }

  lemma EndBatchKeeps(eval: Outcome, nBatchSize: nat, s: State, t: nat)
    requires Inv(eval, s) && Enabled(s, EndBatch(t))
    ensures Inv(eval, Next(eval, nBatchSize, s, EndBatch(t)))
  {
    EndedLocked(eval, s, t);
    CountsBound(s, t);
    hide Proceed, Locked;
    ProceedKeeps(eval, nBatchSize, Ended(s, t), t);
  }

  // ----- whole runs

  // A sequence of steps, each possible when it comes.
  ghost predicate Runs(eval: Outcome, nBatchSize: nat, s: State, acts: seq<Action>)
    requires Inv(eval, s)
    decreases |acts|
  {
    acts == [] || (Enabled(s, acts[0]) && (
      StepKeeps(eval, nBatchSize, s, acts[0]);
      Runs(eval, nBatchSize, Next(eval, nBatchSize, s, acts[0]), acts[1..])))
  }

  ghost function After(eval: Outcome, nBatchSize: nat, s: State, acts: seq<Action>): (s': State)
    requires Inv(eval, s) && Runs(eval, nBatchSize, s, acts)
    ensures Inv(eval, s')
    decreases |acts|
  {
    if acts == [] then s
    else
      StepKeeps(eval, nBatchSize, s, acts[0]);
      After(eval, nBatchSize, Next(eval, nBatchSize, s, acts[0]), acts[1..])
  }

  lemma {:induction false} SumOut(n: nat, f: Thread -> int)
    requires f(Out) == 0
    ensures Sum(seq(n, i => Out), f) == 0
  {
    if n > 0 {
      assert seq(n, i => Out)[1..] == seq(n - 1, i => Out);
      SumOut(n - 1, f);
    }
  }

  lemma {:induction false} HeldOut(n: nat)
    ensures Held(seq(n, i => Out)) == multiset{}
  {
    if n > 0 {
      assert seq(n, i => Out)[1..] == seq(n - 1, i => Out);
      HeldOut(n - 1);
    }
  }

  lemma InitialOk(eval: Outcome, nThreads: nat)
    requires nThreads > 0
    ensures Inv(eval, Initial(nThreads))
  {
    SumOut(nThreads, InLoop);
    SumOut(nThreads, WaitingCount);
    SumOut(nThreads, Claimed);
    HeldOut(nThreads);
  }

  ghost predicate FromStart(eval: Outcome, nBatchSize: nat, nThreads: nat, acts: seq<Action>)
    requires nThreads > 0
  {
    InitialOk(eval, nThreads);
    Runs(eval, nBatchSize, Initial(nThreads), acts)
  }

  ghost function Reached(eval: Outcome, nBatchSize: nat, nThreads: nat, acts: seq<Action>): State
    requires nThreads > 0 && FromStart(eval, nBatchSize, nThreads, acts)
  {
    InitialOk(eval, nThreads);
    After(eval, nBatchSize, Initial(nThreads), acts)
  }

  // In every run from the start, whatever the interleaving and the number of workers: each
  // Wait has answered true exactly when every check added since the Wait before it is true,
  // and the checks not answered for yet are queued, held by exactly one thread, or finished.
  lemma EveryWaitIsRight(eval: Outcome, nBatchSize: nat, nThreads: nat, acts: seq<Action>)
    requires nThreads > 0 && FromStart(eval, nBatchSize, nThreads, acts)
    ensures AnswersOk(eval, Reached(eval, nBatchSize, nThreads, acts))
    ensures NoneLost(Reached(eval, nBatchSize, nThreads, acts))
    ensures CountsOk(Reached(eval, nBatchSize, nThreads, acts))
  {
    hide AllTrue, Held, Sum, BatchesOk, MasterOk, CountsOk;
    InitialOk(eval, nThreads);
  }

  // The moment a Wait returns, nothing is queued and no thread holds a batch.
  lemma WaitReturns(eval: Outcome, nBatchSize: nat, s: State, a: Action)
    requires Inv(eval, s) && Enabled(s, a)
    ensures var s' := Next(eval, nBatchSize, s, a);
            if |s'.answers| == |s.answers| then s'.answers == s.answers
            else
              && s'.answers == s.answers + [Answer(s.added, s'.answers[|s.answers|].fRet)]
              && (a in {Enter(MASTER), Wake(MASTER), EndBatch(MASTER)}) && s'.threads[MASTER].Out?
              && s'.queue == [] && (forall t :: 0 <= t < |s'.threads| ==> !s'.threads[t].Busy?)
  {
    hide AllTrue, AnswersOk, BatchesOk, Held, Sum, NoneLost, MasterOk, Proceed, IsIdle;
    StepKeeps(eval, nBatchSize, s, a);
    var s' := Next(eval, nBatchSize, s, a);
    match a {
      case Add(_) =>
      case RunCheck(_) =>
      case Enter(t) =>
        CountsBound(s, t);
        Answered(nBatchSize, s.(nTotal := s.nTotal + 1), t);
      case Wake(t) =>
        CountsBound(s, t);
        Answered(nBatchSize, Woken(s, t), t);
      case EndBatch(t) =>
        CountsBound(s, t);
        Answered(nBatchSize, Ended(s, t), t);
    }
    if |s'.answers| != |s.answers| {
      AllDone(eval, s');
    }
  }

  lemma Answered(nBatchSize: nat, s: State, t: nat)
    requires t < |s.threads| && s.nTotal >= 0 && s.nIdle >= 0
    ensures var s' := Proceed(nBatchSize, s, t);
            if |s'.answers| == |s.answers| then s'.answers == s.answers
            else
              && t == MASTER && s'.answers == s.answers + [Answer(s.added, s.fAllOk)]
              && s'.queue == [] && s'.nTodo == 0 && s'.threads[MASTER].Out?
  {
  }

  lemma AllDone(eval: Outcome, s: State)
    requires Inv(eval, s) && s.nTodo == 0
    ensures forall t :: 0 <= t < |s.threads| ==> !s.threads[t].Busy?
  {
    SumBounds(s.threads, Claimed);
    NothingHeld(eval, s.threads, s.fAllOk);
  }

  // ----- idleness

  predicate IsIdle(s: State) {
    s.nTotal == s.nIdle && s.nTodo == 0 && s.fAllOk
  }

  lemma {:induction false} NoneBusy(ts: seq<Thread>)
    requires forall t :: 0 <= t < |ts| ==> !ts[t].Busy?
    ensures Sum(ts, Claimed) == 0 && Held(ts) == multiset{}
  {
    if ts != [] {
      NoneBusy(ts[1..]);
    }
  }

  // What IsIdle tests: all work is done, and no check added since the last Wait is false.
  lemma IsIdleIff(eval: Outcome, s: State)
    requires Inv(eval, s)
    ensures IsIdle(s) <==>
              && s.queue == [] && (forall t :: 0 <= t < |s.threads| ==> !s.threads[t].Busy?)
              && AllTrue(eval, s.added)
  {
    SumBounds(s.threads, Claimed);
    if s.nTodo == 0 {
      NothingHeld(eval, s.threads, s.fAllOk);
      assert s.added == s.finished;
    }
    if forall t :: 0 <= t < |s.threads| ==> !s.threads[t].Busy? {
      NoneBusy(s.threads);
    }
  }

  // The assertion of CCheckQueueControl: with nothing added since the last Wait the queue is idle.
  lemma IdleBetweenUses(eval: Outcome, s: State)
    requires Inv(eval, s) && s.added == multiset{}
    ensures IsIdle(s)
  {
    hide AllTrue, BatchesOk, Sum;
    assert multiset(s.queue) == multiset{} && Held(s.threads) == multiset{};
    FirstIn(s.queue);
    forall t | 0 <= t < |s.threads|
      ensures !s.threads[t].Busy?
    {
      NotHeld(eval, s, t);
    }
    IsIdleIff(eval, s);
    assert AllTrue(eval, s.added) by { Vacuous(eval); }
  }

  lemma FirstIn(queue: seq<Check>)
    ensures queue == [] || queue[0] in multiset(queue)
  {
  }

  lemma Vacuous(eval: Outcome)
    ensures AllTrue(eval, multiset{})
  {
  }

  lemma {:induction false} HeldHas(ts: seq<Thread>, t: nat)
    requires t < |ts|
    ensures Batch(ts[t]) <= Held(ts)
  {
    if t > 0 {
      HeldHas(ts[1..], t - 1);
    }
  }

  lemma NotHeld(eval: Outcome, s: State, t: nat)
    requires BatchesOk(eval, s) && t < |s.threads|
    ensures s.threads[t].Busy? ==> s.threads[t].vChecks != [] && s.threads[t].vChecks[0] in Held(s.threads)
  {
    HeldHas(s.threads, t);
    assert BatchOk(eval, s.threads[t], s.fAllOk);
    hide Held;
    if s.threads[t].Busy? {
      FirstIn(s.threads[t].vChecks);
      assert s.threads[t].vChecks[0] in Batch(s.threads[t]);
    }
  }

  // ----- a Wait comes to its end

  function Weight(t: Thread): int {
    if t.Waiting? then 1 else if t.Busy? then |t.vChecks| - t.ran + 2 else 2
  }

  // Queued checks count most; threads outside Loop may still enter it once.
  function Measure(s: State): int {
    4 * |s.queue| + Sum(s.threads, Weight)
  }

  // A wake-up that finds nothing to do.
  predicate Spurious(s: State, a: Action) {
    a.Wake? && s.queue == [] && (a.t != MASTER || s.nTodo != 0)
  }

  // While the master is in Wait, each step of any thread but a spurious wake-up uses up some of
  // the measure, or is the one by which Wait returns; a spurious wake-up changes nothing.
  lemma StepProgress(eval: Outcome, nBatchSize: nat, s: State, a: Action)
    requires Inv(eval, s) && Enabled(s, a) && !s.threads[MASTER].Out?
    ensures var s' := Next(eval, nBatchSize, s, a);
            if Spurious(s, a) then s' == s
            else Measure(s') < Measure(s) || s'.threads[MASTER].Out?
  {
    hide AllTrue, AnswersOk, BatchesOk, Sum, NoneLost, Proceed, Measure;
    match a {
      case Add(_) => assert false;
      case Enter(t) =>
        CountsBound(s, t);
        var l := s.(nTotal := s.nTotal + 1);
        MeasureUpdate(s, l, t);
        ProceedMeasure(nBatchSize, l, t);
      case Wake(t) =>
        CountsBound(s, t);
        MeasureUpdate(s, Woken(s, t), t);
        ProceedMeasure(nBatchSize, Woken(s, t), t);
        if Spurious(s, a) {
          SpuriousSame(eval, nBatchSize, s, t);
        }
      case RunCheck(t) => MeasureUpdate(s, Ran(eval, s, t), t);
      case EndBatch(t) =>
        CountsBound(s, t);
        MeasureUpdate(s, Ended(s, t), t);
        ProceedMeasure(nBatchSize, Ended(s, t), t);
    }
  }

  lemma MeasureUpdate(s: State, s': State, t: nat)
    requires t < |s.threads| && |s'.threads| == |s.threads| && s'.queue == s.queue
    requires s'.threads == s.threads[t := s'.threads[t]]
    ensures Measure(s') == Measure(s) - Weight(s.threads[t]) + Weight(s'.threads[t])
  {
    SumUpdate(s.threads, Weight, t, s'.threads[t]);
  }

  lemma ProceedMeasure(nBatchSize: nat, s: State, t: nat)
    requires t < |s.threads| && s.threads[t].Out? && s.nTotal >= 0 && s.nIdle >= 0
    ensures s.queue != [] ==> Measure(Proceed(nBatchSize, s, t)) <= Measure(s) - 3
    ensures s.queue == [] && !(t == MASTER && s.nTodo == 0) ==> Measure(Proceed(nBatchSize, s, t)) == Measure(s) - 1
    ensures s.queue == [] && t == MASTER && s.nTodo == 0 ==> Proceed(nBatchSize, s, t).threads[MASTER].Out?
  {
    SumUpdate(s.threads, Weight, t, Proceed(nBatchSize, s, t).threads[t]);
    hide Sum, BatchSize, Taken;
  }

  lemma SpuriousSame(eval: Outcome, nBatchSize: nat, s: State, t: nat)
    requires Inv(eval, s) && Enabled(s, Wake(t)) && Spurious(s, Wake(t))
    ensures Next(eval, nBatchSize, s, Wake(t)) == s
  {
    hide AllTrue, AnswersOk, BatchesOk, NoneLost;
    CountsBound(s, t);
    assert s.threads[t := Out][t := Waiting] == s.threads;
  }

  // And such a step is always possible: the master is never left waiting with nobody at work.
  lemma NeverStuck(eval: Outcome, s: State) returns (a: Action)
    requires Inv(eval, s) && !s.threads[MASTER].Out?
    ensures Enabled(s, a) && !Spurious(s, a)
    ensures s.threads[MASTER].Waiting? && !s.notified ==> a.RunCheck? || a.EndBatch?
  {
    hide AllTrue, AnswersOk, Held, NoneLost;
    var t: nat := MASTER;
    if !s.threads[MASTER].Busy? {
      if s.nTodo == 0 {
        return Wake(MASTER);
      }
      SumBounds(s.threads, Claimed);
      t := SumWitness(s.threads, Claimed);
    }
    assert BatchOk(eval, s.threads[t], s.fAllOk);
    a := if s.threads[t].ran < |s.threads[t].vChecks| then RunCheck(t) else EndBatch(t);
  }

  function Useful(eval: Outcome, nBatchSize: nat, s: State, acts: seq<Action>): nat
    requires Inv(eval, s)
    decreases |acts|
  {
    if acts == [] || !Enabled(s, acts[0]) then 0
    else
      StepKeeps(eval, nBatchSize, s, acts[0]);
      (if Spurious(s, acts[0]) then 0 else 1) + Useful(eval, nBatchSize, Next(eval, nBatchSize, s, acts[0]), acts[1..])
  }

  // The master stays inside Wait all along.
  ghost predicate StaysInside(eval: Outcome, nBatchSize: nat, s: State, acts: seq<Action>)
    requires Inv(eval, s)
    decreases |acts|
  {
    && !s.threads[MASTER].Out?
    && (acts == [] || (Enabled(s, acts[0]) && (
          StepKeeps(eval, nBatchSize, s, acts[0]);
          StaysInside(eval, nBatchSize, Next(eval, nBatchSize, s, acts[0]), acts[1..]))))
  }

  // Once Wait is entered, at most Measure many steps that are not spurious wake-ups can go by
  // before it returns.
  lemma {:induction false} WaitEnds(eval: Outcome, nBatchSize: nat, s: State, acts: seq<Action>)
    requires Inv(eval, s) && StaysInside(eval, nBatchSize, s, acts)
    ensures Useful(eval, nBatchSize, s, acts) <= Measure(s)
    decreases |acts|
  {
    WeightBound(eval, s.threads, s.fAllOk);
    if acts != [] {
      StepKeeps(eval, nBatchSize, s, acts[0]);
      StepProgress(eval, nBatchSize, s, acts[0]);
      hide Inv, Next, Measure;
      WaitEnds(eval, nBatchSize, Next(eval, nBatchSize, s, acts[0]), acts[1..]);
    }
  }

  lemma {:induction false} WeightBound(eval: Outcome, ts: seq<Thread>, fAllOk: bool)
    requires forall t :: 0 <= t < |ts| ==> BatchOk(eval, ts[t], fAllOk)
    ensures Sum(ts, Weight) >= 0
  {
    if ts != [] {
      assert BatchOk(eval, ts[0], fAllOk);
      WeightBound(eval, ts[1..], fAllOk);
    }
  }

  // ----- how much a thread takes at once

  // Not less than one check; otherwise no more than the batch size and an even share among the
  // threads and the idle ones once more, and as much as that allows.
  lemma BatchBounds(nBatchSize: nat, size: nat, nTotal: nat, nIdle: nat)
    ensures var n, share := BatchSize(nBatchSize, size, nTotal, nIdle), nTotal + nIdle + 1;
            && 1 <= n
            && (n > 1 ==> n <= nBatchSize && n * share <= size)
            && (n < nBatchSize ==> (n + 1) * share > size)
  {
    var share := nTotal + nIdle + 1;
    var q, r := size / share, size % share;
    assert size == q * share + r;
    Bits.MulPlus(q, 1, share);
    var n := BatchSize(nBatchSize, size, nTotal, nIdle);
    if n > 1 {
      Bits.MulMono(n, q, share);
    }
    if n < nBatchSize {
      Bits.MulMono(q + 1, n + 1, share);
    }
  }
}
