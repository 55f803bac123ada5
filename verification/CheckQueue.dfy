// The check queue as an object.  Each method is one critical section, or one check run
// outside the mutex, and does to the shared fields what the step of the state machine does.
module CheckQueues {
  import opened CheckQueueState
  import opened CheckQueueRuns

  // Next, action by action, with what the critical section needs.
  lemma NextAdd(eval: Outcome, nBatchSize: nat, s: State, v: seq<Check>)
    requires Inv(eval, s) && Enabled(s, Add(v))
    ensures Next(eval, nBatchSize, s, Add(v))
         == s.(queue := s.queue + v, nTodo := s.nTodo + |v|, added := s.added + multiset(v))
  {
  }

  lemma NextEnter(eval: Outcome, nBatchSize: nat, s: State, t: nat)
    requires Inv(eval, s) && Enabled(s, Enter(t))
    ensures t < |s.threads| && s.threads[t].Out? && s.nTotal >= 0 && s.nIdle >= 0
    ensures Next(eval, nBatchSize, s, Enter(t)) == Proceed(nBatchSize, s.(nTotal := s.nTotal + 1), t)
  {
    CountsBound(s, t);
    hide Proceed;
  }

  lemma NextWake(eval: Outcome, nBatchSize: nat, s: State, t: nat)
    requires Inv(eval, s) && Enabled(s, Wake(t))
    ensures t < |s.threads| && s.threads[t].Waiting? && s.nTotal >= 0 && s.nIdle > 0
    ensures Next(eval, nBatchSize, s, Wake(t)) == Proceed(nBatchSize, Woken(s, t), t)
  {
    CountsBound(s, t);
    hide Proceed;
  }

  lemma NextEnd(eval: Outcome, nBatchSize: nat, s: State, t: nat)
    requires Inv(eval, s) && Enabled(s, EndBatch(t))
    ensures t < |s.threads| && s.threads[t].Busy? && s.nTotal >= 0 && s.nIdle >= 0
    ensures Next(eval, nBatchSize, s, EndBatch(t)) == Proceed(nBatchSize, Ended(s, t), t)
  {
    CountsBound(s, t);
    hide Proceed;
  }

  class CheckQueue {
    const eval: Outcome
    const nBatchSize: nat
    var queue: seq<Check>
    var nIdle: int
    var nTotal: int
    var fAllOk: bool
    var nTodo: int
    var threads: seq<Thread> // where each thread is, with its own vChecks and fOk
    var notified: bool
    ghost var added: multiset<Check>
    ghost var finished: multiset<Check>
    ghost var answers: seq<Answer>

    ghost function View(): State
      reads this
    {
      State(queue, nIdle, nTotal, fAllOk, nTodo, threads, notified, added, finished, answers)
    }

    ghost predicate Valid()
      reads this
    {
      Inv(eval, View())
    }

    constructor (eval: Outcome, nBatchSize: nat, nThreads: nat)
      requires nThreads > 0
      ensures Valid() && View() == Initial(nThreads) && this.eval == eval && this.nBatchSize == nBatchSize
    {
      this.eval, this.nBatchSize := eval, nBatchSize;
      queue, nIdle, nTotal, fAllOk, nTodo := [], 0, 0, true, 0;
      threads, notified := seq(nThreads, i => Out), false;
      added, finished, answers := multiset{}, multiset{}, [];
      new;
      InitialOk(eval, nThreads);
    }

    method Add(vChecks: seq<Check>)
      requires Valid() && Enabled(View(), Action.Add(vChecks))
      modifies this
      ensures Valid() && View() == Next(eval, nBatchSize, old(View()), Action.Add(vChecks))
    {
      hide Inv, Next;
      StepKeeps(eval, nBatchSize, View(), Action.Add(vChecks));
      NextAdd(eval, nBatchSize, View(), vChecks);
      var i := 0;
      while i < |vChecks|
        invariant i <= |vChecks| && queue == old(queue) + vChecks[..i]
        modifies this`queue
      {
        queue := queue + [vChecks[i]];
        i := i + 1;
      }
      assert vChecks[..i] == vChecks;
      nTodo := nTodo + |vChecks|;
      added := added + multiset(vChecks);
    }

    method Enter(t: nat) returns (returned: bool, fRet: bool)
      requires Valid() && Enabled(View(), Action.Enter(t))
      modifies this
      ensures Valid() && View() == Next(eval, nBatchSize, old(View()), Action.Enter(t))
      ensures returned ==> answers == old(answers) + [Answer(old(added), fRet)]
      ensures returned <==> t < |threads| && threads[t].Out?
    {
      hide Inv, Next, Proceed;
      StepKeeps(eval, nBatchSize, View(), Action.Enter(t));
      NextEnter(eval, nBatchSize, View(), t);
      nTotal := nTotal + 1;
      returned, fRet := Acquire(t);
    }

    method Wake(t: nat) returns (returned: bool, fRet: bool)
      requires Valid() && Enabled(View(), Action.Wake(t))
      modifies this
      ensures Valid() && View() == Next(eval, nBatchSize, old(View()), Action.Wake(t))
      ensures returned ==> answers == old(answers) + [Answer(old(added), fRet)]
      ensures returned <==> t < |threads| && threads[t].Out?
    {
      hide Inv, Next, Proceed;
      StepKeeps(eval, nBatchSize, View(), Action.Wake(t));
      NextWake(eval, nBatchSize, View(), t);
      nIdle := nIdle - 1;
      threads := threads[t := Out];
      notified := notified && t != MASTER;
      returned, fRet := Acquire(t);
    }

    method EndBatch(t: nat) returns (returned: bool, fRet: bool)
      requires Valid() && Enabled(View(), Action.EndBatch(t))
      modifies this
      ensures Valid() && View() == Next(eval, nBatchSize, old(View()), Action.EndBatch(t))
      ensures returned ==> answers == old(answers) + [Answer(old(added), fRet)]
      ensures returned <==> t < |threads| && threads[t].Out?
    {
      hide Inv, Next, Proceed;
      StepKeeps(eval, nBatchSize, View(), Action.EndBatch(t));
      NextEnd(eval, nBatchSize, View(), t);
      CleanUp(t);
      returned, fRet := Acquire(t);
    }

    // The clean-up of the round before, in the same critical section.
    method CleanUp(t: nat)
      requires t < |threads| && threads[t].Busy?
      modifies this`fAllOk, this`nTodo, this`notified, this`threads, this`finished
      ensures View() == Ended(old(View()), t)
    {
      hide Batch;
      var b := threads[t];
      fAllOk := fAllOk && b.fOk;
      nTodo := nTodo - |b.vChecks|;
      if nTodo == 0 && t != MASTER && threads[MASTER].Waiting? {
        notified := true;
      }
      threads := threads[t := Out];
      finished := finished + Batch(b);
    }

    // From the inner loop to the end of the critical section, by a thread not in the list.
    method Acquire(t: nat) returns (returned: bool, fRet: bool)
      requires t < |threads| && threads[t].Out? && nTotal >= 0 && nIdle >= 0
      modifies this
      ensures View() == Proceed(nBatchSize, old(View()), t)
      ensures returned ==> answers == old(answers) + [Answer(old(added), fRet)]
      ensures returned <==> t < |threads| && threads[t].Out?
    {
      returned, fRet := false, false;
      if queue == [] {
        if t == MASTER && nTodo == 0 {
          nTotal := nTotal - 1;
          returned, fRet := true, fAllOk;
          fAllOk := true;
          answers := answers + [Answer(added, fRet)];
          added, finished := multiset{}, multiset{};
          assert threads[t := Out] == threads;
          return;
        }
        nIdle := nIdle + 1;
        threads := threads[t := Waiting];
        return;
      }
      var nNow := BatchSize(nBatchSize, |queue|, nTotal, nIdle);
      var vChecks := Take(nNow);
      threads := threads[t := Busy(vChecks, 0, fAllOk)];
    }

    // Swapping checks from the back of the queue into the batch.
    method Take(nNow: nat) returns (vChecks: seq<Check>)
      requires nNow <= |queue|
      modifies this`queue
      ensures vChecks == Taken(old(queue), nNow) && queue == old(queue)[..|old(queue)| - nNow]
    {
      vChecks := [];
      while |vChecks| < nNow
        invariant |vChecks| <= nNow <= |old(queue)| && queue == old(queue)[..|old(queue)| - |vChecks|]
        invariant Taken(old(queue), nNow) == vChecks + Taken(queue, nNow - |vChecks|)
        decreases nNow - |vChecks|
      {
        vChecks := vChecks + [queue[|queue| - 1]];
        queue := queue[..|queue| - 1];
      }
    }

    // One round of the loop over the batch.
    method RunCheck(t: nat)
      requires Valid() && Enabled(View(), Action.RunCheck(t))
      modifies this`threads
      ensures Valid() && View() == Next(eval, nBatchSize, old(View()), Action.RunCheck(t))
    {
      hide Inv, Proceed;
      StepKeeps(eval, nBatchSize, View(), Action.RunCheck(t));
      var b := threads[t];
      var fOk := b.fOk;
      if fOk {
        fOk := eval(b.vChecks[b.ran]);
      }
      threads := threads[t := Busy(b.vChecks, b.ran + 1, fOk)];
    }

    method IsIdle() returns (idle: bool)
      requires Valid()
      ensures idle <==>
                && queue == [] && (forall t :: 0 <= t < |threads| ==> !threads[t].Busy?)
                && AllTrue(eval, added)
    {
      IsIdleIff(eval, View());
      hide Inv, AllTrue;
      return nTotal == nIdle && nTodo == 0 && fAllOk;
    }
  }
}
