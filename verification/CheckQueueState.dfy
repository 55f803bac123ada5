// The check queue as a state machine.  A step is what one thread does between taking the
// mutex and giving it up, or one check run outside the mutex; threads interleave freely, and
// a waiting thread may wake up at any time.
module CheckQueueState {

  type Check = nat
  type Outcome = Check -> bool // what running a check returns

  datatype Thread =
    | Out                                                // not inside Loop
    | Waiting                                            // blocked on its condition variable
    | Busy(vChecks: seq<Check>, ran: nat, fOk: bool)     // holding a batch, the first ran of it run

  const MASTER := 0

  // A Wait that returned: what had been added since the one before, and what it answered.
  datatype Answer = Answer(checks: multiset<Check>, fRet: bool)

  datatype State = State(
    queue: seq<Check>,
    nIdle: int,
    nTotal: int,
    fAllOk: bool,
    nTodo: int,
    threads: seq<Thread>,        // the master first
    notified: bool,              // a notification of the waiting master is pending
    added: multiset<Check>,      // history: added since the last Wait returned
    finished: multiset<Check>,   // history: of these, those subtracted from nTodo
    answers: seq<Answer>)        // history: the calls of Wait so far

  datatype Action =
    | Add(vChecks: seq<Check>)   // by the master, outside Wait
    | Enter(t: nat)              // a thread enters Loop: a worker starts, the master calls Wait
    | Wake(t: nat)
    | RunCheck(t: nat)
    | EndBatch(t: nat)

  function Initial(nThreads: nat): State
    requires nThreads > 0
  {
    State([], 0, 0, true, 0, seq(nThreads, i => Out), false, multiset{}, multiset{}, [])
  }

  predicate Enabled(s: State, a: Action) {
    match a
    case Add(_) => |s.threads| > 0 && s.threads[MASTER].Out?
    case Enter(t) => t < |s.threads| && s.threads[t].Out?
    case Wake(t) => t < |s.threads| && s.threads[t].Waiting?
    case RunCheck(t) => t < |s.threads| && s.threads[t].Busy? && s.threads[t].ran < |s.threads[t].vChecks|
    case EndBatch(t) => t < |s.threads| && s.threads[t].Busy? && s.threads[t].ran == |s.threads[t].vChecks|
  }

  function Min(a: int, b: int): int {
    if a <= b then a else b
  }

  function Max(a: int, b: int): int {
    if a <= b then b else a
  }

  // How many checks a thread takes at once; the division is of unsigned numbers.
  function BatchSize(nBatchSize: nat, size: nat, nTotal: int, nIdle: int): (n: nat)
    requires nTotal >= 0 && nIdle >= 0
    ensures size > 0 ==> 1 <= n <= size
  {
    Max(1, Min(nBatchSize, size / (nTotal + nIdle + 1)))
  }

  // The last n of the queue, last first.
  function Taken(queue: seq<Check>, n: nat): (r: seq<Check>)
    requires n <= |queue|
    ensures |r| == n
  {
    if n == 0 then [] else [queue[|queue| - 1]] + Taken(queue[..|queue| - 1], n - 1)
  }

  // The inner while loop of Loop up to the point where the mutex is released.
  function Proceed(nBatchSize: nat, s: State, t: nat): State
    requires t < |s.threads| && s.nTotal >= 0 && s.nIdle >= 0
  {
    if s.queue == [] then
      if t == MASTER && s.nTodo == 0 then
        s.(nTotal := s.nTotal - 1, fAllOk := true, threads := s.threads[t := Out],
           added := multiset{}, finished := multiset{}, answers := s.answers + [Answer(s.added, s.fAllOk)])
      else
        s.(nIdle := s.nIdle + 1, threads := s.threads[t := Waiting])
    else
      var nNow := BatchSize(nBatchSize, |s.queue|, s.nTotal, s.nIdle);
      s.(queue := s.queue[..|s.queue| - nNow],
         threads := s.threads[t := Busy(Taken(s.queue, nNow), 0, s.fAllOk)])
  }

  // The clean-up of the previous round.
  function Ended(s: State, t: nat): State
    requires t < |s.threads| && s.threads[t].Busy?
  {
    var b := s.threads[t];
    var nTodo := s.nTodo - |b.vChecks|;
    s.(fAllOk := s.fAllOk && b.fOk, nTodo := nTodo,
       notified := s.notified || (nTodo == 0 && t != MASTER && s.threads[MASTER].Waiting?),
       threads := s.threads[t := Out],
       finished := s.finished + Batch(b))
  }

  function Woken(s: State, t: nat): State
    requires t < |s.threads|
  {
    s.(nIdle := s.nIdle - 1, threads := s.threads[t := Out],
       notified := s.notified && t != MASTER)
  }

  // One check of the batch, skipped once a failure is known.
  function Ran(eval: Outcome, s: State, t: nat): State
    requires Enabled(s, RunCheck(t))
  {
    var b := s.threads[t];
    s.(threads := s.threads[t := Busy(b.vChecks, b.ran + 1, b.fOk && eval(b.vChecks[b.ran]))])
  }

  function Next(eval: Outcome, nBatchSize: nat, s: State, a: Action): State
    requires Enabled(s, a) && Inv(eval, s)
  {
    match a
    case Add(vChecks) =>
      s.(queue := s.queue + vChecks, nTodo := s.nTodo + |vChecks|, added := s.added + multiset(vChecks))
    case Enter(t) =>
      CountsBound(s, t);
      Proceed(nBatchSize, s.(nTotal := s.nTotal + 1), t)
    case Wake(t) =>
      CountsBound(s, t);
      Proceed(nBatchSize, Woken(s, t), t)
    case RunCheck(t) => Ran(eval, s, t)
    case EndBatch(t) =>
      CountsBound(s, t);
      Proceed(nBatchSize, Ended(s, t), t)
  }

  // ----- sums over the threads

  function Sum(ts: seq<Thread>, f: Thread -> int): int {
    if ts == [] then 0 else f(ts[0]) + Sum(ts[1..], f)
  }

  function Held(ts: seq<Thread>): multiset<Check> {
    if ts == [] then multiset{} else Batch(ts[0]) + Held(ts[1..])
  }

  function InLoop(t: Thread): int { if t.Out? then 0 else 1 }
  function WaitingCount(t: Thread): int { if t.Waiting? then 1 else 0 }
  function BusyCount(t: Thread): int { if t.Busy? then 1 else 0 }
  function Claimed(t: Thread): int { if t.Busy? then |t.vChecks| else 0 }

  lemma {:induction false} SumBounds(ts: seq<Thread>, f: Thread -> int)
    requires forall t :: f(t) >= 0
    ensures Sum(ts, f) >= 0
  {
    if ts != [] {
      SumBounds(ts[1..], f);
    }
  }

  lemma {:induction false} SumAt(ts: seq<Thread>, f: Thread -> int, i: nat)
    requires i < |ts| && forall t :: f(t) >= 0
    ensures Sum(ts, f) >= f(ts[i])
  {
    SumBounds(ts[1..], f);
    if i > 0 {
      SumAt(ts[1..], f, i - 1);
    }
  }

  lemma {:induction false} SumUpdate(ts: seq<Thread>, f: Thread -> int, i: nat, t: Thread)
    requires i < |ts|
    ensures Sum(ts[i := t], f) == Sum(ts, f) - f(ts[i]) + f(t)
  {
    if i == 0 {
      assert ts[i := t][1..] == ts[1..];
    } else {
      SumUpdate(ts[1..], f, i - 1, t);
      assert ts[i := t][1..] == ts[1..][i - 1 := t];
    }
  }

  function Batch(t: Thread): multiset<Check> {
    if t.Busy? then multiset(t.vChecks) else multiset{}
  }

  lemma {:induction false} HeldUpdate(ts: seq<Thread>, i: nat, t: Thread)
    requires i < |ts|
    ensures Held(ts[i := t]) + Batch(ts[i]) == Held(ts) + Batch(t)
  {
    if i == 0 {
      assert ts[i := t][1..] == ts[1..];
    } else {
      HeldUpdate(ts[1..], i - 1, t);
      assert ts[i := t][1..] == ts[1..][i - 1 := t];
      SameSum(Batch(ts[0]), Held(ts[1..][i - 1 := t]), Batch(ts[i]), Held(ts[1..]), Batch(t));
    }
  }

  // Changing one thread moves its batch only.
  lemma HeldMoves(ts: seq<Thread>, i: nat, t: Thread)
    requires i < |ts|
    ensures Batch(t) == Batch(ts[i]) ==> Held(ts[i := t]) == Held(ts)
    ensures !ts[i].Busy? ==> Held(ts[i := t]) == Held(ts) + Batch(t)
    ensures !t.Busy? ==> Held(ts[i := t]) + Batch(ts[i]) == Held(ts)
  {
    HeldUpdate(ts, i, t);
    hide Held;
    if Batch(t) == Batch(ts[i]) {
      Cancel(Held(ts[i := t]), Held(ts), Batch(t));
    }
    assert !ts[i].Busy? ==> Held(ts[i := t]) + multiset{} == Held(ts[i := t]);
    assert !t.Busy? ==> Held(ts) + multiset{} == Held(ts);
  }

  lemma Cancel(a: multiset<Check>, b: multiset<Check>, c: multiset<Check>)
    requires a + c == b + c
    ensures a == b
  {
    assert a == (a + c) - c;
    assert b == (b + c) - c;
  }

  lemma SameSum(a: multiset<Check>, b: multiset<Check>, c: multiset<Check>, b': multiset<Check>, c': multiset<Check>)
    requires b + c == b' + c'
    ensures (a + b) + c == (a + b') + c'
  {
    assert (a + b) + c == a + (b + c);
    assert (a + b') + c' == a + (b' + c');
  }

  lemma CountsBound(s: State, t: nat)
    requires CountsOk(s) && t < |s.threads|
    ensures s.nTotal >= 0 && s.nIdle >= 0
    ensures s.threads[t].Waiting? ==> s.nIdle > 0
    ensures !s.threads[t].Out? ==> s.nTotal > 0
  {
    SumBounds(s.threads, InLoop);
    SumBounds(s.threads, WaitingCount);
    SumAt(s.threads, WaitingCount, t);
    SumAt(s.threads, InLoop, t);
  }

  // A thread with a positive share exists whenever the sum is positive.
  lemma {:induction false} SumWitness(ts: seq<Thread>, f: Thread -> int) returns (i: nat)
    requires Sum(ts, f) > 0
    ensures i < |ts| && f(ts[i]) > 0
  {
    if f(ts[0]) > 0 {
      i := 0;
    } else {
      i := SumWitness(ts[1..], f);
      i := i + 1;
    }
  }

  // ----- the invariant

  predicate AllTrue(eval: Outcome, m: multiset<Check>) {
    forall c :: c in m ==> eval(c)
  }

  predicate Passed(eval: Outcome, checks: seq<Check>) {
    forall i :: 0 <= i < |checks| ==> eval(checks[i])
  }

  // A batch: it is not empty, and its fOk says whether a failure is known.
  predicate BatchOk(eval: Outcome, t: Thread, fAllOk: bool) {
    t.Busy? ==>
      && 0 < |t.vChecks| && t.ran <= |t.vChecks|
      && (t.fOk ==> Passed(eval, t.vChecks[..t.ran]))
      && (!t.fOk ==> !fAllOk || !Passed(eval, t.vChecks[..t.ran]))
  }

  predicate CountsOk(s: State) {
    && s.nTotal == Sum(s.threads, InLoop)
    && s.nIdle == Sum(s.threads, WaitingCount)
    && s.nTodo == |s.queue| + Sum(s.threads, Claimed)
  }

  // Every check added since the last Wait is queued, held by one thread, or finished.
  predicate NoneLost(s: State) {
    s.added == multiset(s.queue) + Held(s.threads) + s.finished
  }

  // A waiting master has left nothing in the queue, and will be told when all is done.
  predicate MasterOk(s: State)
    requires |s.threads| > 0
  {
    && (s.threads[MASTER].Waiting? ==> s.queue == [] && (s.nTodo == 0 ==> s.notified))
    && (s.notified ==> s.threads[MASTER].Waiting? && s.nTodo == 0)
  }

  predicate AnswersOk(eval: Outcome, s: State) {
    forall i :: 0 <= i < |s.answers| ==> (s.answers[i].fRet <==> AllTrue(eval, s.answers[i].checks))
  }

  predicate BatchesOk(eval: Outcome, s: State) {
    forall t :: 0 <= t < |s.threads| ==> BatchOk(eval, s.threads[t], s.fAllOk)
  }

  predicate Inv(eval: Outcome, s: State) {
    && |s.threads| > 0
    && CountsOk(s) && NoneLost(s) && MasterOk(s) && AnswersOk(eval, s) && BatchesOk(eval, s)
    && (s.fAllOk <==> AllTrue(eval, s.finished))
  }
}
