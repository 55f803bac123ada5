// The selection loop of block assembly as rounds between states, for every order in which the
// heaps and the score may give the entries, and what a run of rounds can leave out.
module MinerRounds {
  import opened BlockTemplates

  // A transaction queued with its priority.
  datatype Queued = Queued(dPriority: real, tx: Tx)

  datatype Queues = Queues(vecPriority: seq<Queued>, waitPriMap: map<Tx, real>, clearedTxs: seq<Tx>, waitSet: set<Tx>)

  // The variables of the loop, and what has happened so far: the transactions passed over by a
  // test, those put into waitSet while the space for priority transactions lasted, and those
  // added by score during that time.
  datatype Loop = Loop(
    b: Template,
    q: Queues,
    mi: nat,
    fPriorityBlock: bool,
    actualPriority: real,
    lastFewTxs: nat,
    refused: set<Tx>,
    stranded: set<Tx>,
    regained: set<Tx>)

  ghost predicate QueuesOk(pool: Pool, q: Queues) {
    && (forall e :: e in q.vecPriority ==> e.tx in pool)
    && q.waitPriMap.Keys <= pool.Keys
    && (forall t :: t in q.clearedTxs ==> t in pool)
    && q.waitSet <= pool.Keys
  }

  ghost predicate Listed(pool: Pool, order: seq<Tx>) {
    NoRepeats(order) && forall t :: t in order <==> t in pool
  }

  function Without<T>(s: seq<T>, k: nat): (r: seq<T>)
    requires k < |s|
    ensures |r| == |s| - 1 && forall x :: x in r ==> x in s
  {
    s[..k] + s[k + 1..]
  }

  lemma WithoutOne<T>(s: seq<T>, k: nat, x: T)
    requires k < |s| && x in s && x != s[k]
    ensures x in Without(s, k)
  {
    assert s == s[..k] + [s[k]] + s[k + 1..];
  }

  // ----- one round

  ghost predicate Running(byScore: seq<Tx>, s: Loop) {
    s.mi != |byScore| || s.q.clearedTxs != []
  }

  // One entry leaves one of the three queues: by priority, by score, or one postponed.
  ghost predicate Chosen(byScore: seq<Tx>, s: Loop, priorityTx: bool, iter: Tx, s1: Loop) {
    && (priorityTx <==> s.fPriorityBlock && s.q.vecPriority != [])
    && if priorityTx then
         exists k | 0 <= k < |s.q.vecPriority| ::
           && iter == s.q.vecPriority[k].tx
           && s1 == s.(q := s.q.(vecPriority := Without(s.q.vecPriority, k)), actualPriority := s.q.vecPriority[k].dPriority)
       else if s.q.clearedTxs == [] then
         s.mi < |byScore| && iter == byScore[s.mi] && s1 == s.(mi := s.mi + 1)
       else
         exists k | 0 <= k < |s.q.clearedTxs| ::
           iter == s.q.clearedTxs[k] && s1 == s.(q := s.q.(clearedTxs := Without(s.q.clearedTxs, k)))
  }

  // An orphan waits in one of two places.
  function Postponed(s: Loop, priorityTx: bool, iter: Tx): Loop {
    if priorityTx then
      s.(q := s.q.(waitPriMap := if iter in s.q.waitPriMap then s.q.waitPriMap else s.q.waitPriMap[iter := s.actualPriority]))
    else
      s.(q := s.q.(waitSet := s.q.waitSet + {iter}),
         stranded := if s.fPriorityBlock then s.stranded + {iter} else s.stranded)
  }

  // It pays the relay fee, or the block is still below its minimum.
  predicate PaysEnough(params: Params, b: Template, e: TxEntry) {
    e.nModifiedFee >= params.relayFee(e.nTxSize) || b.nBlockSize < params.nBlockMinSize
  }

  // The priority space is not used up, and the priority is high enough for it.
  predicate HasPriority(params: Params, b: Template, e: TxEntry, actualPriority: real) {
    b.nBlockSize + e.nTxSize < params.nBlockPrioritySize && params.allowFree(actualPriority)
  }

  // The space for priority transactions ends with the first one that does not go there.
  function AfterPriority(params: Params, s: Loop, e: TxEntry): Loop {
    if s.fPriorityBlock && !HasPriority(params, s.b, e, s.actualPriority)
    then s.(fPriorityBlock := false, q := s.q.(waitPriMap := map[])) else s
  }

  datatype Verdict = Add | Skip | Stop

  const WRAP64: nat := 0x1_0000_0000_0000_0000

  // The tests, in their order; the counter of the last few changes with the size test.
  function Judge(params: Params, b: Template, e: TxEntry, priorityTx: bool, lastFewTxs: nat): (Verdict, nat)
    requires b.nBlockSize >= COINBASE_RESERVE
  {
    if !priorityTx && !PaysEnough(params, b, e) then (Stop, lastFewTxs)
    else if b.nBlockSize + e.nTxSize >= params.nBlockMaxSize then
      if b.nBlockSize > params.nBlockMaxSize - 100 || lastFewTxs > 50 then (Stop, lastFewTxs)
      else (Skip, if b.nBlockSize > params.nBlockMaxSize - 1000 then lastFewTxs + 1 else lastFewTxs)
    else if !e.isFinal then (Skip, lastFewTxs)
    else
      var maxSigOps := params.sigOpLimit(b.nBlockSize + e.nTxSize - COINBASE_RESERVE);
      if b.nBlockSigOps + e.nSigOps < maxSigOps then (Add, lastFewTxs)
      else if b.nBlockSigOps > (maxSigOps - 2) % WRAP64 then (Stop, lastFewTxs)
      else (Skip, lastFewTxs)
  }

  // Added exactly when it pays, or goes by priority, and fits; passed over only when it does not fit.
  lemma JudgeMeans(params: Params, b: Template, e: TxEntry, priorityTx: bool, lastFewTxs: nat)
    requires b.nBlockSize >= COINBASE_RESERVE
    ensures var (verdict, _) := Judge(params, b, e, priorityTx, lastFewTxs);
            && (verdict.Add? <==> (priorityTx || PaysEnough(params, b, e)) && Fits(params, b, e))
            && (verdict.Skip? ==> !Fits(params, b, e))
  {
  }

  // The waiting children of t, and no others, have moved to the queue in use.
  ghost predicate Released(pool: Pool, t: Tx, fPriorityBlock: bool, q: Queues, q': Queues) {
    if fPriorityBlock then
      && q' == q.(vecPriority := q'.vecPriority, waitPriMap := q.waitPriMap - Children(pool, t))
      && (forall e :: e in q'.vecPriority <==>
            e in q.vecPriority || (e.tx in Children(pool, t) && e.tx in q.waitPriMap && e.dPriority == q.waitPriMap[e.tx]))
    else
      && q' == q.(clearedTxs := q'.clearedTxs, waitSet := q.waitSet - Children(pool, t))
      && (forall c :: c in q'.clearedTxs <==> c in q.clearedTxs || (c in Children(pool, t) && c in q.waitSet))
  }

  ghost predicate Orphan(pool: Pool, s: Loop, t: Tx) {
    t in pool && !(pool[t].parents <= Members(s.b.vtx))
  }

  // What is done with the entry taken.
  ghost predicate Handled(pool: Pool, params: Params, s: Loop, priorityTx: bool, iter: Tx, s': Loop)
    requires iter in pool
  {
    if iter in s.b.vtx then s' == s
    else if Orphan(pool, s, iter) then s' == Postponed(s, priorityTx, iter)
    else
      s.b.nBlockSize >= COINBASE_RESERVE &&
      var s2, e := AfterPriority(params, s, pool[iter]), pool[iter];
      var (verdict, lastFewTxs) := Judge(params, s2.b, e, priorityTx, s2.lastFewTxs);
      match verdict
      case Stop => false
      case Skip => s' == s2.(refused := s2.refused + {iter}, lastFewTxs := lastFewTxs)
      case Add =>
        && Released(pool, iter, s2.fPriorityBlock, s2.q, s'.q)
        && s' == s2.(b := Pushed(s2.b, iter, e), q := s'.q,
                     regained := if s2.fPriorityBlock && !priorityTx then s2.regained + {iter} else s2.regained)
  }

  ghost predicate Round(pool: Pool, params: Params, byScore: seq<Tx>, s: Loop, s': Loop) {
    Running(byScore, s) &&
    exists priorityTx, iter, s1 ::
      Chosen(byScore, s, priorityTx, iter, s1) && iter in pool && Handled(pool, params, s1, priorityTx, iter, s')
  }

  // The test that leaves the loop early.
  ghost predicate MayStop(pool: Pool, params: Params, s: Loop, priorityTx: bool, iter: Tx) {
    && iter in pool && iter !in Members(s.b.vtx) && pool[iter].parents <= Members(s.b.vtx)
    && s.b.nBlockSize >= COINBASE_RESERVE
    && Judge(params, s.b, pool[iter], priorityTx, s.lastFewTxs).0.Stop?
  }

  ghost predicate Stops(pool: Pool, params: Params, byScore: seq<Tx>, s: Loop) {
    Running(byScore, s) &&
    exists priorityTx, iter, s1 ::
      Chosen(byScore, s, priorityTx, iter, s1) && MayStop(pool, params, s1, priorityTx, iter)
  }

  ghost predicate AllQueued(pool: Pool, q: seq<Queued>) {
    && (forall e :: e in q ==> e.tx in pool && e.dPriority == pool[e.tx].dPriority)
    && (forall t :: t in pool ==> Queued(pool[t].dPriority, t) in q)
  }

  ghost predicate Starts(pool: Pool, params: Params, s: Loop) {
    && s == Loop(EMPTY, Queues(s.q.vecPriority, map[], [], {}), 0, params.nBlockPrioritySize > 0, -1.0, 0, {}, {}, {})
    && if params.nBlockPrioritySize > 0 then AllQueued(pool, s.q.vecPriority) else s.q.vecPriority == []
  }

  ghost predicate IsRun(pool: Pool, params: Params, byScore: seq<Tx>, run: seq<Loop>) {
    && Listed(pool, byScore) && run != [] && Starts(pool, params, run[0])
    && forall i :: 0 <= i < |run| - 1 ==> Round(pool, params, byScore, run[i], run[i + 1])
  }

  // ----- refusals

  // At some point of the assembly t did not fit.
  ghost predicate DidNotFit(pool: Pool, params: Params, vtx: seq<Tx>, t: Tx)
    requires t in pool && forall u :: u in vtx ==> u in pool
  {
    exists k | 0 <= k <= |vtx| :: !FitsAt(pool, params, vtx[..k], pool[t])
  }

  ghost predicate FitsAt(pool: Pool, params: Params, vtx: seq<Tx>, e: TxEntry)
    requires forall u :: u in vtx ==> u in pool
  {
    var nBlockSize := COINBASE_RESERVE + Sizes(pool, vtx);
    && e.isFinal && nBlockSize + e.nTxSize < params.nBlockMaxSize
    && COINBASE_SIGOPS + SigOps(pool, vtx) + e.nSigOps < params.sigOpLimit(nBlockSize + e.nTxSize - COINBASE_RESERVE)
  }

  ghost predicate Refusals(pool: Pool, params: Params, vtx: seq<Tx>, refused: set<Tx>) {
    && (forall u :: u in vtx ==> u in pool) && refused <= pool.Keys
    && forall t :: t in refused ==> DidNotFit(pool, params, vtx, t)
  }

  lemma RefusalsKeep(pool: Pool, params: Params, b: Template, refused: set<Tx>, t: Tx)
    requires Refusals(pool, params, b.vtx, refused) && Assembled(pool, params, b) && t in pool
    ensures !Fits(params, b, pool[t]) ==> Refusals(pool, params, b.vtx, refused + {t})
    ensures Refusals(pool, params, Pushed(b, t, pool[t]).vtx, refused)
  {
    hide NoRepeats, ParentsFirst, Sizes, SigOps, Sum;
    assert b.vtx[..|b.vtx|] == b.vtx;
    if !Fits(params, b, pool[t]) {
      assert !FitsAt(pool, params, b.vtx[..|b.vtx|], pool[t]);
    }
    var vtx := b.vtx + [t];
    forall u | u in refused
      ensures DidNotFit(pool, params, vtx, u)
    {
      var k :| 0 <= k <= |b.vtx| && !FitsAt(pool, params, b.vtx[..k], pool[u]);
      assert vtx[..k] == b.vtx[..k];
    }
  }

  // The limit on signature operations does not grow while there is space for priority.
  ghost predicate Steady(params: Params) {
    forall m: nat, n: nat :: m <= n && n + COINBASE_RESERVE < params.nBlockPrioritySize ==>
      params.sigOpLimit(n) <= params.sigOpLimit(m)
  }

  lemma {:induction false} TotalsGrow(pool: Pool, vtx: seq<Tx>, k: nat)
    requires k <= |vtx| && forall u :: u in vtx ==> u in pool
    ensures Sizes(pool, vtx[..k]) <= Sizes(pool, vtx) && SigOps(pool, vtx[..k]) <= SigOps(pool, vtx)
    decreases |vtx|
  {
    if k < |vtx| {
      TotalsGrow(pool, vtx[..|vtx| - 1], k);
      assert vtx[..|vtx| - 1][..k] == vtx[..k];
    } else {
      assert vtx[..k] == vtx;
    }
  }

  // What did not fit once does not fit later, as long as that limit does not grow.
  lemma StillDoesNotFit(pool: Pool, params: Params, b: Template, t: Tx)
    requires Assembled(pool, params, b) && t in pool && (forall u :: u in b.vtx ==> u in pool) && DidNotFit(pool, params, b.vtx, t)
    requires Steady(params) && b.nBlockSize + pool[t].nTxSize < params.nBlockPrioritySize
    ensures !Fits(params, b, pool[t])
  {
    hide NoRepeats, ParentsFirst, Sizes, SigOps, Sum;
    var k :| 0 <= k <= |b.vtx| && !FitsAt(pool, params, b.vtx[..k], pool[t]);
    TotalsGrow(pool, b.vtx, k);
  }

  // ----- what every round keeps

  ghost predicate Sound(pool: Pool, params: Params, byScore: seq<Tx>, s: Loop) {
    && s.mi <= |byScore| && Assembled(pool, params, s.b) && QueuesOk(pool, s.q)
    && Refusals(pool, params, s.b.vtx, s.refused)
  }

  // By score: every entry is in the block, refused, still to come, in hand, waiting for a parent,
  // or stranded.
  ghost predicate ScorePlaced(pool: Pool, byScore: seq<Tx>, s: Loop, hand: set<Tx>)
    requires s.mi <= |byScore|
  {
    forall t :: t in pool ==>
      t in s.b.vtx || t in s.refused || t in byScore[s.mi..] || t in s.q.clearedTxs || t in hand
      || (t in s.q.waitSet && (Orphan(pool, s, t) || (t in s.stranded && s.regained != {})))
  }

  ghost predicate Enqueued(q: seq<Queued>, t: Tx) {
    exists e :: e in q && e.tx == t
  }

  // By priority, while there is space: in the block, refused, in hand, queued, or waiting.
  ghost predicate PriorityPlaced(pool: Pool, s: Loop, hand: set<Tx>) {
    s.fPriorityBlock ==> forall t :: t in pool ==>
      t in s.b.vtx || t in s.refused || t in hand || Enqueued(s.q.vecPriority, t)
      || (t in s.q.waitPriMap && Orphan(pool, s, t))
  }

  // While there is priority space, whatever is put off by score is stranded, and as long as
  // nothing was added by score the priority queue is empty by then.
  ghost predicate Stranding(s: Loop) {
    s.fPriorityBlock ==> s.q.waitSet <= s.stranded && (s.q.waitSet != {} && s.regained == {} ==> s.q.vecPriority == [])
  }

  ghost predicate History(params: Params, s: Loop) {
    && s.regained <= s.refused && s.regained <= Members(s.b.vtx)
    && (Steady(params) ==> s.regained == {})
    && (params.nBlockPrioritySize == 0 ==> !s.fPriorityBlock && s.stranded == {} == s.regained)
  }

  ghost predicate Inv(pool: Pool, params: Params, byScore: seq<Tx>, s: Loop) {
    && Sound(pool, params, byScore, s)
    && ScorePlaced(pool, byScore, s, {}) && PriorityPlaced(pool, s, {}) && Stranding(s) && History(params, s)
  }

  lemma StartsInv(pool: Pool, params: Params, byScore: seq<Tx>, s: Loop)
    requires Starts(pool, params, s) && Listed(pool, byScore)
    ensures Inv(pool, params, byScore, s)
  {
    assert byScore[0..] == byScore;
    assert Members([]) == {};
    EmptyAssembled(pool, params);
    hide Assembled;
    forall t | t in pool && s.fPriorityBlock
      ensures Enqueued(s.q.vecPriority, t)
    {
      assert Queued(pool[t].dPriority, t) in s.q.vecPriority;
    }
  }

  // What holds once an entry is in hand.
  ghost predicate InHand(pool: Pool, params: Params, byScore: seq<Tx>, s: Loop, priorityTx: bool, iter: Tx) {
    && iter in pool && Sound(pool, params, byScore, s) && History(params, s)
    && ScorePlaced(pool, byScore, s, if priorityTx then {} else {iter})
    && PriorityPlaced(pool, s, if priorityTx then {iter} else {})
    && Stranding(s)
    && (s.fPriorityBlock && !priorityTx ==> s.q.vecPriority == [])
    && (s.fPriorityBlock && priorityTx && s.q.waitSet != {} ==> s.regained != {})
  }

  lemma TakeByPriority(pool: Pool, params: Params, byScore: seq<Tx>, s: Loop, iter: Tx, s1: Loop)
    requires Inv(pool, params, byScore, s) && Chosen(byScore, s, true, iter, s1)
    ensures InHand(pool, params, byScore, s1, true, iter)
  {
    hide Assembled, Refusals, Steady, Members, Sound, ScorePlaced;
    var q := s.q.vecPriority;
    var k :| 0 <= k < |q| && iter == q[k].tx && s1 == s.(q := s.q.(vecPriority := Without(q, k)), actualPriority := q[k].dPriority);
    forall t | t in pool && Enqueued(q, t) && t != iter
      ensures Enqueued(s1.q.vecPriority, t)
    {
      var e :| e in q && e.tx == t;
      WithoutOne(q, k, e);
    }
    assert q[k] in q;
    TookPriority(pool, params, byScore, s, s1, iter, k);
  }

  lemma TookPriority(pool: Pool, params: Params, byScore: seq<Tx>, s: Loop, s1: Loop, iter: Tx, k: nat)
    requires Sound(pool, params, byScore, s) && ScorePlaced(pool, byScore, s, {}) && k < |s.q.vecPriority|
    requires iter == s.q.vecPriority[k].tx
    requires s1 == s.(q := s.q.(vecPriority := Without(s.q.vecPriority, k)), actualPriority := s.q.vecPriority[k].dPriority)
    ensures iter in pool && Sound(pool, params, byScore, s1) && ScorePlaced(pool, byScore, s1, {})
  {
    hide Assembled, Refusals, Members;
    assert s.q.vecPriority[k] in s.q.vecPriority;
  }

  lemma TakeByScore(pool: Pool, params: Params, byScore: seq<Tx>, s: Loop, iter: Tx, s1: Loop)
    requires Listed(pool, byScore) && Inv(pool, params, byScore, s) && Chosen(byScore, s, false, iter, s1)
    ensures InHand(pool, params, byScore, s1, false, iter)
  {
    hide Assembled, Refusals, Steady, Members, ScorePlaced, Listed;
    if s.q.clearedTxs == [] {
      TookNext(pool, byScore, s, s1);
    } else {
      var q := s.q.clearedTxs;
      var k :| 0 <= k < |q| && iter == q[k] && s1 == s.(q := s.q.(clearedTxs := Without(q, k)));
      TookCleared(pool, byScore, s, s1, k);
    }
  }

  lemma TookNext(pool: Pool, byScore: seq<Tx>, s: Loop, s1: Loop)
    requires Listed(pool, byScore) && s.mi < |byScore| && s1 == s.(mi := s.mi + 1) && ScorePlaced(pool, byScore, s, {})
    ensures byScore[s.mi] in pool && ScorePlaced(pool, byScore, s1, {byScore[s.mi]})
  {
    hide Members;
    assert byScore[s.mi..] == [byScore[s.mi]] + byScore[s1.mi..];
    assert byScore[s.mi] in byScore;
  }

  lemma TookCleared(pool: Pool, byScore: seq<Tx>, s: Loop, s1: Loop, k: nat)
    requires k < |s.q.clearedTxs| && s1 == s.(q := s.q.(clearedTxs := Without(s.q.clearedTxs, k)))
    requires s.mi <= |byScore| && QueuesOk(pool, s.q) && ScorePlaced(pool, byScore, s, {})
    ensures s.q.clearedTxs[k] in pool && ScorePlaced(pool, byScore, s1, {s.q.clearedTxs[k]})
  {
    hide Members;
    var q := s.q.clearedTxs;
    assert q == q[..k] + [q[k]] + q[k + 1..];
  }

  lemma PostponedKeeps(pool: Pool, params: Params, byScore: seq<Tx>, s: Loop, priorityTx: bool, iter: Tx)
    requires InHand(pool, params, byScore, s, priorityTx, iter) && Orphan(pool, s, iter)
    ensures Inv(pool, params, byScore, Postponed(s, priorityTx, iter))
  {
    hide Assembled, Refusals, Steady, Members;
  }

  lemma AfterPriorityKeeps(pool: Pool, params: Params, byScore: seq<Tx>, s: Loop, priorityTx: bool, iter: Tx)
    requires InHand(pool, params, byScore, s, priorityTx, iter)
    ensures InHand(pool, params, byScore, AfterPriority(params, s, pool[iter]), priorityTx, iter)
  {
    hide Assembled, Refusals, Steady, Members;
  }

  lemma SkipKeeps(pool: Pool, params: Params, byScore: seq<Tx>, s: Loop, priorityTx: bool, iter: Tx, lastFewTxs: nat)
    requires InHand(pool, params, byScore, s, priorityTx, iter) && !Fits(params, s.b, pool[iter])
    ensures Inv(pool, params, byScore, s.(refused := s.refused + {iter}, lastFewTxs := lastFewTxs))
  {
    RefusalsKeep(pool, params, s.b, s.refused, iter);
    hide Assembled, Refusals, Steady, Members, Fits;
  }

  // An entry added by score while there is priority space was refused before.
  lemma RefusedBefore(pool: Pool, params: Params, byScore: seq<Tx>, s: Loop, iter: Tx)
    requires InHand(pool, params, byScore, s, false, iter) && s.fPriorityBlock
    requires iter !in s.b.vtx && !Orphan(pool, s, iter)
    ensures iter in s.refused
  {
    hide Assembled, Refusals, Steady, Members, Orphan, ScorePlaced, History;
    assert !Enqueued(s.q.vecPriority, iter);
  }

  lemma OrphanStays(pool: Pool, s: Loop, s': Loop, iter: Tx, t: Tx)
    requires s'.b.vtx == s.b.vtx + [iter] && Orphan(pool, s, t) && t !in Children(pool, iter)
    ensures Orphan(pool, s', t)
  {
    var p :| p in pool[t].parents && p !in Members(s.b.vtx);
    assert p != iter;
    assert p !in Members(s'.b.vtx);
  }

  ghost predicate Added(pool: Pool, s: Loop, priorityTx: bool, iter: Tx, s': Loop)
    requires iter in pool
  {
    && Released(pool, iter, s.fPriorityBlock, s.q, s'.q)
    && s' == s.(b := Pushed(s.b, iter, pool[iter]), q := s'.q,
                regained := if s.fPriorityBlock && !priorityTx then s.regained + {iter} else s.regained)
  }

  lemma AddedSound(pool: Pool, params: Params, byScore: seq<Tx>, s: Loop, priorityTx: bool, iter: Tx, s': Loop)
    requires InHand(pool, params, byScore, s, priorityTx, iter) && iter !in s.b.vtx && !Orphan(pool, s, iter)
    requires Fits(params, s.b, pool[iter]) && Added(pool, s, priorityTx, iter, s')
    ensures Sound(pool, params, byScore, s')
  {
    hide ScorePlaced, PriorityPlaced, Stranding, History, Steady, Assembled, Refusals;
    PushAssembled(pool, params, s.b, iter);
    RefusalsKeep(pool, params, s.b, s.refused, iter);
    hide Fits, Pushed;
    assert s'.b == Pushed(s.b, iter, pool[iter]);
  }

  lemma AddedScore(pool: Pool, params: Params, byScore: seq<Tx>, s: Loop, priorityTx: bool, iter: Tx, s': Loop)
    requires InHand(pool, params, byScore, s, priorityTx, iter) && Added(pool, s, priorityTx, iter, s')
    ensures ScorePlaced(pool, byScore, s', {})
  {
    hide Assembled, Refusals, Steady, Members, History, PriorityPlaced, QueuesOk, Children, Orphan;
    assert iter in s'.b.vtx;
    forall t | t in pool && t in s.q.waitSet && Orphan(pool, s, t) && t in s'.q.waitSet
      ensures Orphan(pool, s', t) || (t in s'.stranded && s'.regained != {})
    {
      if t !in Children(pool, iter) {
        OrphanStays(pool, s, s', iter, t);
      }
    }
  }

  lemma AddedPriority(pool: Pool, params: Params, byScore: seq<Tx>, s: Loop, priorityTx: bool, iter: Tx, s': Loop)
    requires InHand(pool, params, byScore, s, priorityTx, iter) && Added(pool, s, priorityTx, iter, s')
    ensures PriorityPlaced(pool, s', {}) && Stranding(s')
  {
    hide Assembled, Refusals, Steady, Members, History, ScorePlaced, QueuesOk, Children, Orphan;
    assert iter in s'.b.vtx;
    forall t | t in pool && s.fPriorityBlock && t in s.q.waitPriMap && Orphan(pool, s, t)
      ensures Enqueued(s'.q.vecPriority, t) || (t in s'.q.waitPriMap && Orphan(pool, s', t))
    {
      if t in Children(pool, iter) {
        assert Queued(s.q.waitPriMap[t], t) in s'.q.vecPriority;
      } else {
        OrphanStays(pool, s, s', iter, t);
      }
    }
    forall t | s.fPriorityBlock && Enqueued(s.q.vecPriority, t)
      ensures Enqueued(s'.q.vecPriority, t)
    {
      var e :| e in s.q.vecPriority && e.tx == t;
      assert e in s'.q.vecPriority;
    }
  }

  lemma AddedHistory(pool: Pool, params: Params, byScore: seq<Tx>, s: Loop, priorityTx: bool, iter: Tx, s': Loop)
    requires InHand(pool, params, byScore, s, priorityTx, iter) && iter !in s.b.vtx && !Orphan(pool, s, iter)
    requires s.fPriorityBlock ==> HasPriority(params, s.b, pool[iter], s.actualPriority)
    requires Fits(params, s.b, pool[iter]) && Added(pool, s, priorityTx, iter, s')
    ensures History(params, s')
  {
    hide Assembled, ScorePlaced, PriorityPlaced, Stranding, Released, Steady, DidNotFit;
    if s.fPriorityBlock && !priorityTx {
      RefusedBefore(pool, params, byScore, s, iter);
      if Steady(params) {
        StillDoesNotFit(pool, params, s.b, iter);
      }
    }
  }

  // Every round keeps the invariant.
  lemma RoundKeeps(pool: Pool, params: Params, byScore: seq<Tx>, s: Loop, s': Loop)
    requires Listed(pool, byScore) && Inv(pool, params, byScore, s) && Round(pool, params, byScore, s, s')
    ensures Inv(pool, params, byScore, s')
  {
    var priorityTx, iter, s1 :|
      Chosen(byScore, s, priorityTx, iter, s1) && iter in pool && Handled(pool, params, s1, priorityTx, iter, s');
    hide Inv, Chosen, Round, Fits, Released, Sound, ScorePlaced, PriorityPlaced, Stranding, History, Orphan, Judge, Listed;
    if priorityTx {
      TakeByPriority(pool, params, byScore, s, iter, s1);
    } else {
      TakeByScore(pool, params, byScore, s, iter, s1);
    }
    HandledKeeps(pool, params, byScore, s1, priorityTx, iter, s');
  }

  lemma HandledKeeps(pool: Pool, params: Params, byScore: seq<Tx>, s: Loop, priorityTx: bool, iter: Tx, s': Loop)
    requires InHand(pool, params, byScore, s, priorityTx, iter) && Handled(pool, params, s, priorityTx, iter, s')
    ensures Inv(pool, params, byScore, s')
  {
    hide Fits, Released, Judge, InHand, Orphan, Postponed, Sound, ScorePlaced, PriorityPlaced, Stranding, History, Pushed;
    InHandPool(pool, params, byScore, s, priorityTx, iter);
    if iter in s.b.vtx {
      hide Inv;
      InBlockKeeps(pool, params, byScore, s, priorityTx, iter);
    } else if Orphan(pool, s, iter) {
      hide Inv;
      PostponedKeeps(pool, params, byScore, s, priorityTx, iter);
    } else {
      var s2, e := AfterPriority(params, s, pool[iter]), pool[iter];
      AfterPriorityKeeps(pool, params, byScore, s, priorityTx, iter);
      JudgeMeans(params, s2.b, e, priorityTx, s2.lastFewTxs);
      var (verdict, lastFewTxs) := Judge(params, s2.b, e, priorityTx, s2.lastFewTxs);
      if verdict.Skip? {
        hide Inv;
        SkipKeeps(pool, params, byScore, s2, priorityTx, iter, lastFewTxs);
      } else {
        SameOrphans(pool, s, s2, iter);
        AddedSound(pool, params, byScore, s2, priorityTx, iter, s');
        AddedScore(pool, params, byScore, s2, priorityTx, iter, s');
        AddedPriority(pool, params, byScore, s2, priorityTx, iter, s');
        AddedHistory(pool, params, byScore, s2, priorityTx, iter, s');
      }
    }
  }

  lemma InHandPool(pool: Pool, params: Params, byScore: seq<Tx>, s: Loop, priorityTx: bool, iter: Tx)
    requires InHand(pool, params, byScore, s, priorityTx, iter)
    ensures iter in pool
  {
  }

  lemma SameOrphans(pool: Pool, s: Loop, s2: Loop, t: Tx)
    requires s2.b == s.b
    ensures Orphan(pool, s2, t) <==> Orphan(pool, s, t)
  {
  }

  lemma InBlockKeeps(pool: Pool, params: Params, byScore: seq<Tx>, s: Loop, priorityTx: bool, iter: Tx)
    requires InHand(pool, params, byScore, s, priorityTx, iter) && iter in s.b.vtx
    ensures Inv(pool, params, byScore, s)
  {
    hide Assembled, Refusals, Steady, Members, Orphan;
  }

  lemma {:induction false} RunInv(pool: Pool, params: Params, byScore: seq<Tx>, run: seq<Loop>, i: nat)
    requires IsRun(pool, params, byScore, run) && i < |run|
    ensures Inv(pool, params, byScore, run[i])
  {
    hide Inv, Starts, Round;
    if i == 0 {
      StartsInv(pool, params, byScore, run[0]);
    } else {
      RunInv(pool, params, byScore, run, i - 1);
      assert Round(pool, params, byScore, run[i - 1], run[(i - 1) + 1]);
      RoundKeeps(pool, params, byScore, run[i - 1], run[i]);
    }
  }

  // ----- what is left out

  ghost predicate MissesParent(pool: Pool, vtx: seq<Tx>, t: Tx) {
    t in pool && exists p :: p in pool[t].parents && p !in vtx
  }

  // Main result: when the loop has run to its end, everything left out did not fit at some
  // point, or misses a parent in the block, or was put into waitSet while priority space
  // lasted, and then some transaction once refused was added by score during that time.
  lemma LeftOut(pool: Pool, params: Params, byScore: seq<Tx>, run: seq<Loop>, t: Tx)
    requires IsRun(pool, params, byScore, run) && !Running(byScore, run[|run| - 1])
    requires t in pool && t !in run[|run| - 1].b.vtx
    ensures var s := run[|run| - 1];
            && Refusals(pool, params, s.b.vtx, s.refused)
            && s.regained <= s.refused && s.regained <= Members(s.b.vtx)
            && (t in s.refused || MissesParent(pool, s.b.vtx, t) || (t in s.stranded && s.regained != {}))
  {
    hide Starts, Round, Assembled, Refusals;
    RunInv(pool, params, byScore, run, |run| - 1);
  }

  // So nothing else is left out when there is no priority space, or the limit on signature
  // operations does not grow within it.
  lemma LeftOutSteady(pool: Pool, params: Params, byScore: seq<Tx>, run: seq<Loop>, t: Tx)
    requires IsRun(pool, params, byScore, run) && !Running(byScore, run[|run| - 1])
    requires t in pool && t !in run[|run| - 1].b.vtx
    requires params.nBlockPrioritySize == 0 || Steady(params)
    ensures t in run[|run| - 1].refused || MissesParent(pool, run[|run| - 1].b.vtx, t)
  {
    hide Starts, Round, Assembled, Refusals, Steady;
    RunInv(pool, params, byScore, run, |run| - 1);
    LeftOut(pool, params, byScore, run, t);
  }

  // The node's own limit: 20000 for each million bytes begun.
  const MAX_BLOCK_SIGOPS_PER_MB: nat := 20000

  function SigOpAcceptLimit(nBlockSize: nat): nat {
    (1 + (if nBlockSize == 0 then 0 else (nBlockSize - 1) / 1_000_000)) * MAX_BLOCK_SIGOPS_PER_MB
  }

  // That limit does not grow within the priority space exactly when the space ends before the
  // second million; the default is 50000.
  lemma DefaultIsSteady(params: Params)
    requires forall n :: params.sigOpLimit(n) == SigOpAcceptLimit(n)
    ensures Steady(params) <==> params.nBlockPrioritySize <= 1_001_001
  {
    if params.nBlockPrioritySize > 1_001_001 {
      assert params.sigOpLimit(1_000_001) > params.sigOpLimit(0);
    }
  }
}
