// Block assembly: the loop over the pool, in place, and the retry with a smaller pool.
module Miner {
  import opened BlockTemplates
  import opened MinerRounds

  lemma Pick<T>(s: set<T>)
    ensures s == {} || exists x :: x in s
  {
    if forall x :: x !in s {
      assert s == {};
    }
  }

  // Every entry once, in some order; the score that decides it is not part of the model.
  method ByScore(pool: Pool) returns (order: seq<Tx>)
    ensures Listed(pool, order)
  {
    order := [];
    var todo := pool.Keys;
    while todo != {}
      invariant todo <= pool.Keys && NoRepeats(order)
      invariant forall t :: t in order <==> t in pool && t !in todo
    {
      Pick(todo);
      var t :| t in todo;
      order, todo := order + [t], todo - {t};
    }
  }

  method IsOrphan(pool: Pool, inBlock: set<Tx>, t: Tx) returns (fOrphan: bool)
    requires t in pool
    ensures !fOrphan <==> pool[t].parents <= inBlock
  {
    var todo := pool[t].parents;
    while todo != {}
      invariant todo <= pool[t].parents && pool[t].parents - todo <= inBlock
    {
      Pick(todo);
      var parent :| parent in todo;
      if parent !in inBlock {
        return true;
      }
      todo := todo - {parent};
    }
    return false;
  }

  // Children that were waiting become available.
  method Release(pool: Pool, t: Tx, fPriorityBlock: bool, q: Queues) returns (q': Queues)
    requires QueuesOk(pool, q)
    ensures QueuesOk(pool, q') && Released(pool, t, fPriorityBlock, q, q')
  {
    var vecPriority, waitPriMap, clearedTxs, waitSet := q.vecPriority, q.waitPriMap, q.clearedTxs, q.waitSet;
    var todo := Children(pool, t);
    while todo != {}
      invariant todo <= Children(pool, t)
      invariant QueuesOk(pool, Queues(vecPriority, waitPriMap, clearedTxs, waitSet))
      invariant fPriorityBlock ==> clearedTxs == q.clearedTxs && waitSet == q.waitSet
      invariant fPriorityBlock ==> waitPriMap == q.waitPriMap - (Children(pool, t) - todo)
      invariant fPriorityBlock ==> forall e :: e in vecPriority <==>
                  e in q.vecPriority
                  || (e.tx in Children(pool, t) - todo && e.tx in q.waitPriMap && e.dPriority == q.waitPriMap[e.tx])
      invariant !fPriorityBlock ==> vecPriority == q.vecPriority && waitPriMap == q.waitPriMap
      invariant !fPriorityBlock ==> waitSet == q.waitSet - (Children(pool, t) - todo)
      invariant !fPriorityBlock ==>
                  forall c :: c in clearedTxs <==> c in q.clearedTxs || (c in Children(pool, t) - todo && c in q.waitSet)
    {
      Pick(todo);
      var child :| child in todo;
      if fPriorityBlock {
        if child in waitPriMap {
          vecPriority := vecPriority + [Queued(waitPriMap[child], child)];
          waitPriMap := waitPriMap - {child};
        }
      } else {
        if child in waitSet {
          clearedTxs := clearedTxs + [child];
          waitSet := waitSet - {child};
        }
      }
      todo := todo - {child};
    }
    q' := Queues(vecPriority, waitPriMap, clearedTxs, waitSet);
  }

  method PriorityQueue(pool: Pool) returns (q: seq<Queued>)
    ensures AllQueued(pool, q)
  {
    q := [];
    var todo := pool.Keys;
    while todo != {}
      invariant todo <= pool.Keys
      invariant forall e :: e in q ==> e.tx in pool && e.dPriority == pool[e.tx].dPriority
      invariant forall t :: t in pool && t !in todo ==> Queued(pool[t].dPriority, t) in q
    {
      Pick(todo);
      var t :| t in todo;
      q, todo := q + [Queued(pool[t].dPriority, t)], todo - {t};
    }
  }

  // The position of the entry a heap would give first; which one is left open.
  method Front<T>(s: seq<T>) returns (k: nat)
    requires s != []
    ensures k < |s|
  {
    k :| 0 <= k < |s|;
  }

  // How many entries are still to be taken.
  function Left(byScore: seq<Tx>, q: Queues, mi: nat): int {
    |q.vecPriority| + |q.clearedTxs| + |byScore| - mi
  }

  // The next transaction to look at: by priority, by score, or one that was postponed.
  method TakeNext(pool: Pool, byScore: seq<Tx>, q: Queues, mi: nat, fPriorityBlock: bool, actualPriority: real, ghost s: Loop)
      returns (priorityTx: bool, iter: Tx, q': Queues, mi': nat, actualPriority': real)
    requires s.q == q && s.mi == mi && s.fPriorityBlock == fPriorityBlock && s.actualPriority == actualPriority
    requires Running(byScore, s) && mi <= |byScore| && Listed(pool, byScore) && QueuesOk(pool, q)
    ensures iter in pool && mi' <= |byScore| && QueuesOk(pool, q')
    ensures Chosen(byScore, s, priorityTx, iter, s.(q := q', mi := mi', actualPriority := actualPriority'))
    ensures Left(byScore, q', mi') == Left(byScore, q, mi) - 1
  {
    priorityTx, q', mi', actualPriority' := false, q, mi, actualPriority;
    if fPriorityBlock && q.vecPriority != [] {
      priorityTx := true;
      var k := Front(q.vecPriority);
      iter, actualPriority' := q.vecPriority[k].tx, q.vecPriority[k].dPriority;
      assert q.vecPriority[k] in q.vecPriority;
      q' := q.(vecPriority := Without(q.vecPriority, k));
    } else if q.clearedTxs == [] {
      iter := byScore[mi];
      assert iter in byScore;
      mi' := mi + 1;
    } else {
      var k := Front(q.clearedTxs);
      iter := q.clearedTxs[k];
      q' := q.(clearedTxs := Without(q.clearedTxs, k));
    }
  }

  // Whether a transaction whose parents are in the block is added, passed over, or the last
  // one looked at; and whether the space for priority transactions ends here.
  method Consider(params: Params, b: Template, e: TxEntry, priorityTx: bool, fPriorityBlock: bool, actualPriority: real,
                  lastFewTxs: nat)
      returns (endPriority: bool, verdict: Verdict, lastFewTxs': nat)
    requires params.Valid() && b.nBlockSize >= COINBASE_RESERVE
    ensures endPriority <==> fPriorityBlock && !HasPriority(params, b, e, actualPriority)
    ensures (verdict, lastFewTxs') == Judge(params, b, e, priorityTx, lastFewTxs)
    ensures verdict.Skip? ==> !Fits(params, b, e)
    ensures verdict.Add? <==> (priorityTx || PaysEnough(params, b, e)) && Fits(params, b, e)
    ensures lastFewTxs <= lastFewTxs' <= lastFewTxs + if verdict.Skip? then 1 else 0
  {
    lastFewTxs' := lastFewTxs;
    endPriority := fPriorityBlock
      && (b.nBlockSize + e.nTxSize >= params.nBlockPrioritySize || !params.allowFree(actualPriority));
    if !priorityTx && e.nModifiedFee < params.relayFee(e.nTxSize) && b.nBlockSize >= params.nBlockMinSize {
      return endPriority, Stop, lastFewTxs;
    }
    if b.nBlockSize + e.nTxSize >= params.nBlockMaxSize {
      if b.nBlockSize > params.nBlockMaxSize - 100 || lastFewTxs > 50 {
        return endPriority, Stop, lastFewTxs;
      }
      // within 1000 bytes of a full block, only 50 more are looked at
      if b.nBlockSize > params.nBlockMaxSize - 1000 {
        lastFewTxs' := lastFewTxs + 1;
      }
      return endPriority, Skip, lastFewTxs';
    }
    if !e.isFinal {
      return endPriority, Skip, lastFewTxs;
    }
    var maxSigOps := params.sigOpLimit(b.nBlockSize + e.nTxSize - COINBASE_RESERVE);
    if b.nBlockSigOps + e.nSigOps >= maxSigOps {
      if b.nBlockSigOps > (maxSigOps - 2) % WRAP64 {
        return endPriority, Stop, lastFewTxs;
      }
      return endPriority, Skip, lastFewTxs;
    }
    verdict := Add;
  }

  lemma FewerLeft(pool: Pool, inBlock: set<Tx>, t: Tx)
    requires t in pool && t !in inBlock
    ensures |pool.Keys - (inBlock + {t})| < |pool.Keys - inBlock|
  {
    assert pool.Keys - (inBlock + {t}) == (pool.Keys - inBlock) - {t};
  }

  lemma MembersOf(b: Template, t: Tx, e: TxEntry)
    ensures Members(Pushed(b, t, e).vtx) == Members(b.vtx) + {t}
    ensures b.vtx == [] ==> Members(b.vtx) == {}
  {
  }

  lemma SizeKnown(pool: Pool, params: Params, b: Template)
    requires Assembled(pool, params, b)
    ensures b.nBlockSize >= COINBASE_RESERVE
  {
  }

  // An orphan waits by priority or by score.
  method PutOff(pool: Pool, params: Params, iter: Tx, priorityTx: bool, q: Queues, actualPriority: real, ghost s: Loop)
      returns (q': Queues)
    requires s.q == q && s.actualPriority == actualPriority && QueuesOk(pool, q)
    requires iter in pool && iter !in Members(s.b.vtx) && !(pool[iter].parents <= Members(s.b.vtx))
    ensures QueuesOk(pool, q') && q'.vecPriority == q.vecPriority && q'.clearedTxs == q.clearedTxs
    ensures Postponed(s, priorityTx, iter) == s.(q := q', stranded := Postponed(s, priorityTx, iter).stranded)
    ensures Handled(pool, params, s, priorityTx, iter, Postponed(s, priorityTx, iter))
  {
    q' := q;
    if priorityTx {
      if iter !in q.waitPriMap {
        q' := q.(waitPriMap := q.waitPriMap[iter := actualPriority]);
      }
    } else {
      q' := q.(waitSet := q.waitSet + {iter});
    }
  }

  // What is done with a transaction whose parents are in the block.
  method LookAt(pool: Pool, params: Params, iter: Tx, priorityTx: bool, b: Template, q: Queues, fPriorityBlock: bool,
                actualPriority: real, lastFewTxs: nat, ghost s: Loop)
      returns (verdict: Verdict, b': Template, q': Queues, fPriorityBlock': bool, lastFewTxs': nat, ghost s': Loop)
    requires params.Valid() && Assembled(pool, params, b) && QueuesOk(pool, q)
    requires s == Loop(b, q, s.mi, fPriorityBlock, actualPriority, lastFewTxs, s.refused, s.stranded, s.regained)
    requires iter in pool && iter !in Members(b.vtx) && pool[iter].parents <= Members(b.vtx)
    ensures Assembled(pool, params, b') && QueuesOk(pool, q')
    ensures if verdict.Add? then
              b' == Pushed(b, iter, pool[iter]) && Members(b'.vtx) == Members(b.vtx) + {iter}
              && |pool.Keys - Members(b'.vtx)| < |pool.Keys - Members(b.vtx)|
            else b' == b && q'.vecPriority == q.vecPriority && q'.clearedTxs == q.clearedTxs
    ensures verdict.Stop? ==> b.nBlockSize >= COINBASE_RESERVE && Judge(params, b, pool[iter], priorityTx, lastFewTxs).0.Stop?
    ensures !verdict.Stop? ==> Handled(pool, params, s, priorityTx, iter, s')
    ensures s' == Loop(b', q', s.mi, fPriorityBlock', actualPriority, lastFewTxs', s'.refused, s'.stranded, s'.regained)
  {
    hide Assembled, Children, Released, Fits, PaysEnough, HasPriority, Judge, Pushed;
    SizeKnown(pool, params, b);
    MemberOf(b.vtx, iter);
    b', q', fPriorityBlock' := b, q, fPriorityBlock;
    var endPriority;
    endPriority, verdict, lastFewTxs' := Consider(params, b, pool[iter], priorityTx, fPriorityBlock, actualPriority, lastFewTxs);
    if endPriority {
      fPriorityBlock', q' := false, q.(waitPriMap := map[]);
    }
    s' := AfterPriority(params, s, pool[iter]).(lastFewTxs := lastFewTxs');
    match verdict
    case Stop =>
    case Skip => s' := s'.(refused := s'.refused + {iter});
    case Add =>
      PushAssembled(pool, params, b, iter);
      MembersOf(b, iter, pool[iter]);
      FewerLeft(pool, Members(b.vtx), iter);
      b' := Pushed(b, iter, pool[iter]);
      q' := Release(pool, iter, fPriorityBlock', q');
      s' := s'.(b := b', q := q', regained := if fPriorityBlock' && !priorityTx then s'.regained + {iter} else s'.regained);
  }

  // What is done with the transaction taken; stop if it is the last one looked at.
  method Handle(pool: Pool, params: Params, iter: Tx, priorityTx: bool, b: Template, inBlock: set<Tx>, q: Queues,
                fPriorityBlock: bool, actualPriority: real, lastFewTxs: nat, ghost s: Loop)
      returns (stop: bool, b': Template, inBlock': set<Tx>, q': Queues, fPriorityBlock': bool, lastFewTxs': nat, ghost s': Loop)
    requires params.Valid() && Assembled(pool, params, b) && QueuesOk(pool, q) && inBlock == Members(b.vtx) && iter in pool
    requires s == Loop(b, q, s.mi, fPriorityBlock, actualPriority, lastFewTxs, s.refused, s.stranded, s.regained)
    ensures Assembled(pool, params, b') && QueuesOk(pool, q') && inBlock' == Members(b'.vtx)
    ensures if inBlock' == inBlock then q'.vecPriority == q.vecPriority && q'.clearedTxs == q.clearedTxs
            else |pool.Keys - inBlock'| < |pool.Keys - inBlock|
    ensures if stop then MayStop(pool, params, s, priorityTx, iter) && b' == b
            else Handled(pool, params, s, priorityTx, iter, s')
    ensures s' == Loop(b', q', s.mi, fPriorityBlock', actualPriority, lastFewTxs', s'.refused, s'.stranded, s'.regained)
  {
    hide Assembled, QueuesOk, Pushed, Members, Judge, Handled, Postponed;
    stop, b', inBlock', q', fPriorityBlock', lastFewTxs', s' := false, b, inBlock, q, fPriorityBlock, lastFewTxs, s;
    if iter in inBlock {
      PassedHandled(pool, params, s, priorityTx, iter);
      return;
    }
    var fOrphan := IsOrphan(pool, inBlock, iter);
    if fOrphan {
      q' := PutOff(pool, params, iter, priorityTx, q, actualPriority, s);
      s' := Postponed(s, priorityTx, iter);
      return;
    }
    var verdict;
    verdict, b', q', fPriorityBlock', lastFewTxs', s' :=
      LookAt(pool, params, iter, priorityTx, b, q, fPriorityBlock, actualPriority, lastFewTxs, s);
    stop := verdict.Stop?;
    if verdict.Add? {
      inBlock' := inBlock + {iter};
    }
  }

  // The queues before the first round.
  method Prepare(pool: Pool, params: Params, ghost byScore: seq<Tx>) returns (q: Queues, fPriorityBlock: bool)
    requires Listed(pool, byScore)
    ensures QueuesOk(pool, q) && IsRun(pool, params, byScore, [Loop(EMPTY, q, 0, fPriorityBlock, -1.0, 0, {}, {}, {})])
  {
    q := Queues([], map[], [], {});
    fPriorityBlock := params.nBlockPrioritySize > 0;
    if fPriorityBlock {
      var vecPriority := PriorityQueue(pool);
      q := q.(vecPriority := vecPriority);
    }
  }

  // The while loop of CreateNewBlock is a run of rounds; it ends with a well assembled block.
  method Select(pool: Pool, params: Params)
      returns (b: Template, ghost byScore: seq<Tx>, ghost run: seq<Loop>, ghost stopped: bool)
    requires params.Valid()
    ensures Assembled(pool, params, b)
    ensures IsRun(pool, params, byScore, run) && run[|run| - 1].b == b
    ensures if stopped then Stops(pool, params, byScore, run[|run| - 1]) else !Running(byScore, run[|run| - 1])
  {
    hide Assembled, QueuesOk, Pushed, Members, Listed, Chosen, Starts, IsRun, Handled, Stops, MayStop;
    MembersOf(EMPTY, 0, TxEntry(0, 0, 0, 0, 0.0, true, {}));
    b, stopped := EMPTY, false;
    EmptyAssembled(pool, params);
    var inBlock: set<Tx> := {};
    var actualPriority: real := -1.0;
    var lastFewTxs: nat := 0;
    var order := ByScore(pool);
    byScore := order;
    var mi: nat := 0;
    var q, fPriorityBlock := Prepare(pool, params, order);
    ghost var s := Loop(b, q, mi, fPriorityBlock, actualPriority, lastFewTxs, {}, {}, {});
    run := [s];
    while mi != |order| || q.clearedTxs != []
      invariant mi <= |order| && byScore == order && !stopped && Listed(pool, order)
      invariant Assembled(pool, params, b) && inBlock == Members(b.vtx) && QueuesOk(pool, q)
      invariant run != [] && IsRun(pool, params, byScore, run) && run[|run| - 1] == s
      invariant s == Loop(b, q, mi, fPriorityBlock, actualPriority, lastFewTxs, s.refused, s.stranded, s.regained)
      decreases |pool.Keys - inBlock|, Left(order, q, mi)
    {
      var priorityTx, iter;
      ghost var before := s;
      priorityTx, iter, q, mi, actualPriority := TakeNext(pool, order, q, mi, fPriorityBlock, actualPriority, s);
      s := s.(q := q, mi := mi, actualPriority := actualPriority);
      ghost var s1 := s;
      var stop;
      stop, b, inBlock, q, fPriorityBlock, lastFewTxs, s :=
        Handle(pool, params, iter, priorityTx, b, inBlock, q, fPriorityBlock, actualPriority, lastFewTxs, s);
      if stop {
        Stopped(pool, params, byScore, before, priorityTx, iter, s1);
        stopped := true;
        break;
      }
      run := RunMore(pool, params, byScore, run, before, priorityTx, iter, s1, s);
    }
  }

  lemma PassedHandled(pool: Pool, params: Params, s: Loop, priorityTx: bool, iter: Tx)
    requires iter in pool && iter in Members(s.b.vtx)
    ensures Handled(pool, params, s, priorityTx, iter, s)
  {
  }

  lemma MemberOf(vtx: seq<Tx>, t: Tx)
    ensures t in Members(vtx) <==> t in vtx
  {
  }

  // One more round.
  lemma RunMore(pool: Pool, params: Params, byScore: seq<Tx>, run: seq<Loop>, s: Loop, priorityTx: bool, iter: Tx, s1: Loop, s': Loop)
      returns (run': seq<Loop>)
    requires run != [] && run[|run| - 1] == s && IsRun(pool, params, byScore, run) && Running(byScore, s) && iter in pool
    requires Chosen(byScore, s, priorityTx, iter, s1) && Handled(pool, params, s1, priorityTx, iter, s')
    ensures run' != [] && run'[|run'| - 1] == s' && IsRun(pool, params, byScore, run')
  {
    hide Listed, Starts, Running, Chosen, Handled;
    assert Round(pool, params, byScore, run[|run| - 1], s');
    run' := run + [s'];
  }

  lemma Stopped(pool: Pool, params: Params, byScore: seq<Tx>, s: Loop, priorityTx: bool, iter: Tx, s1: Loop)
    requires Running(byScore, s) && Chosen(byScore, s, priorityTx, iter, s1) && MayStop(pool, params, s1, priorityTx, iter)
    ensures Stops(pool, params, byScore, s)
  {
  }

  // ----- the retry

  // mempool.remove of every transaction of the block, with its dependents.
  function Removed(pool: Pool, vtx: seq<Tx>): (rest: Pool)
    requires forall t :: t in vtx ==> t in pool
  {
    pool - Dependents(pool, Members(vtx))
  }

  lemma RemovedKeeps(pool: Pool, vtx: seq<Tx>)
    requires Closed(pool) && vtx != [] && forall t :: t in vtx ==> t in pool
    ensures Closed(Removed(pool, vtx)) && Removed(pool, vtx).Items <= pool.Items && |Removed(pool, vtx)| < |pool|
  {
    var gone := Dependents(pool, Members(vtx));
    var rest := Removed(pool, vtx);
    assert vtx[0] in gone;
    assert rest.Keys == pool.Keys - gone;
    assert |rest.Keys| == |pool.Keys| - |gone|;
    assert |rest| == |rest.Keys| && |pool| == |pool.Keys|;
  }

  datatype Result = Created(template: Template, usedPool: Pool) | Throws

  // Until the block is valid, its transactions leave the pool and it is built again; an empty
  // block that is invalid throws.
  method CreateNewBlock(pool: Pool, params: Params, testValidity: seq<Tx> -> bool) returns (r: Result)
    requires Closed(pool) && params.Valid()
    ensures r.Created? ==>
              && Closed(r.usedPool) && r.usedPool.Items <= pool.Items
              && Finished(r.usedPool, params, r.template) && testValidity(r.template.vtx)
    ensures r.Throws? ==> !testValidity([])
    decreases |pool|
  {
    var b, _, _, _ := Select(pool, params);
    FinishKeeps(pool, params, b);
    var done := b.(vTxFees := b.vTxFees[0 := -b.nFees]);
    if testValidity(done.vtx) {
      return Created(done, pool);
    }
    if done.vtx == [] {
      return Throws;
    }
    hide Assembled, NoRepeats, Sum;
    RemovedKeeps(pool, done.vtx);
    r := CreateNewBlock(Removed(pool, done.vtx), params, testValidity);
  }
}
