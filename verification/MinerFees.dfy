// Who gets into a block for less than the relay fee.
module MinerFees {
  import opened BlockTemplates
  import opened MinerRounds

  // The block was still below its minimum, or there was priority space left for a transaction
  // of that size and priority.
  ghost predicate Exempt(pool: Pool, params: Params, vtx: seq<Tx>, e: TxEntry)
    requires forall u :: u in vtx ==> u in pool
  {
    var nBlockSize := COINBASE_RESERVE + Sizes(pool, vtx);
    nBlockSize < params.nBlockMinSize
    || (nBlockSize + e.nTxSize < params.nBlockPrioritySize && params.allowFree(e.dPriority))
  }

  // Transaction k paid its way, or was exempt when it was added.
  ghost predicate Covered(pool: Pool, params: Params, vtx: seq<Tx>, k: nat)
    requires k < |vtx| && forall u :: u in vtx ==> u in pool
  {
    var e := pool[vtx[k]];
    e.nModifiedFee >= params.relayFee(e.nTxSize) || Exempt(pool, params, vtx[..k], e)
  }

  ghost predicate AllCovered(pool: Pool, params: Params, vtx: seq<Tx>)
    requires forall u :: u in vtx ==> u in pool
  {
    forall k :: 0 <= k < |vtx| ==> Covered(pool, params, vtx, k)
  }

  ghost predicate AllButOneCovered(pool: Pool, params: Params, vtx: seq<Tx>)
    requires forall u :: u in vtx ==> u in pool
  {
    forall j, k :: 0 <= j < k < |vtx| ==> Covered(pool, params, vtx, j) || Covered(pool, params, vtx, k)
  }

  // Every queued transaction has its own priority.
  ghost predicate OwnPriority(pool: Pool, q: Queues) {
    && (forall e :: e in q.vecPriority ==> e.tx in pool && e.dPriority == pool[e.tx].dPriority)
    && (forall t :: t in q.waitPriMap ==> t in pool && q.waitPriMap[t] == pool[t].dPriority)
  }

  ghost predicate FeesInv(pool: Pool, params: Params, s: Loop) {
    && (forall u :: u in s.b.vtx ==> u in pool)
    && OwnPriority(pool, s.q)
    && (params.nBlockPrioritySize == 0 ==> !s.fPriorityBlock)
    && (s.fPriorityBlock || params.nBlockPrioritySize == 0 ==> AllCovered(pool, params, s.b.vtx))
    && AllButOneCovered(pool, params, s.b.vtx)
  }

  lemma CoveredStays(pool: Pool, params: Params, vtx: seq<Tx>, t: Tx, k: nat)
    requires k < |vtx| && t in pool && forall u :: u in vtx ==> u in pool
    ensures Covered(pool, params, vtx + [t], k) == Covered(pool, params, vtx, k)
  {
    assert (vtx + [t])[..k] == vtx[..k];
  }

  lemma PushFees(pool: Pool, params: Params, vtx: seq<Tx>, t: Tx)
    requires t in pool && (forall u :: u in vtx ==> u in pool)
    ensures var e, now := pool[t], vtx + [t];
            var covered := e.nModifiedFee >= params.relayFee(e.nTxSize) || Exempt(pool, params, vtx, e);
            && (AllCovered(pool, params, vtx) && covered ==> AllCovered(pool, params, now))
            && (AllCovered(pool, params, vtx) ==> AllButOneCovered(pool, params, now))
            && (AllButOneCovered(pool, params, vtx) && covered ==> AllButOneCovered(pool, params, now))
  {
    var now := vtx + [t];
    assert now[..|vtx|] == vtx;
    forall k | 0 <= k < |vtx|
      ensures Covered(pool, params, now, k) == Covered(pool, params, vtx, k)
    {
      CoveredStays(pool, params, vtx, t, k);
    }
    hide Exempt;
  }

  lemma ChosenKeeps(pool: Pool, params: Params, byScore: seq<Tx>, s: Loop, priorityTx: bool, iter: Tx, s1: Loop)
    requires FeesInv(pool, params, s) && Chosen(byScore, s, priorityTx, iter, s1)
    ensures FeesInv(pool, params, s1) && s1.b == s.b && (priorityTx ==> s1.fPriorityBlock)
    ensures iter in pool && priorityTx ==> s1.actualPriority == pool[iter].dPriority
  {
    hide AllCovered, AllButOneCovered, OwnPriority;
    if priorityTx {
      var q := s.q.vecPriority;
      var k :| 0 <= k < |q| && iter == q[k].tx && s1 == s.(q := s.q.(vecPriority := Without(q, k)), actualPriority := q[k].dPriority);
      TakenOwn(pool, s.q, k);
    } else {
      SameOwn(pool, s.q, s1.q);
    }
  }

  lemma TakenOwn(pool: Pool, q: Queues, k: nat)
    requires OwnPriority(pool, q) && k < |q.vecPriority|
    ensures OwnPriority(pool, q.(vecPriority := Without(q.vecPriority, k)))
    ensures q.vecPriority[k].tx in pool && q.vecPriority[k].dPriority == pool[q.vecPriority[k].tx].dPriority
  {
    assert q.vecPriority[k] in q.vecPriority;
  }

  lemma SameOwn(pool: Pool, q: Queues, q': Queues)
    requires OwnPriority(pool, q)
    ensures q'.vecPriority == q.vecPriority && q'.waitPriMap == q.waitPriMap ==> OwnPriority(pool, q')
  {
  }

  lemma HandledKeepsFees(pool: Pool, params: Params, s: Loop, priorityTx: bool, iter: Tx, s': Loop)
    requires FeesInv(pool, params, s) && Assembled(pool, params, s.b) && iter in pool
    requires priorityTx ==> s.fPriorityBlock && s.actualPriority == pool[iter].dPriority
    requires Handled(pool, params, s, priorityTx, iter, s')
    ensures FeesInv(pool, params, s')
  {
    hide AllCovered, AllButOneCovered, Orphan, NoRepeats, ParentsFirst, Sizes, SigOps, Sum;
    PushFees(pool, params, s.b.vtx, iter);
    EmptyCovered(pool, params, s.b.vtx);
  }

  lemma EmptyCovered(pool: Pool, params: Params, vtx: seq<Tx>)
    requires forall u :: u in vtx ==> u in pool
    ensures AllCovered(pool, params, vtx) ==> AllButOneCovered(pool, params, vtx)
    ensures vtx == [] ==> AllCovered(pool, params, vtx)
  {
  }

  lemma {:induction false} RunFees(pool: Pool, params: Params, byScore: seq<Tx>, run: seq<Loop>, i: nat)
    requires IsRun(pool, params, byScore, run) && i < |run|
    ensures FeesInv(pool, params, run[i])
  {
    hide FeesInv, Round, Handled, Chosen, Starts, Inv;
    if i == 0 {
      StartsFees(pool, params, run[0]);
    } else {
      RunFees(pool, params, byScore, run, i - 1);
      RunInv(pool, params, byScore, run, i - 1);
      assert Round(pool, params, byScore, run[i - 1], run[(i - 1) + 1]);
      RoundFees(pool, params, byScore, run[i - 1], run[i]);
    }
  }

  lemma RoundFees(pool: Pool, params: Params, byScore: seq<Tx>, s: Loop, s': Loop)
    requires FeesInv(pool, params, s) && Inv(pool, params, byScore, s) && Round(pool, params, byScore, s, s')
    ensures FeesInv(pool, params, s')
  {
    hide FeesInv, Handled, Chosen, ScorePlaced, PriorityPlaced, Stranding, History, Assembled, Refusals;
    var priorityTx, iter, s1 :|
      Chosen(byScore, s, priorityTx, iter, s1) && iter in pool && Handled(pool, params, s1, priorityTx, iter, s');
    ChosenKeeps(pool, params, byScore, s, priorityTx, iter, s1);
    HandledKeepsFees(pool, params, s1, priorityTx, iter, s');
  }

  lemma StartsFees(pool: Pool, params: Params, s: Loop)
    requires Starts(pool, params, s)
    ensures FeesInv(pool, params, s)
  {
    EmptyCovered(pool, params, []);
  }

  // Main result: all transactions of the block but one pay the relay fee, or were added below
  // the minimum size or by priority; all of them as long as priority space lasts.
  lemma FreeOnes(pool: Pool, params: Params, byScore: seq<Tx>, run: seq<Loop>)
    requires IsRun(pool, params, byScore, run)
    ensures var s := run[|run| - 1];
            && (forall u :: u in s.b.vtx ==> u in pool)
            && (s.fPriorityBlock || params.nBlockPrioritySize == 0 ==> AllCovered(pool, params, s.b.vtx))
            && AllButOneCovered(pool, params, s.b.vtx)
  {
    hide Starts, Round, AllCovered, AllButOneCovered;
    RunFees(pool, params, byScore, run, |run| - 1);
  }

  // One free transaction of the right priority but too large for the priority space ends that
  // space, and is added all the same.
  lemma FreeRide(params: Params, t: Tx, nTxSize: nat, dPriority: real) returns (pool: Pool, run: seq<Loop>)
    requires 0 < params.nBlockPrioritySize <= COINBASE_RESERVE + nTxSize < params.nBlockMaxSize
    requires params.nBlockMinSize <= COINBASE_RESERVE && params.relayFee(nTxSize) > 0
    requires params.sigOpLimit(nTxSize) > COINBASE_SIGOPS + 1
    ensures IsRun(pool, params, [t], run) && |run| == 2 && pool[t].nModifiedFee == 0
    ensures run[1].b.vtx == [t] && !Covered(pool, params, [t], 0)
  {
    var e := TxEntry(nTxSize, 0, 0, 1, dPriority, true, {});
    pool := map[t := e];
    var s := Loop(EMPTY, Queues([Queued(dPriority, t)], map[], [], {}), 0, true, -1.0, 0, {}, {}, {});
    var s1 := s.(q := s.q.(vecPriority := []), actualPriority := dPriority);
    var s' := s1.(b := Pushed(EMPTY, t, e), fPriorityBlock := false);
    run := [s, s'];
    assert Without(s.q.vecPriority, 0) == [];
    assert Chosen([t], s, true, t, s1);
    hide Handled, Chosen, Judge, Covered;
    FreeRideRound(pool, params, t, s1, s');
    assert Round(pool, params, [t], s, s');
    assert Queued(dPriority, t) in s.q.vecPriority;
    NotCovered(pool, params, t);
  }

  lemma NotCovered(pool: Pool, params: Params, t: Tx)
    requires t in pool && pool[t].nModifiedFee < params.relayFee(pool[t].nTxSize)
    requires params.nBlockMinSize <= COINBASE_RESERVE && params.nBlockPrioritySize <= COINBASE_RESERVE + pool[t].nTxSize
    ensures !Covered(pool, params, [t], 0)
  {
    assert [t][..0] == [];
  }

  lemma FreeRideRound(pool: Pool, params: Params, t: Tx, s: Loop, s': Loop)
    requires t in pool && pool == map[t := pool[t]] && pool[t].nModifiedFee == 0 && pool[t].isFinal && pool[t].parents == {}
    requires pool[t].nSigOps == 1 && params.sigOpLimit(pool[t].nTxSize) > COINBASE_SIGOPS + 1
    requires 0 < params.nBlockPrioritySize <= COINBASE_RESERVE + pool[t].nTxSize < params.nBlockMaxSize
    requires s.b == EMPTY && s.q == Queues([], map[], [], {}) && s.fPriorityBlock
    requires s' == s.(b := Pushed(EMPTY, t, pool[t]), fPriorityBlock := false)
    ensures Handled(pool, params, s, true, t, s')
  {
    assert s.q.waitSet - Children(pool, t) == s.q.waitSet;
    assert AfterPriority(params, s, pool[t]) == s.(fPriorityBlock := false);
    assert Judge(params, EMPTY, pool[t], true, s.lastFewTxs) == (Add, s.lastFewTxs);
  }
}
