// When block assembly is left before every entry was looked at.
module MinerStops {
  import opened BlockTemplates
  import opened MinerRounds

  predicate PaysTooLittle(params: Params, b: Template, e: TxEntry, priorityTx: bool) {
    !priorityTx && e.nModifiedFee < params.relayFee(e.nTxSize) && b.nBlockSize >= params.nBlockMinSize
  }

  predicate TooLarge(params: Params, b: Template, e: TxEntry) {
    b.nBlockSize + e.nTxSize >= params.nBlockMaxSize
  }

  // So many bytes are left at most.
  predicate Within(params: Params, b: Template, nBytes: nat) {
    b.nBlockSize + nBytes > params.nBlockMaxSize
  }

  // The limit on signature operations that holds with this transaction in the block.
  function SigOpLimit(params: Params, b: Template, e: TxEntry): nat
    requires b.nBlockSize >= COINBASE_RESERVE
  {
    params.sigOpLimit(b.nBlockSize + e.nTxSize - COINBASE_RESERVE)
  }

  // The tests end the loop exactly at a transaction that pays too little; at one that is too
  // large, with less than 100 bytes left or more than 50 others passed over; and at one with
  // too many signature operations, when one more is all the block can take.
  lemma StopIff(params: Params, b: Template, e: TxEntry, priorityTx: bool, lastFewTxs: nat)
    requires b.nBlockSize >= COINBASE_RESERVE && b.nBlockSigOps < WRAP64 - 2
    requires SigOpLimit(params, b, e) < WRAP64
    ensures var (verdict, passed) := Judge(params, b, e, priorityTx, lastFewTxs);
            && (verdict.Stop? <==>
                || PaysTooLittle(params, b, e, priorityTx)
                || (TooLarge(params, b, e) && (Within(params, b, 100) || lastFewTxs > 50))
                || (e.isFinal && !TooLarge(params, b, e) && 2 <= SigOpLimit(params, b, e) <= b.nBlockSigOps + 1
                    && SigOpLimit(params, b, e) <= b.nBlockSigOps + e.nSigOps))
            && (passed == lastFewTxs + 1 <==> verdict.Skip? && TooLarge(params, b, e) && Within(params, b, 1000))
            && (passed == lastFewTxs || passed == lastFewTxs + 1)
  {
  }

  // Rounds that began with less than 1000 bytes left.
  ghost function CloseRounds(params: Params, run: seq<Loop>): nat {
    if |run| <= 1 then 0
    else CloseRounds(params, run[..|run| - 1]) + if Within(params, run[|run| - 2].b, 1000) then 1 else 0
  }

  ghost predicate Counting(params: Params, s: Loop, n: nat) {
    s.lastFewTxs <= n && s.lastFewTxs <= 51 && (s.lastFewTxs > 0 ==> Within(params, s.b, 1000))
  }

  lemma RoundCounts(pool: Pool, params: Params, byScore: seq<Tx>, s: Loop, s': Loop, n: nat)
    requires Round(pool, params, byScore, s, s') && Counting(params, s, n)
    ensures Counting(params, s', n + if Within(params, s.b, 1000) then 1 else 0)
  {
    hide Released, Orphan;
    var priorityTx, iter, s1 :|
      Chosen(byScore, s, priorityTx, iter, s1) && iter in pool && Handled(pool, params, s1, priorityTx, iter, s');
    assert s1.b == s.b && s1.lastFewTxs == s.lastFewTxs;
  }

  // The counter of transactions passed over: none before the last 1000 bytes, and one round each.
  lemma {:induction false} PassedOver(pool: Pool, params: Params, byScore: seq<Tx>, run: seq<Loop>)
    requires IsRun(pool, params, byScore, run)
    ensures Counting(params, run[|run| - 1], CloseRounds(params, run))
    decreases |run|
  {
    hide Round, Counting;
    if |run| == 1 {
      StartCounts(pool, params, run[0]);
    } else {
      var before, n := run[..|run| - 1], |run| - 2;
      forall i | 0 <= i < |before| - 1
        ensures Round(pool, params, byScore, before[i], before[i + 1])
      {
        assert Round(pool, params, byScore, run[i], run[i + 1]);
      }
      PassedOver(pool, params, byScore, before);
      assert Round(pool, params, byScore, run[n], run[n + 1]);
      RoundCounts(pool, params, byScore, run[n], run[n + 1], CloseRounds(params, before));
    }
  }

  lemma StartCounts(pool: Pool, params: Params, s: Loop)
    requires Starts(pool, params, s)
    ensures Counting(params, s, 0)
  {
  }

  // Main result: a run that is left early has come to a transaction, final or not, whose
  // parents are all in the block, and which pays too little; or is too large for what is left,
  // and that is less than 1000 bytes, and less than 100 unless more than 50 rounds were spent
  // on the last 1000; or the block is within one signature operation of the limit.
  lemma LeftEarly(pool: Pool, params: Params, byScore: seq<Tx>, run: seq<Loop>) returns (iter: Tx, priorityTx: bool)
    requires IsRun(pool, params, byScore, run) && Stops(pool, params, byScore, run[|run| - 1])
    requires run[|run| - 1].b.nBlockSigOps < WRAP64 - 2 && forall n :: params.sigOpLimit(n) < WRAP64
    ensures var b := run[|run| - 1].b;
            && iter in pool && iter !in b.vtx && pool[iter].parents <= Members(b.vtx) && b.nBlockSize >= COINBASE_RESERVE
            && (|| PaysTooLittle(params, b, pool[iter], priorityTx)
                || (TooLarge(params, b, pool[iter]) && Within(params, b, 1000)
                    && (Within(params, b, 100) || CloseRounds(params, run) > 50))
                || 2 <= SigOpLimit(params, b, pool[iter]) <= b.nBlockSigOps + 1)
  {
    hide Round, Starts, Judge;
    var s := run[|run| - 1];
    PassedOver(pool, params, byScore, run);
    var s1;
    priorityTx, iter, s1 :| Chosen(byScore, s, priorityTx, iter, s1) && MayStop(pool, params, s1, priorityTx, iter);
    StopIff(params, s1.b, pool[iter], priorityTx, s1.lastFewTxs);
  }
}
