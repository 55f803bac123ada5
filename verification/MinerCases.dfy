// When the selection loop loses a transaction under the node's own policies: exactly when the
// priority space reaches into the second million bytes.  The run that shows it takes a pool
// the node admits, in the orders of priority and of fee rate.
module MinerCases {
  import opened BlockTemplates
  import opened MinerRounds

  // ----- the node's policies, with its default settings

  const MIN_TX_SIZE := 60 // one input and one output with empty scripts
  const MAX_STANDARD_TX_SIZE := 100_000
  const MAX_STANDARD_TX_SIGOPS := 4000
  const BYTES_PER_SIGOP := 20
  const CHAIN_LIMIT := 25
  const CHAIN_SIZE_LIMIT := 101_000

  // 1000 satoshi for each 1000 bytes
  function MinRelayFee(nSize: nat): int {
    if nSize == 0 then 1000 else nSize
  }

  // COIN * 144 / 250
  predicate AllowFree(dPriority: real) {
    dPriority > 57_600_000.0
  }

  predicate Admitted(e: TxEntry) {
    && MIN_TX_SIZE <= e.nTxSize < MAX_STANDARD_TX_SIZE
    && e.nSigOps <= MAX_STANDARD_TX_SIGOPS && e.nSigOps <= e.nTxSize / BYTES_PER_SIGOP
    && 0 <= e.nFee && (e.nModifiedFee >= MinRelayFee(e.nTxSize) || AllowFree(e.dPriority))
  }

  lemma Pick(s: set<Tx>)
    ensures s == {} || exists t :: t in s
  {
    if forall t :: t !in s {
      assert s == {};
    }
  }

  ghost function TotalSize(pool: Pool, s: set<Tx>): nat
    requires s <= pool.Keys
  {
    Pick(s);
    if s == {} then 0
    else
      var t :| t in s;
      pool[t].nTxSize + TotalSize(pool, s - {t})
  }

  // A transaction with all that depend on it, or with all it depends on.
  ghost predicate WithinLimits(pool: Pool, chain: set<Tx>)
    requires chain <= pool.Keys
  {
    |chain| <= CHAIN_LIMIT && TotalSize(pool, chain) <= CHAIN_SIZE_LIMIT
  }

  ghost function DependsOn(pool: Pool, t: Tx): set<Tx>
    requires t in pool
  {
    set a | a in pool && t in Dependents(pool, {a})
  }

  ghost predicate AdmittedPool(pool: Pool) {
    && Closed(pool)
    && forall t :: t in pool ==>
         Admitted(pool[t]) && WithinLimits(pool, Dependents(pool, {t})) && WithinLimits(pool, DependsOn(pool, t))
  }

  // Strictly by fee rate, so that no hash decides.
  ghost predicate ByFeeRate(pool: Pool, order: seq<Tx>) {
    && (forall t :: t in order ==> t in pool)
    && forall i, j :: 0 <= i < j < |order| ==>
         pool[order[i]].nModifiedFee * pool[order[j]].nTxSize > pool[order[j]].nModifiedFee * pool[order[i]].nTxSize
  }

  // Each entry taken from the priority queue has the highest priority in it.
  ghost predicate ByPriority(run: seq<Loop>) {
    forall i :: 0 <= i < |run| - 1 && run[i].fPriorityBlock && run[i].q.vecPriority != [] ==>
      forall e :: e in run[i].q.vecPriority ==> e.dPriority <= run[i + 1].actualPriority
  }

  // The priority space is never larger than the block.
  ghost predicate NodeParams(params: Params) {
    && params.Valid() && params.nBlockPrioritySize <= params.nBlockMaxSize
    && (forall n :: params.sigOpLimit(n) == SigOpAcceptLimit(n))
    && (forall p :: params.allowFree(p) <==> AllowFree(p))
    && (forall n :: params.relayFee(n) == MinRelayFee(n))
  }

  // ----- a pool

  const PARENT: Tx := 5
  const LOST: Tx := 12

  // Four transactions with many signature operations, a parent with as many, six plain ones,
  // and the parent's child, by falling priority.  The parent pays the least, the child the most.
  function SizeOf(t: Tx): nat {
    if t == LOST then 100 else if t == 11 then 90_911 else 90_909
  }

  function SigOpsOf(t: Tx): nat {
    if t <= PARENT then 4000 else if t == LOST then 1 else 0
  }

  function RateOf(t: Tx): nat {
    if t == LOST then 100 else if t == PARENT || t > LOST then 1 else 20 - t
  }

  function PriorityOf(t: Tx): real {
    (100_000_000 - 1_000_000 * t) as real
  }

  function Entry(t: Tx): TxEntry {
    TxEntry(SizeOf(t), RateOf(t) * SizeOf(t), RateOf(t) * SizeOf(t), SigOpsOf(t), PriorityOf(t), true,
            if t == LOST then {PARENT} else {})
  }

  const POOL: Pool := map t: Tx | 1 <= t <= 12 :: Entry(t)
  const ORDER: seq<Tx> := [12, 1, 2, 3, 4, 6, 7, 8, 9, 10, 11, 5]

  lemma InPool(t: Tx)
    ensures t in POOL <==> 1 <= t <= 12
    ensures t in POOL ==> POOL[t] == Entry(t)
    ensures Children(POOL, t) == if t == PARENT then {LOST} else {}
  {
  }

  lemma Chain(t: Tx)
    requires t in POOL
    ensures Dependents(POOL, {t}) == if t == PARENT then {PARENT, LOST} else {t}
  {
    hide Entry;
    NextIs({t});
    if t == PARENT {
      assert {PARENT} + {LOST} == {PARENT, LOST};
      NextIs({PARENT, LOST});
    }
  }

  lemma NextIs(gone: set<Tx>)
    requires gone <= POOL.Keys
    ensures (set c | c in POOL && c !in gone && POOL[c].parents * gone != {}) == if PARENT in gone && LOST !in gone then {LOST} else {}
  {
    forall c | c in POOL && c !in gone
      ensures POOL[c].parents * gone != {} <==> c == LOST && PARENT in gone
    {
      InPool(c);
      assert c == LOST && PARENT in gone ==> PARENT in POOL[c].parents * gone;
    }
  }

  lemma TotalOfOne(t: Tx)
    requires t in POOL
    ensures TotalSize(POOL, {t}) == POOL[t].nTxSize
  {
    var u :| u in {t} && TotalSize(POOL, {t}) == POOL[u].nTxSize + TotalSize(POOL, {t} - {u});
    assert {t} - {u} == {};
  }

  lemma TotalOfTwo(t: Tx, u: Tx)
    requires t in POOL && u in POOL && t != u
    ensures TotalSize(POOL, {t, u}) == POOL[t].nTxSize + POOL[u].nTxSize
  {
    var s := {t, u};
    var v :| v in s && TotalSize(POOL, s) == POOL[v].nTxSize + TotalSize(POOL, s - {v});
    assert s - {v} == if v == t then {u} else {t};
    TotalOfOne(t);
    TotalOfOne(u);
  }

  // The chains are within the limits.
  lemma ChainFits(t: Tx, chain: set<Tx>)
    requires t in POOL && (chain == {t} || chain == {PARENT, LOST})
    ensures chain <= POOL.Keys && WithinLimits(POOL, chain)
  {
    InPool(t);
    InPool(PARENT);
    InPool(LOST);
    TotalOfOne(t);
    TotalOfTwo(PARENT, LOST);
    hide TotalSize;
    assert |{t}| == 1 && |{PARENT, LOST}| == 2;
  }

  lemma PoolAdmitted()
    ensures AdmittedPool(POOL)
  {
    forall t | t in POOL
      ensures POOL[t].parents <= POOL.Keys && Admitted(POOL[t])
      ensures WithinLimits(POOL, Dependents(POOL, {t})) && WithinLimits(POOL, DependsOn(POOL, t))
    {
      InPool(t);
      InPool(PARENT);
      FeeCovers(t);
      Chain(t);
      ChainFits(t, Dependents(POOL, {t}));
      Above(t);
      ChainFits(t, DependsOn(POOL, t));
    }
  }

  lemma FeeCovers(t: Tx)
    requires 1 <= t <= 12
    ensures Entry(t).nModifiedFee >= MinRelayFee(Entry(t).nTxSize)
  {
  }

  lemma Above(t: Tx)
    requires t in POOL
    ensures DependsOn(POOL, t) == if t == LOST then {PARENT, LOST} else {t}
  {
    forall a | a in POOL
      ensures t in Dependents(POOL, {a}) <==> a == t || (t == LOST && a == PARENT)
    {
      Chain(a);
    }
    InPool(PARENT);
  }

  lemma RateDecides(r1: nat, s1: nat, r2: nat, s2: nat)
    requires r1 > r2 && s1 > 0 && s2 > 0
    ensures (r1 * s1) * s2 > (r2 * s2) * s1
  {
    var p := s1 * s2;
    assert p > 0;
    assert (r1 * s1) * s2 == r1 * p && (r2 * s2) * s1 == r2 * p;
    assert r1 * p == (r1 - r2) * p + r2 * p;
    assert (r1 - r2) * p > 0;
  }

  lemma OrderIs()
    ensures Listed(POOL, ORDER) && ByFeeRate(POOL, ORDER)
  {
    forall t
      ensures t in ORDER <==> t in POOL
    {
      InPool(t);
      Somewhere(t);
    }
    forall i, j | 0 <= i < j < |ORDER|
      ensures POOL[ORDER[i]].nModifiedFee * POOL[ORDER[j]].nTxSize > POOL[ORDER[j]].nModifiedFee * POOL[ORDER[i]].nTxSize
    {
      InPool(ORDER[i]);
      InPool(ORDER[j]);
      assert RateOf(ORDER[i]) > RateOf(ORDER[j]);
      RateDecides(RateOf(ORDER[i]), SizeOf(ORDER[i]), RateOf(ORDER[j]), SizeOf(ORDER[j]));
    }
  }

  lemma Somewhere(t: Tx)
    ensures 1 <= t <= 12 <==> t in ORDER
  {
    if 1 <= t <= 12 {
      assert ORDER[if t == 12 then 0 else if t == 5 then 11 else if t < 5 then t else t - 1] == t;
    }
  }

  // ----- a run

  function Q(t: Tx): Queued {
    Queued(PriorityOf(t), t)
  }

  // What is left in the priority queue after i entries were taken.
  function QueueFrom(i: nat): (q: seq<Queued>)
    requires i <= 12
    ensures |q| == 12 - i
  {
    seq(12 - i, k requires 0 <= k => Q(i + 1 + k))
  }

  // The block by then: the parent was passed over for its signature operations.
  function Taken(i: nat): Template {
    if i == 0 then EMPTY
    else if i == PARENT || i == LOST then Taken(i - 1)
    else Pushed(Taken(i - 1), i, Entry(i))
  }

  lemma {:induction false} TakenIs(i: nat)
    requires i <= 12
    ensures Taken(i).nBlockSize == 1000 + 90_909 * (if i < 5 then i else if i < 12 then i - 1 else 10) + if i >= 11 then 2 else 0
    ensures Taken(i).nBlockSigOps == 100 + 4000 * if i < 4 then i else 4
  {
    if i > 0 {
      TakenIs(i - 1);
      assert i != PARENT && i != LOST ==> Taken(i).nBlockSize == Taken(i - 1).nBlockSize + SizeOf(i);
    }
  }

  lemma {:induction false} TakenHas(i: nat)
    requires i <= 12
    ensures forall t :: t in Taken(i).vtx <==> 1 <= t <= i && t != PARENT && t != LOST
  {
    if i > 0 {
      TakenHas(i - 1);
      hide Entry;
      assert i != PARENT && i != LOST ==> Taken(i).vtx == Taken(i - 1).vtx + [i];
    }
  }

  // While entries are taken by priority.
  function PriorityState(i: nat): Loop
    requires i <= 12
  {
    Loop(Taken(i), Queues(QueueFrom(i), if i == 12 then map[LOST := PriorityOf(LOST)] else map[], [], {}), 0, true,
         if i == 0 then -1.0 else PriorityOf(i), 0, if i >= PARENT then {PARENT} else {}, {}, {})
  }

  // Then by score: the child is put off, the others are in the block already, and the parent,
  // which the limit now lets in, is the last one looked at.
  function ScoreState(j: nat): Loop
    requires j <= 12
  {
    var s := PriorityState(12);
    if j == 0 then s
    else if j < 12 then s.(mi := j, q := s.q.(waitSet := {LOST}), stranded := {LOST})
    else s.(mi := 12, b := Pushed(s.b, PARENT, Entry(PARENT)), q := Queues([Q(LOST)], map[], [], {LOST}),
            stranded := {LOST}, regained := {PARENT})
  }

  function State(i: nat): Loop
    requires i <= 24
  {
    if i <= 12 then PriorityState(i) else ScoreState(i - 12)
  }

  const RUN: seq<Loop> := seq(25, i requires 0 <= i < 25 => State(i))

  // The next entry by priority, with its test still to come.
  function InHandAt(i: nat): Loop
    requires i < 12
  {
    PriorityState(i).(q := PriorityState(i).q.(vecPriority := QueueFrom(i + 1)), actualPriority := PriorityOf(i + 1))
  }

  lemma NextByPriority(i: nat)
    requires i < 12
    ensures Running(ORDER, PriorityState(i)) && Chosen(ORDER, PriorityState(i), true, i + 1, InHandAt(i))
  {
    var q := QueueFrom(i);
    assert q[0] == Q(i + 1);
    assert Without(q, 0) == QueueFrom(i + 1);
  }

  ghost predicate Large(params: Params) {
    NodeParams(params) && params.nBlockPrioritySize >= 1_001_002
  }

  // Each of the first eleven but the parent is added.
  lemma FillerRound(params: Params, i: nat)
    requires Large(params) && i < 11 && i + 1 != PARENT
    ensures Round(POOL, params, ORDER, PriorityState(i), PriorityState(i + 1))
  {
    var t := i + 1;
    TakenIs(i);
    TakenHas(i);
    InPool(t);
    NextByPriority(i);
    FillerJudged(params, i);
    var s, s' := InHandAt(i), PriorityState(i + 1);
    assert s.q.waitPriMap - {} == s.q.waitPriMap;
    hide Judge, HasPriority, Chosen, Taken, QueueFrom;
    assert Taken(t) == Pushed(Taken(i), t, Entry(t)) by { TakenStep(i); }
    assert Handled(POOL, params, s, true, t, s');
  }

  lemma TakenStep(i: nat)
    ensures i + 1 != PARENT && i + 1 != LOST ==> Taken(i + 1) == Pushed(Taken(i), i + 1, Entry(i + 1))
    ensures i + 1 == PARENT || i + 1 == LOST ==> Taken(i + 1) == Taken(i)
  {
  }

  lemma FillerJudged(params: Params, i: nat)
    requires Large(params) && i < 11 && i + 1 != PARENT
    ensures Taken(i).nBlockSize >= COINBASE_RESERVE
    ensures Judge(params, Taken(i), Entry(i + 1), true, 0) == (Add, 0)
    ensures HasPriority(params, Taken(i), Entry(i + 1), PriorityOf(i + 1))
  {
    TakenIs(i);
    hide Taken;
    assert PriorityOf(i + 1) >= 89_000_000.0;
  }

  lemma ParentRound(params: Params)
    requires Large(params)
    ensures Round(POOL, params, ORDER, PriorityState(4), PriorityState(5))
  {
    TakenIs(4);
    TakenHas(4);
    InPool(PARENT);
    NextByPriority(4);
    ParentJudged(params);
    var s, s' := InHandAt(4), PriorityState(5);
    hide Judge, HasPriority, Chosen, Taken, QueueFrom;
    TakenStep(4);
    assert {} + {PARENT} == {PARENT};
    assert Handled(POOL, params, s, true, PARENT, s');
  }

  lemma ParentJudged(params: Params)
    requires Large(params)
    ensures Taken(4).nBlockSize >= COINBASE_RESERVE
    ensures Judge(params, Taken(4), Entry(PARENT), true, 0) == (Skip, 0)
    ensures HasPriority(params, Taken(4), Entry(PARENT), PriorityOf(PARENT))
  {
    TakenIs(4);
    hide Taken;
    assert SigOpAcceptLimit(454_545) == 20000;
  }

  lemma ChildRound(params: Params)
    ensures Round(POOL, params, ORDER, PriorityState(11), PriorityState(12))
  {
    TakenHas(11);
    InPool(LOST);
    NextByPriority(11);
    var s, s' := InHandAt(11), PriorityState(12);
    hide Chosen, Taken, QueueFrom;
    TakenStep(11);
    assert PARENT !in Members(s.b.vtx) && PARENT in POOL[LOST].parents;
    assert Handled(POOL, params, s, true, LOST, s');
  }

  lemma ChildByScore(params: Params)
    ensures Round(POOL, params, ORDER, ScoreState(0), ScoreState(1))
  {
    hide Taken, QueueFrom, Entry;
    NextByScore(0);
    TakenHas(12);
    InPool(LOST);
    ChildOrphan();
    hide Chosen;
    var s, s' := ScoreState(0).(mi := 1), ScoreState(1);
    assert {} + {LOST} == {LOST};
    assert Handled(POOL, params, s, false, LOST, s');
  }

  lemma ChildOrphan()
    ensures LOST !in Taken(12).vtx && Orphan(POOL, ScoreState(0).(mi := 1), LOST)
  {
    TakenHas(12);
    InPool(LOST);
    hide Taken;
    assert PARENT !in Members(Taken(12).vtx) && PARENT in POOL[LOST].parents;
  }

  // By score once the priority queue is empty.
  lemma NextByScore(j: nat)
    requires j < 12
    ensures Running(ORDER, ScoreState(j)) && Chosen(ORDER, ScoreState(j), false, ORDER[j], ScoreState(j).(mi := j + 1))
  {
    hide Taken;
    assert QueueFrom(12) == [];
  }

  lemma OrderAt(j: nat)
    requires 1 <= j < 11
    ensures 1 <= ORDER[j] <= 11 && ORDER[j] != PARENT
  {
  }

  lemma FillerByScore(params: Params, j: nat)
    requires 1 <= j < 11
    ensures Round(POOL, params, ORDER, ScoreState(j), ScoreState(j + 1))
  {
    hide Taken, QueueFrom, Entry;
    NextByScore(j);
    OrderAt(j);
    TakenHas(12);
    InPool(ORDER[j]);
    hide Chosen;
    assert ScoreState(j + 1) == ScoreState(j).(mi := j + 1);
    assert Handled(POOL, params, ScoreState(j + 1), false, ORDER[j], ScoreState(j + 1));
  }

  lemma ParentByScore(params: Params)
    requires Large(params)
    ensures Round(POOL, params, ORDER, ScoreState(11), ScoreState(12))
  {
    hide Taken, QueueFrom, Entry, Judge, HasPriority;
    NextByScore(11);
    TakenHas(12);
    InPool(PARENT);
    ParentLetIn(params);
    ChildReleased();
    hide Chosen, Released;
    var s, s' := ScoreState(11).(mi := 12), ScoreState(12);
    assert {} + {PARENT} == {PARENT};
    NoParents(s);
    assert Handled(POOL, params, s, false, PARENT, s');
  }

  lemma NoParents(s: Loop)
    ensures !Orphan(POOL, s, PARENT)
  {
    InPool(PARENT);
  }

  lemma ChildReleased()
    ensures Released(POOL, PARENT, true, ScoreState(11).q, ScoreState(12).q)
  {
    hide Taken;
    InPool(PARENT);
    var q := ScoreState(11).q;
    assert QueueFrom(12) == [];
    assert q.waitPriMap - {LOST} == map[];
  }

  lemma ParentLetIn(params: Params)
    requires Large(params)
    ensures Taken(12).nBlockSize >= COINBASE_RESERVE
    ensures Judge(params, Taken(12), Entry(PARENT), false, 0) == (Add, 0)
    ensures HasPriority(params, Taken(12), Entry(PARENT), PriorityOf(LOST))
  {
    TakenIs(12);
    FeeCovers(PARENT);
    hide Taken;
    assert Taken(12).nBlockSize + 90_909 == 1_001_001;
    assert SigOpAcceptLimit(1_000_001) == 40000;
  }

  lemma StartIs(params: Params)
    requires Large(params)
    ensures Starts(POOL, params, State(0))
  {
    var q := QueueFrom(0);
    forall t | t in POOL
      ensures Queued(POOL[t].dPriority, t) in q
    {
      InPool(t);
      assert q[t - 1] == Q(t);
    }
    forall e | e in q
      ensures e.tx in POOL && e.dPriority == POOL[e.tx].dPriority
    {
      InPool(e.tx);
    }
  }

  lemma RunIs(params: Params)
    requires Large(params)
    ensures IsRun(POOL, params, ORDER, RUN) && ByPriority(RUN)
  {
    StartIs(params);
    OrderIs();
    hide Round, Listed, Starts, PriorityState, ScoreState;
    forall i | 0 <= i < 24
      ensures Round(POOL, params, ORDER, State(i), State(i + 1))
      ensures forall e :: e in State(i).q.vecPriority ==> e.dPriority <= State(i + 1).actualPriority
    {
      RunRound(params, i);
      TopFirst(i);
    }
  }

  lemma RunRound(params: Params, i: nat)
    requires Large(params) && i < 24
    ensures Round(POOL, params, ORDER, State(i), State(i + 1))
  {
    hide Round, PriorityState, Large;
    if i == 4 {
      ParentRound(params);
    } else if i < 11 {
      FillerRound(params, i);
    } else if i == 11 {
      ChildRound(params);
    } else if i == 12 {
      assert State(12) == ScoreState(0);
      ChildByScore(params);
    } else if i < 23 {
      FillerByScore(params, i - 12);
    } else {
      ParentByScore(params);
    }
  }

  lemma TopFirst(i: nat)
    requires i < 24
    ensures forall e :: e in State(i).q.vecPriority ==> e.dPriority <= State(i + 1).actualPriority
  {
    if i < 12 {
      forall k | 0 <= k < 12 - i
        ensures QueueFrom(i)[k].dPriority <= PriorityOf(i + 1)
      {
        assert QueueFrom(i)[k] == Q(i + 1 + k);
      }
    } else {
      assert QueueFrom(12) == [];
    }
  }

  // With that much priority space the run ends as soon as the parent is in: its child went back
  // to the priority queue, which nobody looks at any more.  It was never refused, has its parent
  // in the block, and still fits if there is any room left.
  lemma LeftOutThoughFitting(params: Params)
    requires NodeParams(params) && params.nBlockPrioritySize >= 1_001_002
    ensures AdmittedPool(POOL) && ByFeeRate(POOL, ORDER) && ByPriority(RUN)
    ensures IsRun(POOL, params, ORDER, RUN) && !Running(ORDER, RUN[24])
    ensures var s := RUN[24];
            && LOST in POOL && LOST !in s.b.vtx && LOST !in s.refused && !MissesParent(POOL, s.b.vtx, LOST)
            && (params.nBlockMaxSize >= 1_001_102 ==> Fits(params, s.b, POOL[LOST]))
  {
    hide IsRun, AdmittedPool, ByFeeRate, ByPriority, NodeParams, Running, MissesParent, Fits, ScoreState, Listed;
    PoolAdmitted();
    OrderIs();
    RunIs(params);
    EndIs(params);
    assert RUN[24] == State(24) == ScoreState(12);
  }

  lemma EndIs(params: Params)
    requires Large(params)
    ensures var s := ScoreState(12);
            && !Running(ORDER, s)
            && LOST in POOL && LOST !in s.b.vtx && LOST !in s.refused && !MissesParent(POOL, s.b.vtx, LOST)
            && (params.nBlockMaxSize >= 1_001_102 ==> Fits(params, s.b, POOL[LOST]))
  {
    TakenIs(12);
    TakenHas(12);
    InPool(LOST);
    var s := ScoreState(12);
    hide Taken;
    assert s.b.vtx == Taken(12).vtx + [PARENT];
    assert PARENT in s.b.vtx;
    assert s.b.nBlockSize == 1_001_001 && s.b.nBlockSigOps == 20_100;
    assert SigOpAcceptLimit(1_000_101) == 40000;
  }

  // ----- exactly when nothing is lost

  // Whatever a complete run leaves out was refused, and did not fit then, or misses a parent.
  ghost predicate NothingLost(params: Params) {
    forall pool: Pool, byScore: seq<Tx>, run: seq<Loop>, t: Tx ::
      run != [] && IsRun(pool, params, byScore, run) && !Running(byScore, run[|run| - 1])
      && t in pool && t !in run[|run| - 1].b.vtx ==>
        t in run[|run| - 1].refused || MissesParent(pool, run[|run| - 1].b.vtx, t)
  }

  // Main result: under the node's policies that holds of every pool, every order and every run
  // if and only if the priority space is at most 1001001 bytes.
  lemma NothingLostIff(params: Params)
    requires NodeParams(params)
    ensures NothingLost(params) <==> params.nBlockPrioritySize <= 1_001_001
  {
    hide IsRun, Running, MissesParent, Steady;
    if params.nBlockPrioritySize <= 1_001_001 {
      DefaultIsSteady(params);
      forall pool: Pool, byScore: seq<Tx>, run: seq<Loop>, t: Tx |
        run != [] && IsRun(pool, params, byScore, run) && !Running(byScore, run[|run| - 1])
        && t in pool && t !in run[|run| - 1].b.vtx
        ensures t in run[|run| - 1].refused || MissesParent(pool, run[|run| - 1].b.vtx, t)
      {
        LeftOutSteady(pool, params, byScore, run, t);
      }
    } else {
      LeftOutThoughFitting(params);
      assert |RUN| == 25;
    }
  }
}
