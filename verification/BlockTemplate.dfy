// The block template and what it takes for it to be well assembled from a pool whose entries
// depend on one another.
module BlockTemplates {

  type Tx = nat

  datatype TxEntry = TxEntry(
    nTxSize: nat,
    nFee: int,
    nModifiedFee: int,
    nSigOps: nat,
    dPriority: real,
    isFinal: bool,
    parents: set<Tx>)

  type Pool = map<Tx, TxEntry>

  // The parents of an entry are in the pool.
  predicate Closed(pool: Pool) {
    forall t :: t in pool ==> pool[t].parents <= pool.Keys
  }

  function Children(pool: Pool, t: Tx): set<Tx> {
    set c | c in pool && t in pool[c].parents
  }

  // What goes with a set of transactions: everything that depends on one of them.
  function Dependents(pool: Pool, gone: set<Tx>): (r: set<Tx>)
    requires gone <= pool.Keys
    ensures gone <= r <= pool.Keys
    ensures forall c :: c in pool && c !in r ==> pool[c].parents !! r
    decreases |pool.Keys - gone|
  {
    var next := set c | c in pool && c !in gone && pool[c].parents * gone != {};
    assert forall c :: c in pool && c !in gone && c !in next ==> pool[c].parents * gone == {};
    if next == {} then gone
    else
      Fewer(pool, gone, next);
      Dependents(pool, gone + next)
  }

  lemma Fewer(pool: Pool, gone: set<Tx>, next: set<Tx>)
    requires gone <= pool.Keys && next <= pool.Keys - gone && next != {}
    ensures |pool.Keys - (gone + next)| < |pool.Keys - gone|
  {
    assert pool.Keys - gone == (pool.Keys - (gone + next)) + next;
    assert (pool.Keys - (gone + next)) !! next;
  }

  const COINBASE_RESERVE := 1000
  const COINBASE_SIGOPS := 100

  // Sizes, and the policies that are not part of the model.
  datatype Params = Params(
    nBlockMaxSize: nat,
    nBlockPrioritySize: nat,
    nBlockMinSize: nat,
    allowFree: real -> bool,
    relayFee: nat -> int,
    sigOpLimit: nat -> nat)
  {
    predicate Valid() {
      nBlockMaxSize >= COINBASE_RESERVE
    }
  }

  // The block without its coinbase, and the template's lists with the coinbase first.
  datatype Template = Template(
    vtx: seq<Tx>,
    vTxFees: seq<int>,
    vTxSigOps: seq<int>,
    nBlockSize: nat,
    nBlockSigOps: nat,
    nFees: int)

  const EMPTY := Template([], [-1], [-1], COINBASE_RESERVE, COINBASE_SIGOPS, 0)

  function Sum(s: seq<int>): int {
    if s == [] then 0 else Sum(s[..|s| - 1]) + s[|s| - 1]
  }

  function Pushed(b: Template, t: Tx, e: TxEntry): Template {
    Template(b.vtx + [t], b.vTxFees + [e.nFee], b.vTxSigOps + [e.nSigOps],
             b.nBlockSize + e.nTxSize, b.nBlockSigOps + e.nSigOps, b.nFees + e.nFee)
  }

  // ----- what an assembled block is

  ghost predicate NoRepeats(vtx: seq<Tx>) {
    forall i, j :: 0 <= i < j < |vtx| ==> vtx[i] != vtx[j]
  }

  ghost predicate ParentsFirst(pool: Pool, vtx: seq<Tx>) {
    forall i :: 0 <= i < |vtx| ==> vtx[i] in pool && forall p :: p in pool[vtx[i]].parents ==> p in vtx[..i]
  }

  ghost function Sizes(pool: Pool, vtx: seq<Tx>): nat
    requires forall t :: t in vtx ==> t in pool
  {
    if vtx == [] then 0 else Sizes(pool, vtx[..|vtx| - 1]) + pool[vtx[|vtx| - 1]].nTxSize
  }

  ghost function SigOps(pool: Pool, vtx: seq<Tx>): nat
    requires forall t :: t in vtx ==> t in pool
  {
    if vtx == [] then 0 else SigOps(pool, vtx[..|vtx| - 1]) + pool[vtx[|vtx| - 1]].nSigOps
  }

  // Every transaction once, after its parents, and final; the totals are right and below the limits.
  ghost predicate Assembled(pool: Pool, params: Params, b: Template) {
    && NoRepeats(b.vtx) && ParentsFirst(pool, b.vtx)
    && (forall i :: 0 <= i < |b.vtx| ==> b.vtx[i] in pool && pool[b.vtx[i]].isFinal)
    && |b.vTxFees| == |b.vTxSigOps| == |b.vtx| + 1
    && (forall i :: 0 <= i < |b.vtx| ==>
          b.vTxFees[i + 1] == pool[b.vtx[i]].nFee && b.vTxSigOps[i + 1] == pool[b.vtx[i]].nSigOps)
    && b.nFees == Sum(b.vTxFees[1..])
    && b.nBlockSize == COINBASE_RESERVE + Sizes(pool, b.vtx)
    && b.nBlockSigOps == COINBASE_SIGOPS + SigOps(pool, b.vtx)
    && (b.vtx != [] ==>
          b.nBlockSize < params.nBlockMaxSize && b.nBlockSigOps < params.sigOpLimit(b.nBlockSize - COINBASE_RESERVE))
  }

  function Members(vtx: seq<Tx>): set<Tx> {
    set t | t in vtx
  }

  lemma EmptyAssembled(pool: Pool, params: Params)
    ensures Assembled(pool, params, EMPTY)
  {
  }

  ghost predicate Fits(params: Params, b: Template, e: TxEntry) {
    && e.isFinal && b.nBlockSize >= COINBASE_RESERVE && b.nBlockSize + e.nTxSize < params.nBlockMaxSize
    && b.nBlockSigOps + e.nSigOps < params.sigOpLimit(b.nBlockSize + e.nTxSize - COINBASE_RESERVE)
  }

  // The tests the loop makes are what it takes to add a transaction.
  lemma PushAssembled(pool: Pool, params: Params, b: Template, t: Tx)
    requires Assembled(pool, params, b) && t in pool && t !in Members(b.vtx)
    requires pool[t].parents <= Members(b.vtx)
    requires Fits(params, b, pool[t])
    ensures Assembled(pool, params, Pushed(b, t, pool[t]))
  {
    var b' := Pushed(b, t, pool[t]);
    assert b'.vtx[..|b.vtx|] == b.vtx;
    assert b'.vTxFees[1..] == b.vTxFees[1..] + [pool[t].nFee];
    assert b'.vTxFees[1..][..|b.vtx|] == b.vTxFees[1..];
    PushOrder(pool, b.vtx, t);
    hide NoRepeats, ParentsFirst, Sum, SigOps, Sizes;
    assert b'.nFees == Sum(b'.vTxFees[1..]) by { SumPush(b.vTxFees[1..], pool[t].nFee); }
    TotalsPush(pool, b.vtx, t);
  }

  lemma SumPush(s: seq<int>, x: int)
    ensures Sum(s + [x]) == Sum(s) + x
  {
    assert (s + [x])[..|s|] == s;
  }

  lemma TotalsPush(pool: Pool, vtx: seq<Tx>, t: Tx)
    requires t in pool && forall u :: u in vtx ==> u in pool
    ensures Sizes(pool, vtx + [t]) == Sizes(pool, vtx) + pool[t].nTxSize
    ensures SigOps(pool, vtx + [t]) == SigOps(pool, vtx) + pool[t].nSigOps
  {
    assert (vtx + [t])[..|vtx|] == vtx;
  }

  lemma PushOrder(pool: Pool, vtx: seq<Tx>, t: Tx)
    requires NoRepeats(vtx) && ParentsFirst(pool, vtx) && t in pool && t !in vtx
    requires forall p :: p in pool[t].parents ==> p in vtx
    ensures NoRepeats(vtx + [t]) && ParentsFirst(pool, vtx + [t])
  {
    forall i | 0 <= i < |vtx| + 1
      ensures (vtx + [t])[i] in pool && forall p :: p in pool[(vtx + [t])[i]].parents ==> p in (vtx + [t])[..i]
    {
      assert (vtx + [t])[..i] == vtx[..i];
    }
  }

  // Not only parents: everything a transaction depends on, over any number of steps, comes first.
  lemma {:induction false} AncestorsFirst(pool: Pool, vtx: seq<Tx>, path: seq<Tx>)
    requires NoRepeats(vtx) && ParentsFirst(pool, vtx)
    requires |path| >= 2 && path[0] in vtx
    requires forall i :: 0 <= i < |path| - 1 ==> path[i] in pool && path[i + 1] in pool[path[i]].parents
    ensures exists j, k :: 0 <= j < k < |vtx| && vtx[j] == path[|path| - 1] && vtx[k] == path[0]
  {
    var k :| 0 <= k < |vtx| && vtx[k] == path[0];
    assert path[1] in vtx[..k];
    var j :| 0 <= j < k && vtx[j] == path[1];
    if |path| > 2 {
      AncestorsFirst(pool, vtx, path[1..]);
      var j', k' :| 0 <= j' < k' < |vtx| && vtx[j'] == path[|path| - 1] && vtx[k'] == path[1];
      assert k' == j;
    }
  }

  // The coinbase entry of the fees is minus the others.
  ghost predicate Finished(pool: Pool, params: Params, b: Template) {
    && |b.vTxFees| > 0 && Assembled(pool, params, b)
    && b.vTxFees[0] == -b.nFees && Sum(b.vTxFees) == 0
    && b.nBlockSize <= params.nBlockMaxSize
  }

  lemma {:induction false} SumFirst(s: seq<int>)
    requires s != []
    ensures Sum(s) == s[0] + Sum(s[1..])
  {
    if |s| > 1 {
      SumFirst(s[..|s| - 1]);
      assert s[..|s| - 1][1..] == s[1..][..|s| - 2];
    }
  }

  lemma FinishKeeps(pool: Pool, params: Params, b: Template)
    requires params.Valid() && Assembled(pool, params, b)
    ensures |b.vTxFees| > 0 && Finished(pool, params, b.(vTxFees := b.vTxFees[0 := -b.nFees]))
  {
    var fees := b.vTxFees[0 := -b.nFees];
    assert fees[1..] == b.vTxFees[1..];
    SumFirst(fees);
  }
}
