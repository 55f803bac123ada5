// What each operation of a cache keeps, on values: the flags stay truthful, the view
// changes as the operation says, and the usage counter keeps counting the entries.
module CoinsOps {
  import opened CoinsCache

  // The entry a live CCoinsModifier points to, and the usage the modifier remembers.
  datatype Live = Nobody | On(txid: TxId, pending: nat)

  ghost predicate AllClean(v: map<TxId, Coins>) {
    forall t :: t in v ==> Clean(v[t])
  }

  ghost predicate EntriesClean(m: map<TxId, Entry>) {
    forall t :: t in m ==> Clean(m[t].coins)
  }

  // The flags are truthful, and every entry but the one being modified is cleaned up.
  ghost predicate CacheOk(base: map<TxId, Coins>, m: map<TxId, Entry>, live: Live) {
    && AllUnspent(base) && AllClean(base) && EntriesOk(base, m)
    && (live.On? ==> live.txid in m && m[live.txid].fDirty)
    && (forall t :: t in m && !(live.On? && t == live.txid) ==> Clean(m[t].coins))
  }

  // What the usage counter should say: every entry but the one being modified, and what its
  // modifier remembers.
  ghost function Counted(mem: Memory, m: map<TxId, Entry>, live: Live): nat {
    match live
    case Nobody => Usage(mem, m)
    case On(t, pending) => UsageOf(mem, m, m.Keys - {t}) + pending
  }

  lemma CountedIdle(mem: Memory, m: map<TxId, Entry>)
    ensures Counted(mem, m, Nobody) == Usage(mem, m)
  {
  }

  lemma StoreValid(store: map<TxId, Coins>, t: TxId, e: Entry)
    requires AllUnspent(store) && AllClean(store) && Clean(e.coins)
    ensures AllUnspent(Store(store, t, e)) && AllClean(Store(store, t, e))
  {
  }

  // What a cache between modifications shows is again a valid base.
  lemma OverlayClean(base: map<TxId, Coins>, m: map<TxId, Entry>)
    requires CacheOk(base, m, Nobody)
    ensures AllUnspent(Overlay(base, m)) && AllClean(Overlay(base, m))
    ensures EntriesOk(base, m) && EntriesClean(m)
  {
    hide IsPruned, Clean;
  }

  lemma Entries(base: map<TxId, Coins>, m: map<TxId, Entry>, live: Live, t: TxId)
    requires CacheOk(base, m, live) && t in m
    ensures EntryOk(base, t, m[t])
    ensures !(live.On? && t == live.txid) ==> Clean(m[t].coins)
  {
    hide EntryOk, Clean, IsPruned;
  }

  // ----- FetchCoins

  lemma FetchKeeps(base: map<TxId, Coins>, m: map<TxId, Entry>, live: Live, t: TxId, c: Coins)
    requires CacheOk(base, m, live) && t !in m && Clean(c)
    requires if t in base then c == base[t] else IsPruned(c)
    ensures CacheOk(base, m[t := Entry(c, false, IsPruned(c))], live)
    ensures Overlay(base, m[t := Entry(c, false, IsPruned(c))]) == Overlay(base, m)
  {
    OverlayFetch(base, m, t, Entry(c, false, IsPruned(c)));
    hide Overlay, EntriesOk, IsPruned, Clean;
  }

  lemma FetchCounted(mem: Memory, m: map<TxId, Entry>, live: Live, t: TxId, e: Entry)
    requires t !in m && (live.On? ==> live.txid in m)
    ensures Counted(mem, m[t := e], live) == Counted(mem, m, live) + mem(e.coins)
  {
    UsageUpdate(mem, m, t, e);
    if live.On? {
      UsageWithout(mem, m, m.Keys, live.txid);
      UsageWithout(mem, m[t := e], m[t := e].Keys, live.txid);
    }
  }

  // ----- ModifyCoins, ModifyNewCoins and the modifier's end

  lemma ModifyKeeps(base: map<TxId, Coins>, m: map<TxId, Entry>, t: TxId, e: Entry, pending: nat)
    requires CacheOk(base, m, Nobody) && e.fDirty && EntryOk(base, t, e)
    ensures CacheOk(base, m[t := e], On(t, pending))
    ensures Overlay(base, m[t := e]) == Show(Overlay(base, m), t, e.coins)
  {
    OverlaySet(base, m, t, e);
    hide Overlay, EntriesOk, EntryOk, IsPruned, Clean, Show;
  }

  // Marking a record dirty, after filling it in from the base if needed, shows nothing new.
  lemma ModifySame(base: map<TxId, Coins>, m: map<TxId, Entry>, t: TxId, e: Entry)
    requires CacheOk(base, m, Nobody) && e.fDirty
    requires t in m ==> e == m[t].(fDirty := true)
    requires t !in m && t in base ==> e.coins == base[t] && !e.fFresh
    requires t !in m && t !in base ==> IsPruned(e.coins)
    ensures EntryOk(base, t, e)
    ensures Show(Overlay(base, m), t, e.coins) == Overlay(base, m)
  {
    var v := Overlay(base, m);
    if t in m {
      Entries(base, m, Nobody, t);
    }
    hide EntriesOk, CacheOk;
    if t !in m && t in base {
      Unspent(base, m, t);
    }
    assert Show(v, t, e.coins) == v;
  }

  lemma Unspent(base: map<TxId, Coins>, m: map<TxId, Entry>, t: TxId)
    requires CacheOk(base, m, Nobody) && t in base
    ensures !IsPruned(base[t])
  {
    hide EntriesOk, IsPruned;
  }

  // While a modifier is live, its entry's own usage does not matter.
  lemma ModifyCounted(mem: Memory, m: map<TxId, Entry>, t: TxId, e: Entry, pending: nat)
    ensures Counted(mem, m[t := e], On(t, pending))
         == Counted(mem, m, Nobody) - (if t in m then mem(m[t].coins) else 0) + pending
  {
    UsageUpdate(mem, m, t, e);
    UsageWithout(mem, m[t := e], m[t := e].Keys, t);
  }

  lemma AssignKeeps(base: map<TxId, Coins>, m: map<TxId, Entry>, live: Live, c: Coins)
    requires CacheOk(base, m, live) && live.On?
    ensures CacheOk(base, m[live.txid := m[live.txid].(coins := c)], live)
    ensures Overlay(base, m[live.txid := m[live.txid].(coins := c)]) == Show(Overlay(base, m), live.txid, c)
  {
    var t := live.txid;
    Entries(base, m, live, t);
    assert EntryOk(base, t, m[t].(coins := c));
    OverlaySet(base, m, t, m[t].(coins := c));
    hide Overlay, EntriesOk, EntryOk, IsPruned, Clean, Show;
  }

  lemma AssignCounted(mem: Memory, m: map<TxId, Entry>, live: Live, c: Coins)
    requires live.On? && live.txid in m
    ensures Counted(mem, m[live.txid := m[live.txid].(coins := c)], live) == Counted(mem, m, live)
  {
    var m' := m[live.txid := m[live.txid].(coins := c)];
    assert m'.Keys == m.Keys;
    UsageSame(mem, m, m', m.Keys - {live.txid});
  }

  // The entry as the modifier leaves it.
  function Released(m: map<TxId, Entry>, t: TxId): map<TxId, Entry>
    requires t in m
  {
    var c := Cleanup(m[t].coins);
    if m[t].fFresh && IsPruned(c) then m - {t} else m[t := m[t].(coins := c)]
  }

  lemma ReleasedIs(m: map<TxId, Entry>, t: TxId)
    requires t in m
    ensures m[t].fFresh && IsPruned(Cleanup(m[t].coins)) ==> Released(m, t) == m - {t} && t !in Released(m, t)
    ensures !(m[t].fFresh && IsPruned(Cleanup(m[t].coins))) ==>
              && Released(m, t) == m[t := m[t].(coins := Cleanup(m[t].coins))]
              && t in Released(m, t) && Released(m, t)[t].coins == Cleanup(m[t].coins)
  {
    hide IsPruned, Cleanup;
  }

  lemma ReleaseKeeps(base: map<TxId, Coins>, m: map<TxId, Entry>, live: Live)
    requires CacheOk(base, m, live) && live.On?
    ensures CacheOk(base, Released(m, live.txid), Nobody)
    ensures Overlay(base, Released(m, live.txid)) == Show(Overlay(base, m), live.txid, Cleanup(m[live.txid].coins))
  {
    var t := live.txid;
    var c := Cleanup(m[t].coins);
    CleanupKeeps(m[t].coins);
    AssignKeeps(base, m, live, c);
    var m' := m[t := m[t].(coins := c)];
    CleanedUp(base, m, m', live, c);
    if m[t].fFresh && IsPruned(c) {
      assert m' - {t} == m - {t};
      OverlayErase(base, m', t);
      hide Overlay, EntriesOk, EntryOk, IsPruned, Clean, Show, Cleanup;
    }
  }

  lemma CleanedUp(base: map<TxId, Coins>, m: map<TxId, Entry>, m': map<TxId, Entry>, live: Live, c: Coins)
    requires live.On? && live.txid in m && m' == m[live.txid := m[live.txid].(coins := c)]
    requires CacheOk(base, m', live) && Clean(c)
    ensures CacheOk(base, m', Nobody)
  {
    hide EntriesOk, IsPruned, Clean;
  }

  lemma ReleaseCounted(mem: Memory, m: map<TxId, Entry>, live: Live)
    requires live.On? && live.txid in m
    ensures Counted(mem, Released(m, live.txid), Nobody)
         == Counted(mem, m, live) - live.pending
          + (if live.txid in Released(m, live.txid) then mem(Released(m, live.txid)[live.txid].coins) else 0)
  {
    var t, m' := live.txid, Released(m, live.txid);
    hide IsPruned, Cleanup;
    if t in m' {
      UsageWithout(mem, m', m'.Keys, t);
    }
    assert m'.Keys - {t} == m.Keys - {t};
    UsageSame(mem, m, m', m.Keys - {t});
    assert t !in m' ==> m'.Keys == m.Keys - {t};
  }

  // Letting a modifier go shows nothing new beyond what it assigned, cleaned up.
  lemma ReleaseShows(v: map<TxId, Coins>, t: TxId, c: Coins)
    ensures Show(Show(v, t, c), t, Cleanup(c)) == Show(v, t, Cleanup(c))
  {
    CleanupKeeps(c);
    hide IsPruned, Cleanup;
    assert Show(Show(v, t, c), t, Cleanup(c)) == Show(v, t, Cleanup(c));
  }

  // ----- BatchWrite and Uncache

  lemma MergeKeeps(base: map<TxId, Coins>, m: map<TxId, Entry>, t: TxId, e: Entry)
    requires CacheOk(base, m, Nobody) && EntryOk(Overlay(base, m), t, e) && Clean(e.coins)
    ensures CacheOk(base, Merge(m, t, e), Nobody)
    ensures Overlay(base, Merge(m, t, e)) == Overlay(Overlay(base, m), map[t := e])
  {
    MergeOk(base, m, t, e);
    hide Overlay, EntriesOk, EntryOk, IsPruned, Clean;
  }

  lemma MergeCounted(mem: Memory, m: map<TxId, Entry>, t: TxId, e: Entry)
    ensures Counted(mem, Merge(m, t, e), Nobody)
         == Counted(mem, m, Nobody)
          - (if e.fDirty && t in m then mem(m[t].coins) else 0)
          + (if e.fDirty && t in Merge(m, t, e) then mem(Merge(m, t, e)[t].coins) else 0)
  {
    hide IsPruned;
    if e.fDirty && t in m && t !in Merge(m, t, e) {
      UsageRemove(mem, m, t);
    } else if e.fDirty && t in Merge(m, t, e) {
      UsageUpdate(mem, m, t, Merge(m, t, e)[t]);
    }
  }

  lemma UncacheKeeps(base: map<TxId, Coins>, m: map<TxId, Entry>, live: Live, t: TxId)
    requires CacheOk(base, m, live) && t in m && !m[t].fDirty
    ensures CacheOk(base, m - {t}, live) && Overlay(base, m - {t}) == Overlay(base, m)
  {
    OverlayErase(base, m, t);
    hide Overlay, EntriesOk, EntryOk, IsPruned, Clean;
  }

  lemma UncacheCounted(mem: Memory, m: map<TxId, Entry>, live: Live, t: TxId)
    requires live.On? ==> live.txid in m && live.txid != t
    requires t in m
    ensures Counted(mem, m - {t}, live) == Counted(mem, m, live) - mem(m[t].coins)
  {
    UsageRemove(mem, m, t);
    if live.On? {
      UsageWithout(mem, m, m.Keys, live.txid);
      UsageWithout(mem, m - {t}, (m - {t}).Keys, live.txid);
    }
  }

  lemma EmptyKeeps(base: map<TxId, Coins>, mem: Memory)
    requires AllUnspent(base) && AllClean(base)
    ensures CacheOk(base, map[], Nobody) && Counted(mem, map[], Nobody) == 0
  {
  }

  lemma PendingCounted(mem: Memory, m: map<TxId, Entry>, live: Live)
    requires live.On?
    ensures Counted(mem, m, live) >= live.pending
  {
  }

  lemma ClearedPruned()
    ensures IsPruned(CLEARED) && Clean(CLEARED)
  {
  }

  lemma EmptyPruned(c: Coins)
    requires c.vout == []
    ensures IsPruned(c)
  {
  }

  // ----- CCoins::Spend

  const SPENT := TxOut(-1, [])

  function WithoutOutput(c: Coins, nPos: nat): Coins
    requires nPos < |c.vout|
  {
    Cleanup(c.(vout := c.vout[nPos := SPENT]))
  }

  predicate IsUnspent(c: Coins, i: int) {
    0 <= i < |c.vout| && !c.vout[i].IsNull()
  }

  // Output nPos is spent, every other one is as before, and so is the rest of the record.
  ghost predicate OnlySpent(was: Coins, now: Coins, nPos: nat) {
    && !IsUnspent(now, nPos)
    && (forall i :: i != nPos ==> (IsUnspent(now, i) <==> IsUnspent(was, i)))
    && (forall i :: IsUnspent(now, i) ==> now.vout[i] == was.vout[i])
    && now.fCoinBase == was.fCoinBase && now.nHeight == was.nHeight && now.nVersion == was.nVersion
  }

  lemma SpendsOnlyThat(c: Coins, nPos: nat)
    requires nPos < |c.vout|
    ensures OnlySpent(c, WithoutOutput(c, nPos), nPos)
    ensures IsPruned(WithoutOutput(c, nPos)) <==> forall i :: IsUnspent(c, i) ==> i == nPos
  {
    var spent, now := c.(vout := c.vout[nPos := SPENT]), WithoutOutput(c, nPos);
    CleanupKeeps(spent);
    assert now.vout == spent.vout[..|now.vout|];
    forall i
      ensures IsUnspent(now, i) <==> IsUnspent(spent, i)
      ensures IsUnspent(spent, i) <==> i != nPos && IsUnspent(c, i)
    {
    }
    if i :| i != nPos && IsUnspent(c, i) {
      assert IsUnspent(now, i);
    }
    if i :| 0 <= i < |now.vout| && !now.vout[i].IsNull() {
      assert IsUnspent(now, i);
    }
  }

  // What a view shows after a spend.
  lemma ShowSpent(v: map<TxId, Coins>, t: TxId, nPos: nat)
    requires t in v && nPos < |v[t].vout|
    ensures var now := Show(v, t, WithoutOutput(v[t], nPos));
            (t in now <==> exists i :: i != nPos && IsUnspent(v[t], i))
            && (t in now ==> OnlySpent(v[t], now[t], nPos))
            && (forall u :: u != t ==> (u in now <==> u in v) && (u in now ==> now[u] == v[u]))
  {
    hide OnlySpent, WithoutOutput, IsPruned, IsUnspent;
    SpendsOnlyThat(v[t], nPos);
  }

  lemma CleanIdle(c: Coins)
    requires Clean(c)
    ensures Cleanup(c) == c
  {
  }

  // Cleaning up a record that was not changed shows nothing new.
  lemma SameShown(v: map<TxId, Coins>, t: TxId, c: Coins)
    requires if t in v then c == v[t] && Clean(c) && !IsPruned(c) else IsPruned(c)
    ensures Show(v, t, Cleanup(c)) == v
  {
    CleanupKeeps(c);
    if t in v {
      CleanIdle(c);
    }
    assert Show(v, t, Cleanup(c)) == v;
  }
}
