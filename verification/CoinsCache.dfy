// The stack of write-back caches over the unspent-output database, as maps.  A cache entry
// carries two flags; what a cache shows is its base overlaid with its entries, and a fully
// spent record counts as absent.
module CoinsCache {
  import Bits

  type TxId = nat
  type BlockHash = nat // the null hash is 0

  datatype TxOut = TxOut(nValue: int, script: seq<Bits.Byte>) {
    predicate IsNull() {
      nValue == -1
    }
  }

  datatype Coins = Coins(fCoinBase: bool, vout: seq<TxOut>, nHeight: int, nVersion: int)

  datatype Entry = Entry(coins: Coins, fDirty: bool, fFresh: bool)

  type Memory = Coins -> nat // DynamicMemoryUsage

  const CLEARED := Coins(false, [], 0, 0)

  predicate IsPruned(c: Coins) {
    forall i :: 0 <= i < |c.vout| ==> c.vout[i].IsNull()
  }

  // Spent outputs at the end are dropped.
  function Trim(vout: seq<TxOut>): (r: seq<TxOut>)
    ensures r <= vout
    ensures r == [] || !r[|r| - 1].IsNull()
    ensures forall i :: |r| <= i < |vout| ==> vout[i].IsNull()
  {
    if vout == [] || !vout[|vout| - 1].IsNull() then vout else Trim(vout[..|vout| - 1])
  }

  function Cleanup(c: Coins): Coins {
    c.(vout := Trim(c.vout))
  }

  predicate Clean(c: Coins) {
    c.vout == [] || !c.vout[|c.vout| - 1].IsNull()
  }

  lemma LastUnspent(c: Coins)
    requires Clean(c) && c.vout != []
    ensures !IsPruned(c)
  {
    assert !c.vout[|c.vout| - 1].IsNull();
  }

  // Cleaning up keeps what is unspent; after it the quick test for an empty list decides.
  lemma CleanupKeeps(c: Coins)
    ensures Clean(Cleanup(c))
    ensures IsPruned(Cleanup(c)) <==> IsPruned(c)
    ensures IsPruned(c) <==> Cleanup(c).vout == []
  {
    var r := Trim(c.vout);
    if r != [] {
      LastUnspent(Cleanup(c));
      assert c.vout[|r| - 1] == r[|r| - 1];
    }
  }

  lemma CleanPruned(c: Coins)
    requires Clean(c)
    ensures IsPruned(c) <==> c.vout == []
  {
    if c.vout != [] {
      LastUnspent(c);
    }
  }

  // ----- what a cache shows

  ghost function Overlay(base: map<TxId, Coins>, cache: map<TxId, Entry>): map<TxId, Coins>
  {
    map t | t in base.Keys + cache.Keys && (t in cache ==> !IsPruned(cache[t].coins)) ::
      if t in cache then cache[t].coins else base[t]
  }

  ghost predicate AllUnspent(v: map<TxId, Coins>) {
    forall t :: t in v ==> !IsPruned(v[t])
  }

  // FRESH: the base does not have it.  Not DIRTY: the same as in the base.
  ghost predicate EntryOk(base: map<TxId, Coins>, t: TxId, e: Entry) {
    && (e.fFresh ==> t !in base)
    && (!e.fDirty ==> if t in base then e.coins == base[t] else IsPruned(e.coins))
  }

  ghost predicate EntriesOk(base: map<TxId, Coins>, cache: map<TxId, Entry>) {
    forall t :: t in cache ==> EntryOk(base, t, cache[t])
  }

  // ----- writing a child's entry into a cache

  function Merge(cache: map<TxId, Entry>, t: TxId, e: Entry): map<TxId, Entry> {
    if !e.fDirty then cache
    else if t !in cache then
      if e.fFresh && IsPruned(e.coins) then cache else cache[t := Entry(e.coins, true, e.fFresh)]
    else if cache[t].fFresh && IsPruned(e.coins) then cache - {t}
    else cache[t := Entry(e.coins, true, cache[t].fFresh)]
  }

  lemma MergeShows(base: map<TxId, Coins>, cache: map<TxId, Entry>, t: TxId, e: Entry, u: TxId)
    requires AllUnspent(base) && EntriesOk(base, cache) && EntryOk(Overlay(base, cache), t, e)
    ensures var after, wanted := Overlay(base, Merge(cache, t, e)), Overlay(Overlay(base, cache), map[t := e]);
            (u in after <==> u in wanted) && (u in after ==> after[u] == wanted[u])
  {
    hide IsPruned;
    assert u in cache ==> EntryOk(base, u, cache[u]);
  }

  lemma MergeKeepsFlags(base: map<TxId, Coins>, cache: map<TxId, Entry>, t: TxId, e: Entry)
    requires EntriesOk(base, cache) && EntryOk(Overlay(base, cache), t, e)
    ensures EntriesOk(base, Merge(cache, t, e))
  {
    hide IsPruned;
  }

  // Writing an entry into a cache changes what the cache shows as overlaying the entry does,
  // and the flags stay truthful.
  lemma MergeOk(base: map<TxId, Coins>, cache: map<TxId, Entry>, t: TxId, e: Entry)
    requires AllUnspent(base) && EntriesOk(base, cache) && EntryOk(Overlay(base, cache), t, e)
    ensures EntriesOk(base, Merge(cache, t, e))
    ensures Overlay(base, Merge(cache, t, e)) == Overlay(Overlay(base, cache), map[t := e])
  {
    var after, wanted := Overlay(base, Merge(cache, t, e)), Overlay(Overlay(base, cache), map[t := e]);
    MergeKeepsFlags(base, cache, t, e);
    hide IsPruned, Overlay, EntriesOk, EntryOk, AllUnspent, Merge;
    forall u
      ensures u in after <==> u in wanted
      ensures u in after ==> after[u] == wanted[u]
    {
      MergeShows(base, cache, t, e, u);
    }
    assert after.Keys == wanted.Keys;
  }

  // All of a child's entries: what becomes of a key depends on that key alone.
  ghost function MergeAll(cache: map<TxId, Entry>, m: map<TxId, Entry>): (r: map<TxId, Entry>)
    ensures forall t :: t in r ==> t in cache || t in m
    ensures forall t :: t in m ==> (t in r <==> t in Merge(cache, t, m[t]))
    ensures forall t :: t in m && t in r ==> r[t] == Merge(cache, t, m[t])[t]
    ensures forall t :: t !in m ==> (t in r <==> t in cache) && (t in r ==> r[t] == cache[t])
  {
    map t | t in cache.Keys + m.Keys && (if t in m then t in Merge(cache, t, m[t]) else t in cache) ::
      if t in m then Merge(cache, t, m[t])[t] else cache[t]
  }

  lemma MergeAllFlags(base: map<TxId, Coins>, cache: map<TxId, Entry>, m: map<TxId, Entry>)
    requires EntriesOk(base, cache) && EntriesOk(Overlay(base, cache), m)
    ensures EntriesOk(base, MergeAll(cache, m))
  {
    var r := MergeAll(cache, m);
    hide MergeAll, IsPruned, Overlay, EntryOk;
    forall t | t in r
      ensures EntryOk(base, t, r[t])
    {
      if t in m {
        MergeKeepsFlags(base, cache, t, m[t]);
      }
    }
  }

  lemma MergeAllShows(base: map<TxId, Coins>, cache: map<TxId, Entry>, m: map<TxId, Entry>)
    requires AllUnspent(base) && EntriesOk(base, cache) && EntriesOk(Overlay(base, cache), m)
    ensures Overlay(base, MergeAll(cache, m)) == Overlay(Overlay(base, cache), m)
  {
    var after, wanted := Overlay(base, MergeAll(cache, m)), Overlay(Overlay(base, cache), m);
    forall t
      ensures t in after <==> t in wanted
      ensures t in after ==> after[t] == wanted[t]
    {
      MergeAllAt(base, cache, m, t);
    }
    hide Overlay, MergeAll;
    assert after.Keys == wanted.Keys;
  }

  lemma MergeAllAt(base: map<TxId, Coins>, cache: map<TxId, Entry>, m: map<TxId, Entry>, t: TxId)
    requires AllUnspent(base) && EntriesOk(base, cache) && EntriesOk(Overlay(base, cache), m)
    ensures var after, wanted := Overlay(base, MergeAll(cache, m)), Overlay(Overlay(base, cache), m);
            (t in after <==> t in wanted) && (t in after ==> after[t] == wanted[t])
  {
    if t in m {
      MergeShows(base, cache, t, m[t], t);
    }
    hide AllUnspent, IsPruned, EntriesOk, EntryOk, Merge, MergeAll;
  }

  // One more of them.
  lemma MergeAllStep(cache: map<TxId, Entry>, m: map<TxId, Entry>, done: set<TxId>, t: TxId)
    requires t in m && t !in done
    ensures MergeAll(cache, Restrict(m, done + {t})) == Merge(MergeAll(cache, Restrict(m, done)), t, m[t])
  {
    var before, after := MergeAll(cache, Restrict(m, done)), MergeAll(cache, Restrict(m, done + {t}));
    var wanted := Merge(before, t, m[t]);
    hide MergeAll, IsPruned;
    assert t in before <==> t in cache;
    forall u
      ensures u in after <==> u in wanted
      ensures u in after ==> after[u] == wanted[u]
    {
    }
    assert after.Keys == wanted.Keys;
  }

  lemma MergeAllEnds(cache: map<TxId, Entry>, m: map<TxId, Entry>)
    ensures MergeAll(cache, Restrict(m, {})) == cache
    ensures Restrict(m, m.Keys) == m
  {
    var r := MergeAll(cache, Restrict(m, {}));
    hide MergeAll;
    assert r.Keys == cache.Keys;
  }

  // The same for the database: a spent record is erased, any other written.
  function Store(store: map<TxId, Coins>, t: TxId, e: Entry): map<TxId, Coins> {
    if !e.fDirty then store
    else if IsPruned(e.coins) then store - {t}
    else store[t := e.coins]
  }

  lemma StoreOk(store: map<TxId, Coins>, t: TxId, e: Entry)
    requires AllUnspent(store) && EntryOk(store, t, e)
    ensures Store(store, t, e) == Overlay(store, map[t := e])
  {
    var after, wanted := Store(store, t, e), Overlay(store, map[t := e]);
    forall u
      ensures u in after <==> u in wanted
      ensures u in after ==> after[u] == wanted[u]
    {
    }
    assert after == wanted;
  }

  // ----- single changes of a cache, seen from outside

  // Putting coins c in entry t.
  function Show(v: map<TxId, Coins>, t: TxId, c: Coins): map<TxId, Coins> {
    if IsPruned(c) then v - {t} else v[t := c]
  }

  lemma OverlaySet(base: map<TxId, Coins>, cache: map<TxId, Entry>, t: TxId, e: Entry)
    requires EntriesOk(base, cache) && EntryOk(base, t, e)
    ensures EntriesOk(base, cache[t := e])
    ensures Overlay(base, cache[t := e]) == Show(Overlay(base, cache), t, e.coins)
  {
    var after, wanted := Overlay(base, cache[t := e]), Show(Overlay(base, cache), t, e.coins);
    hide IsPruned;
    forall u
      ensures u in after <==> u in wanted
      ensures u in after ==> after[u] == wanted[u]
    {
    }
    assert after.Keys == wanted.Keys;
  }

  // Filling the cache with what the base has shows nothing new.
  lemma OverlayFetch(base: map<TxId, Coins>, cache: map<TxId, Entry>, t: TxId, e: Entry)
    requires AllUnspent(base) && EntriesOk(base, cache) && t !in cache && EntryOk(base, t, e)
    requires if t in base then e.coins == base[t] else IsPruned(e.coins)
    ensures EntriesOk(base, cache[t := e])
    ensures Overlay(base, cache[t := e]) == Overlay(base, cache)
  {
    OverlaySet(base, cache, t, e);
    var v := Overlay(base, cache);
    assert Show(v, t, e.coins) == v;
  }

  // Dropping an unmodified entry, or a FRESH one that is spent, loses nothing.
  lemma OverlayErase(base: map<TxId, Coins>, cache: map<TxId, Entry>, t: TxId)
    requires AllUnspent(base) && EntriesOk(base, cache) && t in cache
    requires !cache[t].fDirty || (cache[t].fFresh && IsPruned(cache[t].coins))
    ensures EntriesOk(base, cache - {t})
    ensures Overlay(base, cache - {t}) == Overlay(base, cache)
  {
    var after, wanted := Overlay(base, cache - {t}), Overlay(base, cache);
    assert EntryOk(base, t, cache[t]);
    hide EntriesOk;
    assert t in base ==> !IsPruned(base[t]);
    hide IsPruned;
    forall u
      ensures u in after <==> u in wanted
      ensures u in after ==> after[u] == wanted[u]
    {
    }
    assert after.Keys == wanted.Keys;
  }

  // ----- entries written one after the other

  ghost function Restrict(m: map<TxId, Entry>, keys: set<TxId>): (r: map<TxId, Entry>)
    ensures forall t :: t in r <==> t in m && t in keys
    ensures forall t :: t in r ==> r[t] == m[t]
  {
    map t | t in m && t in keys :: m[t]
  }

  lemma OverlayStep(base: map<TxId, Coins>, m: map<TxId, Entry>, done: set<TxId>, t: TxId)
    requires t in m && t !in done && EntriesOk(base, m)
    ensures EntryOk(Overlay(base, Restrict(m, done)), t, m[t])
    ensures Overlay(base, Restrict(m, done + {t})) == Overlay(Overlay(base, Restrict(m, done)), map[t := m[t]])
  {
    var after, wanted := Overlay(base, Restrict(m, done + {t})), Overlay(Overlay(base, Restrict(m, done)), map[t := m[t]]);
    forall u
      ensures u in after <==> u in wanted
      ensures u in after ==> after[u] == wanted[u]
    {
    }
    assert after == wanted;
  }

  lemma OverlayEnds(base: map<TxId, Coins>, m: map<TxId, Entry>)
    ensures Overlay(base, Restrict(m, {})) == base
    ensures Overlay(base, Restrict(m, m.Keys)) == Overlay(base, m)
  {
    assert Restrict(m, m.Keys) == m;
    var none := Overlay(base, Restrict(m, {}));
    forall u
      ensures u in none <==> u in base
      ensures u in none ==> none[u] == base[u]
    {
    }
    assert none == base;
  }

  // A cache with no entries shows its base.
  lemma OverlayEmpty(base: map<TxId, Coins>)
    ensures Overlay(base, map[]) == base
  {
    assert Restrict(map[], {}) == map[];
    OverlayEnds(base, map[]);
  }

  // A flushed FRESH entry of a record the base does have is what ModifyNewCoins warns of:
  // once spent, it is dropped instead of overwriting, and the base keeps showing it.
  lemma FreshMustBeAbsent(base: map<TxId, Coins>, cache: map<TxId, Entry>, t: TxId, spent: Coins)
    requires EntriesOk(base, cache) && t !in cache && IsPruned(spent)
    ensures t !in Overlay(Overlay(base, cache), map[t := Entry(spent, true, true)])
    ensures t !in Overlay(base, Merge(cache, t, Entry(spent, true, true))) <==> t !in base
  {
  }

  // ----- memory accounting

  lemma PickOne(keys: set<TxId>)
    ensures keys == {} || exists t :: t in keys
  {
    if forall t :: t !in keys {
      assert keys == {};
    }
  }

  ghost function UsageOf(mem: Memory, m: map<TxId, Entry>, keys: set<TxId>): (u: nat)
    requires keys <= m.Keys
  {
    PickOne(keys);
    if keys == {} then 0
    else
      var t :| t in keys;
      mem(m[t].coins) + UsageOf(mem, m, keys - {t})
  }

  // The memory held by all entries of a cache.
  ghost function Usage(mem: Memory, m: map<TxId, Entry>): nat {
    UsageOf(mem, m, m.Keys)
  }

  lemma {:induction false} UsageWithout(mem: Memory, m: map<TxId, Entry>, keys: set<TxId>, t: TxId)
    requires keys <= m.Keys && t in keys
    ensures UsageOf(mem, m, keys) == mem(m[t].coins) + UsageOf(mem, m, keys - {t})
  {
    var p :| p in keys && UsageOf(mem, m, keys) == mem(m[p].coins) + UsageOf(mem, m, keys - {p});
    if p != t {
      UsageWithout(mem, m, keys - {p}, t);
      UsageWithout(mem, m, keys - {t}, p);
      assert keys - {p} - {t} == keys - {t} - {p};
    }
  }

  lemma {:induction false} UsageSame(mem: Memory, m: map<TxId, Entry>, m': map<TxId, Entry>, keys: set<TxId>)
    requires keys <= m.Keys && keys <= m'.Keys && forall t :: t in keys ==> m'[t].coins == m[t].coins
    ensures UsageOf(mem, m', keys) == UsageOf(mem, m, keys)
  {
    PickOne(keys);
    if keys != {} {
      var t :| t in keys;
      UsageWithout(mem, m, keys, t);
      UsageWithout(mem, m', keys, t);
      UsageSame(mem, m, m', keys - {t});
    }
  }

  lemma UsageUpdate(mem: Memory, m: map<TxId, Entry>, t: TxId, e: Entry)
    ensures Usage(mem, m[t := e]) == Usage(mem, m) - (if t in m then mem(m[t].coins) else 0) + mem(e.coins)
  {
    var m' := m[t := e];
    UsageWithout(mem, m', m'.Keys, t);
    assert m'.Keys - {t} == m.Keys - {t};
    UsageSame(mem, m, m', m.Keys - {t});
    if t in m {
      UsageWithout(mem, m, m.Keys, t);
    }
    assert t !in m ==> m.Keys - {t} == m.Keys;
  }

  lemma UsageRemove(mem: Memory, m: map<TxId, Entry>, t: TxId)
    requires t in m
    ensures Usage(mem, m - {t}) == Usage(mem, m) - mem(m[t].coins)
  {
    var m' := m - {t};
    assert m'.Keys == m.Keys - {t};
    UsageWithout(mem, m, m.Keys, t);
    UsageSame(mem, m, m', m'.Keys);
  }
}
