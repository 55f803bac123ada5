// The caches as objects: a chain of CCoinsViewCache over the database.  Each method is stated
// in terms of View, the map from transaction to unspent outputs that a cache shows, and of
// Stacked, all levels from this one down, so that whatever holds of every run on values holds
// of the objects.
module CoinsViews {
  import opened CoinsCache
  import opened CoinsOps
  import opened S = CoinsStacks

  class CoinsViewDB {
    var store: map<TxId, Coins>
    var bestBlock: BlockHash

    ghost predicate Valid()
      reads this
    {
      AllUnspent(store) && AllClean(store)
    }

    method GetCoins(txid: TxId) returns (found: bool, coins: Coins)
      ensures found <==> txid in store
      ensures coins == if found then store[txid] else CLEARED
    {
      if txid in store {
        return true, store[txid];
      }
      return false, CLEARED;
    }

    method BatchWrite(mapCoins: map<TxId, Entry>, hashBlock: BlockHash) returns (ok: bool)
      requires Valid() && EntriesOk(store, mapCoins) && EntriesClean(mapCoins)
      modifies this
      ensures ok && Valid() && store == Overlay(old(store), mapCoins)
      ensures bestBlock == if hashBlock != 0 then hashBlock else old(bestBlock)
    {
      var todo := mapCoins.Keys;
      ghost var done: set<TxId> := {};
      OverlayEnds(store, mapCoins);
      hide Overlay, IsPruned, Store, AllUnspent, AllClean;
      while todo != {}
        invariant done + todo == mapCoins.Keys && done !! todo
        invariant Valid() && bestBlock == old(bestBlock)
        invariant store == Overlay(old(store), Restrict(mapCoins, done))
      {
        PickOne(todo);
        var t :| t in todo;
        OverlayStep(old(store), mapCoins, done, t);
        StoreOk(store, t, mapCoins[t]);
        StoreValid(store, t, mapCoins[t]);
        WriteOne(t, mapCoins[t]);
        todo, done := todo - {t}, done + {t};
      }
      assert done == mapCoins.Keys;
      if hashBlock != 0 {
        bestBlock := hashBlock;
      }
      ok := true;
    }

    method WriteOne(t: TxId, e: Entry)
      modifies this`store
      ensures store == Store(old(store), t, e)
    {
      if e.fDirty {
        if IsPruned(e.coins) {
          store := store - {t};
        } else {
          store := store[t := e.coins];
        }
      }
    }
  }

  class CoinsViewCache {
    const parent: CoinsViewCache?
    const db: CoinsViewDB
    const mem: Memory
    ghost const Repr: set<object>
    ghost const depth: nat
    var hasModifier: bool
    var hashBlock: BlockHash
    var cacheCoins: map<TxId, Entry>
    var cachedCoinsUsage: int
    ghost var View: map<TxId, Coins> // what this cache shows
    ghost var BestBlock: BlockHash   // the best block it shows
    var live: Live                   // what the CCoinsModifier, if any, holds

    ghost predicate Linked() {
      && this in Repr && db in Repr
      && (parent != null ==> parent in Repr && parent.Repr <= Repr && this !in parent.Repr && parent.depth < depth)
    }

    // What the view below shows.
    ghost function Base(): map<TxId, Coins>
      reads if parent == null then {db} else {parent}
    {
      if parent == null then db.store else parent.View
    }

    ghost function BaseBest(): BlockHash
      reads if parent == null then {db} else {parent}
    {
      if parent == null then db.bestBlock else parent.BestBlock
    }

    ghost predicate BelowOk()
      requires Linked()
      reads if parent == null then {db} else parent.Repr
      decreases depth, 0
    {
      if parent == null then db.Valid()
      else parent.db == db && parent.mem == mem && parent.Linked() && parent.Valid() && !parent.hasModifier
    }

    // This cache agrees with what is below it.
    ghost predicate Valid()
      reads this, Repr
      decreases depth, 1
    {
      && Linked() && BelowOk()
      && CacheOk(Base(), cacheCoins, live) && View == Overlay(Base(), cacheCoins)
      && hasModifier == live.On? && cachedCoinsUsage >= Counted(mem, cacheCoins, live)
      && BestBlock == if hashBlock != 0 then hashBlock else BaseBest()
    }

    // All levels from this one down, and all below it.
    ghost function Stacked(): (s: Stack)
      requires Valid()
      reads this, Repr
      ensures s.Over? && s.top == Level(cacheCoins, cachedCoinsUsage, hashBlock, live) && s.below == Below()
      decreases depth, 3
    {
      Over(Level(cacheCoins, cachedCoinsUsage, hashBlock, live), Below())
    }

    ghost function Below(): Stack
      requires Linked() && BelowOk()
      reads if parent == null then {db} else parent.Repr
      decreases depth, 2
    {
      if parent == null then Database(db.store, db.bestBlock) else parent.Stacked()
    }

    // The objects stand for a stack that is right, and show what it shows.
    lemma StackedOk()
      requires Valid()
      ensures Ok(mem, Stacked()) && S.View(Stacked()) == View && Best(Stacked()) == BestBlock
      ensures Ok(mem, Below()) && S.View(Below()) == Base() && Best(Below()) == BaseBest() && S.Idle(Below())
      decreases depth
    {
      hide CacheOk, Overlay, Counted;
      if parent != null {
        parent.StackedOk();
      }
    }

    constructor OverDatabase(db: CoinsViewDB, mem: Memory)
      requires db.Valid()
      ensures Valid() && !hasModifier && View == db.store && BestBlock == db.bestBlock
      ensures this.db == db && this.mem == mem && parent == null && fresh(Repr - {db})
      ensures Stacked() == Over(NEW_LEVEL, Database(db.store, db.bestBlock))
    {
      this.db := db;
      this.mem := mem;
      parent := null;
      hasModifier, hashBlock, cacheCoins, cachedCoinsUsage := false, 0, map[], 0;
      depth, Repr := 0, {this, db};
      View, BestBlock, live := db.store, db.bestBlock, Nobody;
      new;
      OverlayEmpty(db.store);
    }

    constructor OverCache(base: CoinsViewCache)
      requires base.Valid() && !base.hasModifier
      ensures Valid() && !hasModifier && View == base.View && BestBlock == base.BestBlock
      ensures parent == base && fresh(Repr - base.Repr)
      ensures mem == base.mem && Stacked() == Over(NEW_LEVEL, base.Stacked())
    {
      parent := base;
      db := base.db;
      mem := base.mem;
      hasModifier, hashBlock, cacheCoins, cachedCoinsUsage := false, 0, map[], 0;
      depth, Repr := base.depth + 1, base.Repr + {this};
      View, BestBlock, live := base.View, base.BestBlock, Nobody;
      new;
      OverlayClean(base.Base(), base.cacheCoins);
      OverlayEmpty(base.View);
    }

    // base->GetCoins
    method BaseGetCoins(txid: TxId) returns (found: bool, coins: Coins)
      requires Valid()
      modifies if parent == null then {} else parent.Repr
      ensures Valid() && Base() == old(Base()) && BaseBest() == old(BaseBest())
      ensures txid in Base() ==> found && coins == Base()[txid]
      ensures txid !in Base() && found ==> IsPruned(coins)
      ensures found ==> Clean(coins)
      ensures (found, coins, Below()) == S.GetCoins(mem, old(Below()), txid)
      decreases depth, 0
    {
      hide IsPruned, Clean, CacheOk, Overlay, Counted;
      if parent == null {
        found, coins := db.GetCoins(txid);
      } else {
        found, coins := parent.GetCoins(txid);
      }
      assert txid in Base() && parent == null ==> Clean(Base()[txid]);
    }

    lemma ReadingKeeps(txid: TxId)
      requires Valid()
      ensures var s' := S.GetCoins(mem, Stacked(), txid).2;
              Views(s') == Views(Stacked()) && Excesses(mem, s') == Excesses(mem, Stacked())
    {
      hide CacheOk, Counted, Overlay, Ok, Views, Excesses, S.GetCoins;
      StackedOk();
      GetCoinsKeeps(mem, Stacked(), txid);
    }

    method FetchCoins(txid: TxId) returns (found: bool)
      requires Valid()
      modifies this`cacheCoins, this`cachedCoinsUsage, if parent == null then {} else parent.Repr
      ensures Valid() && Base() == old(Base()) && BaseBest() == old(BaseBest())
      ensures found <==> txid in cacheCoins
      ensures !found ==> txid !in View && cacheCoins == old(cacheCoins)
      ensures found ==> cacheCoins == old(cacheCoins)[txid := cacheCoins[txid]]
      ensures found && txid !in old(cacheCoins) ==>
                !cacheCoins[txid].fDirty && (cacheCoins[txid].fFresh <==> IsPruned(cacheCoins[txid].coins))
      ensures txid in old(cacheCoins) ==> cacheCoins == old(cacheCoins)
      ensures var r := S.GetCoins(mem, old(Stacked()), txid);
              found == r.0 && Stacked() == r.2 && (found ==> cacheCoins[txid].coins == r.1)
      ensures Views(Stacked()) == old(Views(Stacked())) && Excesses(mem, Stacked()) == old(Excesses(mem, Stacked()))
      decreases depth, 1
    {
      hide IsPruned, Clean, CacheOk, Counted, Views, Excesses;
      ReadingKeeps(txid);
      if txid in cacheCoins {
        return true;
      }
      var tmp;
      found, tmp := BaseGetCoins(txid);
      if !found {
        return false;
      }
      var e := Entry(tmp, false, IsPruned(tmp));
      FetchKeeps(Base(), cacheCoins, live, txid, tmp);
      LiveHeld();
      FetchCounted(mem, cacheCoins, live, txid, e);
      hide Overlay;
      cacheCoins := cacheCoins[txid := e];
      cachedCoinsUsage := cachedCoinsUsage + mem(tmp);
      return true;
    }

    lemma LiveHeld()
      requires Valid()
      ensures live.On? ==> live.txid in cacheCoins && cacheCoins[live.txid].fDirty
    {
      hide IsPruned, Clean, EntriesOk, Overlay;
    }

    method GetCoins(txid: TxId) returns (found: bool, coins: Coins)
      requires Valid()
      modifies this`cacheCoins, this`cachedCoinsUsage, if parent == null then {} else parent.Repr
      ensures Valid() && Base() == old(Base()) && BaseBest() == old(BaseBest())
      ensures txid in View ==> found && coins == View[txid]
      ensures txid !in View && found ==> IsPruned(coins)
      ensures found && !(live.On? && txid == live.txid) ==> Clean(coins)
      ensures (found, coins, Stacked()) == S.GetCoins(mem, old(Stacked()), txid)
      ensures Views(Stacked()) == old(Views(Stacked())) && Excesses(mem, Stacked()) == old(Excesses(mem, Stacked()))
      decreases depth, 2
    {
      hide IsPruned, Clean, CacheOk, Counted;
      found := FetchCoins(txid);
      if found {
        Entries(Base(), cacheCoins, live, txid);
        return true, cacheCoins[txid].coins;
      }
      return false, CLEARED;
    }

    // Whether the view has unspent outputs of txid; exact while txid is not being modified.
    method HaveCoins(txid: TxId) returns (have: bool)
      requires Valid()
      modifies this`cacheCoins, this`cachedCoinsUsage, if parent == null then {} else parent.Repr
      ensures Valid() && Base() == old(Base()) && BaseBest() == old(BaseBest())
      ensures !(live.On? && txid == live.txid) ==> (have <==> txid in View)
      ensures txid in View ==> have
      ensures Stacked() == S.GetCoins(mem, old(Stacked()), txid).2
      ensures Views(Stacked()) == old(Views(Stacked())) && Excesses(mem, Stacked()) == old(Excesses(mem, Stacked()))
    {
      hide IsPruned, Clean, CacheOk, Counted;
      var found := FetchCoins(txid);
      have := found && cacheCoins[txid].coins.vout != [];
      if found {
        Entries(Base(), cacheCoins, live, txid);
        var c := cacheCoins[txid].coins;
        if !(live.On? && txid == live.txid) {
          CleanPruned(c);
        }
        if c.vout == [] {
          EmptyPruned(c);
        }
      }
    }

    predicate HaveCoinsInCache(txid: TxId)
      reads this
    {
      txid in cacheCoins
    }

    method GetBestBlock() returns (hash: BlockHash)
      requires Valid()
      modifies this`hashBlock, if parent == null then {} else parent.Repr
      ensures Valid() && Base() == old(Base()) && BaseBest() == old(BaseBest())
      ensures hash == BestBlock == hashBlock
      ensures (hash, Stacked()) == S.GetBestBlock(old(Stacked()))
      ensures Views(Stacked()) == old(Views(Stacked())) && Excesses(mem, Stacked()) == old(Excesses(mem, Stacked()))
      decreases depth
    {
      StackedOk();
      GetBestBlockKeeps(mem, Stacked());
      hide CacheOk, Overlay, Counted;
      if hashBlock == 0 {
        if parent == null {
          hashBlock := db.bestBlock;
        } else {
          var h := parent.GetBestBlock();
          hashBlock := h;
        }
      }
      return hashBlock;
    }

    method SetBestBlock(hash: BlockHash)
      requires Valid()
      modifies this`hashBlock, this`BestBlock
      ensures Valid() && hashBlock == hash
      ensures BestBlock == if hash != 0 then hash else BaseBest()
      ensures Stacked() == S.SetBestBlock(old(Stacked()), hash)
    {
      hide BelowOk, Base, BaseBest, CacheOk, Overlay, Counted;
      hashBlock := hash;
      BestBlock := if hash != 0 then hash else BaseBest();
    }

    // A modifiable reference to the record of txid, filled in from the base if needed.
    method ModifyCoins(txid: TxId)
      requires Valid() && !hasModifier
      modifies this`cacheCoins, this`hasModifier, this`live, if parent == null then {} else parent.Repr
      ensures Valid() && Base() == old(Base()) && BaseBest() == old(BaseBest())
      ensures hasModifier && live.On? && live.txid == txid
      ensures cacheCoins.Keys == old(cacheCoins).Keys + {txid}
      ensures cacheCoins == old(cacheCoins)[txid := cacheCoins[txid]] && cacheCoins[txid].fDirty
      ensures txid in View ==> cacheCoins[txid].coins == View[txid]
      ensures txid !in View ==> IsPruned(cacheCoins[txid].coins)
      ensures txid !in old(cacheCoins) && txid !in Base() ==> cacheCoins[txid].fFresh
      ensures Stacked() == S.ModifyCoins(mem, old(Stacked()), txid)
    {
      hide IsPruned, Clean, CacheOk, Counted;
      var e;
      var usage := 0;
      if txid in cacheCoins {
        e := cacheCoins[txid].(fDirty := true);
        usage := mem(cacheCoins[txid].coins);
      } else {
        var found, c := BaseGetCoins(txid);
        ClearedPruned();
        if !found {
          e := Entry(CLEARED, true, true);
        } else {
          e := Entry(c, true, IsPruned(c));
          BasePruned(txid);
        }
      }
      ModifySame(Base(), cacheCoins, txid, e);
      ModifyKeeps(Base(), cacheCoins, txid, e, usage);
      ModifyCounted(mem, cacheCoins, txid, e, usage);
      hide EntryOk, Show;
      cacheCoins := cacheCoins[txid := e];
      hasModifier := true;
      live := On(txid, usage);
    }

    lemma BasePruned(txid: TxId)
      requires Valid() && live.Nobody?
      ensures txid in Base() ==> !IsPruned(Base()[txid])
    {
      hide IsPruned, Overlay, EntriesOk, Clean;
    }

    // A modifiable reference to an emptied record.  The base must not have the record.
    method ModifyNewCoins(txid: TxId)
      requires Valid() && !hasModifier && txid !in Base()
      modifies this`cacheCoins, this`hasModifier, this`live, this`View
      ensures Valid() && hasModifier && live == On(txid, 0)
      ensures cacheCoins == old(cacheCoins)[txid := Entry(CLEARED, true, true)]
      ensures View == old(View) - {txid}
      ensures Stacked() == S.ModifyNewCoins(old(Stacked()), txid)
    {
      hide BelowOk, Base, BaseBest, IsPruned, Clean, CacheOk, Counted;
      var e := Entry(CLEARED, true, true);
      ClearedPruned();
      ModifyKeeps(Base(), cacheCoins, txid, e, 0);
      ModifyCounted(mem, cacheCoins, txid, e, 0);
      hide EntryOk, Overlay;
      cacheCoins := cacheCoins[txid := e];
      hasModifier := true;
      live := On(txid, 0);
      View := Show(View, txid, CLEARED);
    }

    // Writing through the modifier.
    method Assign(c: Coins)
      requires Valid() && hasModifier
      modifies this`cacheCoins, this`View
      ensures Valid() && cacheCoins == old(cacheCoins)[live.txid := old(cacheCoins)[live.txid].(coins := c)]
      ensures View == Show(old(View), live.txid, c)
      ensures HasModifier(old(Stacked()), live.txid) && Stacked() == S.Assign(old(Stacked()), live.txid, c)
    {
      hide BelowOk, Base, BaseBest, IsPruned, Clean, CacheOk, Counted, Overlay, Show;
      LiveHeld();
      var t := live.txid;
      AssignKeeps(Base(), cacheCoins, live, c);
      AssignCounted(mem, cacheCoins, live, c);
      cacheCoins := cacheCoins[t := cacheCoins[t].(coins := c)];
      View := Show(View, t, c);
    }

    // The end of a CCoinsModifier.
    method Release()
      requires Valid() && hasModifier
      modifies this`cacheCoins, this`cachedCoinsUsage, this`hasModifier, this`live, this`View
      ensures Valid() && !hasModifier
      ensures cacheCoins == Released(old(cacheCoins), old(live).txid)
      ensures View == Show(old(View), old(live).txid, Cleanup(old(cacheCoins)[old(live).txid].coins))
      ensures old(cachedCoinsUsage) >= old(live).pending // the subtraction does not underflow
      ensures HasModifier(old(Stacked()), old(live).txid)
      ensures Stacked() == S.Release(mem, old(Stacked()), old(live).txid)
    {
      hide BelowOk, Base, BaseBest, IsPruned, Clean, CacheOk, Counted, Overlay, Show, Cleanup, Released;
      LiveHeld();
      PendingCounted(mem, cacheCoins, live);
      ReleaseKeeps(Base(), cacheCoins, live);
      ReleaseCounted(mem, cacheCoins, live);
      ReleasedIs(cacheCoins, live.txid);
      hasModifier := false;
      var e := cacheCoins[live.txid].(coins := Cleanup(cacheCoins[live.txid].coins));
      View := Show(View, live.txid, e.coins);
      cachedCoinsUsage := cachedCoinsUsage - live.pending;
      if e.fFresh && IsPruned(e.coins) {
        cacheCoins := cacheCoins - {live.txid};
      } else {
        cacheCoins := cacheCoins[live.txid := e];
        cachedCoinsUsage := cachedCoinsUsage + mem(e.coins);
      }
      live := Nobody;
    }

    // Spending one output through ModifyCoins.
    method Spend(txid: TxId, nPos: nat) returns (ok: bool)
      requires Valid() && !hasModifier
      modifies Repr
      ensures Valid() && !hasModifier && Base() == old(Base()) && BaseBest() == old(BaseBest())
      ensures ok <==> txid in old(View) && nPos < |old(View)[txid].vout| && !old(View)[txid].vout[nPos].IsNull()
      ensures ok ==> View == Show(old(View), txid, WithoutOutput(old(View)[txid], nPos))
      ensures ok ==> (txid in View <==> exists i :: i != nPos && IsUnspent(old(View)[txid], i))
      ensures ok && txid in View ==> OnlySpent(old(View)[txid], View[txid], nPos)
      ensures forall u :: u != txid ==> (u in View <==> u in old(View)) && (u in View ==> View[u] == old(View)[u])
      ensures !ok ==> View == old(View)
      ensures (ok, Stacked()) == SpendThrough(mem, old(Stacked()), txid, nPos)
    {
      hide BelowOk, Base, BaseBest, CacheOk, Counted, Overlay, Show, Cleanup, S.ModifyCoins, S.Assign, S.Release, Clean, IsUnspent, OnlySpent;
      OverlayClean(Base(), cacheCoins);
      ModifyCoins(txid);
      var c := cacheCoins[txid].coins;
      ok := nPos < |c.vout| && !c.vout[nPos].IsNull();
      if ok {
        var spent := WithoutOutput(c, nPos);
        CleanupKeeps(c.(vout := c.vout[nPos := SPENT]));
        CleanIdle(spent);
        ReleaseShows(old(View), txid, spent);
        ShowSpent(old(View), txid, nPos);
        Assign(spent);
      } else {
        SameShown(View, txid, c);
      }
      Release();
    }

    method BatchWrite(mapCoins: map<TxId, Entry>, hash: BlockHash) returns (ok: bool)
      requires Valid() && !hasModifier && EntriesOk(View, mapCoins) && EntriesClean(mapCoins)
      modifies this`cacheCoins, this`cachedCoinsUsage, this`hashBlock, this`View, this`BestBlock
      ensures ok && Valid() && View == Overlay(old(View), mapCoins)
      ensures hashBlock == hash && BestBlock == if hash != 0 then hash else BaseBest()
      ensures Stacked() == S.BatchWrite(mem, old(Stacked()), mapCoins, hash)
    {
      hide BelowOk, Base, BaseBest, IsPruned, Clean, CacheOk, Counted, Overlay, EntryOk, EntriesOk, Merge, MergeAll, Usage;
      var todo := mapCoins.Keys;
      ghost var done: set<TxId> := {};
      OverlayEnds(View, mapCoins);
      MergeAllEnds(cacheCoins, mapCoins);
      while todo != {}
        invariant done + todo == mapCoins.Keys && done !! todo
        invariant Valid() && BestBlock == old(BestBlock)
        invariant View == Overlay(old(View), Restrict(mapCoins, done))
        invariant cacheCoins == MergeAll(old(cacheCoins), Restrict(mapCoins, done))
        invariant cachedCoinsUsage == old(cachedCoinsUsage) - Usage(mem, old(cacheCoins)) + Usage(mem, cacheCoins)
      {
        PickOne(todo);
        var t :| t in todo;
        OverlayStep(old(View), mapCoins, done, t);
        MergeAllStep(old(cacheCoins), mapCoins, done, t);
        WriteEntry(t, mapCoins[t]);
        todo, done := todo - {t}, done + {t};
      }
      assert done == mapCoins.Keys;
      hashBlock := hash;
      BestBlock := if hash != 0 then hash else BaseBest();
      ok := true;
    }

    // One round of that loop.
    method WriteEntry(t: TxId, e: Entry)
      requires Valid() && !hasModifier && EntryOk(View, t, e) && Clean(e.coins)
      modifies this`cacheCoins, this`cachedCoinsUsage, this`View
      ensures Valid() && cacheCoins == Merge(old(cacheCoins), t, e)
      ensures cachedCoinsUsage == old(cachedCoinsUsage) - Usage(mem, old(cacheCoins)) + Usage(mem, cacheCoins)
      ensures View == Overlay(old(View), map[t := e])
    {
      hide BelowOk, Base, BaseBest, IsPruned, Clean, CacheOk, Counted, Overlay, EntryOk;
      MergeKeeps(Base(), cacheCoins, t, e);
      MergeCounted(mem, cacheCoins, t, e);
      CountedIdle(mem, cacheCoins);
      CountedIdle(mem, Merge(cacheCoins, t, e));
      View := Overlay(View, map[t := e]);
      if e.fDirty {
        if t !in cacheCoins {
          if !(e.fFresh && IsPruned(e.coins)) {
            cacheCoins := cacheCoins[t := Entry(e.coins, true, e.fFresh)];
            cachedCoinsUsage := cachedCoinsUsage + mem(e.coins);
          }
        } else if cacheCoins[t].fFresh && IsPruned(e.coins) {
          cachedCoinsUsage := cachedCoinsUsage - mem(cacheCoins[t].coins);
          cacheCoins := cacheCoins - {t};
        } else {
          cachedCoinsUsage := cachedCoinsUsage - mem(cacheCoins[t].coins);
          cacheCoins := cacheCoins[t := Entry(e.coins, true, cacheCoins[t].fFresh)];
          cachedCoinsUsage := cachedCoinsUsage + mem(e.coins);
        }
      }
    }

    // Pushing the changes down shows nothing new.  A null best block is pushed down as well:
    // a cache below forgets its own, the database keeps what it has.
    method Flush() returns (ok: bool)
      requires Valid() && !hasModifier
      modifies this`cacheCoins, this`cachedCoinsUsage, this`BestBlock, if parent == null then {db} else {parent}
      ensures ok && Valid() && View == old(View) && Base() == old(View)
      ensures cacheCoins == map[] && cachedCoinsUsage == 0
      ensures hashBlock != 0 ==> BestBlock == old(BestBlock) == BaseBest()
      ensures hashBlock == 0 ==>
                BestBlock == if parent == null then old(BestBlock) else old(parent.BaseBest())
      ensures Stacked() == S.Flush(mem, old(Stacked()))
    {
      hide IsPruned, Clean, CacheOk, Counted, Overlay, EntriesOk, EntriesClean, AllUnspent, AllClean, MergeAll;
      OverlayClean(Base(), cacheCoins);
      if parent == null {
        ok := db.BatchWrite(cacheCoins, hashBlock);
      } else {
        ok := parent.BatchWrite(cacheCoins, hashBlock);
      }
      cacheCoins := map[];
      cachedCoinsUsage := 0;
      BestBlock := if hashBlock != 0 then hashBlock else BaseBest();
      OverlayEmpty(View);
      EmptyKeeps(View, mem);
    }

    method Uncache(txid: TxId)
      requires Valid()
      modifies this`cacheCoins, this`cachedCoinsUsage
      ensures Valid()
      ensures cacheCoins == if txid in old(cacheCoins) && !old(cacheCoins)[txid].fDirty && !old(cacheCoins)[txid].fFresh
                            then old(cacheCoins) - {txid} else old(cacheCoins)
      ensures Stacked() == S.Uncache(mem, old(Stacked()), txid)
    {
      hide BelowOk, Base, BaseBest, IsPruned, Clean, CacheOk, Counted, Overlay;
      LiveHeld();
      if txid in cacheCoins && !cacheCoins[txid].fDirty && !cacheCoins[txid].fFresh {
        UncacheKeeps(Base(), cacheCoins, live, txid);
        UncacheCounted(mem, cacheCoins, live, txid);
        cachedCoinsUsage := cachedCoinsUsage - mem(cacheCoins[txid].coins);
        cacheCoins := cacheCoins - {txid};
      }
    }

    // Whatever happens to the cache below, this one stays right as long as that one shows the
    // same: flushing or trimming a cache in the middle of the stack is invisible above it.
    twostate lemma BelowChanged()
      requires old(Valid()) && unchanged(this) && parent != null
      requires parent.Valid() && !parent.hasModifier
      requires parent.View == old(parent.View) && parent.BestBlock == old(parent.BestBlock)
      ensures Valid() && View == old(View)
      ensures Stacked() == Over(old(Stacked()).top, parent.Stacked())
    {
      hide IsPruned, Clean, CacheOk, Counted, Overlay;
    }

    // Between modifications the counter is at least the memory of the entries, so that
    // subtracting that of one of them does not underflow.
    lemma UsageCovers(txid: TxId)
      requires Valid() && !hasModifier && txid in cacheCoins
      ensures cachedCoinsUsage >= Usage(mem, cacheCoins) >= mem(cacheCoins[txid].coins)
    {
      hide CacheOk, Overlay;
      UsageWithout(mem, cacheCoins, cacheCoins.Keys, txid);
    }
  }
}
