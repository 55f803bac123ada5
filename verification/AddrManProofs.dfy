// Each mutator of the address manager keeps the consistency condition.  One lemma per
// index and step; the lemmas named ...Ok put them together.
module AddrManProofs {
  import opened AddrManState

  // ----- frames: what a change of the other fields cannot disturb

  ghost predicate SamePlaces(m: map<int, Info>, m': map<int, Info>) {
    && m'.Keys == m.Keys
    && forall id :: id in m ==> m'[id].addr == m[id].addr && m'[id].fInTried == m[id].fInTried
  }

  ghost predicate SameButPos(m: map<int, Info>, m': map<int, Info>) {
    && m'.Keys == m.Keys
    && forall id :: id in m ==> m'[id] == m[id].(nRandomPos := m'[id].nRandomPos)
  }

  lemma PlacesKeepIds(m: map<int, Info>, m': map<int, Info>)
    requires SamePlaces(m, m')
    ensures TriedIds(m') == TriedIds(m)
    ensures NewIds(m') == NewIds(m)
  {
    forall id ensures id in NewIds(m') <==> id in NewIds(m) {
      assert id in m'.Keys <==> id in m.Keys;
    }
    forall id ensures id in TriedIds(m') <==> id in TriedIds(m) {
      assert id in m'.Keys <==> id in m.Keys;
    }
  }

  lemma PlacesKeepAddr(m: map<int, Info>, m': map<int, Info>, mapAddr: map<NetAddr, int>)
    requires SamePlaces(m, m') && AddrOk(m, mapAddr)
    ensures AddrOk(m', mapAddr)
  {
  }

  lemma PlacesKeepSlots(env: Env, key: Key, m: map<int, Info>, m': map<int, Info>, newTable: seq<int>, triedTable: seq<int>)
    requires SamePlaces(m, m')
    requires NewSlotsOk(env, key, m, newTable) && TriedOk(env, key, m, triedTable)
    ensures NewSlotsOk(env, key, m', newTable) && TriedOk(env, key, m', triedTable)
  {
  }

  lemma PosKeepsRefs(env: Env, key: Key, m: map<int, Info>, m': map<int, Info>, newTable: seq<int>)
    requires SameButPos(m, m') && |newTable| == NEW_SLOTS
    requires RefCountsOk(m, newTable)
    ensures RefCountsOk(m', newTable)
  {
    forall id | id in m'
      ensures m'[id].nRefCount == |Held(newTable, id)|
    {
      assert id in m.Keys;
    }
  }

  lemma PosKeepsBounds(m: map<int, Info>, m': map<int, Info>, loose: set<int>)
    requires SameButPos(m, m')
    ensures BoundsOk(m, loose) ==> BoundsOk(m', loose)
    ensures TimesOk(m) ==> TimesOk(m')
  {
  }

  lemma PosFrame(env: Env, s: State, s': State, loose: set<int>, uncounted: set<int>)
    requires Indexed(env, s, loose, uncounted)
    requires SameButPos(s.mapInfo, s'.mapInfo)
    requires s' == s.(mapInfo := s'.mapInfo, vRandom := s'.vRandom)
    requires RandomOk(s'.mapInfo, s'.vRandom)
    ensures Indexed(env, s', loose, uncounted)
    ensures TimesOk(s.mapInfo) ==> TimesOk(s'.mapInfo)
  {
    PlacesKeepIds(s.mapInfo, s'.mapInfo);
    PlacesKeepAddr(s.mapInfo, s'.mapInfo, s.mapAddr);
    PlacesKeepSlots(env, s.nKey, s.mapInfo, s'.mapInfo, s.newTable, s.triedTable);
    PosKeepsRefs(env, s.nKey, s.mapInfo, s'.mapInfo, s.newTable);
    PosKeepsBounds(s.mapInfo, s'.mapInfo, loose);
  }

  // ----- SwapRandom

  lemma SwapKeepsRandom(s: State, i: nat, j: nat)
    requires RandomOk(s.mapInfo, s.vRandom)
    requires i < |s.vRandom| && j < |s.vRandom|
    ensures var s' := SwapRandom(s, i, j);
            && RandomOk(s'.mapInfo, s'.vRandom)
            && SameButPos(s.mapInfo, s'.mapInfo)
            && multiset(s'.vRandom) == multiset(s.vRandom)
  {
    if i != j {
      assert s.mapInfo[s.vRandom[i]].nRandomPos == i;
      assert s.mapInfo[s.vRandom[j]].nRandomPos == j;
    }
  }

  lemma SwapRandomOk(env: Env, s: State, i: nat, j: nat, loose: set<int>, uncounted: set<int>)
    requires Indexed(env, s, loose, uncounted)
    requires i < |s.vRandom| && j < |s.vRandom|
    ensures var s' := SwapRandom(s, i, j);
            && Indexed(env, s', loose, uncounted)
            && SameButPos(s.mapInfo, s'.mapInfo)
            && multiset(s'.vRandom) == multiset(s.vRandom)
            && (TimesOk(s.mapInfo) ==> TimesOk(s'.mapInfo))
  {
    SwapKeepsRandom(s, i, j);
    PosFrame(env, s, SwapRandom(s, i, j), loose, uncounted);
  }

  // ----- Delete

  // vRandom and nRandomPos after the swap with the last element and the pop.
  lemma DeleteRandom(s: State, id: int)
    requires id in s.mapInfo && RandomOk(s.mapInfo, s.vRandom)
    ensures var s' := Delete(s, id);
            && RandomOk(s'.mapInfo, s'.vRandom)
            && SameButPos(s.mapInfo - {id}, s'.mapInfo)
            && |s'.vRandom| == |s.vRandom| - 1
  {
    var p, last := s.mapInfo[id].nRandomPos, |s.vRandom| - 1;
    var s1 := SwapRandom(s, p, last);
    SwapKeepsRandom(s, p, last);
    assert s1.vRandom[last] == id;
    var s' := Delete(s, id);
    assert s'.mapInfo.Keys == s.mapInfo.Keys - {id};
    forall i | 0 <= i < |s'.vRandom|
      ensures s'.vRandom[i] in s'.mapInfo && s'.mapInfo[s'.vRandom[i]].nRandomPos == i
    {
      assert s'.vRandom[i] == s1.vRandom[i];
      assert s1.mapInfo[s1.vRandom[i]].nRandomPos == i;
    }
  }

  // Removing an entry that holds no slot, seen from each of the other indexes.
  lemma RemoveKeepsAddr(m: map<int, Info>, mapAddr: map<NetAddr, int>, id: int)
    requires id in m && AddrOk(m, mapAddr)
    ensures AddrOk(m - {id}, mapAddr - {m[id].addr.service.ip})
  {
  }

  lemma RemoveKeepsSlots(env: Env, key: Key, m: map<int, Info>, newTable: seq<int>, triedTable: seq<int>, id: int)
    requires id in m && !m[id].fInTried && m[id].nRefCount == 0
    requires NewSlotsOk(env, key, m, newTable) && RefCountsOk(m, newTable) && TriedOk(env, key, m, triedTable)
    ensures var m' := m - {id};
            NewSlotsOk(env, key, m', newTable) && RefCountsOk(m', newTable) && TriedOk(env, key, m', triedTable)
  {
    assert Held(newTable, id) == {};
    forall k | 0 <= k < NEW_SLOTS && newTable[k] != EMPTY
      ensures newTable[k] != id
    {
      assert k !in Held(newTable, id);
    }
  }

  lemma RemoveKeepsIds(m: map<int, Info>, id: int, loose: set<int>)
    requires id in m && !m[id].fInTried
    ensures NewIds(m - {id}) == NewIds(m) - {id} && id in NewIds(m)
    ensures TriedIds(m - {id}) == TriedIds(m)
    ensures BoundsOk(m, loose) ==> BoundsOk(m - {id}, loose - {id})
    ensures TimesOk(m) ==> TimesOk(m - {id})
  {
    forall j ensures j in NewIds(m - {id}) <==> j in NewIds(m) - {id} {}
    forall j ensures j in TriedIds(m - {id}) <==> j in TriedIds(m) {}
  }

  lemma DeleteOk(env: Env, s: State, id: int, loose: set<int>, uncounted: set<int>)
    requires Indexed(env, s, loose, uncounted)
    requires id in loose && id !in uncounted
    ensures var s' := Delete(s, id);
            && Indexed(env, s', loose - {id}, uncounted)
            && SameButPos(s.mapInfo - {id}, s'.mapInfo)
            && (TimesOk(s.mapInfo) ==> TimesOk(s'.mapInfo))
  {
    hide RandomOk, AddrOk, NewSlotsOk, RefCountsOk, TriedOk, TimesOk, NewIds, TriedIds;
    DeleteRandom(s, id);
    var s' := Delete(s, id);
    var m := s.mapInfo - {id};
    RemoveKeepsAddr(s.mapInfo, s.mapAddr, id);
    RemoveKeepsSlots(env, s.nKey, s.mapInfo, s.newTable, s.triedTable, id);
    RemoveKeepsIds(s.mapInfo, id, loose);
    PlacesKeepIds(m, s'.mapInfo);
    PlacesKeepAddr(m, s'.mapInfo, s'.mapAddr);
    PlacesKeepSlots(env, s.nKey, m, s'.mapInfo, s.newTable, s.triedTable);
    PosKeepsRefs(env, s.nKey, m, s'.mapInfo, s.newTable);
    PosKeepsBounds(m, s'.mapInfo, loose - {id});
  }

  // ----- one slot of the new table

  // Setting the reference count of one entry disturbs none of the other indexes.
  lemma RefKeepsRest(env: Env, s: State, id: int, n: int)
    requires id in s.mapInfo && RandomOk(s.mapInfo, s.vRandom) && AddrOk(s.mapInfo, s.mapAddr)
    requires NewSlotsOk(env, s.nKey, s.mapInfo, s.newTable) && TriedOk(env, s.nKey, s.mapInfo, s.triedTable)
    ensures var m' := SetRefCount(s, id, n).mapInfo;
            && SamePlaces(s.mapInfo, m')
            && RandomOk(m', s.vRandom) && AddrOk(m', s.mapAddr)
            && NewSlotsOk(env, s.nKey, m', s.newTable) && TriedOk(env, s.nKey, m', s.triedTable)
            && TriedIds(m') == TriedIds(s.mapInfo) && NewIds(m') == NewIds(s.mapInfo)
            && (TimesOk(s.mapInfo) ==> TimesOk(m'))
  {
    var m' := SetRefCount(s, id, n).mapInfo;
    assert m'.Keys == s.mapInfo.Keys;
    assert RandomOk(m', s.vRandom);
    hide RandomOk, AddrOk, NewSlotsOk, TriedOk;
    PlacesKeepIds(s.mapInfo, m');
    PlacesKeepAddr(s.mapInfo, m', s.mapAddr);
    PlacesKeepSlots(env, s.nKey, s.mapInfo, m', s.newTable, s.triedTable);
  }

  // Changing slot k takes it from its holder, gives it to the new one and moves no other.
  lemma SlotHeld(newTable: seq<int>, k: nat, id: int, j: int)
    requires k < |newTable| && newTable[k] != id
    ensures var before, after := Held(newTable, j), Held(newTable[k := id], j);
            if j == id then k !in before && after == before + {k}
            else if j == newTable[k] then k in before && after == before - {k}
            else after == before
  {
    var before, after := Held(newTable, j), Held(newTable[k := id], j);
    if j == id {
      assert after == before + {k};
    } else if j == newTable[k] {
      assert after == before - {k};
    } else {
      assert after == before;
    }
  }

  ghost function Release(s: State, k: nat): State
    requires k < |s.newTable| && s.newTable[k] in s.mapInfo
  {
    var id := s.newTable[k];
    SetRefCount(s, id, s.mapInfo[id].nRefCount - 1).(newTable := s.newTable[k := EMPTY])
  }

  lemma ReleaseRefs(env: Env, s: State, k: nat)
    requires NewSlotsOk(env, s.nKey, s.mapInfo, s.newTable) && RefCountsOk(s.mapInfo, s.newTable)
    requires k < NEW_SLOTS && s.newTable[k] != EMPTY && EMPTY !in s.mapInfo
    ensures RefCountsOk(Release(s, k).mapInfo, Release(s, k).newTable)
    ensures 0 < s.mapInfo[s.newTable[k]].nRefCount
  {
    var s' := Release(s, k);
    forall j | j in s'.mapInfo
      ensures s'.mapInfo[j].nRefCount == |Held(s'.newTable, j)|
      ensures j == s.newTable[k] ==> 0 < s.mapInfo[j].nRefCount
    {
      SlotHeld(s.newTable, k, EMPTY, j);
    }
  }

  lemma ReleaseBounds(m: map<int, Info>, id: int, loose: set<int>)
    requires id in m && !m[id].fInTried && 0 < m[id].nRefCount && BoundsOk(m, loose)
    ensures id !in loose
    ensures var m' := m[id := m[id].(nRefCount := m[id].nRefCount - 1)];
            BoundsOk(m', if m'[id].nRefCount == 0 then loose + {id} else loose)
  {
  }

  lemma SlotHolder(env: Env, key: Key, m: map<int, Info>, newTable: seq<int>, k: nat)
    requires NewSlotsOk(env, key, m, newTable) && k < NEW_SLOTS
    ensures |newTable| == NEW_SLOTS
    ensures newTable[k] != EMPTY ==>
              && newTable[k] in m && !m[newTable[k]].fInTried
              && k == NewSlot(env, key, m[newTable[k]].addr.service, k / 64)
  {
  }

  // Changing one slot of the new table, to EMPTY or to an entry whose place it is.
  lemma SlotChange(env: Env, key: Key, m: map<int, Info>, newTable: seq<int>, k: nat, id: int)
    requires NewSlotsOk(env, key, m, newTable) && k < NEW_SLOTS
    requires id != EMPTY ==> id in m && !m[id].fInTried && k == NewSlot(env, key, m[id].addr.service, k / 64)
    ensures NewSlotsOk(env, key, m, newTable[k := id])
  {
  }

  lemma ReleaseOk(env: Env, s: State, k: nat, loose: set<int>, uncounted: set<int>)
    requires Indexed(env, s, loose, uncounted)
    requires k < NEW_SLOTS && s.newTable[k] != EMPTY
    ensures var id := s.newTable[k];
            var s' := Release(s, k);
            && id !in loose && 0 < s.mapInfo[id].nRefCount
            && Indexed(env, s', if s'.mapInfo[id].nRefCount == 0 then loose + {id} else loose, uncounted)
            && (TimesOk(s.mapInfo) ==> TimesOk(s'.mapInfo))
  {
    SlotHolder(env, s.nKey, s.mapInfo, s.newTable, k);
    hide RandomOk, AddrOk, NewSlotsOk, RefCountsOk, TriedOk, BoundsOk, TimesOk, NewIds, TriedIds, SamePlaces;
    var id := s.newTable[k];
    var s' := Release(s, k);
    RefKeepsRest(env, s, id, s.mapInfo[id].nRefCount - 1);
    ReleaseRefs(env, s, k);
    ReleaseBounds(s.mapInfo, id, loose);
    SlotChange(env, s.nKey, s'.mapInfo, s.newTable, k, EMPTY);
  }

  lemma TakeRefs(env: Env, s: State, id: int, k: nat)
    requires NewSlotsOk(env, s.nKey, s.mapInfo, s.newTable) && RefCountsOk(s.mapInfo, s.newTable)
    requires k < NEW_SLOTS && s.newTable[k] == EMPTY && EMPTY !in s.mapInfo
    requires id in s.mapInfo && k == NewSlot(env, s.nKey, s.mapInfo[id].addr.service, k / 64)
    ensures RefCountsOk(TakeSlot(s, id, k).mapInfo, TakeSlot(s, id, k).newTable)
  {
    var s' := TakeSlot(s, id, k);
    forall j | j in s'.mapInfo
      ensures s'.mapInfo[j].nRefCount == |Held(s'.newTable, j)|
    {
      SlotHeld(s.newTable, k, id, j);
    }
  }

  lemma TakeBounds(m: map<int, Info>, id: int, loose: set<int>)
    requires id in m && !m[id].fInTried && m[id].nRefCount < NEW_BUCKETS_PER_ADDRESS && BoundsOk(m, loose)
    ensures BoundsOk(m[id := m[id].(nRefCount := m[id].nRefCount + 1)], loose - {id})
  {
  }

  lemma TakeSlotOk(env: Env, s: State, id: int, k: nat, loose: set<int>, uncounted: set<int>)
    requires Indexed(env, s, loose, uncounted)
    requires k < NEW_SLOTS && s.newTable[k] == EMPTY
    requires id in s.mapInfo && !s.mapInfo[id].fInTried && id !in uncounted
    requires s.mapInfo[id].nRefCount < NEW_BUCKETS_PER_ADDRESS
    requires k == NewSlot(env, s.nKey, s.mapInfo[id].addr.service, k / 64)
    ensures Indexed(env, TakeSlot(s, id, k), loose - {id}, uncounted)
    ensures TimesOk(s.mapInfo) ==> TimesOk(TakeSlot(s, id, k).mapInfo)
  {
    SlotHolder(env, s.nKey, s.mapInfo, s.newTable, k);
    hide RandomOk, AddrOk, NewSlotsOk, RefCountsOk, TriedOk, BoundsOk, TimesOk, NewIds, TriedIds, SamePlaces;
    var s' := TakeSlot(s, id, k);
    RefKeepsRest(env, s, id, s.mapInfo[id].nRefCount + 1);
    TakeRefs(env, s, id, k);
    TakeBounds(s.mapInfo, id, loose);
    SlotChange(env, s.nKey, s'.mapInfo, s.newTable, k, id);
  }

  // The entry that ClearNew throws out altogether, if any.
  ghost function Displaced(s: State, k: nat): set<int>
    requires k < |s.newTable|
    requires s.newTable[k] != EMPTY ==> s.newTable[k] in s.mapInfo
  {
    if s.newTable[k] != EMPTY && s.mapInfo[s.newTable[k]].nRefCount == 1 then {s.newTable[k]} else {}
  }

  lemma HolderKnown(env: Env, s: State, k: nat, loose: set<int>, uncounted: set<int>)
    requires Indexed(env, s, loose, uncounted) && k < NEW_SLOTS
    ensures |s.newTable| == NEW_SLOTS && RandomOk(s.mapInfo, s.vRandom) && uncounted <= loose
    ensures s.newTable[k] != EMPTY ==> s.newTable[k] in s.mapInfo
  {
    hide AddrOk, RefCountsOk, TriedOk, BoundsOk, NewIds, TriedIds;
    SlotHolder(env, s.nKey, s.mapInfo, s.newTable, k);
  }

  lemma ClearNewOk(env: Env, s: State, k: nat, loose: set<int>, uncounted: set<int>)
    requires Indexed(env, s, loose, uncounted) && k < NEW_SLOTS
    ensures Indexed(env, ClearNew(s, k), loose, uncounted)
    ensures TimesOk(s.mapInfo) ==> TimesOk(ClearNew(s, k).mapInfo)
  {
    hide Indexed, RandomOk, TimesOk, Delete;
    HolderKnown(env, s, k, loose, uncounted);
    if s.newTable[k] != EMPTY {
      var id := s.newTable[k];
      ReleaseOk(env, s, k, loose, uncounted);
      var s1 := Release(s, k);
      if s1.mapInfo[id].nRefCount == 0 {
        DeleteOk(env, s1, id, loose + {id}, uncounted);
        assert loose + {id} - {id} == loose;
      }
    }
  }

  // What ClearNew changes and what it leaves alone.
  lemma ClearNewEffect(s: State, k: nat)
    requires k < |s.newTable|
    requires s.newTable[k] != EMPTY ==> s.newTable[k] in s.mapInfo
    requires RandomOk(s.mapInfo, s.vRandom) && EMPTY !in s.mapInfo
    ensures var s' := ClearNew(s, k);
            && s'.newTable == s.newTable[k := EMPTY]
            && s'.triedTable == s.triedTable && s'.nTried == s.nTried
            && s'.nKey == s.nKey && s'.nIdCount == s.nIdCount
            && s'.nNew == s.nNew - |Displaced(s, k)|
            && s'.mapInfo.Keys == s.mapInfo.Keys - Displaced(s, k)
            && forall id :: id in s'.mapInfo ==> s'.mapInfo[id] == Shifted(s, k, id, s'.mapInfo[id].nRandomPos)
  {
    if s.newTable[k] != EMPTY {
      var s1 := Release(s, k);
      assert RandomOk(s1.mapInfo, s1.vRandom);
      if s1.mapInfo[s.newTable[k]].nRefCount == 0 {
        DeleteRandom(s1, s.newTable[k]);
        hide RandomOk;
      }
    } else {
      assert s.newTable[k := EMPTY] == s.newTable;
    }
  }

  // An entry after ClearNew: one reference less if it held the slot, perhaps moved in vRandom.
  ghost function Shifted(s: State, k: nat, id: int, pos: int): Info
    requires k < |s.newTable| && id in s.mapInfo
  {
    s.mapInfo[id].(nRandomPos := pos,
                   nRefCount := s.mapInfo[id].nRefCount - if s.newTable[k] == id then 1 else 0)
  }

  // ----- Create

  lemma CreateKeepsSlots(env: Env, s: State, addr: Address, source: NetAddr)
    requires s.nIdCount !in s.mapInfo && 0 <= s.nIdCount
    requires NewSlotsOk(env, s.nKey, s.mapInfo, s.newTable) && RefCountsOk(s.mapInfo, s.newTable)
    requires TriedOk(env, s.nKey, s.mapInfo, s.triedTable)
    ensures var m' := Create(s, addr, source).mapInfo;
            && NewSlotsOk(env, s.nKey, m', s.newTable) && RefCountsOk(m', s.newTable)
            && TriedOk(env, s.nKey, m', s.triedTable)
  {
    assert Held(s.newTable, s.nIdCount) == {};
  }

  lemma CreateKeepsIds(s: State, addr: Address, source: NetAddr, loose: set<int>)
    requires s.nIdCount !in s.mapInfo
    ensures var m' := Create(s, addr, source).mapInfo;
            && NewIds(m') == NewIds(s.mapInfo) + {s.nIdCount} && s.nIdCount !in NewIds(s.mapInfo)
            && TriedIds(m') == TriedIds(s.mapInfo)
            && (BoundsOk(s.mapInfo, loose) ==> BoundsOk(m', loose + {s.nIdCount}))
  {
    var m' := Create(s, addr, source).mapInfo;
    forall j ensures j in NewIds(m') <==> j in NewIds(s.mapInfo) + {s.nIdCount} {}
    forall j ensures j in TriedIds(m') <==> j in TriedIds(s.mapInfo) {}
  }

  lemma CreateKeepsIndexes(s: State, addr: Address, source: NetAddr)
    requires s.nIdCount !in s.mapInfo && addr.service.ip !in s.mapAddr
    requires RandomOk(s.mapInfo, s.vRandom) && AddrOk(s.mapInfo, s.mapAddr)
    ensures var s' := Create(s, addr, source);
            && RandomOk(s'.mapInfo, s'.vRandom) && AddrOk(s'.mapInfo, s'.mapAddr)
            && (TimesOk(s.mapInfo) ==> TimesOk(s'.mapInfo))
  {
  }

  lemma CreateOk(env: Env, s: State, addr: Address, source: NetAddr, loose: set<int>, uncounted: set<int>)
    requires Indexed(env, s, loose, uncounted)
    requires addr.service.ip !in s.mapAddr
    ensures var s' := Create(s, addr, source);
            Indexed(env, s'.(nNew := s'.nNew + 1), loose + {s.nIdCount}, uncounted)
    ensures TimesOk(s.mapInfo) ==> TimesOk(Create(s, addr, source).mapInfo)
  {
    hide NewSlotsOk, RefCountsOk, TriedOk, BoundsOk, RandomOk, AddrOk, NewIds, TriedIds, TimesOk;
    CreateKeepsSlots(env, s, addr, source);
    CreateKeepsIds(s, addr, source, loose);
    CreateKeepsIndexes(s, addr, source);
  }
}
