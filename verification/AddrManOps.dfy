// The public operations of the address manager as functions on the state, the proof that
// each keeps the consistency condition, and what each does to the tables.
module AddrManOps {
  import opened AddrManState
  import opened AddrManProofs

  const GETADDR_MAX_PCT := 23
  const GETADDR_MAX := 2500

  // ----- MarkTried, in three moves

  // Every slot of the new table that holds id is emptied.
  function Scrub(newTable: seq<int>, id: int): seq<int> {
    seq(|newTable|, k requires 0 <= k < |newTable| => if newTable[k] == id then EMPTY else newTable[k])
  }

  function Unlist(s: State, id: int): State
    requires id in s.mapInfo
  {
    SetRefCount(s, id, 0).(newTable := Scrub(s.newTable, id), nNew := s.nNew - 1)
  }

  function Evict(s: State, k: nat): State
    requires k < |s.triedTable| && s.triedTable[k] in s.mapInfo
  {
    var ev := s.triedTable[k];
    s.(mapInfo := s.mapInfo[ev := s.mapInfo[ev].(fInTried := false)],
       triedTable := s.triedTable[k := EMPTY],
       nTried := s.nTried - 1)
  }

  // The new slot an entry goes back to when it is evicted: the one of its own source.
  function HomeSlot(env: Env, s: State, id: int): (k: nat)
    requires id in s.mapInfo
    ensures k < NEW_SLOTS
    ensures k == NewSlot(env, s.nKey, s.mapInfo[id].addr.service, k / 64)
  {
    var service := s.mapInfo[id].addr.service;
    NewSlot(env, s.nKey, service, GetNewBucket(env, s.nKey, service, s.mapInfo[id].source))
  }

  ghost predicate CanReadmit(env: Env, s: State, ev: int) {
    && ev in s.mapInfo && EMPTY !in s.mapInfo && RandomOk(s.mapInfo, s.vRandom)
    && |s.newTable| == NEW_SLOTS && s.newTable[HomeSlot(env, s, ev)] != ev
    && (s.newTable[HomeSlot(env, s, ev)] != EMPTY ==> s.newTable[HomeSlot(env, s, ev)] in s.mapInfo)
  }

  ghost function Readmit(env: Env, s: State, ev: int): State
    requires CanReadmit(env, s, ev)
  {
    var us := HomeSlot(env, s, ev);
    var s1 := ClearNew(s, us);
    ClearNewEffect(s, us);
    TakeSlot(s1.(nNew := s1.nNew + 1), ev, us)
  }

  function Enlist(s: State, id: int, k: nat): State
    requires k < |s.triedTable| && id in s.mapInfo
  {
    s.(mapInfo := s.mapInfo[id := s.mapInfo[id].(fInTried := true)],
       triedTable := s.triedTable[k := id],
       nTried := s.nTried + 1)
  }

  lemma ScrubbedHeld(newTable: seq<int>, id: int, j: int)
    requires id != EMPTY && j != EMPTY
    ensures Held(Scrub(newTable, id), j) == if j == id then {} else Held(newTable, j)
  {
    if j == id {
      assert Held(Scrub(newTable, id), j) == {};
    } else {
      assert Held(Scrub(newTable, id), j) == Held(newTable, j);
    }
  }

  lemma UnlistSlots(env: Env, s: State, id: int)
    requires id in s.mapInfo && EMPTY !in s.mapInfo
    requires NewSlotsOk(env, s.nKey, s.mapInfo, s.newTable) && RefCountsOk(s.mapInfo, s.newTable)
    ensures var s' := Unlist(s, id);
            NewSlotsOk(env, s.nKey, s'.mapInfo, s'.newTable) && RefCountsOk(s'.mapInfo, s'.newTable)
  {
    var s' := Unlist(s, id);
    forall j | j in s'.mapInfo
      ensures s'.mapInfo[j].nRefCount == |Held(s'.newTable, j)|
    {
      ScrubbedHeld(s.newTable, id, j);
    }
  }

  lemma UnlistBounds(m: map<int, Info>, id: int)
    requires id in m && !m[id].fInTried && BoundsOk(m, {})
    ensures BoundsOk(m[id := m[id].(nRefCount := 0)], {id})
    ensures id in NewIds(m)
  {
  }

  lemma UnlistOk(env: Env, s: State, id: int)
    requires Indexed(env, s, {}, {}) && id in s.mapInfo && !s.mapInfo[id].fInTried
    ensures Indexed(env, Unlist(s, id), {id}, {id})
    ensures TimesOk(s.mapInfo) ==> TimesOk(Unlist(s, id).mapInfo)
  {
    hide RandomOk, AddrOk, NewSlotsOk, RefCountsOk, TriedOk, BoundsOk, TimesOk, NewIds, TriedIds, SamePlaces;
    RefKeepsRest(env, s, id, 0);
    UnlistSlots(env, s, id);
    UnlistBounds(s.mapInfo, id);
  }

  lemma EvictSlots(env: Env, s: State, k: nat)
    requires NewSlotsOk(env, s.nKey, s.mapInfo, s.newTable) && RefCountsOk(s.mapInfo, s.newTable)
    requires TriedOk(env, s.nKey, s.mapInfo, s.triedTable) && k < TRIED_SLOTS && s.triedTable[k] != EMPTY
    ensures |s.triedTable| == TRIED_SLOTS
    ensures s.triedTable[k] in s.mapInfo && s.mapInfo[s.triedTable[k]].fInTried
    ensures s.mapInfo[s.triedTable[k]].nRefCount == 0
    ensures var s' := Evict(s, k);
            && NewSlotsOk(env, s.nKey, s'.mapInfo, s'.newTable) && RefCountsOk(s'.mapInfo, s'.newTable)
            && TriedOk(env, s.nKey, s'.mapInfo, s'.triedTable)
  {
    var ev := s.triedTable[k];
    assert Held(s.newTable, ev) == {};
  }

  lemma EvictRest(s: State, k: nat)
    requires k < |s.triedTable| && s.triedTable[k] in s.mapInfo && s.mapInfo[s.triedTable[k]].fInTried
    requires RandomOk(s.mapInfo, s.vRandom) && AddrOk(s.mapInfo, s.mapAddr)
    ensures var m' := Evict(s, k).mapInfo;
            && RandomOk(m', s.vRandom) && AddrOk(m', s.mapAddr)
            && s.triedTable[k] !in NewIds(s.mapInfo) && s.triedTable[k] in TriedIds(s.mapInfo)
            && NewIds(m') == NewIds(s.mapInfo) + {s.triedTable[k]}
            && TriedIds(m') == TriedIds(s.mapInfo) - {s.triedTable[k]}
            && (TimesOk(s.mapInfo) ==> TimesOk(m'))
  {
    var ev := s.triedTable[k];
    var m' := Evict(s, k).mapInfo;
    forall j ensures j in NewIds(m') <==> j in NewIds(s.mapInfo) + {ev} {}
    forall j ensures j in TriedIds(m') <==> j in TriedIds(s.mapInfo) - {ev} {}
  }

  lemma EvictBounds(m: map<int, Info>, ev: int, loose: set<int>)
    requires ev in m && m[ev].fInTried && m[ev].nRefCount == 0 && BoundsOk(m, loose)
    ensures ev !in loose
    ensures BoundsOk(m[ev := m[ev].(fInTried := false)], loose + {ev})
  {
  }

  lemma EvictOk(env: Env, s: State, k: nat, loose: set<int>, uncounted: set<int>)
    requires Indexed(env, s, loose, uncounted) && k < TRIED_SLOTS && s.triedTable[k] != EMPTY
    ensures s.triedTable[k] in s.mapInfo && s.triedTable[k] !in loose
    ensures Indexed(env, Evict(s, k), loose + {s.triedTable[k]}, uncounted + {s.triedTable[k]})
    ensures TimesOk(s.mapInfo) ==> TimesOk(Evict(s, k).mapInfo)
  {
    hide RandomOk, AddrOk, NewSlotsOk, RefCountsOk, TriedOk, BoundsOk, TimesOk, NewIds, TriedIds;
    EvictSlots(env, s, k);
    EvictRest(s, k);
    EvictBounds(s.mapInfo, s.triedTable[k], loose);
  }

  lemma LooseHoldsNothing(env: Env, s: State, id: int, loose: set<int>, uncounted: set<int>, k: nat)
    requires Indexed(env, s, loose, uncounted) && id in loose && k < NEW_SLOTS
    ensures s.newTable[k] != id
  {
    hide RandomOk, AddrOk, TriedOk, TimesOk, NewIds, TriedIds;
    if s.newTable[k] == id {
      ReleaseOk(env, s, k, loose, uncounted);
      assert false;
    }
  }

  lemma KnownSlots(env: Env, s: State, loose: set<int>, uncounted: set<int>)
    requires Indexed(env, s, loose, uncounted)
    ensures |s.newTable| == NEW_SLOTS && |s.triedTable| == TRIED_SLOTS && EMPTY !in s.mapInfo
    ensures forall k :: 0 <= k < NEW_SLOTS && s.newTable[k] != EMPTY ==> s.newTable[k] in s.mapInfo
    ensures forall k :: 0 <= k < TRIED_SLOTS && s.triedTable[k] != EMPTY ==>
              s.triedTable[k] in s.mapInfo && s.mapInfo[s.triedTable[k]].fInTried
    ensures loose <= s.mapInfo.Keys
    ensures forall id :: id in loose ==> !s.mapInfo[id].fInTried && s.mapInfo[id].nRefCount == 0
  {
    hide RandomOk, AddrOk, RefCountsOk, TimesOk, NewIds, TriedIds;
  }

  ghost predicate CanClear(s: State, k: nat) {
    && k < |s.newTable| && RandomOk(s.mapInfo, s.vRandom)
    && (s.newTable[k] != EMPTY ==>
          && s.newTable[k] in s.mapInfo && !s.mapInfo[s.newTable[k]].fInTried
          && 0 < s.mapInfo[s.newTable[k]].nRefCount
          && RandomOk(Release(s, k).mapInfo, s.vRandom))
  }

  // The assertions inside ClearNew and Delete hold.
  lemma KnownCanClear(env: Env, s: State, k: nat, loose: set<int>, uncounted: set<int>)
    requires Indexed(env, s, loose, uncounted) && k < NEW_SLOTS
    ensures CanClear(s, k)
  {
    hide AddrOk, TriedOk, TimesOk, NewIds, TriedIds;
    if s.newTable[k] != EMPTY {
      ReleaseOk(env, s, k, loose, uncounted);
    }
  }

  lemma SlotsKnown(env: Env, s: State, loose: set<int>, uncounted: set<int>)
    requires Indexed(env, s, loose, uncounted)
    ensures NewSlotsOk(env, s.nKey, s.mapInfo, s.newTable) && RefCountsOk(s.mapInfo, s.newTable)
    ensures RandomOk(s.mapInfo, s.vRandom)
  {
  }

  lemma AddrKnown(env: Env, s: State)
    requires Indexed(env, s, {}, {})
    ensures AddrOk(s.mapInfo, s.mapAddr)
  {
  }

  lemma TriedKnown(env: Env, s: State)
    requires Indexed(env, s, {}, {})
    ensures TriedOk(env, s.nKey, s.mapInfo, s.triedTable)
  {
  }

  lemma TriedUnreferenced(env: Env, s: State, id: int)
    requires Indexed(env, s, {}, {}) && id in s.mapInfo && s.mapInfo[id].fInTried
    ensures s.mapInfo[id].nRefCount == 0
  {
    assert Held(s.newTable, id) == {};
  }

  lemma BoundOf(env: Env, s: State, id: int)
    requires Indexed(env, s, {}, {}) && id in s.mapInfo
    ensures 0 <= s.mapInfo[id].nRefCount <= NEW_BUCKETS_PER_ADDRESS
    ensures s.mapInfo[id].fInTried || 1 <= s.mapInfo[id].nRefCount
  {
  }

  lemma RefCountOf(env: Env, s: State, id: int, loose: set<int>, uncounted: set<int>)
    requires Indexed(env, s, loose, uncounted) && id in s.mapInfo
    ensures |s.newTable| == NEW_SLOTS
    ensures s.mapInfo[id].nRefCount == |Held(s.newTable, id)|
  {
  }

  lemma ReadmitOk(env: Env, s: State, ev: int, loose: set<int>, uncounted: set<int>)
    requires Indexed(env, s, loose, uncounted) && ev in uncounted
    ensures CanReadmit(env, s, ev) && s.newTable[HomeSlot(env, s, ev)] !in loose
    ensures Indexed(env, Readmit(env, s, ev), loose - {ev}, uncounted - {ev})
    ensures TimesOk(s.mapInfo) ==> TimesOk(Readmit(env, s, ev).mapInfo)
  {
    hide RandomOk, AddrOk, NewSlotsOk, RefCountsOk, TriedOk, BoundsOk, TimesOk, NewIds, TriedIds, ClearNew;
    KnownSlots(env, s, loose, uncounted);
    var us := HomeSlot(env, s, ev);
    LooseHoldsNothing(env, s, ev, loose, uncounted, us);
    if s.newTable[us] in loose {
      LooseHoldsNothing(env, s, s.newTable[us], loose, uncounted, us);
    }
    ClearNewOk(env, s, us, loose, uncounted);
    ClearNewEffect(s, us);
    var s1 := ClearNew(s, us);
    assert ev in s1.mapInfo.Keys;
    var s2 := s1.(nNew := s1.nNew + 1);
    assert Indexed(env, s2, loose, uncounted - {ev});
    TakeSlotOk(env, s2, ev, us, loose, uncounted - {ev});
  }

  lemma EnlistSlots(env: Env, s: State, id: int, k: nat)
    requires NewSlotsOk(env, s.nKey, s.mapInfo, s.newTable) && RefCountsOk(s.mapInfo, s.newTable)
    requires TriedOk(env, s.nKey, s.mapInfo, s.triedTable) && k < TRIED_SLOTS && s.triedTable[k] == EMPTY
    requires id in s.mapInfo && EMPTY !in s.mapInfo && !s.mapInfo[id].fInTried && s.mapInfo[id].nRefCount == 0
    requires k == TriedSlot(env, s.nKey, s.mapInfo[id].addr.service)
    ensures var s' := Enlist(s, id, k);
            && NewSlotsOk(env, s.nKey, s'.mapInfo, s'.newTable) && RefCountsOk(s'.mapInfo, s'.newTable)
            && TriedOk(env, s.nKey, s'.mapInfo, s'.triedTable)
  {
    assert Held(s.newTable, id) == {};
    forall j | 0 <= j < NEW_SLOTS && s.newTable[j] != EMPTY
      ensures s.newTable[j] != id
    {
      assert j !in Held(s.newTable, id);
    }
  }

  lemma EnlistRest(s: State, id: int, k: nat)
    requires id in s.mapInfo && !s.mapInfo[id].fInTried && k < |s.triedTable|
    requires RandomOk(s.mapInfo, s.vRandom) && AddrOk(s.mapInfo, s.mapAddr)
    ensures var m' := Enlist(s, id, k).mapInfo;
            && RandomOk(m', s.vRandom) && AddrOk(m', s.mapAddr)
            && id in NewIds(s.mapInfo) && id !in TriedIds(s.mapInfo)
            && NewIds(m') == NewIds(s.mapInfo) - {id}
            && TriedIds(m') == TriedIds(s.mapInfo) + {id}
            && (TimesOk(s.mapInfo) && 0 < s.mapInfo[id].nLastSuccess ==> TimesOk(m'))
  {
    var m' := Enlist(s, id, k).mapInfo;
    forall j ensures j in NewIds(m') <==> j in NewIds(s.mapInfo) - {id} {}
    forall j ensures j in TriedIds(m') <==> j in TriedIds(s.mapInfo) + {id} {}
  }

  lemma EnlistBounds(m: map<int, Info>, id: int, loose: set<int>)
    requires id in loose && BoundsOk(m, loose)
    ensures BoundsOk(m[id := m[id].(fInTried := true)], loose - {id})
  {
  }

  lemma EnlistOk(env: Env, s: State, id: int, k: nat, loose: set<int>, uncounted: set<int>)
    requires Indexed(env, s, loose, uncounted) && id in uncounted
    requires k < TRIED_SLOTS && s.triedTable[k] == EMPTY
    requires id in s.mapInfo && k == TriedSlot(env, s.nKey, s.mapInfo[id].addr.service)
    ensures Indexed(env, Enlist(s, id, k), loose - {id}, uncounted - {id})
    ensures TimesOk(s.mapInfo) && 0 < s.mapInfo[id].nLastSuccess ==> TimesOk(Enlist(s, id, k).mapInfo)
  {
    KnownSlots(env, s, loose, uncounted);
    hide RandomOk, AddrOk, NewSlotsOk, RefCountsOk, TriedOk, BoundsOk, TimesOk, NewIds, TriedIds;
    EnlistSlots(env, s, id, k);
    EnlistRest(s, id, k);
    EnlistBounds(s.mapInfo, id, loose);
  }

  lemma EvictedReadmits(env: Env, s: State, id: int)
    requires Indexed(env, s, {id}, {id}) && id in s.mapInfo
    ensures var k := TriedSlot(env, s.nKey, s.mapInfo[id].addr.service);
            && |s.triedTable| == TRIED_SLOTS
            && (s.triedTable[k] != EMPTY ==>
                  s.triedTable[k] in s.mapInfo && CanReadmit(env, Evict(s, k), s.triedTable[k]))
  {
    hide RandomOk, AddrOk, NewSlotsOk, RefCountsOk, TriedOk, BoundsOk, TimesOk, NewIds, TriedIds, Indexed, CanReadmit;
    KnownSlots(env, s, {id}, {id});
    var k := TriedSlot(env, s.nKey, s.mapInfo[id].addr.service);
    if s.triedTable[k] != EMPTY {
      EvictOk(env, s, k, {id}, {id});
      ReadmitOk(env, Evict(s, k), s.triedTable[k], {id} + {s.triedTable[k]}, {id} + {s.triedTable[k]});
    }
  }

  // The tried slot of an entry is looked up first; whoever is there goes back to new.
  ghost function MakeRoom(env: Env, s: State, id: int): State
    requires Indexed(env, s, {id}, {id}) && id in s.mapInfo
  {
    var k := TriedSlot(env, s.nKey, s.mapInfo[id].addr.service);
    KnownSlots(env, s, {id}, {id});
    if s.triedTable[k] == EMPTY then s
    else
      EvictedReadmits(env, s, id);
      Readmit(env, Evict(s, k), s.triedTable[k])
  }

  lemma MakeRoomOk(env: Env, s: State, id: int)
    requires Indexed(env, s, {id}, {id}) && id in s.mapInfo
    ensures var s' := MakeRoom(env, s, id);
            && Indexed(env, s', {id}, {id})
            && (TimesOk(s.mapInfo) ==> TimesOk(s'.mapInfo))
            && s'.nKey == s.nKey
            && id in s'.mapInfo && s'.mapInfo[id] == s.mapInfo[id].(nRandomPos := s'.mapInfo[id].nRandomPos)
            && s'.triedTable == s.triedTable[TriedSlot(env, s.nKey, s.mapInfo[id].addr.service) := EMPTY]
  {
    hide RandomOk, AddrOk, NewSlotsOk, RefCountsOk, TriedOk, BoundsOk, TimesOk, NewIds, TriedIds, Indexed;
    var k := TriedSlot(env, s.nKey, s.mapInfo[id].addr.service);
    KnownSlots(env, s, {id}, {id});
    if s.triedTable[k] == EMPTY {
      assert s.triedTable[k := EMPTY] == s.triedTable;
    } else {
      var ev := s.triedTable[k];
      var both := {id, ev};
      EvictOk(env, s, k, {id}, {id});
      assert {id} + {ev} == both && both - {ev} == {id};
      var s1 := Evict(s, k);
      ReadmitOk(env, s1, ev, both, both);
      ReadmitEffect(env, s1, ev, both, both, id);
    }
  }

  lemma ReadmitEffect(env: Env, s: State, ev: int, loose: set<int>, uncounted: set<int>, j: int)
    requires Indexed(env, s, loose, uncounted) && ev in uncounted
    requires j in s.mapInfo && (|s.newTable| == NEW_SLOTS ==> s.newTable[HomeSlot(env, s, ev)] != j)
    ensures CanReadmit(env, s, ev)
    ensures var s' := Readmit(env, s, ev);
            && s'.nKey == s.nKey && s'.triedTable == s.triedTable && s'.nTried == s.nTried
            && s'.newTable == s.newTable[HomeSlot(env, s, ev) := ev]
            && s'.mapInfo.Keys == s.mapInfo.Keys - Displaced(s, HomeSlot(env, s, ev))
            && s'.nNew == s.nNew + 1 - |Displaced(s, HomeSlot(env, s, ev))|
            && j in s'.mapInfo
            && s'.mapInfo[j] == s.mapInfo[j].(nRandomPos := s'.mapInfo[j].nRandomPos,
                                              nRefCount := if j == ev then 1 else s.mapInfo[j].nRefCount)
  {
    hide RandomOk, AddrOk, NewSlotsOk, RefCountsOk, TriedOk, BoundsOk, TimesOk, NewIds, TriedIds, ClearNew;
    KnownSlots(env, s, loose, uncounted);
    ReadmitOk(env, s, ev, loose, uncounted);
    var us := HomeSlot(env, s, ev);
    ClearNewEffect(s, us);
    var s1 := ClearNew(s, us);
    assert ev in s1.mapInfo.Keys && j in s1.mapInfo.Keys;
  }

  ghost function MarkTried(env: Env, s: State, id: int): State
    requires Indexed(env, s, {}, {}) && id in s.mapInfo && !s.mapInfo[id].fInTried
  {
    UnlistOk(env, s, id);
    MakeRoomOk(env, Unlist(s, id), id);
    KnownSlots(env, MakeRoom(env, Unlist(s, id), id), {id}, {id});
    Enlist(MakeRoom(env, Unlist(s, id), id), id, TriedSlot(env, s.nKey, s.mapInfo[id].addr.service))
  }

  lemma MarkTriedOk(env: Env, s: State, id: int)
    requires Indexed(env, s, {}, {}) && id in s.mapInfo && !s.mapInfo[id].fInTried
    ensures Indexed(env, MarkTried(env, s, id), {}, {})
    ensures TimesOk(s.mapInfo) && 0 < s.mapInfo[id].nLastSuccess ==> TimesOk(MarkTried(env, s, id).mapInfo)
  {
    hide RandomOk, AddrOk, NewSlotsOk, RefCountsOk, TriedOk, BoundsOk, TimesOk, NewIds, TriedIds, Indexed, MakeRoom;
    UnlistOk(env, s, id);
    var s1 := Unlist(s, id);
    MakeRoomOk(env, s1, id);
    var s2 := MakeRoom(env, s1, id);
    KnownSlots(env, s2, {id}, {id});
    KnownSlots(env, s, {}, {});
    var k := TriedSlot(env, s.nKey, s.mapInfo[id].addr.service);
    assert s2.triedTable[k] == EMPTY;
    EnlistOk(env, s2, id, k, {id}, {id});
    assert {id} - {id} == {};
  }
}
