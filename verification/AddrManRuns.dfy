// The public operations of the address manager and every run of them.
module AddrManRuns {
  import Bits
  import ServiceBits
  import opened AddrManState
  import opened AddrManProofs
  import opened AddrManOps

  function Update(s: State, id: int, info: Info): State
    requires id in s.mapInfo
  {
    s.(mapInfo := s.mapInfo[id := info])
  }

  // Changing only the statistics of an entry: its place and its references stay.
  lemma StatsFrame(env: Env, s: State, id: int, info: Info)
    requires Indexed(env, s, {}, {}) && id in s.mapInfo
    requires info.addr.service == s.mapInfo[id].addr.service && info.source == s.mapInfo[id].source
    requires info.nRefCount == s.mapInfo[id].nRefCount && info.nRandomPos == s.mapInfo[id].nRandomPos
    requires info.fInTried == s.mapInfo[id].fInTried
    ensures Indexed(env, Update(s, id, info), {}, {})
  {
    var m' := Update(s, id, info).mapInfo;
    StatsKeepIds(s.mapInfo, id, info);
    StatsKeepSlots(env, s, id, info);
    StatsKeepRest(s, id, info);
    hide RandomOk, AddrOk, NewSlotsOk, RefCountsOk, TriedOk, BoundsOk, NewIds, TriedIds;
  }

  lemma StatsKeepIds(m: map<int, Info>, id: int, info: Info)
    requires id in m && info.fInTried == m[id].fInTried
    ensures NewIds(m[id := info]) == NewIds(m) && TriedIds(m[id := info]) == TriedIds(m)
  {
    forall j ensures j in NewIds(m[id := info]) <==> j in NewIds(m) {}
    forall j ensures j in TriedIds(m[id := info]) <==> j in TriedIds(m) {}
  }

  lemma StatsKeepSlots(env: Env, s: State, id: int, info: Info)
    requires id in s.mapInfo && info.addr.service == s.mapInfo[id].addr.service
    requires info.nRefCount == s.mapInfo[id].nRefCount && info.fInTried == s.mapInfo[id].fInTried
    requires NewSlotsOk(env, s.nKey, s.mapInfo, s.newTable) && RefCountsOk(s.mapInfo, s.newTable)
    requires TriedOk(env, s.nKey, s.mapInfo, s.triedTable)
    ensures var m' := s.mapInfo[id := info];
            && NewSlotsOk(env, s.nKey, m', s.newTable) && RefCountsOk(m', s.newTable)
            && TriedOk(env, s.nKey, m', s.triedTable)
  {
  }

  lemma StatsKeepRest(s: State, id: int, info: Info)
    requires id in s.mapInfo && info.addr.service == s.mapInfo[id].addr.service
    requires info.nRefCount == s.mapInfo[id].nRefCount && info.fInTried == s.mapInfo[id].fInTried
    requires info.nRandomPos == s.mapInfo[id].nRandomPos
    requires RandomOk(s.mapInfo, s.vRandom) && AddrOk(s.mapInfo, s.mapAddr) && BoundsOk(s.mapInfo, {})
    ensures var m' := s.mapInfo[id := info];
            RandomOk(m', s.vRandom) && AddrOk(m', s.mapAddr) && BoundsOk(m', {})
  {
  }

  // ----- Good, Attempt, Connected

  // The lookup by network address finds an entry with the very same port.
  predicate Known(s: State, service: Service) {
    && service.ip in s.mapAddr
    && s.mapAddr[service.ip] in s.mapInfo
    && s.mapInfo[s.mapAddr[service.ip]].addr.service == service
  }

  function Succeeded(info: Info, nTime: int): Info {
    info.(nLastSuccess := nTime, nLastTry := nTime, nAttempts := 0)
  }

  ghost function Good(env: Env, s: State, service: Service, nTime: int): State
    requires Indexed(env, s, {}, {})
  {
    if !Known(s, service) then s
    else
      var id := s.mapAddr[service.ip];
      var s1 := Update(s, id, Succeeded(s.mapInfo[id], nTime));
      StatsFrame(env, s, id, Succeeded(s.mapInfo[id], nTime));
      if s.mapInfo[id].fInTried then s1 else MarkTried(env, s1, id)
  }

  function Attempt(s: State, service: Service, nTime: int): State {
    if !Known(s, service) then s
    else
      var id := s.mapAddr[service.ip];
      Update(s, id, s.mapInfo[id].(nLastTry := nTime, nAttempts := s.mapInfo[id].nAttempts + 1))
  }

  function Connected(s: State, service: Service, nTime: int): State {
    if !Known(s, service) then s
    else
      var id := s.mapAddr[service.ip];
      var info := s.mapInfo[id];
      if nTime - info.addr.nTime > 20 * 60
      then Update(s, id, info.(addr := info.addr.(nTime := ToUint32(nTime))))
      else s
  }

  lemma GoodKeepsIndexes(env: Env, s: State, service: Service, nTime: int)
    requires Indexed(env, s, {}, {})
    ensures Indexed(env, Good(env, s, service, nTime), {}, {})
    ensures TimesOk(s.mapInfo) && 0 < nTime ==> TimesOk(Good(env, s, service, nTime).mapInfo)
  {
    hide Indexed, MarkTried;
    if Known(s, service) {
      var id := s.mapAddr[service.ip];
      var info := Succeeded(s.mapInfo[id], nTime);
      StatsFrame(env, s, id, info);
      if !info.fInTried {
        MarkTriedOk(env, Update(s, id, info), id);
      }
    }
  }

  lemma AttemptKeepsIndexes(env: Env, s: State, service: Service, nTime: int)
    requires Indexed(env, s, {}, {})
    ensures Indexed(env, Attempt(s, service, nTime), {}, {})
    ensures TimesOk(s.mapInfo) ==> (TimesOk(Attempt(s, service, nTime).mapInfo) <==> !Known(s, service) || 0 <= nTime)
  {
    hide Indexed;
    if Known(s, service) {
      var id := s.mapAddr[service.ip];
      var info := s.mapInfo[id].(nLastTry := nTime, nAttempts := s.mapInfo[id].nAttempts + 1);
      StatsFrame(env, s, id, info);
      assert Attempt(s, service, nTime).mapInfo[id].nLastTry == nTime;
    }
  }

  lemma ConnectedKeepsIndexes(env: Env, s: State, service: Service, nTime: int)
    requires Indexed(env, s, {}, {})
    ensures Indexed(env, Connected(s, service, nTime), {}, {})
    ensures TimesOk(s.mapInfo) ==> TimesOk(Connected(s, service, nTime).mapInfo)
  {
    hide Indexed;
    if Known(s, service) {
      var id := s.mapAddr[service.ip];
      var info := s.mapInfo[id];
      StatsFrame(env, s, id, info.(addr := info.addr.(nTime := ToUint32(nTime))));
    }
  }

  // ----- what MarkTried does to the tables

  // Who is pushed out of the tried table, and who in turn loses his last new slot to him.
  ghost function Evicted(env: Env, s: State, id: int): set<int>
    requires |s.triedTable| == TRIED_SLOTS && id in s.mapInfo
  {
    var ev := s.triedTable[TriedSlot(env, s.nKey, s.mapInfo[id].addr.service)];
    if ev == EMPTY then {} else {ev}
  }

  // The state right before the evicted entry is readmitted.
  ghost function AfterEviction(env: Env, s: State, id: int): State
    requires |s.triedTable| == TRIED_SLOTS && id in s.mapInfo
    requires forall ev :: ev in Evicted(env, s, id) ==> ev in s.mapInfo
  {
    var k := TriedSlot(env, s.nKey, s.mapInfo[id].addr.service);
    if s.triedTable[k] == EMPTY then Unlist(s, id) else Evict(Unlist(s, id), k)
  }

  lemma MarkTriedEffect(env: Env, s: State, id: int)
    requires Indexed(env, s, {}, {}) && id in s.mapInfo && !s.mapInfo[id].fInTried
    ensures |s.triedTable| == TRIED_SLOTS && |s.newTable| == NEW_SLOTS
    ensures var k := TriedSlot(env, s.nKey, s.mapInfo[id].addr.service);
            var s' := MarkTried(env, s, id);
            && s'.triedTable == s.triedTable[k := id]
            && (s.triedTable[k] == EMPTY ==>
                  && s'.newTable == Scrub(s.newTable, id)
                  && s'.mapInfo.Keys == s.mapInfo.Keys
                  && s'.nTried == s.nTried + 1 && s'.nNew == s.nNew - 1)
            && (s.triedTable[k] != EMPTY ==>
                  var ev := s.triedTable[k];
                  && ev in s.mapInfo
                  && s'.newTable == Scrub(s.newTable, id)[HomeSlot(env, s, ev) := ev]
                  && s'.nTried == s.nTried
                  && (var lost := s.mapInfo.Keys - s'.mapInfo.Keys;
                      && s'.mapInfo.Keys <= s.mapInfo.Keys && id !in lost && ev !in lost
                      && lost <= {Scrub(s.newTable, id)[HomeSlot(env, s, ev)]}
                      && s'.nNew == s.nNew - |lost|))
  {
    hide Indexed, MakeRoom, RandomOk, AddrOk, NewSlotsOk, RefCountsOk, TriedOk, BoundsOk, TimesOk, NewIds, TriedIds;
    KnownSlots(env, s, {}, {});
    UnlistOk(env, s, id);
    var s1 := Unlist(s, id);
    var k := TriedSlot(env, s.nKey, s.mapInfo[id].addr.service);
    MakeRoomOk(env, s1, id);
    MakeRoomTables(env, s1, id);
    var s' := MarkTried(env, s, id);
    if s.triedTable[k] != EMPTY {
      var ev := s.triedTable[k];
      assert s1.mapInfo[ev] == s.mapInfo[ev];
      assert HomeSlot(env, Evict(s1, k), ev) == HomeSlot(env, s, ev);
      var lost := Displaced(Evict(s1, k), HomeSlot(env, s, ev));
      assert lost <= s.mapInfo.Keys;
      assert s.mapInfo.Keys - s'.mapInfo.Keys == lost;
      assert s'.nNew == s.nNew - |lost|;
      assert s'.newTable == Scrub(s.newTable, id)[HomeSlot(env, s, ev) := ev];
    }
  }

  lemma MakeRoomTables(env: Env, s: State, id: int)
    requires Indexed(env, s, {id}, {id}) && id in s.mapInfo
    ensures |s.triedTable| == TRIED_SLOTS
    ensures var k := TriedSlot(env, s.nKey, s.mapInfo[id].addr.service);
            var s' := MakeRoom(env, s, id);
            && (s.triedTable[k] == EMPTY ==> s' == s)
            && (s.triedTable[k] != EMPTY ==>
                  && s.triedTable[k] in s.mapInfo && s.triedTable[k] != id
                  && CanReadmit(env, Evict(s, k), s.triedTable[k])
                  && (var us, s1 := HomeSlot(env, Evict(s, k), s.triedTable[k]), Evict(s, k);
                      && s'.newTable == s.newTable[us := s.triedTable[k]]
                      && s'.mapInfo.Keys == s.mapInfo.Keys - Displaced(s1, us)
                      && id !in Displaced(s1, us) && s.triedTable[k] !in Displaced(s1, us)
                      && Displaced(s1, us) <= {s.newTable[us]}
                      && s'.nTried == s.nTried - 1
                      && s'.nNew == s.nNew + 1 - |Displaced(s1, us)|))
  {
    hide Indexed, RandomOk, AddrOk, NewSlotsOk, RefCountsOk, TriedOk, BoundsOk, TimesOk, NewIds, TriedIds, Readmit;
    var k := TriedSlot(env, s.nKey, s.mapInfo[id].addr.service);
    KnownSlots(env, s, {id}, {id});
    if s.triedTable[k] != EMPTY {
      var ev := s.triedTable[k];
      EvictOk(env, s, k, {id}, {id});
      ReadmitOk(env, Evict(s, k), ev, {id} + {ev}, {id} + {ev});
      ReadmitEffect(env, Evict(s, k), ev, {id} + {ev}, {id} + {ev}, id);
    }
  }

  lemma MarkTriedSelf(env: Env, s: State, id: int)
    requires Indexed(env, s, {}, {}) && id in s.mapInfo && !s.mapInfo[id].fInTried
    ensures var s' := MarkTried(env, s, id);
            && id in s'.mapInfo && s'.nKey == s.nKey
            && s'.mapInfo[id] == s.mapInfo[id].(nRefCount := 0, fInTried := true, nRandomPos := s'.mapInfo[id].nRandomPos)
  {
    hide Indexed, MakeRoom;
    UnlistOk(env, s, id);
    MakeRoomOk(env, Unlist(s, id), id);
  }

  // Good keeps the whole condition exactly when the address is not known or the time is
  // positive: the consistency check rejects a tried entry that never succeeded.
  lemma GoodConsistentIff(env: Env, s: State, service: Service, nTime: int)
    requires Consistent(env, s)
    ensures Consistent(env, Good(env, s, service, nTime)) <==> !Known(s, service) || 0 < nTime
    ensures Known(s, service) ==>
              var s', id := Good(env, s, service, nTime), s.mapAddr[service.ip];
              && id in s'.mapInfo && s'.mapInfo[id].fInTried
              && s'.mapInfo[id].nLastSuccess == nTime && s'.mapInfo[id].nAttempts == 0
  {
    hide Indexed, MarkTried, RandomOk, AddrOk, NewSlotsOk, RefCountsOk, TriedOk, BoundsOk;
    GoodKeepsIndexes(env, s, service, nTime);
    if Known(s, service) {
      var id := s.mapAddr[service.ip];
      var info := Succeeded(s.mapInfo[id], nTime);
      StatsFrame(env, s, id, info);
      if !info.fInTried {
        MarkTriedSelf(env, Update(s, id, info), id);
      }
      assert Good(env, s, service, nTime).mapInfo[id].nLastSuccess == nTime;
    }
  }

  // ----- Add

  // The time and services of a known entry are refreshed.
  function Refreshed(info: Info, addr: Address, penalty: int, now: int): Info {
    var interval := if now - addr.nTime < 24 * 60 * 60 then 60 * 60 else 24 * 60 * 60;
    var stale := addr.nTime != 0 && (info.addr.nTime == 0 || info.addr.nTime < addr.nTime - interval - penalty);
    info.(addr := info.addr.(
            nTime := if stale then ToUint32(Max(0, addr.nTime - penalty)) else info.addr.nTime,
            nServices := ServiceBits.Merge(info.addr.nServices, addr.nServices)))
  }

  // Whether a known entry may get one more reference; `draw` stands for the random number.
  predicate MayReference(info: Info, addr: Address, draw: nat) {
    && addr.nTime != 0
    && !(info.addr.nTime != 0 && addr.nTime <= info.addr.nTime)
    && !info.fInTried
    && info.nRefCount != NEW_BUCKETS_PER_ADDRESS
    && (info.nRefCount > 0 ==> draw % Bits.Pow2(info.nRefCount) == 0)
  }

  // The slot a report of `source` assigns to entry id.
  function ReportSlot(env: Env, s: State, id: int, source: NetAddr): (k: nat)
    requires id in s.mapInfo
    ensures k < NEW_SLOTS
    ensures k == NewSlot(env, s.nKey, s.mapInfo[id].addr.service, k / 64)
  {
    var service := s.mapInfo[id].addr.service;
    NewSlot(env, s.nKey, service, GetNewBucket(env, s.nKey, service, source))
  }

  // The slot is free, or its holder is expendable.
  predicate SlotYields(s: State, k: nat, id: int, now: int)
    requires k < |s.newTable| && id in s.mapInfo
    requires s.newTable[k] != EMPTY ==> s.newTable[k] in s.mapInfo
  {
    s.newTable[k] == EMPTY ||
    (var holder := s.mapInfo[s.newTable[k]];
     IsTerrible(holder, now) || (holder.nRefCount > 1 && s.mapInfo[id].nRefCount == 0))
  }

  ghost function Place(env: Env, s: State, id: int, source: NetAddr, now: int): State
    requires Indexed(env, s, {id}, {}) || Indexed(env, s, {}, {})
    requires id in s.mapInfo
  {
    var k := ReportSlot(env, s, id, source);
    if s.newTable[k] == id then s
    else if SlotYields(s, k, id, now) then
      ClearNewEffect(s, k);
      TakeSlot(ClearNew(s, k), id, k)
    else if s.mapInfo[id].nRefCount == 0 then Delete(s, id)
    else s
  }

  lemma PlaceOk(env: Env, s: State, id: int, source: NetAddr, now: int, loose: set<int>)
    requires Indexed(env, s, loose, {}) && (loose == {} || loose == {id})
    requires id in s.mapInfo && !s.mapInfo[id].fInTried && s.mapInfo[id].nRefCount < NEW_BUCKETS_PER_ADDRESS
    requires loose == {} ==> s.mapInfo[id].nRefCount != 0
    ensures Indexed(env, Place(env, s, id, source, now), {}, {})
    ensures TimesOk(s.mapInfo) ==> TimesOk(Place(env, s, id, source, now).mapInfo)
  {
    hide RandomOk, AddrOk, NewSlotsOk, RefCountsOk, TriedOk, BoundsOk, TimesOk, NewIds, TriedIds, ClearNew, Delete;
    KnownSlots(env, s, loose, {});
    var k := ReportSlot(env, s, id, source);
    if loose == {id} {
      LooseHoldsNothing(env, s, id, loose, {}, k);
    }
    if s.newTable[k] == id {
    } else if SlotYields(s, k, id, now) {
      ClearNewOk(env, s, k, loose, {});
      ClearNewEffect(s, k);
      var s1 := ClearNew(s, k);
      assert id in s1.mapInfo.Keys;
      TakeSlotOk(env, s1, id, k, loose, {});
      assert loose - {id} == {};
    } else if s.mapInfo[id].nRefCount == 0 {
      DeleteOk(env, s, id, loose, {});
      assert loose - {id} == {};
    }
  }

  function Created(s: State, addr: Address, source: NetAddr, penalty: int): State {
    var s1 := Create(s, addr.(nTime := ToUint32(Max(0, addr.nTime - penalty))), source);
    s1.(nNew := s1.nNew + 1)
  }

  lemma RefreshedOk(env: Env, s: State, id: int, addr: Address, penalty: int, now: int)
    requires Indexed(env, s, {}, {}) && id in s.mapInfo
    ensures Indexed(env, Update(s, id, Refreshed(s.mapInfo[id], addr, penalty, now)), {}, {})
  {
    hide Indexed;
    StatsFrame(env, s, id, Refreshed(s.mapInfo[id], addr, penalty, now));
  }

  lemma CreatedOk(env: Env, s: State, addr: Address, source: NetAddr, penalty: int)
    requires Indexed(env, s, {}, {}) && addr.service.ip !in s.mapAddr
    ensures var s' := Created(s, addr, source, penalty);
            && Indexed(env, s', {s.nIdCount}, {})
            && (TimesOk(s.mapInfo) ==> TimesOk(s'.mapInfo))
            && s.nIdCount in s'.mapInfo
            && !s'.mapInfo[s.nIdCount].fInTried && s'.mapInfo[s.nIdCount].nRefCount == 0
  {
    hide Indexed, TimesOk;
    CreateOk(env, s, addr.(nTime := ToUint32(Max(0, addr.nTime - penalty))), source, {}, {});
    assert {} + {s.nIdCount} == {s.nIdCount};
  }

  ghost function Add(env: Env, s: State, addr: Address, source: NetAddr, penalty: int, now: int, draw: nat): State
    requires Indexed(env, s, {}, {})
  {
    var ip := addr.service.ip;
    if !env.routable(ip) then s
    else if ip in s.mapAddr then
      var id := s.mapAddr[ip];
      var info := Refreshed(s.mapInfo[id], addr, penalty, now);
      RefreshedOk(env, s, id, addr, penalty, now);
      var s1 := Update(s, id, info);
      if MayReference(info, addr, draw) then Place(env, s1, id, source, now) else s1
    else
      CreatedOk(env, s, addr, source, penalty);
      Place(env, Created(s, addr, source, penalty), s.nIdCount, source, now)
  }

  // What Add answers: whether the address was new to the manager.
  predicate AddAnswer(env: Env, s: State, addr: Address) {
    env.routable(addr.service.ip) && addr.service.ip !in s.mapAddr
  }

  lemma KnownEntry(env: Env, s: State, ip: NetAddr)
    requires Indexed(env, s, {}, {}) && ip in s.mapAddr
    ensures var id := s.mapAddr[ip];
            && id in s.mapInfo && s.mapInfo[id].addr.service.ip == ip
            && (s.mapInfo[id].fInTried || 1 <= s.mapInfo[id].nRefCount)
            && s.mapInfo[id].nRefCount <= NEW_BUCKETS_PER_ADDRESS
  {
  }

  lemma AddOk(env: Env, s: State, addr: Address, source: NetAddr, penalty: int, now: int, draw: nat)
    requires Indexed(env, s, {}, {})
    ensures Indexed(env, Add(env, s, addr, source, penalty, now, draw), {}, {})
    ensures TimesOk(s.mapInfo) ==> TimesOk(Add(env, s, addr, source, penalty, now, draw).mapInfo)
  {
    hide Indexed, RandomOk, AddrOk, NewSlotsOk, RefCountsOk, TriedOk, BoundsOk, TimesOk, Place, Create;
    var ip := addr.service.ip;
    if env.routable(ip) && ip in s.mapAddr {
      KnownEntry(env, s, ip);
      var id := s.mapAddr[ip];
      var info := Refreshed(s.mapInfo[id], addr, penalty, now);
      StatsFrame(env, s, id, info);
      RefreshKeepsTimes(s.mapInfo, id, addr, penalty, now);
      if MayReference(info, addr, draw) {
        PlaceOk(env, Update(s, id, info), id, source, now, {});
      }
    } else if env.routable(ip) {
      CreatedOk(env, s, addr, source, penalty);
      PlaceOk(env, Created(s, addr, source, penalty), s.nIdCount, source, now, {s.nIdCount});
    }
  }

  lemma RefreshKeepsTimes(m: map<int, Info>, id: int, addr: Address, penalty: int, now: int)
    requires id in m
    ensures TimesOk(m) ==> TimesOk(m[id := Refreshed(m[id], addr, penalty, now)])
  {
  }

  // Add answers true for every new routable address, but keeps it only if its slot yields.
  lemma AddKeepsIff(env: Env, s: State, addr: Address, source: NetAddr, penalty: int, now: int, draw: nat)
    requires Indexed(env, s, {}, {}) && AddAnswer(env, s, addr)
    ensures var s' := Add(env, s, addr, source, penalty, now, draw);
            var k := NewSlot(env, s.nKey, addr.service, GetNewBucket(env, s.nKey, addr.service, source));
            && |s.newTable| == NEW_SLOTS
            && (addr.service.ip in s'.mapAddr <==>
                  s.newTable[k] == EMPTY ||
                  (s.newTable[k] in s.mapInfo &&
                   (IsTerrible(s.mapInfo[s.newTable[k]], now) || s.mapInfo[s.newTable[k]].nRefCount > 1)))
            && (addr.service.ip in s'.mapAddr ==>
                  && s'.mapAddr[addr.service.ip] == s.nIdCount && s.nIdCount in s'.mapInfo
                  && s'.newTable == s.newTable[k := s.nIdCount] && s'.mapInfo[s.nIdCount].nRefCount == 1)
            && (addr.service.ip !in s'.mapAddr ==> s'.newTable == s.newTable && s'.mapInfo.Keys == s.mapInfo.Keys)
  {
    hide RandomOk, AddrOk, NewSlotsOk, RefCountsOk, TriedOk, BoundsOk, TimesOk, NewIds, TriedIds, ClearNew, Delete;
    KnownSlots(env, s, {}, {});
    var id := s.nIdCount;
    var s1 := Created(s, addr, source, penalty);
    CreatedOk(env, s, addr, source, penalty);
    PlaceOk(env, s1, id, source, now, {id});
    var k := ReportSlot(env, s1, id, source);
    LooseHoldsNothing(env, s1, id, {id}, {}, k);
    var s' := Place(env, s1, id, source, now);
    if SlotYields(s1, k, id, now) {
      ClearNewEffect(s1, k);
      assert id in s'.mapInfo.Keys;
      assert s'.mapInfo[id].addr.service == addr.service;
      KnownByAddr(s'.mapInfo, s'.mapAddr, id);
    } else {
      DeleteOk(env, s1, id, {id}, {});
      DeleteForgets(s1, id);
      assert s'.mapInfo.Keys == s.mapInfo.Keys;
    }
  }

  lemma KnownByAddr(m: map<int, Info>, mapAddr: map<NetAddr, int>, id: int)
    requires AddrOk(m, mapAddr) && id in m
    ensures m[id].addr.service.ip in mapAddr && mapAddr[m[id].addr.service.ip] == id
  {
  }

  lemma DeleteForgets(s: State, id: int)
    requires id in s.mapInfo && RandomOk(s.mapInfo, s.vRandom)
    ensures s.mapInfo[id].addr.service.ip !in Delete(s, id).mapAddr
    ensures Delete(s, id).newTable == s.newTable
    ensures Delete(s, id).mapInfo.Keys == s.mapInfo.Keys - {id}
  {
    DeleteRandom(s, id);
  }

  lemma RandomKnown(env: Env, s: State)
    requires Indexed(env, s, {}, {})
    ensures RandomOk(s.mapInfo, s.vRandom)
  {
  }

  // ----- GetAddr: a partial Fisher-Yates shuffle of vRandom

  // How many addresses GetAddr may give away.
  function GetAddrLimit(size: nat): (n: nat)
    ensures n <= 23 * size / 100 && n <= 2500
    ensures n == 23 * size / 100 || n == 2500
  {
    var n := GETADDR_MAX_PCT * size / 100;
    if n > GETADDR_MAX then GETADDR_MAX else n
  }

  // GetRandInt(size - n) + n
  function Partner(draw: nat, n: nat, size: nat): (p: nat)
    requires n < size
    ensures n <= p < size
  {
    n + draw % (size - n)
  }

  lemma SameButPosRefl(m: map<int, Info>)
    ensures SameButPos(m, m)
  {
  }

  lemma SameButPosTrans(m0: map<int, Info>, m1: map<int, Info>, m2: map<int, Info>)
    requires SameButPos(m0, m1) && SameButPos(m1, m2)
    ensures SameButPos(m0, m2)
  {
  }

  ghost function Shuffled(s: State, rnd: nat -> nat, steps: nat): (s': State)
    requires RandomOk(s.mapInfo, s.vRandom) && steps <= |s.vRandom|
    ensures RandomOk(s'.mapInfo, s'.vRandom) && |s'.vRandom| == |s.vRandom|
  {
    if steps == 0 then s
    else
      var s1, n := Shuffled(s, rnd, steps - 1), steps - 1;
      SwapKeepsRandom(s1, n, Partner(rnd(n), n, |s1.vRandom|));
      SwapRandom(s1, n, Partner(rnd(n), n, |s1.vRandom|))
  }

  lemma {:induction false} ShuffledOk(env: Env, s: State, rnd: nat -> nat, steps: nat)
    requires Indexed(env, s, {}, {}) && steps <= |s.vRandom|
    ensures var s' := Shuffled(s, rnd, steps);
            && Indexed(env, s', {}, {})
            && SameButPos(s.mapInfo, s'.mapInfo)
            && multiset(s'.vRandom) == multiset(s.vRandom)
            && (TimesOk(s.mapInfo) ==> TimesOk(s'.mapInfo))
  {
    hide RandomOk, AddrOk, NewSlotsOk, RefCountsOk, TriedOk, BoundsOk, TimesOk, NewIds, TriedIds, SwapRandom, Indexed, Partner, SameButPos;
    RandomKnown(env, s);
    SameButPosRefl(s.mapInfo);
    if steps > 0 {
      ShuffledOk(env, s, rnd, steps - 1);
      var s1, n := Shuffled(s, rnd, steps - 1), steps - 1;
      SwapRandomOk(env, s1, n, Partner(rnd(n), n, |s1.vRandom|), {}, {});
      SameButPosTrans(s.mapInfo, s1.mapInfo, Shuffled(s, rnd, steps).mapInfo);
    }
  }

  // ----- every run

  datatype Op =
    | DoAdd(addr: Address, source: NetAddr, penalty: int, now: int, draw: nat)
    | DoGood(service: Service, nTime: int)
    | DoAttempt(service: Service, nTime: int)
    | DoConnected(service: Service, nTime: int)
    | DoGetAddr(rnd: nat -> nat, steps: nat)

  // The only thing asked of the caller: time stamps that are real times.
  predicate Timely(op: Op) {
    match op
    case DoGood(_, nTime) => 0 < nTime
    case DoAttempt(_, nTime) => 0 <= nTime
    case _ => true
  }

  ghost function Apply(env: Env, s: State, op: Op): State
    requires Indexed(env, s, {}, {})
  {
    match op
    case DoAdd(addr, source, penalty, now, draw) => Add(env, s, addr, source, penalty, now, draw)
    case DoGood(service, nTime) => Good(env, s, service, nTime)
    case DoAttempt(service, nTime) => Attempt(s, service, nTime)
    case DoConnected(service, nTime) => Connected(s, service, nTime)
    case DoGetAddr(rnd, steps) => Shuffled(s, rnd, if steps <= |s.vRandom| then steps else |s.vRandom|)
  }

  lemma ApplyOk(env: Env, s: State, op: Op)
    requires Indexed(env, s, {}, {})
    ensures Indexed(env, Apply(env, s, op), {}, {})
    ensures TimesOk(s.mapInfo) && Timely(op) ==> TimesOk(Apply(env, s, op).mapInfo)
  {
    hide Indexed, Add, Good, Attempt, Connected, Shuffled, TimesOk;
    match op
    case DoAdd(addr, source, penalty, now, draw) => AddOk(env, s, addr, source, penalty, now, draw);
    case DoGood(service, nTime) => GoodKeepsIndexes(env, s, service, nTime);
    case DoAttempt(service, nTime) => AttemptKeepsIndexes(env, s, service, nTime);
    case DoConnected(service, nTime) => ConnectedKeepsIndexes(env, s, service, nTime);
    case DoGetAddr(rnd, steps) =>
      ShuffledOk(env, s, rnd, if steps <= |s.vRandom| then steps else |s.vRandom|);
  }

  lemma EmptyOk(env: Env, key: Key)
    ensures Indexed(env, Empty(key), {}, {}) && TimesOk(Empty(key).mapInfo)
  {
    assert NewIds(Empty(key).mapInfo) == {} && TriedIds(Empty(key).mapInfo) == {};
  }

  ghost function Run(env: Env, key: Key, ops: seq<Op>): (s: State)
    ensures Indexed(env, s, {}, {})
  {
    EmptyOk(env, key);
    if ops == [] then Empty(key)
    else
      var s := Run(env, key, ops[..|ops| - 1]);
      ApplyOk(env, s, ops[|ops| - 1]);
      Apply(env, s, ops[|ops| - 1])
  }

  lemma KeyNeverChanges(env: Env, s: State, op: Op)
    requires Indexed(env, s, {}, {})
    ensures Apply(env, s, op).nKey == s.nKey
  {
    hide Indexed, MarkTried, Place;
    match op
    case DoAdd(addr, source, penalty, now, draw) => PlaceKeepsKey(env, s, addr, source, penalty, now, draw);
    case DoGood(service, nTime) =>
      if Known(s, service) && !s.mapInfo[s.mapAddr[service.ip]].fInTried {
        var id := s.mapAddr[service.ip];
        StatsFrame(env, s, id, Succeeded(s.mapInfo[id], nTime));
        MarkTriedSelf(env, Update(s, id, Succeeded(s.mapInfo[id], nTime)), id);
      }
    case DoAttempt(_, _) =>
    case DoConnected(_, _) =>
    case DoGetAddr(rnd, steps) =>
      RandomKnown(env, s);
      ShuffleKeepsKey(s, rnd, if steps <= |s.vRandom| then steps else |s.vRandom|);
  }

  lemma {:induction false} ShuffleKeepsKey(s: State, rnd: nat -> nat, steps: nat)
    requires RandomOk(s.mapInfo, s.vRandom) && steps <= |s.vRandom|
    ensures var s' := Shuffled(s, rnd, steps);
            s' == s.(mapInfo := s'.mapInfo, vRandom := s'.vRandom)
  {
    hide RandomOk;
    if steps > 0 {
      ShuffleKeepsKey(s, rnd, steps - 1);
    }
  }

  lemma PlaceKeepsKey(env: Env, s: State, addr: Address, source: NetAddr, penalty: int, now: int, draw: nat)
    requires Indexed(env, s, {}, {})
    ensures Add(env, s, addr, source, penalty, now, draw).nKey == s.nKey
  {
  }

  // The main result: whatever calls are made, in whatever order and with whatever random
  // choices, the consistency condition holds after each of them.
  lemma {:induction false} EveryRunIsConsistent(env: Env, key: Key, ops: seq<Op>)
    requires key != 0
    requires forall op :: op in ops ==> Timely(op)
    ensures Consistent(env, Run(env, key, ops))
  {
    hide Indexed, Apply, TimesOk;
    EmptyOk(env, key);
    if ops != [] {
      var before, last := ops[..|ops| - 1], ops[|ops| - 1];
      assert last in ops;
      EveryRunIsConsistent(env, key, before);
      ApplyOk(env, Run(env, key, before), last);
      KeyNeverChanges(env, Run(env, key, before), last);
    }
  }
}
