// What the operations of the address manager do to an entry and to the tables, beyond keeping
// the indexes: what is gained, what is lost, and what a loaded file brings back.
module AddrManEffects {
  import Bits
  import opened ServiceBits
  import opened AddrManState
  import opened AddrManProofs
  import opened AddrManOps
  import opened AddrManRuns

  const DAY := 24 * 60 * 60

  // ----- Add of a known address

  // The time of a known entry never goes back, and is at most a day and the penalty behind the
  // report; no service bit is lost and none is made up; nothing else changes.
  lemma RefreshedMeans(info: Info, addr: Address, penalty: nat, now: int)
    requires addr.nTime < 0x1_0000_0000
    ensures var info' := Refreshed(info, addr, penalty, now);
            && info.addr.nTime <= info'.addr.nTime
            && (info'.addr.nTime == info.addr.nTime || info'.addr.nTime == Max(0, addr.nTime - penalty))
            && (addr.nTime != 0 ==> addr.nTime - penalty - DAY <= info'.addr.nTime)
            && (addr.nTime != 0 && now < addr.nTime + DAY ==> addr.nTime - penalty - 60 * 60 <= info'.addr.nTime)
            && (info.addr.nTime != 0 && addr.nTime - penalty - 60 * 60 <= info.addr.nTime ==> info'.addr.nTime == info.addr.nTime)
            && (addr.nTime == 0 ==> info'.addr.nTime == info.addr.nTime)
            && HasAll(info'.addr.nServices, info.addr.nServices) && HasAll(info'.addr.nServices, addr.nServices)
            && OnlyFrom(info'.addr.nServices, info.addr.nServices, addr.nServices)
            && info' == info.(addr := info.addr.(nTime := info'.addr.nTime, nServices := info'.addr.nServices))
  {
    hide Merge, HasAll, OnlyFrom;
    MergeKeeps(info.addr.nServices, addr.nServices);
  }

  // The slot hashed for a report of this source, and whether it may be taken.
  function HashedSlot(env: Env, s: State, service: Service, source: NetAddr): (k: nat)
    ensures k < NEW_SLOTS
  {
    NewSlot(env, s.nKey, service, GetNewBucket(env, s.nKey, service, source))
  }

  // A known address gains exactly the slot hashed for this source and one reference if and only
  // if the report has a time newer than the one the entry then has, the entry is not tried and
  // has fewer than 8 references, the draw allows it, and that slot is not its own already and is
  // free or held by an entry that is terrible.  Otherwise the tables and the references stay.
  lemma AddKnownIff(env: Env, s: State, addr: Address, source: NetAddr, penalty: int, now: int, draw: nat)
    requires Indexed(env, s, {}, {}) && env.routable(addr.service.ip) && addr.service.ip in s.mapAddr
    ensures var id := s.mapAddr[addr.service.ip];
            && id in s.mapInfo && |s.newTable| == NEW_SLOTS
            && var was, s' := s.mapInfo[id], Add(env, s, addr, source, penalty, now, draw);
               var k := HashedSlot(env, s, was.addr.service, source);
               && id in s'.mapInfo && s'.triedTable == s.triedTable
               && var now' := s'.mapInfo[id];
                  && now'.addr == Refreshed(was, addr, penalty, now).addr
                  && now'.source == was.source && now'.fInTried == was.fInTried
                  && now'.nLastSuccess == was.nLastSuccess && now'.nAttempts == was.nAttempts
                  && (s.newTable[k] != EMPTY ==> s.newTable[k] in s.mapInfo)
                  && if && addr.nTime != 0 && (now'.addr.nTime == 0 || now'.addr.nTime < addr.nTime)
                        && !was.fInTried && was.nRefCount < 8 && draw % Bits.Pow2(was.nRefCount) == 0
                        && s.newTable[k] != id
                        && (s.newTable[k] == EMPTY || IsTerrible(s.mapInfo[s.newTable[k]], now))
                     then s'.newTable == s.newTable[k := id] && now'.nRefCount == was.nRefCount + 1
                     else s'.newTable == s.newTable && now'.nRefCount == was.nRefCount && s'.mapInfo.Keys == s.mapInfo.Keys
  {
    hide RandomOk, AddrOk, NewSlotsOk, RefCountsOk, TriedOk, BoundsOk, NewIds, TriedIds, ClearNew, Delete, IsTerrible;
    KnownSlots(env, s, {}, {});
    KnownEntry(env, s, addr.service.ip);
    var id := s.mapAddr[addr.service.ip];
    var was := s.mapInfo[id];
    var info := Refreshed(was, addr, penalty, now);
    var s1, s' := Update(s, id, info), Add(env, s, addr, source, penalty, now, draw);
    RefreshedOk(env, s, id, addr, penalty, now);
    RefreshedKeeps(was, addr, penalty, now);
    hide Refreshed;
    TriedHasNone(env, s, id);
    var k := HashedSlot(env, s, was.addr.service, source);
    assert k == ReportSlot(env, s1, id, source);
    if MayReference(info, addr, draw) {
      assert s' == Place(env, s1, id, source, now);
      PlacedKnown(env, s1, id, source, now);
      assert s1.newTable == s.newTable;
      if s.newTable[k] != EMPTY && s.newTable[k] != id {
        assert s1.mapInfo[s.newTable[k]] == s.mapInfo[s.newTable[k]];
      }
    } else {
      assert s' == s1;
      assert s1.mapInfo.Keys == s.mapInfo.Keys;
    }
  }

  lemma RefreshedKeeps(info: Info, addr: Address, penalty: int, now: int)
    ensures var info' := Refreshed(info, addr, penalty, now);
            && info' == info.(addr := info'.addr) && info'.addr.service == info.addr.service
  {
  }

  // The slot step for an entry that has references already.
  lemma PlacedKnown(env: Env, s: State, id: int, source: NetAddr, now: int)
    requires Indexed(env, s, {}, {}) && id in s.mapInfo && s.mapInfo[id].nRefCount >= 1
    ensures |s.newTable| == NEW_SLOTS && forall k :: 0 <= k < NEW_SLOTS && s.newTable[k] != EMPTY ==> s.newTable[k] in s.mapInfo
    ensures var s', k := Place(env, s, id, source, now), HashedSlot(env, s, s.mapInfo[id].addr.service, source);
            && id in s'.mapInfo && s'.triedTable == s.triedTable
            && s'.mapInfo[id] == s.mapInfo[id].(nRefCount := s'.mapInfo[id].nRefCount, nRandomPos := s'.mapInfo[id].nRandomPos)
            && if s.newTable[k] != id && (s.newTable[k] == EMPTY || IsTerrible(s.mapInfo[s.newTable[k]], now))
               then s'.newTable == s.newTable[k := id] && s'.mapInfo[id].nRefCount == s.mapInfo[id].nRefCount + 1
               else s'.newTable == s.newTable && s'.mapInfo == s.mapInfo
  {
    hide RandomOk, AddrOk, NewSlotsOk, RefCountsOk, TriedOk, BoundsOk, NewIds, TriedIds, ClearNew, Delete, IsTerrible;
    KnownSlots(env, s, {}, {});
    RandomKnown(env, s);
    var k := ReportSlot(env, s, id, source);
    if s.newTable[k] != id && SlotYields(s, k, id, now) {
      ClearNewEffect(s, k);
      assert id in ClearNew(s, k).mapInfo.Keys;
      assert s.newTable[k := EMPTY][k := id] == s.newTable[k := id];
    }
  }

  // A tried entry has no reference, any other at least one.
  lemma TriedHasNone(env: Env, s: State, id: int)
    requires Indexed(env, s, {}, {}) && id in s.mapInfo
    ensures !s.mapInfo[id].fInTried ==> s.mapInfo[id].nRefCount >= 1
    ensures s.mapInfo[id].nRefCount <= 8
  {
  }

  // ----- Add of a new address

  // A new address that is kept has the time of the report less the penalty, its source, no
  // attempts and no success.
  lemma AddNewEntry(env: Env, s: State, addr: Address, source: NetAddr, penalty: nat, now: int, draw: nat)
    requires Indexed(env, s, {}, {}) && AddAnswer(env, s, addr) && addr.nTime < 0x1_0000_0000
    ensures var s' := Add(env, s, addr, source, penalty, now, draw);
            s.nIdCount in s'.mapInfo ==>
              var info := s'.mapInfo[s.nIdCount];
              && info.addr == addr.(nTime := if penalty <= addr.nTime then addr.nTime - penalty else 0)
              && info.source == source && !info.fInTried
              && info.nAttempts == 0 && info.nLastTry == 0 && info.nLastSuccess == 0
  {
    hide RandomOk, AddrOk, NewSlotsOk, RefCountsOk, TriedOk, BoundsOk, NewIds, TriedIds, ClearNew, Delete, IsTerrible;
    var id, s1 := s.nIdCount, Created(s, addr, source, penalty);
    CreatedOk(env, s, addr, source, penalty);
    KnownSlots(env, s1, {id}, {});
    var k := ReportSlot(env, s1, id, source);
    LooseHoldsNothing(env, s1, id, {id}, {}, k);
    if SlotYields(s1, k, id, now) {
      ClearNewEffect(s1, k);
    } else {
      LooseRandom(env, s1, id);
      DeleteGone(s1, id);
    }
  }

  lemma LooseRandom(env: Env, s: State, id: int)
    requires Indexed(env, s, {id}, {})
    ensures RandomOk(s.mapInfo, s.vRandom)
  {
  }

  lemma DeleteGone(s: State, id: int)
    requires id in s.mapInfo && RandomOk(s.mapInfo, s.vRandom)
    ensures id !in Delete(s, id).mapInfo
  {
  }

  // ----- Good, Attempt, Connected

  // Good changes nothing for an unknown service.  A known entry has this time as its last try
  // and its last success, and no attempts; if it was tried the tables stay, otherwise it is
  // tried afterwards, at its hashed slot, and its references are gone.
  lemma GoodEffect(env: Env, s: State, service: Service, nTime: int)
    requires Indexed(env, s, {}, {})
    ensures var s' := Good(env, s, service, nTime);
            && (!Known(s, service) ==> s' == s)
            && (Known(s, service) ==>
                  var id := s.mapAddr[service.ip];
                  && id in s'.mapInfo && |s'.triedTable| == TRIED_SLOTS
                  && var was, info := s.mapInfo[id], s'.mapInfo[id];
                     && info.fInTried && info.addr == was.addr && info.source == was.source
                     && info.nLastTry == nTime && info.nLastSuccess == nTime && info.nAttempts == 0
                     && s'.triedTable[TriedSlot(env, s.nKey, service)] == id
                     && (was.fInTried ==> s'.triedTable == s.triedTable && s'.newTable == s.newTable && info.nRefCount == was.nRefCount)
                     && (!was.fInTried ==> info.nRefCount == 0))
  {
    hide Indexed, MarkTried, RandomOk, AddrOk, NewSlotsOk, RefCountsOk, BoundsOk;
    if Known(s, service) {
      var id := s.mapAddr[service.ip];
      var info := Succeeded(s.mapInfo[id], nTime);
      var s1 := Update(s, id, info);
      StatsFrame(env, s, id, info);
      if info.fInTried {
        TriedPlace(env, s1, id);
      } else {
        MarkTriedSelf(env, s1, id);
        MarkTriedEffect(env, s1, id);
      }
    }
  }

  lemma TriedPlace(env: Env, s: State, id: int)
    requires Indexed(env, s, {}, {}) && id in s.mapInfo && s.mapInfo[id].fInTried
    ensures |s.triedTable| == TRIED_SLOTS && s.triedTable[TriedSlot(env, s.nKey, s.mapInfo[id].addr.service)] == id
  {
  }

  // Attempt counts one more attempt and remembers the time; nothing else changes.
  lemma AttemptEffect(s: State, service: Service, nTime: int)
    ensures var s' := Attempt(s, service, nTime);
            && (!Known(s, service) ==> s' == s)
            && (Known(s, service) ==>
                  var id := s.mapAddr[service.ip];
                  && id in s'.mapInfo && s'.mapInfo[id].nAttempts == s.mapInfo[id].nAttempts + 1
                  && s'.mapInfo[id].nLastTry == nTime
                  && s'.mapInfo[id] == s.mapInfo[id].(nAttempts := s'.mapInfo[id].nAttempts, nLastTry := nTime)
                  && s' == s.(mapInfo := s.mapInfo[id := s'.mapInfo[id]]))
  {
  }

  // Connected brings the time of a known entry forward, never back, and leaves it at most 20
  // minutes behind; nothing else changes.
  lemma ConnectedEffect(s: State, service: Service, nTime: nat)
    requires nTime < 0x1_0000_0000
    ensures var s' := Connected(s, service, nTime);
            && (!Known(s, service) ==> s' == s)
            && (Known(s, service) ==>
                  var id := s.mapAddr[service.ip];
                  && id in s'.mapInfo
                  && var was, time := s.mapInfo[id], s'.mapInfo[id].addr.nTime;
                     && (time == was.addr.nTime || time == nTime)
                     && was.addr.nTime <= time && nTime - 20 * 60 <= time
                     && (nTime - 20 * 60 <= was.addr.nTime ==> time == was.addr.nTime)
                     && s' == s.(mapInfo := s.mapInfo[id := was.(addr := was.addr.(nTime := time))]))
  {
    if Known(s, service) {
      var id := s.mapAddr[service.ip];
      assert s.mapInfo[id := s.mapInfo[id]] == s.mapInfo;
    }
  }

  // ----- what makes an entry expendable

  // An entry is kept in any case within a minute of a try.  Otherwise it is kept if it was seen
  // in the last 30 days and not from more than ten minutes ahead, has succeeded once or been
  // tried less than three times, and has succeeded in the last week or failed less than ten
  // times.
  lemma NotTerribleIff(info: Info, nNow: int)
    ensures !IsTerrible(info, nNow) <==>
              || (info.nLastTry != 0 && nNow <= info.nLastTry + 60)
              || (&& info.addr.nTime != 0 && info.addr.nTime <= nNow + 600 && nNow <= info.addr.nTime + 30 * DAY
                  && (info.nLastSuccess != 0 || info.nAttempts < 3)
                  && (nNow <= info.nLastSuccess + 7 * DAY || info.nAttempts < 10))
  {
  }

  // ----- how far addresses spread

  ghost function Image(f: nat -> nat, n: nat): (r: set<nat>)
    ensures |r| <= n && forall i: nat :: i < n ==> f(i) in r
  {
    if n == 0 then {}
    else
      var r := Image(f, n - 1);
      if f(n - 1) in r then r else r + {f(n - 1)}
  }

  lemma InImage(f: nat -> nat, n: nat, x: nat)
    requires n > 0
    ensures x % n < n && f(x % n) in Image(f, n)
  {
    hide Image;
    assert 0 <= x % n < n;
  }

  // The addresses of one group share at most 8 tried buckets ...
  lemma TriedSpreadBound(env: Env, key: Key, group: nat) returns (buckets: set<nat>)
    ensures |buckets| <= 8
    ensures forall s: Service :: env.group(s.ip) == group ==> GetTriedBucket(env, key, s) in buckets
  {
    var f := (i: nat) => env.hash(TriedBucket(key, group, i)) % TRIED_BUCKET_COUNT;
    buckets := Image(f, TRIED_BUCKETS_PER_GROUP);
    hide Image;
    forall s: Service | env.group(s.ip) == group
      ensures GetTriedBucket(env, key, s) in buckets
    {
      InImage(f, TRIED_BUCKETS_PER_GROUP, env.hash(TriedSpread(key, s)));
    }
  }

  // ... and all that one source group reports at most 64 new buckets.
  lemma NewSpreadBound(env: Env, key: Key, sourceGroup: nat) returns (buckets: set<nat>)
    ensures |buckets| <= 64
    ensures forall s: Service, source: NetAddr ::
              env.group(source) == sourceGroup ==> GetNewBucket(env, key, s, source) in buckets
  {
    var f := (i: nat) => env.hash(NewBucket(key, sourceGroup, i)) % NEW_BUCKET_COUNT;
    buckets := Image(f, NEW_BUCKETS_PER_SOURCE_GROUP);
    hide Image;
    forall s: Service, source: NetAddr | env.group(source) == sourceGroup
      ensures GetNewBucket(env, key, s, source) in buckets
    {
      InImage(f, NEW_BUCKETS_PER_SOURCE_GROUP, env.hash(NewSpread(key, env.group(s.ip), sourceGroup)));
    }
  }

  // ----- the shuffle

  lemma PartnerIs(place: nat, n: nat, size: nat)
    requires n <= place < size
    ensures Partner(place - n, n, size) == place
  {
    Bits.DivUnique(place - n, size - n, 0, place - n);
  }

  // The answer's next place gets the entry at the partner's place, and for each place left there
  // is a draw that makes it the partner.
  lemma ShuffleReaches(s: State, rnd: nat -> nat, n: nat, place: nat)
    requires RandomOk(s.mapInfo, s.vRandom) && n <= place < |s.vRandom|
    ensures Partner(place - n, n, |s.vRandom|) == place
    ensures rnd(n) == place - n ==> Shuffled(s, rnd, n + 1).vRandom[n] == Shuffled(s, rnd, n).vRandom[place]
  {
    PartnerIs(place, n, |s.vRandom|);
    hide RandomOk, Partner;
  }
}
