// The address manager itself: a class whose methods change the indexes in place.  Every
// method is proved equal to its function in AddrManState, AddrManOps or AddrManRuns, so the
// results proved there hold of the object.
module AddrManager {
  import Bits
  import ServiceBits
  import opened AddrManState
  import opened AddrManProofs
  import Ops = AddrManOps
  import Runs = AddrManRuns
  import S = AddrManState
  import Check = AddrManCheck
  import Disk = AddrManDisk
  import Load = AddrManLoad

  // ----- the bucket loop of MarkTried

  ghost function ScrubBelow(newTable: seq<int>, id: int, bucket: nat): seq<int> {
    seq(|newTable|, k requires 0 <= k < |newTable| =>
      if k < bucket * 64 && newTable[k] == id then EMPTY else newTable[k])
  }

  lemma ScrubBelowEnds(newTable: seq<int>, id: int)
    requires |newTable| == NEW_SLOTS
    ensures ScrubBelow(newTable, id, 0) == newTable
    ensures ScrubBelow(newTable, id, 1024) == Ops.Scrub(newTable, id)
  {
  }

  // One bucket further: only the hashed slot of the entry can hold it.
  lemma ScrubStep(env: Env, key: Key, m: map<int, Info>, newTable: seq<int>, id: int, b: nat)
    requires NewSlotsOk(env, key, m, newTable) && id in m && id != EMPTY && b < 1024
    ensures var k := NewSlot(env, key, m[id].addr.service, b);
            var t, t' := ScrubBelow(newTable, id, b), ScrubBelow(newTable, id, b + 1);
            var before, after := Held(t, id), Held(t', id);
            if t[k] == id then t' == t[k := EMPTY] && k in before && after == before - {k} else t' == t
  {
    var k := NewSlot(env, key, m[id].addr.service, b);
    var t, t' := ScrubBelow(newTable, id, b), ScrubBelow(newTable, id, b + 1);
    forall j | 0 <= j < NEW_SLOTS && j != k
      ensures t'[j] == t[j]
    {
      if newTable[j] == id {
        assert j == NewSlot(env, key, m[id].addr.service, j / 64);
      }
    }
    if t[k] == id {
      assert t' == t[k := EMPTY];
      var before, after := Held(t, id), Held(t', id);
      assert after == before - {k};
    } else {
      assert t' == t;
    }
  }

  // The n-th bucket looked at by Good, and that none is passed over.
  function Probe(n: nat, nRnd: nat): (b: nat)
    ensures b < 1024
  {
    (n + nRnd) % NEW_BUCKET_COUNT
  }

  lemma ProbeReaches(b: nat, nRnd: nat) returns (n: nat)
    requires b < 1024 && nRnd < 1024
    ensures n < 1024 && Probe(n, nRnd) == b
  {
    n := if nRnd <= b then b - nRnd else b + 1024 - nRnd;
  }

  ghost predicate DecentEntry(m: map<int, Info>, now: int, a: Address) {
    exists id :: id in m && m[id].addr == a && !IsTerrible(m[id], now)
  }

  // ----- the answer of GetAddr after n steps: `ids` are the entries it came from

  ghost predicate Collected(m: map<int, Info>, now: int, n: int, ids: seq<int>, result: seq<Address>) {
    && |ids| == |result|
    && (forall i :: 0 <= i < |ids| ==>
          ids[i] in m && m[ids[i]].addr == result[i] && !IsTerrible(m[ids[i]], now) && m[ids[i]].nRandomPos < n)
    && (forall i, j :: 0 <= i < j < |ids| ==> ids[i] != ids[j])
    && (forall id :: id in m && m[id].nRandomPos < n && !IsTerrible(m[id], now) ==> id in ids)
  }

  lemma RandomIdsKnown(m: map<int, Info>, vRandom: seq<int>, i: nat, j: nat)
    requires RandomOk(m, vRandom) && i < |vRandom| && j < |vRandom|
    ensures vRandom[i] in m && vRandom[j] in m && m[vRandom[i]].nRandomPos == i
  {
  }

  // A swap of places n and beyond leaves alone what GetAddr has already looked at.
  lemma SwapEntry(t: State, now: int, n: nat, p: nat, id: int)
    requires RandomOk(t.mapInfo, t.vRandom) && n <= p < |t.vRandom| && id in t.mapInfo
    ensures var m, m' := t.mapInfo, S.SwapRandom(t, n, p).mapInfo;
            && m'.Keys == m.Keys && m'[id].addr == m[id].addr && IsTerrible(m'[id], now) == IsTerrible(m[id], now)
            && (m'[id].nRandomPos < n <==> m[id].nRandomPos < n)
  {
    var m, m' := t.mapInfo, S.SwapRandom(t, n, p).mapInfo;
    assert m[t.vRandom[n]].nRandomPos == n && m[t.vRandom[p]].nRandomPos == p;
    assert m'.Keys == m.Keys;
  }

  lemma CollectedSwap(t: State, now: int, n: nat, p: nat, ids: seq<int>, result: seq<Address>)
    requires RandomOk(t.mapInfo, t.vRandom) && n <= p < |t.vRandom|
    requires Collected(t.mapInfo, now, n, ids, result)
    ensures Collected(S.SwapRandom(t, n, p).mapInfo, now, n, ids, result)
  {
    RandomIdsKnown(t.mapInfo, t.vRandom, n, p);
    SwapEntry(t, now, n, p, t.vRandom[n]);
    hide S.SwapRandom, RandomOk, IsTerrible;
    var m, m' := t.mapInfo, S.SwapRandom(t, n, p).mapInfo;
    forall id | id in m
      ensures m'[id].addr == m[id].addr && IsTerrible(m'[id], now) == IsTerrible(m[id], now)
      ensures m'[id].nRandomPos < n <==> m[id].nRandomPos < n
    {
      SwapEntry(t, now, n, p, id);
    }
  }

  lemma CollectedStep(m: map<int, Info>, vRandom: seq<int>, now: int, n: nat, ids: seq<int>, result: seq<Address>)
    requires RandomOk(m, vRandom) && n < |vRandom| && Collected(m, now, n, ids, result)
    ensures vRandom[n] in m
    ensures if IsTerrible(m[vRandom[n]], now) then Collected(m, now, n + 1, ids, result)
            else Collected(m, now, n + 1, ids + [vRandom[n]], result + [m[vRandom[n]].addr])
  {
    forall id | id in m && m[id].nRandomPos < n + 1 && id != vRandom[n]
      ensures m[id].nRandomPos < n
    {
    }
    assert vRandom[n] in ids + [vRandom[n]];
    forall id | id in ids ensures id in ids + [vRandom[n]] {}
  }

  lemma AddrAndRandomKnown(env: Env, s: State)
    requires Indexed(env, s, {}, {})
    ensures AddrOk(s.mapInfo, s.mapAddr)
    ensures forall id :: id in s.mapInfo ==> s.mapInfo[id].nRandomPos < |s.vRandom|
  {
  }

  lemma CollectedMeans(env: Env, s: State, now: int, n: nat, ids: seq<int>, result: seq<Address>)
    requires Indexed(env, s, {}, {}) && Collected(s.mapInfo, now, n, ids, result)
    ensures forall a :: a in result ==> DecentEntry(s.mapInfo, now, a)
    ensures forall i, j :: 0 <= i < j < |result| ==> result[i].service.ip != result[j].service.ip
    ensures n == |s.vRandom| ==>
              forall id :: id in s.mapInfo && !IsTerrible(s.mapInfo[id], now) ==> s.mapInfo[id].addr in result
  {
    hide RandomOk, AddrOk, NewSlotsOk, RefCountsOk, TriedOk, BoundsOk, NewIds, TriedIds, IsTerrible;
    AddrAndRandomKnown(env, s);
    forall a | a in result
      ensures DecentEntry(s.mapInfo, now, a)
    {
      var i :| 0 <= i < |result| && result[i] == a;
      assert ids[i] in s.mapInfo && s.mapInfo[ids[i]].addr == a;
    }
    forall i, j | 0 <= i < j < |result|
      ensures result[i].service.ip != result[j].service.ip
    {
      Runs.KnownByAddr(s.mapInfo, s.mapAddr, ids[i]);
      Runs.KnownByAddr(s.mapInfo, s.mapAddr, ids[j]);
    }
    if n == |s.vRandom| {
      forall id | id in s.mapInfo && !IsTerrible(s.mapInfo[id], now)
        ensures s.mapInfo[id].addr in result
      {
        var i :| 0 <= i < |ids| && ids[i] == id;
        assert result[i] in result;
      }
    }
  }

  lemma RandomEmpty()
    ensures RandomOk(map[], [])
  {
  }

  lemma RefKeepsRandom(m: map<int, Info>, vRandom: seq<int>, id: int, n: int)
    requires RandomOk(m, vRandom) && id in m
    ensures RandomOk(m[id := m[id].(nRefCount := n)], vRandom)
  {
  }

  lemma FromDiskFresh(d: Disk.DiskInfo, version: nat)
    ensures !Disk.FromDisk(d, version).fInTried && Disk.FromDisk(d, version).nRefCount == 0
    ensures Disk.FromDisk(d, version) == Disk.FromDisk(d, version).(fInTried := false)
  {
  }

  class AddrMan {
    const env: Env
    var nKey: Key
    var nIdCount: int
    var mapInfo: map<int, Info>
    var mapAddr: map<NetAddr, int>
    var vRandom: seq<int>
    var nTried: int
    var nNew: int
    const vvTried: array<int> // vvTried[b][p] is at b * BUCKET_SIZE + p
    const vvNew: array<int>   // vvNew[b][p] is at b * BUCKET_SIZE + p

    ghost predicate Shaped()
      reads this
    {
      vvTried != vvNew && vvTried.Length == TRIED_SLOTS && vvNew.Length == NEW_SLOTS
    }

    ghost function View(): (s: State)
      reads this, vvTried, vvNew
    {
      State(nKey, nIdCount, mapInfo, mapAddr, vRandom, nTried, nNew, vvTried[..], vvNew[..])
    }

    // The indexes agree; this is all the methods need to run without a failing assertion.
    ghost predicate Valid()
      reads this, vvTried, vvNew
    {
      Shaped() && Indexed(env, View(), {}, {})
    }

    // Clear, on a fresh object.
    constructor (env: Env, key: Key)
      ensures Valid() && fresh(vvTried) && fresh(vvNew)
      ensures this.env == env && View() == Empty(key)
    {
      this.env := env;
      nKey := key;
      nIdCount, nTried, nNew := 0, 0, 0;
      mapInfo, mapAddr, vRandom := map[], map[], [];
      var tried := new int[TRIED_SLOTS];
      var news := new int[NEW_SLOTS];
      vvTried := tried;
      vvNew := news;
      new;
      for k := 0 to NEW_SLOTS
        modifies vvNew
        invariant forall j :: 0 <= j < k ==> vvNew[j] == EMPTY
      {
        vvNew[k] := EMPTY;
      }
      for k := 0 to TRIED_SLOTS
        modifies vvTried
        invariant forall j :: 0 <= j < k ==> vvTried[j] == EMPTY
      {
        vvTried[k] := EMPTY;
      }
      assert vvTried[..] == Empty(key).triedTable;
      assert vvNew[..] == Empty(key).newTable;
      Runs.EmptyOk(env, key);
    }

    method SwapRandom(i: nat, j: nat)
      requires i < |vRandom| && j < |vRandom|
      requires vRandom[i] in mapInfo && vRandom[j] in mapInfo
      modifies this`mapInfo, this`vRandom
      ensures View() == S.SwapRandom(old(View()), i, j)
    {
      if i == j {
        return;
      }
      var id1, id2 := vRandom[i], vRandom[j];
      mapInfo := mapInfo[id1 := mapInfo[id1].(nRandomPos := j)];
      mapInfo := mapInfo[id2 := mapInfo[id2].(nRandomPos := i)];
      vRandom := vRandom[i := id2];
      vRandom := vRandom[j := id1];
    }

    method Delete(id: int)
      requires id in mapInfo && !mapInfo[id].fInTried && mapInfo[id].nRefCount == 0
      requires RandomOk(mapInfo, vRandom)
      modifies this`mapInfo, this`mapAddr, this`vRandom, this`nNew
      ensures View() == S.Delete(old(View()), id)
    {
      var ip := mapInfo[id].addr.service.ip;
      SwapRandom(mapInfo[id].nRandomPos, |vRandom| - 1);
      vRandom := vRandom[..|vRandom| - 1];
      mapAddr := mapAddr - {ip};
      mapInfo := mapInfo - {id};
      nNew := nNew - 1;
    }

    method ClearNew(k: nat, ghost loose: set<int>, ghost uncounted: set<int>)
      requires Shaped() && Indexed(env, View(), loose, uncounted) && k < NEW_SLOTS
      modifies this`mapInfo, this`mapAddr, this`vRandom, this`nNew, vvNew
      ensures Ops.CanClear(old(View()), k) && View() == S.ClearNew(old(View()), k)
      ensures Indexed(env, View(), loose, uncounted) && vvNew[k] == EMPTY
    {
      hide Indexed, NewSlotsOk, RandomOk, S.Delete;
      ghost var s := View();
      Ops.KnownCanClear(env, s, k, loose, uncounted);
      ClearNewOk(env, s, k, loose, uncounted);
      if vvNew[k] != EMPTY {
        var id := vvNew[k];
        assert 0 < mapInfo[id].nRefCount;
        mapInfo := mapInfo[id := mapInfo[id].(nRefCount := mapInfo[id].nRefCount - 1)];
        vvNew[k] := EMPTY;
        if mapInfo[id].nRefCount == 0 {
          assert View() == Release(s, k);
          Delete(id);
        }
      }
    }

    // The entry leaves every new bucket.
    method LeaveNewBuckets(id: int)
      requires Valid() && id in mapInfo && !mapInfo[id].fInTried
      modifies this`mapInfo, this`nNew, vvNew
      ensures View() == Ops.Unlist(old(View()), id)
    {
      hide RandomOk, AddrOk, RefCountsOk, TriedOk, BoundsOk, TimesOk, NewIds, TriedIds, Indexed, Held, ScrubBelow, Ops.Scrub, NewSlot;
      ghost var s := View();
      ghost var service := mapInfo[id].addr.service;
      Ops.KnownSlots(env, s, {}, {});
      Ops.SlotsKnown(env, s, {}, {});
      Ops.RefCountOf(env, s, id, {}, {});
      ScrubBelowEnds(s.newTable, id);
      assert mapInfo == s.mapInfo[id := s.mapInfo[id].(nRefCount := s.mapInfo[id].nRefCount)];
      for bucket := 0 to NEW_BUCKET_COUNT
        modifies this`mapInfo, vvNew
        invariant Shaped() && vvNew[..] == ScrubBelow(s.newTable, id, bucket)
        invariant mapInfo == s.mapInfo[id := s.mapInfo[id].(nRefCount := |Held(vvNew[..], id)|)]
      {
        var k := NewSlot(env, nKey, mapInfo[id].addr.service, bucket);
        ScrubStep(env, s.nKey, s.mapInfo, s.newTable, id, bucket);
        assert vvNew[k] == vvNew[..][k];
        if vvNew[k] == id {
          vvNew[k] := EMPTY;
          mapInfo := mapInfo[id := mapInfo[id].(nRefCount := mapInfo[id].nRefCount - 1)];
          assert vvNew[..] == ScrubBelow(s.newTable, id, bucket + 1);
        }
      }
      nNew := nNew - 1;
      Ops.ScrubbedHeld(s.newTable, id, id);
      assert mapInfo[id].nRefCount == 0;
    }

    method MarkTried(id: int)
      requires Valid() && id in mapInfo && !mapInfo[id].fInTried
      modifies this`mapInfo, this`mapAddr, this`vRandom, this`nNew, this`nTried, vvNew, vvTried
      ensures Valid() && View() == Ops.MarkTried(env, old(View()), id)
    {
      hide RandomOk, AddrOk, NewSlotsOk, RefCountsOk, TriedOk, BoundsOk, TimesOk, NewIds, TriedIds, Indexed, Ops.MakeRoom, TriedSlot, Ops.Scrub;
      ghost var s := View();
      LeaveNewBuckets(id);
      ghost var s1 := View();
      Ops.UnlistOk(env, s, id);
      Ops.KnownSlots(env, s1, {id}, {id});
      Ops.MakeRoomOk(env, s1, id);
      Runs.MakeRoomTables(env, s1, id);

      // the only slot TriedOk allows the entry
      var k := TriedSlot(env, nKey, mapInfo[id].addr.service);
      // its holder loses the slot before the entry gets it, so that each tried id keeps one
      if vvTried[k] != EMPTY {
        BackToNew(k, id);
      }
      assert View() == Ops.MakeRoom(env, s1, id);
      assert vvTried[k] == EMPTY;
      vvTried[k] := id;
      nTried := nTried + 1;
      mapInfo := mapInfo[id := mapInfo[id].(fInTried := true)];
      Ops.MarkTriedOk(env, s, id);
      assert vvTried[..] == Ops.MakeRoom(env, s1, id).triedTable[k := id];
      assert View().mapInfo == Ops.MarkTried(env, s, id).mapInfo;
      assert View() == Ops.MarkTried(env, s, id);
    }

    // The entry in tried slot k moves to the new slot of its own source.
    method BackToNew(k: nat, ghost id: int)
      requires Shaped() && Indexed(env, View(), {id}, {id}) && id in mapInfo
      requires k == TriedSlot(env, nKey, mapInfo[id].addr.service) && vvTried[k] != EMPTY
      modifies this`mapInfo, this`mapAddr, this`vRandom, this`nNew, this`nTried, vvNew, vvTried
      ensures View() == Ops.MakeRoom(env, old(View()), id)
    {
      hide RandomOk, AddrOk, NewSlotsOk, RefCountsOk, TriedOk, BoundsOk, TimesOk, NewIds, TriedIds, Indexed, TriedSlot, NewSlot, GetNewBucket, S.ClearNew;
      ghost var s1 := View();
      Ops.KnownSlots(env, s1, {id}, {id});
      var idEvict := vvTried[k];
      assert idEvict == s1.triedTable[k];
      Ops.EvictOk(env, s1, k, {id}, {id});
      mapInfo := mapInfo[idEvict := mapInfo[idEvict].(fInTried := false)];
      vvTried[k] := EMPTY;
      nTried := nTried - 1;
      ghost var s2 := View();
      assert s2 == Ops.Evict(s1, k);
      ghost var both := {id} + {idEvict};
      Ops.ReadmitOk(env, s2, idEvict, both, both);

      var service := mapInfo[idEvict].addr.service;
      var slot := NewSlot(env, nKey, service, GetNewBucket(env, nKey, service, mapInfo[idEvict].source));
      ClearNew(slot, both, both);
      Ops.KnownSlots(env, View(), both, both);
      assert mapInfo[idEvict].nRefCount == 0;
      mapInfo := mapInfo[idEvict := mapInfo[idEvict].(nRefCount := 1)];
      vvNew[slot] := idEvict;
      nNew := nNew + 1;
    }

    // The lookup of an entry by network address.
    function Find(ip: NetAddr): (id: int)
      requires Valid()
      reads this, vvTried, vvNew
      ensures id == EMPTY <==> ip !in mapAddr
      ensures id != EMPTY ==> id in mapInfo && mapInfo[id].addr.service.ip == ip
      ensures forall j :: j in mapInfo && mapInfo[j].addr.service.ip == ip ==> j == id
    {
      if ip in mapAddr && mapAddr[ip] in mapInfo then mapAddr[ip] else EMPTY
    }

    // A bucket that holds the entry, searched from a random one onwards.
    method FindNewBucket(id: int, nRnd: nat) returns (bucket: int)
      requires Valid() && id in mapInfo && nRnd < NEW_BUCKET_COUNT
      ensures bucket == -1 <==> mapInfo[id].nRefCount == 0
      ensures bucket != -1 ==>
                0 <= bucket < 1024 && vvNew[NewSlot(env, nKey, mapInfo[id].addr.service, bucket)] == id
    {
      ghost var service := mapInfo[id].addr.service;
      ghost var held := Held(vvNew[..], id);
      Ops.RefCountOf(env, View(), id, {}, {});
      Ops.SlotsKnown(env, View(), {}, {});
      hide Indexed, NewSlot, Probe, NewSlotsOk;
      for n := 0 to NEW_BUCKET_COUNT
        invariant forall j :: 0 <= j < n ==> NewSlot(env, nKey, service, Probe(j, nRnd)) !in held
      {
        var b := Probe(n, nRnd);
        var k := NewSlot(env, nKey, mapInfo[id].addr.service, b);
        assert vvNew[..][k] == vvNew[k];
        if vvNew[k] == id {
          assert k in held;
          return b;
        }
      }
      forall k | k in held
        ensures false
      {
        SlotHolder(env, nKey, mapInfo, vvNew[..], k);
        var j := ProbeReaches(k / 64, nRnd);
      }
      assert held == {};
      return -1;
    }

    method Good(service: Service, nTime: int, nRnd: nat)
      requires Valid() && nRnd < NEW_BUCKET_COUNT
      modifies this`mapInfo, this`mapAddr, this`vRandom, this`nNew, this`nTried, vvNew, vvTried
      ensures Valid() && View() == Runs.Good(env, old(View()), service, nTime)
    {
      hide Indexed, NewSlot;
      ghost var s := View();
      Runs.GoodKeepsIndexes(env, s, service, nTime);
      // nothing changes for an address without an entry
      if service.ip !in mapAddr || mapAddr[service.ip] !in mapInfo {
        return;
      }
      var id := mapAddr[service.ip];
      // nor for another port of that address
      if mapInfo[id].addr.service != service {
        return;
      }
      Runs.KnownEntry(env, s, service.ip);
      Runs.StatsFrame(env, s, id, Runs.Succeeded(s.mapInfo[id], nTime));
      mapInfo := mapInfo[id := mapInfo[id].(nLastSuccess := nTime, nLastTry := nTime, nAttempts := 0)];
      assert View() == Runs.Update(s, id, Runs.Succeeded(s.mapInfo[id], nTime));
      if mapInfo[id].fInTried {
        return;
      }
      // an entry that is not tried holds a slot, so the probe reaches it
      var bucket := FindNewBucket(id, nRnd);
      if bucket == -1 {
        return;
      }
      MarkTried(id);
    }

    method Attempt(service: Service, nTime: int)
      requires Valid()
      modifies this`mapInfo
      ensures Valid() && View() == Runs.Attempt(old(View()), service, nTime)
    {
      hide Indexed;
      Runs.AttemptKeepsIndexes(env, View(), service, nTime);
      if service.ip !in mapAddr || mapAddr[service.ip] !in mapInfo {
        return;
      }
      var id := mapAddr[service.ip];
      if mapInfo[id].addr.service != service {
        return;
      }
      mapInfo := mapInfo[id := mapInfo[id].(nLastTry := nTime, nAttempts := mapInfo[id].nAttempts + 1)];
    }

    method Connected(service: Service, nTime: int)
      requires Valid()
      modifies this`mapInfo
      ensures Valid() && View() == Runs.Connected(old(View()), service, nTime)
    {
      hide Indexed;
      Runs.ConnectedKeepsIndexes(env, View(), service, nTime);
      if service.ip !in mapAddr || mapAddr[service.ip] !in mapInfo {
        return;
      }
      var id := mapAddr[service.ip];
      var info := mapInfo[id];
      if info.addr.service != service {
        return;
      }
      if nTime - info.addr.nTime > 20 * 60 {
        mapInfo := mapInfo[id := info.(addr := info.addr.(nTime := ToUint32(nTime)))];
      }
    }

    method Create(addr: Address, source: NetAddr) returns (id: int)
      modifies this`nIdCount, this`mapInfo, this`mapAddr, this`vRandom
      ensures id == old(nIdCount) && View() == S.Create(old(View()), addr, source)
    {
      id := nIdCount;
      nIdCount := nIdCount + 1;
      mapInfo := mapInfo[id := NewInfo(addr, source)];
      mapAddr := mapAddr[addr.service.ip := id];
      mapInfo := mapInfo[id := mapInfo[id].(nRandomPos := |vRandom|)];
      vRandom := vRandom + [id];
    }

    // Give the entry a reference from this source, if its slot yields.
    method PlaceNew(id: int, source: NetAddr, now: int, ghost loose: set<int>)
      requires Shaped() && Indexed(env, View(), loose, {}) && (loose == {} || loose == {id})
      requires id in mapInfo && !mapInfo[id].fInTried && mapInfo[id].nRefCount < NEW_BUCKETS_PER_ADDRESS
      requires loose == {} ==> mapInfo[id].nRefCount != 0
      modifies this`mapInfo, this`mapAddr, this`vRandom, this`nNew, vvNew
      ensures Valid() && View() == Runs.Place(env, old(View()), id, source, now)
    {
      hide Indexed, S.ClearNew, S.Delete, NewSlot, GetNewBucket, RandomOk, NewSlotsOk, RefCountsOk, IsTerrible, Shifted, Ops.CanClear;
      ghost var s := View();
      Ops.KnownSlots(env, s, loose, {});
      Ops.SlotsKnown(env, s, loose, {});
      Runs.PlaceOk(env, s, id, source, now, loose);
      var service := mapInfo[id].addr.service;
      var k := NewSlot(env, nKey, service, GetNewBucket(env, nKey, service, source));
      assert k == Runs.ReportSlot(env, s, id, source);
      if loose == {id} {
        Ops.LooseHoldsNothing(env, s, id, loose, {}, k);
      }
      assert vvNew[k] == s.newTable[k];
      if vvNew[k] != id {
        var insert := vvNew[k] == EMPTY;
        if !insert {
          var existing := mapInfo[vvNew[k]];
          if IsTerrible(existing, now) || (existing.nRefCount > 1 && mapInfo[id].nRefCount == 0) {
            insert := true;
          }
        }
        assert insert == Runs.SlotYields(s, k, id, now);
        if insert {
          ClearNew(k, loose, {});
          ClearNewEffect(s, k);
          assert id in mapInfo.Keys;
          mapInfo := mapInfo[id := mapInfo[id].(nRefCount := mapInfo[id].nRefCount + 1)];
          vvNew[k] := id;
          assert View() == TakeSlot(S.ClearNew(s, k), id, k);
        } else if mapInfo[id].nRefCount == 0 {
          Delete(id);
        }
      }
    }

    method RefreshKnown(id: int, addr: Address, penalty: int, now: int)
      requires id in mapInfo
      modifies this`mapInfo
      ensures mapInfo == old(mapInfo)[id := Runs.Refreshed(old(mapInfo)[id], addr, penalty, now)]
    {
      hide ServiceBits.Merge, ToUint32, Max;
      // only the time stamp, which no index depends on
      var online := now - addr.nTime < 24 * 60 * 60;
      var interval := if online then 60 * 60 else 24 * 60 * 60;
      var info := mapInfo[id];
      if addr.nTime != 0 && (info.addr.nTime == 0 || info.addr.nTime < addr.nTime - interval - penalty) {
        info := info.(addr := info.addr.(nTime := ToUint32(Max(0, addr.nTime - penalty))));
      }
      // and the service bits
      info := info.(addr := info.addr.(nServices := ServiceBits.Merge(info.addr.nServices, addr.nServices)));
      mapInfo := mapInfo[id := info];
    }

    static method Doubled(count: nat) returns (factor: nat)
      ensures factor == Bits.Pow2(count)
    {
      factor := 1;
      for n := 0 to count
        invariant factor == Bits.Pow2(n)
      {
        factor := factor * 2;
      }
    }

    method Add(addr: Address, source: NetAddr, penalty: int, now: int, draw: nat) returns (isNew: bool)
      requires Valid()
      modifies this`nIdCount, this`mapInfo, this`mapAddr, this`vRandom, this`nNew, vvNew
      ensures Valid() && View() == Runs.Add(env, old(View()), addr, source, penalty, now, draw)
      ensures isNew == Runs.AddAnswer(env, old(View()), addr)
    {
      hide Indexed, Runs.Place, IsTerrible, Bits.Pow2;
      ghost var s := View();
      Runs.AddOk(env, s, addr, source, penalty, now, draw);
      if !env.routable(addr.service.ip) {
        return false;
      }
      isNew := false;
      var id;
      if addr.service.ip in mapAddr {
        id := mapAddr[addr.service.ip];
        Runs.KnownEntry(env, s, addr.service.ip);
        ghost var info := Runs.Refreshed(s.mapInfo[id], addr, penalty, now);
        Runs.StatsFrame(env, s, id, info);

        RefreshKnown(id, addr, penalty, now);
        var cur := mapInfo[id];
        assert View() == Runs.Update(s, id, info);

        // an older report leaves the state as refreshed
        if addr.nTime == 0 || (cur.addr.nTime != 0 && addr.nTime <= cur.addr.nTime) {
          return false;
        }
        if cur.fInTried {
          return false;
        }
        if cur.nRefCount == NEW_BUCKETS_PER_ADDRESS {
          return false;
        }
        // the bound of 8 references was checked before; the draw only makes more of them rarer
        var factor := Doubled(cur.nRefCount);
        if factor > 1 && draw % factor != 0 {
          return false;
        }
        assert Runs.MayReference(info, addr, draw);
        PlaceNew(id, source, now, {});
      } else {
        Runs.CreatedOk(env, s, addr, source, penalty);
        id := Create(addr, source);
        var created := mapInfo[id];
        mapInfo := mapInfo[id := created.(addr := created.addr.(nTime := ToUint32(Max(0, created.addr.nTime - penalty))))];
        nNew := nNew + 1;
        isNew := true;
        assert View() == Runs.Created(s, addr, source, penalty);
        PlaceNew(id, source, now, {id});
      }
    }

    method GetAddr(rnd: nat -> nat, now: int) returns (result: seq<Address>, ghost steps: nat)
      requires Valid()
      modifies this`mapInfo, this`vRandom
      ensures steps <= old(|vRandom|) && |vRandom| == old(|vRandom|)
      ensures Valid() && View() == Runs.Shuffled(old(View()), rnd, steps)
      // at most 23 percent of the entries and at most 2500
      ensures |result| <= 23 * |vRandom| / 100 && |result| <= 2500
      // every answer is a known entry of decent quality, and no address is given twice
      ensures forall a :: a in result ==> DecentEntry(mapInfo, now, a)
      ensures forall i, j :: 0 <= i < j < |result| ==> result[i].service.ip != result[j].service.ip
      // fewer answers than allowed means that nothing decent was left out
      ensures |result| < 23 * |vRandom| / 100 && |result| < 2500 ==>
                forall id :: id in mapInfo && !IsTerrible(mapInfo[id], now) ==> mapInfo[id].addr in result
    {
      hide Indexed, RandomOk, SameButPos;
      ghost var s := View();
      Runs.RandomKnown(env, s);
      Runs.SameButPosRefl(s.mapInfo);
      var size := |vRandom|;
      var nNodes := Runs.GetAddrLimit(size);
      result, steps := [], 0;
      ghost var ids: seq<int> := [];
      for n := 0 to size
        invariant steps == n && RandomOk(mapInfo, vRandom) && View() == Runs.Shuffled(s, rnd, n)
        invariant |vRandom| == size && SameButPos(s.mapInfo, mapInfo)
        invariant |result| <= nNodes && Collected(mapInfo, now, n, ids, result)
      {
        if |result| >= nNodes {
          break;
        }
        var p := Runs.Partner(rnd(n), n, size);
        ghost var m := mapInfo;
        RandomIdsKnown(mapInfo, vRandom, n, p);
        ghost var t := View();
        SwapKeepsRandom(t, n, p);
        SwapRandom(n, p);
        Runs.SameButPosTrans(s.mapInfo, m, mapInfo);
        steps := n + 1;
        RandomIdsKnown(mapInfo, vRandom, n, n);
        var info := mapInfo[vRandom[n]];
        CollectedSwap(t, now, n, p, ids, result);
        CollectedStep(mapInfo, vRandom, now, n, ids, result);
        if !IsTerrible(info, now) {
          result := result + [info.addr];
          ids := ids + [vRandom[n]];
        }
      }
      Runs.ShuffledOk(env, s, rnd, steps);
      CollectedMeans(env, View(), now, steps, ids, result);
    }

    // ----- the consistency check

    method ValidateInternal() returns (code: int)
      requires Valid()
      ensures code == 0 <==> Consistent(env, View())
    {
      hide Indexed;
      ghost var s := View();
      Ops.KnownSlots(env, s, {}, {});
      Ops.AddrKnown(env, s);
      Load.EntryCounts(env, s);
      Check.CheckedIffConsistent(env, s);
      code := Check.ValidateInternal(env, State(nKey, nIdCount, mapInfo, mapAddr, vRandom, nTried, nNew, vvTried[..], vvNew[..]));
    }

    // ----- saving

    method SaveNewEntries() returns (out: seq<Disk.Token>, mapUnkIds: map<int, int>)
      requires Valid()
      ensures Disk.IdsOk(View()) && out == Load.Entries(mapInfo, Disk.IdList(mapInfo, nIdCount, false))
      ensures forall id :: id in mapInfo ==> id in mapUnkIds && mapUnkIds[id] == |Disk.IdList(mapInfo, id, false)|
    {
      hide Indexed;
      Load.EntryCounts(env, View());
      out, mapUnkIds := [], map[];
      var nIds := 0;
      for n := 0 to nIdCount
        invariant nIds == |out| && Load.NewWritten(mapInfo, n, out, mapUnkIds)
      {
        Load.NewWrittenStep(mapInfo, n, out, mapUnkIds);
        if n in mapInfo {
          mapUnkIds := mapUnkIds[n := nIds];
          Ops.BoundOf(env, View(), n);
          if mapInfo[n].fInTried {
            Ops.TriedUnreferenced(env, View(), n);
          }
          if mapInfo[n].nRefCount != 0 {
            Disk.IdListRank(mapInfo, nIdCount, n);
            assert nIds != nNew;
            out := out + [Disk.Entry(Disk.ToDisk(mapInfo[n]))];
            nIds := nIds + 1;
          }
        }
      }
    }

    method SaveTriedEntries() returns (out: seq<Disk.Token>)
      requires Valid()
      ensures Disk.IdsOk(View()) && out == Load.Entries(mapInfo, Disk.IdList(mapInfo, nIdCount, true))
    {
      hide Indexed;
      Load.EntryCounts(env, View());
      out := [];
      var nIds := 0;
      for n := 0 to nIdCount
        invariant nIds == |Disk.IdList(mapInfo, n, true)|
        invariant out == Load.Entries(mapInfo, Disk.IdList(mapInfo, n, true))
      {
        if n in mapInfo && mapInfo[n].fInTried {
          Disk.IdListRank(mapInfo, nIdCount, n);
          assert nIds != nTried;
          out := out + [Disk.Entry(Disk.ToDisk(mapInfo[n]))];
          nIds := nIds + 1;
        }
      }
    }

    method BucketSize(bucket: nat) returns (nSize: nat)
      requires Shaped() && bucket < NEW_BUCKET_COUNT
      ensures nSize == |Load.Occupied(vvNew[..], bucket * 64, bucket * 64 + 64)|
    {
      nSize := 0;
      for i := 0 to BUCKET_SIZE
        invariant nSize == |Load.Occupied(vvNew[..], bucket * 64, bucket * 64 + i)|
      {
        assert vvNew[..][bucket * 64 + i] == vvNew[bucket * 64 + i];
        if vvNew[bucket * BUCKET_SIZE + i] != EMPTY {
          nSize := nSize + 1;
        }
      }
    }

    method SaveBucket(bucket: nat, mapUnkIds: map<int, int>) returns (out: seq<Disk.Token>)
      requires Valid() && bucket < NEW_BUCKET_COUNT
      requires forall id :: id in mapInfo && 0 <= id ==> id in mapUnkIds && mapUnkIds[id] == |Disk.IdList(mapInfo, id, false)|
      ensures Load.Savable(View()) && out == Load.BucketTokens(View(), bucket)
    {
      hide Indexed, Disk.IdList, NewSlotsOk, RefCountsOk, RandomOk, NewSlot, Load.IsIndexList, Load.Occupied, Disk.Rank;
      ghost var s := View();
      Load.EntryCounts(env, s);
      Ops.SlotsKnown(env, s, {}, {});
      var nSize := BucketSize(bucket);
      out := [];
      Load.IndexStart(s, bucket * 64);
      for i := 0 to BUCKET_SIZE
        invariant Load.IsIndexList(s, Load.Occupied(s.newTable, bucket * 64, bucket * 64 + i), out)
      {
        var k := bucket * BUCKET_SIZE + i;
        Load.IndexStep(env, s, bucket * 64, k, out);
        assert s.newTable[k] == vvNew[k];
        if vvNew[k] != EMPTY {
          var nIndex := mapUnkIds[vvNew[k]];
          out := out + [Disk.Num(nIndex)];
        }
      }
      Load.IndexEnd(s, bucket, out);
      out := [Disk.Num(nSize)] + out;
    }

    method SaveHeader() returns (out: seq<Disk.Token>)
      ensures out == Load.Header(View())
    {
      out := [Disk.Byte(3), Disk.Byte(32), Disk.KeyToken(nKey), Disk.Num(nNew), Disk.Num(nTried),
              Disk.Num(Disk.FlipBit30(NEW_BUCKET_COUNT))];
    }

    method Serialize() returns (out: seq<Disk.Token>)
      requires Valid()
      ensures Load.Savable(View()) && out == Load.Save(View())
    {
      hide Indexed, Disk.IdList, Load.Header, Load.Entries, Load.BucketTokens, Disk.TablesKnown;
      ghost var s := View();
      Load.EntryCounts(env, s);
      out := SaveHeader();
      var news, mapUnkIds := SaveNewEntries();
      var trieds := SaveTriedEntries();
      Load.EntriesConcat(s.mapInfo, Disk.IdList(s.mapInfo, s.nIdCount, false), Disk.IdList(s.mapInfo, s.nIdCount, true));
      out := out + (news + trieds);
      ghost var front := Load.Header(s) + Load.Entries(s.mapInfo, Disk.Order(s));
      for bucket := 0 to NEW_BUCKET_COUNT
        invariant out == front + Load.Buckets(s, bucket)
      {
        var tokens := SaveBucket(bucket, mapUnkIds);
        out := out + tokens;
      }
    }

    // ----- loading

    method Clear()
      requires Shaped()
      modifies this`vRandom, this`nIdCount, this`nTried, this`nNew, vvNew, vvTried
      ensures vRandom == [] && nIdCount == 0 && nTried == 0 && nNew == 0
      ensures vvNew[..] == seq(NEW_SLOTS, _ => EMPTY) && vvTried[..] == seq(TRIED_SLOTS, _ => EMPTY)
    {
      vRandom := [];
      for k := 0 to NEW_SLOTS
        modifies vvNew
        invariant forall j :: 0 <= j < k ==> vvNew[j] == EMPTY
      {
        vvNew[k] := EMPTY;
      }
      for k := 0 to TRIED_SLOTS
        modifies vvTried
        invariant forall j :: 0 <= j < k ==> vvTried[j] == EMPTY
      {
        vvTried[k] := EMPTY;
      }
      nIdCount, nTried, nNew := 0, 0, 0;
    }

    method AppendEntry(id: int, info: Info)
      requires id !in mapInfo && RandomOk(mapInfo, vRandom)
      modifies this`mapInfo, this`mapAddr, this`vRandom
      ensures RandomOk(mapInfo, vRandom)
      ensures mapInfo == old(mapInfo)[id := info.(nRandomPos := |old(vRandom)|)]
      ensures mapAddr == old(mapAddr)[info.addr.service.ip := id]
      ensures vRandom == old(vRandom) + [id]
    {
      Load.AppendKeepsRandom(mapInfo, vRandom, id, info);
      mapInfo := mapInfo[id := info.(nRandomPos := |vRandom|)];
      mapAddr := mapAddr[info.addr.service.ip := id];
      vRandom := vRandom + [id];
    }

    // The entries of the new table.  If the bucket count differs, each is given the slot of
    // its own source right away.
    method ReadNewEntries(stream: seq<Disk.Token>, version: nat, nUBuckets: int, ghost s: State) returns (ok: bool)
      requires Shaped() && mapInfo == map[] && mapAddr == map[] && vRandom == []
      modifies this`mapInfo, this`mapAddr, this`vRandom, vvNew
      ensures ok ==> RandomOk(mapInfo, vRandom) && forall id :: id in mapInfo <==> 0 <= id < nNew
      ensures Load.SavedAs(env, s, stream) && version == 3 && nNew == s.nNew && nUBuckets == NEW_BUCKET_COUNT
              && Load.TriedAre(s, 0, vvTried[..]) ==>
                && ok && vvNew[..] == old(vvNew[..])
                && Load.EntriesAre(s, nNew, mapInfo, mapAddr, vRandom) && Load.TriedAre(s, nNew, vvTried[..])
    {
      hide Indexed, RandomOk, Load.SavedAs, Load.EntriesAre, Load.TriedAre, Disk.FromDisk, NewSlot;
      ghost var saved := Load.SavedAs(env, s, stream) && version == 3 && nNew == s.nNew && nUBuckets == NEW_BUCKET_COUNT
        && Load.TriedAre(s, 0, vvTried[..]);
      if saved {
        Load.ReadStart(env, s, stream);
      }
      RandomEmpty();
      var n := 0;
      while n < nNew
        invariant Shaped() && 0 <= n && (n <= nNew || n == 0) && RandomOk(mapInfo, vRandom)
        invariant forall id :: id in mapInfo <==> 0 <= id < n
        invariant saved ==> n <= nNew && vvNew[..] == old(vvNew[..])
        invariant saved ==> Load.EntriesAre(s, n, mapInfo, mapAddr, vRandom) && Load.TriedAre(s, n, vvTried[..])
      {
        if saved {
          Load.ReadStep(env, s, stream, n, mapInfo, mapAddr, vRandom, vvTried[..]);
        }
        if |stream| <= 6 + n || !stream[6 + n].Entry? {
          return false;
        }
        FromDiskFresh(stream[6 + n].info, version);
        AppendEntry(n, Disk.FromDisk(stream[6 + n].info, version));
        if nUBuckets != NEW_BUCKET_COUNT {
          var info := mapInfo[n];
          var k := NewSlot(env, nKey, info.addr.service, GetNewBucket(env, nKey, info.addr.service, info.source));
          if vvNew[k] == EMPTY {
            vvNew[k] := n;
            RefKeepsRandom(mapInfo, vRandom, n, info.nRefCount + 1);
            mapInfo := mapInfo[n := info.(nRefCount := info.nRefCount + 1)];
          }
        }
        n := n + 1;
      }
      return true;
    }

    // The tried entries; one whose slot is taken is lost.
    method ReadTriedEntries(stream: seq<Disk.Token>, version: nat, ghost s: State) returns (ok: bool, nLost: int)
      requires Shaped() && RandomOk(mapInfo, vRandom) && nIdCount == nNew
      requires forall id :: id in mapInfo <==> 0 <= id < nNew
      modifies this`mapInfo, this`mapAddr, this`vRandom, this`nIdCount, vvTried
      ensures ok ==> RandomOk(mapInfo, vRandom) && forall id :: 0 <= id < nNew ==> id in mapInfo
      ensures Load.SavedAs(env, s, stream) && version == 3 && nNew == s.nNew && nTried == s.nTried && nKey == s.nKey
              && Load.EntriesAre(s, nNew, old(mapInfo), old(mapAddr), old(vRandom)) && Load.TriedAre(s, nNew, old(vvTried[..])) ==>
                && ok && nLost == 0 && nIdCount == nNew + nTried
                && Load.EntriesAre(s, nIdCount, mapInfo, mapAddr, vRandom) && Load.TriedAre(s, nIdCount, vvTried[..])
    {
      hide Indexed, RandomOk, Load.SavedAs, Load.EntriesAre, Load.TriedAre, Disk.FromDisk, TriedSlot;
      ghost var saved := Load.SavedAs(env, s, stream) && version == 3 && nNew == s.nNew && nTried == s.nTried
        && nKey == s.nKey && Load.EntriesAre(s, nNew, mapInfo, mapAddr, vRandom) && Load.TriedAre(s, nNew, vvTried[..]);
      if saved {
        Load.ReadStart(env, s, stream);
      }
      nLost := 0;
      var n := 0;
      while n < nTried
        invariant Shaped() && 0 <= n && (n <= nTried || n == 0) && RandomOk(mapInfo, vRandom) && nNew <= nIdCount
        invariant forall id :: id in mapInfo ==> id < nIdCount
        invariant forall id :: 0 <= id < nNew ==> id in mapInfo
        invariant saved ==> n <= nTried && nLost == 0 && nIdCount == nNew + n
        invariant saved ==> Load.EntriesAre(s, nIdCount, mapInfo, mapAddr, vRandom) && Load.TriedAre(s, nIdCount, vvTried[..])
      {
        var at := 6 + (if nNew > 0 then nNew else 0) + n;
        if saved {
          Load.ReadStep(env, s, stream, nIdCount, mapInfo, mapAddr, vRandom, vvTried[..]);
        }
        if |stream| <= at || !stream[at].Entry? {
          return false, nLost;
        }
        var info := Disk.FromDisk(stream[at].info, version);
        var k := TriedSlot(env, nKey, info.addr.service);
        assert vvTried[..][k] == vvTried[k];
        if vvTried[k] == EMPTY {
          AppendEntry(nIdCount, info.(fInTried := true));
          vvTried[k] := nIdCount;
          nIdCount := nIdCount + 1;
        } else {
          nLost := nLost + 1;
        }
        n := n + 1;
      }
      return true, nLost;
    }

    // One bucket of indices; each is entered at its hashed place if that is free.
    method ReadBucket(stream: seq<Disk.Token>, at: nat, version: nat, nUBuckets: int, bucket: nat, ghost s: State)
      returns (ok: bool, next: nat)
      requires Shaped() && RandomOk(mapInfo, vRandom) && (nUBuckets == NEW_BUCKET_COUNT ==> bucket < NEW_BUCKET_COUNT)
      requires forall id :: 0 <= id < nNew ==> id in mapInfo
      modifies this`mapInfo, vvNew
      ensures RandomOk(mapInfo, vRandom) && mapInfo.Keys == old(mapInfo.Keys)
      ensures bucket < 1024 && Load.SavedAs(env, s, stream) && version == 3 && nUBuckets == NEW_BUCKET_COUNT
              && nNew == s.nNew && nKey == s.nKey
              && Load.Savable(s) && at == Load.BucketStart(s, bucket) && Load.RefsAre(s, bucket * 64, old(mapInfo), old(vvNew[..])) ==>
                ok && next == Load.BucketStart(s, bucket + 1) && Load.RefsAre(s, bucket * 64 + 64, mapInfo, vvNew[..])
    {
      hide Indexed, RandomOk, Load.SavedAs, Load.RefsAre, Load.BucketStart, Load.Occupied, NewSlot;
      ghost var saved := bucket < 1024 && Load.SavedAs(env, s, stream) && Load.Savable(s) && version == 3 && nUBuckets == NEW_BUCKET_COUNT
        && nNew == s.nNew && nKey == s.nKey
        && at == Load.BucketStart(s, bucket) && Load.RefsAre(s, bucket * 64, mapInfo, vvNew[..]);
      next := at + 1;
      if saved {
        Load.BucketHead(env, s, stream, bucket);
      }
      if |stream| <= at || !stream[at].Num? {
        return false, next;
      }
      var nSize := stream[at].n;
      var n := 0;
      ghost var k := bucket * 64;
      while n < nSize
        invariant Shaped() && RandomOk(mapInfo, vRandom) && mapInfo.Keys == old(mapInfo.Keys)
        invariant 0 <= n && next == at + 1 + n && 0 <= k
        invariant saved ==> Load.BucketProgress(s, bucket, k, n, nSize) && Load.RefsAre(s, k, mapInfo, vvNew[..])
      {
        ghost var p: nat;
        if saved {
          p := Load.IndexRead(env, s, stream, bucket, k, n, nSize, mapInfo, vvNew[..]);
        }
        if |stream| <= next || !stream[next].Num? {
          return false, next;
        }
        var nIndex := stream[next].n;
        next := next + 1;
        if 0 <= nIndex < nNew {
          var info := mapInfo[nIndex];
          var slot := NewSlot(env, nKey, info.addr.service, bucket);
          if version >= 1 && nUBuckets == NEW_BUCKET_COUNT && vvNew[slot] == EMPTY
             && info.nRefCount < NEW_BUCKETS_PER_ADDRESS {
            RefKeepsRandom(mapInfo, vRandom, nIndex, info.nRefCount + 1);
            mapInfo := mapInfo[nIndex := info.(nRefCount := info.nRefCount + 1)];
            vvNew[slot] := nIndex;
          }
        }
        n := n + 1;
        if saved {
          k := p + 1;
        }
      }
      if saved {
        Load.BucketRead(env, s, stream, bucket, k, n, nSize, mapInfo, vvNew[..]);
      }
      return true, next;
    }

    method ReadBuckets(stream: seq<Disk.Token>, at: nat, version: nat, nUBuckets: int, ghost s: State)
      returns (ok: bool, next: nat)
      requires Shaped() && RandomOk(mapInfo, vRandom)
      requires forall id :: 0 <= id < nNew ==> id in mapInfo
      modifies this`mapInfo, vvNew
      ensures RandomOk(mapInfo, vRandom) && mapInfo.Keys == old(mapInfo.Keys)
      ensures Load.SavedAs(env, s, stream) && version == 3 && nUBuckets == NEW_BUCKET_COUNT && nNew == s.nNew && nKey == s.nKey
              && Load.Savable(s) && at == Load.BucketStart(s, 0) && Load.RefsAre(s, 0, old(mapInfo), old(vvNew[..])) ==>
                ok && next == Load.BucketStart(s, 1024) && Load.RefsAre(s, NEW_SLOTS, mapInfo, vvNew[..])
    {
      hide Indexed, RandomOk, Load.SavedAs, Load.RefsAre, Load.BucketStart;
      ghost var saved := Load.SavedAs(env, s, stream) && Load.Savable(s) && version == 3 && nUBuckets == NEW_BUCKET_COUNT
        && nNew == s.nNew && nKey == s.nKey && at == Load.BucketStart(s, 0) && Load.RefsAre(s, 0, mapInfo, vvNew[..]);
      next := at;
      ok := true;
      var bucket := 0;
      while bucket < nUBuckets
        invariant Shaped() && RandomOk(mapInfo, vRandom) && mapInfo.Keys == old(mapInfo.Keys) && 0 <= bucket
        invariant saved ==> bucket <= 1024 && next == Load.BucketStart(s, bucket) && Load.RefsAre(s, bucket * 64, mapInfo, vvNew[..])
      {
        ok, next := ReadBucket(stream, next, version, nUBuckets, bucket, s);
        if !ok {
          return;
        }
        bucket := bucket + 1;
      }
    }

    // Entries that ended up with no reference are dropped.
    method Prune(lo: int)
      requires Shaped() && RandomOk(mapInfo, vRandom)
      modifies this`mapInfo, this`mapAddr, this`vRandom, this`nNew
      ensures RandomOk(mapInfo, vRandom)
      ensures (forall id :: id in old(mapInfo) ==> old(mapInfo)[id].fInTried || old(mapInfo)[id].nRefCount != 0) ==>
                mapInfo == old(mapInfo) && mapAddr == old(mapAddr) && vRandom == old(vRandom) && nNew == old(nNew)
    {
      hide RandomOk, S.Delete;
      var n := lo;
      while n < nIdCount
        invariant RandomOk(mapInfo, vRandom)
        invariant (forall id :: id in old(mapInfo) ==> old(mapInfo)[id].fInTried || old(mapInfo)[id].nRefCount != 0) ==>
                    mapInfo == old(mapInfo) && mapAddr == old(mapAddr) && vRandom == old(vRandom) && nNew == old(nNew)
      {
        if n in mapInfo && !mapInfo[n].fInTried && mapInfo[n].nRefCount == 0 {
          DeleteRandom(View(), n);
          Delete(n);
        }
        n := n + 1;
      }
    }

    method ReadEntries(stream: seq<Disk.Token>, version: nat, nUBuckets: int, ghost s: State) returns (ok: bool)
      requires Shaped() && mapInfo == map[] && mapAddr == map[] && vRandom == []
      modifies this`mapInfo, this`mapAddr, this`vRandom, this`nIdCount, this`nTried, vvNew, vvTried
      ensures ok ==> RandomOk(mapInfo, vRandom) && forall id :: 0 <= id < nNew ==> id in mapInfo
      ensures Load.SavedAs(env, s, stream) && version == 3 && nNew == s.nNew && old(nTried) == s.nTried && nKey == s.nKey
              && nUBuckets == NEW_BUCKET_COUNT && old(vvNew[..]) == seq(NEW_SLOTS, _ => EMPTY)
              && Load.TriedAre(s, 0, old(vvTried[..])) ==>
                && ok && nTried == s.nTried
                && Load.EntriesDone(s, nIdCount, mapAddr, vRandom, vvTried[..]) && Load.RefsAre(s, 0, mapInfo, vvNew[..])
    {
      hide Indexed, RandomOk, Load.SavedAs, Load.EntriesAre, Load.TriedAre, Load.RefsAre, Load.EntriesDone;
      ghost var saved := Load.SavedAs(env, s, stream) && version == 3 && nNew == s.nNew && nTried == s.nTried && nKey == s.nKey
              && nUBuckets == NEW_BUCKET_COUNT && vvNew[..] == seq(NEW_SLOTS, _ => EMPTY) && Load.TriedAre(s, 0, vvTried[..]);
      ok := ReadNewEntries(stream, version, nUBuckets, s);
      if !ok {
        return;
      }
      nIdCount := nNew;
      var nLost;
      ok, nLost := ReadTriedEntries(stream, version, s);
      if !ok {
        return;
      }
      nTried := nTried - nLost;
      if saved {
        Load.RefsBegin(env, s, stream, mapInfo, mapAddr, vRandom, vvTried[..]);
      }
    }

    // Loading what Serialize wrote for state s gives s renumbered, and reads all of it.  On
    // any other stream it may fail, but no assertion does.
    method Unserialize(stream: seq<Disk.Token>, ghost s: State) returns (ok: bool, used: nat)
      requires Shaped() && mapInfo == map[] && mapAddr == map[]
      modifies this, vvNew, vvTried
      ensures Load.SavedAs(env, s, stream) ==> ok && used == |stream| && Valid() && View() == Load.Reloaded(s)
    {
      hide Indexed, RandomOk, Load.SavedAs, Load.TriedAre, Load.RefsAre, Load.EntriesDone, Load.BucketStart, Load.Reloaded;
      hide Disk.FlipBit30, Load.Savable;
      used := 0;
      Clear();
      ghost var saved := Load.SavedAs(env, s, stream);
      if saved {
        Load.HeaderRead(env, s, stream);
        Load.ReadStart(env, s, stream);
      }
      if |stream| < 6 || !stream[0].Byte? || !stream[1].Byte? || stream[1].b != 32 || !stream[2].KeyToken?
         || !stream[3].Num? || !stream[4].Num? || !stream[5].Num? {
        return false, used;
      }
      var version := stream[0].b;
      nKey := stream[2].key;
      nNew := stream[3].n;
      nTried := stream[4].n;
      var nUBuckets := Disk.FlipBit30(stream[5].n);
      var entries := (if nNew > 0 then nNew else 0) + (if nTried > 0 then nTried else 0);

      ok := ReadEntries(stream, version, nUBuckets, s);
      if !ok {
        return;
      }
      ok, used := ReadBuckets(stream, 6 + entries, version, nUBuckets, s);
      if !ok {
        return;
      }
      if saved {
        Load.NothingLost(env, s, stream, mapInfo, vvNew[..]);
      }
      Prune(if nNew < 0 then nNew else 0);
      if saved {
        Load.ReloadedOk(env, s, stream, View());
      }
    }
  }
}
