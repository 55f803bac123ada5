// The address manager's own consistency check, loop by loop, and what a clean result means.
module AddrManCheck {
  import opened AddrManState

  // ----- what the check looks at

  // mapAddr[info] on a std::map: a missing key reads as zero.
  function AddrLookup(mapAddr: map<NetAddr, int>, ip: NetAddr): int {
    if ip in mapAddr then mapAddr[ip] else 0
  }

  function EntryCode(s: State, n: int): (code: int)
    requires n in s.mapInfo
    ensures code <= 0
  {
    var info := s.mapInfo[n];
    if info.fInTried && info.nLastSuccess == 0 then -1
    else if info.fInTried && info.nRefCount != 0 then -2
    else if !info.fInTried && (info.nRefCount < 0 || info.nRefCount > NEW_BUCKETS_PER_ADDRESS) then -3
    else if !info.fInTried && info.nRefCount == 0 then -4
    else if AddrLookup(s.mapAddr, info.addr.service.ip) != n then -5
    else if info.nRandomPos < 0 || info.nRandomPos >= |s.vRandom| || s.vRandom[info.nRandomPos] != n then -14
    else if info.nLastTry < 0 then -6
    else if info.nLastSuccess < 0 then -8
    else 0
  }

  ghost predicate Sized(s: State) {
    |s.triedTable| == TRIED_SLOTS && |s.newTable| == NEW_SLOTS
  }

  ghost predicate EntriesPass(s: State) {
    forall n :: n in s.mapInfo ==> EntryCode(s, n) == 0
  }

  ghost predicate CountsPass(s: State) {
    && |s.vRandom| == s.nTried + s.nNew
    && |TriedIds(s.mapInfo)| == s.nTried
    && |NewIds(s.mapInfo)| == s.nNew
  }

  ghost predicate RefsPass(s: State) {
    forall id :: id in NewIds(s.mapInfo) ==> |Held(s.newTable, id)| == s.mapInfo[id].nRefCount
  }

  ghost predicate Checked(env: Env, s: State) {
    && EntriesPass(s) && CountsPass(s)
    && TriedOk(env, s.nKey, s.mapInfo, s.triedTable)
    && NewSlotsOk(env, s.nKey, s.mapInfo, s.newTable)
    && RefsPass(s)
    && s.nKey != 0
  }

  lemma Inhabited(s: set<int>)
    ensures s == {} || exists x :: x in s
  {
    if forall x :: x !in s {
      assert s == {};
    }
  }

  // ----- the loops

  ghost predicate IsRefMap(s: State, mapNew: map<int, int>) {
    mapNew.Keys == NewIds(s.mapInfo) && forall id :: id in mapNew ==> mapNew[id] == s.mapInfo[id].nRefCount
  }

  lemma Collected(s: State, todo: set<int>, setTried: set<int>, mapNew: map<int, int>)
    requires todo == {}
    requires setTried == TriedIds(s.mapInfo) - todo && mapNew.Keys == NewIds(s.mapInfo) - todo
    requires forall id :: id in mapNew ==> mapNew[id] == s.mapInfo[id].nRefCount
    ensures setTried == TriedIds(s.mapInfo)
    ensures IsRefMap(s, mapNew)
  {
    assert TriedIds(s.mapInfo) - {} == TriedIds(s.mapInfo);
    assert NewIds(s.mapInfo) - {} == NewIds(s.mapInfo);
  }

  method CheckEntries(s: State) returns (code: int, setTried: set<int>, mapNew: map<int, int>)
    ensures code == 0 <==> EntriesPass(s)
    ensures code == 0 ==> setTried == TriedIds(s.mapInfo)
    ensures code == 0 ==> IsRefMap(s, mapNew)
  {
    setTried, mapNew := {}, map[];
    var todo := s.mapInfo.Keys;
    while todo != {}
      invariant todo <= s.mapInfo.Keys
      invariant forall n :: n in s.mapInfo && n !in todo ==> EntryCode(s, n) == 0
      invariant setTried == TriedIds(s.mapInfo) - todo && mapNew.Keys == NewIds(s.mapInfo) - todo
      invariant forall id :: id in mapNew ==> mapNew[id] == s.mapInfo[id].nRefCount
    {
      Inhabited(todo);
      var n :| n in todo;
      code := EntryCode(s, n);
      if code != 0 {
        return;
      }
      if s.mapInfo[n].fInTried {
        setTried := setTried + {n};
      } else {
        mapNew := mapNew[n := s.mapInfo[n].nRefCount];
      }
      todo := todo - {n};
    }
    code := 0;
    Collected(s, todo, setTried, mapNew);
  }

  // Slot k of the tried table holds a tried entry whose hashed place it is.
  ghost predicate TriedSlotPasses(env: Env, s: State, k: nat)
    requires k < |s.triedTable|
  {
    s.triedTable[k] != EMPTY ==>
      && s.triedTable[k] in TriedIds(s.mapInfo)
      && k == TriedSlot(env, s.nKey, s.mapInfo[s.triedTable[k]].addr.service)
  }

  method CheckTried(env: Env, s: State, triedIds: set<int>) returns (code: int)
    requires Sized(s) && triedIds == TriedIds(s.mapInfo) && EMPTY !in s.mapInfo
    ensures code == 0 <==> TriedOk(env, s.nKey, s.mapInfo, s.triedTable)
  {
    var setTried := triedIds;
    for k := 0 to TRIED_SLOTS
      invariant forall j :: 0 <= j < k ==> TriedSlotPasses(env, s, j)
      invariant forall id :: id in setTried <==> id in triedIds && id !in s.triedTable[..k]
    {
      var id := s.triedTable[k];
      assert s.triedTable[..k + 1] == s.triedTable[..k] + [id];
      if id != EMPTY {
        if id !in setTried {
          if id in triedIds {
            // met before, and nobody has two hashed places
            var j :| 0 <= j < k && s.triedTable[j] == id;
            assert TriedSlotPasses(env, s, j);
          }
          assert !TriedSlotPasses(env, s, k);
          return -11;
        }
        var service := s.mapInfo[id].addr.service;
        if GetTriedBucket(env, s.nKey, service) != k / BUCKET_SIZE {
          assert !TriedSlotPasses(env, s, k);
          return -17;
        }
        if GetBucketPosition(env, s.nKey, false, k / BUCKET_SIZE, service) != k % BUCKET_SIZE {
          assert !TriedSlotPasses(env, s, k);
          return -18;
        }
        setTried := setTried - {id};
      }
    }
    assert s.triedTable[..TRIED_SLOTS] == s.triedTable;
    if setTried != {} {
      Inhabited(setTried);
      var id :| id in setTried;
      assert s.triedTable[TriedSlot(env, s.nKey, s.mapInfo[id].addr.service)] in s.triedTable;
      return -13;
    }
    forall id | id in triedIds
      ensures s.triedTable[TriedSlot(env, s.nKey, s.mapInfo[id].addr.service)] == id
    {
      var j :| 0 <= j < TRIED_SLOTS && s.triedTable[j] == id;
      assert TriedSlotPasses(env, s, j);
    }
    forall k | 0 <= k < TRIED_SLOTS && s.triedTable[k] != EMPTY
      ensures s.triedTable[k] in TriedIds(s.mapInfo)
      ensures k == TriedSlot(env, s.nKey, s.mapInfo[s.triedTable[k]].addr.service)
    {
      assert TriedSlotPasses(env, s, k);
    }
    return 0;
  }

  // Slot k of the new table holds a new entry that may be in that slot.
  ghost predicate NewSlotPasses(env: Env, s: State, k: nat)
    requires k < |s.newTable|
  {
    s.newTable[k] != EMPTY ==>
      && s.newTable[k] in NewIds(s.mapInfo)
      && k == NewSlot(env, s.nKey, s.mapInfo[s.newTable[k]].addr.service, k / 64)
  }

  lemma HeldPrefix(newTable: seq<int>, k: nat, id: int)
    requires k < |newTable|
    ensures var before, after := Held(newTable[..k], id), Held(newTable[..k + 1], id);
            if newTable[k] == id then k !in before && after == before + {k} else after == before
  {
  }

  lemma {:induction false} HeldGrows(newTable: seq<int>, k: nat, id: int)
    requires k <= |newTable|
    ensures |Held(newTable[..k], id)| <= |Held(newTable, id)|
    decreases |newTable| - k
  {
    if k == |newTable| {
      assert newTable[..k] == newTable;
    } else {
      HeldPrefix(newTable, k, id);
      HeldGrows(newTable, k + 1, id);
    }
  }

  // mapNew counts the references still to be met in slots k and beyond.
  ghost predicate Remaining(s: State, k: nat, mapNew: map<int, int>)
    requires k <= |s.newTable|
  {
    && (forall id :: id in mapNew ==> id in NewIds(s.mapInfo))
    && (forall id :: id in NewIds(s.mapInfo) ==>
          var left := s.mapInfo[id].nRefCount - |Held(s.newTable[..k], id)|;
          && 0 <= left
          && (id in mapNew <==> 0 < left)
          && (id in mapNew ==> mapNew[id] == left))
  }

  lemma RemainingStep(s: State, k: nat, mapNew: map<int, int>)
    requires k < |s.newTable| && Remaining(s, k, mapNew)
    requires s.newTable[k] == EMPTY || s.newTable[k] in mapNew
    requires EMPTY !in s.mapInfo
    ensures var id := s.newTable[k];
            Remaining(s, k + 1, if id == EMPTY then mapNew
                                else if mapNew[id] == 1 then mapNew - {id} else mapNew[id := mapNew[id] - 1])
  {
    forall id | id in NewIds(s.mapInfo)
      ensures |Held(s.newTable[..k + 1], id)| == |Held(s.newTable[..k], id)| + if s.newTable[k] == id then 1 else 0
    {
      HeldPrefix(s.newTable, k, id);
    }
  }

  method CheckNew(env: Env, s: State, counts: map<int, int>) returns (code: int)
    requires Sized(s) && EMPTY !in s.mapInfo && EntriesPass(s)
    requires IsRefMap(s, counts)
    ensures code == 0 <==> NewSlotsOk(env, s.nKey, s.mapInfo, s.newTable) && RefsPass(s)
  {
    var mapNew := counts;
    RemainingStart(s, mapNew);
    hide EntriesPass, Remaining, TriedOk, CountsPass;
    for k := 0 to NEW_SLOTS
      invariant forall j :: 0 <= j < k ==> NewSlotPasses(env, s, j)
      invariant Remaining(s, k, mapNew)
    {
      var id := s.newTable[k];
      if id != EMPTY {
        if id !in mapNew {
          NotRemaining(env, s, k, mapNew);
          return -12;
        }
        RemainingKnown(s, k, mapNew, id);
        var service := s.mapInfo[id].addr.service;
        if GetBucketPosition(env, s.nKey, true, k / BUCKET_SIZE, service) != k % BUCKET_SIZE {
          assert !NewSlotPasses(env, s, k);
          return -19;
        }
        RemainingStep(s, k, mapNew);
        mapNew := mapNew[id := mapNew[id] - 1];
        if mapNew[id] == 0 {
          mapNew := mapNew - {id};
        }
        assert NewSlotPasses(env, s, k);
      } else {
        RemainingStep(s, k, mapNew);
      }
    }
    assert s.newTable[..NEW_SLOTS] == s.newTable;
    RemainingEnd(s, mapNew);
    if mapNew.Keys != {} {
      return -15;
    }
    forall k | 0 <= k < NEW_SLOTS && s.newTable[k] != EMPTY
      ensures s.newTable[k] in NewIds(s.mapInfo)
      ensures k == NewSlot(env, s.nKey, s.mapInfo[s.newTable[k]].addr.service, k / 64)
    {
      assert NewSlotPasses(env, s, k);
    }
    return 0;
  }

  lemma RemainingStart(s: State, mapNew: map<int, int>)
    requires EntriesPass(s) && IsRefMap(s, mapNew)
    ensures Remaining(s, 0, mapNew)
  {
    forall id | id in NewIds(s.mapInfo)
      ensures Held(s.newTable[..0], id) == {}
      ensures EntryCode(s, id) == 0
    {
    }
  }

  lemma RemainingKnown(s: State, k: nat, mapNew: map<int, int>, id: int)
    requires k < |s.newTable| && Remaining(s, k, mapNew) && id in mapNew
    ensures id in NewIds(s.mapInfo) && id in s.mapInfo
  {
  }

  // A reference to an entry with none left over means one too many, or no such new entry.
  lemma NotRemaining(env: Env, s: State, k: nat, mapNew: map<int, int>)
    requires k < NEW_SLOTS && |s.newTable| == NEW_SLOTS
    requires Remaining(s, k, mapNew) && s.newTable[k] != EMPTY && s.newTable[k] !in mapNew
    ensures !(NewSlotsOk(env, s.nKey, s.mapInfo, s.newTable) && RefsPass(s))
  {
    var id := s.newTable[k];
    if NewSlotsOk(env, s.nKey, s.mapInfo, s.newTable) {
      assert id in NewIds(s.mapInfo);
      HeldPrefix(s.newTable, k, id);
      HeldGrows(s.newTable, k + 1, id);
    }
  }

  lemma RemainingEnd(s: State, mapNew: map<int, int>)
    requires |s.newTable| == NEW_SLOTS && Remaining(s, NEW_SLOTS, mapNew)
    ensures mapNew.Keys == {} <==> RefsPass(s)
  {
    assert s.newTable[..NEW_SLOTS] == s.newTable;
    if mapNew.Keys != {} {
      Inhabited(mapNew.Keys);
      var id :| id in mapNew.Keys;
      assert |Held(s.newTable, id)| < s.mapInfo[id].nRefCount;
    }
  }

  method ValidateInternal(env: Env, s: State) returns (code: int)
    requires Sized(s) && EMPTY !in s.mapInfo
    ensures code == 0 <==> Checked(env, s)
  {
    if |s.vRandom| != s.nTried + s.nNew {
      return -7;
    }
    var setTried, mapNew;
    code, setTried, mapNew := CheckEntries(s);
    if code != 0 {
      return code;
    }
    if |setTried| != s.nTried {
      return -9;
    }
    MapSize(mapNew, NewIds(s.mapInfo));
    if |mapNew| != s.nNew {
      return -10;
    }
    code := CheckTried(env, s, setTried);
    if code != 0 {
      return code;
    }
    code := CheckNew(env, s, mapNew);
    if code != 0 {
      return code;
    }
    if s.nKey == 0 {
      return -16;
    }
    return 0;
  }

  lemma MapSize(m: map<int, int>, ids: set<int>)
    requires m.Keys == ids
    ensures |m| == |ids|
  {
  }

  // ----- what a clean result means

  ghost function Positions(m: map<int, Info>, ids: set<int>): set<int>
    requires ids <= m.Keys
  {
    set id | id in ids :: m[id].nRandomPos
  }

  ghost function Range(n: nat): (r: set<int>)
    ensures |r| == n
    ensures forall i :: i in r <==> 0 <= i < n
  {
    if n == 0 then {} else Range(n - 1) + {n - 1}
  }

  // Different ids have different positions.
  lemma {:induction false} PositionsCount(m: map<int, Info>, vRandom: seq<int>, ids: set<int>)
    requires ids <= m.Keys
    requires forall id :: id in ids ==> 0 <= m[id].nRandomPos < |vRandom| && vRandom[m[id].nRandomPos] == id
    ensures |Positions(m, ids)| == |ids|
  {
    Inhabited(ids);
    if ids == {} {
      assert Positions(m, ids) == {};
    } else {
      var id :| id in ids;
      var rest := ids - {id};
      PositionsCount(m, vRandom, rest);
      assert Positions(m, ids) == Positions(m, rest) + {m[id].nRandomPos};
    }
  }

  lemma SubsetOfSameSize(a: set<int>, b: set<int>)
    requires a <= b && |a| == |b|
    ensures a == b
  {
    assert b == a + (b - a);
    assert |b| == |a| + |b - a|;
  }

  lemma EntriesGiveRandom(s: State)
    requires EntriesPass(s) && |s.mapInfo| == |s.vRandom|
    ensures RandomOk(s.mapInfo, s.vRandom)
  {
    var m := s.mapInfo;
    forall id | id in m
      ensures 0 <= m[id].nRandomPos < |s.vRandom| && s.vRandom[m[id].nRandomPos] == id
    {
      assert EntryCode(s, id) == 0;
    }
    PositionsCount(m, s.vRandom, m.Keys);
    SubsetOfSameSize(Positions(m, m.Keys), Range(|s.vRandom|));
    forall i | 0 <= i < |s.vRandom|
      ensures s.vRandom[i] in m && m[s.vRandom[i]].nRandomPos == i
    {
      assert i in Positions(m, m.Keys);
    }
  }

  lemma SplitIds(m: map<int, Info>)
    ensures |m| == |TriedIds(m)| + |NewIds(m)|
  {
    assert m.Keys == TriedIds(m) + NewIds(m);
    assert TriedIds(m) !! NewIds(m);
  }

  // Among states whose address index inverts mapInfo and whose ids were handed out, the
  // check answers 0 exactly for the consistent ones.
  lemma CheckedIffConsistent(env: Env, s: State)
    requires AddrOk(s.mapInfo, s.mapAddr)
    requires 0 <= s.nIdCount && forall id :: id in s.mapInfo ==> 0 <= id < s.nIdCount
    ensures Checked(env, s) <==> Consistent(env, s)
  {
    SplitIds(s.mapInfo);
    if Checked(env, s) {
      CheckedGivesConsistent(env, s);
    }
    if Consistent(env, s) {
      ConsistentGivesChecked(env, s);
    }
  }

  lemma CheckedGivesConsistent(env: Env, s: State)
    requires AddrOk(s.mapInfo, s.mapAddr) && Checked(env, s)
    requires 0 <= s.nIdCount && forall id :: id in s.mapInfo ==> 0 <= id < s.nIdCount
    ensures Consistent(env, s)
  {
    SplitIds(s.mapInfo);
    EntriesGiveRandom(s);
    EntriesGiveRest(env, s);
    hide RandomOk, AddrOk, TriedOk, NewSlotsOk, TriedIds, NewIds, EntryCode, RefsPass, BoundsOk, TimesOk;
  }

  lemma EntriesGiveRest(env: Env, s: State)
    requires EntriesPass(s) && RefsPass(s) && NewSlotsOk(env, s.nKey, s.mapInfo, s.newTable) && EMPTY !in s.mapInfo
    ensures BoundsOk(s.mapInfo, {}) && TimesOk(s.mapInfo)
    ensures RefCountsOk(s.mapInfo, s.newTable)
  {
    forall id | id in s.mapInfo
      ensures EntryCode(s, id) == 0
      ensures s.mapInfo[id].nRefCount == |Held(s.newTable, id)|
    {
      if s.mapInfo[id].fInTried {
        assert Held(s.newTable, id) == {};
      } else {
        assert id in NewIds(s.mapInfo);
      }
    }
  }

  lemma ConsistentGivesChecked(env: Env, s: State)
    requires Consistent(env, s)
    ensures Checked(env, s)
  {
    SplitIds(s.mapInfo);
    PassesAll(env, s);
    hide RandomOk, AddrOk, TriedOk, NewSlotsOk, TriedIds, NewIds, EntryCode, RefsPass, BoundsOk, TimesOk;
  }

  lemma PassesAll(env: Env, s: State)
    requires Consistent(env, s)
    ensures EntriesPass(s) && RefsPass(s) && |s.vRandom| == |s.mapInfo|
  {
    hide NewSlotsOk, TriedOk;
    forall id | id in s.mapInfo
      ensures EntryCode(s, id) == 0
    {
      if s.mapInfo[id].fInTried {
        EntryHeld(env, s, id);
      }
    }
    RandomCovers(s);
  }

  lemma RandomCovers(s: State)
    requires RandomOk(s.mapInfo, s.vRandom)
    ensures |s.vRandom| == |s.mapInfo|
  {
    var m := s.mapInfo;
    PositionsCount(m, s.vRandom, m.Keys);
    forall i | i in Range(|s.vRandom|)
      ensures i in Positions(m, m.Keys)
    {
      assert m[s.vRandom[i]].nRandomPos == i;
    }
    assert Positions(m, m.Keys) == Range(|s.vRandom|);
  }

  lemma EntryHeld(env: Env, s: State, id: int)
    requires Consistent(env, s) && id in s.mapInfo && s.mapInfo[id].fInTried
    ensures s.mapInfo[id].nRefCount == 0
  {
    hide RandomOk, AddrOk, TriedOk, TriedIds, NewIds;
    assert Held(s.newTable, id) == {};
  }
}
