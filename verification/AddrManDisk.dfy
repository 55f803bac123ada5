// The on-disk form of the address manager.  Ids are renumbered: first the entries of the
// new table in id order, then the tried ones.  Loading what was saved gives the same tables
// up to that renumbering.
module AddrManDisk {
  import opened AddrManState
  import opened AddrManProofs
  import Ops = AddrManOps
  import Check = AddrManCheck

  // What an entry keeps on disk.
  datatype DiskInfo = DiskInfo(
    addr: Address, source: NetAddr, nLastSuccess: int, nAttempts: int, fKnowsXThin: bool, uselessness: int)

  datatype Token = Byte(b: nat) | KeyToken(key: Key) | Num(n: int) | Entry(info: DiskInfo)

  function ToDisk(info: Info): DiskInfo {
    DiskInfo(info.addr, info.source, info.nLastSuccess, info.nAttempts, info.fKnowsXThin, info.uselessness)
  }

  function FromDisk(d: DiskInfo, version: nat): Info {
    NewInfo(d.addr, d.source).(
      nLastSuccess := d.nLastSuccess,
      nAttempts := d.nAttempts,
      fKnowsXThin := version >= 3 && d.fKnowsXThin,
      uselessness := if version >= 3 then d.uselessness else 0)
  }

  // x ^ (1 << 30) on a two's complement integer.
  function FlipBit30(x: int): int {
    if (x / 0x4000_0000) % 2 == 0 then x + 0x4000_0000 else x - 0x4000_0000
  }

  lemma FlipTwice(x: int)
    ensures FlipBit30(FlipBit30(x)) == x
  {
  }

  // ----- the order of entries on disk

  // The ids below n of the tried (or new) entries, ascending: std::map iterates in key order.
  function IdList(m: map<int, Info>, n: nat, tried: bool): (ids: seq<int>)
    ensures forall i :: 0 <= i < |ids| ==> 0 <= ids[i] < n && ids[i] in m && m[ids[i]].fInTried == tried
    ensures forall i, j :: 0 <= i < j < |ids| ==> ids[i] < ids[j]
  {
    if n == 0 then []
    else if n - 1 in m && m[n - 1].fInTried == tried then IdList(m, n - 1, tried) + [n - 1]
    else IdList(m, n - 1, tried)
  }

  // An id is found in the list right after the smaller ids of its kind.
  lemma {:induction false} IdListRank(m: map<int, Info>, n: nat, id: int)
    requires id in m && 0 <= id < n
    ensures var ids := IdList(m, n, m[id].fInTried);
            var r := |IdList(m, id, m[id].fInTried)|;
            r < |ids| && ids[r] == id
  {
    if id < n - 1 {
      IdListRank(m, n - 1, id);
    }
  }

  lemma IdListSize(m: map<int, Info>, n: nat, tried: bool)
    requires forall id :: id in m ==> 0 <= id < n
    ensures |IdList(m, n, tried)| == if tried then |TriedIds(m)| else |NewIds(m)|
  {
    var ids := IdList(m, n, tried);
    var listed := Members(ids);
    Distinct(ids);
    forall id | id in m && m[id].fInTried == tried
      ensures id in listed
    {
      IdListRank(m, n, id);
    }
    assert listed == if tried then TriedIds(m) else NewIds(m);
  }

  ghost function Members(ids: seq<int>): set<int> {
    set id | id in ids
  }

  lemma {:induction false} Distinct(ids: seq<int>)
    requires forall i, j :: 0 <= i < j < |ids| ==> ids[i] < ids[j]
    ensures |Members(ids)| == |ids|
  {
    if ids == [] {
      assert Members(ids) == {};
    } else {
      var rest := ids[..|ids| - 1];
      Distinct(rest);
      assert Members(ids) == Members(rest) + {ids[|ids| - 1]};
    }
  }

  function Order(s: State): seq<int>
    requires 0 <= s.nIdCount
  {
    IdList(s.mapInfo, s.nIdCount, false) + IdList(s.mapInfo, s.nIdCount, true)
  }

  // The id an entry gets when it is loaded back.
  function Rank(s: State, id: int): (r: int)
    requires 0 <= s.nIdCount && id in s.mapInfo && 0 <= id
  {
    if s.mapInfo[id].fInTried
    then |IdList(s.mapInfo, s.nIdCount, false)| + |IdList(s.mapInfo, id, true)|
    else |IdList(s.mapInfo, id, false)|
  }

  ghost predicate IdsOk(s: State) {
    0 <= s.nIdCount && forall id :: id in s.mapInfo ==> 0 <= id < s.nIdCount
  }

  // Rank and Order are inverse to each other.
  lemma RankOfId(s: State, id: int)
    requires IdsOk(s) && id in s.mapInfo
    ensures 0 <= Rank(s, id) < |Order(s)| && Order(s)[Rank(s, id)] == id
    ensures !s.mapInfo[id].fInTried ==> Rank(s, id) < |IdList(s.mapInfo, s.nIdCount, false)|
  {
    IdListRank(s.mapInfo, s.nIdCount, id);
  }

  lemma RankOfPlace(s: State, j: nat)
    requires IdsOk(s) && j < |Order(s)|
    ensures Order(s)[j] in s.mapInfo && 0 <= Order(s)[j] && Rank(s, Order(s)[j]) == j
    ensures s.mapInfo[Order(s)[j]].fInTried <==> j >= |IdList(s.mapInfo, s.nIdCount, false)|
  {
    var id := Order(s)[j];
    assert id in s.mapInfo && 0 <= id;
    RankOfId(s, id);
    var k := Rank(s, id);
    assert Order(s)[k] == id;
    var news, trieds := IdList(s.mapInfo, s.nIdCount, false), IdList(s.mapInfo, s.nIdCount, true);
    if j < |news| {
      assert news[j] == id && !s.mapInfo[id].fInTried && news[k] == id;
    } else {
      assert trieds[j - |news|] == id && s.mapInfo[id].fInTried && trieds[k - |news|] == id;
    }
  }

  // ----- the loaded state

  function Restored(info: Info, pos: int): Info {
    info.(nLastTry := 0, nRandomPos := pos)
  }

  ghost function RenameTable(s: State, t: seq<int>): seq<int>
    requires IdsOk(s) && forall k :: 0 <= k < |t| && t[k] != EMPTY ==> t[k] in s.mapInfo
  {
    seq(|t|, k requires 0 <= k < |t| => if t[k] == EMPTY then EMPTY else Rank(s, t[k]))
  }

  ghost predicate TablesKnown(s: State) {
    && IdsOk(s)
    && (forall k :: 0 <= k < |s.newTable| && s.newTable[k] != EMPTY ==> s.newTable[k] in s.mapInfo)
    && (forall k :: 0 <= k < |s.triedTable| && s.triedTable[k] != EMPTY ==> s.triedTable[k] in s.mapInfo)
    && (forall a :: a in s.mapAddr ==> s.mapAddr[a] in s.mapInfo)
  }

  ghost function RenameInfo(s: State): (m: map<int, Info>)
    requires IdsOk(s)
    ensures forall j :: j in m <==> 0 <= j < |Order(s)|
    ensures forall j :: j in m ==> Order(s)[j] in s.mapInfo && m[j] == Restored(s.mapInfo[Order(s)[j]], j)
  {
    map j: int | 0 <= j < |Order(s)| :: Restored(s.mapInfo[Order(s)[j]], j)
  }

  ghost function RenameAddr(s: State): map<NetAddr, int>
    requires IdsOk(s) && forall a :: a in s.mapAddr ==> s.mapAddr[a] in s.mapInfo
  {
    map a | a in s.mapAddr :: Rank(s, s.mapAddr[a])
  }

  function Counting(n: nat): seq<int> {
    seq(n, i => i)
  }

  ghost function Renumbered(s: State): State
    requires TablesKnown(s)
  {
    State(s.nKey, |Order(s)|, RenameInfo(s),
          RenameAddr(s), Counting(|Order(s)|),
          s.nTried, s.nNew, RenameTable(s, s.triedTable), RenameTable(s, s.newTable))
  }

  lemma ConsistentTablesKnown(env: Env, s: State)
    requires Indexed(env, s, {}, {})
    ensures TablesKnown(s)
  {
    hide RandomOk, RefCountsOk, BoundsOk, NewIds, TriedIds;
  }

  // ----- the loaded state is consistent again

  lemma RenamedHeld(s: State, id: int)
    requires TablesKnown(s) && id in s.mapInfo
    ensures Held(RenameTable(s, s.newTable), Rank(s, id)) == Held(s.newTable, id)
  {
    RankOfId(s, id);
    var t := RenameTable(s, s.newTable);
    forall k: nat | k < |t|
      ensures t[k] == Rank(s, id) <==> s.newTable[k] == id
    {
      if s.newTable[k] != EMPTY {
        RankOfId(s, s.newTable[k]);
      }
    }
    assert Held(t, Rank(s, id)) == Held(s.newTable, id);
  }

  lemma RenamedRefs(env: Env, s: State)
    requires TablesKnown(s) && NewSlotsOk(env, s.nKey, s.mapInfo, s.newTable) && RefCountsOk(s.mapInfo, s.newTable)
    ensures NewSlotsOk(env, s.nKey, RenameInfo(s), RenameTable(s, s.newTable))
    ensures RefCountsOk(RenameInfo(s), RenameTable(s, s.newTable))
  {
    var m', t' := RenameInfo(s), RenameTable(s, s.newTable);
    forall k | 0 <= k < NEW_SLOTS && t'[k] != EMPTY
      ensures t'[k] in m' && !m'[t'[k]].fInTried && k == NewSlot(env, s.nKey, m'[t'[k]].addr.service, k / 64)
    {
      RankOfId(s, s.newTable[k]);
    }
    forall j | j in m'
      ensures m'[j].nRefCount == |Held(t', j)|
    {
      RankOfPlace(s, j);
      RenamedHeld(s, Order(s)[j]);
    }
  }

  lemma RenamedTried(env: Env, s: State)
    requires TablesKnown(s) && TriedOk(env, s.nKey, s.mapInfo, s.triedTable)
    ensures TriedOk(env, s.nKey, RenameInfo(s), RenameTable(s, s.triedTable))
  {
    var m', t' := RenameInfo(s), RenameTable(s, s.triedTable);
    forall k | 0 <= k < TRIED_SLOTS && t'[k] != EMPTY
      ensures t'[k] in m' && m'[t'[k]].fInTried && k == TriedSlot(env, s.nKey, m'[t'[k]].addr.service)
    {
      RankOfId(s, s.triedTable[k]);
    }
    forall j | j in m' && m'[j].fInTried
      ensures t'[TriedSlot(env, s.nKey, m'[j].addr.service)] == j
    {
      RankOfPlace(s, j);
    }
  }

  lemma RenamedAddr(s: State)
    requires TablesKnown(s) && AddrOk(s.mapInfo, s.mapAddr)
    ensures AddrOk(RenameInfo(s), RenameAddr(s))
  {
    var m', a' := RenameInfo(s), RenameAddr(s);
    hide IdList, Order, Rank;
    forall j | j in m'
      ensures m'[j].addr.service.ip in a' && a'[m'[j].addr.service.ip] == j
    {
      RankOfPlace(s, j);
    }
    forall a | a in a'
      ensures a'[a] in m' && m'[a'[a]].addr.service.ip == a
    {
      RankOfId(s, s.mapAddr[a]);
    }
  }

  lemma RenamedBounds(s: State)
    requires IdsOk(s)
    ensures BoundsOk(s.mapInfo, {}) ==> BoundsOk(RenameInfo(s), {})
    ensures TimesOk(s.mapInfo) ==> TimesOk(RenameInfo(s))
  {
    hide RenameInfo, IdList, Order;
    var m' := RenameInfo(s);
    if BoundsOk(s.mapInfo, {}) {
      forall j | j in m'
        ensures 0 <= m'[j].nRefCount <= NEW_BUCKETS_PER_ADDRESS && (m'[j].fInTried || 1 <= m'[j].nRefCount)
      {
        var id := Order(s)[j];
        assert id in s.mapInfo;
        assert m'[j] == Restored(s.mapInfo[id], j);
      }
    }
    if TimesOk(s.mapInfo) {
      forall j | j in m'
        ensures 0 <= m'[j].nLastTry && 0 <= m'[j].nLastSuccess && (m'[j].fInTried ==> 0 < m'[j].nLastSuccess)
      {
        var id := Order(s)[j];
        assert id in s.mapInfo;
        assert m'[j] == Restored(s.mapInfo[id], j);
      }
    }
  }

  lemma RenamedRandom(s: State)
    requires IdsOk(s)
    ensures RandomOk(RenameInfo(s), Counting(|Order(s)|))
  {
    hide RenameInfo, IdList, Order;
  }

  lemma RenamedKinds(s: State, news: nat, trieds: nat)
    requires IdsOk(s)
    requires news == |IdList(s.mapInfo, s.nIdCount, false)| && trieds == |IdList(s.mapInfo, s.nIdCount, true)|
    ensures NewIds(RenameInfo(s)) == Check.Range(news)
    ensures TriedIds(RenameInfo(s)) == Check.Range(news + trieds) - Check.Range(news)
  {
    var m' := RenameInfo(s);
    assert |Order(s)| == news + trieds;
    hide RenameInfo, IdList, Order, Check.Range;
    forall j
      ensures j in NewIds(m') <==> j in Check.Range(news)
      ensures j in TriedIds(m') <==> j in Check.Range(news + trieds) - Check.Range(news)
    {
      if 0 <= j < news + trieds {
        RankOfPlace(s, j);
      }
    }
  }

  lemma RenamedCounts(s: State)
    requires IdsOk(s)
    ensures |NewIds(RenameInfo(s))| == |NewIds(s.mapInfo)|
    ensures |TriedIds(RenameInfo(s))| == |TriedIds(s.mapInfo)|
  {
    var news, trieds := |IdList(s.mapInfo, s.nIdCount, false)|, |IdList(s.mapInfo, s.nIdCount, true)|;
    IdListSize(s.mapInfo, s.nIdCount, false);
    IdListSize(s.mapInfo, s.nIdCount, true);
    RenamedKinds(s, news, trieds);
    hide RenameInfo, IdList, Order, NewIds, TriedIds, Check.Range;
    assert Check.Range(news) <= Check.Range(news + trieds);
  }

  // Main result, first half: what is loaded satisfies the whole condition.
  lemma RenumberedIndexed(env: Env, s: State)
    requires Indexed(env, s, {}, {})
    ensures TablesKnown(s) && Indexed(env, Renumbered(s), {}, {})
  {
    ConsistentTablesKnown(env, s);
    hide RandomOk, AddrOk, NewSlotsOk, RefCountsOk, TriedOk, BoundsOk, NewIds, TriedIds, TimesOk;
    hide Order, RenameTable, RenameInfo, RenameAddr, Counting, TablesKnown, IdList, Restored, Rank;
    RenamedAddr(s);
    RenamedRefs(env, s);
    RenamedTried(env, s);
    RenamedRandom(s);
    RenamedBounds(s);
    RenamedCounts(s);
  }

  lemma RenumberedConsistent(env: Env, s: State)
    requires Consistent(env, s)
    ensures TablesKnown(s) && Consistent(env, Renumbered(s))
  {
    hide Indexed, TimesOk;
    RenumberedIndexed(env, s);
    RenamedBounds(s);
  }

  // What the renaming keeps: the addresses, everything an entry says but its last try and its
  // place in the random order, and for each slot of both tables whose address it holds.
  lemma RenumberedSame(env: Env, s: State)
    requires Indexed(env, s, {}, {})
    ensures TablesKnown(s) && TablesKnown(Renumbered(s))
    ensures var s' := Renumbered(s);
            && s'.nKey == s.nKey && s'.mapAddr.Keys == s.mapAddr.Keys && s'.nNew == s.nNew && s'.nTried == s.nTried
            && (forall a :: a in s.mapAddr ==> SameEntry(s.mapInfo[s.mapAddr[a]], s'.mapInfo[s'.mapAddr[a]]))
            && SameHolders(s, s.newTable, s', s'.newTable) && SameHolders(s, s.triedTable, s', s'.triedTable)
  {
    ConsistentTablesKnown(env, s);
    RenumberedIndexed(env, s);
    ConsistentTablesKnown(env, Renumbered(s));
    hide RandomOk, AddrOk, NewSlotsOk, RefCountsOk, TriedOk, BoundsOk, NewIds, TriedIds, TimesOk, Indexed;
    SameInfos(s);
    SameTable(s, s.newTable);
    SameTable(s, s.triedTable);
    hide Order, IdList, Rank, SameEntry, SameHolders, RenameTable, RenameInfo;
  }

  lemma SameInfos(s: State)
    requires TablesKnown(s)
    ensures var s' := Renumbered(s);
            && s'.mapAddr.Keys == s.mapAddr.Keys
            && forall a :: a in s.mapAddr ==> s'.mapAddr[a] in s'.mapInfo
                                              && SameEntry(s.mapInfo[s.mapAddr[a]], s'.mapInfo[s'.mapAddr[a]])
  {
    hide Order, IdList, Rank;
    var s' := Renumbered(s);
    forall a | a in s.mapAddr
      ensures s'.mapAddr[a] in s'.mapInfo && SameEntry(s.mapInfo[s.mapAddr[a]], s'.mapInfo[s'.mapAddr[a]])
    {
      RankOfId(s, s.mapAddr[a]);
    }
  }

  predicate SameEntry(was: Info, info: Info) {
    && info.addr == was.addr && info.source == was.source && info.fInTried == was.fInTried
    && info.nLastSuccess == was.nLastSuccess && info.nAttempts == was.nAttempts && info.nRefCount == was.nRefCount
    && info.fKnowsXThin == was.fKnowsXThin && info.uselessness == was.uselessness
  }

  ghost predicate SameHolders(s: State, t: seq<int>, s': State, t': seq<int>)
    requires forall k :: 0 <= k < |t| && t[k] != EMPTY ==> t[k] in s.mapInfo
    requires forall k :: 0 <= k < |t'| && t'[k] != EMPTY ==> t'[k] in s'.mapInfo
  {
    && |t'| == |t|
    && forall k :: 0 <= k < |t| ==>
         && (t'[k] == EMPTY <==> t[k] == EMPTY)
         && (t[k] != EMPTY ==> s'.mapInfo[t'[k]].addr == s.mapInfo[t[k]].addr)
  }

  lemma SameTable(s: State, t: seq<int>)
    requires TablesKnown(s) && forall k :: 0 <= k < |t| && t[k] != EMPTY ==> t[k] in s.mapInfo
    ensures var s', t' := Renumbered(s), RenameTable(s, t);
            (forall k :: 0 <= k < |t'| && t'[k] != EMPTY ==> t'[k] in s'.mapInfo) && SameHolders(s, t, s', t')
  {
    hide Order, IdList, Rank;
    forall k | 0 <= k < |t| && t[k] != EMPTY
      ensures 0 <= Rank(s, t[k]) < |Order(s)| && Order(s)[Rank(s, t[k])] == t[k]
    {
      RankOfId(s, t[k]);
    }
  }
}
