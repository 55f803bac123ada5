// The byte stream of a saved address manager and the stages loading goes through.
module AddrManLoad {
  import opened AddrManState
  import opened AddrManProofs
  import opened AddrManDisk
  import Ops = AddrManOps
  import Check = AddrManCheck

  // ----- the stream

  function Entries(m: map<int, Info>, ids: seq<int>): (t: seq<Token>)
    requires forall i :: 0 <= i < |ids| ==> ids[i] in m
    ensures |t| == |ids|
    ensures forall i :: 0 <= i < |ids| ==> t[i] == Entry(ToDisk(m[ids[i]]))
  {
    seq(|ids|, i requires 0 <= i < |ids| => Entry(ToDisk(m[ids[i]])))
  }

  // The ids in slots lo..hi of the new table, in slot order.
  function Occupied(t: seq<int>, lo: nat, hi: nat): (ids: seq<int>)
    requires lo <= hi <= |t|
    ensures forall i :: 0 <= i < |ids| ==> ids[i] in t && ids[i] != EMPTY
    ensures |ids| <= hi - lo
  {
    if lo == hi then []
    else if t[hi - 1] != EMPTY then Occupied(t, lo, hi - 1) + [t[hi - 1]]
    else Occupied(t, lo, hi - 1)
  }

  ghost predicate Savable(s: State) {
    IdsOk(s) && TablesKnown(s) && |s.newTable| == NEW_SLOTS
  }

  ghost predicate IsIndexList(s: State, ids: seq<int>, t: seq<Token>) {
    IdsOk(s) && |t| == |ids| && forall i :: 0 <= i < |ids| ==> ids[i] in s.mapInfo && t[i] == Num(Rank(s, ids[i]))
  }

  lemma HoldersKnown(s: State)
    requires Savable(s)
    ensures forall id :: id in s.newTable && id != EMPTY ==> id in s.mapInfo && 0 <= id
  {
  }

  ghost function BucketTokens(s: State, b: nat): (t: seq<Token>)
    requires Savable(s) && b < 1024
    ensures var ids := Occupied(s.newTable, b * 64, b * 64 + 64);
            && |t| == 1 + |ids| && t[0] == Num(|ids|)
            && forall i :: 0 <= i < |ids| ==> ids[i] in s.mapInfo && t[1 + i] == Num(Rank(s, ids[i]))
  {
    HoldersKnown(s);
    var ids := Occupied(s.newTable, b * 64, b * 64 + 64);
    [Num(|ids|)] + seq(|ids|, i requires 0 <= i < |ids| => Num(Rank(s, ids[i])))
  }

  ghost function Buckets(s: State, n: nat): seq<Token>
    requires Savable(s) && n <= 1024
  {
    if n == 0 then [] else Buckets(s, n - 1) + BucketTokens(s, n - 1)
  }

  ghost function Header(s: State): (t: seq<Token>)
    ensures |t| == 6
  {
    [Byte(3), Byte(32), KeyToken(s.nKey), Num(s.nNew), Num(s.nTried), Num(FlipBit30(NEW_BUCKET_COUNT))]
  }

  ghost function Save(s: State): (t: seq<Token>)
    requires Savable(s)
    ensures |t| >= 6
  {
    Header(s) + Entries(s.mapInfo, Order(s)) + Buckets(s, 1024)
  }

  // Where bucket b starts in the stream, and that its tokens are found there.
  ghost function BucketStart(s: State, b: nat): nat
    requires Savable(s) && b <= 1024
  {
    6 + |Order(s)| + |Buckets(s, b)|
  }

  lemma {:induction false} BucketsPrefix(s: State, b: nat, n: nat)
    requires Savable(s) && b <= n <= 1024
    ensures |Buckets(s, b)| <= |Buckets(s, n)| && Buckets(s, n)[..|Buckets(s, b)|] == Buckets(s, b)
  {
    if b < n {
      BucketsPrefix(s, b, n - 1);
    }
  }

  lemma Found<T>(front: seq<T>, before: seq<T>, t: seq<T>, all: seq<T>, i: nat)
    requires |before + t| <= |all| && all[..|before + t|] == before + t && i < |t|
    ensures (front + all)[|front| + |before| + i] == t[i]
  {
    assert all[|before| + i] == all[..|before + t|][|before| + i];
  }

  lemma StreamBucket(s: State, b: nat)
    requires Savable(s) && b < 1024
    ensures var p, t := BucketStart(s, b), BucketTokens(s, b);
            && p + |t| <= |Save(s)| && p + |t| == BucketStart(s, b + 1)
            && forall i :: 0 <= i < |t| ==> Save(s)[p + i] == t[i]
  {
    BucketsPrefix(s, b + 1, 1024);
    var before, t := Buckets(s, b), BucketTokens(s, b);
    assert Buckets(s, b + 1) == before + t;
    var front := Header(s) + Entries(s.mapInfo, Order(s));
    hide Savable, BucketTokens, Buckets, Order, Header, Entries;
    forall i | 0 <= i < |t|
      ensures Save(s)[BucketStart(s, b) + i] == t[i]
    {
      Found(front, before, t, Buckets(s, 1024), i);
    }
  }

  lemma StreamEntry(s: State, n: nat)
    requires Savable(s) && n < |Order(s)|
    ensures 6 + n < |Save(s)| && Order(s)[n] in s.mapInfo
    ensures Save(s)[6 + n] == Entry(ToDisk(s.mapInfo[Order(s)[n]]))
  {
  }

  lemma StreamEnds(s: State)
    requires Savable(s)
    ensures |Save(s)| == BucketStart(s, 1024) && BucketStart(s, 0) == 6 + |Order(s)|
    ensures Save(s)[..6] == Header(s)
  {
  }

  // ----- stage one: the entries, new ones first

  // What is known after n entries: no references yet.
  ghost function EntryInfo(s: State, j: int): Info
    requires IdsOk(s) && 0 <= j < |Order(s)|
  {
    var id := Order(s)[j];
    assert id in s.mapInfo;
    Restored(s.mapInfo[id], j).(nRefCount := 0)
  }

  ghost function PartInfo(s: State, n: nat): (m: map<int, Info>)
    requires IdsOk(s) && n <= |Order(s)|
    ensures forall j :: j in m <==> 0 <= j < n
    ensures forall j :: j in m ==> m[j] == EntryInfo(s, j)
  {
    map j: int | 0 <= j < n :: EntryInfo(s, j)
  }

  ghost function PartAddr(s: State, n: nat): (m: map<NetAddr, int>)
    requires TablesKnown(s)
    ensures forall a :: a in m <==> a in s.mapAddr && Rank(s, s.mapAddr[a]) < n
    ensures forall a :: a in m ==> m[a] == Rank(s, s.mapAddr[a])
  {
    map a | a in s.mapAddr && Rank(s, s.mapAddr[a]) < n :: Rank(s, s.mapAddr[a])
  }

  ghost function PartTried(s: State, n: nat): (t: seq<int>)
    requires TablesKnown(s)
    ensures |t| == |s.triedTable|
  {
    seq(|s.triedTable|, k requires 0 <= k < |s.triedTable| =>
      if s.triedTable[k] != EMPTY && Rank(s, s.triedTable[k]) < n then Rank(s, s.triedTable[k]) else EMPTY)
  }

  // One more entry.
  lemma InfoStep(s: State, n: nat)
    requires IdsOk(s) && n < |Order(s)|
    ensures PartInfo(s, n + 1) == PartInfo(s, n)[n := EntryInfo(s, n)]
    ensures Counting(n + 1) == Counting(n) + [n]
  {
    hide Order, IdList, EntryInfo;
    assert PartInfo(s, n + 1).Keys == PartInfo(s, n)[n := EntryInfo(s, n)].Keys;
  }

  lemma AddrStep(s: State, n: nat)
    requires TablesKnown(s) && AddrOk(s.mapInfo, s.mapAddr) && n < |Order(s)|
    ensures Order(s)[n] in s.mapInfo
    ensures PartAddr(s, n + 1) == PartAddr(s, n)[s.mapInfo[Order(s)[n]].addr.service.ip := n]
  {
    RankOfPlace(s, n);
    hide Order, Rank, IdList;
    var ip := s.mapInfo[Order(s)[n]].addr.service.ip;
    assert s.mapAddr[ip] == Order(s)[n];
    forall a | a in s.mapAddr
      ensures Rank(s, s.mapAddr[a]) == n ==> a == ip
    {
      RankOfId(s, s.mapAddr[a]);
    }
    assert PartAddr(s, n + 1).Keys == PartAddr(s, n)[ip := n].Keys;
  }

  lemma TriedStep(env: Env, s: State, n: nat)
    requires Indexed(env, s, {}, {}) && n < |Order(s)|
    ensures TablesKnown(s) && |s.triedTable| == TRIED_SLOTS && Order(s)[n] in s.mapInfo
    ensures var info := s.mapInfo[Order(s)[n]];
            var k := TriedSlot(env, s.nKey, info.addr.service);
            if info.fInTried then PartTried(s, n)[k] == EMPTY && PartTried(s, n + 1) == PartTried(s, n)[k := n]
            else PartTried(s, n + 1) == PartTried(s, n)
  {
    ConsistentTablesKnown(env, s);
    Ops.TriedKnown(env, s);
    RankOfPlace(s, n);
    hide Order, Rank, IdList, RandomOk, NewSlotsOk, RefCountsOk, AddrOk, BoundsOk, NewIds, TriedIds;
    forall j | 0 <= j < TRIED_SLOTS && s.triedTable[j] != EMPTY
      ensures Rank(s, s.triedTable[j]) == n ==> s.triedTable[j] == Order(s)[n]
    {
      RankOfId(s, s.triedTable[j]);
    }
    var info := s.mapInfo[Order(s)[n]];
    var k := TriedSlot(env, s.nKey, info.addr.service);
    if info.fInTried {
      assert s.triedTable[k] == Order(s)[n];
      assert PartTried(s, n + 1) == PartTried(s, n)[k := n];
    } else {
      assert PartTried(s, n + 1) == PartTried(s, n);
    }
  }

  // ----- stage two: the references

  ghost function PartNew(s: State, k: nat): (t: seq<int>)
    requires TablesKnown(s)
    ensures |t| == |s.newTable|
  {
    seq(|s.newTable|, j requires 0 <= j < |s.newTable| =>
      if j < k && s.newTable[j] != EMPTY then Rank(s, s.newTable[j]) else EMPTY)
  }

  ghost function RefInfo(s: State, k: nat): (m: map<int, Info>)
    requires IdsOk(s) && k <= |s.newTable|
    ensures forall j :: j in m <==> 0 <= j < |Order(s)|
    ensures forall j :: j in m ==> m[j] == EntryInfo(s, j).(nRefCount := |Held(s.newTable[..k], Order(s)[j])|)
  {
    map j: int | 0 <= j < |Order(s)| :: EntryInfo(s, j).(nRefCount := |Held(s.newTable[..k], Order(s)[j])|)
  }

  lemma RefsStart(s: State)
    requires Savable(s)
    ensures RefInfo(s, 0) == PartInfo(s, |Order(s)|)
    ensures PartNew(s, 0) == seq(NEW_SLOTS, _ => EMPTY)
  {
    hide Order, Rank, IdList, EntryInfo;
    var all := |Order(s)|;
    forall j | j in RefInfo(s, 0)
      ensures RefInfo(s, 0)[j] == PartInfo(s, all)[j]
    {
      assert Held(s.newTable[..0], Order(s)[j]) == {};
      EntryNoRefs(s, j);
    }
    assert RefInfo(s, 0).Keys == PartInfo(s, all).Keys;
  }

  lemma EntryNoRefs(s: State, j: int)
    requires IdsOk(s) && 0 <= j < |Order(s)|
    ensures EntryInfo(s, j).nRefCount == 0
    ensures Order(s)[j] in s.mapInfo && EntryInfo(s, j).addr == s.mapInfo[Order(s)[j]].addr
    ensures EntryInfo(s, j).fInTried == s.mapInfo[Order(s)[j]].fInTried
  {
  }

  // An empty slot changes nothing.
  lemma RefsSkip(s: State, k: nat)
    requires Savable(s) && k < NEW_SLOTS && s.newTable[k] == EMPTY
    ensures RefInfo(s, k + 1) == RefInfo(s, k) && PartNew(s, k + 1) == PartNew(s, k)
  {
    hide Order, Rank, IdList, EntryInfo;
    forall j | j in RefInfo(s, k)
      ensures RefInfo(s, k + 1)[j] == RefInfo(s, k)[j]
    {
      Check.HeldPrefix(s.newTable, k, Order(s)[j]);
      OrderKnown(s, j);
    }
    assert RefInfo(s, k + 1).Keys == RefInfo(s, k).Keys;
  }

  lemma OrderKnown(s: State, j: int)
    requires IdsOk(s) && 0 <= j < |Order(s)|
    ensures Order(s)[j] in s.mapInfo && Order(s)[j] != EMPTY
  {
  }

  // An occupied slot: its holder gains the reference.
  lemma RefsTake(s: State, k: nat)
    requires Savable(s) && k < NEW_SLOTS && s.newTable[k] != EMPTY
    ensures s.newTable[k] in s.mapInfo
    ensures var r := Rank(s, s.newTable[k]);
            && r in RefInfo(s, k)
            && RefInfo(s, k + 1) == RefInfo(s, k)[r := RefInfo(s, k)[r].(nRefCount := RefInfo(s, k)[r].nRefCount + 1)]
  {
    var r := Rank(s, s.newTable[k]);
    RankOfId(s, s.newTable[k]);
    hide Order, Rank, IdList, EntryInfo, TablesKnown, Held;
    var m, m' := RefInfo(s, k), RefInfo(s, k + 1);
    forall j | j in m
      ensures m'[j] == m[j].(nRefCount := m[j].nRefCount + if j == r then 1 else 0)
    {
      RefsTakeOne(s, k, j);
    }
    hide RefInfo;
    assert m'.Keys == m[r := m[r]].Keys;
  }

  lemma RefsTakeOne(s: State, k: nat, j: int)
    requires Savable(s) && k < NEW_SLOTS && s.newTable[k] in s.mapInfo
    requires 0 <= j < |Order(s)|
    ensures var r := Rank(s, s.newTable[k]);
            var m, m' := RefInfo(s, k), RefInfo(s, k + 1);
            m'[j] == m[j].(nRefCount := m[j].nRefCount + if j == r then 1 else 0)
  {
    RankOfId(s, s.newTable[k]);
    RankOfPlace(s, j);
    Check.HeldPrefix(s.newTable, k, Order(s)[j]);
    hide Order, Rank, IdList, EntryInfo, TablesKnown, Held;
  }

  lemma TableTake(s: State, k: nat)
    requires Savable(s) && k < NEW_SLOTS && s.newTable[k] != EMPTY
    ensures PartNew(s, k)[k] == EMPTY
    ensures PartNew(s, k + 1) == PartNew(s, k)[k := Rank(s, s.newTable[k])]
  {
    hide Rank, IdList;
  }

  // Everything the loader asks of the holder of slot k before it takes the slot.
  lemma RefBound(env: Env, s: State, k: nat)
    requires Indexed(env, s, {}, {}) && k < NEW_SLOTS
    ensures Savable(s)
    ensures s.newTable[k] != EMPTY ==>
              && s.newTable[k] in s.mapInfo && Rank(s, s.newTable[k]) in RefInfo(s, k)
              && RefInfo(s, k)[Rank(s, s.newTable[k])].nRefCount < NEW_BUCKETS_PER_ADDRESS
              && RefInfo(s, k)[Rank(s, s.newTable[k])].addr == s.mapInfo[s.newTable[k]].addr
              && 0 <= Rank(s, s.newTable[k]) < s.nNew
              && k == NewSlot(env, s.nKey, s.mapInfo[s.newTable[k]].addr.service, k / 64)
  {
    hide RandomOk, AddrOk, NewSlotsOk, RefCountsOk, TriedOk, BoundsOk, NewIds, TriedIds, Rank, Order, EntryInfo;
    ConsistentTablesKnown(env, s);
    Ops.SlotsKnown(env, s, {}, {});
    SlotHolder(env, s.nKey, s.mapInfo, s.newTable, k);
    if s.newTable[k] != EMPTY {
      var id := s.newTable[k];
      RankOfId(s, id);
      EntryNoRefs(s, Rank(s, id));
      EntryCounts(env, s);
      Ops.RefCountOf(env, s, id, {}, {});
      Ops.BoundOf(env, s, id);
      Check.HeldPrefix(s.newTable, k, id);
      Check.HeldGrows(s.newTable, k + 1, id);
      hide Indexed, TablesKnown, IdList, Held, NewSlot;
    }
  }

  lemma RefsEnd(s: State)
    requires Savable(s) && RefCountsOk(s.mapInfo, s.newTable)
    ensures RefInfo(s, NEW_SLOTS) == RenameInfo(s)
  {
    hide Order, IdList, TablesKnown, RenameInfo, RefInfo, RefCountsOk, Restored, EntryInfo, Held;
    forall j | 0 <= j < |Order(s)|
      ensures RefInfo(s, NEW_SLOTS)[j] == RenameInfo(s)[j]
    {
      RefsEndOne(s, j);
    }
    assert RefInfo(s, NEW_SLOTS).Keys == RenameInfo(s).Keys;
  }

  lemma RefsEndOne(s: State, j: int)
    requires Savable(s) && RefCountsOk(s.mapInfo, s.newTable) && 0 <= j < |Order(s)|
    ensures RefInfo(s, NEW_SLOTS)[j] == RenameInfo(s)[j]
  {
    OrderKnown(s, j);
    assert s.newTable[..NEW_SLOTS] == s.newTable;
    hide Order, Rank, IdList, TablesKnown;
  }

  lemma TableEnd(s: State)
    requires Savable(s)
    ensures PartNew(s, NEW_SLOTS) == RenameTable(s, s.newTable)
  {
    hide Rank, IdList;
  }

  lemma EntryCounts(env: Env, s: State)
    requires Indexed(env, s, {}, {})
    ensures Savable(s) && |Order(s)| == s.nNew + s.nTried && 0 <= s.nNew && 0 <= s.nTried
    ensures |IdList(s.mapInfo, s.nIdCount, false)| == s.nNew
  {
    hide RandomOk, AddrOk, NewSlotsOk, TriedOk, RefCountsOk, BoundsOk, NewIds, TriedIds, Rank, IdList, TablesKnown;
    ConsistentTablesKnown(env, s);
    Ops.KnownSlots(env, s, {}, {});
    IdListSize(s.mapInfo, s.nIdCount, false);
    IdListSize(s.mapInfo, s.nIdCount, true);
  }

  lemma EntriesEnd(s: State)
    requires TablesKnown(s)
    ensures PartAddr(s, |Order(s)|) == RenameAddr(s)
    ensures PartTried(s, |Order(s)|) == RenameTable(s, s.triedTable)
  {
    hide Rank, IdList, Order;
    forall a | a in s.mapAddr
      ensures Rank(s, s.mapAddr[a]) < |Order(s)|
    {
      RankOfId(s, s.mapAddr[a]);
    }
    forall k | 0 <= k < |s.triedTable| && s.triedTable[k] != EMPTY
      ensures Rank(s, s.triedTable[k]) < |Order(s)|
    {
      RankOfId(s, s.triedTable[k]);
    }
    assert PartAddr(s, |Order(s)|).Keys == RenameAddr(s).Keys;
    assert PartTried(s, |Order(s)|) == RenameTable(s, s.triedTable);
  }

  lemma EntriesStart(s: State)
    requires TablesKnown(s)
    ensures PartInfo(s, 0) == map[] && PartAddr(s, 0) == map[]
    ensures PartTried(s, 0) == seq(|s.triedTable|, _ => EMPTY)
  {
    hide IdList;
  }

  // The next occupied slot of a bucket.
  lemma {:induction false} NextOccupied(t: seq<int>, lo: nat, k: nat, hi: nat) returns (p: nat)
    requires lo <= k <= hi <= |t| && |Occupied(t, lo, k)| < |Occupied(t, lo, hi)|
    ensures k <= p < hi && t[p] != EMPTY && forall j :: k <= j < p ==> t[j] == EMPTY
    ensures |Occupied(t, lo, p)| == |Occupied(t, lo, k)|
    ensures Occupied(t, lo, hi)[|Occupied(t, lo, k)|] == t[p]
    decreases hi - k
  {
    if t[k] != EMPTY {
      p := k;
      OccupiedPrefix(t, lo, k + 1, hi);
    } else {
      p := NextOccupied(t, lo, k + 1, hi);
    }
  }

  lemma {:induction false} OccupiedPrefix(t: seq<int>, lo: nat, k: nat, hi: nat)
    requires lo <= k <= hi <= |t|
    ensures |Occupied(t, lo, k)| <= |Occupied(t, lo, hi)|
    ensures Occupied(t, lo, hi)[..|Occupied(t, lo, k)|] == Occupied(t, lo, k)
  {
    if k < hi {
      OccupiedPrefix(t, lo, k, hi - 1);
    }
  }

  lemma {:induction false} NoneOccupied(t: seq<int>, lo: nat, k: nat, hi: nat)
    requires lo <= k <= hi <= |t| && |Occupied(t, lo, k)| == |Occupied(t, lo, hi)|
    ensures forall j :: k <= j < hi ==> t[j] == EMPTY
    decreases hi - k
  {
    if k < hi {
      OccupiedPrefix(t, lo, k + 1, hi);
      NoneOccupied(t, lo, k + 1, hi);
    }
  }

  lemma {:induction false} RefsSkipTo(s: State, k: nat, p: nat)
    requires Savable(s) && k <= p <= NEW_SLOTS && forall j :: k <= j < p ==> s.newTable[j] == EMPTY
    ensures RefInfo(s, p) == RefInfo(s, k) && PartNew(s, p) == PartNew(s, k)
    decreases p - k
  {
    if k < p {
      RefsSkip(s, k);
      RefsSkipTo(s, k + 1, p);
    }
  }

  // ----- writing the entries of the new table

  // The entries of the new table below n are written, and every id below n has its index.
  ghost predicate NewWritten(m: map<int, Info>, n: nat, out: seq<Token>, index: map<int, int>) {
    && out == Entries(m, IdList(m, n, false))
    && forall id :: id in m && 0 <= id < n ==> id in index && index[id] == |IdList(m, id, false)|
  }

  lemma NewWrittenStep(m: map<int, Info>, n: nat, out: seq<Token>, index: map<int, int>)
    requires NewWritten(m, n, out, index)
    ensures n !in m ==> NewWritten(m, n + 1, out, index)
    ensures n in m && m[n].fInTried ==> NewWritten(m, n + 1, out, index[n := |out|])
    ensures n in m && !m[n].fInTried ==> NewWritten(m, n + 1, out + [Entry(ToDisk(m[n]))], index[n := |out|])
  {
  }

  // ----- writing one bucket

  lemma IndexStart(s: State, lo: nat)
    requires Savable(s) && lo <= NEW_SLOTS
    ensures IsIndexList(s, Occupied(s.newTable, lo, lo), [])
  {
  }

  lemma IndexStep(env: Env, s: State, lo: nat, k: nat, out: seq<Token>)
    requires Savable(s) && NewSlotsOk(env, s.nKey, s.mapInfo, s.newTable) && lo <= k < NEW_SLOTS
    requires IsIndexList(s, Occupied(s.newTable, lo, k), out)
    ensures s.newTable[k] != EMPTY ==> s.newTable[k] in s.mapInfo && 0 <= s.newTable[k]
    ensures IsIndexList(s, Occupied(s.newTable, lo, k + 1),
                        if s.newTable[k] == EMPTY then out
                        else out + [Num(|IdList(s.mapInfo, s.newTable[k], false)|)])
  {
    SlotHolder(env, s.nKey, s.mapInfo, s.newTable, k);
    hide NewSlotsOk, IdList, NewSlot;
  }

  lemma IndexEnd(s: State, b: nat, out: seq<Token>)
    requires Savable(s) && b < 1024
    requires IsIndexList(s, Occupied(s.newTable, b * 64, b * 64 + 64), out)
    ensures [Num(|Occupied(s.newTable, b * 64, b * 64 + 64)|)] + out == BucketTokens(s, b)
  {
    hide Occupied, IdList, Rank, TablesKnown;
  }

  lemma EntriesConcat(m: map<int, Info>, a: seq<int>, b: seq<int>)
    requires forall i :: 0 <= i < |a| ==> a[i] in m
    requires forall i :: 0 <= i < |b| ==> b[i] in m
    ensures forall i :: 0 <= i < |a + b| ==> (a + b)[i] in m
    ensures Entries(m, a) + Entries(m, b) == Entries(m, a + b)
  {
  }

  // ----- reading back

  // The stream is what saving s writes.
  ghost predicate SavedAs(env: Env, s: State, stream: seq<Token>) {
    Indexed(env, s, {}, {}) && Savable(s) && stream == Save(s)
  }

  // An entry read back, before it has any reference.
  lemma EntryFromDisk(s: State, j: int)
    requires IdsOk(s) && 0 <= j < |Order(s)|
    ensures Order(s)[j] in s.mapInfo
    ensures var info := s.mapInfo[Order(s)[j]];
            EntryInfo(s, j) == FromDisk(ToDisk(info), 3).(nRandomPos := j, fInTried := info.fInTried)
  {
  }

  // The indexes hold the first n entries of s, and the tried table those among them.
  ghost predicate EntriesAre(s: State, n: int, m: map<int, Info>, mapAddr: map<NetAddr, int>, vRandom: seq<int>) {
    && TablesKnown(s) && 0 <= n <= |Order(s)|
    && m == PartInfo(s, n) && mapAddr == PartAddr(s, n) && vRandom == Counting(n)
  }

  ghost predicate TriedAre(s: State, n: int, triedTable: seq<int>) {
    TablesKnown(s) && 0 <= n && triedTable == PartTried(s, n)
  }

  // Entry n of the stream and what the indexes look like after it.
  lemma ReadStep(env: Env, s: State, stream: seq<Token>, n: int,
                 m: map<int, Info>, mapAddr: map<NetAddr, int>, vRandom: seq<int>, triedTable: seq<int>)
    requires SavedAs(env, s, stream) && 0 <= n < |Order(s)|
    requires EntriesAre(s, n, m, mapAddr, vRandom) && TriedAre(s, n, triedTable)
    ensures 6 + n < |stream| && stream[6 + n].Entry? && |triedTable| == TRIED_SLOTS && |vRandom| == n
    ensures var info := FromDisk(stream[6 + n].info, 3);
            var k := TriedSlot(env, s.nKey, info.addr.service);
            && EntriesAre(s, n + 1, m[n := info.(nRandomPos := n, fInTried := n >= s.nNew)],
                          mapAddr[info.addr.service.ip := n], vRandom + [n])
            && (n < s.nNew ==> TriedAre(s, n + 1, triedTable))
            && (n >= s.nNew ==> triedTable[k] == EMPTY && TriedAre(s, n + 1, triedTable[k := n]))
  {
    hide Indexed, TablesKnown, Save, Order, Rank, IdList, EntryInfo, PartInfo, PartAddr, PartTried, TriedSlot;
    StreamEntry(s, n);
    EntryCounts(env, s);
    RankOfPlace(s, n);
    EntryFromDisk(s, n);
    InfoStep(s, n);
    Ops.AddrKnown(env, s);
    AddrStep(s, n);
    TriedStep(env, s, n);
  }

  lemma ReadStart(env: Env, s: State, stream: seq<Token>)
    requires SavedAs(env, s, stream)
    ensures EntriesAre(s, 0, map[], map[], []) && TriedAre(s, 0, seq(TRIED_SLOTS, _ => EMPTY))
    ensures |Order(s)| == s.nNew + s.nTried && 0 <= s.nNew && 0 <= s.nTried
  {
    hide IdList, Order, RandomOk, AddrOk, NewSlotsOk, RefCountsOk, TriedOk, BoundsOk, NewIds, TriedIds;
    EntriesStart(s);
    EntryCounts(env, s);
    Ops.KnownSlots(env, s, {}, {});
  }

  // The references of slots below k are in place.
  ghost predicate RefsAre(s: State, k: nat, m: map<int, Info>, newTable: seq<int>) {
    Savable(s) && k <= NEW_SLOTS && m == RefInfo(s, k) && newTable == PartNew(s, k)
  }

  // All entries are read; the references are not.
  ghost predicate EntriesDone(s: State, nIdCount: int, mapAddr: map<NetAddr, int>, vRandom: seq<int>, triedTable: seq<int>) {
    && TablesKnown(s) && nIdCount == |Order(s)| && mapAddr == RenameAddr(s) && vRandom == Counting(|Order(s)|)
    && triedTable == RenameTable(s, s.triedTable)
  }

  lemma RefsBegin(env: Env, s: State, stream: seq<Token>, m: map<int, Info>, mapAddr: map<NetAddr, int>, vRandom: seq<int>,
                  triedTable: seq<int>)
    requires SavedAs(env, s, stream) && EntriesAre(s, s.nNew + s.nTried, m, mapAddr, vRandom)
    requires TriedAre(s, s.nNew + s.nTried, triedTable)
    ensures RefsAre(s, 0, m, seq(NEW_SLOTS, _ => EMPTY))
    ensures EntriesDone(s, s.nNew + s.nTried, mapAddr, vRandom, triedTable)
  {
    hide Indexed, IdList, Order, PartInfo, PartAddr, PartTried, RefInfo, PartNew, RenameAddr, RenameTable, Save;
    EntryCounts(env, s);
    EntriesEnd(s);
    RefsStart(s);
  }

  // n indices of bucket b are read, and slots below k are done.
  ghost predicate BucketProgress(s: State, b: nat, k: nat, n: int, nSize: int) {
    && Savable(s) && b < 1024 && b * 64 <= k <= b * 64 + 64
    && n == |Occupied(s.newTable, b * 64, k)| <= nSize
    && nSize == |Occupied(s.newTable, b * 64, b * 64 + 64)|
  }

  // Index n of bucket b: the slot p it belongs to and the state after it.
  lemma IndexRead(env: Env, s: State, stream: seq<Token>, b: nat, k: nat, n: int, nSize: int,
                  m: map<int, Info>, newTable: seq<int>) returns (p: nat)
    requires SavedAs(env, s, stream) && BucketProgress(s, b, k, n, nSize) && n < nSize && RefsAre(s, k, m, newTable)
    ensures BucketStart(s, b) + 1 + n < |stream| && stream[BucketStart(s, b) + 1 + n].Num?
    ensures var r := stream[BucketStart(s, b) + 1 + n].n;
            && 0 <= r < s.nNew && r in m && m[r].nRefCount < NEW_BUCKETS_PER_ADDRESS
            && p == NewSlot(env, s.nKey, m[r].addr.service, b) && p < |newTable| && newTable[p] == EMPTY
            && RefsAre(s, p + 1, m[r := m[r].(nRefCount := m[r].nRefCount + 1)], newTable[p := r])
    ensures BucketProgress(s, b, p + 1, n + 1, nSize)
  {
    hide Indexed, Save, Rank, IdList, Occupied, BucketTokens, Savable, NewSlot, Order, Buckets, RefsAre;
    RefsSavable(s, k, m, newTable);
    var lo := b * 64;
    p := NextOccupied(s.newTable, lo, k, lo + 64);
    IndexToken(env, s, stream, b, n);
    RefsReach(s, k, p, m, newTable);
    IndexTaken(env, s, p, m, newTable);
    OccupiedStep(s.newTable, lo, p);
    assert p / 64 == b;
  }

  lemma RefsSavable(s: State, k: nat, m: map<int, Info>, newTable: seq<int>)
    requires RefsAre(s, k, m, newTable)
    ensures Savable(s) && |s.newTable| == NEW_SLOTS && IdsOk(s)
  {
    hide IdList, TablesKnown;
  }

  // Empty slots change nothing.
  lemma RefsReach(s: State, k: nat, p: nat, m: map<int, Info>, newTable: seq<int>)
    requires RefsAre(s, k, m, newTable) && k <= p <= NEW_SLOTS && |s.newTable| == NEW_SLOTS
    requires forall j :: k <= j < p ==> s.newTable[j] == EMPTY
    ensures RefsAre(s, p, m, newTable)
  {
    hide Rank, IdList, EntryInfo, RefInfo, PartNew, TablesKnown, Order;
    RefsSkipTo(s, k, p);
  }

  // The holder of slot p takes it.
  lemma IndexTaken(env: Env, s: State, p: nat, m: map<int, Info>, newTable: seq<int>)
    requires Indexed(env, s, {}, {}) && RefsAre(s, p, m, newTable) && p < |s.newTable| == NEW_SLOTS && s.newTable[p] != EMPTY
    ensures s.newTable[p] in s.mapInfo && IdsOk(s)
    ensures var r := Rank(s, s.newTable[p]);
            && 0 <= r < s.nNew && r in m && m[r].nRefCount < NEW_BUCKETS_PER_ADDRESS
            && p == NewSlot(env, s.nKey, m[r].addr.service, p / 64) && p < |newTable| && newTable[p] == EMPTY
            && RefsAre(s, p + 1, m[r := m[r].(nRefCount := m[r].nRefCount + 1)], newTable[p := r])
  {
    hide Indexed, Rank, IdList, EntryInfo, RefInfo, PartNew, TablesKnown, NewSlot, Order;
    RefBound(env, s, p);
    RefsTake(s, p);
    TableTake(s, p);
  }

  // The n-th index of bucket b in the stream.
  lemma IndexToken(env: Env, s: State, stream: seq<Token>, b: nat, n: int)
    requires SavedAs(env, s, stream) && b < 1024 && 0 <= n < |Occupied(s.newTable, b * 64, b * 64 + 64)|
    ensures Savable(s) && BucketStart(s, b) + 1 + n < |stream|
    ensures var id := Occupied(s.newTable, b * 64, b * 64 + 64)[n];
            id in s.mapInfo && stream[BucketStart(s, b) + 1 + n] == Num(Rank(s, id))
  {
    hide Indexed, Save, Rank, IdList, EntryInfo, RefInfo, PartNew, Occupied, Savable, TablesKnown, NewSlot, Order, Buckets;
    StreamBucket(s, b);
    assert stream[BucketStart(s, b) + (1 + n)] == BucketTokens(s, b)[1 + n];
  }

  lemma OccupiedStep(t: seq<int>, lo: nat, p: nat)
    requires lo <= p < |t| && t[p] != EMPTY
    ensures |Occupied(t, lo, p + 1)| == |Occupied(t, lo, p)| + 1
  {
  }

  // A bucket read to its end.
  lemma BucketRead(env: Env, s: State, stream: seq<Token>, b: nat, k: nat, n: int, nSize: int,
                   m: map<int, Info>, newTable: seq<int>)
    requires SavedAs(env, s, stream) && BucketProgress(s, b, k, n, nSize) && n == nSize && RefsAre(s, k, m, newTable)
    ensures RefsAre(s, b * 64 + 64, m, newTable) && BucketStart(s, b) + 1 + n == BucketStart(s, b + 1)
  {
    hide Indexed, Save, Rank, IdList, EntryInfo, RefInfo, PartNew, Occupied, Order, Buckets, TablesKnown;
    NoneOccupied(s.newTable, b * 64, k, b * 64 + 64);
    RefsSkipTo(s, k, b * 64 + 64);
    StreamBucket(s, b);
  }

  lemma BucketHead(env: Env, s: State, stream: seq<Token>, b: nat)
    requires SavedAs(env, s, stream) && b < 1024
    ensures BucketStart(s, b) < |stream| && stream[BucketStart(s, b)].Num?
    ensures BucketProgress(s, b, b * 64, 0, stream[BucketStart(s, b)].n)
  {
    hide Indexed, Rank, IdList, Order, Buckets, TablesKnown;
    StreamBucket(s, b);
    assert stream[BucketStart(s, b) + 0] == BucketTokens(s, b)[0];
  }

  // In the state loaded, every entry is referenced or tried: nothing is pruned.
  lemma NothingLost(env: Env, s: State, stream: seq<Token>, m: map<int, Info>, newTable: seq<int>)
    requires SavedAs(env, s, stream) && RefsAre(s, NEW_SLOTS, m, newTable)
    ensures TablesKnown(s) && m == RenameInfo(s) && newTable == RenameTable(s, s.newTable)
    ensures forall j :: j in m ==> m[j].fInTried || m[j].nRefCount != 0
  {
    hide Save, Rank, IdList, Order, RefInfo, PartNew, RenameInfo, RenameTable, Indexed, RefCountsOk, TablesKnown;
    Ops.SlotsKnown(env, s, {}, {});
    RefsEnd(s);
    TableEnd(s);
    RenumberedIndexed(env, s);
    forall j | j in m
      ensures m[j].fInTried || m[j].nRefCount != 0
    {
      Ops.BoundOf(env, Renumbered(s), j);
    }
  }

  ghost function Reloaded(s: State): State {
    if TablesKnown(s) then Renumbered(s) else s
  }

  lemma ReloadedOk(env: Env, s: State, stream: seq<Token>, s': State)
    requires SavedAs(env, s, stream) && TablesKnown(s)
    requires s'.nKey == s.nKey && s'.nTried == s.nTried && s'.nNew == s.nNew
    requires EntriesDone(s, s'.nIdCount, s'.mapAddr, s'.vRandom, s'.triedTable)
    requires s'.mapInfo == RenameInfo(s) && s'.newTable == RenameTable(s, s.newTable)
    ensures s' == Reloaded(s) && Indexed(env, s', {}, {})
  {
    hide Indexed, Save, Order, IdList, RenameInfo, RenameAddr, RenameTable, Counting;
    RenumberedIndexed(env, s);
  }

  // The header, and that the reader leaves it with the right numbers.
  lemma HeaderRead(env: Env, s: State, stream: seq<Token>)
    requires SavedAs(env, s, stream)
    ensures Savable(s) && |stream| >= 6 && stream[0] == Byte(3) && stream[1] == Byte(32) && stream[2] == KeyToken(s.nKey)
    ensures stream[3] == Num(s.nNew) && stream[4] == Num(s.nTried)
    ensures exists flipped :: stream[5] == Num(flipped) && FlipBit30(flipped) == NEW_BUCKET_COUNT
    ensures 0 <= s.nNew && 0 <= s.nTried
    ensures BucketStart(s, 0) == 6 + s.nNew + s.nTried && BucketStart(s, 1024) == |stream|
  {
    hide Indexed, Order, IdList, TablesKnown, Entries, Buckets;
    StreamEnds(s);
    EntryCounts(env, s);
    FlipTwice(NEW_BUCKET_COUNT);
    assert stream[5] == Num(FlipBit30(NEW_BUCKET_COUNT));
  }

  // A fresh entry at the end of vRandom.
  lemma AppendKeepsRandom(m: map<int, Info>, vRandom: seq<int>, id: int, info: Info)
    requires RandomOk(m, vRandom) && id !in m
    ensures RandomOk(m[id := info.(nRandomPos := |vRandom|)], vRandom + [id])
  {
  }
}
