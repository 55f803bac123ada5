// The address manager as a value: the five redundant indexes of CAddrMan, the two
// counters, and every mutator written as a function from state to state.  The class in
// AddrMan.dfy performs the same steps in place and is proved equal to these functions.
module AddrManState {

  const TRIED_BUCKET_COUNT := 256
  const NEW_BUCKET_COUNT := 1024
  const BUCKET_SIZE := 64
  const TRIED_BUCKETS_PER_GROUP := 8
  const NEW_BUCKETS_PER_SOURCE_GROUP := 64
  const NEW_BUCKETS_PER_ADDRESS := 8
  const HORIZON_DAYS := 30
  const RETRIES := 3
  const MAX_FAILURES := 10
  const MIN_FAIL_DAYS := 7
  const NEW_SLOTS := 65536   // NEW_BUCKET_COUNT * BUCKET_SIZE
  const TRIED_SLOTS := 16384 // TRIED_BUCKET_COUNT * BUCKET_SIZE
  const EMPTY := -1

  type NetAddr = nat // the number formed by the bytes of a CNetAddr
  type Key = nat     // uint256

  datatype Service = Service(ip: NetAddr, port: nat)
  datatype Address = Address(service: Service, nServices: bv64, nTime: nat)

  // What is fed to the hash that places addresses: one constructor per CHashWriter chain.
  datatype Preimage =
    | TriedSpread(key: Key, service: Service)
    | TriedBucket(key: Key, group: nat, spread: nat)
    | NewSpread(key: Key, group: nat, sourceGroup: nat)
    | NewBucket(key: Key, sourceGroup: nat, spread: nat)
    | BucketSlot(key: Key, isNew: bool, bucket: nat, service: Service)

  // The parts of the environment the manager calls into: the cheap hash, the address
  // grouping and the routability test.
  datatype Env = Env(hash: Preimage -> nat, group: NetAddr -> nat, routable: NetAddr -> bool)

  datatype Info = Info(
    addr: Address,
    source: NetAddr,
    nLastTry: int,
    nLastSuccess: int,
    nAttempts: int,
    nRefCount: int,
    nRandomPos: int,
    fInTried: bool,
    fKnowsXThin: bool,
    uselessness: int)

  datatype State = State(
    nKey: Key,
    nIdCount: int,
    mapInfo: map<int, Info>,
    mapAddr: map<NetAddr, int>,
    vRandom: seq<int>,
    nTried: int,
    nNew: int,
    triedTable: seq<int>,  // slot b * BUCKET_SIZE + p is vvTried[b][p]
    newTable: seq<int>)    // slot b * BUCKET_SIZE + p is vvNew[b][p]

  function NewInfo(addr: Address, source: NetAddr): Info {
    Info(addr, source, 0, 0, 0, 0, -1, false, false, 0)
  }

  function ToUint32(x: int): nat {
    x % 0x1_0000_0000
  }

  function Max(a: int, b: int): int {
    if a < b then b else a
  }

  // ----- where an address is placed

  function GetTriedBucket(env: Env, key: Key, s: Service): (b: nat)
    ensures b < 256
  {
    var hash1 := env.hash(TriedSpread(key, s));
    env.hash(TriedBucket(key, env.group(s.ip), hash1 % TRIED_BUCKETS_PER_GROUP)) % TRIED_BUCKET_COUNT
  }

  function GetNewBucket(env: Env, key: Key, s: Service, source: NetAddr): (b: nat)
    ensures b < 1024
  {
    var hash1 := env.hash(NewSpread(key, env.group(s.ip), env.group(source)));
    env.hash(NewBucket(key, env.group(source), hash1 % NEW_BUCKETS_PER_SOURCE_GROUP)) % NEW_BUCKET_COUNT
  }

  function GetBucketPosition(env: Env, key: Key, isNew: bool, bucket: nat, s: Service): (p: nat)
    ensures p < 64
  {
    env.hash(BucketSlot(key, isNew, bucket, s)) % BUCKET_SIZE
  }

  // The slot an address may occupy in new bucket b, and its one slot in the tried table.
  function NewSlot(env: Env, key: Key, s: Service, b: nat): (k: nat)
    ensures b < 1024 ==> k < 65536
    ensures k / 64 == b
  {
    b * BUCKET_SIZE + GetBucketPosition(env, key, true, b, s)
  }

  function TriedSlot(env: Env, key: Key, s: Service): (k: nat)
    ensures k < 16384
  {
    var b := GetTriedBucket(env, key, s);
    b * BUCKET_SIZE + GetBucketPosition(env, key, false, b, s)
  }

  predicate IsTerrible(info: Info, nNow: int) {
    if info.nLastTry != 0 && info.nLastTry >= nNow - 60 then false
    else if info.addr.nTime > nNow + 10 * 60 then true
    else if info.addr.nTime == 0 || nNow - info.addr.nTime > HORIZON_DAYS * 24 * 60 * 60 then true
    else if info.nLastSuccess == 0 && info.nAttempts >= RETRIES then true
    else nNow - info.nLastSuccess > MIN_FAIL_DAYS * 24 * 60 * 60 && info.nAttempts >= MAX_FAILURES
  }

  // ----- the consistency condition, index by index

  // vRandom lists every id once and nRandomPos is its inverse.
  ghost predicate RandomOk(mapInfo: map<int, Info>, vRandom: seq<int>) {
    && (forall id :: id in mapInfo ==> 0 <= mapInfo[id].nRandomPos < |vRandom| && vRandom[mapInfo[id].nRandomPos] == id)
    && (forall i :: 0 <= i < |vRandom| ==> vRandom[i] in mapInfo && mapInfo[vRandom[i]].nRandomPos == i)
  }

  // mapAddr inverts mapInfo.
  ghost predicate AddrOk(mapInfo: map<int, Info>, mapAddr: map<NetAddr, int>) {
    && (forall id :: id in mapInfo ==> mapInfo[id].addr.service.ip in mapAddr && mapAddr[mapInfo[id].addr.service.ip] == id)
    && (forall a :: a in mapAddr ==> mapAddr[a] in mapInfo && mapInfo[mapAddr[a]].addr.service.ip == a)
  }

  // The new slots an id holds.
  ghost function Held(newTable: seq<int>, id: int): set<nat> {
    set k: nat | k < |newTable| && newTable[k] == id
  }

  // Every occupied new slot is the hashed place of a known entry that is not tried, and
  // nRefCount is the number of slots held.
  ghost predicate NewSlotsOk(env: Env, key: Key, mapInfo: map<int, Info>, newTable: seq<int>) {
    && |newTable| == NEW_SLOTS
    && (forall k :: 0 <= k < NEW_SLOTS && newTable[k] != EMPTY ==>
          && newTable[k] in mapInfo
          && !mapInfo[newTable[k]].fInTried
          && k == NewSlot(env, key, mapInfo[newTable[k]].addr.service, k / 64))
  }

  ghost predicate RefCountsOk(mapInfo: map<int, Info>, newTable: seq<int>) {
    forall id :: id in mapInfo ==> mapInfo[id].nRefCount == |Held(newTable, id)|
  }

  // Tried entries sit in exactly their hashed slot.
  ghost predicate TriedOk(env: Env, key: Key, mapInfo: map<int, Info>, triedTable: seq<int>) {
    && |triedTable| == TRIED_SLOTS
    && (forall k :: 0 <= k < TRIED_SLOTS && triedTable[k] != EMPTY ==>
          && triedTable[k] in mapInfo
          && mapInfo[triedTable[k]].fInTried
          && k == TriedSlot(env, key, mapInfo[triedTable[k]].addr.service))
    && (forall id :: id in mapInfo && mapInfo[id].fInTried ==>
          triedTable[TriedSlot(env, key, mapInfo[id].addr.service)] == id)
  }

  ghost function TriedIds(mapInfo: map<int, Info>): set<int> {
    set id | id in mapInfo && mapInfo[id].fInTried
  }

  ghost function NewIds(mapInfo: map<int, Info>): set<int> {
    set id | id in mapInfo && !mapInfo[id].fInTried
  }

  // Reference counts stay within bounds; `loose` are the entries that hold no slot for the
  // moment, in the middle of a mutator.
  ghost predicate BoundsOk(mapInfo: map<int, Info>, loose: set<int>) {
    && (forall id :: id in mapInfo ==> 0 <= mapInfo[id].nRefCount <= NEW_BUCKETS_PER_ADDRESS)
    && (forall id :: id in mapInfo ==>
          if id in loose then !mapInfo[id].fInTried && mapInfo[id].nRefCount == 0
          else mapInfo[id].fInTried || 1 <= mapInfo[id].nRefCount)
    && loose <= mapInfo.Keys
  }

  // The whole condition.  Between public calls loose and uncounted are empty.  Inside a
  // mutator, `loose` entries have no slot and `uncounted` of them are not in nNew either.
  ghost predicate Indexed(env: Env, s: State, loose: set<int>, uncounted: set<int>) {
    && (forall id :: id in s.mapInfo ==> 0 <= id < s.nIdCount)
    && 0 <= s.nIdCount
    && RandomOk(s.mapInfo, s.vRandom)
    && AddrOk(s.mapInfo, s.mapAddr)
    && NewSlotsOk(env, s.nKey, s.mapInfo, s.newTable)
    && RefCountsOk(s.mapInfo, s.newTable)
    && TriedOk(env, s.nKey, s.mapInfo, s.triedTable)
    && BoundsOk(s.mapInfo, loose)
    && uncounted <= loose
    && s.nTried == |TriedIds(s.mapInfo)|
    && s.nNew == |NewIds(s.mapInfo)| - |uncounted|
  }

  // The time stamps the consistency check also looks at.
  ghost predicate TimesOk(mapInfo: map<int, Info>) {
    forall id :: id in mapInfo ==>
      && 0 <= mapInfo[id].nLastTry
      && 0 <= mapInfo[id].nLastSuccess
      && (mapInfo[id].fInTried ==> 0 < mapInfo[id].nLastSuccess)
  }

  ghost predicate Consistent(env: Env, s: State) {
    Indexed(env, s, {}, {}) && TimesOk(s.mapInfo) && s.nKey != 0
  }

  // ----- the mutators

  function Empty(key: Key): State {
    State(key, 0, map[], map[], [], 0, 0, seq(TRIED_SLOTS, _ => EMPTY), seq(NEW_SLOTS, _ => EMPTY))
  }

  function Create(s: State, addr: Address, source: NetAddr): State {
    s.(nIdCount := s.nIdCount + 1,
       mapInfo := s.mapInfo[s.nIdCount := NewInfo(addr, source).(nRandomPos := |s.vRandom|)],
       mapAddr := s.mapAddr[addr.service.ip := s.nIdCount],
       vRandom := s.vRandom + [s.nIdCount])
  }

  function SwapRandom(s: State, i: nat, j: nat): State
    requires i < |s.vRandom| && j < |s.vRandom|
    requires s.vRandom[i] in s.mapInfo && s.vRandom[j] in s.mapInfo
  {
    if i == j then s
    else
      var id1, id2 := s.vRandom[i], s.vRandom[j];
      var m1 := s.mapInfo[id1 := s.mapInfo[id1].(nRandomPos := j)];
      s.(mapInfo := m1[id2 := m1[id2].(nRandomPos := i)],
         vRandom := s.vRandom[i := id2][j := id1])
  }

  ghost function Delete(s: State, id: int): State
    requires id in s.mapInfo && RandomOk(s.mapInfo, s.vRandom)
  {
    var s1 := SwapRandom(s, s.mapInfo[id].nRandomPos, |s.vRandom| - 1);
    s1.(vRandom := s1.vRandom[..|s1.vRandom| - 1],
        mapAddr := s1.mapAddr - {s.mapInfo[id].addr.service.ip},
        mapInfo := s1.mapInfo - {id},
        nNew := s1.nNew - 1)
  }

  function SetRefCount(s: State, id: int, n: int): State
    requires id in s.mapInfo
  {
    s.(mapInfo := s.mapInfo[id := s.mapInfo[id].(nRefCount := n)])
  }

  ghost function ClearNew(s: State, k: nat): State
    requires k < |s.newTable|
    requires s.newTable[k] != EMPTY ==> s.newTable[k] in s.mapInfo
    requires RandomOk(s.mapInfo, s.vRandom)
  {
    if s.newTable[k] == EMPTY then s
    else
      var id := s.newTable[k];
      var s1 := SetRefCount(s, id, s.mapInfo[id].nRefCount - 1).(newTable := s.newTable[k := EMPTY]);
      if s1.mapInfo[id].nRefCount == 0 then Delete(s1, id) else s1
  }

  // Enter id in new slot k.
  function TakeSlot(s: State, id: int, k: nat): State
    requires id in s.mapInfo && k < |s.newTable|
  {
    SetRefCount(s, id, s.mapInfo[id].nRefCount + 1).(newTable := s.newTable[k := id])
  }
}
