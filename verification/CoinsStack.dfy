// The stack of caches as a value: what each call does to every level, and what it keeps of
// each.  The classes in CoinsView.dfy perform the same calls in place.
module CoinsStacks {
  import opened CoinsCache
  import opened CoinsOps

  datatype Level = Level(cache: map<TxId, Entry>, usage: int, hashBlock: BlockHash, live: Live)

  datatype Stack = Database(store: map<TxId, Coins>, bestBlock: BlockHash) | Over(top: Level, below: Stack)

  const NEW_LEVEL := Level(map[], 0, 0, Nobody)

  ghost function View(s: Stack): map<TxId, Coins> {
    match s
    case Database(store, _) => store
    case Over(l, below) => Overlay(View(below), l.cache)
  }

  ghost function Best(s: Stack): BlockHash {
    match s
    case Database(_, bestBlock) => bestBlock
    case Over(l, below) => if l.hashBlock != 0 then l.hashBlock else Best(below)
  }

  // What every level shows, from the top down to the database.
  ghost function Views(s: Stack): (vs: seq<map<TxId, Coins>>)
    ensures |vs| > 0 && vs[0] == View(s)
  {
    match s
    case Database(_, _) => [View(s)]
    case Over(_, below) => [View(s)] + Views(below)
  }

  predicate Idle(s: Stack) {
    s.Over? ==> s.top.live.Nobody?
  }

  // Only the top may have a modifier, the flags are truthful, and the counters not too small.
  ghost predicate Ok(mem: Memory, s: Stack) {
    match s
    case Database(store, _) => AllUnspent(store) && AllClean(store)
    case Over(l, below) =>
      Ok(mem, below) && Idle(below) && CacheOk(View(below), l.cache, l.live) && l.usage >= Counted(mem, l.cache, l.live)
  }

  // ----- reading

  // base->GetCoins, and a record filled in on the way back.
  ghost function GetCoins(mem: Memory, s: Stack, t: TxId): (r: (bool, Coins, Stack))
    ensures r.2.Over? == s.Over? && (!r.0 ==> r.1 == CLEARED)
  {
    match s
    case Database(store, _) => (t in store, if t in store then store[t] else CLEARED, s)
    case Over(l, below) =>
      if t in l.cache then (true, l.cache[t].coins, s)
      else
        var (found, c, below') := GetCoins(mem, below, t);
        (found, c, Over(if found then Filled(mem, l, t, c) else l, below'))
  }

  function Fetched(c: Coins): Entry {
    Entry(c, false, IsPruned(c))
  }

  function Filled(mem: Memory, l: Level, t: TxId, c: Coins): Level {
    l.(cache := l.cache[t := Fetched(c)], usage := l.usage + mem(c))
  }

  ghost function GetBestBlock(s: Stack): (r: (BlockHash, Stack)) {
    match s
    case Database(_, bestBlock) => (bestBlock, s)
    case Over(l, below) =>
      if l.hashBlock != 0 then (l.hashBlock, s)
      else
        var (hash, below') := GetBestBlock(below);
        (hash, Over(l.(hashBlock := hash), below'))
  }

  // ----- writing

  ghost function ModifyCoins(mem: Memory, s: Stack, t: TxId): (s': Stack)
    requires s.Over?
    ensures s'.Over? && t in s'.top.cache && s'.top.live.On? && s'.top.live.txid == t
  {
    var l := s.top;
    if t in l.cache then
      s.(top := l.(cache := l.cache[t := l.cache[t].(fDirty := true)], live := On(t, mem(l.cache[t].coins))))
    else
      var (found, c, below') := GetCoins(mem, s.below, t);
      var e := if found then Entry(c, true, IsPruned(c)) else Entry(CLEARED, true, true);
      Over(l.(cache := l.cache[t := e], live := On(t, 0)), below')
  }

  function ModifyNewCoins(s: Stack, t: TxId): Stack
    requires s.Over?
  {
    s.(top := s.top.(cache := s.top.cache[t := Entry(CLEARED, true, true)], live := On(t, 0)))
  }

  function SetBestBlock(s: Stack, hashBlock: BlockHash): Stack
    requires s.Over?
  {
    s.(top := s.top.(hashBlock := hashBlock))
  }

  predicate HasModifier(s: Stack, t: TxId) {
    s.Over? && s.top.live.On? && s.top.live.txid == t && t in s.top.cache
  }

  function Assign(s: Stack, t: TxId, c: Coins): Stack
    requires HasModifier(s, t)
  {
    s.(top := s.top.(cache := s.top.cache[t := s.top.cache[t].(coins := c)]))
  }

  function Release(mem: Memory, s: Stack, t: TxId): Stack
    requires HasModifier(s, t)
  {
    var after := Released(s.top.cache, t);
    var usage := s.top.usage - s.top.live.pending + if t in after then mem(after[t].coins) else 0;
    s.(top := Level(after, usage, s.top.hashBlock, Nobody))
  }

  ghost function BatchWrite(mem: Memory, s: Stack, m: map<TxId, Entry>, hashBlock: BlockHash): Stack {
    match s
    case Database(store, bestBlock) => Database(Overlay(store, m), if hashBlock != 0 then hashBlock else bestBlock)
    case Over(l, below) =>
      var after := MergeAll(l.cache, m);
      Over(Level(after, l.usage - Usage(mem, l.cache) + Usage(mem, after), hashBlock, l.live), below)
  }

  ghost function Flush(mem: Memory, s: Stack): Stack
    requires s.Over?
  {
    Over(s.top.(cache := map[], usage := 0), BatchWrite(mem, s.below, s.top.cache, s.top.hashBlock))
  }

  function Uncache(mem: Memory, s: Stack, t: TxId): Stack
    requires s.Over?
  {
    var l := s.top;
    if t in l.cache && !l.cache[t].fDirty && !l.cache[t].fFresh then
      s.(top := l.(cache := l.cache - {t}, usage := l.usage - mem(l.cache[t].coins)))
    else s
  }

  // CCoins::Spend on the record a modifier holds.
  ghost function SpendThrough(mem: Memory, s: Stack, t: TxId, nPos: nat): (r: (bool, Stack))
    requires s.Over?
  {
    var s1 := ModifyCoins(mem, s, t);
    var c := s1.top.cache[t].coins;
    if nPos < |c.vout| && !c.vout[nPos].IsNull() then (true, Release(mem, Assign(s1, t, WithoutOutput(c, nPos)), t))
    else (false, Release(mem, s1, t))
  }

  // ----- what reading keeps

  // How much a counter exceeds what it should say.
  ghost function Excess(mem: Memory, l: Level): int {
    l.usage - Counted(mem, l.cache, l.live)
  }

  ghost function Excesses(mem: Memory, s: Stack): seq<int> {
    match s
    case Database(_, _) => []
    case Over(l, below) => [Excess(mem, l)] + Excesses(mem, below)
  }

  lemma TopEntry(mem: Memory, s: Stack, t: TxId)
    requires Ok(mem, s) && s.Over? && t in s.top.cache
    ensures EntryOk(View(s.below), t, s.top.cache[t])
    ensures s.top.live.Nobody? ==> Clean(s.top.cache[t].coins)
    ensures AllUnspent(View(s.below)) && AllClean(View(s.below))
  {
    Entries(View(s.below), s.top.cache, s.top.live, t);
    hide EntryOk, Clean, IsPruned, Overlay, Counted;
  }

  // What a level without a modifier shows is a good base.
  lemma ViewOk(mem: Memory, s: Stack)
    requires Ok(mem, s) && Idle(s)
    ensures AllUnspent(View(s)) && AllClean(View(s))
    ensures s.Over? ==> EntriesOk(View(s.below), s.top.cache) && EntriesClean(s.top.cache)
  {
    hide CacheOk, Counted;
    if s.Over? {
      OverlayClean(View(s.below), s.top.cache);
    }
  }

  // What GetCoins answers, in terms of the view.
  lemma {:induction false} GetCoinsAnswer(mem: Memory, s: Stack, t: TxId)
    requires Ok(mem, s) && Idle(s)
    ensures var (found, c, _) := GetCoins(mem, s, t);
            && (t in View(s) ==> found && c == View(s)[t])
            && (t !in View(s) && found ==> IsPruned(c))
            && (found ==> Clean(c))
            && (!found ==> s.Over? ==> t !in s.top.cache && t !in View(s.below))
  {
    hide CacheOk, IsPruned, Clean, Counted;
    ViewOk(mem, s);
    match s
    case Database(store, _) => assert t in store ==> Clean(store[t]);
    case Over(l, below) =>
      if t in l.cache {
        TopEntry(mem, s, t);
      } else {
        GetCoinsAnswer(mem, below, t);
      }
  }

  // Reading changes no view, no best block and no excess of any level.
  lemma {:induction false} GetCoinsKeeps(mem: Memory, s: Stack, t: TxId)
    requires Ok(mem, s)
    ensures var s' := GetCoins(mem, s, t).2;
            && Ok(mem, s') && Views(s') == Views(s) && Best(s') == Best(s) && Excesses(mem, s') == Excesses(mem, s)
            && (s.Over? ==> s'.top.live == s.top.live)
  {
    hide CacheOk, IsPruned, Clean, Overlay, Counted;
    if s.Over? && t !in s.top.cache {
      var l, below := s.top, s.below;
      var (found, c, below') := GetCoins(mem, below, t);
      GetCoinsKeeps(mem, below, t);
      GetCoinsAnswer(mem, below, t);
      if found {
        FetchKeeps(View(below), l.cache, l.live, t, c);
        LiveThere(View(below), l);
        FetchCounted(mem, l.cache, l.live, t, Fetched(c));
      }
    }
  }

  lemma LiveThere(base: map<TxId, Coins>, l: Level)
    requires CacheOk(base, l.cache, l.live)
    ensures l.live.On? ==> l.live.txid in l.cache && l.cache[l.live.txid].fDirty
  {
  }

  lemma {:induction false} GetBestBlockKeeps(mem: Memory, s: Stack)
    requires Ok(mem, s)
    ensures var (hash, s') := GetBestBlock(s);
            && hash == Best(s) == Best(s')
            && Ok(mem, s') && Views(s') == Views(s) && Excesses(mem, s') == Excesses(mem, s)
            && (s.Over? ==> s'.Over? && s'.top.live == s.top.live)
  {
    hide CacheOk, Overlay, Counted;
    if s.Over? && s.top.hashBlock == 0 {
      GetBestBlockKeeps(mem, s.below);
    }
  }
}
