// Every run of a stack of caches: what each level shows follows a stack of plain maps, and
// when each usage counter is exact.
module CoinsRuns {
  import opened CoinsCache
  import opened CoinsOps
  import opened CoinsStacks

  // Calls that show nothing new may be made on any level, the others on the top.
  datatype Call = DoGetCoins(txid: TxId) | DoGetBestBlock | DoFlush | DoUncache(txid: TxId)

  datatype Op =
    | Push // a new cache over the stack
    | Pop  // the top is thrown away
    | At(level: nat, call: Call)
    | DoModifyCoins(txid: TxId)
    | DoModifyNewCoins(txid: TxId)
    | DoAssign(txid: TxId, coins: Coins)
    | DoRelease(txid: TxId)
    | DoSetBestBlock(hash: BlockHash)

  function Depth(s: Stack): nat {
    if s.Over? then 1 + Depth(s.below) else 0
  }

  // What the calls demand: one modifier at a time, and of ModifyNewCoins that the views below
  // do not have the record.
  ghost predicate Legal(s: Stack, op: Op) {
    match op
    case Push => Idle(s)
    case Pop => s.Over? && Idle(s)
    case At(level, call) => level < Depth(s) && (call.DoFlush? && level == 0 ==> Idle(s))
    case DoModifyCoins(_) => s.Over? && Idle(s)
    case DoModifyNewCoins(t) => s.Over? && Idle(s) && t !in View(s.below)
    case DoAssign(t, _) => HasModifier(s, t)
    case DoRelease(t) => HasModifier(s, t)
    case DoSetBestBlock(_) => s.Over?
  }

  ghost function CallOn(mem: Memory, s: Stack, call: Call): Stack
    requires s.Over?
  {
    match call
    case DoGetCoins(t) => GetCoins(mem, s, t).2
    case DoGetBestBlock => GetBestBlock(s).1
    case DoFlush => Flush(mem, s)
    case DoUncache(t) => Uncache(mem, s, t)
  }

  ghost function CallAt(mem: Memory, s: Stack, level: nat, call: Call): Stack
    requires level < Depth(s)
  {
    if level == 0 then CallOn(mem, s, call) else Over(s.top, CallAt(mem, s.below, level - 1, call))
  }

  ghost function Step(mem: Memory, s: Stack, op: Op): Stack
    requires Legal(s, op)
  {
    match op
    case Push => Over(NEW_LEVEL, s)
    case Pop => s.below
    case At(level, call) => CallAt(mem, s, level, call)
    case DoModifyCoins(t) => ModifyCoins(mem, s, t)
    case DoModifyNewCoins(t) => ModifyNewCoins(s, t)
    case DoAssign(t, c) => Assign(s, t, c)
    case DoRelease(t) => Release(mem, s, t)
    case DoSetBestBlock(hash) => SetBestBlock(s, hash)
  }

  // ----- the stack of plain maps

  function CleanedRecord(v: map<TxId, Coins>, t: TxId): map<TxId, Coins> {
    if t in v then v[t := Cleanup(v[t])] else v
  }

  // The same call on plain maps, the top first.
  function OnMaps(vs: seq<map<TxId, Coins>>, op: Op): seq<map<TxId, Coins>>
    requires |vs| > 0
  {
    match op
    case Push => [vs[0]] + vs
    case Pop => vs[1..]
    case At(level, call) => if call.DoFlush? && level + 1 < |vs| then vs[level + 1 := vs[level]] else vs
    case DoModifyCoins(_) => vs
    case DoModifyNewCoins(t) => vs[0 := vs[0] - {t}]
    case DoAssign(t, c) => vs[0 := Show(vs[0], t, c)]
    case DoRelease(t) => vs[0 := CleanedRecord(vs[0], t)]
    case DoSetBestBlock(_) => vs
  }

  // ----- which counters are off

  // ModifyNewCoins empties an entry that held memory, which its modifier will not subtract.
  predicate Overwrites(mem: Memory, s: Stack, t: TxId)
    requires s.Over?
  {
    t in s.top.cache && mem(s.top.cache[t].coins) > 0
  }

  // For each level, whether that has happened since its last flush.
  ghost function Marks(mem: Memory, s: Stack, op: Op, marks: seq<bool>): seq<bool>
    requires Legal(s, op) && |marks| == Depth(s)
  {
    match op
    case Push => [false] + marks
    case Pop => marks[1..]
    case At(level, call) => if call.DoFlush? then marks[level := false] else marks
    case DoModifyNewCoins(t) => marks[0 := marks[0] || Overwrites(mem, s, t)]
    case _ => marks
  }

  ghost predicate Marked(mem: Memory, s: Stack, marks: seq<bool>) {
    && |marks| == Depth(s) == |Excesses(mem, s)|
    && forall i :: 0 <= i < |marks| ==> (marks[i] <==> Excesses(mem, s)[i] != 0)
  }

  // ----- calls on one level

  // A call that shows nothing new above the level it is made on.
  ghost predicate Invisible(s: Stack, s': Stack) {
    s.Over? && s'.Over? && View(s') == View(s) && s'.top.live == s.top.live
  }

  // Two stacks that differ at most in what the top does.
  lemma TopChanged(mem: Memory, s: Stack, s': Stack)
    requires s.Over? && s'.Over? && Views(s'.below) == Views(s.below) && Excesses(mem, s'.below) == Excesses(mem, s.below)
    ensures Views(s') == Views(s)[0 := View(s')]
    ensures |Excesses(mem, s)| > 0 && Excesses(mem, s') == Excesses(mem, s)[0 := Excess(mem, s'.top)]
    ensures View(s') == View(s) ==> Views(s') == Views(s)
    ensures Excess(mem, s'.top) == Excess(mem, s.top) ==> Excesses(mem, s') == Excesses(mem, s)
  {
    hide Excess, View;
  }

  lemma Shift<T>(x: T, rest: seq<T>, i: nat, y: T)
    requires i < |rest|
    ensures ([x] + rest)[i + 1 := y] == [x] + rest[i := y]
    ensures ([x] + rest)[0 := y] == [y] + rest
  {
  }

  lemma FlushKeeps(mem: Memory, s: Stack)
    requires Ok(mem, s) && s.Over? && Idle(s)
    ensures var s' := Flush(mem, s);
            && Ok(mem, s') && Invisible(s, s')
            && Views(s') == Views(s)[1 := View(s)]
            && Excesses(mem, s') == Excesses(mem, s)[0 := 0]
  {
    var l, below := s.top, s.below;
    ViewOk(mem, s);
    WriteKeeps(mem, below, l.cache, l.hashBlock);
    EmptyKeeps(View(s), mem);
    OverlayEmpty(View(s));
    assert Views(s) == [View(s)] + Views(below) && Excesses(mem, s) == [Excess(mem, l)] + Excesses(mem, below);
    var s' := Flush(mem, s);
    assert Views(s') == [View(s')] + Views(s'.below) && Excesses(mem, s') == [Excess(mem, s'.top)] + Excesses(mem, s'.below);
    Shift(View(s), Views(below), 0, View(s));
    hide CacheOk, Counted, Overlay, AllUnspent, AllClean, EntriesOk, EntriesClean, BatchWrite, Views, Excesses;
  }

  lemma WriteKeeps(mem: Memory, s: Stack, m: map<TxId, Entry>, hashBlock: BlockHash)
    requires Ok(mem, s) && Idle(s) && EntriesOk(View(s), m) && EntriesClean(m)
    ensures var s' := BatchWrite(mem, s, m, hashBlock);
            && Ok(mem, s') && Idle(s')
            && View(s') == Overlay(View(s), m) && Views(s') == Views(s)[0 := View(s')]
            && Excesses(mem, s') == Excesses(mem, s)
  {
    match s
    case Database(store, _) => StoredOk(store, m);
    case Over(l, below) =>
      MergeAllShows(View(below), l.cache, m);
      MergeAllFlags(View(below), l.cache, m);
      MergeAllClean(View(below), l.cache, m);
      TopChanged(mem, s, BatchWrite(mem, s, m, hashBlock));
      hide Views, Excesses, Overlay, MergeAll, AllUnspent, AllClean, EntriesOk, EntriesClean, Merge, CacheOk;
  }

  lemma StoredOk(store: map<TxId, Coins>, m: map<TxId, Entry>)
    requires AllUnspent(store) && AllClean(store) && EntriesClean(m)
    ensures AllUnspent(Overlay(store, m)) && AllClean(Overlay(store, m))
  {
    hide IsPruned, Clean;
  }

  lemma MergeAllClean(base: map<TxId, Coins>, cache: map<TxId, Entry>, m: map<TxId, Entry>)
    requires CacheOk(base, cache, Nobody) && EntriesClean(m) && EntriesOk(base, MergeAll(cache, m))
    ensures CacheOk(base, MergeAll(cache, m), Nobody)
  {
    hide MergeAll, IsPruned, Clean, EntriesOk;
  }

  lemma UncacheKeepsAll(mem: Memory, s: Stack, t: TxId)
    requires Ok(mem, s) && s.Over?
    ensures var s' := Uncache(mem, s, t);
            Ok(mem, s') && Invisible(s, s') && Views(s') == Views(s) && Excesses(mem, s') == Excesses(mem, s)
  {
    var l := s.top;
    LiveThere(View(s.below), l);
    TopChanged(mem, s, Uncache(mem, s, t));
    hide CacheOk, Counted, Overlay, Views, Excesses;
    if t in l.cache && !l.cache[t].fDirty && !l.cache[t].fFresh {
      UncacheKeeps(View(s.below), l.cache, l.live, t);
      UncacheCounted(mem, l.cache, l.live, t);
    }
  }

  // On its level, a call changes views and excesses only by flushing.
  lemma CallKeeps(mem: Memory, s: Stack, call: Call)
    requires Ok(mem, s) && s.Over? && (call.DoFlush? ==> Idle(s))
    ensures var s' := CallOn(mem, s, call);
            && Ok(mem, s') && Invisible(s, s')
            && Views(s') == (if call.DoFlush? then Views(s)[1 := View(s)] else Views(s))
            && Excesses(mem, s') == if call.DoFlush? then Excesses(mem, s)[0 := 0] else Excesses(mem, s)
  {
    hide Ok, Views, Excesses, View, GetCoins, GetBestBlock, Flush, Uncache;
    match call
    case DoGetCoins(t) => GetCoinsKeeps(mem, s, t); SameView(s, GetCoins(mem, s, t).2);
    case DoGetBestBlock => GetBestBlockKeeps(mem, s); SameView(s, GetBestBlock(s).1);
    case DoFlush => FlushKeeps(mem, s);
    case DoUncache(t) => UncacheKeepsAll(mem, s, t);
  }

  lemma SameView(s: Stack, s': Stack)
    requires Views(s) == Views(s')
    ensures View(s) == View(s')
  {
  }

  // Under other levels as well: nothing shows above.
  lemma {:induction false} CallAtKeeps(mem: Memory, s: Stack, level: nat, call: Call)
    requires Ok(mem, s) && level < Depth(s) && (call.DoFlush? && level == 0 ==> Idle(s))
    ensures var s' := CallAt(mem, s, level, call);
            && Ok(mem, s') && Invisible(s, s') && |Views(s)| == 1 + |Excesses(mem, s)| == 1 + Depth(s)
            && Views(s') == OnMaps(Views(s), At(level, call))
            && Excesses(mem, s') == if call.DoFlush? then Excesses(mem, s)[level := 0] else Excesses(mem, s)
  {
    Levels(mem, s);
    hide CacheOk, Counted, Overlay, CallOn, Invisible, Idle, View;
    if level == 0 {
      hide Ok, Excesses, Views;
      CallKeeps(mem, s, call);
    } else {
      CallAtKeeps(mem, s.below, level - 1, call);
      BelowCalled(mem, s, CallAt(mem, s.below, level - 1, call));
      if call.DoFlush? {
        Shift(View(s), Views(s.below), level, Views(s.below)[level - 1]);
        Shift(Excess(mem, s.top), Excesses(mem, s.below), level - 1, 0);
      }
    }
  }

  lemma BelowCalled(mem: Memory, s: Stack, below: Stack)
    requires Ok(mem, s) && s.Over? && Ok(mem, below) && Invisible(s.below, below)
    ensures var s' := Over(s.top, below);
            Ok(mem, s') && Invisible(s, s') && View(s') == View(s)
  {
    hide CacheOk, Counted, Overlay;
  }

  lemma {:induction false} Levels(mem: Memory, s: Stack)
    ensures |Views(s)| == 1 + Depth(s) && |Excesses(mem, s)| == Depth(s)
  {
    if s.Over? {
      Levels(mem, s.below);
    }
  }

  // ----- calls on the top

  lemma ModifyCoinsKeeps(mem: Memory, s: Stack, t: TxId)
    requires Ok(mem, s) && s.Over? && Idle(s)
    ensures var s' := ModifyCoins(mem, s, t);
            && Ok(mem, s') && HasModifier(s', t) && Views(s') == Views(s) && Excesses(mem, s') == Excesses(mem, s)
            && (t in View(s) ==> s'.top.cache[t].coins == View(s)[t])
            && (t !in View(s) ==> IsPruned(s'.top.cache[t].coins))
  {
    var l, below := s.top, s.below;
    var s' := ModifyCoins(mem, s, t);
    var e := s'.top.cache[t];
    GetCoinsKeeps(mem, below, t);
    SameView(below, GetCoins(mem, below, t).2);
    GetCoinsAnswer(mem, below, t);
    ClearedPruned();
    ViewOk(mem, below);
    if t in l.cache {
      TopEntry(mem, s, t);
    }
    hide Clean, Counted, CacheOk, GetCoins;
    assert t in View(below) ==> !IsPruned(View(below)[t]);
    ShowsEntry(View(below), l.cache, t);
    TopChanged(mem, s, s');
    hide IsPruned, AllUnspent, Overlay, Views, Excesses;
    ModifySame(View(below), l.cache, t, e);
    ModifyKeeps(View(below), l.cache, t, e, s'.top.live.pending);
    ModifyCounted(mem, l.cache, t, e, s'.top.live.pending);
  }

  lemma ShowsEntry(base: map<TxId, Coins>, cache: map<TxId, Entry>, t: TxId)
    ensures t in cache ==> (t in Overlay(base, cache) <==> !IsPruned(cache[t].coins))
    ensures t in cache && t in Overlay(base, cache) ==> Overlay(base, cache)[t] == cache[t].coins
    ensures t !in cache ==> (t in Overlay(base, cache) <==> t in base)
    ensures t !in cache && t in base ==> Overlay(base, cache)[t] == base[t]
  {
  }

  lemma ModifyNewCoinsKeeps(mem: Memory, s: Stack, t: TxId)
    requires Ok(mem, s) && s.Over? && Idle(s) && t !in View(s.below)
    ensures var s' := ModifyNewCoins(s, t);
            && Ok(mem, s') && HasModifier(s', t)
            && Views(s') == Views(s)[0 := View(s) - {t}]
            && Excesses(mem, s') == Excesses(mem, s)[0 := Excess(mem, s.top) + if t in s.top.cache then mem(s.top.cache[t].coins) else 0]
  {
    var l, base, e := s.top, View(s.below), Entry(CLEARED, true, true);
    ClearedPruned();
    TopChanged(mem, s, ModifyNewCoins(s, t));
    hide Clean, Counted, CacheOk, Overlay, Views, Excesses;
    ModifyKeeps(base, l.cache, t, e, 0);
    ModifyCounted(mem, l.cache, t, e, 0);
  }

  lemma AssignKeepsAll(mem: Memory, s: Stack, t: TxId, c: Coins)
    requires Ok(mem, s) && HasModifier(s, t)
    ensures var s' := Assign(s, t, c);
            && Ok(mem, s') && HasModifier(s', t)
            && Views(s') == Views(s)[0 := Show(View(s), t, c)] && Excesses(mem, s') == Excesses(mem, s)
  {
    var l, base := s.top, View(s.below);
    TopChanged(mem, s, Assign(s, t, c));
    hide Clean, Counted, CacheOk, Overlay, Show, Views, Excesses;
    AssignKeeps(base, l.cache, l.live, c);
    AssignCounted(mem, l.cache, l.live, c);
  }

  lemma ReleaseKeepsAll(mem: Memory, s: Stack, t: TxId)
    requires Ok(mem, s) && HasModifier(s, t)
    ensures var s' := Release(mem, s, t);
            && Ok(mem, s') && Idle(s') && s.top.usage >= s.top.live.pending
            && Views(s') == Views(s)[0 := CleanedRecord(View(s), t)] && Excesses(mem, s') == Excesses(mem, s)
  {
    var l, base := s.top, View(s.below);
    ReleasedView(base, l.cache, t);
    PendingCounted(mem, l.cache, l.live);
    TopChanged(mem, s, Release(mem, s, t));
    hide Clean, Counted, CacheOk, Overlay, Released, CleanedRecord, Show, Cleanup, Views, Excesses;
    ReleaseKeeps(base, l.cache, l.live);
    ReleaseCounted(mem, l.cache, l.live);
  }

  lemma ReleasedView(base: map<TxId, Coins>, cache: map<TxId, Entry>, t: TxId)
    requires t in cache
    ensures Show(Overlay(base, cache), t, Cleanup(cache[t].coins)) == CleanedRecord(Overlay(base, cache), t)
  {
    CleanupKeeps(cache[t].coins);
    hide Cleanup, IsPruned;
    var v := Overlay(base, cache);
    assert t in v <==> !IsPruned(cache[t].coins);
    assert t !in v ==> v - {t} == v;
  }

  // ----- every step and every run

  // Each call keeps the stack right, and every level shows what the plain maps say.
  lemma StepRefines(mem: Memory, s: Stack, op: Op)
    requires Ok(mem, s) && Legal(s, op)
    ensures Ok(mem, Step(mem, s, op)) && Views(Step(mem, s, op)) == OnMaps(Views(s), op)
  {
    hide IsPruned, Clean, Counted, CacheOk, Overlay, ModifyCoins, ModifyNewCoins, Assign, Release, CallAt, Show, CleanedRecord;
    match op
    case Push =>
      ViewOk(mem, s);
      EmptyKeeps(View(s), mem);
      OverlayEmpty(View(s));
    case Pop =>
    case At(level, call) => CallAtKeeps(mem, s, level, call);
    case DoModifyCoins(t) => ModifyCoinsKeeps(mem, s, t);
    case DoModifyNewCoins(t) => ModifyNewCoinsKeeps(mem, s, t);
    case DoAssign(t, c) => AssignKeepsAll(mem, s, t, c);
    case DoRelease(t) => ReleaseKeepsAll(mem, s, t);
    case DoSetBestBlock(_) =>
  }

  // Marks follow excesses when a level is put on or taken off.
  lemma AroundTop(x: int, mark: bool, excesses: seq<int>, marks: seq<bool>)
    requires |excesses| == |marks| && (mark <==> x != 0)
    requires forall i :: 0 <= i < |marks| ==> (marks[i] <==> excesses[i] != 0)
    ensures forall i :: 0 <= i <= |marks| ==> (([mark] + marks)[i] <==> ([x] + excesses)[i] != 0)
    ensures |marks| > 0 ==> forall i :: 0 <= i < |marks| - 1 ==> (marks[1..][i] <==> excesses[1..][i] != 0)
  {
  }

  lemma CallMarks(mem: Memory, s: Stack, level: nat, call: Call, marks: seq<bool>)
    requires Ok(mem, s) && Legal(s, At(level, call)) && Marked(mem, s, marks)
    ensures Marked(mem, CallAt(mem, s, level, call), if call.DoFlush? then marks[level := false] else marks)
  {
    hide Ok, View, Views, Excesses, CallAt, OnMaps;
    CallAtKeeps(mem, s, level, call);
    Levels(mem, CallAt(mem, s, level, call));
  }

  lemma StepMarks(mem: Memory, s: Stack, op: Op, marks: seq<bool>)
    requires Ok(mem, s) && Legal(s, op) && Marked(mem, s, marks)
    ensures Marked(mem, Step(mem, s, op), Marks(mem, s, op, marks))
  {
    Levels(mem, s);
    Levels(mem, Step(mem, s, op));
    hide IsPruned, Clean, Counted, CacheOk, Overlay, ModifyCoins, ModifyNewCoins, Assign, Release, CallAt, Show, CleanedRecord, View,
      Views, Ok, Excess;
    match op
    case Push => EmptyCounted(mem); AroundTop(0, false, Excesses(mem, s), marks);
    case Pop => AroundTop(0, false, Excesses(mem, s), marks);
    case At(level, call) => CallMarks(mem, s, level, call, marks);
    case DoModifyCoins(t) => ModifyCoinsKeeps(mem, s, t);
    case DoModifyNewCoins(t) => ModifyNewCoinsKeeps(mem, s, t); NotNegative(mem, s);
    case DoAssign(t, c) => AssignKeepsAll(mem, s, t, c);
    case DoRelease(t) => ReleaseKeepsAll(mem, s, t);
    case DoSetBestBlock(_) =>
  }

  lemma EmptyCounted(mem: Memory)
    ensures Excess(mem, NEW_LEVEL) == 0
  {
  }

  lemma NotNegative(mem: Memory, s: Stack)
    requires Ok(mem, s) && s.Over?
    ensures Excess(mem, s.top) >= 0
  {
    hide Counted, CacheOk;
  }

  // A run of calls, each legal where it is made.
  ghost predicate LegalRun(mem: Memory, s: Stack, ops: seq<Op>)
    decreases |ops|, 0
  {
    ops == [] ||
    (LegalRun(mem, s, ops[..|ops| - 1]) && Legal(Run(mem, s, ops[..|ops| - 1]), ops[|ops| - 1]))
  }

  ghost function Run(mem: Memory, s: Stack, ops: seq<Op>): Stack
    requires LegalRun(mem, s, ops)
    decreases |ops|, 1
  {
    if ops == [] then s else Step(mem, Run(mem, s, ops[..|ops| - 1]), ops[|ops| - 1])
  }

  // The same calls on plain maps.
  function RunOnMaps(vs: seq<map<TxId, Coins>>, ops: seq<Op>): seq<map<TxId, Coins>> {
    if ops == [] then vs
    else
      var before := RunOnMaps(vs, ops[..|ops| - 1]);
      if before == [] then [] else OnMaps(before, ops[|ops| - 1])
  }

  // For each level, whether ModifyNewCoins has overwritten memory since its last flush.
  ghost function RunMarks(mem: Memory, s: Stack, ops: seq<Op>): (marks: seq<bool>)
    requires s.Database? && Ok(mem, s) && LegalRun(mem, s, ops)
    ensures Marked(mem, Run(mem, s, ops), marks)
    decreases |ops|
  {
    if ops == [] then []
    else
      var before, last := ops[..|ops| - 1], ops[|ops| - 1];
      RunRefines(mem, s, before);
      StepMarks(mem, Run(mem, s, before), last, RunMarks(mem, s, before));
      Marks(mem, Run(mem, s, before), last, RunMarks(mem, s, before))
  }

  // Main result: in every run of calls over a database, whatever is cached, flushed, dropped
  // or filled in at any level, each level shows what the same calls make of plain maps.
  lemma {:induction false} RunRefines(mem: Memory, s: Stack, ops: seq<Op>)
    requires s.Database? && Ok(mem, s) && LegalRun(mem, s, ops)
    ensures Ok(mem, Run(mem, s, ops))
    ensures Views(Run(mem, s, ops)) == RunOnMaps([s.store], ops)
    decreases |ops|
  {
    if ops != [] {
      var before, last := ops[..|ops| - 1], ops[|ops| - 1];
      RunRefines(mem, s, before);
      hide Ok, Views, Step, OnMaps, Legal;
      StepRefines(mem, Run(mem, s, before), last);
    }
  }

  // ----- a run on which a counter is off

  lemma RunMore(mem: Memory, s: Stack, ops: seq<Op>, op: Op)
    requires LegalRun(mem, s, ops) && Legal(Run(mem, s, ops), op)
    ensures LegalRun(mem, s, ops + [op]) && Run(mem, s, ops + [op]) == Step(mem, Run(mem, s, ops), op)
  {
    assert (ops + [op])[..|ops|] == ops;
    hide Legal, Step;
  }

  // A record made by ModifyNewCoins twice while it is cached and the views below do not have it:
  // the precondition allows it, and the memory is counted twice.
  lemma OverwriteCountsTwice(mem: Memory)
    requires mem(Coins(false, [TxOut(50, [])], 1, 1)) > 0
    ensures var c := Coins(false, [TxOut(50, [])], 1, 1);
            var write := [DoModifyNewCoins(7), DoAssign(7, c), DoRelease(7)];
            var ops := [Push] + write + write;
            LegalRun(mem, Database(map[], 0), ops)
            && var s := Run(mem, Database(map[], 0), ops);
               && s.Over? && s.top.live.Nobody?
               && s.top.usage == 2 * mem(c) && Usage(mem, s.top.cache) == mem(c)
  {
    var c := Coins(false, [TxOut(50, [])], 1, 1);
    var write := [DoModifyNewCoins(7), DoAssign(7, c), DoRelease(7)];
    var db := Database(map[], 0);
    var empty: seq<Op> := [];
    RunMore(mem, db, empty, Push);
    assert empty + [Push] == [Push];
    WriteRun(mem, db, [Push], c);
    WriteRun(mem, db, [Push] + write, c);
    UsageUpdate(mem, map[], 7, Entry(c, true, true));
    assert map[][7 := Entry(c, true, true)] == map[7 := Entry(c, true, true)];
  }

  lemma WriteRun(mem: Memory, db: Stack, ops: seq<Op>, c: Coins)
    requires LegalRun(mem, db, ops) && c == Coins(false, [TxOut(50, [])], 1, 1)
    requires var s := Run(mem, db, ops);
             s.Over? && s.top.live.Nobody? && s.below == Database(map[], 0) && s.top.cache.Keys <= {7}
    ensures var s, write := Run(mem, db, ops), [DoModifyNewCoins(7), DoAssign(7, c), DoRelease(7)];
            && LegalRun(mem, db, ops + write)
            && Run(mem, db, ops + write)
               == s.(top := s.top.(cache := map[7 := Entry(c, true, true)], usage := s.top.usage + mem(c)))
  {
    hide LegalRun, Run, Release, ModifyNewCoins, Assign, HasModifier;
    WriteSteps(mem, Run(mem, db, ops), c);
    RunMore(mem, db, ops, DoModifyNewCoins(7));
    RunMore(mem, db, ops + [DoModifyNewCoins(7)], DoAssign(7, c));
    RunMore(mem, db, ops + [DoModifyNewCoins(7)] + [DoAssign(7, c)], DoRelease(7));
    assert ops + [DoModifyNewCoins(7)] + [DoAssign(7, c)] + [DoRelease(7)]
        == ops + [DoModifyNewCoins(7), DoAssign(7, c), DoRelease(7)];
  }

  lemma WriteSteps(mem: Memory, s: Stack, c: Coins)
    requires c == Coins(false, [TxOut(50, [])], 1, 1)
    requires s.Over? && s.top.live.Nobody? && s.below == Database(map[], 0) && s.top.cache.Keys <= {7}
    ensures HasModifier(ModifyNewCoins(s, 7), 7) && HasModifier(Assign(ModifyNewCoins(s, 7), 7, c), 7)
    ensures Release(mem, Assign(ModifyNewCoins(s, 7), 7, c), 7)
         == s.(top := s.top.(cache := map[7 := Entry(c, true, true)], usage := s.top.usage + mem(c)))
  {
    assert !c.vout[0].IsNull();
    CleanIdle(c);
    assert Assign(ModifyNewCoins(s, 7), 7, c).top.cache == map[7 := Entry(c, true, true)];
    assert Released(map[7 := Entry(c, true, true)], 7) == map[7 := Entry(c, true, true)];
  }

  // A cache that never had a best block, flushed: the one below forgets the block it was set to.
  lemma NullFlushForgets(mem: Memory)
    ensures var ops := [Push, DoSetBestBlock(5), Push];
            && LegalRun(mem, Database(map[], 9), ops) && Best(Run(mem, Database(map[], 9), ops)) == 5
            && LegalRun(mem, Database(map[], 9), ops + [At(0, DoFlush)])
            && Best(Run(mem, Database(map[], 9), ops + [At(0, DoFlush)])) == 9
  {
    var db, empty: seq<Op> := Database(map[], 9), [];
    hide Overlay, Usage, MergeAll;
    RunMore(mem, db, empty, Push);
    RunMore(mem, db, empty + [Push], DoSetBestBlock(5));
    RunMore(mem, db, empty + [Push] + [DoSetBestBlock(5)], Push);
    assert empty + [Push] + [DoSetBestBlock(5)] + [Push] == [Push, DoSetBestBlock(5), Push];
    RunMore(mem, db, [Push, DoSetBestBlock(5), Push], At(0, DoFlush));
  }

  function LevelAt(s: Stack, i: nat): Level
    requires i < Depth(s)
  {
    if i == 0 then s.top else LevelAt(s.below, i - 1)
  }

  lemma {:induction false} LevelExcess(mem: Memory, s: Stack, i: nat)
    requires i < Depth(s)
    ensures |Excesses(mem, s)| == Depth(s) && Excesses(mem, s)[i] == Excess(mem, LevelAt(s, i))
    ensures Ok(mem, s) ==> Excess(mem, LevelAt(s, i)) >= 0
  {
    Levels(mem, s);
    hide CacheOk, Counted;
    if i > 0 {
      LevelExcess(mem, s.below, i - 1);
    }
  }

  // Main result: in every run, the counter of a level between modifications is the memory of
  // its entries if and only if no ModifyNewCoins has overwritten an entry that held memory
  // since the level was last flushed; otherwise it is greater.
  lemma UsageExactIff(mem: Memory, s: Stack, ops: seq<Op>, i: nat)
    requires s.Database? && Ok(mem, s) && LegalRun(mem, s, ops)
    requires i < Depth(Run(mem, s, ops)) && LevelAt(Run(mem, s, ops), i).live.Nobody?
    ensures i < |RunMarks(mem, s, ops)|
    ensures var l := LevelAt(Run(mem, s, ops), i);
            && l.usage >= Usage(mem, l.cache)
            && (l.usage == Usage(mem, l.cache) <==> !RunMarks(mem, s, ops)[i])
  {
    RunRefines(mem, s, ops);
    LevelExcess(mem, Run(mem, s, ops), i);
    assert Marked(mem, Run(mem, s, ops), RunMarks(mem, s, ops));
    hide Run, RunMarks, LegalRun, Ok;
  }
}
