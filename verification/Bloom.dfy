// Bloom filters, and the rolling filter made of two that are cleared in turn.
module Bloom {
  import opened Bits

  type Key = seq<nat>

  // MurmurHash3 of a seed and a key
  type Murmur = (nat, Key) -> nat

  // Bit n of a list of bytes.
  predicate BitSet(vData: seq<nat>, n: nat)
    requires n / 8 < |vData|
  {
    TestBit(vData[n / 8], n % 8)
  }

  class BloomFilter {
    const murmur: Murmur
    var vData: array<nat>
    var isFull: bool
    var isEmpty: bool
    const nHashFuncs: nat
    var nTweak: nat
    ghost var Inserted: set<Key> // since the last clear

    predicate Sized()
      reads this`vData
    {
      vData.Length > 0
    }

    function Hash(nHashNum: nat, key: Key): (n: nat)
      requires Sized()
      reads this`vData, this`nTweak
      ensures n / 8 < vData.Length
    {
      murmur((nHashNum * 0xFBA4C795 + nTweak) % 0x1_0000_0000, key) % (vData.Length * 8)
    }

    ghost predicate AllSet(key: Key)
      requires Sized()
      reads this`vData, this`nTweak, vData
    {
      forall i :: 0 <= i < nHashFuncs ==> BitSet(vData[..], Hash(i, key))
    }

    // One of the first count hashes of the key is n.
    ghost predicate Marks(key: Key, count: nat, n: nat)
      requires Sized()
      reads this`vData, this`nTweak
    {
      exists i :: 0 <= i < count && Hash(i, key) == n
    }

    ghost predicate Marked(held: set<Key>, n: nat)
      requires Sized()
      reads this`vData, this`nTweak
    {
      exists key :: key in held && Marks(key, nHashFuncs, n)
    }

    // The bits that are set are those of the keys held, and no others.
    ghost predicate Exact(held: set<Key>)
      requires Sized()
      reads this`vData, this`nTweak, vData
    {
      forall n: nat :: n / 8 < vData.Length ==> (BitSet(vData[..], n) <==> Marked(held, n))
    }

    ghost predicate Valid()
      reads this, vData
    {
      && Sized()
      && (isEmpty ==> Inserted == {} && !isFull)
      && (!isFull ==> Exact(Inserted))
    }

    lemma AllMarked(key: Key, held: set<Key>)
      requires Sized() && Exact(held)
      ensures AllSet(key) <==> forall i :: 0 <= i < nHashFuncs ==> Marked(held, Hash(i, key))
      ensures key in held ==> AllSet(key)
    {
      forall i | 0 <= i < nHashFuncs
        ensures Marks(key, nHashFuncs, Hash(i, key))
      {
      }
    }

    lemma AddMarked(held: set<Key>, key: Key, n: nat)
      requires Sized()
      ensures Marked(held + {key}, n) <==> Marked(held, n) || Marks(key, nHashFuncs, n)
    {
      if Marks(key, nHashFuncs, n) {
        assert key in held + {key};
      }
      if Marked(held, n) {
        var k :| k in held && Marks(k, nHashFuncs, n);
        assert k in held + {key};
      }
    }

    lemma BlankExact()
      requires Sized() && forall i :: 0 <= i < vData.Length ==> vData[i] == 0
      ensures Exact({})
    {
      hide TestBit;
      forall n: nat | n / 8 < vData.Length
        ensures !BitSet(vData[..], n)
      {
        ZeroBit(n % 8);
      }
    }

    constructor (murmur: Murmur, size: nat, nHashFuncs: nat, nTweak: nat)
      requires size > 0
      ensures Valid() && isEmpty && Inserted == {} && fresh(vData) && vData.Length == size
      ensures this.nHashFuncs == nHashFuncs && this.nTweak == nTweak
    {
      hide Exact;
      this.murmur, this.nHashFuncs, this.nTweak := murmur, nHashFuncs, nTweak;
      vData := new nat[size](i => 0);
      isFull, isEmpty, Inserted := false, true, {};
      new;
      BlankExact();
    }

    // Setting one bit changes no other.
    method SetBit(nIndex: nat)
      requires nIndex / 8 < vData.Length
      modifies vData
      ensures forall n: nat :: n / 8 < vData.Length ==> (BitSet(vData[..], n) <==> n == nIndex || old(BitSet(vData[..], n)))
    {
      ghost var was := vData[..];
      vData[nIndex / 8] := Or(vData[nIndex / 8], Pow2(nIndex % 8));
      OwnBit(nIndex % 8);
      forall n: nat | n / 8 < |was|
        ensures BitSet(vData[..], n) <==> n == nIndex || BitSet(was, n)
      {
        if n / 8 == nIndex / 8 {
          OrTest(was[n / 8], Pow2(nIndex % 8), n % 8);
          if n != nIndex {
            OtherBit(nIndex % 8, n % 8);
          }
        }
      }
    }

    method Insert(key: Key)
      requires Valid()
      modifies this`isEmpty, this`Inserted, vData
      ensures Valid() && Inserted == old(Inserted) + {key}
      ensures if isFull then vData[..] == old(vData[..]) else AllSet(key)
      ensures forall n: nat :: n / 8 < vData.Length && old(BitSet(vData[..], n)) ==> BitSet(vData[..], n)
    {
      hide TestBit, Or, Hash, BitSet, Marked;
      ghost var held, full := Inserted, isFull;
      Inserted := Inserted + {key};
      if isFull {
        return;
      }
      for i := 0 to nHashFuncs
        invariant isFull == full && Inserted == held + {key} && isEmpty == old(isEmpty)
        invariant forall n: nat :: n / 8 < vData.Length ==> (BitSet(vData[..], n) <==> Marked(held, n) || Marks(key, i, n))
        invariant forall n: nat :: n / 8 < vData.Length && old(BitSet(vData[..], n)) ==> BitSet(vData[..], n)
        modifies vData
      {
        SetBit(Hash(i, key));
        forall n: nat
          ensures Marks(key, i + 1, n) <==> Marks(key, i, n) || n == Hash(i, key)
        {
        }
      }
      isEmpty := false;
      forall n: nat
        ensures Marked(held + {key}, n) <==> Marked(held, n) || Marks(key, nHashFuncs, n)
      {
        AddMarked(held, key, n);
      }
      AllMarked(key, Inserted);
    }

    method Contains(key: Key) returns (found: bool)
      requires Valid()
      ensures key in Inserted ==> found
      ensures found <==> isFull || (!isEmpty && AllSet(key))
      ensures !isFull ==> (found ==> forall i :: 0 <= i < nHashFuncs ==> Marked(Inserted, Hash(i, key)))
    {
      if !isFull {
        AllMarked(key, Inserted);
      }
      if isFull {
        return true;
      }
      if isEmpty {
        return false;
      }
      for i := 0 to nHashFuncs
        invariant forall k :: 0 <= k < i ==> BitSet(vData[..], Hash(k, key))
      {
        if !BitSet(vData[..], Hash(i, key)) {
          return false;
        }
      }
      return true;
    }

    method Clear()
      requires Sized()
      modifies this`vData, this`isFull, this`isEmpty, this`Inserted
      ensures Valid() && Inserted == {} && isEmpty && fresh(vData) && vData.Length == old(vData.Length)
      ensures forall i :: 0 <= i < vData.Length ==> vData[i] == 0
    {
      hide Exact;
      vData := new nat[vData.Length](i => 0);
      isFull, isEmpty, Inserted := false, true, {};
      BlankExact();
    }

    method Reset(nNewTweak: nat)
      requires Sized()
      modifies this
      ensures Valid() && Inserted == {} && isEmpty && fresh(vData) && nTweak == nNewTweak
    {
      Clear();
      nTweak := nNewTweak;
    }
  }

  // The keys of the log from position from on.
  ghost function Since(log: seq<Key>, from: int): set<Key> {
    set j | 0 <= j < |log| && from <= j :: log[j]
  }

  lemma SinceMore(log: seq<Key>, from: int, key: Key)
    requires from <= |log|
    ensures Since(log + [key], from) == Since(log, from) + {key}
  {
    var now := log + [key];
    assert now[|log|] == key;
    forall k | k in Since(log, from)
      ensures k in Since(now, from)
    {
      var j :| 0 <= j < |log| && from <= j && log[j] == k;
      assert now[j] == k;
    }
  }

  lemma SinceNone(log: seq<Key>)
    ensures Since(log, |log|) == {}
  {
  }

  class RollingBloomFilter {
    const b1: BloomFilter
    const b2: BloomFilter
    const nBloomSize: nat
    var nInsertions: nat
    ghost var Log: seq<Key> // everything inserted since the reset

    // How many insertions ago the filters were cleared: b1 when the count was 0, b2 when it was
    // half the size; a filter is only cleared by the first insertion after that.
    ghost function Age1(): nat
      reads this`nInsertions
    {
      if nInsertions == 0 then nBloomSize else nInsertions
    }

    ghost function Age2(): nat
      reads this`nInsertions
    {
      if nInsertions <= nBloomSize / 2 then nInsertions + nBloomSize / 2 else nInsertions - nBloomSize / 2
    }

    // Each filter holds exactly the keys since it was cleared.
    ghost predicate Valid()
      reads this, b1, b2, b1.vData, b2.vData
    {
      && b1 != b2 && b1.vData != b2.vData && b1.Valid() && b2.Valid() && !b1.isFull && !b2.isFull
      && nBloomSize > 0 && nBloomSize % 2 == 0 && nInsertions < nBloomSize
      && b1.Inserted == Since(Log, |Log| - Age1())
      && b2.Inserted == Since(Log, |Log| - Age2())
    }

    constructor (murmur: Murmur, nElements: nat, size: nat, nHashFuncs: nat, nNewTweak: nat)
      requires nElements > 0 && size > 0
      ensures Valid() && Log == [] && nBloomSize == 2 * nElements
      ensures fresh(b1) && fresh(b2) && fresh(b1.vData) && fresh(b2.vData)
    {
      b1 := new BloomFilter(murmur, size, nHashFuncs, 0);
      b2 := new BloomFilter(murmur, size, nHashFuncs, 0);
      nInsertions := 0;
      nBloomSize := nElements * 2;
      Log := [];
      new;
      Reset(nNewTweak);
    }

    method Reset(nNewTweak: nat)
      requires b1 != b2 && b1.Sized() && b2.Sized() && nBloomSize > 0 && nBloomSize % 2 == 0
      modifies this, b1, b2
      ensures Valid() && Log == [] && nInsertions == 0 && fresh(b1.vData) && fresh(b2.vData)
    {
      hide BloomFilter.Exact;
      b1.Reset(nNewTweak);
      b2.Reset(nNewTweak);
      nInsertions := 0;
      Log := [];
    }

    method Insert(key: Key)
      requires Valid()
      modifies this, b1, b2, b1.vData, b2.vData
      ensures Valid() && Log == old(Log) + [key]
      ensures b1.Inserted == if old(nInsertions) == 0 then {key} else old(b1.Inserted) + {key}
      ensures b2.Inserted == if old(nInsertions) == nBloomSize / 2 then {key} else old(b2.Inserted) + {key}
      ensures b1.vData == old(b1.vData) || fresh(b1.vData)
      ensures b2.vData == old(b2.vData) || fresh(b2.vData)
      ensures nInsertions == if old(nInsertions) + 1 == nBloomSize then 0 else old(nInsertions) + 1
    {
      hide Since, BitSet, BloomFilter.AllSet, BloomFilter.Exact;
      SinceNone(Log);
      if nInsertions == 0 {
        b1.Clear();
      } else if nInsertions == nBloomSize / 2 {
        b2.Clear();
      }
      ghost var half := nBloomSize / 2;
      SinceMore(Log, |Log| - nInsertions, key);
      SinceMore(Log, |Log| - (if nInsertions < half then nInsertions + half else nInsertions - half), key);
      b1.Insert(key);
      b2.Insert(key);
      Log := Log + [key];
      nInsertions := nInsertions + 1;
      if nInsertions == nBloomSize {
        nInsertions := 0;
      }
    }

    // Every hash of the key is one of a key among the last nBloomSize insertions.
    ghost predicate Recent(b: BloomFilter, key: Key)
      requires b.Sized()
      reads this`Log, b`vData, b`nTweak
    {
      forall i :: 0 <= i < b.nHashFuncs ==> b.Marked(Since(Log, |Log| - nBloomSize), b.Hash(i, key))
    }

    // Each of the last nElements insertions is found, and what is found has all its bits from
    // the last 2 * nElements.
    method Contains(key: Key) returns (found: bool)
      requires Valid()
      ensures key in Since(Log, |Log| - nBloomSize / 2) ==> found
      ensures found ==> Recent(b1, key) || Recent(b2, key)
    {
      hide BloomFilter.Exact, BloomFilter.AllSet;
      if nInsertions < nBloomSize / 2 {
        found := b2.Contains(key);
        MarkedMore(b2, key);
      } else {
        found := b1.Contains(key);
        MarkedMore(b1, key);
      }
    }

    lemma MarkedMore(b: BloomFilter, key: Key)
      requires b.Sized() && b.Inserted <= Since(Log, |Log| - nBloomSize)
      ensures (forall i :: 0 <= i < b.nHashFuncs ==> b.Marked(b.Inserted, b.Hash(i, key))) ==> Recent(b, key)
    {
    }
  }
}
