// Proof of work: how much work a block stands for, and which target comes next.
module Pow {
  import opened Bits
  import opened Limbs
  import opened ArithUint256
  import opened ArithMul
  import opened ArithShift
  import opened ArithDiv
  import opened Compact
  import opened CompactCodec

  // The two-argument consensus parameters are positive numbers of seconds.
  datatype Params = Params(
    powLimit: seq<Limb>,
    nPowTargetTimespan: nat,
    nPowTargetSpacing: nat,
    fPowNoRetargeting: bool,
    fPowAllowMinDifficultyBlocks: bool)
  {
    ghost predicate Valid() {
      && |powLimit| == WIDTH
      && 0 < nPowTargetSpacing <= nPowTargetTimespan && 4 * nPowTargetTimespan <= MAX64
    }

    ghost function Limit(): nat {
      Val(powLimit)
    }

    function DifficultyAdjustmentInterval(): (n: nat)
      requires Valid()
      ensures n > 0
    {
      QuotientPositive(nPowTargetTimespan, nPowTargetSpacing);
      nPowTargetTimespan / nPowTargetSpacing
    }
  }

  lemma QuotientPositive(a: nat, b: nat)
    requires 0 < b <= a
    ensures a / b > 0
  {
    QuotientBounds(a, b, 1, a + 1);
  }

  // The blocks up to pindexPrev, by height; the median time past is taken as given.
  datatype Block = Block(nBits: Limb, nTime: int, nMedianTimePast: int)

  method FromLimbs(s: seq<Limb>) returns (a: array<Limb>)
    requires |s| == WIDTH
    ensures fresh(a) && Wide(a) && a[..] == s
  {
    a := new Limb[WIDTH](i requires 0 <= i < WIDTH => s[i]);
  }

  // ----- work

  // What nBits is worth, as CheckProofOfWork and GetBlockProof accept it.
  ghost predicate Accepted(nBits: Limb) {
    0 < Decoded(nBits) < Modulus() && !SignBit(nBits)
  }

  lemma ModulusEven()
    ensures Modulus() % 2 == 0
  {
    hide Pow2;
    Pow2Add(1, 255);
    Pow2Zero();
  }

  // No target is all ones, so target + 1 does not wrap.
  lemma TargetPlusOne(nBits: Limb)
    requires Decoded(nBits) < Modulus()
    ensures Decoded(nBits) + 1 < Modulus()
  {
    hide Pow2;
    var m, n := Mantissa(nBits), Size(nBits);
    ModulusEven();
    if n <= 3 {
      DivLess(m, Pow2(8 * (3 - n)));
      Pow2Known();
      Pow2Mono(24, 256);
    } else {
      Pow2Add(1, 8 * (n - 3) - 1);
      Pow2Zero();
      MulTwo(m, Pow2(8 * (n - 3) - 1));
    }
  }

  // ~t / (t + 1) + 1 is 2^256 / (t + 1).
  lemma ProofFormula(t: nat, m: nat)
    requires t < m
    ensures (m - 1 - t) / (t + 1) + 1 == m / (t + 1)
  {
    var q, r := m / (t + 1), m % (t + 1);
    assert m == q * (t + 1) + r;
    MulPlus(q - 1, 1, t + 1);
    DivUnique(m - 1 - t, t + 1, q - 1, r);
  }

  method GetBlockProof(nBits: Limb) returns (proof: array<Limb>)
    ensures fresh(proof) && Wide(proof)
    ensures Value(proof) == if Accepted(nBits) then Modulus() / (Decoded(nBits) + 1) else 0
  {
    hide Val, Pow2, Modulus, Decoded;
    proof := new Limb[WIDTH](i => 0);
    var bnTarget := new Limb[WIDTH](i => 0);
    var fNegative, fOverflow := SetCompact(bnTarget, nBits);
    ghost var t := Decoded(nBits);
    if !fOverflow {
      DivUnique(t, Modulus(), 0, t);
      TargetPlusOne(nBits);
    }
    var zero := EqualTo(bnTarget, 0);
    if fNegative || fOverflow || zero {
      SetZero(proof);
      return;
    }
    proof := Invert(bnTarget);
    ProofFormula(t, Modulus());
    DivUnique(t + 1, Modulus(), 0, t + 1);
    Increment(bnTarget);
    var ok := DivAssign(proof, bnTarget);
    ProofFits(t);
    DivUnique(Modulus() / (t + 1), Modulus(), 0, Modulus() / (t + 1));
    Increment(proof);
  }

  lemma ProofFits(t: nat)
    requires 0 < t
    ensures 0 <= Modulus() / (t + 1) < Modulus()
  {
    hide Pow2;
    assert Modulus() > 0;
    var q := Modulus() / (t + 1);
    assert Modulus() == q * (t + 1) + Modulus() % (t + 1);
    MulPlus(t, 1, q);
    if q > 0 {
      MulMono(1, t, q);
    }
  }

  method CheckProofOfWork(hash: array<Limb>, nBits: Limb, params: Params) returns (ok: bool)
    requires Wide(hash) && params.Valid()
    ensures ok <==> Accepted(nBits) && Decoded(nBits) <= params.Limit() && Value(hash) <= Decoded(nBits)
  {
    hide Val, Pow2, Modulus, Decoded;
    var bnTarget := new Limb[WIDTH](i => 0);
    var powLimit := FromLimbs(params.powLimit);
    var fNegative, fOverflow := SetCompact(bnTarget, nBits);
    if !fOverflow {
      DivUnique(Decoded(nBits), Modulus(), 0, Decoded(nBits));
    }
    var zero := EqualTo(bnTarget, 0);
    var over := CompareTo(bnTarget, powLimit);
    if fNegative || zero || fOverflow || over > 0 {
      return false;
    }
    var c := CompareTo(hash, bnTarget);
    if c > 0 {
      return false;
    }
    return true;
  }

  // ----- retargeting

  function Clamped(nActualTimespan: int, nPowTargetTimespan: nat): (t: nat)
    ensures nPowTargetTimespan / 4 <= t <= 4 * nPowTargetTimespan
  {
    if nActualTimespan < nPowTargetTimespan / 4 then nPowTargetTimespan / 4
    else if nActualTimespan > nPowTargetTimespan * 4 then nPowTargetTimespan * 4
    else nActualTimespan
  }

  // What the code computes: the timespan is cut to 32 bits, the product to 256.
  ghost function Retargeted(target: nat, nTimespan: nat, params: Params): nat
    requires params.Valid()
  {
    MulNonneg(nTimespan % BASE, target);
    QuotientNonneg(((nTimespan % BASE) * target) % Modulus(), params.nPowTargetTimespan);
    var q := (((nTimespan % BASE) * target) % Modulus()) / params.nPowTargetTimespan;
    if q > params.Limit() then params.Limit() else q
  }

  lemma QuotientNonneg(a: nat, b: nat)
    requires b > 0
    ensures 0 <= a / b <= a
  {
    DivLess(a, b);
  }

  lemma LimitBound(params: Params)
    requires params.Valid()
    ensures params.Limit() < Modulus()
  {
    ValBound(params.powLimit);
  }

  ghost function NextBits(nBits: Limb, nActualTimespan: int, params: Params): Limb
    requires params.Valid()
  {
    LimitBound(params);
    if params.fPowNoRetargeting then nBits
    else Encoded(Retargeted(Decoded(nBits) % Modulus(), Clamped(nActualTimespan, params.nPowTargetTimespan), params), false)
  }

  method CalculateNextWorkRequired(last: Block, nFirstBlockTime: int, params: Params) returns (nBits: Limb)
    requires params.Valid()
    ensures nBits == NextBits(last.nBits, last.nTime - nFirstBlockTime, params)
  {
    hide Val, Pow2, Modulus, Decoded, Encoded;
    if params.fPowNoRetargeting {
      return last.nBits;
    }
    var nActualTimespan := last.nTime - nFirstBlockTime;
    if nActualTimespan < params.nPowTargetTimespan / 4 {
      nActualTimespan := params.nPowTargetTimespan / 4;
    }
    if nActualTimespan > params.nPowTargetTimespan * 4 {
      nActualTimespan := params.nPowTargetTimespan * 4;
    }
    LimitBound(params);
    var bnPowLimit := FromLimbs(params.powLimit);
    var bnNew := new Limb[WIDTH](i => 0);
    var timespan := new Limb[WIDTH](i => 0);
    var _, _ := SetCompact(bnNew, last.nBits);
    MulAssign32(bnNew, nActualTimespan % BASE);
    SetLow(timespan, params.nPowTargetTimespan);
    var ok := DivAssign(bnNew, timespan);
    var c := CompareTo(bnNew, bnPowLimit);
    if c > 0 {
      bnNew := bnPowLimit;
    }
    nBits := GetCompact(bnNew, false);
  }

  ghost function Min(a: nat, b: nat): nat {
    if a <= b then a else b
  }

  // The span the retarget takes: the timespan itself, or the nearer end of [T / 4, 4T].
  lemma ClampedIs(a: int, span: nat)
    ensures span / 4 <= a <= 4 * span ==> Clamped(a, span) == a
    ensures a <= span / 4 ==> Clamped(a, span) == span / 4
    ensures a >= 4 * span ==> Clamped(a, span) == 4 * span
  {
  }

  // Below 2^224, and with a timespan of which four times fits in 32 bits, nothing is cut off.
  lemma RetargetExact(nBits: Limb, nActualTimespan: int, params: Params)
    requires params.Valid() && !params.fPowNoRetargeting && 4 * params.nPowTargetTimespan < BASE
    requires params.Limit() < Pow2(224) && Decoded(nBits) <= params.Limit()
    ensures var t, next := Clamped(nActualTimespan, params.nPowTargetTimespan), NextBits(nBits, nActualTimespan, params);
            && (0 <= t * Decoded(nBits) / params.nPowTargetTimespan <= 4 * Decoded(nBits))
            && Decoded(next) == Rounded(Min(params.Limit(), t * Decoded(nBits) / params.nPowTargetTimespan))
            && !SignBit(next)
  {
    hide Val, Pow2, Modulus, Decoded, Encoded, Rounded, BitLen, CompactSize, CompactMantissa;
    var t, target, span := Clamped(nActualTimespan, params.nPowTargetTimespan), Decoded(nBits), params.nPowTargetTimespan;
    LimitBound(params);
    ProductFits(t, target);
    DivUnique(target, Modulus(), 0, target);
    DivUnique(t, BASE, 0, t);
    DivUnique(t * target, Modulus(), 0, t * target);
    QuotientNonneg(t * target, span);
    EncodedIs(Min(params.Limit(), t * target / span));
    AtMostFour(t, target, span);
  }

  lemma EncodedIs(v: nat)
    requires v < Modulus()
    ensures Decoded(Encoded(v, false)) == Rounded(v) && !SignBit(Encoded(v, false))
  {
    EncodedFields(v, false);
    hide Pow2, Encoded, CompactSize, CompactMantissa, Mantissa, Size, SignBit;
  }

  lemma ProductFits(t: nat, target: nat)
    requires t < BASE && target < Pow2(224)
    ensures 0 <= t * target < Modulus()
  {
    hide Pow2;
    Pow2Of32();
    Pow2Add(32, 224);
    MulNonneg(t, target);
    MulMono(t, BASE, target);
    MulMono(target + 1, Pow2(224), BASE);
  }

  lemma AtMostFour(t: nat, target: nat, span: nat)
    requires 0 < span && t <= 4 * span
    ensures t * target / span <= 4 * target
  {
    MulMono(t, 4 * span, target);
    MulAssoc(4, span, target);
    MulNonneg(t, target);
    var q := t * target / span;
    assert t * target == q * span + t * target % span;
    if q > 4 * target {
      MulMono(4 * target + 1, q, span);
      MulPlus(4 * target, 1, span);
      MulAssoc(4, target, span);
    }
  }

  // ----- the next target

  // pindex6 is null, and its assertion fails, when the chain is shorter than seven blocks.
  datatype NextWork = Bits(nBits: Limb) | AssertFails

  ghost function LimitBits(params: Params): Limb
    requires params.Valid()
  {
    LimitBound(params);
    Encoded(params.Limit(), false)
  }

  // Walking back over blocks mined at the minimum difficulty.
  function LastReal(chain: seq<Block>, i: nat, interval: nat, limitBits: Limb): (k: nat)
    requires i < |chain| && interval > 0
    ensures k <= i
  {
    if i > 0 && i % interval != 0 && chain[i].nBits == limitBits then LastReal(chain, i - 1, interval, limitBits) else i
  }

  // It stops at the last block that is no such block, or opens an interval, or is the first.
  lemma {:induction false} LastRealIs(chain: seq<Block>, i: nat, interval: nat, limitBits: Limb)
    requires i < |chain| && interval > 0
    ensures var k := LastReal(chain, i, interval, limitBits);
            && (k == 0 || k % interval == 0 || chain[k].nBits != limitBits)
            && (forall j :: k < j <= i ==> chain[j].nBits == limitBits && j % interval != 0)
  {
    if i > 0 && i % interval != 0 && chain[i].nBits == limitBits {
      LastRealIs(chain, i - 1, interval, limitBits);
    }
  }

  // The 12-hour rule: a quarter easier, within the limit.
  ghost function EasedBits(nBits: Limb, params: Params): Limb
    requires params.Valid()
  {
    var t := Decoded(nBits) % Modulus();
    LimitBound(params);
    Encoded(Min(params.Limit(), (t + t / 4) % Modulus()), false)
  }

  ghost function NextWorkFor(chain: seq<Block>, nBlockTime: int, params: Params, uahf: bool): NextWork
    requires params.Valid()
  {
    var nHeight, interval, limitBits := |chain|, params.DifficultyAdjustmentInterval(), LimitBits(params);
    if nHeight == 0 then Bits(limitBits)
    else
      var last := chain[nHeight - 1];
      if nHeight % interval == 0 then
        IntervalFits(nHeight, interval);
        Bits(NextBits(last.nBits, last.nTime - chain[nHeight - interval].nTime, params))
      else if params.fPowAllowMinDifficultyBlocks then
        if nBlockTime > last.nTime + 2 * params.nPowTargetSpacing then Bits(limitBits)
        else Bits(chain[LastReal(chain, nHeight - 1, interval, limitBits)].nBits)
      else if last.nBits == limitBits || !uahf then Bits(last.nBits)
      else if nHeight < 7 then AssertFails
      else if last.nMedianTimePast - chain[nHeight - 7].nMedianTimePast < 12 * 3600 then Bits(last.nBits)
      else Bits(EasedBits(last.nBits, params))
  }

  lemma IntervalFits(nHeight: nat, interval: nat)
    requires nHeight > 0 && interval > 0 && nHeight % interval == 0
    ensures interval <= nHeight
  {
    if nHeight < interval {
      DivUnique(nHeight, interval, 0, nHeight);
    }
  }

  method GetNextWorkRequired(chain: seq<Block>, nBlockTime: int, params: Params, uahf: bool) returns (r: NextWork)
    requires params.Valid()
    ensures r == NextWorkFor(chain, nBlockTime, params, uahf)
  {
    hide Val, Pow2, Modulus, Decoded, Encoded, NextBits;
    LimitBound(params);
    var bnPowLimit := FromLimbs(params.powLimit);
    var nProofOfWorkLimit := GetCompact(bnPowLimit, false);
    if |chain| == 0 {
      return Bits(nProofOfWorkLimit);
    }
    var nHeight, interval := |chain|, params.DifficultyAdjustmentInterval();
    var last := chain[nHeight - 1];
    if nHeight % interval == 0 {
      IntervalFits(nHeight, interval);
      var nBits := CalculateNextWorkRequired(last, chain[nHeight - interval].nTime, params);
      return Bits(nBits);
    }
    if params.fPowAllowMinDifficultyBlocks {
      if nBlockTime > last.nTime + 2 * params.nPowTargetSpacing {
        return Bits(nProofOfWorkLimit);
      }
      var i := nHeight - 1;
      while i > 0 && i % interval != 0 && chain[i].nBits == nProofOfWorkLimit
        invariant 0 <= i < nHeight
        invariant LastReal(chain, i, interval, nProofOfWorkLimit) == LastReal(chain, nHeight - 1, interval, nProofOfWorkLimit)
      {
        i := i - 1;
      }
      return Bits(chain[i].nBits);
    }
    var nBits := last.nBits;
    if nBits == nProofOfWorkLimit {
      return Bits(nProofOfWorkLimit);
    }
    if !uahf {
      return Bits(nBits);
    }
    if nHeight < 7 {
      return AssertFails;
    }
    var mtp6blocks := last.nMedianTimePast - chain[nHeight - 7].nMedianTimePast;
    if mtp6blocks < 12 * 3600 {
      return Bits(nBits);
    }
    var nPow := new Limb[WIDTH](i => 0);
    var _, _ := SetCompact(nPow, nBits);
    var quarter := Copy(nPow);
    Pow2Of4();
    ShiftRight(quarter, 2);
    AddAssign(nPow, quarter);
    var c := CompareTo(nPow, bnPowLimit);
    if c > 0 {
      nPow := bnPowLimit;
    }
    nBits := GetCompact(nPow, false);
    return Bits(nBits);
  }

  lemma Pow2Of4()
    ensures Pow2(2) == 4
  {
  }

  // The 12-hour rule never makes it harder, and eases by at most a quarter.
  lemma EasedWithinQuarter(nBits: Limb, params: Params)
    requires params.Valid() && params.Limit() < Pow2(224) && Decoded(nBits) <= params.Limit()
    ensures var t, next := Decoded(nBits), Decoded(EasedBits(nBits, params));
            t <= next <= t + t / 4 && next <= params.Limit()
  {
    hide Val, Pow2, Modulus, Decoded, Encoded, Rounded;
    var t := Decoded(nBits);
    LimitBound(params);
    ProductFits(2, t);
    DivUnique(t, Modulus(), 0, t);
    DivUnique(t + t / 4, Modulus(), 0, t + t / 4);
    var v := Min(params.Limit(), t + t / 4);
    EncodedIs(v);
    RoundedIs(v);
    DecodedKept(nBits);
    RoundedMonotone(t, v);
  }

  // Between adjustments, off the test networks, the target stays or is eased by at most a
  // quarter; the assertion fails exactly on a short chain whose last block is not at the limit.
  lemma BetweenAdjustments(chain: seq<Block>, nBlockTime: int, params: Params, uahf: bool)
    requires params.Valid() && !params.fPowAllowMinDifficultyBlocks
    requires |chain| > 0 && |chain| % params.DifficultyAdjustmentInterval() != 0
    requires params.Limit() < Pow2(224) && Decoded(chain[|chain| - 1].nBits) <= params.Limit()
    ensures var r, nBits := NextWorkFor(chain, nBlockTime, params, uahf), chain[|chain| - 1].nBits;
            && (r == AssertFails <==> uahf && |chain| < 7 && nBits != LimitBits(params))
            && (r.Bits? ==> Decoded(nBits) <= Decoded(r.nBits) <= Decoded(nBits) + Decoded(nBits) / 4)
  {
    EasedWithinQuarter(chain[|chain| - 1].nBits, params);
    hide Val, Pow2, Modulus, Decoded, Encoded, EasedBits, LimitBits;
  }

  // ----- a chain on which the assertion fails

  // 2^224 - 1, two weeks and ten minutes.
  const MAIN_NET := Params([0xffff_ffff, 0xffff_ffff, 0xffff_ffff, 0xffff_ffff, 0xffff_ffff, 0xffff_ffff, 0xffff_ffff, 0],
                           1209600, 600, false, false)

  lemma {:induction false} FirstLimb(s: seq<Limb>)
    requires s != []
    ensures Val(s) >= s[0]
  {
    if |s| == 1 {
      assert Unit(0) == 1;
    } else {
      FirstLimb(s[..|s| - 1]);
      MulNonneg(s[|s| - 1], Unit(|s| - 1));
    }
  }

  // A limit above one is not encoded as the number one.
  lemma NotOne(v: nat)
    requires 1 < v < Modulus()
    ensures Encoded(v, false) != 0x0300_0001
  {
    EncodedIs(v);
    RoundedIs(v);
    assert Decoded(0x0300_0001) == 1;
    hide Encoded, Decoded, Rounded, CompactSize;
  }

  // A block of target 1 at the start of the chain: there is no seventh block to look at.
  lemma ShortChainAsserts(nBlockTime: int)
    ensures MAIN_NET.Valid()
    ensures NextWorkFor([Block(0x0300_0001, 0, 0)], nBlockTime, MAIN_NET, true) == AssertFails
  {
    FirstLimb(MAIN_NET.powLimit);
    LimitBound(MAIN_NET);
    NotOne(MAIN_NET.Limit());
    hide Val, Encoded;
    assert MAIN_NET.DifficultyAdjustmentInterval() == 2016;
  }

  // ----- the chains the node grows

  // The first block is at the limit, and each further one has the nBits required of it, with
  // the rule active or not at that time.
  ghost predicate Grown(chain: seq<Block>, params: Params)
    requires params.Valid()
  {
    && chain != [] && chain[0].nBits == LimitBits(params)
    && forall i :: 0 < i < |chain| ==> Follows(chain, i, params, true) || Follows(chain, i, params, false)
  }

  ghost predicate Follows(chain: seq<Block>, i: nat, params: Params, uahf: bool)
    requires params.Valid() && i < |chain|
  {
    NextWorkFor(chain[..i], chain[i].nTime, params, uahf) == Bits(chain[i].nBits)
  }

  lemma {:induction false} StartsAtLimit(chain: seq<Block>, params: Params, i: nat)
    requires params.Valid() && Grown(chain, params) && params.DifficultyAdjustmentInterval() >= 7
    requires i < |chain| && i < 7
    ensures chain[i].nBits == LimitBits(params)
    decreases i
  {
    hide Val, Pow2, Modulus, Decoded, Encoded, EasedBits, LimitBits, NextBits;
    if i > 0 {
      var uahf := Follows(chain, i, params, true);
      assert Follows(chain, i, params, uahf);
      var before, interval := chain[..i], params.DifficultyAdjustmentInterval();
      var k := LastReal(before, i - 1, interval, LimitBits(params));
      StartsAtLimit(chain, params, k);
      StartsAtLimit(chain, params, i - 1);
      SmallMod(i, interval);
      assert before[k] == chain[k] && before[i - 1] == chain[i - 1];
    }
  }

  lemma SmallMod(i: nat, interval: nat)
    requires 0 < i < interval
    ensures i % interval != 0
  {
    DivUnique(i, interval, 0, i);
  }

  // On such a chain the assertion never fails, when an interval has at least seven blocks.
  lemma GrownNeverAsserts(chain: seq<Block>, nBlockTime: int, params: Params, uahf: bool)
    requires params.Valid() && Grown(chain, params) && params.DifficultyAdjustmentInterval() >= 7
    ensures NextWorkFor(chain, nBlockTime, params, uahf).Bits?
  {
    hide Val, Pow2, Modulus, Decoded, Encoded, EasedBits, LimitBits, NextBits, Grown;
    if |chain| < 7 && chain != [] {
      StartsAtLimit(chain, params, |chain| - 1);
    }
  }
}
