// What the rules for the next target amount to: how it follows the time an interval took, when it is
// eased, and what blocks of the minimum difficulty leave behind.
module PowRules {
  import opened Bits
  import opened Limbs
  import opened ArithUint256
  import opened Compact
  import opened CompactCodec
  import opened Pow

  // ----- retargeting

  // A limit below 2^224, and a timespan of which four times fits in 32 bits.
  ghost predicate Ordinary(params: Params) {
    params.Valid() && 4 * params.nPowTargetTimespan < BASE && params.Limit() < Pow2(224)
  }

  lemma DivMono(a: int, b: int, d: int)
    requires a <= b && d > 0
    ensures a / d <= b / d
  {
    LessByQuotient(d, b / d, b % d, a / d, a % d);
  }

  lemma MulQuotient(a: int, d: int)
    requires d > 0
    ensures a * d / d == a
  {
    DivUnique(a * d, d, a, 0);
  }

  // A quarter of the span scales to at most a quarter of the target.
  lemma Quarter(t: nat, span: nat)
    requires span > 0
    ensures 0 <= (span / 4) * t / span <= t
    ensures span % 4 == 0 ==> (span / 4) * t / span == t / 4
  {
    var q := span / 4;
    MulNonneg(q, t);
    MulMono(q, span, t);
    DivMono(0, q * t, span);
    DivMono(q * t, t * span, span);
    MulQuotient(t, span);
    DivUnique(0, span, 0, 0);
    if span % 4 == 0 {
      var k, r := t / 4, t % 4;
      assert q * t == k * span + q * r;
      MulMono(r + 1, 4, q);
      MulPlus(r, 1, q);
      MulNonneg(q, r);
      DivUnique(q * t, span, k, q * r);
    }
  }

  // The next target is the rounding of the old one scaled by the time taken, by a quarter or
  // by four if the interval took less or more, within the limit.
  lemma RetargetInBounds(nBits: Limb, a: int, params: Params)
    requires Ordinary(params) && !params.fPowNoRetargeting && Decoded(nBits) <= params.Limit()
    ensures var t, next, span := Decoded(nBits), NextBits(nBits, a, params), params.nPowTargetTimespan;
            && (a <= span / 4 ==> 0 <= (span / 4) * t / span && Decoded(next) == Rounded((span / 4) * t / span))
            && (a <= span / 4 && span % 4 == 0 ==> Decoded(next) == Rounded(t / 4))
            && (span / 4 <= a <= 4 * span ==> 0 <= a * t / span && Decoded(next) == Rounded(Min(params.Limit(), a * t / span)))
            && (a >= 4 * span ==> Decoded(next) == Rounded(Min(params.Limit(), 4 * t)))
            && Decoded(next) <= params.Limit() && Decoded(next) <= 4 * t && !SignBit(next)
  {
    hide Decoded, Rounded, NextBits, Clamped, Pow2, SignBit;
    var t, span := Decoded(nBits), params.nPowTargetTimespan;
    RetargetExact(nBits, a, params);
    ClampedIs(a, span);
    Quarter(t, span);
    MulAssoc(4, t, span);
    MulAssoc(4, span, t);
    MulQuotient(4 * t, span);
    RoundedIs(Min(params.Limit(), Clamped(a, span) * t / span));
  }

  lemma ClampedMono(a: int, b: int, span: nat)
    requires a <= b
    ensures Clamped(a, span) <= Clamped(b, span)
  {
  }

  // An interval that took longer never gets a smaller target.
  lemma RetargetMonotone(nBits: Limb, a: int, b: int, params: Params)
    requires Ordinary(params) && !params.fPowNoRetargeting && Decoded(nBits) <= params.Limit()
    requires a <= b
    ensures Decoded(NextBits(nBits, a, params)) <= Decoded(NextBits(nBits, b, params))
  {
    hide Decoded, Rounded, NextBits, Clamped, Pow2, SignBit;
    var t, span := Decoded(nBits), params.nPowTargetTimespan;
    var lo, hi := Clamped(a, span), Clamped(b, span);
    RetargetExact(nBits, a, params);
    RetargetExact(nBits, b, params);
    ClampedMono(a, b, span);
    MulMono(lo, hi, t);
    DivMono(lo * t, hi * t, span);
    RoundedMonotone(Min(params.Limit(), lo * t / span), Min(params.Limit(), hi * t / span));
  }

  // An interval on time keeps the target; a faster one never eases it, a slower one never
  // makes it harder.
  lemma RetargetDirection(nBits: Limb, a: int, params: Params)
    requires Ordinary(params) && !params.fPowNoRetargeting && Decoded(nBits) <= params.Limit()
    ensures var next := Decoded(NextBits(nBits, a, params));
            && (a == params.nPowTargetTimespan ==> next == Decoded(nBits))
            && (a <= params.nPowTargetTimespan ==> next <= Decoded(nBits))
            && (a >= params.nPowTargetTimespan ==> next >= Decoded(nBits))
  {
    hide Decoded, Rounded, NextBits, Clamped, Pow2, SignBit;
    var t, span := Decoded(nBits), params.nPowTargetTimespan;
    RetargetInBounds(nBits, span, params);
    MulQuotient(t, span);
    DecodedKept(nBits);
    if a <= span {
      RetargetMonotone(nBits, a, span, params);
    }
    if a >= span {
      RetargetMonotone(nBits, span, a, params);
    }
  }

  // At an adjustment the time taken is measured from the block that opened the interval.
  lemma AtAdjustment(chain: seq<Block>, first: nat, nBlockTime: int, params: Params, uahf: bool)
    requires params.Valid() && 0 < |chain| && |chain| % params.DifficultyAdjustmentInterval() == 0
    requires first < |chain| && first % params.DifficultyAdjustmentInterval() == 0
    requires forall j :: first < j < |chain| ==> j % params.DifficultyAdjustmentInterval() != 0
    ensures NextWorkFor(chain, nBlockTime, params, uahf)
         == Bits(NextBits(chain[|chain| - 1].nBits, chain[|chain| - 1].nTime - chain[first].nTime, params))
  {
    hide NextBits, LimitBits, EasedBits;
    var n, interval := |chain|, params.DifficultyAdjustmentInterval();
    IntervalFits(n, interval);
    var k, m := n / interval, first / interval;
    assert n == k * interval && first == m * interval;
    MulPlus(k, -1, interval);
    DivUnique(n - interval, interval, k - 1, 0);
    if first > n - interval {
      if m < k {
        MulMono(m, k - 1, interval);
      } else {
        MulMono(k, m, interval);
      }
    }
  }

  // ----- the 12-hour rule

  // Easing by a quarter is never lost in the rounding, except for the targets below four.
  lemma EasedGrows(t: nat, limit: nat)
    requires Rounded(t) == t <= limit
    ensures Rounded(Min(limit, t + t / 4)) > t <==> t >= 4 && Rounded(limit) > t
  {
    hide Rounded, Step, CompactSize;
    var v := t + t / 4;
    StepIs(v);
    RoundedIs(v);
    RoundedMonotone(Min(limit, v), limit);
  }

  lemma StepIs(v: nat)
    ensures CompactSize(v) <= 3 ==> Step(v) == 1
  {
  }

  // When the target is eased and to what, off the test networks and between adjustments.
  lemma EasedIff(chain: seq<Block>, nBlockTime: int, params: Params, uahf: bool)
    requires Ordinary(params) && !params.fPowAllowMinDifficultyBlocks
    requires |chain| > 0 && |chain| % params.DifficultyAdjustmentInterval() != 0
    requires Decoded(chain[|chain| - 1].nBits) <= params.Limit()
    requires NextWorkFor(chain, nBlockTime, params, uahf).Bits?
    ensures var n, t, next := |chain|, Decoded(chain[|chain| - 1].nBits), NextWorkFor(chain, nBlockTime, params, uahf).nBits;
            && (Decoded(next) > t <==>
                uahf && n >= 7 && chain[n - 1].nMedianTimePast - chain[n - 7].nMedianTimePast >= 12 * 3600
                && t >= 4 && t < Rounded(params.Limit()))
            && (Decoded(next) > t ==> Decoded(next) == Rounded(Min(params.Limit(), t + t / 4)))
            && (Decoded(next) <= t ==> Decoded(next) == t)
  {
    hide Decoded, Rounded, EasedBits, LimitBits, Pow2, NextBits;
    var nBits := chain[|chain| - 1].nBits;
    EasedWithinQuarter(nBits, params);
    EasedIs(nBits, params);
    DecodedKept(nBits);
    EasedGrows(Decoded(nBits), params.Limit());
    LimitIs(params);
  }

  lemma EasedIs(nBits: Limb, params: Params)
    requires Ordinary(params) && Decoded(nBits) <= params.Limit()
    ensures Decoded(EasedBits(nBits, params)) == Rounded(Min(params.Limit(), Decoded(nBits) + Decoded(nBits) / 4))
  {
    hide Val, Pow2, Modulus, Decoded, Encoded, Rounded;
    var t := Decoded(nBits);
    LimitBound(params);
    ProductFits(2, t);
    DivUnique(t, Modulus(), 0, t);
    DivUnique(t + t / 4, Modulus(), 0, t + t / 4);
    EncodedIs(Min(params.Limit(), t + t / 4));
  }

  lemma LimitIs(params: Params)
    requires params.Valid()
    ensures Decoded(LimitBits(params)) == Rounded(params.Limit())
  {
    hide Decoded, Encoded, Rounded, Val, Modulus;
    LimitBound(params);
    EncodedIs(params.Limit());
  }

  // ----- blocks of the minimum difficulty

  // More than two spacings after the block before.
  predicate Late(chain: seq<Block>, i: nat, params: Params)
    requires 0 < i < |chain|
  {
    chain[i].nTime > chain[i - 1].nTime + 2 * params.nPowTargetSpacing
  }

  // On a test network, and between adjustments, late blocks are mined at the limit and leave
  // no trace: every other block is as hard as the one that opened its interval.
  lemma {:induction false} LateBlocksLeaveNoTrace(chain: seq<Block>, params: Params, i: nat)
    requires params.Valid() && params.fPowAllowMinDifficultyBlocks && Grown(chain, params)
    requires i < |chain| && i % params.DifficultyAdjustmentInterval() != 0
    ensures 0 <= i - i % params.DifficultyAdjustmentInterval() < i
    ensures chain[i].nBits == if Late(chain, i, params) then LimitBits(params)
                              else chain[i - i % params.DifficultyAdjustmentInterval()].nBits
    decreases i
  {
    hide NextBits, LimitBits, EasedBits;
    var interval := params.DifficultyAdjustmentInterval();
    OpensInterval(i, interval);
    var start := i - i % interval;
    assert Follows(chain, i, params, true) || Follows(chain, i, params, false);
    var before := chain[..i];
    if !Late(chain, i, params) {
      var k := LastReal(before, i - 1, interval, LimitBits(params));
      assert chain[i].nBits == chain[k].nBits;
      LastRealIs(before, i - 1, interval, LimitBits(params));
      SameInterval(start, k, i, interval);
      if k % interval != 0 {
        LateBlocksLeaveNoTrace(chain, params, k);
      }
    }
  }

  lemma OpensInterval(i: nat, interval: nat)
    requires interval > 0
    ensures 0 <= i - i % interval <= i && (i - i % interval) % interval == 0
  {
    var q, r := i / interval, i % interval;
    assert i == q * interval + r;
    DivNonneg(i, interval);
    MulNonneg(q, interval);
    DivUnique(q * interval, interval, q, 0);
  }

  lemma SameInterval(start: nat, k: nat, i: nat, interval: nat)
    requires interval > 0 && start % interval == 0 && start <= k < i < start + interval
    ensures k - k % interval == start
  {
    var q := start / interval;
    assert start == q * interval;
    DivUnique(k, interval, q, k - start);
  }
}
