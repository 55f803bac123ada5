// Shifts, comparison and bit length of 256-bit numbers.
module ArithShift {
  import opened Bits
  import opened Limbs
  import opened ArithUint256

  // ----- comparison

  method CompareTo(pn: array<Limb>, b: array<Limb>) returns (c: int)
    requires Wide(pn) && Wide(b)
    ensures c == if Value(pn) < Value(b) then -1 else if Value(pn) > Value(b) then 1 else 0
  {
    hide Val;
    for i := WIDTH downto 0
      invariant pn[i..] == b[i..]
    {
      assert forall j :: i < j < WIDTH ==> pn[..][j] == pn[i + 1..][j - i - 1] && b[..][j] == b[i + 1..][j - i - 1];
      if pn[i] < b[i] {
        ValLess(pn[..], b[..], i);
        return -1;
      }
      if pn[i] > b[i] {
        ValLess(b[..], pn[..], i);
        return 1;
      }
      assert pn[i..] == [pn[i]] + pn[i + 1..] && b[i..] == [b[i]] + b[i + 1..];
    }
    assert pn[0..] == pn[..] && b[0..] == b[..];
    return 0;
  }

  // The value is the 64-bit number b.
  method EqualTo(pn: array<Limb>, b: nat) returns (eq: bool)
    requires Wide(pn) && b <= MAX64
    ensures eq <==> Value(pn) == b
  {
    LowLimbs(pn[..]);
    ValBound(pn[2..]);
    hide Val, Pow2;
    for i := WIDTH downto 2
      invariant forall k :: i <= k < WIDTH ==> pn[k] == 0
    {
      if pn[i] != 0 {
        HighLimb(pn[..], i);
        return false;
      }
    }
    ValZeros(pn[2..]);
    LowParts(pn[0], pn[1], b);
    if pn[1] != b / BASE {
      return false;
    }
    if pn[0] != b % BASE {
      return false;
    }
    return true;
  }

  lemma LowLimbs(s: seq<Limb>)
    requires |s| == WIDTH
    ensures Val(s) == s[0] + s[1] * BASE + Val(s[2..]) * (BASE * BASE)
  {
    hide Val, Unit, Pow2;
    ValSplit(s, 2);
    ValSnoc(s, 1);
    ValSnoc(s, 0);
    Start();
    UnitStep(0);
    UnitStep(1);
    assert s[..0] == [];
  }

  lemma LowParts(x: Limb, y: Limb, b: nat)
    ensures x + y * BASE == b <==> y == b / BASE && x == b % BASE
  {
  }

  lemma HighLimb(s: seq<Limb>, i: nat)
    requires |s| == WIDTH && 2 <= i < WIDTH && s[i] != 0
    ensures Val(s) > MAX64
  {
    hide Val, Pow2, Unit;
    ValSplit(s, i);
    ValSplit(s[i..], 1);
    ValSnoc(s[i..], 0);
    Start();
    assert s[i..][..0] == [];
    MulNonneg(Val(s[i..][1..]), Unit(1));
    UnitAdd(i - 2, 2);
    UnitStep(0);
    UnitStep(1);
    MulMono(1, Unit(i - 2), Unit(2));
    MulMono(1, Val(s[i..]), Unit(i));
  }

  method GetLow64(pn: array<Limb>) returns (r: nat)
    requires Wide(pn)
    ensures r == Value(pn) % (BASE * BASE) && r <= MAX64
  {
    LowLimbs(pn[..]);
    hide Val;
    r := Or(pn[0], pn[1] * BASE);
    Pow2Of32();
    OrDisjoint(pn[0], pn[1], 32);
    DivUnique(Value(pn), BASE * BASE, Val(pn[2..]), pn[0] + pn[1] * BASE);
  }

  // ----- bit length

  // The position of the highest bit, plus one; 0 for zero.
  function BitLen(v: nat): (n: nat) {
    if v == 0 then 0 else BitLen(v / 2) + 1
  }

  lemma {:induction false} BitLenBounds(v: nat)
    ensures v < Pow2(BitLen(v))
    ensures v > 0 ==> BitLen(v) > 0 && Pow2(BitLen(v) - 1) <= v
  {
    if v > 0 {
      BitLenBounds(v / 2);
    }
  }

  lemma BitLenUnique(v: nat, n: nat)
    requires v < Pow2(n) && (n > 0 ==> Pow2(n - 1) <= v)
    ensures BitLen(v) == n
  {
    BitLenBounds(v);
    var m := BitLen(v);
    if m < n {
      Pow2Mono(m, n - 1);
    } else if n < m {
      Pow2Mono(n, m - 1);
    }
  }

  method NumBits(pn: array<Limb>) returns (r: nat)
    requires Wide(pn)
    ensures r == BitLen(Value(pn)) && r <= 256
  {
    hide Val, BitLen, Pow2;
    for pos := WIDTH downto 0
      invariant forall k :: pos <= k < WIDTH ==> pn[k] == 0
    {
      if pn[pos] != 0 {
        Pow2Of32();
        for bits := 32 downto 1
          invariant pn[pos] < Pow2(bits)
        {
          HighestBit(pn[pos], bits);
          if TestBit(pn[pos], bits) {
            HighBits(pn[..], pos, bits);
            return 32 * pos + bits + 1;
          }
        }
        Pow2Zero();
        HighBits(pn[..], pos, 0);
        return 32 * pos + 1;
      }
    }
    ValZeros(pn[..]);
    Pow2Zero();
    BitLenUnique(0, 0);
    return 0;
  }

  lemma Pow2Zero()
    ensures Pow2(0) == 1 && Pow2(1) == 2
  {
  }

  lemma HighestBit(x: nat, i: nat)
    requires x < Pow2(i + 1)
    ensures TestBit(x, i) <==> Pow2(i) <= x
  {
    var p := Pow2(i);
    if p <= x {
      DivUnique(x, p, 1, x - p);
    } else {
      DivUnique(x, p, 0, x);
    }
  }

  lemma HighBits(s: seq<Limb>, pos: nat, bits: nat)
    requires |s| == WIDTH && pos < WIDTH && (forall k :: pos < k < WIDTH ==> s[k] == 0)
    requires Pow2(bits) <= s[pos] < Pow2(bits + 1) && bits < 32
    ensures BitLen(Val(s)) == 32 * pos + bits + 1
  {
    hide Val, BitLen, Pow2;
    ValHighZeros(s, pos + 1);
    ValSnoc(s, pos);
    ValBound(s[..pos]);
    Pow2Add(bits, 32 * pos);
    Pow2Add(bits + 1, 32 * pos);
    LeadingLimb(Val(s[..pos]), s[pos], Unit(pos), Pow2(bits), Pow2(bits + 1));
    BitLenUnique(Val(s), 32 * pos + bits + 1);
  }

  lemma LeadingLimb(low: nat, x: nat, u: nat, p: nat, p': nat)
    requires low < u && p <= x < p'
    ensures p * u <= low + x * u < p' * u
  {
    MulMono(p, x, u);
    MulMono(x + 1, p', u);
    MulPlus(x, 1, u);
  }

  // ----- <<=

  // After the first i limbs of a: what they shift to, up to what is shifted out; limbs above
  // the last one written are zero, and that one has room for the next.
  ghost predicate ShiftedLeft(a: seq<Limb>, p: seq<Limb>, i: nat, k: nat, s: nat, lost: nat) {
    && |a| == |p| == WIDTH && i <= WIDTH && s < 32
    && Val(p) + lost * Modulus() == Val(a[..i]) * Pow2(32 * k + s)
    && (forall j :: i + k < j < WIDTH ==> p[j] == 0)
    && (i + k < WIDTH ==> p[i + k] < Pow2(s))
  }

  // What the two assignments of a round make of the limbs.
  function LeftRound(x: Limb, p: seq<Limb>, i: nat, k: nat, s: nat): (r: seq<Limb>)
    requires |p| == WIDTH && s < 32
    ensures |r| == WIDTH
  {
    var q := if i + k + 1 < WIDTH && s != 0 then p[i + k + 1 := LimbOr(p[i + k + 1], Shr(x, 32 - s))] else p;
    if i + k < WIDTH then q[i + k := LimbOr(q[i + k], Shl(x, s))] else q
  }

  lemma OrHigh(x: Limb, y: nat, s: nat)
    requires s < 32 && x < Pow2(s) && y * Pow2(s) < BASE
    ensures LimbOr(x, y * Pow2(s)) == x + y * Pow2(s)
  {
    OrDisjoint(x, y, s);
  }

  lemma LeftLimb(a: seq<Limb>, p: seq<Limb>, i: nat, k: nat, s: nat, lost: nat)
    requires i < WIDTH && i + k < WIDTH && ShiftedLeft(a, p, i, k, s, lost)
    ensures LimbOr(p[i + k], Shl(a[i], s)) == p[i + k] + Shl(a[i], s)
    ensures i + k + 1 < WIDTH ==> LimbOr(p[i + k + 1], Shr(a[i], 32 - s)) == Shr(a[i], 32 - s)
    ensures s == 0 ==> Shr(a[i], 32 - s) == 0
  {
    ShiftLeftParts(a[i], s);
    Pow2Zero();
    hide Val, Pow2, Or;
    OrHigh(p[i + k], a[i] % Pow2(32 - s), s);
    OrZero(Shr(a[i], 32 - s));
  }

  lemma OrZero(x: nat)
    ensures Or(0, x) == x
  {
  }

  // The number the two assignments add.
  lemma LeftValue(x: Limb, p: seq<Limb>, i: nat, k: nat, s: nat)
    requires |p| == WIDTH && s < 32 && i + k < WIDTH
    requires LimbOr(p[i + k], Shl(x, s)) == p[i + k] + Shl(x, s)
    requires i + k + 1 < WIDTH ==> p[i + k + 1] == 0 && LimbOr(0, Shr(x, 32 - s)) == Shr(x, 32 - s)
    requires s == 0 ==> Shr(x, 32 - s) == 0
    ensures Val(LeftRound(x, p, i, k, s)) + (if i + k + 1 < WIDTH then 0 else Shr(x, 32 - s)) * Modulus()
         == Val(p) + (x * Pow2(s)) * Unit(i + k)
  {
    hide Val, Pow2, Unit, Shl, Shr, LimbOr;
    var m, lo, hi := i + k, Shl(x, s), Shr(x, 32 - s);
    ShiftLeftParts(x, s);
    UnitStep(m);
    LimbAndCarry(lo, hi, Unit(m));
    if m + 1 < WIDTH && s != 0 {
      ValUpdate(p, m + 1, hi);
      ValUpdate(p[m + 1 := hi], m, p[m] + lo);
      assert LeftRound(x, p, i, k, s) == p[m + 1 := hi][m := p[m] + lo];
    } else {
      ValUpdate(p, m, p[m] + lo);
      assert LeftRound(x, p, i, k, s) == p[m := p[m] + lo];
    }
  }

  lemma LimbAndCarry(lo: int, hi: int, u: int)
    ensures (lo + hi * BASE) * u == lo * u + hi * (BASE * u)
  {
    MulPlus(lo, hi * BASE, u);
    MulAssoc(hi, BASE, u);
  }

  lemma LeftStep(a: seq<Limb>, p: seq<Limb>, i: nat, k: nat, s: nat, lost: nat) returns (lost': nat)
    requires i < WIDTH && ShiftedLeft(a, p, i, k, s, lost)
    ensures ShiftedLeft(a, LeftRound(a[i], p, i, k, s), i + 1, k, s, lost')
  {
    hide Val, Pow2, Unit, Shl, Shr, LimbOr;
    var x, m := a[i], i + k;
    ValSnoc(a, i);
    Pow2Add(32 * k, s);
    UnitIs(k);
    UnitAdd(i, k);
    ShiftLeftParts(x, s);
    LeftProduct(Val(a[..i]), x, Unit(i), Unit(k), Pow2(s));
    if m < WIDTH {
      LeftLimb(a, p, i, k, s, lost);
      LeftValue(x, p, i, k, s);
      var more: nat := if m + 1 < WIDTH then 0 else Shr(x, 32 - s);
      lost' := lost + more;
      MulPlus(lost, more, Modulus());
    } else {
      UnitAdd(m - WIDTH, WIDTH);
      var more := (x * Pow2(s)) * Unit(m - WIDTH);
      MulNonneg(x, Pow2(s));
      MulNonneg(x * Pow2(s), Unit(m - WIDTH));
      lost' := lost + more;
      MulPlus(lost, more, Modulus());
      MulAssoc(x * Pow2(s), Unit(m - WIDTH), Modulus());
    }
  }

  lemma UnitIs(k: nat)
    ensures Unit(k) == Pow2(32 * k)
  {
  }

  lemma LeftProduct(v: nat, x: nat, u: nat, w: nat, s: nat)
    ensures (v + x * u) * (w * s) == v * (w * s) + (x * s) * (u * w)
  {
    MulPlus(v, x * u, w * s);
    MulAssoc(x, u, w * s);
    MulAssoc(u, w, s);
    MulAssoc(x, s, u * w);
  }

  lemma LeftStarts(a: seq<Limb>, p: seq<Limb>, k: nat, s: nat)
    requires |a| == |p| == WIDTH && AllZero(p) && s < 32
    ensures ShiftedLeft(a, p, 0, k, s, 0)
  {
    ValZeros(p);
  }

  lemma LeftEnds(a: seq<Limb>, p: seq<Limb>, k: nat, s: nat, lost: nat)
    requires ShiftedLeft(a, p, WIDTH, k, s, lost)
    ensures Val(p) == (Val(a) * Pow2(32 * k + s)) % Modulus()
  {
    hide Val, Pow2, Unit;
    assert a[..WIDTH] == a;
    MulNonneg(Val(a), Pow2(32 * k + s));
    Reduced(p, lost, Val(a) * Pow2(32 * k + s));
  }

  method ShiftLeft(pn: array<Limb>, shift: nat)
    requires Wide(pn)
    modifies pn
    ensures Value(pn) == (old(Value(pn)) * Pow2(shift)) % Modulus()
  {
    hide Val, Pow2, ShiftedLeft, LimbOr, Shl, Shr;
    var a := new Limb[WIDTH](i requires 0 <= i < WIDTH reads pn => pn[i]);
    ghost var a0, lost: nat := pn[..], 0;
    assert a[..] == a0;
    SetZero(pn);
    var k, s := shift / 32, shift % 32;
    LeftStarts(a0, pn[..], k, s);
    for i := 0 to WIDTH
      invariant a[..] == a0 && ShiftedLeft(a0, pn[..], i, k, s, lost)
    {
      ghost var p := pn[..];
      assert a[i] == a0[i];
      lost := LeftStep(a0, p, i, k, s, lost);
      if i + k + 1 < WIDTH && s != 0 {
        pn[i + k + 1] := LimbOr(pn[i + k + 1], Shr(a[i], 32 - s));
      }
      if i + k < WIDTH {
        pn[i + k] := LimbOr(pn[i + k], Shl(a[i], s));
      }
      assert pn[..] == LeftRound(a0[i], p, i, k, s);
    }
    LeftEnds(a0, pn[..], k, s, lost);
  }

  // ----- >>=

  // After the first i limbs of a: p is those limbs shifted, rem what was shifted out.
  ghost predicate ShiftedRight(a: seq<Limb>, p: seq<Limb>, i: nat, k: nat, s: nat, rem: nat) {
    && |a| == |p| == WIDTH && i <= WIDTH && s < 32
    && Val(a[..i]) == Val(p) * Pow2(32 * k + s) + rem && rem < Pow2(32 * k + s)
    && (i <= k ==> AllZero(p) && rem == Val(a[..i]))
    && (forall j :: 0 <= j < WIDTH && i - k <= j ==> p[j] == 0)
    && (1 <= i - k <= WIDTH ==> p[i - k - 1] == Shr(a[i - 1], s))
  }

  function RightRound(x: Limb, p: seq<Limb>, i: nat, k: nat, s: nat): (r: seq<Limb>)
    requires |p| == WIDTH && s < 32 && i < WIDTH
    ensures |r| == WIDTH
  {
    var q := if i - k - 1 >= 0 && s != 0 then p[i - k - 1 := LimbOr(p[i - k - 1], Shl(x, 32 - s))] else p;
    if i - k >= 0 then q[i - k := LimbOr(q[i - k], Shr(x, s))] else q
  }

  // x >> s and the bits it drops.
  lemma RightParts(x: Limb, s: nat)
    requires s < 32
    ensures x == Shr(x, s) * Pow2(s) + x % Pow2(s)
    ensures s > 0 ==> Shl(x, 32 - s) == (x % Pow2(s)) * Pow2(32 - s) && Shr(x, s) < Pow2(32 - s)
    ensures s == 0 ==> x % Pow2(s) == 0
  {
    if s > 0 {
      ShiftRightParts(x, s);
    } else {
      Pow2Zero();
    }
  }

  lemma RightOr(x: Limb, y: Limb, s: nat)
    requires 0 < s < 32
    ensures LimbOr(Shr(x, s), Shl(y, 32 - s)) == Shr(x, s) + Shl(y, 32 - s)
  {
    hide Pow2, Or;
    RightParts(x, s);
    RightParts(y, s);
    OrDisjoint(Shr(x, s), y % Pow2(s), 32 - s);
  }

  // The number the two assignments add.
  lemma RightValue(a: seq<Limb>, p: seq<Limb>, i: nat, k: nat, s: nat, rem: nat)
    requires k <= i < WIDTH && ShiftedRight(a, p, i, k, s, rem)
    ensures Val(RightRound(a[i], p, i, k, s))
         == Val(p) + Shr(a[i], s) * Unit(i - k) + (if i > k && s != 0 then Shl(a[i], 32 - s) * Unit(i - k - 1) else 0)
    ensures RightRound(a[i], p, i, k, s)[i - k] == Shr(a[i], s)
    ensures forall j :: i - k < j < WIDTH ==> RightRound(a[i], p, i, k, s)[j] == 0
  {
    hide Val, Unit, Pow2, Shl, Shr;
    var x, m := a[i], i - k;
    OrZero(Shr(x, s));
    if m > 0 && s != 0 {
      RightOr(a[i - 1], x, s);
      var q := p[m - 1 := p[m - 1] + Shl(x, 32 - s)];
      ValUpdate(p, m - 1, p[m - 1] + Shl(x, 32 - s));
      ValUpdate(q, m, Shr(x, s));
      assert RightRound(x, p, i, k, s) == q[m := Shr(x, s)];
    } else {
      ValUpdate(p, m, Shr(x, s));
      assert RightRound(x, p, i, k, s) == p[m := Shr(x, s)];
    }
  }

  // x at place m + k, shifted right by k places and s bits: hi, and lo one place lower.
  lemma RightNumbers(x: nat, hi: nat, lo: nat, s: nat, m: nat, k: nat)
    requires x == hi * Pow2(s) + lo && s < 32
    ensures x * Unit(m + k) == (hi * Unit(m)) * Pow2(32 * k + s) + lo * Unit(m + k)
    ensures m > 0 ==> lo * Unit(m + k) == ((lo * Pow2(32 - s)) * Unit(m - 1)) * Pow2(32 * k + s)
  {
    hide Pow2, Unit;
    UnitAdd(m, k);
    UnitIs(k);
    Pow2Add(32 * k, s);
    MulPlus(hi * Pow2(s), lo, Unit(m + k));
    Rearrange(hi, Pow2(s), Unit(m), Unit(k));
    if m > 0 {
      UnitAdd(m - 1, 1);
      UnitIs(1);
      Pow2Add(32 - s, s);
      Rearrange(lo, Pow2(s), Pow2(32 - s) * Unit(m - 1), Unit(k));
      Rearranged(lo, Pow2(32 - s), Unit(m - 1), Pow2(s), Unit(k));
    }
  }

  lemma Rearrange(h: int, s: int, u: int, w: int)
    ensures (h * s) * (u * w) == (h * u) * (w * s)
  {
    MulAssoc(h, s, u * w);
    MulAssoc(s, u, w);
    MulAssoc(h, u, w * s);
    MulAssoc(u, w, s);
    assert s * (u * w) == u * (w * s) by {
      MulAssoc(u, s, w);
    }
  }

  lemma Rearranged(lo: int, r: int, u: int, s: int, w: int)
    ensures ((lo * r) * u) * (w * s) == lo * ((u * (r * s)) * w)
  {
    MulAssoc(lo, r, u);
    MulAssoc(lo, r * u, w * s);
    assert (r * u) * (w * s) == (u * (r * s)) * w by {
      MulAssoc(u, r, s);
      MulAssoc(u * r, s, w);
    }
  }

  lemma RightStep(a: seq<Limb>, p: seq<Limb>, i: nat, k: nat, s: nat, rem: nat) returns (rem': nat)
    requires i < WIDTH && ShiftedRight(a, p, i, k, s, rem)
    ensures ShiftedRight(a, RightRound(a[i], p, i, k, s), i + 1, k, s, rem')
  {
    hide Val, Unit, Pow2, Shl, Shr, LimbOr;
    ValSnoc(a, i);
    RightParts(a[i], s);
    if i < k {
      rem' := Val(a[..i + 1]);
      BelowShift(a, i, k, s);
      ValZeros(p);
    } else {
      RightValue(a, p, i, k, s, rem);
      RightNumbers(a[i], Shr(a[i], s), a[i] % Pow2(s), s, i - k, k);
      MulPlus(Val(p), Shr(a[i], s) * Unit(i - k), Pow2(32 * k + s));
      if i > k {
        rem' := rem;
        var low := if s != 0 then Shl(a[i], 32 - s) * Unit(i - k - 1) else 0;
        MulPlus(Val(p) + Shr(a[i], s) * Unit(i - k), low, Pow2(32 * k + s));
      } else {
        rem' := rem + (a[i] % Pow2(s)) * Unit(k);
        FirstRemainder(a, k, s, rem);
      }
    }
  }

  lemma BelowShift(a: seq<Limb>, i: nat, k: nat, s: nat)
    requires |a| == WIDTH && i < k && i < WIDTH
    ensures Val(a[..i + 1]) < Pow2(32 * k + s)
  {
    hide Val, Pow2;
    ValBound(a[..i + 1]);
    Pow2Mono(32 * (i + 1), 32 * k + s);
  }

  lemma FirstRemainder(a: seq<Limb>, k: nat, s: nat, rem: nat)
    requires |a| == WIDTH && k < WIDTH && rem == Val(a[..k])
    ensures rem + (a[k] % Pow2(s)) * Unit(k) < Pow2(32 * k + s)
    ensures (a[k] % Pow2(s)) * Unit(k) >= 0
  {
    hide Val, Pow2, Unit;
    ValBound(a[..k]);
    UnitIs(k);
    Pow2Add(s, 32 * k);
    var lo := a[k] % Pow2(s);
    MulMono(lo + 1, Pow2(s), Unit(k));
    MulPlus(lo, 1, Unit(k));
    MulNonneg(lo, Unit(k));
  }

  lemma RightStarts(a: seq<Limb>, p: seq<Limb>, k: nat, s: nat)
    requires |a| == |p| == WIDTH && AllZero(p) && s < 32
    ensures ShiftedRight(a, p, 0, k, s, 0)
  {
    ValZeros(p);
  }

  lemma RightEnds(a: seq<Limb>, p: seq<Limb>, k: nat, s: nat, rem: nat)
    requires ShiftedRight(a, p, WIDTH, k, s, rem)
    ensures Val(p) == Val(a) / Pow2(32 * k + s)
  {
    hide Val, Pow2, Unit;
    assert a[..WIDTH] == a;
    DivUnique(Val(a), Pow2(32 * k + s), Val(p), rem);
  }

  method ShiftRight(pn: array<Limb>, shift: nat)
    requires Wide(pn)
    modifies pn
    ensures Value(pn) == old(Value(pn)) / Pow2(shift)
  {
    hide Val, Pow2, ShiftedRight, LimbOr, Shl, Shr;
    var a := new Limb[WIDTH](i requires 0 <= i < WIDTH reads pn => pn[i]);
    ghost var a0, rem: nat := pn[..], 0;
    assert a[..] == a0;
    SetZero(pn);
    var k, s := shift / 32, shift % 32;
    RightStarts(a0, pn[..], k, s);
    for i := 0 to WIDTH
      invariant a[..] == a0 && ShiftedRight(a0, pn[..], i, k, s, rem)
    {
      ghost var p := pn[..];
      assert a[i] == a0[i];
      rem := RightStep(a0, p, i, k, s, rem);
      if i - k - 1 >= 0 && s != 0 {
        pn[i - k - 1] := LimbOr(pn[i - k - 1], Shl(a[i], 32 - s));
      }
      if i - k >= 0 {
        pn[i - k] := LimbOr(pn[i - k], Shr(a[i], s));
      }
      assert pn[..] == RightRound(a0[i], p, i, k, s);
    }
    RightEnds(a0, pn[..], k, s, rem);
  }
}
