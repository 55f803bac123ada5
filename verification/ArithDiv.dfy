// Division of 256-bit numbers by shifting and subtracting.
module ArithDiv {
  import opened Bits
  import opened Limbs
  import opened ArithUint256
  import opened ArithShift

  // The bits below n are clear.
  ghost predicate LowClear(p: seq<Limb>, n: nat) {
    && |p| == WIDTH && n <= 32 * WIDTH
    && (forall j :: 0 <= j < n / 32 ==> p[j] == 0)
    && (n / 32 < WIDTH ==> p[n / 32] % Pow2(n % 32) == 0)
  }

  // With n bits of the quotient to go: q is what the bits found so far make, num the rest.
  ghost predicate Dividing(a: nat, b: nat, p: seq<Limb>, num: nat, n: nat) {
    LowClear(p, n) && a == Val(p) * b + num && num < b * Pow2(n)
  }

  function WithBit(p: seq<Limb>, n: nat): (r: seq<Limb>)
    requires |p| == WIDTH && n < 32 * WIDTH
    ensures |r| == WIDTH
  {
    Pow2Of32();
    Pow2Mono(n % 32 + 1, 32);
    p[n / 32 := LimbOr(p[n / 32], Pow2(n % 32))]
  }

  lemma ClearLess(p: seq<Limb>, n: nat)
    requires n < 32 * WIDTH && LowClear(p, n + 1)
    ensures LowClear(p, n)
    ensures p[n / 32] % Pow2(n % 32 + 1) == 0
  {
    var r, x := n % 32, p[n / 32];
    if r == 31 {
      assert (n + 1) / 32 == n / 32 + 1;
      assert x == 0;
    } else {
      assert (n + 1) / 32 == n / 32 && (n + 1) % 32 == r + 1;
      hide Pow2;
      HalfMultiple(x, r);
    }
  }

  lemma HalfMultiple(x: nat, r: nat)
    requires x % Pow2(r + 1) == 0
    ensures x % Pow2(r) == 0
  {
    var y := x / Pow2(r + 1);
    assert Pow2(r + 1) == 2 * Pow2(r);
    MulTwo(y, Pow2(r));
    DivUnique(x, Pow2(r), 2 * y, 0);
  }

  lemma SetClearBit(x: Limb, r: nat)
    requires r < 32 && x % Pow2(r + 1) == 0
    ensures Pow2(r) < BASE && LimbOr(x, Pow2(r)) == x + Pow2(r) && (x + Pow2(r)) % Pow2(r) == 0
  {
    hide Pow2, Or;
    Pow2Of32();
    Pow2Mono(r + 1, 32);
    Doubles(r);
    HalfMultiple(x, r);
    OrClear(x, Pow2(r), x / Pow2(r + 1), r + 1);
    PlusUnit(x, Pow2(r));
  }

  lemma OrClear(x: nat, p: nat, y: nat, k: nat)
    requires x == y * Pow2(k) && p < Pow2(k)
    ensures Or(x, p) == x + p
  {
    hide Pow2, Or;
    OrComm(x, p);
    OrDisjoint(p, y, k);
  }

  lemma PlusUnit(x: nat, p: nat)
    requires p > 0 && x % p == 0
    ensures (x + p) % p == 0
  {
    MulPlus(x / p, 1, p);
    DivUnique(x + p, p, x / p + 1, 0);
  }

  lemma Doubles(r: nat)
    ensures Pow2(r + 1) == 2 * Pow2(r) && Pow2(r) < Pow2(r + 1)
  {
  }

  // Setting bit n of the quotient adds 2 to the n.
  lemma WithBitValue(p: seq<Limb>, n: nat)
    requires n < 32 * WIDTH && LowClear(p, n + 1)
    ensures LowClear(WithBit(p, n), n)
    ensures Val(WithBit(p, n)) == Val(p) + Pow2(n)
  {
    hide Pow2, Val, Unit, Or, LimbOr;
    ClearLess(p, n);
    SetClearBit(p[n / 32], n % 32);
    ValUpdate(p, n / 32, p[n / 32] + Pow2(n % 32));
    UnitIs(n / 32);
    Pow2Add(n % 32, 32 * (n / 32));
    assert n % 32 + 32 * (n / 32) == n;
  }

  lemma DivideStep(a: nat, b: nat, p: seq<Limb>, num: nat, n: nat)
    requires n < 32 * WIDTH && Dividing(a, b, p, num, n + 1)
    ensures num < b * Pow2(n) ==> Dividing(a, b, p, num, n)
    ensures num >= b * Pow2(n) ==> Dividing(a, b, WithBit(p, n), num - b * Pow2(n), n)
  {
    ClearLess(p, n);
    WithBitValue(p, n);
    assert Pow2(n + 1) == 2 * Pow2(n);
    hide Pow2, Val, LowClear, WithBit;
    MulTwo(b, Pow2(n));
    MulPlus(Val(p), Pow2(n), b);
  }

  lemma DivideStarts(a: nat, b: nat, p: seq<Limb>)
    requires AllZero(p) && |p| == WIDTH && b > 0 && a < Modulus() && BitLen(b) <= BitLen(a)
    ensures BitLen(a) - BitLen(b) + 1 <= 32 * WIDTH
    ensures Dividing(a, b, p, a, BitLen(a) - BitLen(b) + 1)
    ensures b * Pow2(BitLen(a) - BitLen(b)) < Modulus()
  {
    hide Val, BitLen, Pow2;
    BitLenBounds(a);
    BitLenBounds(b);
    ValZeros(p);
    WithinWidth(a);
    var x, y := BitLen(a), BitLen(b);
    Pow2Add(y - 1, x - y + 1);
    Pow2Add(y, x - y);
    Pow2Mono(x, 256);
    MulMono(Pow2(y - 1), b, Pow2(x - y + 1));
    MulMono(b + 1, Pow2(y), Pow2(x - y));
    MulPlus(b, 1, Pow2(x - y));
    ZeroClear(p, x - y + 1);
  }

  lemma ZeroClear(p: seq<Limb>, n: nat)
    requires AllZero(p) && |p| == WIDTH && n <= 32 * WIDTH
    ensures LowClear(p, n)
  {
    if n / 32 < WIDTH {
      DivUnique(0, Pow2(n % 32), 0, 0);
    }
  }

  lemma WithinWidth(a: nat)
    requires a < Modulus()
    ensures BitLen(a) <= 256
  {
    hide BitLen, Pow2;
    LenZero(a);
    BitLenBounds(a);
    if BitLen(a) > 256 {
      Pow2Mono(256, BitLen(a) - 1);
    }
  }

  lemma Shorter(a: nat, b: nat)
    requires BitLen(b) > BitLen(a)
    ensures a / b == 0
  {
    hide BitLen, Pow2;
    LenZero(b);
    BitLenBounds(a);
    BitLenBounds(b);
    Pow2Mono(BitLen(a), BitLen(b) - 1);
    DivUnique(a, b, 0, a);
  }

  lemma DivideEnds(a: nat, b: nat, p: seq<Limb>, num: nat)
    requires Dividing(a, b, p, num, 0)
    ensures b > 0 && Val(p) == a / b
  {
    assert Pow2(0) == 1;
    hide Val;
    DivUnique(a, b, Val(p), num);
  }

  // The divisor, shifted back by one.
  lemma ShiftedBack(b: nat, n: nat)
    requires n > 0
    ensures (b * Pow2(n)) / Pow2(1) == b * Pow2(n - 1)
  {
    Pow2Zero();
    assert Pow2(n) == 2 * Pow2(n - 1);
    MulTwo(b, Pow2(n - 1));
  }

  method Copy(b: array<Limb>) returns (c: array<Limb>)
    requires Wide(b)
    ensures fresh(c) && Wide(c) && c[..] == b[..]
  {
    c := new Limb[WIDTH](i requires 0 <= i < WIDTH reads b => b[i]);
  }

  // /=; b may be pn itself.  Division by zero is reported, and leaves zero behind.
  method DivAssign(pn: array<Limb>, b: array<Limb>) returns (ok: bool)
    requires Wide(pn) && Wide(b)
    modifies pn
    ensures ok <==> old(Value(b)) != 0
    ensures Value(pn) == if old(Value(b)) == 0 then 0 else old(Value(pn)) / old(Value(b))
  {
    hide Val, BitLen, Pow2, Dividing, LimbOr, Unit;
    ghost var a0, b0 := Value(pn), Value(b);
    var div := Copy(b);
    var num := Copy(pn);
    SetZero(pn);
    var num_bits := NumBits(num);
    var div_bits := NumBits(div);
    ValueBound(num);
    LenZero(b0);
    if div_bits == 0 {
      return false;
    }
    if div_bits > num_bits {
      Shorter(a0, b0);
      return true;
    }
    var shift: int := num_bits - div_bits;
    DivideStarts(a0, b0, pn[..]);
    DivUnique(b0 * Pow2(shift), Modulus(), 0, b0 * Pow2(shift));
    ShiftLeft(div, shift);
    while shift >= 0
      invariant -1 <= shift < 32 * WIDTH
      invariant Dividing(a0, b0, pn[..], Value(num), shift + 1)
      invariant shift >= 0 ==> Value(div) == b0 * Pow2(shift)
      decreases shift + 1
    {
      ValueBound(num);
      DivideStep(a0, b0, pn[..], Value(num), shift);
      if shift > 0 {
        ShiftedBack(b0, shift);
      }
      var c := CompareTo(num, div);
      if c >= 0 {
        DivUnique(Value(num) - Value(div), Modulus(), 0, Value(num) - Value(div));
        SubAssign(num, div);
        SetBit(pn, shift);
      }
      ShiftRight(div, 1);
      shift := shift - 1;
    }
    DivideEnds(a0, b0, pn[..], Value(num));
    return true;
  }

  method SetBit(pn: array<Limb>, shift: nat)
    requires Wide(pn) && shift < 32 * WIDTH
    modifies pn
    ensures pn[..] == WithBit(old(pn[..]), shift)
  {
    Pow2Of32();
    Pow2Mono(shift % 32 + 1, 32);
    pn[shift / 32] := LimbOr(pn[shift / 32], Pow2(shift % 32));
  }

  lemma LenZero(v: nat)
    ensures BitLen(v) == 0 <==> v == 0
  {
  }
}
