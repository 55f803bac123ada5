// Multiplication of 256-bit numbers, limb by limb.
module ArithMul {
  import opened Bits
  import opened Limbs
  import opened ArithUint256

  lemma LimbProduct(x: Limb, y: Limb)
    ensures 0 <= x * y <= MAX32 * MAX32
  {
    MulMono(x, MAX32, y);
    MulMono(y, MAX32, MAX32);
    MulNonneg(x, y);
  }

  // The limbs done so far, and the carry, are b32 times the same limbs of p0.
  ghost predicate Times32(p0: seq<Limb>, done: seq<Limb>, carry: Limb, b32: Limb) {
    |done| <= |p0| && Val(done) + carry * Unit(|done|) == b32 * Val(p0[..|done|])
  }

  lemma MulStep32(p0: seq<Limb>, done: seq<Limb>, carry: Limb, b32: Limb)
    requires |done| < |p0| && Times32(p0, done, carry, b32)
    ensures var n := carry as int + b32 * p0[|done|];
            0 <= n <= MAX64 && Times32(p0, done + [n % BASE], n / BASE, b32)
  {
    hide Val, Unit, Pow2;
    var i := |done|;
    LimbProduct(b32, p0[i]);
    var n: nat := carry as int + b32 * p0[i];
    CarryStep(done, n);
    ValSnoc(p0, i);
    MulPlus(carry, b32 * p0[i], Unit(i));
    MulAssoc(b32, p0[i], Unit(i));
    Distribute(b32, Val(p0[..i]), p0[i] * Unit(i));
  }

  lemma Distribute(a: int, x: int, y: int)
    ensures a * (x + y) == a * x + a * y
  {
  }

  // *= by a 32-bit number.
  method MulAssign32(pn: array<Limb>, b32: Limb)
    requires Wide(pn)
    modifies pn
    ensures Value(pn) == (b32 * old(Value(pn))) % Modulus()
  {
    hide Times32;
    ghost var p0 := pn[..];
    var carry: Limb := 0;
    assert pn[..0] == [];
    TimesStarts(p0, b32);
    for i := 0 to WIDTH
      invariant pn[i..] == p0[i..] && Times32(p0, pn[..i], carry, b32)
    {
      assert pn[i] == p0[i];
      ghost var done := pn[..i];
      MulStep32(p0, done, carry, b32);
      var n := carry as int + b32 * pn[i];
      pn[i] := n % BASE;
      carry := n / BASE;
      assert pn[..i + 1] == done + [n % BASE];
    }
    assert pn[..WIDTH] == pn[..];
    TimesEnds(p0, pn[..], carry, b32);
  }

  lemma TimesStarts(p0: seq<Limb>, b32: Limb)
    ensures Times32(p0, [], 0, b32)
  {
  }

  lemma TimesEnds(p0: seq<Limb>, p: seq<Limb>, carry: Limb, b32: Limb)
    requires |p0| == |p| == WIDTH && Times32(p0, p, carry, b32)
    ensures Val(p) == (b32 * Val(p0)) % Modulus()
  {
    assert p0[..WIDTH] == p0;
    hide Val, Unit, Pow2;
    MulNonneg(b32, Val(p0));
    Reduced(p, carry, b32 * Val(p0));
  }

  // In row j, the limbs done so far and the carry: the sum q so far plus x, the limb of the
  // row, times the limbs of b used so far.
  ghost predicate Row(q: seq<Limb>, b: seq<Limb>, done: seq<Limb>, carry: Limb, x: Limb, j: nat) {
    && j <= |done| <= |q| && |done| - j <= |b|
    && Val(done) + carry * Unit(|done|) == Val(q[..|done|]) + x * Val(b[..|done| - j]) * Unit(j)
  }

  lemma RowStep(q: seq<Limb>, b: seq<Limb>, done: seq<Limb>, carry: Limb, x: Limb, j: nat)
    requires j <= |done| < |q| && |done| - j < |b| && Row(q, b, done, carry, x, j)
    ensures var n := carry as int + q[|done|] + x * b[|done| - j];
            0 <= n <= MAX64 && Row(q, b, done + [n % BASE], n / BASE, x, j)
  {
    hide Val, Unit, Pow2;
    var k, i := |done|, |done| - j;
    LimbProduct(x, b[i]);
    var n: nat := carry as int + q[k] + x * b[i];
    CarryStep(done, n);
    ValSnoc(q, k);
    ValSnoc(b, i);
    MulPlus(carry as int + q[k], x * b[i], Unit(k));
    MulPlus(carry, q[k], Unit(k));
    Distribute(x, Val(b[..i]), b[i] * Unit(i));
    MulPlus(x * Val(b[..i]), x * (b[i] * Unit(i)), Unit(j));
    UnitAdd(i, j);
    Regroup4(x, b[i], Unit(i), Unit(j));
  }

  lemma Regroup4(x: int, y: int, u: int, v: int)
    ensures (x * (y * u)) * v == (x * y) * (u * v)
  {
    MulAssoc(x, y * u, v);
    MulAssoc(y, u, v);
    MulAssoc(x, y, u * v);
  }

  // The rows finished so far, up to a multiple of the modulus.
  ghost predicate Rows(p: seq<Limb>, a: seq<Limb>, b: seq<Limb>, j: nat, lost: nat) {
    j <= |a| && Val(p) + lost * Modulus() == Val(a[..j]) * Val(b)
  }

  lemma RowEnds(p: seq<Limb>, q: seq<Limb>, a: seq<Limb>, b: seq<Limb>, j: nat, carry: Limb, lost: nat)
      returns (lost': nat)
    requires |p| == |q| == |a| == |b| == WIDTH && j < WIDTH
    requires Rows(q, a, b, j, lost) && Row(q, b, p, carry, a[j], j)
    ensures Rows(p, a, b, j + 1, lost')
  {
    hide Val, Unit, Pow2;
    var x, low, high := a[j], Val(b[..WIDTH - j]), Val(b[WIDTH - j..]);
    assert q[..WIDTH] == q;
    ValSplit(b, WIDTH - j);
    ValSnoc(a, j);
    UnitAdd(WIDTH - j, j);
    MulPlus(Val(a[..j]), x * Unit(j), Val(b));
    MulNonneg(x, high);
    lost' := lost + carry + x * high;
    RowSum(x, Unit(j), low, high, Unit(WIDTH - j));
    MulPlus(lost + carry, x * high, Modulus());
    MulPlus(lost, carry, Modulus());
  }

  lemma RowSum(x: int, u: int, low: int, high: int, v: int)
    ensures (x * u) * (low + high * v) == (x * low) * u + (x * high) * (v * u)
  {
    Distribute(x * u, low, high * v);
    MulAssoc(x, u, low);
    MulAssoc(x, low, u);
    Regroup4(x, high, v, u);
    MulAssoc(x, u, high * v);
    MulAssoc(x, high * v, u);
  }

  // The zero an aliased product leaves is right exactly for the multiples of 2^128.
  lemma SquareVanishesIff(v: nat)
    ensures v * v % Modulus() == 0 <==> v % Pow2(128) == 0
  {
    assert Modulus() == Pow2(256);
    hide Pow2, Modulus;
    SquareVanishes(v, 128);
  }

  lemma {:induction false} SquareVanishes(v: nat, k: nat)
    ensures v * v % Pow2(2 * k) == 0 <==> v % Pow2(k) == 0
  {
    hide Pow2;
    Pow2Twice(k);
    if k > 0 {
      SquareVanishes(v / 2, k - 1);
      if v % 2 == 0 {
        EvenSquare(v / 2, Pow2(2 * (k - 1)), Pow2(k - 1));
      } else {
        OddSquare(v / 2, Pow2(2 * (k - 1)), Pow2(k - 1));
      }
    }
  }

  lemma Pow2Twice(k: nat)
    ensures k == 0 ==> Pow2(k) == 1 == Pow2(2 * k)
    ensures k > 0 ==> Pow2(k) == 2 * Pow2(k - 1) && Pow2(2 * k) == 4 * Pow2(2 * (k - 1))
  {
  }

  lemma EvenSquare(w: nat, q: nat, p: nat)
    requires q > 0 && p > 0
    ensures (2 * w) * (2 * w) % (4 * q) == 0 <==> w * w % q == 0
    ensures 2 * w % (2 * p) == 0 <==> w % p == 0
  {
    assert (2 * w) * (2 * w) == 4 * (w * w);
    CommonFactor(w * w, q, 4);
    CommonFactor(w, p, 2);
  }

  lemma OddSquare(w: nat, q: nat, p: nat)
    requires q > 0 && p > 0
    ensures (2 * w + 1) * (2 * w + 1) % (4 * q) != 0 && (2 * w + 1) % (2 * p) != 0
  {
    var x := 2 * (w * w) + 2 * w;
    assert (2 * w + 1) * (2 * w + 1) == 2 * x + 1;
    OddRest(2 * x + 1, 2 * q);
    OddRest(2 * w + 1, p);
  }

  lemma CommonFactor(x: nat, m: nat, c: nat)
    requires m > 0 && c > 0
    ensures c * m > 0 && (c * x % (c * m) == 0 <==> x % m == 0)
  {
    var q, r := x / m, x % m;
    MulPlus(q * m, r, c);
    MulAssoc(q, m, c);
    MulMono(r + 1, m, c);
    MulNonneg(c, r);
    assert c * x == q * (c * m) + c * r;
    assert c * r < c * m;
    DivUnique(c * x, c * m, q, c * r);
  }

  // An odd number is no multiple of an even one.
  lemma OddRest(x: nat, m: nat)
    requires m > 0 && x % 2 == 1
    ensures x % (2 * m) != 0
  {
    var q := x / (2 * m);
    if x % (2 * m) == 0 {
      assert x == q * (2 * m);
      MulTwo(q, m);
    }
  }

  // *=.  The operand is not copied: when it is the number itself, it has just been set to
  // zero, and so is the result.
  method MulAssign(pn: array<Limb>, b: array<Limb>)
    requires Wide(pn) && Wide(b)
    modifies pn
    ensures Value(pn) == if b == pn then 0 else (old(Value(pn)) * old(Value(b))) % Modulus()
  {
    hide Row, Rows, Val;
    var a := new Limb[WIDTH](i requires 0 <= i < WIDTH reads pn => pn[i]);
    ghost var a0, b0, lost: nat := pn[..], b[..], 0;
    assert a[..] == a0;
    SetZero(pn);
    RowsStart(pn[..], a0, b0);
    for j := 0 to WIDTH
      invariant a[..] == a0
      invariant if b == pn then AllZero(pn[..]) else b[..] == b0 && Rows(pn[..], a0, b0, j, lost)
    {
      ghost var q := pn[..];
      assert a[j] == a0[j];
      ghost var carry := AddRow(pn, b, a[j], j);
      if b != pn {
        lost := RowEnds(pn[..], q, a0, b0, j, carry, lost);
      }
    }
    if b == pn {
      ValZeros(pn[..]);
    } else {
      RowsEnd(pn[..], a0, b0, lost);
    }
  }

  // The inner loop.
  method AddRow(pn: array<Limb>, b: array<Limb>, x: Limb, j: nat) returns (carry: Limb)
    requires Wide(pn) && Wide(b) && j < WIDTH
    modifies pn
    ensures b == pn && old(AllZero(pn[..])) ==> AllZero(pn[..])
    ensures b != pn ==> Row(old(pn[..]), b[..], pn[..], carry, x, j)
  {
    hide Row, Val;
    ghost var q, b0 := pn[..], b[..];
    carry := 0;
    RowStarts(q, b0, x, j);
    for i := 0 to WIDTH - j
      invariant pn[i + j..] == q[i + j..]
      invariant b == pn && AllZero(q) ==> AllZero(pn[..]) && carry == 0
      invariant b != pn ==> b[..] == b0 && Row(q, b0, pn[..i + j], carry, x, j)
    {
      ghost var done := pn[..i + j];
      assert pn[i + j] == q[i + j];
      LimbProduct(x, b[i]);
      var n := carry as int + pn[i + j] + x as int * b[i];
      if b == pn && AllZero(q) {
        ZeroLimbs(pn[..], i, i + j, x);
      } else if b != pn {
        RowStep(q, b0, done, carry, x, j);
      }
      assert 0 <= n <= MAX64;
      pn[i + j] := n % BASE;
      carry := n / BASE;
      assert pn[..i + j + 1] == done + [n % BASE];
    }
    assert pn[..WIDTH] == pn[..];
  }

  lemma ZeroLimbs(p: seq<Limb>, i: nat, k: nat, x: Limb)
    requires AllZero(p) && i < |p| && k < |p|
    ensures p[k] == 0 && x * p[i] == 0
  {
  }

  lemma RowsStart(p: seq<Limb>, a: seq<Limb>, b: seq<Limb>)
    requires Val(p) == 0
    ensures Rows(p, a, b, 0, 0)
  {
  }

  lemma RowsEnd(p: seq<Limb>, a: seq<Limb>, b: seq<Limb>, lost: nat)
    requires |p| == |a| == WIDTH && Rows(p, a, b, WIDTH, lost)
    ensures Val(p) == (Val(a) * Val(b)) % Modulus()
  {
    hide Val, Unit, Pow2;
    assert a[..WIDTH] == a;
    MulNonneg(Val(a), Val(b));
    Reduced(p, lost, Val(a) * Val(b));
  }

  lemma RowStarts(q: seq<Limb>, b: seq<Limb>, x: Limb, j: nat)
    requires j <= |q|
    ensures Row(q, b, q[..j], 0, x, j)
  {
    Start();
    assert q[..j][..j] == q[..j] && b[..0] == [];
  }
}
