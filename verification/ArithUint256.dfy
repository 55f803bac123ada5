// The operators of base_uint<256>: eight limbs, rewritten in place.  Every operator is proved
// against the number the limbs stand for, modulo 2 to the 256.
module ArithUint256 {
  import opened Bits
  import opened Limbs

  const WIDTH: nat := 8
  const MAX32: nat := 0xffff_ffff
  const MAX64: nat := 0xffff_ffff_ffff_ffff

  ghost predicate Wide(a: array<Limb>) {
    a.Length == WIDTH
  }

  ghost function Value(a: array<Limb>): nat
    reads a
  {
    Val(a[..])
  }

  // 2 to the 256
  ghost function Modulus(): nat {
    Unit(WIDTH)
  }

  lemma ValueBound(a: array<Limb>)
    requires Wide(a)
    ensures Value(a) < Modulus()
  {
    ValBound(a[..]);
  }

  lemma Reduced(s: seq<Limb>, carry: nat, x: nat)
    requires |s| == WIDTH && Val(s) + carry * Modulus() == x
    ensures Val(s) == x % Modulus()
  {
    ValBound(s);
    DivUnique(x, Modulus(), carry, Val(s));
  }

  lemma Start()
    ensures Val([]) == 0 && Unit(0) == 1
  {
  }

  lemma CarryParts(n: nat, u: nat)
    ensures n * u == (n % BASE) * u + (n / BASE) * (BASE * u)
  {
    MulPlus(n / BASE * BASE, n % BASE, u);
    MulAssoc(n / BASE, BASE, u);
  }

  // One limb of an operation with a carry.
  lemma CarryStep(done: seq<Limb>, n: nat)
    ensures Val(done + [n % BASE]) + (n / BASE) * Unit(|done| + 1) == Val(done) + n * Unit(|done|)
  {
    hide Val, Unit, Pow2;
    ValPush(done, n % BASE);
    UnitStep(|done|);
    CarryParts(n, Unit(|done|));
  }

  // Lists with the same limbs from k on differ by their first k limbs.
  lemma SameAbove(s: seq<Limb>, t: seq<Limb>, k: nat)
    requires |s| == |t| && k <= |s| && s[k..] == t[k..]
    ensures Val(s) - Val(s[..k]) == Val(t) - Val(t[..k])
  {
    ValSplit(s, k);
    ValSplit(t, k);
  }

  // ----- addition and negation

  lemma AddStep(p0: seq<Limb>, b0: seq<Limb>, done: seq<Limb>, carry: nat)
    requires |done| < |p0| && |done| < |b0|
    requires Val(done) + carry * Unit(|done|) == Val(p0[..|done|]) + Val(b0[..|done|])
    ensures var i, n := |done|, carry as int + p0[|done|] + b0[|done|];
            Val(done + [n % BASE]) + (n / BASE) * Unit(i + 1) == Val(p0[..i + 1]) + Val(b0[..i + 1])
  {
    hide Val, Unit, Pow2;
    var i := |done|;
    CarryStep(done, carry as int + p0[i] + b0[i]);
    ValSnoc(p0, i);
    ValSnoc(b0, i);
    MulPlus(carry as int + p0[i], b0[i], Unit(i));
    MulPlus(carry, p0[i], Unit(i));
  }

  // +=; b may be pn itself.
  method AddAssign(pn: array<Limb>, b: array<Limb>)
    requires Wide(pn) && Wide(b)
    modifies pn
    ensures Value(pn) == (old(Value(pn)) + old(Value(b))) % Modulus()
  {
    hide Val, Unit, Pow2;
    ghost var p0, b0 := pn[..], b[..];
    var carry: nat := 0;
    Start();
    for i := 0 to WIDTH
      invariant carry <= 1 && pn[i..] == p0[i..] && b[i..] == b0[i..]
      invariant Val(pn[..i]) + carry * Unit(i) == Val(p0[..i]) + Val(b0[..i])
    {
      assert pn[i] == p0[i] && b[i] == b0[i];
      ghost var done := pn[..i];
      AddStep(p0, b0, done, carry);
      var n := carry as int + pn[i] + b[i];
      assert n <= MAX64;
      pn[i] := n % BASE;
      carry := n / BASE;
      assert pn[..i + 1] == done + [n % BASE];
    }
    assert pn[..WIDTH] == pn[..] && p0[..WIDTH] == p0 && b0[..WIDTH] == b0;
    Reduced(pn[..], carry, Val(p0) + Val(b0));
  }

  lemma IncrementStep(p0: seq<Limb>, done: seq<Limb>)
    requires |done| < |p0| && Val(done) + Unit(|done|) == Val(p0[..|done|]) + 1
    ensures var i, n := |done|, p0[|done|] as int + 1;
            Val(done + [n % BASE]) + (n / BASE) * Unit(i + 1) == Val(p0[..i + 1]) + 1
  {
    hide Val, Unit, Pow2;
    CarryStep(done, p0[|done|] as int + 1);
    ValSnoc(p0, |done|);
    MulPlus(p0[|done|], 1, Unit(|done|));
  }

  // ++ carries through the limbs that wrap to zero.
  method Increment(pn: array<Limb>)
    requires Wide(pn)
    modifies pn
    ensures Value(pn) == (old(Value(pn)) + 1) % Modulus()
  {
    hide Val, Unit, Pow2;
    ghost var p0 := pn[..];
    var i := 0;
    Start();
    while true
      invariant 0 <= i < WIDTH && pn[i..] == p0[i..]
      invariant Val(pn[..i]) + Unit(i) == Val(p0[..i]) + 1
      decreases WIDTH - i
    {
      assert pn[i] == p0[i];
      ghost var done, carry := pn[..i], (pn[i] as int + 1) / BASE;
      IncrementStep(p0, done);
      pn[i] := (pn[i] as int + 1) % BASE;
      assert pn[..i + 1] == done + [(p0[i] as int + 1) % BASE];
      assert pn[i + 1..] == p0[i + 1..];
      if !(pn[i] == 0 && i < WIDTH - 1) {
        IncrementEnds(p0, pn[..], i, carry);
        return;
      }
      i := i + 1;
    }
  }

  lemma IncrementEnds(p0: seq<Limb>, p: seq<Limb>, i: nat, carry: nat)
    requires |p0| == |p| == WIDTH && i < WIDTH && p[i + 1..] == p0[i + 1..]
    requires Val(p[..i + 1]) + carry * Unit(i + 1) == Val(p0[..i + 1]) + 1
    requires i < WIDTH - 1 ==> carry == 0
    ensures Val(p) == (Val(p0) + 1) % Modulus()
  {
    hide Val, Unit, Pow2;
    SameAbove(p, p0, i + 1);
    Reduced(p, carry, Val(p0) + 1);
  }

  lemma DecrementStep(p0: seq<Limb>, done: seq<Limb>)
    requires |done| < |p0| && Val(done) + 1 == Val(p0[..|done|]) + Unit(|done|)
    ensures var i, x := |done|, p0[|done|];
            Val(done + [(x as int - 1) % BASE]) + 1 == Val(p0[..i + 1]) + (if x == 0 then Unit(i + 1) else 0)
  {
    hide Val, Unit, Pow2;
    var i, x := |done|, p0[|done|];
    ValSnoc(p0, i);
    ValPush(done, (x as int - 1) % BASE);
    UnitStep(i);
    if x == 0 {
      MulPlus(BASE - 1, 1, Unit(i));
    } else {
      MulPlus(x - 1, 1, Unit(i));
    }
  }

  // -- borrows through the limbs that are zero.
  method Decrement(pn: array<Limb>)
    requires Wide(pn)
    modifies pn
    ensures Value(pn) == (old(Value(pn)) as int - 1) % Modulus()
  {
    hide Val, Unit, Pow2;
    ghost var p0 := pn[..];
    var i := 0;
    Start();
    while true
      invariant 0 <= i < WIDTH && pn[i..] == p0[i..]
      invariant Val(pn[..i]) + 1 == Val(p0[..i]) + Unit(i)
      decreases WIDTH - i
    {
      assert pn[i] == p0[i];
      ghost var done := pn[..i];
      DecrementStep(p0, done);
      pn[i] := (pn[i] as int - 1) % BASE;
      assert pn[..i + 1] == done + [(p0[i] as int - 1) % BASE];
      assert pn[i + 1..] == p0[i + 1..];
      if !(pn[i] == MAX32 && i < WIDTH - 1) {
        DecrementEnds(p0, pn[..], i);
        return;
      }
      i := i + 1;
    }
  }

  lemma DecrementEnds(p0: seq<Limb>, p: seq<Limb>, i: nat)
    requires |p0| == |p| == WIDTH && i < WIDTH && p[i + 1..] == p0[i + 1..]
    requires Val(p[..i + 1]) + 1 == Val(p0[..i + 1]) + (if p0[i] == 0 then Unit(i + 1) else 0)
    requires i < WIDTH - 1 ==> p0[i] != 0
    ensures Val(p) == (Val(p0) as int - 1) % Modulus()
  {
    hide Val, Unit, Pow2;
    SameAbove(p, p0, i + 1);
    ValBound(p);
    ValBound(p0);
    if p0[i] == 0 {
      DivUnique(Val(p0) as int - 1, Modulus(), -1, Val(p));
    } else {
      DivUnique(Val(p0) as int - 1, Modulus(), 0, Val(p));
    }
  }

  lemma InvertStep(b: seq<Limb>, done: seq<Limb>)
    requires |done| < |b| && Val(done) + Val(b[..|done|]) == Unit(|done|) - 1
    ensures Val(done + [MAX32 - b[|done|]]) + Val(b[..|done| + 1]) == Unit(|done| + 1) - 1
  {
    hide Val, Unit, Pow2;
    var i := |done|;
    ValSnoc(b, i);
    ValPush(done, MAX32 - b[i]);
    UnitStep(i);
    MulPlus(MAX32 - b[i], b[i], Unit(i));
    MulPlus(MAX32, 1, Unit(i));
  }

  // ~
  method Invert(b: array<Limb>) returns (ret: array<Limb>)
    requires Wide(b)
    ensures fresh(ret) && Wide(ret) && Value(ret) == Modulus() - 1 - Value(b)
  {
    hide Val, Unit, Pow2;
    Start();
    ret := new Limb[WIDTH](i => 0);
    for i := 0 to WIDTH
      invariant Val(ret[..i]) + Val(b[..i]) == Unit(i) - 1
    {
      ghost var done := ret[..i];
      assert b[..][..i] == b[..i] && b[..][..i + 1] == b[..i + 1];
      InvertStep(b[..], done);
      ret[i] := MAX32 - b[i];
      assert ret[..i + 1] == done + [MAX32 - b[i]];
    }
    assert ret[..WIDTH] == ret[..] && b[..WIDTH] == b[..];
  }

  // unary -
  method Negate(b: array<Limb>) returns (ret: array<Limb>)
    requires Wide(b)
    ensures fresh(ret) && Wide(ret) && Value(ret) == (-(Value(b) as int)) % Modulus()
  {
    hide Val, Unit, Pow2;
    ret := Invert(b);
    ghost var v: int := Value(b);
    ValueBound(b);
    SameModulo(Modulus() - v, -v, 1, Modulus());
    Increment(ret);
  }

  lemma SameModulo(x: int, y: int, k: int, m: nat)
    requires m > 0 && x == y + k * m
    ensures x % m == y % m
  {
    MulPlus(y / m, k, m);
    DivUnique(x, m, y / m + k, y % m);
  }

  // -=; b may be pn itself.
  method SubAssign(pn: array<Limb>, b: array<Limb>)
    requires Wide(pn) && Wide(b)
    modifies pn
    ensures Value(pn) == (old(Value(pn)) as int - old(Value(b))) % Modulus()
  {
    hide Val, Unit, Pow2;
    var minus := Negate(b);
    ghost var p: int, q: int := Value(pn), Value(b);
    AddAssign(pn, minus);
    assert (-q) % Modulus() == -q - (-q) / Modulus() * Modulus();
    SameModulo(p + (-q) % Modulus(), p - q, -((-q) / Modulus()), Modulus());
  }

  ghost predicate AllZero(s: seq<Limb>) {
    forall i :: 0 <= i < |s| ==> s[i] == 0
  }

  // *this = 0
  method SetZero(pn: array<Limb>)
    requires Wide(pn)
    modifies pn
    ensures AllZero(pn[..]) && Value(pn) == 0
  {
    for i := 0 to WIDTH
      invariant forall k :: 0 <= k < i ==> pn[k] == 0
    {
      pn[i] := 0;
    }
    ValZeros(pn[..]);
  }
}
