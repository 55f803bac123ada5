// Little-endian lists of 32-bit limbs and the numbers they stand for.
module Limbs {
  import opened Bits

  const BASE: nat := 0x1_0000_0000

  type Limb = x: nat | x < BASE

  // BASE to the i
  function Unit(i: nat): (u: nat)
    ensures u >= 1
  {
    Pow2(32 * i)
  }

  function Val(s: seq<Limb>): nat {
    if s == [] then 0
    else
      MulNonneg(s[|s| - 1], Unit(|s| - 1));
      Val(s[..|s| - 1]) + s[|s| - 1] * Unit(|s| - 1)
  }

  lemma UnitStep(i: nat)
    ensures Unit(i + 1) == BASE * Unit(i)
  {
    Pow2Of32();
    Pow2Add(32, 32 * i);
    assert 32 * (i + 1) == 32 + 32 * i;
  }

  lemma UnitAdd(i: nat, j: nat)
    ensures Unit(i + j) == Unit(i) * Unit(j)
  {
    Pow2Add(32 * i, 32 * j);
  }

  lemma ValSnoc(s: seq<Limb>, i: nat)
    requires i < |s|
    ensures Val(s[..i + 1]) == Val(s[..i]) + s[i] * Unit(i)
  {
    assert s[..i + 1][..i] == s[..i];
  }

  lemma ValPush(s: seq<Limb>, x: Limb)
    ensures Val(s + [x]) == Val(s) + x * Unit(|s|)
  {
    assert (s + [x])[..|s|] == s;
  }

  lemma {:induction false} ValBound(s: seq<Limb>)
    ensures Val(s) < Unit(|s|)
  {
    if s != [] {
      var n := |s| - 1;
      ValBound(s[..n]);
      UnitStep(n);
      MulMono(s[n], BASE - 1, Unit(n));
      MulPlus(BASE - 1, 1, Unit(n));
    }
  }

  lemma {:induction false} ValUpdate(s: seq<Limb>, i: nat, x: Limb)
    requires i < |s|
    ensures Val(s[i := x]) == Val(s) + (x - s[i]) * Unit(i)
  {
    var n := |s| - 1;
    if i == n {
      assert s[i := x][..n] == s[..n];
      MulPlus(x - s[i], s[i], Unit(i));
    } else {
      ValUpdate(s[..n], i, x);
      assert s[i := x][..n] == s[..n][i := x];
    }
  }

  lemma {:induction false} ValZeros(s: seq<Limb>)
    requires forall i :: 0 <= i < |s| ==> s[i] == 0
    ensures Val(s) == 0
  {
    if s != [] {
      ValZeros(s[..|s| - 1]);
    }
  }

  // The highest limb in which two lists differ decides.
  lemma {:induction false} ValLess(s: seq<Limb>, t: seq<Limb>, i: nat)
    requires |s| == |t| && i < |s| && s[i] < t[i]
    requires forall j :: i < j < |s| ==> s[j] == t[j]
    ensures Val(s) < Val(t)
  {
    var n := |s| - 1;
    if i == n {
      ValBound(s[..n]);
      MulMono(s[n] + 1, t[n], Unit(n));
      MulPlus(s[n], 1, Unit(n));
    } else {
      ValLess(s[..n], t[..n], i);
    }
  }

  // All limbs above the first n are zero.
  lemma {:induction false} ValHighZeros(s: seq<Limb>, n: nat)
    requires n <= |s| && forall i :: n <= i < |s| ==> s[i] == 0
    ensures Val(s) == Val(s[..n])
  {
    if n == |s| {
      assert s[..n] == s;
    } else {
      var k := |s| - 1;
      ValHighZeros(s[..k], n);
      assert s[..k][..n] == s[..n];
    }
  }

  // Splitting off the first limbs.
  lemma {:induction false} ValSplit(s: seq<Limb>, n: nat)
    requires n <= |s|
    ensures Val(s) == Val(s[..n]) + Val(s[n..]) * Unit(n)
  {
    if n == |s| {
      assert s[..n] == s;
    } else {
      var k := |s| - 1;
      ValSplit(s[..k], n);
      assert s[..k][..n] == s[..n];
      assert s[n..][..k - n] == s[..k][n..];
      UnitAdd(k - n, n);
      MulPlus(Val(s[..k][n..]), s[k] * Unit(k - n), Unit(n));
      assert (s[k] * Unit(k - n)) * Unit(n) == s[k] * (Unit(k - n) * Unit(n)) by { MulAssoc(s[k], Unit(k - n), Unit(n)); }
    }
  }

  // ----- limbs shifted

  // (uint32_t)(x << s)
  function Shl(x: Limb, s: nat): (r: Limb) {
    (x * Pow2(s)) % BASE
  }

  // x >> s
  function Shr(x: Limb, s: nat): (r: Limb) {
    DivLess(x, Pow2(s));
    x / Pow2(s)
  }

  lemma DivLess(x: nat, p: nat)
    requires p > 0
    ensures 0 <= x / p <= x
  {
    var q, r := x / p, x % p;
    assert x == p * q + r;
    MulMono(1, p, q);
  }

  // What << s keeps and what >> (32 - s) brings over add up.
  lemma ShiftLeftParts(x: Limb, s: nat)
    requires s < 32
    ensures x * Pow2(s) == Shl(x, s) + Shr(x, 32 - s) * BASE
    ensures Shl(x, s) == (x % Pow2(32 - s)) * Pow2(s)
    ensures Shr(x, 32 - s) < Pow2(s)
  {
    Pow2Of32();
    Pow2Add(32 - s, s);
    hide Pow2;
    ScaledParts(x, Pow2(32 - s), Pow2(s));
  }

  lemma ScaledParts(x: nat, r: nat, p: nat)
    requires r > 0 && p > 0 && x < r * p
    ensures (x * p) % (r * p) == (x % r) * p
    ensures x * p == (x * p) % (r * p) + (x / r) * (r * p)
    ensures x / r < p
  {
    var q, m := x / r, x % r;
    SplitScaled(x, q, r, m, p);
    DivUnique(x * p, r * p, q, m * p);
    QuotientLess(x, q, r, m, p);
  }

  lemma QuotientLess(x: nat, q: nat, r: nat, m: nat, p: nat)
    requires x == q * r + m && x < r * p
    ensures q < p
  {
    if q >= p {
      MulMono(p, q, r);
    }
  }

  lemma SplitScaled(x: nat, q: nat, r: nat, m: nat, p: nat)
    requires x == q * r + m && m < r
    ensures x * p == q * (r * p) + m * p && 0 <= m * p && (p > 0 ==> m * p < r * p)
  {
    MulPlus(q * r, m, p);
    MulAssoc(q, r, p);
    MulNonneg(m, p);
    MulMono(m + 1, r, p);
    MulPlus(m, 1, p);
  }

  lemma ShiftRightParts(x: Limb, s: nat)
    requires 0 < s < 32
    ensures x == Shr(x, s) * Pow2(s) + x % Pow2(s)
    ensures Shl(x, 32 - s) == (x % Pow2(s)) * Pow2(32 - s)
    ensures Shr(x, s) < Pow2(32 - s)
  {
    hide Pow2;
    ShiftLeftParts(x, 32 - s);
    assert x == (x / Pow2(s)) * Pow2(s) + x % Pow2(s);
  }

  lemma OrComm(x: nat, y: nat)
    ensures Or(x, y) == Or(y, x)
    decreases x + y
  {
    if x > 0 && y > 0 {
      OrComm(x / 2, y / 2);
    }
  }

  lemma {:induction false} OrBound(x: nat, y: nat, n: nat)
    requires x < Pow2(n) && y < Pow2(n)
    ensures Or(x, y) < Pow2(n)
    decreases n
  {
    if x > 0 && y > 0 && n > 0 {
      OrBound(x / 2, y / 2, n - 1);
    }
  }

  // x | y for limbs
  function LimbOr(x: Limb, y: Limb): (r: Limb) {
    Pow2Of32();
    OrBound(x, y, 32);
    Or(x, y)
  }
}
