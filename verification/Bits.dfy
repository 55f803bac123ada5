// Powers of two and the bitwise operators on natural numbers.
module Bits {

  type Byte = x: nat | x < 256

  function Pow2(n: nat): (p: nat)
    ensures p >= 1
  {
    if n == 0 then 1 else 2 * Pow2(n - 1)
  }

  lemma {:induction false} Pow2Add(a: nat, b: nat)
    ensures Pow2(a + b) == Pow2(a) * Pow2(b)
  {
    if a > 0 {
      Pow2Add(a - 1, b);
      assert Pow2(a + b) == 2 * (Pow2(a - 1) * Pow2(b));
    }
  }

  lemma Pow2Of32()
    ensures Pow2(8) == 0x100 && Pow2(16) == 0x1_0000 && Pow2(24) == 0x100_0000 && Pow2(32) == 0x1_0000_0000
  {
    assert Pow2(8) == 0x100;
    Pow2Add(8, 8);
    Pow2Add(16, 8);
    Pow2Add(16, 16);
  }

  lemma {:induction false} Pow2Mono(a: nat, b: nat)
    requires a <= b
    ensures Pow2(a) <= Pow2(b)
    decreases b
  {
    if a < b {
      Pow2Mono(a, b - 1);
    }
  }

  // x | y
  function Or(x: nat, y: nat): nat
    decreases x + y
  {
    if x == 0 then y
    else if y == 0 then x
    else 2 * Or(x / 2, y / 2) + (if x % 2 == 1 || y % 2 == 1 then 1 else 0)
  }

  // (x & (1 << i)) != 0
  predicate TestBit(x: nat, i: nat) {
    (x / Pow2(i)) % 2 == 1
  }

  lemma DivPow2Step(x: nat, i: nat)
    requires i > 0
    ensures x / Pow2(i) == (x / 2) / Pow2(i - 1)
  {
    var p := Pow2(i - 1);
    var q := x / (2 * p);
    var r := x % (2 * p);
    assert x == q * (2 * p) + r;
    assert x / 2 == q * p + r / 2 by {
      assert x == 2 * (q * p) + r;
    }
    assert 0 <= r / 2 < p;
    DivUnique(x / 2, p, q, r / 2);
  }

  lemma MulNonneg(a: int, b: int)
    requires 0 <= a && 0 <= b
    ensures 0 <= a * b
  {
  }

  lemma MulTwo(k: int, p: int)
    ensures k * (2 * p) == 2 * (k * p) && (2 * k) * p == 2 * (k * p)
  {
  }

  lemma MulPlus(a: int, b: int, p: int)
    ensures (a + b) * p == a * p + b * p
  {
  }

  lemma MulAssoc(a: int, b: int, c: int)
    ensures (a * b) * c == a * (b * c)
  {
  }

  lemma MulMono(a: int, b: int, p: int)
    requires a <= b && 0 <= p
    ensures a * p <= b * p
  {
    MulNonneg(b - a, p);
    MulPlus(a, b - a, p);
  }

  lemma LessByQuotient(d: int, q1: int, r1: int, q2: int, r2: int)
    requires 0 <= r1 < d && 0 <= r2 < d
    ensures q1 < q2 ==> q1 * d + r1 < q2 * d + r2
  {
    if q1 < q2 {
      var k := q2 - q1 - 1;
      assert q2 * d == q1 * d + d + k * d;
      MulNonneg(k, d);
    }
  }

  lemma DivNonneg(x: int, d: int)
    requires 0 <= x && 0 < d
    ensures 0 <= x / d
  {
  }

  lemma TestBitStep(x: nat, i: nat)
    ensures TestBit(x, i) <==> if i == 0 then x % 2 == 1 else TestBit(x / 2, i - 1)
  {
    if i > 0 {
      DivPow2Step(x, i);
    }
  }

  lemma DivUnique(x: int, d: int, q: int, r: int)
    requires 0 < d && x == q * d + r && 0 <= r < d
    ensures x / d == q && x % d == r
  {
    LessByQuotient(d, x / d, x % d, q, r);
    LessByQuotient(d, q, r, x / d, x % d);
  }

  // Or of numbers that share no bit is their sum.
  lemma {:induction false} OrDisjoint(x: nat, y: nat, k: nat)
    requires x < Pow2(k)
    ensures Or(x, y * Pow2(k)) == x + y * Pow2(k)
  {
    if k > 0 && x > 0 && y > 0 {
      var p := Pow2(k - 1);
      assert y * Pow2(k) == 2 * (y * p);
      assert (y * Pow2(k)) / 2 == y * p && (y * Pow2(k)) % 2 == 0;
      OrDisjoint(x / 2, y, k - 1);
    }
  }

  lemma {:induction false} OrTest(x: nat, y: nat, i: nat)
    ensures TestBit(Or(x, y), i) <==> TestBit(x, i) || TestBit(y, i)
    decreases i
  {
    ZeroBit(i);
    if x > 0 && y > 0 {
      var z := Or(x, y);
      assert z / 2 == Or(x / 2, y / 2);
      if i > 0 {
        DivPow2Step(x, i);
        DivPow2Step(y, i);
        DivPow2Step(z, i);
        OrTest(x / 2, y / 2, i - 1);
      }
    }
  }

  lemma ZeroBit(i: nat)
    ensures !TestBit(0, i)
  {
    DivUnique(0, Pow2(i), 0, 0);
  }

  lemma OwnBit(i: nat)
    ensures TestBit(Pow2(i), i)
  {
    DivUnique(Pow2(i), Pow2(i), 1, 0);
  }

  lemma OtherBit(i: nat, j: nat)
    requires i != j
    ensures !TestBit(Pow2(i), j)
  {
    if i < j {
      Pow2Mono(i + 1, j);
      DivUnique(Pow2(i), Pow2(j), 0, Pow2(i));
    } else {
      Pow2Add(i - j, j);
      DivUnique(Pow2(i), Pow2(j), Pow2(i - j), 0);
    }
  }
}
