// Numbers as lists of digits, most significant first, in any base.
module Radix {
  import opened Bits

  function Pow(b: nat, n: nat): nat {
    if n == 0 then 1 else MulNonneg(b, Pow(b, n - 1)); b * Pow(b, n - 1)
  }

  ghost predicate Digits(base: nat, s: seq<nat>) {
    forall i :: 0 <= i < |s| ==> s[i] < base
  }

  function Num(base: nat, s: seq<nat>): nat {
    if s == [] then 0
    else MulNonneg(s[0], Pow(base, |s| - 1)); s[0] * Pow(base, |s| - 1) + Num(base, s[1..])
  }

  // The digits of v, without leading zeros; none for zero.
  function DigitsOf(base: nat, v: nat): (s: seq<nat>)
    requires base > 1
  {
    if v == 0 then [] else QuotientSmaller(v, base); DigitsOf(base, v / base) + [v % base]
  }

  lemma QuotientSmaller(v: nat, base: nat)
    requires base > 1 && v > 0
    ensures 0 <= v / base < v
  {
    var q, r := v / base, v % base;
    assert v == base * q + r;
    if q > 0 {
      MulMono(2, base, q);
    }
  }

  lemma {:induction false} PowPositive(b: nat, n: nat)
    requires b > 0
    ensures Pow(b, n) > 0
  {
    if n > 0 {
      PowPositive(b, n - 1);
      MulMono(1, b, Pow(b, n - 1));
    }
  }

  lemma {:induction false} PowAdd(b: nat, m: nat, n: nat)
    ensures Pow(b, m + n) == Pow(b, m) * Pow(b, n)
  {
    if m > 0 {
      PowAdd(b, m - 1, n);
      MulAssoc(b, Pow(b, m - 1), Pow(b, n));
    }
  }

  lemma {:induction false} PowMono(b: nat, m: nat, n: nat)
    requires b > 0 && m <= n
    ensures Pow(b, m) <= Pow(b, n)
    decreases n
  {
    if m < n {
      PowMono(b, m, n - 1);
      PowPositive(b, n - 1);
      MulMono(1, b, Pow(b, n - 1));
    }
  }

  lemma {:induction false} PowMul(b: nat, m: nat, n: nat)
    ensures 0 <= m * n && Pow(b, m * n) == Pow(Pow(b, m), n)
  {
    MulNonneg(m, n);
    if n > 0 {
      PowMul(b, m, n - 1);
      MulPlus(n - 1, 1, m);
      PowAdd(b, m, m * (n - 1));
    }
  }

  lemma {:induction false} PowBase(a: nat, b: nat, n: nat)
    requires a <= b
    ensures Pow(a, n) <= Pow(b, n)
  {
    if n > 0 {
      PowBase(a, b, n - 1);
      MulMono(a, b, Pow(a, n - 1));
      MulMono(Pow(a, n - 1), Pow(b, n - 1), b);
    }
  }

  lemma {:induction false} PowBaseStrict(a: nat, b: nat, n: nat)
    requires a < b && n > 0
    ensures Pow(a, n) < Pow(b, n)
  {
    PowBase(a, b, n - 1);
    PowPositive(b, n - 1);
    MulMono(Pow(a, n - 1), Pow(b, n - 1), a);
    MulMono(a + 1, b, Pow(b, n - 1));
    MulPlus(a, 1, Pow(b, n - 1));
  }

  // ----- digits

  lemma {:induction false} NumSnoc(base: nat, s: seq<nat>, x: nat)
    ensures Num(base, s + [x]) == Num(base, s) * base + x
  {
    if s == [] {
      assert [x][1..] == [];
      assert s + [x] == [x];
    } else {
      assert (s + [x])[1..] == s[1..] + [x];
      NumSnoc(base, s[1..], x);
      MulAssoc(s[0], Pow(base, |s| - 1), base);
      MulPlus(s[0] * Pow(base, |s| - 1), Num(base, s[1..]), base);
    }
  }

  lemma {:induction false} NumBound(base: nat, s: seq<nat>)
    requires Digits(base, s)
    ensures Num(base, s) < Pow(base, |s|)
  {
    if s != [] {
      NumBound(base, s[1..]);
      MulMono(s[0] + 1, base, Pow(base, |s| - 1));
      MulPlus(s[0], 1, Pow(base, |s| - 1));
    }
  }

  lemma {:induction false} NumZeros(base: nat, s: seq<nat>, z: nat)
    requires z <= |s| && forall i :: 0 <= i < z ==> s[i] == 0
    ensures Num(base, s) == Num(base, s[z..])
  {
    if z > 0 {
      assert s[1..][z - 1..] == s[z..];
      NumZeros(base, s[1..], z - 1);
    }
  }

  lemma {:induction false} DigitsOfNum(base: nat, v: nat)
    requires base > 1
    ensures Digits(base, DigitsOf(base, v)) && Num(base, DigitsOf(base, v)) == v
    ensures v > 0 ==> DigitsOf(base, v) != [] && DigitsOf(base, v)[0] != 0
    ensures v == 0 ==> DigitsOf(base, v) == []
  {
    if v > 0 {
      QuotientSmaller(v, base);
      DigitsOfNum(base, v / base);
      NumSnoc(base, DigitsOf(base, v / base), v % base);
      if v / base == 0 {
        assert v == v % base;
      }
    }
  }

  // A list that does not start with zero is the digits of its number.
  lemma {:induction false} DigitsUnique(base: nat, s: seq<nat>)
    requires base > 1 && Digits(base, s) && (s != [] ==> s[0] != 0)
    ensures DigitsOf(base, Num(base, s)) == s
  {
    if s != [] {
      var t, x := s[..|s| - 1], s[|s| - 1];
      assert s == t + [x];
      NumSnoc(base, t, x);
      DigitsUnique(base, t);
      DivUnique(Num(base, s), base, Num(base, t), x);
      if t != [] {
        LeadPositive(base, s);
      }
    }
  }

  lemma LeadPositive(base: nat, s: seq<nat>)
    requires base > 0 && s != [] && s[0] != 0
    ensures Num(base, s) > 0
  {
    PowPositive(base, |s| - 1);
    MulMono(1, s[0], Pow(base, |s| - 1));
  }
}
