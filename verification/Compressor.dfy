// Compact forms of amounts, scripts and outputs.
module Compressor {
  import opened Bits
  import opened VarInt

  const WRAP: nat := 0x1_0000_0000_0000_0000
  const MAX_MONEY: nat := 21000000 * 100000000

  // ----- amounts

  // n without up to nine trailing zeros, and how many were taken.
  function Zeros(n: nat, e: nat): (r: (nat, nat))
    requires e <= 9
    ensures e <= r.1 <= 9
    decreases 9 - e
  {
    if n % 10 == 0 && e < 9 then Zeros(n / 10, e + 1) else (n, e)
  }

  function Ten(e: nat): (p: nat)
    ensures p > 0
  {
    if e == 0 then 1 else 10 * Ten(e - 1)
  }

  // The digits m without trailing zeros, and the number of zeros, in one number; and back.
  function Code(m: nat, e: nat): nat
    requires m > 0 && e <= 9 && (e < 9 ==> m % 10 != 0)
  {
    if e < 9 then 1 + (m / 10 * 9 + m % 10 - 1) * 10 + e else 1 + (m - 1) * 10 + 9
  }

  function Uncode(x: nat): (r: (nat, nat))
    requires x > 0
    ensures r.0 > 0 && r.1 <= 9 && (r.1 < 9 ==> r.0 % 10 != 0)
  {
    var e, y := (x - 1) % 10, (x - 1) / 10;
    if e < 9 then (y / 9 * 10 + y % 9 + 1, e) else (y + 1, e)
  }

  lemma CodeUncode(x: nat)
    requires x > 0
    ensures Code(Uncode(x).0, Uncode(x).1) == x
  {
  }

  lemma UncodeCode(m: nat, e: nat)
    requires m > 0 && e <= 9 && (e < 9 ==> m % 10 != 0)
    ensures Code(m, e) > 0 && Uncode(Code(m, e)) == (m, e)
  {
  }

  function Compressed(n: nat): nat {
    if n == 0 then 0
    else
      ZerosValue(n, 0);
      Code(Zeros(n, 0).0, Zeros(n, 0).1)
  }

  function Decompressed(x: nat): nat {
    if x == 0 then 0 else MulNonneg(Uncode(x).0, Ten(Uncode(x).1)); Uncode(x).0 * Ten(Uncode(x).1)
  }

  lemma {:induction false} ZerosValue(n: nat, e: nat)
    requires e <= 9
    ensures var r := Zeros(n, e); r.0 * Ten(r.1 - e) == n && (n > 0 ==> r.0 > 0) && (r.1 < 9 ==> r.0 % 10 != 0)
    decreases 9 - e
  {
    if n % 10 == 0 && e < 9 {
      ZerosValue(n / 10, e + 1);
      var r := Zeros(n / 10, e + 1);
      TenTimes(r.0, Ten(r.1 - e - 1));
    }
  }

  lemma TenTimes(a: nat, p: nat)
    ensures a * (10 * p) == 10 * (a * p)
  {
  }

  // Decompressing what was compressed gives the amount.
  lemma DecompressCompress(n: nat)
    ensures Decompressed(Compressed(n)) == n
  {
    hide Ten, Zeros, Code, Uncode;
    if n > 0 {
      ZerosValue(n, 0);
      UncodeCode(Zeros(n, 0).0, Zeros(n, 0).1);
    }
  }

  // m times ten to the e, with no trailing zero left in m unless e is nine, splits back.
  lemma {:induction false} ZerosUnique(m: nat, e: nat, from: nat)
    requires from + e <= 9 && m > 0 && (from + e < 9 ==> m % 10 != 0)
    ensures 0 <= m * Ten(e) && Zeros(m * Ten(e), from) == (m, from + e)
    decreases e
  {
    MulNonneg(m, Ten(e));
    if e > 0 {
      ZerosUnique(m, e - 1, from + 1);
      TenTimes(m, Ten(e - 1));
    }
  }

  // And every number is the compressed form of exactly the amount it decompresses to.
  lemma CompressDecompress(x: nat)
    ensures Compressed(Decompressed(x)) == x
  {
    hide Ten, Zeros, Code, Uncode;
    if x > 0 {
      var (m, e) := Uncode(x);
      ZerosUnique(m, e, 0);
      PositiveProduct(m, Ten(e));
      CodeUncode(x);
    }
  }

  lemma PositiveProduct(a: nat, b: nat)
    requires a > 0 && b > 0
    ensures a * b > 0
  {
  }

  // In the range of money nothing overflows 64 bits.
  lemma NoOverflow(n: nat)
    requires n <= MAX_MONEY
    ensures Compressed(n) < WRAP
  {
    ZerosLess(n, 0);
  }

  lemma {:induction false} ZerosLess(n: nat, e: nat)
    requires e <= 9
    ensures Zeros(n, e).0 <= n
    decreases 9 - e
  {
    if n % 10 == 0 && e < 9 {
      ZerosLess(n / 10, e + 1);
    }
  }

  method CompressAmount(nAmount: nat) returns (x: nat)
    requires nAmount < WRAP
    ensures x == Compressed(nAmount) % WRAP
  {
    if nAmount == 0 {
      return 0;
    }
    var n: nat, e: nat := nAmount, 0;
    ZerosValue(nAmount, 0);
    while n % 10 == 0 && e < 9
      invariant e <= 9 && Zeros(n, e) == Zeros(nAmount, 0)
      decreases 9 - e
    {
      n := n / 10;
      e := e + 1;
    }
    if e < 9 {
      var d := n % 10;
      assert 1 <= d <= 9;
      n := n / 10;
      return (1 + (n * 9 + d - 1) * 10 + e) % WRAP;
    }
    return (1 + (n - 1) * 10 + 9) % WRAP;
  }

  method DecompressAmount(compressed: nat) returns (n: nat)
    requires compressed < WRAP
    ensures n == Decompressed(compressed) % WRAP
  {
    if compressed == 0 {
      return 0;
    }
    var x := compressed - 1;
    var e := x % 10;
    x := x / 10;
    if e < 9 {
      var d := x % 9 + 1;
      x := x / 9;
      n := x * 10 + d;
    } else {
      n := x + 1;
    }
    ghost var exact, e0 := n, e;
    hide Ten;
    TenZero();
    n := n % WRAP;
    Wrapped(exact, 1);
    while e > 0
      invariant 0 <= e <= e0 && n == (exact * Ten(e0 - e)) % WRAP
    {
      WrapTimes(exact * Ten(e0 - e));
      TenNext(e0 - e);
      TenTimes(exact, Ten(e0 - e));
      n := n * 10 % WRAP;
      e := e - 1;
    }
  }

  lemma TenZero()
    ensures Ten(0) == 1
  {
  }

  lemma TenNext(e: nat)
    ensures Ten(e + 1) == 10 * Ten(e)
  {
  }

  lemma Wrapped(a: nat, b: nat)
    requires b == 1
    ensures a * b == a
  {
  }

  lemma WrapTimes(a: int)
    ensures (a % WRAP) * 10 % WRAP == (10 * a) % WRAP
  {
    var q, r := a / WRAP, a % WRAP;
    var q', r' := (10 * r) / WRAP, (10 * r) % WRAP;
    DivUnique(10 * a, WRAP, 10 * q + q', r');
  }
}
