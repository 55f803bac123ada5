// Variable-length integers: base 128, most significant digit first, one subtracted from all
// digits but the last so that no encoding is redundant.
module VarInt {
  import opened Bits

  // The digits before the last, each with the high bit.
  function Leading(n: nat): (s: seq<Byte>) {
    if n <= 0x7F then [0x80 + n] else Leading(n / 0x80 - 1) + [0x80 + n % 0x80]
  }

  function VarIntOf(n: nat): (s: seq<Byte>)
    ensures s != []
  {
    if n <= 0x7F then [n] else Leading(n / 0x80 - 1) + [n % 0x80]
  }

  // What a signed integer is written as: a negative one takes the first exit of the loop.
  function SignedVarInt(n: int): (s: seq<Byte>)
    ensures s != []
  {
    if n < 0 then [n % 0x80] else VarIntOf(n)
  }

  datatype Parsed = Failed | Number(n: nat, used: nat)

  // ReadVarInt with n read so far; a stream that ends too soon throws.
  function ReadFrom(s: seq<Byte>, n: nat): (r: Parsed)
    ensures r.Number? ==> 0 < r.used <= |s|
    decreases |s|
  {
    if s == [] then Failed
    else
      var m := n * 0x80 + s[0] % 0x80;
      if s[0] >= 0x80 then
        var r := ReadFrom(s[1..], m + 1);
        if r.Number? then Number(r.n, r.used + 1) else Failed
      else Number(m, 1)
  }

  function ReadVarInt(s: seq<Byte>): (r: Parsed)
    ensures r.Number? ==> 0 < r.used <= |s|
  {
    ReadFrom(s, 0)
  }

  lemma {:induction false} ReadLeading(n: nat, rest: seq<Byte>)
    ensures ReadFrom(Leading(n) + rest, 0) ==
            match ReadFrom(rest, n + 1) case Failed => Failed case Number(m, used) => Number(m, used + |Leading(n)|)
    decreases n
  {
    if n <= 0x7F {
      assert ([0x80 + n] + rest)[1..] == rest;
    } else {
      ReadLeading(n / 0x80 - 1, [0x80 + n % 0x80] + rest);
      assert Leading(n) + rest == Leading(n / 0x80 - 1) + ([0x80 + n % 0x80] + rest);
      assert ([0x80 + n % 0x80] + rest)[1..] == rest;
    }
  }

  // Reading what was written gives the number back and uses exactly its bytes.
  lemma ReadWritten(n: nat, rest: seq<Byte>)
    ensures ReadVarInt(VarIntOf(n) + rest) == Number(n, |VarIntOf(n)|)
  {
    if n > 0x7F {
      ReadLeading(n / 0x80 - 1, [n % 0x80] + rest);
      assert VarIntOf(n) + rest == Leading(n / 0x80 - 1) + ([n % 0x80] + rest);
    }
  }

  // The bytes that make ReadVarInt reach n and go on.
  function Reaching(n: nat): seq<Byte> {
    if n == 0 then [] else Leading(n - 1)
  }

  lemma ReachingNext(n: nat, b: Byte)
    ensures b >= 0x80 ==> Reaching(n * 0x80 + b % 0x80 + 1) == Reaching(n) + [b]
    ensures b < 0x80 ==> VarIntOf(n * 0x80 + b % 0x80) == Reaching(n) + [b]
  {
    var m := n * 0x80 + b % 0x80;
    assert m / 0x80 == n && m % 0x80 == b % 0x80;
  }

  lemma {:induction false} WrittenRead(s: seq<Byte>, n: nat)
    ensures ReadFrom(s, n).Number? ==> VarIntOf(ReadFrom(s, n).n) == Reaching(n) + s[..ReadFrom(s, n).used]
    decreases |s|
  {
    hide Leading, VarIntOf, Reaching;
    if s != [] {
      ReachingNext(n, s[0]);
      if s[0] >= 0x80 {
        var m := n * 0x80 + s[0] % 0x80 + 1;
        WrittenRead(s[1..], m);
        var r := ReadFrom(s[1..], m);
        if r.Number? {
          assert s[..r.used + 1] == [s[0]] + s[1..][..r.used];
        }
      } else {
        assert s[..1] == [s[0]];
      }
    }
  }

  // No encoding is redundant: whatever is read is what the number is written as.
  lemma OneEncoding(s: seq<Byte>)
    ensures ReadVarInt(s).Number? ==> VarIntOf(ReadVarInt(s).n) == s[..ReadVarInt(s).used]
  {
    WrittenRead(s, 0);
  }

  // The same in an unsigned type of `modulus` values, where the shift and the increment wrap.
  function ReadWrapped(s: seq<Byte>, n: nat, modulus: nat): (r: Parsed)
    requires modulus > 0
    decreases |s|
  {
    if s == [] then Failed
    else
      var m := (n * 0x80 + s[0] % 0x80) % modulus;
      if s[0] >= 0x80 then
        var r := ReadWrapped(s[1..], (m + 1) % modulus, modulus);
        if r.Number? then Number(r.n, r.used + 1) else Failed
      else Number(m, 1)
  }

  lemma ModStep(n: nat, d: nat, modulus: nat)
    requires modulus > 0
    ensures ((n % modulus) * 0x80 + d) % modulus == (n * 0x80 + d) % modulus
    ensures (n % modulus + 1) % modulus == (n + 1) % modulus
  {
    var q, r := n / modulus, n % modulus;
    var x := r * 0x80 + d;
    MulPlus(q * 0x80, x / modulus, modulus);
    MulAssoc(q, 0x80, modulus);
    assert n * 0x80 + d == (q * 0x80 + x / modulus) * modulus + x % modulus;
    DivUnique(n * 0x80 + d, modulus, q * 0x80 + x / modulus, x % modulus);
    var y := r + 1;
    MulPlus(q, y / modulus, modulus);
    DivUnique(n + 1, modulus, q + y / modulus, y % modulus);
  }

  // At a width the number read is taken modulo it, from the same bytes: too long an input is
  // not refused.
  lemma {:induction false} WrappedIs(s: seq<Byte>, n: nat, modulus: nat)
    requires modulus > 0
    ensures ReadWrapped(s, n % modulus, modulus)
         == match ReadFrom(s, n) case Failed => Failed case Number(m, used) => Number(m % modulus, used)
    decreases |s|
  {
    if s != [] {
      var m := n * 0x80 + s[0] % 0x80;
      ModStep(n, s[0] % 0x80, modulus);
      ModStep(m, 0, modulus);
      if s[0] >= 0x80 {
        WrappedIs(s[1..], m + 1, modulus);
      }
    }
  }

  // A signed integer comes back exactly when it is not negative.
  lemma SignedIff(n: int, rest: seq<Byte>)
    ensures ReadVarInt(SignedVarInt(n) + rest).Number?
    ensures ReadVarInt(SignedVarInt(n) + rest).n == n <==> n >= 0
  {
    if n >= 0 {
      ReadWritten(n, rest);
    }
  }

  // The digits come out last first and are written in the opposite order.
  method WriteVarInt(number: int) returns (s: seq<Byte>)
    ensures s == SignedVarInt(number)
  {
    var n := number;
    var tmp: seq<Byte> := [];
    while true
      invariant tmp == [] ==> n == number
      invariant tmp != [] ==> number >= 0 && n >= 0 && VarIntOf(number) == Leading(n) + Reversed(tmp)
      decreases if n < 0 then 0 else n
    {
      tmp := tmp + [n % 0x80 + (if tmp != [] then 0x80 else 0)];
      if n <= 0x7F {
        break;
      }
      n := n / 0x80 - 1;
    }
    return Reversed(tmp);
  }

  function Reversed(s: seq<Byte>): (r: seq<Byte>)
    ensures |r| == |s|
  {
    if s == [] then [] else [s[|s| - 1]] + Reversed(s[..|s| - 1])
  }

  method GetSizeOfVarInt(number: int) returns (nRet: nat)
    ensures nRet == |SignedVarInt(number)|
  {
    var n := number;
    nRet := 0;
    while true
      invariant nRet == 0 ==> n == number
      invariant nRet > 0 ==> number >= 0 && n >= 0 && |VarIntOf(number)| == |Leading(n)| + nRet
      decreases if n < 0 then 0 else n
    {
      nRet := nRet + 1;
      if n <= 0x7F {
        break;
      }
      n := n / 0x80 - 1;
    }
  }

  method Read(s: seq<Byte>, from: nat) returns (ok: bool, n: nat, pos: nat)
    requires from <= |s|
    ensures if ok then from < pos <= |s| && ReadVarInt(s[from..]) == Number(n, pos - from)
            else ReadVarInt(s[from..]) == Failed
  {
    n, pos := 0, from;
    while pos < |s|
      invariant from <= pos <= |s|
      invariant ReadVarInt(s[from..]) ==
                match ReadFrom(s[pos..], n) case Failed => Failed case Number(m, used) => Number(m, used + (pos - from))
    {
      var chData := s[pos];
      assert s[pos..][1..] == s[pos + 1..];
      OrDisjoint(chData % 0x80, n, 7);
      assert Pow2(7) == 0x80;
      n := Or(chData % 0x80, n * 0x80);
      pos := pos + 1;
      if chData >= 0x80 {
        n := n + 1;
      } else {
        return true, n, pos;
      }
    }
    return false, n, pos;
  }
}
