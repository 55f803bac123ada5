// The documented format of variable-length integers, and where its table of examples is wrong.
module VarIntFormat {
  import opened Bits
  import opened VarInt

  function Pow128(i: nat): (p: nat)
    ensures p > 0
  {
    if i == 0 then 1 else 0x80 * Pow128(i - 1)
  }

  // The last digit, plus each other one increased by one, times its power of 128.
  function Sum(s: seq<Byte>): nat
    requires s != []
    decreases |s|
  {
    if |s| == 1 then s[0] % 0x80
    else MulNonneg(s[0] % 0x80 + 1, Pow128(|s| - 1)); (s[0] % 0x80 + 1) * Pow128(|s| - 1) + Sum(s[1..])
  }

  lemma {:induction false} ReadSum(s: seq<Byte>, n: nat, used: nat)
    requires 0 < used <= |s| && s[used - 1] < 0x80 && forall i :: 0 <= i < used - 1 ==> s[i] >= 0x80
    ensures 0 <= n * Pow128(used) && ReadFrom(s, n) == Number(n * Pow128(used) + Sum(s[..used]), used)
    decreases used
  {
    MulNonneg(n, Pow128(used));
    var m := n * 0x80 + s[0] % 0x80;
    MulAssoc(n, 0x80, Pow128(used - 1));
    if used == 1 {
      assert s[..1] == [s[0]];
    } else {
      ReadSum(s[1..], m + 1, used - 1);
      assert s[..used][1..] == s[1..][..used - 1];
      MulPlus(n * 0x80, s[0] % 0x80 + 1, Pow128(used - 1));
    }
  }

  // Reading stops at the first byte without bit 128, and the number is the documented sum.
  lemma ReadIs(s: seq<Byte>, used: nat)
    requires 0 < used <= |s| && s[used - 1] < 0x80 && forall i :: 0 <= i < used - 1 ==> s[i] >= 0x80
    ensures ReadVarInt(s) == Number(Sum(s[..used]), used)
  {
    ReadSum(s, 0, used);
  }

  // It fails exactly on a stream without such a byte.
  lemma {:induction false} ReadFailsIff(s: seq<Byte>, n: nat)
    ensures ReadFrom(s, n).Failed? <==> forall i :: 0 <= i < |s| ==> s[i] >= 0x80
    decreases |s|
  {
    if s != [] && s[0] >= 0x80 {
      ReadFailsIff(s[1..], n * 0x80 + s[0] % 0x80 + 1);
      assert forall i :: 0 <= i < |s[1..]| ==> s[1..][i] == s[i + 1];
    }
  }

  // One byte up to 127, two up to 16511, three up to 2113663.
  lemma SizeClasses(n: nat)
    ensures |VarIntOf(n)| == 1 <==> n <= 127
    ensures |VarIntOf(n)| == 2 <==> 128 <= n <= 16511
    ensures |VarIntOf(n)| == 3 <==> 16512 <= n <= 2113663
  {
    if n > 127 {
      var m := n / 0x80 - 1;
      LeadingLength(m);
      if m > 127 {
        LeadingLength(m / 0x80 - 1);
      }
    }
  }

  lemma LeadingLength(n: nat)
    ensures |Leading(n)| > 0
    ensures |Leading(n)| == if n <= 0x7F then 1 else |Leading(n / 0x80 - 1)| + 1
  {
  }

  // Nine of the eleven documented encodings are right.
  lemma Examples()
    ensures VarIntOf(0) == [0x00] && VarIntOf(1) == [0x01] && VarIntOf(127) == [0x7F]
    ensures VarIntOf(128) == [0x80, 0x00] && VarIntOf(255) == [0x80, 0x7F] && VarIntOf(256) == [0x81, 0x00]
    ensures VarIntOf(16383) == [0xFE, 0x7F] && VarIntOf(16384) == [0xFF, 0x00]
    ensures VarIntOf(0x1_0000_0000) == [0x8E, 0xFE, 0xFE, 0xFF, 0x00]
  {
    assert Leading(0x1_0000_0000 / 0x80 - 1) == [0x8E, 0xFE, 0xFE, 0xFF];
  }

  // The bytes documented for 16511 and 65535 are those of 32895 and 65407.
  lemma WrongExamples()
    ensures VarIntOf(16511) == [0xFF, 0x7F] && VarIntOf(32895) == [0x80, 0xFF, 0x7F]
    ensures VarIntOf(65535) == [0x82, 0xFE, 0x7F] && VarIntOf(65407) == [0x82, 0xFD, 0x7F]
  {
  }
}
