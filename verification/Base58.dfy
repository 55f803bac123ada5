// Base 58 text: EncodeBase58 and DecodeBase58 in place, and the two round trips.
module Base58 {
  import opened Bits
  import opened Radix

  datatype Option<T> = None | Some(value: T)

  // isspace in the C locale
  predicate IsSpace(c: char) {
    c == ' ' || '\t' <= c <= '\r'
  }

  // pszBase58[d]
  function Alphabet(d: nat): char
    requires d < 58
  {
    if d < 9 then '1' + d as char
    else if d < 17 then 'A' + (d - 9) as char
    else if d < 22 then 'J' + (d - 17) as char
    else if d < 33 then 'P' + (d - 22) as char
    else if d < 44 then 'a' + (d - 33) as char
    else 'm' + (d - 44) as char
  }

  // ch - pszBase58, or 58 for strchr's NULL
  function Position(c: char): (d: nat)
    ensures d <= 58
    ensures d < 58 ==> Alphabet(d) == c
  {
    if '1' <= c <= '9' then (c - '1') as nat
    else if 'A' <= c <= 'H' then (c - 'A') as nat + 9
    else if 'J' <= c <= 'N' then (c - 'J') as nat + 17
    else if 'P' <= c <= 'Z' then (c - 'P') as nat + 22
    else if 'a' <= c <= 'k' then (c - 'a') as nat + 33
    else if 'm' <= c <= 'z' then (c - 'm') as nat + 44
    else 58
  }

  lemma PositionOf(d: nat)
    requires d < 58
    ensures Position(Alphabet(d)) == d && !IsSpace(Alphabet(d))
    ensures Alphabet(d) == '1' <==> d == 0
  {
  }

  // All alphanumeric characters except 0, I, O and l.
  lemma AlphabetIff(c: char)
    ensures Position(c) < 58 <==> ('0' <= c <= '9' || 'A' <= c <= 'Z' || 'a' <= c <= 'z') && c !in {'0', 'I', 'O', 'l'}
  {
  }

  // ----- what the two functions compute

  function Zeroes(s: seq<nat>): (z: nat)
    ensures z <= |s| && (z < |s| ==> s[z] != 0)
    ensures forall i :: 0 <= i < z ==> s[i] == 0
  {
    if s != [] && s[0] == 0 then 1 + Zeroes(s[1..]) else 0
  }

  ghost function Text(digits: seq<nat>): (t: string)
    requires Digits(58, digits)
    ensures |t| == |digits|
  {
    seq(|digits|, i requires 0 <= i < |digits| => Alphabet(digits[i]))
  }

  ghost function Values(t: string): (s: seq<nat>)
    ensures |s| == |t|
  {
    seq(|t|, i requires 0 <= i < |t| => Position(t[i]))
  }

  function Repeat<T>(n: nat, x: T): (s: seq<T>)
    ensures |s| == n && forall i :: 0 <= i < n ==> s[i] == x
  {
    seq(n, i => x)
  }

  ghost function Encoded(bytes: seq<nat>): string {
    DigitsOfNum(58, Num(256, bytes));
    Repeat(Zeroes(bytes), '1') + Text(DigitsOf(58, Num(256, bytes)))
  }

  // Length of the leading spaces, and of the text that follows up to the next space.
  function Spaces(s: string): (n: nat)
    ensures n <= |s| && (forall i :: 0 <= i < n ==> IsSpace(s[i])) && (n < |s| ==> !IsSpace(s[n]))
  {
    if s != [] && IsSpace(s[0]) then 1 + Spaces(s[1..]) else 0
  }

  function Word(s: string): (n: nat)
    ensures n <= |s| && (forall i :: 0 <= i < n ==> !IsSpace(s[i])) && (n < |s| ==> IsSpace(s[n]))
  {
    if s != [] && !IsSpace(s[0]) then 1 + Word(s[1..]) else 0
  }

  ghost function Body(s: string): string {
    s[Spaces(s)..][..Word(s[Spaces(s)..])]
  }

  ghost predicate Valid(s: string) {
    && Digits(58, Values(Body(s)))
    && (forall i :: Spaces(s) + |Body(s)| <= i < |s| ==> IsSpace(s[i]))
  }

  ghost function Decoded(s: string): Option<seq<nat>> {
    if Valid(s) then
      Some(Repeat(Zeroes(Values(Body(s))), 0) + DigitsOf(256, Num(58, Values(Body(s)))))
    else None
  }

  // ----- the round trips

  // Zeros followed by the digits of a number, read back.
  lemma Rejoin(base: nat, s: seq<nat>)
    requires base > 1 && Digits(base, s)
    ensures Repeat(Zeroes(s), 0) + DigitsOf(base, Num(base, s)) == s
  {
    var z := Zeroes(s);
    NumZeros(base, s, z);
    DigitsUnique(base, s[z..]);
    assert s == s[..z] + s[z..];
  }

  lemma ZeroesOf(z: nat, s: seq<nat>)
    requires s != [] ==> s[0] != 0
    ensures Zeroes(Repeat(z, 0) + s) == z
  {
    ZeroesUnique(Repeat(z, 0) + s, z);
  }

  lemma {:induction false} ZeroesUnique(s: seq<nat>, z: nat)
    requires z <= |s| && (forall i :: 0 <= i < z ==> s[i] == 0) && (z < |s| ==> s[z] != 0)
    ensures Zeroes(s) == z
  {
    if z > 0 {
      ZeroesUnique(s[1..], z - 1);
    }
  }

  lemma NumRejoined(base: nat, z: nat, s: seq<nat>)
    ensures Num(base, Repeat(z, 0) + s) == Num(base, s)
  {
    NumZeros(base, Repeat(z, 0) + s, z);
    assert (Repeat(z, 0) + s)[z..] == s;
  }

  lemma ValuesOfText(z: nat, digits: seq<nat>)
    requires Digits(58, digits)
    ensures Values(Repeat(z, '1') + Text(digits)) == Repeat(z, 0) + digits
  {
    var t := Repeat(z, '1') + Text(digits);
    forall i | 0 <= i < |t|
      ensures Values(t)[i] == (Repeat(z, 0) + digits)[i]
    {
      if i >= z {
        PositionOf(digits[i - z]);
      } else {
        PositionOf(0);
      }
    }
  }

  lemma NoSpaces(s: string)
    requires forall i :: 0 <= i < |s| ==> !IsSpace(s[i])
    ensures Body(s) == s && Spaces(s) == 0
  {
    assert s[0..] == s;
  }

  // Decoding what was encoded gives the bytes back.
  lemma DecodeEncode(bytes: seq<nat>)
    requires Digits(256, bytes)
    ensures Decoded(Encoded(bytes)) == Some(bytes)
  {
    var z, v := Zeroes(bytes), Num(256, bytes);
    var digits := DigitsOf(58, v);
    DigitsOfNum(58, v);
    var s := Encoded(bytes);
    forall i | 0 <= i < |s|
      ensures !IsSpace(s[i])
    {
      if i >= z {
        PositionOf(digits[i - z]);
      }
    }
    NoSpaces(s);
    ValuesOfText(z, digits);
    ZeroesOf(z, digits);
    NumRejoined(58, z, digits);
    Rejoin(256, bytes);
  }

  // Encoding what a valid string decodes to gives the string without the spaces around it.
  lemma EncodeDecode(s: string)
    requires Valid(s)
    ensures Digits(256, Decoded(s).value) && Encoded(Decoded(s).value) == Body(s)
  {
    var t := Body(s);
    var z, v := Zeroes(Values(t)), Num(58, Values(t));
    DigitsOfNum(256, v);
    ZeroesOf(z, DigitsOf(256, v));
    NumRejoined(256, z, DigitsOf(256, v));
    Rejoin(58, Values(t));
    DigitsOfNum(58, v);
    var e := Encoded(Decoded(s).value);
    assert |e| == |t|;
    forall i | 0 <= i < |t|
      ensures e[i] == t[i]
    {
      assert (Repeat(z, 0) + DigitsOf(58, v))[i] == Values(t)[i] == Position(t[i]);
      PositionOf(0);
    }
  }

  // ----- the buffer sizes

  // 58^7 is just above 2^41.
  lemma EncodeSize(n: nat)
    ensures Pow(256, n) <= Pow(58, n * 138 / 100 + 1)
  {
    hide Pow;
    var k := n * 138 / 100 + 1;
    if Pow(58, k) < Pow(256, n) {
      PowBaseStrict(Pow(58, k), Pow(256, n), 7);
      PowMul(58, k, 7);
      PowMul(58, 7, k);
      PowMul(256, n, 7);
      PowMul(2, 8, 7 * n);
      PowMul(2, 41, k);
      Constants();
      PowBase(Pow(2, 41), Pow(58, 7), k);
      PowMono(2, 56 * n, 41 * k);
    }
  }

  // 58^22 is just below 2^129.
  lemma DecodeSize(n: nat)
    ensures Pow(58, n) <= Pow(256, n * 733 / 1000 + 1)
  {
    hide Pow;
    var k := n * 733 / 1000 + 1;
    if Pow(256, k) < Pow(58, n) {
      PowBaseStrict(Pow(256, k), Pow(58, n), 22);
      PowMul(58, n, 22);
      PowMul(58, 22, n);
      PowMul(256, k, 22);
      PowMul(2, 8, 22 * k);
      PowMul(2, 129, n);
      Constants();
      PowBase(Pow(58, 22), Pow(2, 129), n);
      PowMono(2, 129 * n, 176 * k);
    }
  }

  lemma PowIs(b: nat, m: nat, n: nat, x: nat, y: nat)
    requires Pow(b, m) == x && Pow(b, n) == y
    ensures Pow(b, m + n) == x * y
  {
    PowAdd(b, m, n);
  }

  lemma Constants()
    ensures Pow(2, 8) == 256 && Pow(2, 41) <= Pow(58, 7) && Pow(58, 22) <= Pow(2, 129)
  {
    hide Pow;
    SmallPowers();
    PowIs(2, 8, 8, 256, 256);
    PowIs(2, 16, 16, 65536, 65536);
    PowIs(2, 32, 8, 4294967296, 256);
    PowIs(2, 40, 1, 1099511627776, 2);
    PowIs(2, 32, 32, 4294967296, 4294967296);
    PowIs(2, 64, 64, 18446744073709551616, 18446744073709551616);
    PowIs(2, 128, 1, 340282366920938463463374607431768211456, 2);
    PowIs(58, 3, 3, 195112, 195112);
    PowIs(58, 6, 1, 38068692544, 58);
    PowIs(58, 6, 6, 38068692544, 38068692544);
    PowIs(58, 12, 6, 1449225352009601191936, 38068692544);
    PowIs(58, 18, 3, 55170114352623680311867516125184, 195112);
    PowIs(58, 21, 1, 10764351351569111513009094806216900608, 58);
  }

  lemma SmallPowers()
    ensures Pow(2, 1) == 2 && Pow(2, 8) == 256 && Pow(58, 1) == 58 && Pow(58, 3) == 195112
  {
    assert Pow(58, 2) == 3364;
  }
}
