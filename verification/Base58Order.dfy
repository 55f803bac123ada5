// What ties the text to its number: the alphabet is in order, and so are the texts.
module Base58Order {
  import opened Bits
  import opened Radix
  import opened Base58

  // With AlphabetIff this determines the table.
  lemma AlphabetIncreasing(d: nat, e: nat)
    requires d < e < 58
    ensures Alphabet(d) < Alphabet(e)
  {
  }

  lemma {:induction false} NumSplit(base: nat, s: seq<nat>, k: nat)
    requires k <= |s|
    ensures Num(base, s) == Num(base, s[..k]) * Pow(base, |s| - k) + Num(base, s[k..])
  {
    if k == 0 {
      assert s[0..] == s;
    } else {
      assert s[1..][..k - 1] == s[..k][1..] && s[1..][k - 1..] == s[k..];
      NumSplit(base, s[1..], k - 1);
      PowAdd(base, k - 1, |s| - k);
      MulAssoc(s[0], Pow(base, k - 1), Pow(base, |s| - k));
      MulPlus(s[0] * Pow(base, k - 1), Num(base, s[..k][1..]), Pow(base, |s| - k));
    }
  }

  // The first digit in which two lists differ decides.
  lemma FirstDigit(base: nat, s: seq<nat>, t: seq<nat>, k: nat)
    requires Digits(base, s) && Digits(base, t) && k < |s| == |t| && s[..k] == t[..k] && s[k] < t[k]
    ensures Num(base, s) < Num(base, t)
  {
    var p := Pow(base, |s| - k - 1);
    NumSplit(base, s, k);
    NumSplit(base, t, k);
    assert s[k..][1..] == s[k + 1..] && t[k..][1..] == t[k + 1..];
    NumBound(base, s[k + 1..]);
    MulMono(s[k] + 1, t[k], p);
    MulPlus(s[k], 1, p);
  }

  // In the dictionary, of two texts of one length.
  ghost predicate Before(s: string, t: string) {
    |s| == |t| && exists k :: 0 <= k < |s| && s[..k] == t[..k] && s[k] < t[k]
  }

  lemma {:induction false} SomeBefore(s: string, t: string)
    requires |s| == |t|
    ensures s == t || Before(s, t) || Before(t, s)
  {
    if s != t {
      var i :| 0 <= i < |s| && s[i] != t[i];
      var k := FirstDifference(s, t, i);
    }
  }

  lemma {:induction false} FirstDifference(s: string, t: string, i: nat) returns (k: nat)
    requires i < |s| == |t| && s[i] != t[i]
    ensures k < |s| && s[..k] == t[..k] && s[k] != t[k]
    decreases i
  {
    if j :| 0 <= j < i && s[j] != t[j] {
      k := FirstDifference(s, t, j);
    } else {
      k := i;
    }
  }

  lemma BeforeIsLess(s: string, t: string)
    requires Digits(58, Values(s)) && Digits(58, Values(t)) && Before(s, t)
    ensures Num(58, Values(s)) < Num(58, Values(t))
  {
    var k :| 0 <= k < |s| && s[..k] == t[..k] && s[k] < t[k];
    var u, v := Values(s), Values(t);
    forall i | 0 <= i < k
      ensures u[i] == v[i]
    {
      assert s[i] == s[..k][i] == t[i];
    }
    assert u[..k] == v[..k];
    if v[k] < u[k] {
      AlphabetIncreasing(v[k], u[k]);
    }
    assert Alphabet(u[k]) == s[k] && Alphabet(v[k]) == t[k];
    FirstDigit(58, u, v, k);
  }

  // Texts of one length are in the order of their numbers.
  lemma OrderIff(s: string, t: string)
    requires Digits(58, Values(s)) && Digits(58, Values(t)) && |s| == |t|
    ensures Before(s, t) <==> Num(58, Values(s)) < Num(58, Values(t))
  {
    SomeBefore(s, t);
    if Before(s, t) {
      BeforeIsLess(s, t);
    } else if Before(t, s) {
      BeforeIsLess(t, s);
    }
  }

  lemma NumOfEncoded(bytes: seq<nat>)
    ensures Digits(58, Values(Encoded(bytes))) && Num(58, Values(Encoded(bytes))) == Num(256, bytes)
  {
    var z, digits := Zeroes(bytes), DigitsOf(58, Num(256, bytes));
    DigitsOfNum(58, Num(256, bytes));
    ValuesOfText(z, digits);
    NumRejoined(58, z, digits);
  }

  // Encodings of one length are in the order of the bytes read as big-endian numbers.
  lemma EncodedOrderIff(a: seq<nat>, b: seq<nat>)
    requires |Encoded(a)| == |Encoded(b)|
    ensures Before(Encoded(a), Encoded(b)) <==> Num(256, a) < Num(256, b)
  {
    NumOfEncoded(a);
    NumOfEncoded(b);
    OrderIff(Encoded(a), Encoded(b));
  }

  // Reading digits one by one.
  function Read(base: nat, v: nat, s: seq<nat>): nat
    decreases |s|
  {
    if s == [] then v else MulNonneg(v, base); Read(base, v * base + s[0], s[1..])
  }

  lemma {:induction false} ReadNum(base: nat, t: seq<nat>, s: seq<nat>)
    ensures Read(base, Num(base, t), s) == Num(base, t + s)
    decreases |s|
  {
    if s == [] {
      assert t + s == t;
    } else {
      NumSnoc(base, t, s[0]);
      ReadNum(base, t + [s[0]], s[1..]);
      assert t + [s[0]] + s[1..] == t + s;
    }
  }

  lemma NumIsRead(base: nat, s: seq<nat>)
    ensures Num(base, s) == Read(base, 0, s)
  {
    ReadNum(base, [], s);
    assert [] + s == s;
  }

  lemma EncodedIs(bytes: seq<nat>, digits: seq<nat>, t: string)
    requires Digits(58, digits) && digits != [] && digits[0] != 0 && Zeroes(bytes) == 0
    requires Num(256, bytes) == Num(58, digits) && t == Text(digits)
    ensures Encoded(bytes) == t
  {
    DigitsUnique(58, digits);
  }

  lemma ReadFour(base: nat, s: seq<nat>)
    requires |s| == 4
    ensures Read(base, 0, s) == ((s[0] * base + s[1]) * base + s[2]) * base + s[3]
  {
    var a := s[0] * base + s[1];
    MulNonneg(s[0], base);
    MulNonneg(a, base);
    assert Read(base, 0, s) == Read(base, s[0], s[1..]) == Read(base, a, s[2..]);
    assert Read(base, a, s[2..]) == Read(base, a * base + s[2], s[3..]);
    var b: nat := a * base + s[2];
    MulNonneg(b, base);
    assert s[3..] == [s[3]] && s[3..][1..] == [];
    assert Read(base, b, s[3..]) == Read(base, b * base + s[3], []);
  }

  // Three of the documented encodings.
  lemma Examples()
    ensures Encoded([0x61]) == "2g"
    ensures Encoded([0x62, 0x62, 0x62]) == "a3gV"
    ensures Encoded([0, 0, 0, 0, 0, 0, 0, 0, 0, 0]) == "1111111111"
  {
    hide Num;
    NumIsRead(256, [0x61]);
    NumIsRead(58, [1, 39]);
    EncodedIs([0x61], [1, 39], "2g");
    ReadFour(256, [0, 0x62, 0x62, 0x62]);
    NumIsRead(256, [0, 0x62, 0x62, 0x62]);
    NumZeros(256, [0, 0x62, 0x62, 0x62], 1);
    NumIsRead(58, [33, 2, 39, 28]);
    ReadFour(58, [33, 2, 39, 28]);
    EncodedIs([0x62, 0x62, 0x62], [33, 2, 39, 28], "a3gV");
    var zeros := [0, 0, 0, 0, 0, 0, 0, 0, 0, 0];
    ZeroesUnique(zeros, 10);
    NumZeros(256, zeros, 10);
    NumIsRead(256, []);
  }
}
