// EncodeBase58 and DecodeBase58 as they are written: a buffer of digits in the new base,
// multiplied and added to in place, one input digit at a time.
module Base58Codec {
  import opened Bits
  import opened Radix
  import opened Base58

  // The digits from i on, and the carry, are factor times the old ones plus ch.
  ghost predicate Scaled(base: nat, was: seq<nat>, now: seq<nat>, i: nat, carry: nat, factor: nat, ch: nat) {
    && i <= |was| == |now|
    && Num(base, now[i..]) + carry * Pow(base, |was| - i) == Num(base, was[i..]) * factor + ch
  }

  lemma ScaledStep(base: nat, was: seq<nat>, now: seq<nat>, i: nat, carry: nat, factor: nat, ch: nat)
    requires base > 0 && 0 < i && Scaled(base, was, now, i, carry, factor, ch)
    ensures var n := carry + factor * was[i - 1];
            0 <= n && Scaled(base, was, now[i - 1 := n % base], i - 1, n / base, factor, ch)
  {
    MulNonneg(factor, was[i - 1]);
    var n: nat := carry + factor * was[i - 1];
    var now' := now[i - 1 := n % base];
    assert now'[i - 1..][1..] == now[i..] && was[i - 1..][1..] == was[i..];
    ScaledDigit(base, Pow(base, |was| - i), n, carry, factor, was[i - 1]);
    MulPlus(was[i - 1] * Pow(base, |was| - i), Num(base, was[i..]), factor);
  }

  lemma ScaledDigit(base: nat, p: nat, n: nat, carry: nat, factor: nat, d: nat)
    requires base > 0 && n == carry + factor * d
    ensures (n % base) * p + (n / base) * (base * p) == carry * p + (d * p) * factor
  {
    assert n == (n / base) * base + n % base;
    MulPlus(n / base * base, n % base, p);
    MulAssoc(n / base, base, p);
    MulPlus(carry, factor * d, p);
    MulAssoc(d, p, factor);
    MulAssoc(factor, d, p);
  }

  // buf = buf * factor + ch, most significant digit first; what does not fit is returned.
  method Apply(buf: array<nat>, base: nat, factor: nat, ch: nat) returns (carry: nat)
    requires base > 0 && ch < factor && Digits(base, buf[..])
    modifies buf
    ensures Digits(base, buf[..]) && carry < factor
    ensures Num(base, buf[..]) + carry * Pow(base, buf.Length) == Num(base, old(buf[..])) * factor + ch
  {
    hide Num, Pow, Scaled;
    ghost var was := buf[..];
    carry := ch;
    ScaledStarts(base, was, factor, ch);
    for i := buf.Length downto 0
      invariant Digits(base, buf[..]) && carry < factor
      invariant buf[..i] == was[..i] && Scaled(base, was, buf[..], i, carry, factor, ch)
    {
      assert buf[i] == was[i];
      ghost var now := buf[..];
      ScaledStep(base, was, now, i + 1, carry, factor, ch);
      CarryBound(base, factor, carry, buf[i]);
      carry := carry + factor * buf[i];
      buf[i] := carry % base;
      carry := carry / base;
      assert buf[..] == now[i := buf[i]];
    }
    ScaledEnds(base, was, buf[..], carry, factor, ch);
  }

  lemma ScaledStarts(base: nat, was: seq<nat>, factor: nat, ch: nat)
    ensures Scaled(base, was, was, |was|, ch, factor, ch)
  {
  }

  lemma ScaledEnds(base: nat, was: seq<nat>, now: seq<nat>, carry: nat, factor: nat, ch: nat)
    requires Scaled(base, was, now, 0, carry, factor, ch)
    ensures Num(base, now) + carry * Pow(base, |was|) == Num(base, was) * factor + ch
  {
    assert now[0..] == now && was[0..] == was;
  }

  lemma CarryBound(base: nat, factor: nat, carry: nat, d: nat)
    requires base > 0 && carry < factor && d < base
    ensures 0 <= factor * d && 0 <= (carry + factor * d) / base < factor
  {
    MulNonneg(factor, d);
    MulMono(d + 1, base, factor);
    var n := carry + factor * d;
    assert n < factor * base;
    var q := n / base;
    assert n == q * base + n % base;
    if q >= factor {
      MulMono(factor, q, base);
    }
  }

  // The whole number fits the buffer, so nothing is carried out of it.
  lemma NoCarry(base: nat, buf: seq<nat>, carry: nat, v: nat, bound: nat)
    requires Num(base, buf) + carry * Pow(base, |buf|) == v && v < bound <= Pow(base, |buf|)
    ensures carry == 0
  {
    if carry > 0 {
      MulMono(1, carry, Pow(base, |buf|));
    }
  }

  // The input digits read so far stay below the bound.
  lemma PrefixBound(base: nat, s: seq<nat>, k: nat)
    requires base > 0 && Digits(base, s) && k <= |s|
    ensures Num(base, s[..k]) < Pow(base, |s|)
  {
    NumBound(base, s[..k]);
    PowMono(base, k, |s|);
  }

  lemma ReadDigit(base: nat, s: seq<nat>, k: nat)
    requires k < |s|
    ensures Num(base, s[..k + 1]) == Num(base, s[..k]) * base + s[k]
  {
    assert s[..k + 1] == s[..k] + [s[k]];
    NumSnoc(base, s[..k], s[k]);
  }

  // Skipping leading zeros of the buffer leaves the digits of its number.
  method SkipZeros(buf: array<nat>, base: nat) returns (i: nat)
    requires base > 1 && Digits(base, buf[..])
    ensures i <= buf.Length && buf[i..] == DigitsOf(base, Num(base, buf[..]))
  {
    i := 0;
    while i != buf.Length && buf[i] == 0
      invariant i <= buf.Length && forall j :: 0 <= j < i ==> buf[j] == 0
    {
      i := i + 1;
    }
    NumZeros(base, buf[..], i);
    assert buf[..][i..] == buf[i..];
    DigitsUnique(base, buf[i..]);
  }

  // Every digit read goes into the buffer without overflowing it.
  method Convert(s: seq<nat>, from: nat, buf: array<nat>, base: nat)
    requires from > 0 && base > 0 && Digits(from, s)
    requires forall i :: 0 <= i < buf.Length ==> buf[i] == 0
    requires Pow(from, |s|) <= Pow(base, buf.Length)
    modifies buf
    ensures Digits(base, buf[..]) && Num(base, buf[..]) == Num(from, s)
  {
    hide Num, Pow;
    ZeroBuffer(base, buf[..]);
    NumEmpty(from);
    assert s[..0] == [];
    for k := 0 to |s|
      invariant Digits(base, buf[..]) && Num(base, buf[..]) == Num(from, s[..k])
    {
      ReadDigit(from, s, k);
      PrefixBound(from, s, k + 1);
      ghost var was := Num(base, buf[..]);
      var carry := Apply(buf, base, from, s[k]);
      NoCarry(base, buf[..], carry, Num(from, s[..k + 1]), Pow(from, |s|));
      assert carry == 0;
    }
    assert s[..|s|] == s;
  }

  lemma ZeroBuffer(base: nat, s: seq<nat>)
    requires base > 0 && forall i :: 0 <= i < |s| ==> s[i] == 0
    ensures Digits(base, s) && Num(base, s) == 0
  {
    NumZeros(base, s, |s|);
  }

  lemma NumEmpty(base: nat)
    ensures Num(base, []) == 0
  {
  }

  method EncodeBase58(bytes: seq<nat>) returns (str: string)
    requires Digits(256, bytes)
    ensures str == Encoded(bytes)
  {
    hide Num, Pow, Alphabet, DigitsOf;
    var zeroes := 0;
    while zeroes < |bytes| && bytes[zeroes] == 0
      invariant zeroes <= |bytes| && forall i :: 0 <= i < zeroes ==> bytes[i] == 0
    {
      zeroes := zeroes + 1;
    }
    ZeroesUnique(bytes, zeroes);
    NumZeros(256, bytes, zeroes);
    var rest := bytes[zeroes..];
    var b58 := new nat[|rest| * 138 / 100 + 1](i => 0);
    EncodeSize(|rest|);
    Convert(rest, 256, b58, 58);
    var it := SkipZeros(b58, 58);
    str := Translate(b58, it);
    str := Repeat(zeroes, '1') + str;
  }

  method Translate(b58: array<nat>, from: nat) returns (str: string)
    requires from <= b58.Length && Digits(58, b58[..])
    ensures Digits(58, b58[from..]) && str == Text(b58[from..])
  {
    hide Alphabet;
    str := [];
    assert forall i :: 0 <= i < b58.Length - from ==> b58[from..][i] == b58[..][from + i];
    for it := from to b58.Length
      invariant |str| == it - from && forall i :: 0 <= i < |str| ==> str[i] == Text(b58[from..])[i]
    {
      str := str + [Alphabet(b58[it])];
    }
  }

  // The text up to the next space, read from position from.
  ghost function WordAt(psz: string, from: nat): string
    requires from <= |psz|
  {
    psz[from..][..Word(psz[from..])]
  }

  lemma {:induction false} WordSkips(s: string, z: nat)
    requires z <= |s| && forall i :: 0 <= i < z ==> !IsSpace(s[i])
    ensures Word(s) == z + Word(s[z..])
  {
    if z > 0 {
      WordSkips(s[1..], z - 1);
      assert s[1..][z - 1..] == s[z..];
    } else {
      assert s[0..] == s;
    }
  }

  lemma {:induction false} SpacesSkip(s: string, z: nat)
    requires z <= |s| && forall i :: 0 <= i < z ==> IsSpace(s[i])
    requires z < |s| ==> !IsSpace(s[z])
    ensures Spaces(s) == z
  {
    if z > 0 {
      SpacesSkip(s[1..], z - 1);
    }
  }

  // The leading ones of the text stand for zeros.
  lemma LeadingOnes(psz: string, start: nat, z: nat)
    requires start == Spaces(psz) && start + z <= |psz|
    requires forall i :: start <= i < start + z ==> psz[i] == '1'
    requires start + z < |psz| ==> psz[start + z] != '1'
    ensures var w := WordAt(psz, start + z);
            && |Body(psz)| == z + |w| && Values(Body(psz)) == Repeat(z, 0) + Values(w)
            && Zeroes(Values(Body(psz))) == z && Num(58, Values(Body(psz))) == Num(58, Values(w))
            && (Digits(58, Values(Body(psz))) <==> Digits(58, Values(w)))
  {
    hide Num, Position, IsSpace, Zeroes, Word, Spaces;
    var t, w := psz[start..], WordAt(psz, start + z);
    assert forall i :: 0 <= i < z ==> t[i] == psz[start + i];
    WordSkips(t, z);
    assert t[z..] == psz[start + z..];
    PositionOf(0);
    var v := Values(Body(psz));
    assert v == Repeat(z, 0) + Values(w);
    if w != [] {
      assert w[0] == psz[start + z];
      OnlyOneIsZero(w[0]);
    }
    ZeroesOf(z, Values(w));
    NumRejoined(58, z, Values(w));
    OnesValid(z, v, Values(w));
  }

  lemma OnlyOneIsZero(c: char)
    ensures Position(c) == 0 <==> c == '1'
  {
  }

  lemma OnesValid(z: nat, v: seq<nat>, w: seq<nat>)
    requires v == Repeat(z, 0) + w
    ensures Digits(58, v) <==> Digits(58, w)
  {
    if Digits(58, v) {
      forall i | 0 <= i < |w|
        ensures w[i] < 58
      {
        assert v[z + i] == w[i];
      }
    }
  }

  // One character at a time; an unknown one fails.
  method ReadWord(psz: string, from: nat, b256: array<nat>) returns (ok: bool, p: nat)
    requires from <= |psz| && forall i :: 0 <= i < b256.Length ==> b256[i] == 0
    requires Pow(58, |psz| - from) <= Pow(256, b256.Length)
    modifies b256
    ensures ok <==> Digits(58, Values(WordAt(psz, from)))
    ensures ok ==>
              && p == from + |WordAt(psz, from)| <= |psz|
              && Digits(256, b256[..]) && Num(256, b256[..]) == Num(58, Values(WordAt(psz, from)))
  {
    hide Num, Pow, Position, IsSpace;
    ZeroBuffer(256, b256[..]);
    NumEmpty(58);
    p := from;
    assert psz[from..p] == [];
    while p < |psz| && !IsSpace(psz[p])
      invariant from <= p <= |psz|
      invariant forall i :: from <= i < p ==> !IsSpace(psz[i])
      invariant Digits(58, Values(psz[from..p]))
      invariant Digits(256, b256[..]) && Num(256, b256[..]) == Num(58, Values(psz[from..p]))
      modifies b256
    {
      var ch := Position(psz[p]);
      if ch == 58 {
        BadWord(psz, from, p);
        return false, p;
      }
      ghost var v := Values(psz[from..p + 1]);
      assert v == Values(psz[from..p]) + [ch];
      NumSnoc(58, Values(psz[from..p]), ch);
      NumBound(58, v);
      PowMono(58, |v|, |psz| - from);
      var carry := Apply(b256, 256, 58, ch);
      NoCarry(256, b256[..], carry, Num(58, v), Pow(58, |psz| - from));
      assert carry == 0;
      p := p + 1;
    }
    WordEnds(psz, from, p);
    ok := true;
  }

  lemma WordEnds(psz: string, from: nat, p: nat)
    requires from <= p <= |psz| && (forall i :: from <= i < p ==> !IsSpace(psz[i]))
    requires p < |psz| ==> IsSpace(psz[p])
    ensures WordAt(psz, from) == psz[from..p]
  {
    var t := psz[from..];
    assert forall i :: 0 <= i < p - from ==> t[i] == psz[from + i];
    WordSkips(t, p - from);
    assert t[p - from..] == psz[p..];
  }

  lemma BadWord(psz: string, from: nat, p: nat)
    requires from <= p < |psz| && (forall i :: from <= i <= p ==> !IsSpace(psz[i])) && Position(psz[p]) == 58
    ensures !Digits(58, Values(WordAt(psz, from)))
  {
    var t := psz[from..];
    assert forall i :: 0 <= i <= p - from ==> t[i] == psz[from + i];
    WordSkips(t, p - from + 1);
    assert Values(WordAt(psz, from))[p - from] == 58;
  }

  method DecodeBase58(psz: string) returns (ok: bool, vch: seq<nat>)
    requires '\0' !in psz
    ensures ok <==> Valid(psz)
    ensures ok ==> Decoded(psz) == Some(vch)
  {
    hide Num, Pow, Position, IsSpace, Digits, Values, DigitsOf, Zeroes, Spaces, Body, WordAt;
    var p := 0;
    while p < |psz| && IsSpace(psz[p])
      invariant p <= |psz| && forall i :: 0 <= i < p ==> IsSpace(psz[i])
    {
      p := p + 1;
    }
    ghost var start := p;
    SpacesSkip(psz, start);
    var zeroes := 0;
    while p < |psz| && psz[p] == '1'
      invariant p == start + zeroes && p <= |psz|
      invariant forall i :: start <= i < p ==> psz[i] == '1'
    {
      zeroes := zeroes + 1;
      p := p + 1;
    }
    LeadingOnes(psz, start, zeroes);
    DecodeSize(|psz| - p);
    var b256 := new nat[(|psz| - p) * 733 / 1000 + 1](i => 0);
    ok, p := ReadWord(psz, p, b256);
    if !ok {
      return false, [];
    }
    ghost var ends := p;
    while p < |psz| && IsSpace(psz[p])
      invariant ends <= p <= |psz| && forall i :: ends <= i < p ==> IsSpace(psz[i])
    {
      p := p + 1;
    }
    ValidEnd(psz, ends, p);
    if p != |psz| {
      return false, [];
    }
    var it := SkipZeros(b256, 256);
    vch := Repeat(zeroes, 0) + b256[it..];
  }

  lemma ValidEnd(psz: string, ends: nat, p: nat)
    requires ends == Spaces(psz) + |Body(psz)| <= p <= |psz| && Digits(58, Values(Body(psz)))
    requires forall i :: ends <= i < p ==> IsSpace(psz[i])
    requires p < |psz| ==> !IsSpace(psz[p])
    ensures Valid(psz) <==> p == |psz|
  {
  }
}
