// Compressed scripts and outputs: six special scripts by tag, all others with their length.
module ScriptCodec {
  import opened Bits
  import opened VarInt
  import opened Compressor
  import opened CoinsCache

  const OP_DUP: Byte := 0x76
  const OP_EQUAL: Byte := 0x87
  const OP_EQUALVERIFY: Byte := 0x88
  const OP_HASH160: Byte := 0xa9
  const OP_CHECKSIG: Byte := 0xac
  const SPECIAL_SCRIPTS := 6

  // The public-key library: which 65-byte keys are valid, and the decompression of 33-byte
  // ones, empty when it fails.
  datatype Keys = Keys(fullyValid: seq<Byte> -> bool, decompress: seq<Byte> -> seq<Byte>)

  function Short(p: seq<Byte>): (k: seq<Byte>)
    requires |p| == 65
  {
    [2 + p[64] % 2] + p[1..33]
  }

  // A valid key is found again from its first coordinate and the parity of the second.
  ghost predicate KeysOk(keys: Keys) {
    && (forall p: seq<Byte> :: |p| == 65 && p[0] == 4 && keys.fullyValid(p) ==> keys.decompress(Short(p)) == p)
    && (forall k: seq<Byte> :: keys.decompress(k) == [] || |keys.decompress(k)| == 65)
  }

  predicate IsToKeyID(s: seq<Byte>) {
    && |s| == 25 && s[0] == OP_DUP && s[1] == OP_HASH160 && s[2] == 20
    && s[23] == OP_EQUALVERIFY && s[24] == OP_CHECKSIG
  }

  predicate IsToScriptID(s: seq<Byte>) {
    |s| == 23 && s[0] == OP_HASH160 && s[1] == 20 && s[22] == OP_EQUAL
  }

  predicate IsToShortKey(s: seq<Byte>) {
    |s| == 35 && s[0] == 33 && s[34] == OP_CHECKSIG && (s[1] == 2 || s[1] == 3)
  }

  predicate IsToLongKey(keys: Keys, s: seq<Byte>) {
    |s| == 67 && s[0] == 65 && s[66] == OP_CHECKSIG && s[1] == 4 && keys.fullyValid(s[1..66])
  }

  // The compressed script, or nothing when there is no special form.
  function Compress(keys: Keys, s: seq<Byte>): (out: seq<Byte>)
    ensures out != [] ==> out[0] < SPECIAL_SCRIPTS && |out| == 1 + GetSpecialSize(out[0])
  {
    if IsToKeyID(s) then [0] + s[3..23]
    else if IsToScriptID(s) then [1] + s[2..22]
    else if IsToShortKey(s) then [s[1]] + s[2..34]
    else if IsToLongKey(keys, s) then [4 + s[65] % 2] + s[2..34]
    else []
  }

  function GetSpecialSize(nSize: nat): nat {
    if nSize == 0 || nSize == 1 then 20 else if 2 <= nSize <= 5 then 32 else 0
  }

  // The script a tag and its data stand for; the script stays as it was for an invalid key.
  function Decompress(keys: Keys, nSize: nat, data: seq<Byte>, script: seq<Byte>): seq<Byte>
    requires nSize < SPECIAL_SCRIPTS && |data| == GetSpecialSize(nSize)
  {
    if nSize == 0 then [OP_DUP, OP_HASH160, 20] + data + [OP_EQUALVERIFY, OP_CHECKSIG]
    else if nSize == 1 then [OP_HASH160, 20] + data + [OP_EQUAL]
    else if nSize <= 3 then [33, nSize] + data + [OP_CHECKSIG]
    else
      var pubkey := keys.decompress([nSize - 2] + data);
      if pubkey == [] then script else [65] + pubkey + [OP_CHECKSIG]
  }

  // Decompressing a special form gives the script.
  lemma DecompressCompress(keys: Keys, s: seq<Byte>, script: seq<Byte>)
    requires KeysOk(keys) && Compress(keys, s) != []
    ensures var out := Compress(keys, s); Decompress(keys, out[0], out[1..], script) == s
  {
    var out := Compress(keys, s);
    if IsToKeyID(s) {
      assert s == s[..3] + s[3..23] + s[23..];
    } else if IsToScriptID(s) {
      assert s == s[..2] + s[2..22] + s[22..];
    } else if IsToShortKey(s) {
      assert s == s[..2] + s[2..34] + s[34..];
    } else {
      var p := s[1..66];
      assert p[1..33] == s[2..34];
      assert [out[0] - 2] + out[1..] == Short(p);
      assert s == [s[0]] + p + [s[66]];
    }
  }

  // ----- streams

  function ScriptBytes(keys: Keys, s: seq<Byte>): (b: seq<Byte>)
    ensures b != []
  {
    var compr := Compress(keys, s);
    if compr != [] then compr else VarIntOf(|s| + SPECIAL_SCRIPTS) + s
  }

  datatype ReadScript = NoScript | Script(script: seq<Byte>, used: nat)

  function ScriptFrom(keys: Keys, s: seq<Byte>, script: seq<Byte>): (r: ReadScript)
    ensures r.Script? ==> r.used <= |s|
  {
    match ReadVarInt(s)
    case Failed => NoScript
    case Number(nSize, used) =>
      if nSize < SPECIAL_SCRIPTS then
        var n := GetSpecialSize(nSize);
        if used + n > |s| then NoScript else Script(Decompress(keys, nSize, s[used..used + n], script), used + n)
      else
        var n := nSize - SPECIAL_SCRIPTS;
        if used + n > |s| then NoScript else Script(s[used..used + n], used + n)
  }

  // Every script comes back, and its bytes are all that is read.
  lemma ScriptRoundTrip(keys: Keys, s: seq<Byte>, rest: seq<Byte>, script: seq<Byte>)
    requires KeysOk(keys)
    ensures ScriptFrom(keys, ScriptBytes(keys, s) + rest, script) == Script(s, |ScriptBytes(keys, s)|)
  {
    var compr, b := Compress(keys, s), ScriptBytes(keys, s);
    hide Compress, Decompress;
    if compr != [] {
      DecompressCompress(keys, s, script);
      assert VarIntOf(compr[0]) == [compr[0]];
      ReadWritten(compr[0], compr[1..] + rest);
      assert compr + rest == VarIntOf(compr[0]) + (compr[1..] + rest);
      assert (compr + rest)[1..|compr|] == compr[1..];
    } else {
      var n := VarIntOf(|s| + SPECIAL_SCRIPTS);
      ReadWritten(|s| + SPECIAL_SCRIPTS, s + rest);
      assert b + rest == n + (s + rest);
      assert (b + rest)[|n|..|n| + |s|] == s;
    }
  }

  // An output in the range of money.
  predicate MoneyOut(out: TxOut) {
    0 <= out.nValue <= MAX_MONEY
  }

  function OutBytes(keys: Keys, out: TxOut): (b: seq<Byte>)
    requires out.nValue >= 0
  {
    VarIntOf(Compressed(out.nValue) % WRAP) + ScriptBytes(keys, out.script)
  }

  datatype ReadOut = NoOut | Out(out: TxOut, used: nat)

  // Into a fresh output.
  function OutFrom(keys: Keys, s: seq<Byte>): (r: ReadOut)
    ensures r.Out? ==> r.used <= |s|
  {
    match ReadVarInt(s)
    case Failed => NoOut
    case Number(nVal, used) =>
      match ScriptFrom(keys, s[used..], [])
      case NoScript => NoOut
      case Script(script, more) => Out(TxOut(Decompressed(nVal) % WRAP, script), used + more)
  }

  lemma OutRoundTrip(keys: Keys, out: TxOut, rest: seq<Byte>)
    requires KeysOk(keys) && MoneyOut(out)
    ensures OutFrom(keys, OutBytes(keys, out) + rest) == Out(out, |OutBytes(keys, out)|)
  {
    hide Compressed, Decompressed, ScriptBytes, ScriptFrom, VarIntOf, ReadVarInt;
    NoOverflow(out.nValue);
    Compressor.DecompressCompress(out.nValue);
    var n := VarIntOf(Compressed(out.nValue));
    ReadWritten(Compressed(out.nValue), ScriptBytes(keys, out.script) + rest);
    ScriptRoundTrip(keys, out.script, rest, []);
    assert OutBytes(keys, out) + rest == n + (ScriptBytes(keys, out.script) + rest);
    assert (OutBytes(keys, out) + rest)[|n|..] == ScriptBytes(keys, out.script) + rest;
  }
}
