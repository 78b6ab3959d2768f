/** Script compression (compress.go): standard scripts by type, all others behind their length. */
module ScriptCompression {
  import opened Base
  import opened Compression

  const OP_DATA_20: Byte := 0x14
  const OP_DATA_33: Byte := 0x21
  const OP_DATA_65: Byte := 0x41
  const OP_DUP: Byte := 0x76
  const OP_EQUAL: Byte := 0x87
  const OP_EQUALVERIFY: Byte := 0x88
  const OP_HASH160: Byte := 0xA9
  const OP_CHECKSIG: Byte := 0xAC

  const PAY_TO_PUB_KEY_HASH: Byte := 0
  const PAY_TO_SCRIPT_HASH: Byte := 1
  const NUM_SPECIAL_SCRIPTS := 6

  // ---------------------------------------------------------------------------
  // What a codec has to keep

  /** How a script is written, how long the script at the front of some bytes is, and how it is read. */
  datatype ScriptCodec = ScriptCodec(
    encode: seq<Byte> -> seq<Byte>,
    size: seq<Byte> -> nat,
    decode: seq<Byte> -> seq<Byte>)

  /** The length of a slice is a signed 64-bit integer. */
  ghost predicate SliceLength(script: seq<Byte>)
  {
    |script| < TWO_TO_THE_64 / 2
  }

  /** It writes at least one byte, and reads back exactly the bytes it wrote. */
  ghost predicate Lawful(c: ScriptCodec)
  {
    && (forall script :: SliceLength(script) ==> |c.encode(script)| > 0 && c.decode(c.encode(script)) == script)
    && (forall script, rest :: SliceLength(script) ==> c.size(c.encode(script) + rest) == |c.encode(script)|)
  }

  // ---------------------------------------------------------------------------
  // The codec

  /** What `ParsePubKey` says of serialized public keys, and the uncompressed form of those it can read. */
  datatype Curve = Curve(valid: seq<Byte> -> bool, uncompressed: seq<Byte> -> Option<seq<Byte>>)

  /** An uncompressed key is determined by its x coordinate and the parity of the other. */
  ghost predicate CurveOk(curve: Curve)
  {
    forall key: seq<Byte> :: |key| == 65 && key[0] == 4 && curve.valid(key) ==>
      curve.uncompressed([2 + key[64] % 2] + key[1..33]) == Some(key)
  }

  predicate IsPubKeyHash(s: seq<Byte>)
  {
    && |s| == 25 && s[0] == OP_DUP && s[1] == OP_HASH160 && s[2] == OP_DATA_20
    && s[23] == OP_EQUALVERIFY && s[24] == OP_CHECKSIG
  }

  predicate IsScriptHash(s: seq<Byte>)
  {
    |s| == 23 && s[0] == OP_HASH160 && s[1] == OP_DATA_20 && s[22] == OP_EQUAL
  }

  predicate IsCompressedPubKey(curve: Curve, s: seq<Byte>)
  {
    && |s| == 35 && s[0] == OP_DATA_33 && s[34] == OP_CHECKSIG && (s[1] == 2 || s[1] == 3)
    && curve.valid(s[1..34])
  }

  predicate IsUncompressedPubKey(curve: Curve, s: seq<Byte>)
  {
    |s| == 67 && s[0] == OP_DATA_65 && s[66] == OP_CHECKSIG && s[1] == 4 && curve.valid(s[1..66])
  }

  /** `putCompressedScript`. */
  function CompressScript(curve: Curve, s: seq<Byte>): seq<Byte>
  {
    if IsPubKeyHash(s) then [PAY_TO_PUB_KEY_HASH] + s[3..23]
    else if IsScriptHash(s) then [PAY_TO_SCRIPT_HASH] + s[2..22]
    else if IsCompressedPubKey(curve, s) then [s[1]] + s[2..34]
    else if IsUncompressedPubKey(curve, s) then [4 + s[65] % 2] + s[2..34]
    else Vlq(|s| + NUM_SPECIAL_SCRIPTS) + s
  }

  /** `compressedScriptSize`. */
  function CompressedScriptSize(curve: Curve, s: seq<Byte>): nat
  {
    if IsPubKeyHash(s) || IsScriptHash(s) then 21
    else if IsCompressedPubKey(curve, s) || IsUncompressedPubKey(curve, s) then 33
    else |Vlq(|s| + NUM_SPECIAL_SCRIPTS)| + |s|
  }

  /** `decodeCompressedScriptSize`. */
  function DecodeScriptSize(b: seq<Byte>): nat
  {
    var (n, k) := DecodeVlq(b);
    if k == 0 then 0
    else if n < 2 then 21
    else if n < NUM_SPECIAL_SCRIPTS then 33
    else n - NUM_SPECIAL_SCRIPTS + k
  }

  /** `decompressScript`; its callers have made sure that the bytes it slices are there. */
  function DecompressScript(curve: Curve, b: seq<Byte>): seq<Byte>
  {
    if b == [] then []
    else
      var (n, k) := DecodeVlq(b);
      if n < 2 then if |b| < k + 20 then [] else DecompressSpecial(curve, n, b[k..k + 20])
      else if n < 4 then if |b| < k + 32 then [] else DecompressSpecial(curve, n, b[k..k + 32])
      else if n < NUM_SPECIAL_SCRIPTS then if |b| < 33 then [] else DecompressSpecial(curve, n, b[1..33])
      else if |b| < k + (n - NUM_SPECIAL_SCRIPTS) then []
      else b[k..k + (n - NUM_SPECIAL_SCRIPTS)]
  }

  /** The script of a special type, from the data behind the type. */
  function DecompressSpecial(curve: Curve, n: nat, data: seq<Byte>): seq<Byte>
    requires n < NUM_SPECIAL_SCRIPTS
  {
    match n
    case 0 => [OP_DUP, OP_HASH160, OP_DATA_20] + data + [OP_EQUALVERIFY, OP_CHECKSIG]
    case 1 => [OP_HASH160, OP_DATA_20] + data + [OP_EQUAL]
    case 2 => [OP_DATA_33, 2] + data + [OP_CHECKSIG]
    case 3 => [OP_DATA_33, 3] + data + [OP_CHECKSIG]
    case _ =>
      match curve.uncompressed([n - 2] + data)
      case None => []
      case Some(key) => [OP_DATA_65] + key + [OP_CHECKSIG]
  }

  // ---------------------------------------------------------------------------
  // Round trip

  lemma SizeIsLength(curve: Curve, s: seq<Byte>)
    ensures CompressedScriptSize(curve, s) == |CompressScript(curve, s)|
  {
  }

  /** One byte below the number of special types is a type. */
  lemma TypeByte(n: Byte, data: seq<Byte>)
    requires n < NUM_SPECIAL_SCRIPTS
    ensures DecodeVlq([n] + data) == (n as nat, 1)
  {
    hide DecodeVlq;
    assert Vlq(n) == [n];
    VlqRoundTrip(n, data);
  }

  lemma SpecialSize(n: Byte, data: seq<Byte>, rest: seq<Byte>)
    requires n < NUM_SPECIAL_SCRIPTS && |data| == (if n < 2 then 20 else 32)
    ensures DecodeScriptSize([n] + data + rest) == 1 + |data|
  {
    hide DecodeVlq;
    assert [n] + data + rest == [n] + (data + rest);
    TypeByte(n, data + rest);
  }

  lemma SpecialReads(curve: Curve, n: Byte, data: seq<Byte>)
    requires n < NUM_SPECIAL_SCRIPTS && |data| == (if n < 2 then 20 else 32)
    ensures DecompressScript(curve, [n] + data) == DecompressSpecial(curve, n, data)
  {
    hide DecodeVlq, DecompressSpecial;
    TypeByte(n, data);
    var b := [n] + data;
    assert b[1..] == data && b[1..1 + |data|] == data;
  }

  lemma GeneralRoundTrip(curve: Curve, s: seq<Byte>, rest: seq<Byte>)
    requires SliceLength(s)
    ensures var b := Vlq(|s| + NUM_SPECIAL_SCRIPTS) + s;
            DecompressScript(curve, b) == s && DecodeScriptSize(b + rest) == |b|
  {
    hide Vlq, DecodeVlq, DecompressSpecial;
    var v := Vlq(|s| + NUM_SPECIAL_SCRIPTS);
    VlqRoundTrip(|s| + NUM_SPECIAL_SCRIPTS, s);
    VlqRoundTrip(|s| + NUM_SPECIAL_SCRIPTS, s + rest);
    assert v + s + rest == v + (s + rest);
    assert (v + s)[|v|..|v| + |s|] == s;
  }

  /** An uncompressed key comes back from its x coordinate and the parity bit. */
  lemma KeyRestored(curve: Curve, s: seq<Byte>)
    requires CurveOk(curve) && IsUncompressedPubKey(curve, s)
    ensures DecompressSpecial(curve, 4 + s[65] % 2, s[2..34]) == s
  {
    var key := s[1..66];
    assert key[1..33] == s[2..34] && key[64] == s[65];
    assert [OP_DATA_65] + key + [OP_CHECKSIG] == s;
  }

  /** Every script is read back from its compressed form, which is as long as it says, whatever follows. */
  lemma ScriptRoundTrip(curve: Curve, s: seq<Byte>, rest: seq<Byte>)
    requires CurveOk(curve) && SliceLength(s)
    ensures DecompressScript(curve, CompressScript(curve, s)) == s
    ensures DecodeScriptSize(CompressScript(curve, s) + rest) == CompressedScriptSize(curve, s)
  {
    hide Vlq, DecompressScript, DecodeScriptSize, CurveOk;
    SizeIsLength(curve, s);
    if IsPubKeyHash(s) {
      SpecialSize(0, s[3..23], rest);
      SpecialReads(curve, 0, s[3..23]);
      assert [OP_DUP, OP_HASH160, OP_DATA_20] + s[3..23] + [OP_EQUALVERIFY, OP_CHECKSIG] == s;
    } else if IsScriptHash(s) {
      SpecialSize(1, s[2..22], rest);
      SpecialReads(curve, 1, s[2..22]);
      assert [OP_HASH160, OP_DATA_20] + s[2..22] + [OP_EQUAL] == s;
    } else if IsCompressedPubKey(curve, s) {
      SpecialSize(s[1], s[2..34], rest);
      SpecialReads(curve, s[1], s[2..34]);
      assert [OP_DATA_33, s[1]] + s[2..34] + [OP_CHECKSIG] == s;
    } else if IsUncompressedPubKey(curve, s) {
      SpecialSize(4 + s[65] % 2, s[2..34], rest);
      SpecialReads(curve, 4 + s[65] % 2, s[2..34]);
      KeyRestored(curve, s);
    } else {
      GeneralRoundTrip(curve, s, rest);
    }
  }

  function Codec(curve: Curve): ScriptCodec
  {
    ScriptCodec(s => CompressScript(curve, s), b => DecodeScriptSize(b), b => DecompressScript(curve, b))
  }

  /** Script compression is a codec as the spend journal needs it. */
  lemma CodecIsLawful(curve: Curve)
    requires CurveOk(curve)
    ensures Lawful(Codec(curve))
  {
    hide CompressScript, DecodeScriptSize, DecompressScript, CompressedScriptSize, CurveOk, SliceLength;
    var c := Codec(curve);
    forall s | SliceLength(s) ensures |c.encode(s)| > 0 && c.decode(c.encode(s)) == s
    {
      ScriptRoundTrip(curve, s, []);
      WritesSome(curve, s);
    }
    forall s, rest | SliceLength(s) ensures c.size(c.encode(s) + rest) == |c.encode(s)|
    {
      ScriptRoundTrip(curve, s, rest);
      SizeIsLength(curve, s);
    }
  }

  lemma WritesSome(curve: Curve, s: seq<Byte>)
    ensures |CompressScript(curve, s)| > 0
  {
  }
}
