/** The stored formats read off the bytes: numbers, amounts, scripts and spend journal entries. */
module StoredFormats {
  import opened Base
  import opened Compression
  import opened ScriptCompression
  import opened SpendJournal

  // ---------------------------------------------------------------------------
  // Variable-length quantities

  /** The high bit is set on every byte but the last. */
  ghost predicate Framed(b: seq<Byte>)
  {
    b != [] && b[|b| - 1] < 128 && forall i :: 0 <= i < |b| - 1 ==> b[i] >= 128
  }

  /** Groups of seven bits, most significant first, with one added for every byte that follows. */
  ghost function NumberOf(b: seq<Byte>): nat
    requires b != []
  {
    var last, front := b[|b| - 1], b[..|b| - 1];
    last % 128 + if front == [] then 0 else 128 * (NumberOf(front) + 1)
  }

  lemma {:induction false} ContinuationIs(n: nat)
    ensures NumberOf(Continuation(n)) == n
    ensures forall i :: 0 <= i < |Continuation(n)| ==> Continuation(n)[i] >= 128
    decreases n
  {
    if n > 127 {
      ContinuationIs(n / 128 - 1);
      assert Continuation(n)[..|Continuation(n)| - 1] == Continuation(n / 128 - 1);
    } else {
      assert Continuation(n)[..0] == [];
    }
  }

  lemma NumberSnoc(front: seq<Byte>, last: Byte)
    ensures NumberOf(front + [last]) == last % 128 + if front == [] then 0 else 128 * (NumberOf(front) + 1)
  {
    assert (front + [last])[..|front|] == front;
  }

  lemma ContinuationSplit(low: nat, high: nat)
    requires low < 128
    ensures Continuation(low) == [128 + low]
    ensures high > 0 ==> Continuation(low + 128 * high) == Continuation(high - 1) + [128 + low]
  {
    Split(low, high);
  }

  lemma VlqSplit(low: nat, high: nat)
    requires low < 128
    ensures Vlq(low) == [low]
    ensures high > 0 ==> Vlq(low + 128 * high) == Continuation(high - 1) + [low]
  {
    Split(low, high);
  }

  lemma {:induction false} ContinuationUnique(b: seq<Byte>)
    requires b != [] && forall i :: 0 <= i < |b| ==> b[i] >= 128
    ensures Continuation(NumberOf(b)) == b
    decreases |b|
  {
    hide Continuation, NumberOf;
    var last, front := b[|b| - 1], b[..|b| - 1];
    assert b == front + [last];
    NumberSnoc(front, last);
    assert last == 128 + last % 128;
    if front != [] {
      ContinuationUnique(front);
      ContinuationSplit(last % 128, NumberOf(front) + 1);
    } else {
      ContinuationSplit(last % 128, 0);
    }
  }

  lemma Split(low: nat, high: nat)
    requires low < 128
    ensures (low + 128 * high) / 128 == high && (low + 128 * high) % 128 == low
  {
  }

  /** Numbers and framed byte strings correspond one to one. */
  lemma VlqIsUnique(n: nat, b: seq<Byte>)
    ensures b == Vlq(n) <==> Framed(b) && NumberOf(b) == n
  {
    hide Continuation, NumberOf, Vlq;
    VlqIs(n);
    if Framed(b) && NumberOf(b) == n {
      var last, front := b[|b| - 1], b[..|b| - 1];
      assert b == front + [last];
      NumberSnoc(front, last);
      if front != [] {
        ContinuationUnique(front);
        VlqSplit(last, NumberOf(front) + 1);
      } else {
        VlqSplit(last, 0);
      }
    }
  }

  lemma VlqIs(n: nat)
    ensures Framed(Vlq(n)) && NumberOf(Vlq(n)) == n
  {
    hide Continuation;
    if n > 127 {
      ContinuationIs(n / 128 - 1);
      assert Vlq(n)[..|Vlq(n)| - 1] == Continuation(n / 128 - 1);
    } else {
      assert Vlq(n)[..0] == [];
    }
  }

  // ---------------------------------------------------------------------------
  // Amounts

  ghost function TenTo(e: nat): nat
    ensures TenTo(e) > 0
  {
    if e == 0 then 1 else 10 * TenTo(e - 1)
  }

  lemma StripTen(a: nat, done: nat)
    requires a > 0 && done < 9
    ensures Strip(10 * a, done) == Strip(a, done + 1)
  {
  }

  lemma TenTimes(n: nat, e: nat)
    requires n > 0
    ensures n * TenTo(e + 1) == 10 * (n * TenTo(e)) && n * TenTo(e) > 0
  {
    Swap(n, 10, TenTo(e));
    Positive(n, TenTo(e));
  }

  lemma {:induction false} StripIs(n: nat, e: nat, done: nat)
    requires n > 0 && done + e <= 9 && (done + e < 9 ==> n % 10 != 0)
    ensures Strip(n * TenTo(e), done) == (n, done + e)
    decreases e
  {
    if e > 0 {
      hide Strip, TenTo;
      TenTimes(n, e - 1);
      StripTen(n * TenTo(e - 1), done);
      StripIs(n, e - 1, done + 1);
    } else {
      assert n * TenTo(0) == n;
    }
  }

  lemma StrippedForm(a: nat, n: nat, e: nat)
    requires a > 0 && n > 0 && Strip(a, 0) == (n, e)
    ensures Compressed(a) == if e < 9 then 1 + 10 * (9 * (n / 10) + n % 10 - 1) + e else 10 * n
  {
    hide Strip;
  }

  lemma Digits(m: nat, d: nat)
    requires 1 <= d <= 9
    ensures (10 * m + d) / 10 == m && (10 * m + d) % 10 == d
  {
  }

  /** Up to eight zeros are counted behind the digits, of which the last one, `d`, has nine values. */
  lemma AmountForm(m: nat, d: nat, e: nat)
    requires 1 <= d <= 9 && e <= 8
    ensures Compressed((10 * m + d) * TenTo(e)) == 90 * m + 10 * d + e - 9
  {
    hide Strip, Compressed, TenTo;
    Digits(m, d);
    StripIs(10 * m + d, e, 0);
    Positive(10 * m + d, TenTo(e));
    StrippedForm((10 * m + d) * TenTo(e), 10 * m + d, e);
  }

  lemma Positive(x: nat, y: nat)
    requires x > 0 && y > 0
    ensures x * y > 0
  {
  }

  /** Nine zeros or more count as nine. */
  lemma WholeAmountForm(n: nat)
    ensures Compressed(n * 1_000_000_000) == 10 * n
  {
    hide Strip;
    if n > 0 {
      assert TenTo(9) == 1_000_000_000 by { assert TenTo(5) == 100_000; }
      StripIs(n, 9, 0);
      StrippedForm(n * 1_000_000_000, n, 9);
    }
  }

  // ---------------------------------------------------------------------------
  // Scripts

  function PayToPubKeyHash(hash: seq<Byte>): seq<Byte>
  {
    [0x76, 0xA9, 0x14] + hash + [0x88, 0xAC]
  }

  function PayToScriptHash(hash: seq<Byte>): seq<Byte>
  {
    [0xA9, 0x14] + hash + [0x87]
  }

  function PayToPubKey(key: seq<Byte>): seq<Byte>
    requires |key| < 256
  {
    [|key|] + key + [0xAC]
  }

  ghost predicate CompressedKey(curve: Curve, key: seq<Byte>)
  {
    |key| == 33 && key[0] in {2, 3} && curve.valid(key)
  }

  ghost predicate UncompressedKey(curve: Curve, key: seq<Byte>)
  {
    |key| == 65 && key[0] == 4 && curve.valid(key)
  }

  lemma HashForms(curve: Curve, hash: seq<Byte>)
    requires |hash| == 20
    ensures CompressScript(curve, PayToPubKeyHash(hash)) == [0] + hash
    ensures CompressScript(curve, PayToScriptHash(hash)) == [1] + hash
  {
    assert PayToPubKeyHash(hash)[3..23] == hash;
    assert PayToScriptHash(hash)[2..22] == hash;
  }

  lemma KeyForms(curve: Curve, key: seq<Byte>)
    ensures CompressedKey(curve, key) ==> CompressScript(curve, PayToPubKey(key)) == key
    ensures UncompressedKey(curve, key) ==>
      CompressScript(curve, PayToPubKey(key)) == [4 + key[64] % 2] + key[1..33]
  {
    if CompressedKey(curve, key) {
      var s := PayToPubKey(key);
      assert s[1..34] == key && [s[1]] + s[2..34] == key;
    } else if UncompressedKey(curve, key) {
      var s := PayToPubKey(key);
      assert s[1..66] == key && s[2..34] == key[1..33] && s[65] == key[64];
    }
  }

  lemma HashKinds(s: seq<Byte>)
    ensures IsPubKeyHash(s) ==> exists hash :: |hash| == 20 && s == PayToPubKeyHash(hash)
    ensures IsScriptHash(s) ==> exists hash :: |hash| == 20 && s == PayToScriptHash(hash)
  {
    if IsPubKeyHash(s) {
      assert s == PayToPubKeyHash(s[3..23]);
    } else if IsScriptHash(s) {
      assert s == PayToScriptHash(s[2..22]);
    }
  }

  lemma KeyKinds(curve: Curve, s: seq<Byte>)
    ensures IsCompressedPubKey(curve, s) ==> exists key :: CompressedKey(curve, key) && s == PayToPubKey(key)
    ensures IsUncompressedPubKey(curve, s) ==> exists key :: UncompressedKey(curve, key) && s == PayToPubKey(key)
  {
    if IsCompressedPubKey(curve, s) {
      assert CompressedKey(curve, s[1..34]) && s == PayToPubKey(s[1..34]);
    } else if IsUncompressedPubKey(curve, s) {
      assert UncompressedKey(curve, s[1..66]) && s == PayToPubKey(s[1..66]);
    }
  }

  /** Every script of another kind is kept whole, behind its length and the six kinds. */
  lemma OtherForms(curve: Curve, s: seq<Byte>)
    requires forall hash :: |hash| == 20 ==> s != PayToPubKeyHash(hash)
    requires forall hash :: |hash| == 20 ==> s != PayToScriptHash(hash)
    requires forall key :: CompressedKey(curve, key) || UncompressedKey(curve, key) ==> s != PayToPubKey(key)
    ensures CompressScript(curve, s) == Vlq(|s| + 6) + s
  {
    hide Vlq, IsPubKeyHash, IsScriptHash, IsCompressedPubKey, IsUncompressedPubKey;
    hide PayToPubKeyHash, PayToScriptHash, PayToPubKey, CompressedKey, UncompressedKey;
    HashKinds(s);
    KeyKinds(curve, s);
  }

  // ---------------------------------------------------------------------------
  // Spend journal entries

  /** Twice the height with the coinbase flag, a reserved byte above height zero, the amount and the script. */
  lemma EntryForm(codec: ScriptCodec, c: SpentTxOut)
    requires Representable(c) && 0 <= c.height && 0 <= c.amount
    ensures var flag := if c.coinbase then 1 else 0;
            EncodeSpent(codec, c) ==
              Vlq(2 * c.height + flag) + (if c.height == 0 then [] else [0]) +
              Vlq(Compressed(c.amount) % 0x1_0000_0000_0000_0000) + codec.encode(c.script)
  {
    hide Compressed, Vlq, HeaderCode;
    HeaderForm(c);
    assert Vlq(0) == [0] by { VlqIsUnique(0, [0]); }
    var head := Vlq(HeaderCode(c)) + (if c.height > 0 then Vlq(0) else []);
    var amount := Vlq(Compressed(c.amount) % TWO_TO_THE_64);
    assert head + (amount + codec.encode(c.script)) == head + amount + codec.encode(c.script);
  }

  lemma HeaderForm(c: SpentTxOut)
    requires Representable(c) && 0 <= c.height
    ensures HeaderCode(c) == 2 * c.height + if c.coinbase then 1 else 0
  {
  }

  /** The last spent output comes first. */
  lemma {:induction false} LastComesFirst(codec: ScriptCodec, cs: seq<SpentTxOut>, c: SpentTxOut)
    ensures EncodeAll(codec, cs + [c]) == EncodeSpent(codec, c) + EncodeAll(codec, cs)
    decreases |cs|
  {
    hide EncodeSpent;
    if cs == [] {
      assert cs + [c] == [c] && [c][1..] == [];
    } else {
      LastComesFirst(codec, cs[1..], c);
      assert (cs + [c])[1..] == cs[1..] + [c];
      assert EncodeSpent(codec, c) + (EncodeAll(codec, cs[1..]) + EncodeSpent(codec, cs[0])) ==
             (EncodeSpent(codec, c) + EncodeAll(codec, cs[1..])) + EncodeSpent(codec, cs[0]);
    }
  }

  // The numbers of the two documented entries.

  lemma ThreeBytes(x: nat, y: nat, z: nat)
    requires x < 128 && y < 128 && z < 128
    ensures Vlq(128 * (128 * (x + 1) + y + 1) + z) == [128 + x, 128 + y, z]
  {
    hide Vlq;
    var b: seq<Byte> := [128 + x, 128 + y, z];
    assert b[..2] == [128 + x, 128 + y] && b[..2][..1] == [128 + x] && b[..1][..0] == [];
    assert NumberOf(b[..1]) == x;
    assert NumberOf(b[..2]) == 128 * (x + 1) + y;
    assert NumberOf(b) == 128 * (128 * (x + 1) + y + 1) + z;
    VlqIsUnique(128 * (128 * (x + 1) + y + 1) + z, b);
  }

  lemma MillionForm(m: nat, d: nat)
    requires 1 <= d <= 9
    ensures Compressed((10 * m + d) * 1_000_000) == 90 * m + 10 * d - 3
  {
    hide Compressed;
    AmountForm(m, d, 6);
    assert TenTo(6) == 1_000_000 by { assert TenTo(3) == 1_000; }
  }

  lemma HashEntry(curve: Curve, hash: seq<Byte>, m: nat, d: nat)
    requires |hash| == 20 && 1 <= d <= 9 && m < 10_000
    ensures EncodeSpent(Codec(curve), SpentTxOut((10 * m + d) * 1_000_000, PayToPubKeyHash(hash), 100_024, false)) ==
            [0x8B, 0x99, 0x70, 0x00] + Vlq(90 * m + 10 * d - 3) + [0x00] + hash
  {
    hide Vlq, Compressed, CompressScript, EncodeSpent;
    var c := SpentTxOut((10 * m + d) * 1_000_000, PayToPubKeyHash(hash), 100_024, false);
    EntryForm(Codec(curve), c);
    HashForms(curve, hash);
    ThreeBytes(0x0B, 0x19, 0x70);
    MillionForm(m, d);
    var amount := Vlq(90 * m + 10 * d - 3);
    assert [0x8B, 0x99, 0x70] + [0] + amount + ([0] + hash) == [0x8B, 0x99, 0x70, 0x00] + amount + [0x00] + hash;
  }

  /** The first documented entry: fifty coins of the coinbase at height nine, paid to an uncompressed key. */
  lemma DocumentedCoinbase(curve: Curve, key: seq<Byte>)
    requires UncompressedKey(curve, key) && key[64] % 2 == 1
    ensures EncodeAll(Codec(curve), [SpentTxOut(5_000_000_000, PayToPubKey(key), 9, true)]) ==
            [0x13, 0x00, 0x32, 0x05] + key[1..33]
  {
    hide Compressed, CompressScript, EncodeSpent;
    var c := SpentTxOut(5_000_000_000, PayToPubKey(key), 9, true);
    EntryForm(Codec(curve), c);
    KeyForms(curve, key);
    WholeAmountForm(5);
    assert Compressed(5_000_000_000) == 50;
    LastComesFirst(Codec(curve), [], c);
    assert [] + [c] == [c];
  }

  /** The second documented entry: two outputs of height 100024 paid to key hashes, the last one first. */
  lemma DocumentedPair(curve: Curve, last: seq<Byte>, first: seq<Byte>)
    requires |last| == |first| == 20
    ensures EncodeAll(Codec(curve), [SpentTxOut(13_761_000_000, PayToPubKeyHash(first), 100_024, false),
                                     SpentTxOut(34_405_000_000, PayToPubKeyHash(last), 100_024, false)]) ==
            [0x8B, 0x99, 0x70, 0x00, 0x91, 0xF2, 0x0F, 0x00] + last +
            [0x8B, 0x99, 0x70, 0x00, 0x86, 0xC6, 0x47, 0x00] + first
  {
    hide EncodeSpent, PayToPubKeyHash, Vlq;
    var c := SpentTxOut(13_761_000_000, PayToPubKeyHash(first), 100_024, false);
    var c' := SpentTxOut(34_405_000_000, PayToPubKeyHash(last), 100_024, false);
    HashEntry(curve, first, 1376, 1);
    HashEntry(curve, last, 3440, 5);
    ThreeBytes(0x06, 0x46, 0x47);
    ThreeBytes(0x11, 0x72, 0x0F);
    LastComesFirst(Codec(curve), [c], c');
    LastComesFirst(Codec(curve), [], c);
    assert [c] + [c'] == [c, c'] && [] + [c] == [c];
  }
}
