/** The bytes of a spend journal entry (chainio.go): unframed, last spent output first. */
module SpendJournal {
  import opened Base
  import opened BlockNodes
  import opened Ledger
  import opened ChainModel
  import opened ChainInvariants
  import opened ChainRuns
  import opened Compression
  import opened ScriptCompression

  const TWO_TO_THE_31 := 0x8000_0000

  /** `SpentTxOut`; the fields are machine integers. */
  datatype SpentTxOut = SpentTxOut(amount: int, script: seq<Byte>, height: int, coinbase: bool)

  /** Conversion to a signed integer of `2 * half` values. */
  function Signed(v: nat, half: nat): int
    requires half > 0
  {
    (v + half) % (2 * half) - half
  }

  /** Conversion of a signed 64-bit integer to an unsigned one. */
  function Unsigned(v: int): nat
  {
    v % TWO_TO_THE_64
  }

  // ---------------------------------------------------------------------------
  // Writing

  /** Height shifted left by one, coinbase flag in the lowest bit. */
  function HeaderCode(c: SpentTxOut): nat
  {
    (2 * Unsigned(c.height)) % TWO_TO_THE_64 + if c.coinbase then 1 else 0
  }

  function EncodeTxOut(codec: ScriptCodec, c: SpentTxOut): seq<Byte>
  {
    Vlq(Compressed(Unsigned(c.amount)) % TWO_TO_THE_64) + codec.encode(c.script)
  }

  /** The reserved byte is there exactly when the height is positive. */
  function EncodeSpent(codec: ScriptCodec, c: SpentTxOut): seq<Byte>
  {
    Vlq(HeaderCode(c)) + (if c.height > 0 then Vlq(0) else []) + EncodeTxOut(codec, c)
  }

  /** Last entry first. */
  function EncodeAll(codec: ScriptCodec, cs: seq<SpentTxOut>): seq<Byte>
  {
    if cs == [] then [] else EncodeAll(codec, cs[1..]) + EncodeSpent(codec, cs[0])
  }

  method SpentTxOutSerializeSize(codec: ScriptCodec, c: SpentTxOut) returns (size: nat)
    ensures size == |EncodeSpent(codec, c)|
  {
    size := SerializeSizeVLQ(HeaderCode(c));
    if c.height > 0 {
      var reserved := SerializeSizeVLQ(0);
      size := size + reserved;
    }
    var compressed := CompressTxOutAmount(Unsigned(c.amount));
    var amountSize := SerializeSizeVLQ(compressed);
    size := size + amountSize + |codec.encode(c.script)|;
  }

  method PutBytes(buf: array<Byte>, at: nat, b: seq<Byte>)
    requires at + |b| <= buf.Length
    modifies buf
    ensures buf[..] == old(buf[..at]) + b + old(buf[at + |b|..])
  {
    for i := 0 to |b|
      invariant buf[..at + i] == old(buf[..at]) + b[..i]
      invariant buf[at + i..] == old(buf[at + i..])
    {
      buf[at + i] := b[i];
      assert b[..i + 1] == b[..i] + [b[i]];
      assert buf[..at + (i + 1)] == buf[..at + i] + [b[i]];
      assert old(buf[at + (i + 1)..]) == old(buf[at + i..])[1..];
    }
    assert buf[..] == buf[..at + |b|] + buf[at + |b|..];
  }

  /** The buffer after writing `b` at an offset, as the writers leave it. */
  ghost function Overlay(before: seq<Byte>, at: nat, b: seq<Byte>): seq<Byte>
    requires at + |b| <= |before|
  {
    before[..at] + b + before[at + |b|..]
  }

  lemma OverlayTwice(before: seq<Byte>, at: nat, a: seq<Byte>, b: seq<Byte>)
    requires at + |a| + |b| <= |before|
    ensures Overlay(Overlay(before, at, a), at + |a|, b) == Overlay(before, at, a + b)
  {
    var mid := Overlay(before, at, a);
    assert mid[..at + |a|] == before[..at] + a;
    assert mid[at + |a| + |b|..] == before[at + |a| + |b|..];
  }

  /** Write one more piece behind those written so far. */
  method AppendVLQ(buf: array<Byte>, at: nat, ghost before: seq<Byte>, ghost done: seq<Byte>, count: nat, n: nat)
    returns (count': nat)
    requires |done| == count && at + count + |Vlq(n)| <= buf.Length == |before| && buf[..] == Overlay(before, at, done)
    modifies buf
    ensures count' == |done + Vlq(n)| && buf[..] == Overlay(before, at, done + Vlq(n))
  {
    hide Vlq;
    OverlayTwice(before, at, done, Vlq(n));
    var k := PutVLQ(buf, at + count, n);
    assert buf[..] == Overlay(Overlay(before, at, done), at + count, Vlq(n));
    count' := count + k;
  }

  method PutSpentTxOut(codec: ScriptCodec, buf: array<Byte>, at: nat, c: SpentTxOut) returns (count: nat)
    requires at + |EncodeSpent(codec, c)| <= buf.Length
    modifies buf
    ensures count == |EncodeSpent(codec, c)|
    ensures buf[..] == Overlay(old(buf[..]), at, EncodeSpent(codec, c))
  {
    hide Vlq, HeaderCode, Compressed, Unsigned, Overlay;
    ghost var before := buf[..];
    NothingWritten(before, at);
    ghost var done := [] + Vlq(HeaderCode(c));
    count := AppendVLQ(buf, at, before, [], 0, HeaderCode(c));
    if c.height > 0 {
      count := AppendVLQ(buf, at, before, done, count, 0);
      done := done + Vlq(0);
    }
    var compressed := CompressTxOutAmount(Unsigned(c.amount));
    count := AppendVLQ(buf, at, before, done, count, compressed);
    done := done + Vlq(compressed);
    ghost var script := codec.encode(c.script);
    assert EncodeSpent(codec, c) == done + script;
    OverlayTwice(before, at, done, script);
    OverlayIs(buf[..], at + count, script);
    PutBytes(buf, at + count, codec.encode(c.script));
    count := count + |codec.encode(c.script)|;
  }

  lemma NothingWritten(before: seq<Byte>, at: nat)
    requires at <= |before|
    ensures Overlay(before, at, []) == before
  {
  }

  lemma OverlayIs(before: seq<Byte>, at: nat, b: seq<Byte>)
    requires at + |b| <= |before|
    ensures Overlay(before, at, b) == before[..at] + b + before[at + |b|..]
  {
  }

  /** The size computed in advance is filled exactly. */
  method SerializeSpendJournalEntry(codec: ScriptCodec, cs: seq<SpentTxOut>) returns (serialized: array<Byte>)
    ensures fresh(serialized) && serialized[..] == EncodeAll(codec, cs)
  {
    hide EncodeSpent;
    if |cs| == 0 {
      serialized := new Byte[0];
      return;
    }
    var size := 0;
    assert cs[0..] == cs;
    for i := 0 to |cs|
      invariant |EncodeAll(codec, cs)| == size + |EncodeAll(codec, cs[i..])|
    {
      assert cs[i..][0] == cs[i] && cs[i..][1..] == cs[i + 1..];
      var n := SpentTxOutSerializeSize(codec, cs[i]);
      size := size + n;
    }
    serialized := new Byte[size];
    var offset := 0;
    for i := |cs| downto 0
      invariant offset == |EncodeAll(codec, cs[i..])| && offset <= size
      invariant serialized[..offset] == EncodeAll(codec, cs[i..])
    {
      assert cs[i..][0] == cs[i] && cs[i..][1..] == cs[i + 1..];
      EncodedLength(codec, cs, i);
      var n := PutSpentTxOut(codec, serialized, offset, cs[i]);
      assert serialized[..offset + n] == EncodeAll(codec, cs[i + 1..]) + EncodeSpent(codec, cs[i]);
      offset := offset + n;
    }
  }

  lemma {:induction false} EncodedLength(codec: ScriptCodec, cs: seq<SpentTxOut>, i: nat)
    requires i <= |cs|
    ensures |EncodeAll(codec, cs[i..])| <= |EncodeAll(codec, cs)|
    decreases i
  {
    hide EncodeSpent;
    if i > 0 {
      EncodedLength(codec, cs, i - 1);
      assert cs[i - 1..][1..] == cs[i..];
    } else {
      assert cs[0..] == cs;
    }
  }

  // ---------------------------------------------------------------------------
  // Reading

  datatype Read<T> = Read(value: T, size: nat) | Failed

  /** The compressed output at the front of some bytes. */
  function DecodeTxOut(codec: ScriptCodec, b: seq<Byte>): (r: Read<(int, seq<Byte>)>)
    ensures r.Read? ==> r.size <= |b|
  {
    var (compressed, k) := DecodeVlq(b);
    if k >= |b| then Failed
    else
      var size := codec.size(b[k..]);
      if |b| - k < size then Failed
      else
        var amount := Signed(Decompressed(compressed) % TWO_TO_THE_64, TWO_TO_THE_64 / 2);
        Read((amount, codec.decode(b[k..k + size])), k + size)
  }

  /** `decodeSpentTxOut`. */
  function DecodeSpent(codec: ScriptCodec, b: seq<Byte>): (r: Read<SpentTxOut>)
    ensures r.Read? ==> r.size <= |b|
  {
    if b == [] then Failed
    else
      var (code, k) := DecodeVlq(b);
      if k >= |b| then Failed
      else
        var height := Signed(code / 2, TWO_TO_THE_31);
        var k' := k + if height > 0 then DecodeVlq(b[k..]).1 else 0;
        if k' >= |b| then Failed
        else match DecodeTxOut(codec, b[k'..])
          case Failed => Failed
          case Read(out, size) => Read(SpentTxOut(out.0, out.1, height, code % 2 == 1), k' + size)
  }

  /** The next `count` entries, which come last to first. */
  function DecodeEntries(codec: ScriptCodec, b: seq<Byte>, count: nat): (r: Option<seq<SpentTxOut>>)
    ensures r.Some? ==> |r.value| == count
    decreases count
  {
    if count == 0 then Some([])
    else match DecodeSpent(codec, b)
      case Failed => None
      case Read(c, size) =>
        match DecodeEntries(codec, b[size..], count - 1)
        case None => None
        case Some(front) => Some(front + [c])
  }

  function CountInputs(txs: seq<Tx>): nat
  {
    if txs == [] then 0 else |txs[0].inputs| + CountInputs(txs[1..])
  }

  function DecodeAll(codec: ScriptCodec, b: seq<Byte>, txs: seq<Tx>): Option<seq<SpentTxOut>>
  {
    if b == [] then (if CountInputs(txs) != 0 then None else Some([]))
    else DecodeEntries(codec, b, CountInputs(txs))
  }

  method DecodeSpentTxOut(codec: ScriptCodec, b: seq<Byte>) returns (r: Read<SpentTxOut>)
    ensures r == DecodeSpent(codec, b)
  {
    if |b| == 0 {
      return Failed;
    }
    var code, offset := DeserializeVLQ(b);
    if offset >= |b| {
      return Failed;
    }
    var coinbase := code % 2 != 0;
    var height := Signed(code / 2, TWO_TO_THE_31);
    if height > 0 {
      var _, n := DeserializeVLQ(b[offset..]);
      offset := offset + n;
      if offset >= |b| {
        return Failed;
      }
    }
    var out := DecodeTxOut(codec, b[offset..]);
    if out.Failed? {
      return Failed;
    }
    r := Read(SpentTxOut(out.value.0, out.value.1, height, coinbase), offset + out.size);
  }

  /** The two decoding results agree once the entries read so far are put behind the rest. */
  ghost predicate Resumes(codec: ScriptCodec, b: seq<Byte>, total: nat, offset: nat, left: nat, read: seq<SpentTxOut>)
    requires offset <= |b|
  {
    DecodeEntries(codec, b, total) ==
      match DecodeEntries(codec, b[offset..], left)
      case None => None
      case Some(front) => Some(front + read)
  }

  method DeserializeSpendJournalEntry(codec: ScriptCodec, b: seq<Byte>, txs: seq<Tx>)
    returns (r: Option<seq<SpentTxOut>>)
    ensures r == DecodeAll(codec, b, txs)
  {
    hide DecodeSpent, DecodeEntries;
    var numStxos := 0;
    assert txs[0..] == txs;
    for i := 0 to |txs|
      invariant CountInputs(txs) == numStxos + CountInputs(txs[i..])
    {
      assert txs[i..][0] == txs[i] && txs[i..][1..] == txs[i + 1..];
      numStxos := numStxos + |txs[i].inputs|;
    }
    if |b| == 0 {
      if numStxos != 0 {
        return None;
      }
      return Some([]);
    }
    var stxos := new SpentTxOut[numStxos](_ => SpentTxOut(0, [], 0, false));
    var left: nat, offset: nat := numStxos, 0;
    ResumesAtStart(codec, b, numStxos);
    assert stxos[left..] == [];
    assert txs[..|txs|] == txs;
    for t := |txs| downto 0
      invariant offset <= |b| && left == CountInputs(txs[..t]) <= numStxos
      invariant Resumes(codec, b, numStxos, offset, left, stxos[left..])
    {
      CountInputsSnoc(txs, t);
      for k := |txs[t].inputs| downto 0
        invariant offset <= |b| && left == CountInputs(txs[..t]) + k <= numStxos
        invariant Resumes(codec, b, numStxos, offset, left, stxos[left..])
      {
        ResumeStep(codec, b, numStxos, offset, left, stxos[left..]);
        var entry := DecodeSpentTxOut(codec, b[offset..]);
        if entry.Failed? {
          return None;
        }
        ghost var read := stxos[left..];
        left := left - 1;
        stxos[left] := entry.value;
        assert stxos[left..] == [entry.value] + read;
        offset := offset + entry.size;
      }
    }
    NoEntries(codec, b[offset..]);
    r := Some(stxos[..]);
    assert [] + stxos[left..] == stxos[..];
  }

  lemma NoEntries(codec: ScriptCodec, b: seq<Byte>)
    ensures DecodeEntries(codec, b, 0) == Some([])
  {
  }

  lemma CountInputsSnoc(txs: seq<Tx>, t: nat)
    requires t < |txs|
    ensures CountInputs(txs[..t + 1]) == CountInputs(txs[..t]) + |txs[t].inputs|
    decreases t
  {
    if t > 0 {
      CountInputsSnoc(txs[1..], t - 1);
      assert txs[..t + 1][1..] == txs[1..][..t] && txs[..t][1..] == txs[1..][..t - 1];
    } else {
      assert txs[..1][1..] == [];
    }
  }

  lemma ResumesAtStart(codec: ScriptCodec, b: seq<Byte>, total: nat)
    ensures Resumes(codec, b, total, 0, total, [])
  {
    hide DecodeEntries;
    assert b[0..] == b;
    match DecodeEntries(codec, b, total)
    case None =>
    case Some(front) => assert front + [] == front;
  }

  lemma ResumeStep(codec: ScriptCodec, b: seq<Byte>, total: nat, offset: nat, left: nat, read: seq<SpentTxOut>)
    requires offset <= |b| && left > 0 && Resumes(codec, b, total, offset, left, read)
    ensures match DecodeSpent(codec, b[offset..])
            case Failed => DecodeEntries(codec, b, total).None?
            case Read(c, size) => offset + size <= |b| && Resumes(codec, b, total, offset + size, left - 1, [c] + read)
  {
    hide DecodeSpent;
    match DecodeSpent(codec, b[offset..])
    case Failed =>
    case Read(c, size) =>
      assert b[offset..][size..] == b[offset + size..];
      match DecodeEntries(codec, b[offset + size..], left - 1)
      case None =>
      case Some(front) => assert (front + [c]) + read == front + ([c] + read);
  }

  // ---------------------------------------------------------------------------
  // Round trip

  /** The fields are a 32-bit height and a 64-bit amount, both signed, and a slice. */
  ghost predicate Representable(c: SpentTxOut)
  {
    && -TWO_TO_THE_31 <= c.height < TWO_TO_THE_31 && -TWO_TO_THE_64 <= 2 * c.amount < TWO_TO_THE_64
    && SliceLength(c.script)
  }

  /** Compression does not push the amount past 64 bits. */
  ghost predicate Fits(c: SpentTxOut)
  {
    Compressed(Unsigned(c.amount)) < TWO_TO_THE_64
  }

  /** The output with the amount that comes back from its compressed form. */
  ghost function Returned(c: SpentTxOut): SpentTxOut
  {
    c.(amount := Signed(Decompressed(Compressed(Unsigned(c.amount)) % TWO_TO_THE_64) % TWO_TO_THE_64,
                        TWO_TO_THE_64 / 2))
  }

  ghost function ReturnedAll(cs: seq<SpentTxOut>): (r: seq<SpentTxOut>)
    ensures |r| == |cs| && forall i :: 0 <= i < |cs| ==> r[i] == Returned(cs[i])
  {
    if cs == [] then [] else ReturnedAll(cs[..|cs| - 1]) + [Returned(cs[|cs| - 1])]
  }

  /** What comes back is the output itself exactly when its compressed amount fits in 64 bits. */
  lemma ReturnedIff(c: SpentTxOut)
    requires Representable(c)
    ensures Returned(c) == c <==> Fits(c)
  {
    hide Compressed, Decompressed;
    AmountRoundTripIff(Unsigned(c.amount));
  }

  lemma TxOutReturned(codec: ScriptCodec, c: SpentTxOut, rest: seq<Byte>)
    requires Lawful(codec) && SliceLength(c.script)
    ensures DecodeTxOut(codec, EncodeTxOut(codec, c) + rest) ==
            Read((Returned(c).amount, c.script), |EncodeTxOut(codec, c)|)
  {
    hide Vlq, DecodeVlq, Compressed, Decompressed;
    var x := Compressed(Unsigned(c.amount)) % TWO_TO_THE_64;
    var v, script := Vlq(x), codec.encode(c.script);
    var b := EncodeTxOut(codec, c) + rest;
    assert b == v + (script + rest);
    VlqRoundTrip(x, script + rest);
    assert b[|v|..] == script + rest;
    assert b[|v|..|v| + |script|] == script;
  }

  /** The shift drops the sign of a negative height, and the conversion back restores it. */
  lemma HeaderRoundTrip(c: SpentTxOut)
    requires Representable(c)
    ensures HeaderCode(c) < TWO_TO_THE_64 && Signed(HeaderCode(c) / 2, TWO_TO_THE_31) == c.height
    ensures HeaderCode(c) % 2 == 1 <==> c.coinbase
  {
    var flag := if c.coinbase then 1 else 0;
    if c.height >= 0 {
      assert HeaderCode(c) == 2 * c.height + flag;
    } else {
      assert HeaderCode(c) == TWO_TO_THE_64 + 2 * c.height + flag;
      assert HeaderCode(c) / 2 == TWO_TO_THE_64 / 2 + c.height;
    }
  }

  /** An entry decodes to what its amount leaves of it, whatever follows: to itself exactly when the amount fits. */
  lemma SpentRoundTrip(codec: ScriptCodec, c: SpentTxOut, rest: seq<Byte>)
    requires Lawful(codec) && Representable(c)
    ensures DecodeSpent(codec, EncodeSpent(codec, c) + rest) == Read(Returned(c), |EncodeSpent(codec, c)|)
    ensures DecodeSpent(codec, EncodeSpent(codec, c) + rest) == Read(c, |EncodeSpent(codec, c)|) <==> Fits(c)
  {
    hide Vlq, DecodeVlq, DecodeTxOut, Lawful, HeaderCode, Signed, EncodeTxOut, Compressed, Decompressed;
    HeaderRoundTrip(c);
    var code := HeaderCode(c);
    var head, out := Vlq(code), EncodeTxOut(codec, c);
    var reserved := if c.height > 0 then Vlq(0) else [];
    var b := EncodeSpent(codec, c) + rest;
    assert b == head + (reserved + (out + rest));
    VlqRoundTrip(code, reserved + (out + rest));
    assert b[|head|..] == reserved + (out + rest);
    VlqRoundTrip(0, out + rest);
    assert b[|head| + |reserved|..] == out + rest;
    TxOutReturned(codec, c, rest);
    WritesSomething(codec, c);
    ReturnedIff(c);
  }

  lemma WritesSomething(codec: ScriptCodec, c: SpentTxOut)
    ensures |EncodeTxOut(codec, c)| > 0
  {
  }

  lemma {:induction false} EntriesReturned(codec: ScriptCodec, cs: seq<SpentTxOut>, rest: seq<Byte>)
    requires Lawful(codec) && forall c :: c in cs ==> Representable(c)
    ensures DecodeEntries(codec, EncodeAll(codec, cs) + rest, |cs|) == Some(ReturnedAll(cs))
    decreases |cs|
  {
    hide Lawful, EncodeSpent, DecodeSpent, Representable, Returned, Fits;
    if cs != [] {
      EncodeAllLast(codec, cs);
      var front, c := cs[..|cs| - 1], cs[|cs| - 1];
      var e := EncodeSpent(codec, c);
      var b := EncodeAll(codec, cs) + rest;
      assert b == e + (EncodeAll(codec, front) + rest);
      SpentRoundTrip(codec, c, EncodeAll(codec, front) + rest);
      assert b[|e|..] == EncodeAll(codec, front) + rest;
      EntriesReturned(codec, front, rest);
    }
  }

  /** The last entry is written first. */
  lemma {:induction false} EncodeAllLast(codec: ScriptCodec, cs: seq<SpentTxOut>)
    requires cs != []
    ensures EncodeAll(codec, cs) == EncodeSpent(codec, cs[|cs| - 1]) + EncodeAll(codec, cs[..|cs| - 1])
    decreases |cs|
  {
    hide EncodeSpent;
    if |cs| > 1 {
      EncodeAllLast(codec, cs[1..]);
      assert cs[1..][..|cs| - 2] == cs[..|cs| - 1][1..];
    } else {
      assert cs[1..] == [] && cs[..0] == [];
    }
  }

  /**
    Decoding a whole entry with transactions that have that many inputs returns each output as its amount
    leaves it, and so the original list exactly when every compressed amount fits in 64 bits.
  */
  lemma JournalRoundTrip(codec: ScriptCodec, cs: seq<SpentTxOut>, txs: seq<Tx>)
    requires Lawful(codec) && CountInputs(txs) == |cs| && forall c :: c in cs ==> Representable(c)
    ensures DecodeAll(codec, EncodeAll(codec, cs), txs) == Some(ReturnedAll(cs))
    ensures DecodeAll(codec, EncodeAll(codec, cs), txs) == Some(cs) <==> forall c :: c in cs ==> Fits(c)
  {
    hide Lawful, EncodeSpent, DecodeEntries, Representable, Returned, Fits;
    var b := EncodeAll(codec, cs);
    EntriesReturned(codec, cs, []);
    assert b + [] == b;
    if cs != [] {
      SomeBytes(codec, cs);
      assert DecodeAll(codec, b, txs) == DecodeEntries(codec, b, CountInputs(txs));
    }
    forall c | c in cs ensures Returned(c) == c <==> Fits(c)
    {
      ReturnedIff(c);
    }
    if forall c :: c in cs ==> Fits(c) {
      assert ReturnedAll(cs) == cs;
    }
  }

  lemma SomeBytes(codec: ScriptCodec, cs: seq<SpentTxOut>)
    requires cs != []
    ensures EncodeAll(codec, cs) != []
  {
    assert |EncodeSpent(codec, cs[0])| > 0;
  }

  /** Every amount up to a ninth of the 64-bit range fits; the largest signed amount does not. */
  lemma SmallAmountsFit(c: SpentTxOut)
    ensures 0 <= 9 * c.amount < TWO_TO_THE_64 ==> Fits(c)
    ensures c.amount == 0x7FFF_FFFF_FFFF_FFFF ==> !Fits(c)
  {
    hide Compressed;
    var a: nat := Unsigned(c.amount);
    AmountRoundTrip(a);
    TrailingZeroFits(a);
  }

  // ---------------------------------------------------------------------------
  // The journal of the chain

  function Stored(c: Coin): SpentTxOut
  {
    SpentTxOut(c.amount, c.script, c.height, c.coinbase)
  }

  function StoredAll(cs: seq<Coin>): (r: seq<SpentTxOut>)
    ensures |r| == |cs| && forall i :: 0 <= i < |cs| ==> r[i] == Stored(cs[i])
  {
    if cs == [] then [] else [Stored(cs[0])] + StoredAll(cs[1..])
  }

  lemma {:induction false} SpentIsInputs(txs: seq<Tx>, i: nat)
    requires 1 <= i <= |txs|
    ensures CountSpentOutputs(txs, i) == CountInputs(txs[i..])
    decreases |txs| - i
  {
    if i < |txs| {
      SpentIsInputs(txs, i + 1);
      assert txs[i..][1..] == txs[i + 1..];
    }
  }

  /**
    What is stored for any best chain block decodes, with the block's own transactions behind the coinbase,
    to the journal entry that undoes it exactly when its amounts fit; no entry has height zero, so each
    carries its reserved byte.
  */
  lemma StoredJournalDecodes(s: ChainState, n: BlockNode, codec: ScriptCodec)
    requires Inv(s) && n in Best(s) && n != s.genesis && |n.block.txs| > 0 && Lawful(codec)
    requires n in s.status && n.block.hash in s.journal
    requires forall c :: c in s.journal[n.block.hash] ==> Representable(Stored(c))
    ensures var cs := StoredAll(s.journal[n.block.hash]);
            DecodeAll(codec, EncodeAll(codec, cs), n.block.txs[1..]) == Some(cs) <==> forall c :: c in cs ==> Fits(c)
    ensures forall c :: c in s.journal[n.block.hash] ==> c.height > 0
  {
    hide Steady, BestClean, Path, Lawful, Representable, Fits, EncodeAll, DecodeAll, Sound, WellBuilt, TreeOk;
    hide NodeEvents;
    TipFacts(s);
    JournalIsBestChain(s, n);
    ParentKnown(s, n);
    JournalHeights(n);
    SoundPresent(n);
    var coins := JournalOf(n);
    var cs := StoredAll(coins);
    SpentIsInputs(n.block.txs, 1);
    forall c | c in cs ensures Representable(c)
    {
      var i :| 0 <= i < |cs| && cs[i] == c;
      assert coins[i] in coins;
    }
    JournalRoundTrip(codec, cs, n.block.txs[1..]);
  }

  lemma SoundPresent(n: BlockNode)
    requires Sound(n) && n.parent.Some?
    ensures InputsPresent(Replay(n.parent.value), NodeEvents(n))
  {
  }
}
