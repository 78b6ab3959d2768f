/** Variable-length quantities and amount compression (compress.go). */
module Compression {
  import opened Base

  // ---------------------------------------------------------------------------
  // Variable-length quantities

  /** The bytes before the last: each has its high bit set. */
  function Continuation(n: nat): (b: seq<Byte>)
    ensures |b| > 0
  {
    if n <= 127 then [128 + n] else Continuation(n / 128 - 1) + [128 + n % 128]
  }

  /** Most significant group first. */
  function Vlq(n: nat): (b: seq<Byte>)
    ensures |b| > 0
  {
    if n <= 127 then [n] else Continuation(n / 128 - 1) + [n % 128]
  }

  method SerializeSizeVLQ(n: nat) returns (size: nat)
    ensures size == |Vlq(n)|
  {
    size := 1;
    var rest := n;
    while rest > 127
      invariant |Vlq(n)| == size - 1 + |Vlq(rest)|
    {
      SameLength(rest / 128 - 1);
      rest := rest / 128 - 1;
      size := size + 1;
    }
  }

  lemma SameLength(n: nat)
    ensures |Continuation(n)| == |Vlq(n)|
  {
  }

  function Reversed(b: seq<Byte>): (r: seq<Byte>)
    ensures |r| == |b| && forall i :: 0 <= i < |b| ==> r[i] == b[|b| - 1 - i]
  {
    if b == [] then [] else Reversed(b[1..]) + [b[0]]
  }

  /** Reverse part of a buffer in place. */
  method ReverseRange(buf: array<Byte>, lo: nat, hi: nat)
    requires lo <= hi < buf.Length
    modifies buf
    ensures buf[..] == old(buf[..lo]) + Reversed(old(buf[lo..hi + 1])) + old(buf[hi + 1..])
  {
    var i, j := lo, hi;
    while i < j
      invariant lo <= i <= j + 1 <= hi + 1 && i + j == lo + hi
      invariant forall k :: 0 <= k < buf.Length && (k < lo || k > hi || i <= k <= j) ==> buf[k] == old(buf[k])
      invariant forall k :: (lo <= k < i || j < k <= hi) ==> buf[k] == old(buf[lo + hi - k])
    {
      buf[i], buf[j] := buf[j], buf[i];
      i, j := i + 1, j - 1;
    }
    ReversedPart(old(buf[..]), lo, hi, buf[..]);
  }

  lemma ReversedPart(before: seq<Byte>, lo: nat, hi: nat, after: seq<Byte>)
    requires lo <= hi < |before| == |after|
    requires forall k :: 0 <= k < |before| && (k < lo || k > hi) ==> after[k] == before[k]
    requires forall k :: lo <= k <= hi ==> after[k] == before[lo + hi - k]
    ensures after == before[..lo] + Reversed(before[lo..hi + 1]) + before[hi + 1..]
  {
    hide Reversed;
    var part := before[lo..hi + 1];
    forall k | lo <= k <= hi ensures after[k] == Reversed(part)[k - lo]
    {
      assert part[hi - k] == before[lo + hi - k];
    }
    assert after[lo..hi + 1] == Reversed(part);
    assert after == after[..lo] + after[lo..hi + 1] + after[hi + 1..];
  }

  lemma ReversedSnoc(b: seq<Byte>, x: Byte)
    ensures Reversed(b + [x]) == [x] + Reversed(b)
  {
  }

  /** What is still to be written once some groups have been. */
  function Tail(n: nat, offset: nat): (b: seq<Byte>)
    ensures |b| > 0
  {
    if offset == 0 then Vlq(n) else Continuation(n)
  }

  function Group(n: nat, offset: nat): Byte
  {
    n % 128 + if offset == 0 then 0 else 128
  }

  /** The group written next, and what remains after it. */
  lemma TailStep(n: nat, offset: nat)
    ensures var group := Group(n, offset);
            Tail(n, offset) == if n <= 127 then [group] else Tail(n / 128 - 1, offset + 1) + [group]
  {
  }

  lemma GroupStep(v: seq<Byte>, rest: nat, offset: nat, written: seq<Byte>)
    requires v == Tail(rest, offset) + Reversed(written)
    ensures var more := written + [Group(rest, offset)];
            && (rest <= 127 ==> v == Reversed(more))
            && (rest > 127 ==> v == Tail(rest / 128 - 1, offset + 1) + Reversed(more))
  {
    hide Reversed, Tail, Group;
    var group := Group(rest, offset);
    TailStep(rest, offset);
    ReversedSnoc(written, group);
    if rest > 127 {
      MoveGroup(Tail(rest / 128 - 1, offset + 1), group, Reversed(written));
    }
  }

  /** The first loop of `putVLQ`: least significant group first. */
  method WriteGroups(buf: array<Byte>, at: nat, n: nat) returns (offset: nat)
    requires at + |Vlq(n)| <= buf.Length
    modifies buf
    ensures offset + 1 == |Vlq(n)| && Reversed(buf[at..at + offset + 1]) == Vlq(n)
    ensures buf[..at] == old(buf[..at]) && buf[at + offset + 1..] == old(buf[at + offset + 1..])
  {
    hide Vlq, Continuation, Reversed, Tail, Group;
    offset := 0;
    var rest := n;
    ghost var written: seq<Byte> := [];
    TailStart(n);
    while true
      invariant |written| == offset && Vlq(n) == Tail(rest, offset) + Reversed(written)
      invariant at + offset < buf.Length && WrittenAt(old(buf[..]), buf[..], at, written)
      decreases rest
    {
      GroupStep(Vlq(n), rest, offset, written);
      WriteNext(old(buf[..]), buf[..], at, written, Group(rest, offset));
      buf[at + offset] := Group(rest, offset);
      written := written + [Group(rest, offset)];
      if rest <= 127 {
        break;
      }
      offset := offset + 1;
      rest := rest / 128 - 1;
    }
    WrittenWhole(old(buf[..]), buf[..], at, written);
  }

  /** Some bytes have been written at an offset. */
  ghost predicate WrittenAt(before: seq<Byte>, after: seq<Byte>, at: nat, written: seq<Byte>)
  {
    && at + |written| <= |before| == |after|
    && after == before[..at] + written + before[at + |written|..]
  }

  lemma WriteNext(before: seq<Byte>, after: seq<Byte>, at: nat, written: seq<Byte>, x: Byte)
    requires WrittenAt(before, after, at, written) && at + |written| < |before|
    ensures WrittenAt(before, after[at + |written| := x], at, written + [x])
  {
    assert before[at + |written|..] == [before[at + |written|]] + before[at + |written| + 1..];
  }

  lemma WrittenWhole(before: seq<Byte>, after: seq<Byte>, at: nat, written: seq<Byte>)
    requires WrittenAt(before, after, at, written)
    ensures after[at..at + |written|] == written
    ensures after[..at] == before[..at] && after[at + |written|..] == before[at + |written|..]
  {
  }

  lemma MoveGroup(a: seq<Byte>, group: Byte, b: seq<Byte>)
    ensures (a + [group]) + b == a + ([group] + b)
  {
  }

  lemma TailStart(n: nat)
    ensures Tail(n, 0) + Reversed([]) == Vlq(n)
  {
  }

  /** `putVLQ`: groups are written least significant first, then reversed. */
  method PutVLQ(buf: array<Byte>, at: nat, n: nat) returns (count: nat)
    requires at + |Vlq(n)| <= buf.Length
    modifies buf
    ensures count == |Vlq(n)|
    ensures buf[..] == old(buf[..at]) + Vlq(n) + old(buf[at + |Vlq(n)|..])
  {
    hide Vlq, Reversed;
    var offset := WriteGroups(buf, at, n);
    ReverseRange(buf, at, at + offset);
    count := offset + 1;
  }

  /** `deserializeVLQ` with the bits read so far: the value, in 64 bits, and the bytes used. */
  function DecodeFrom(acc: nat, b: seq<Byte>): (r: (nat, nat))
    ensures r.1 <= |b| && (acc < TWO_TO_THE_64 ==> r.0 < TWO_TO_THE_64)
    decreases |b|
  {
    if b == [] then (acc, 0)
    else
      var v := (acc * 128 + b[0] % 128) % TWO_TO_THE_64;
      if b[0] < 128 then (v, 1)
      else
        var (n, size) := DecodeFrom((v + 1) % TWO_TO_THE_64, b[1..]);
        (n, size + 1)
  }

  function DecodeVlq(b: seq<Byte>): (r: (nat, nat))
    ensures r.1 <= |b| && r.0 < TWO_TO_THE_64
  {
    DecodeFrom(0, b)
  }

  method DeserializeVLQ(b: seq<Byte>) returns (n: nat, size: nat)
    ensures (n, size) == DecodeVlq(b)
  {
    n, size := 0, 0;
    assert b[0..] == b;
    while size < |b|
      invariant size <= |b|
      invariant DecodeVlq(b) == (DecodeFrom(n, b[size..]).0, DecodeFrom(n, b[size..]).1 + size)
    {
      var val := b[size];
      assert b[size..][0] == val && b[size..][1..] == b[size + 1..];
      size := size + 1;
      n := (n * 128 + val % 128) % TWO_TO_THE_64;
      if val < 128 {
        return;
      }
      n := (n + 1) % TWO_TO_THE_64;
    }
  }

  /** One byte of a number that fits in 64 bits. */
  lemma DecodeByte(acc: nat, group: nat, more: bool, rest: seq<Byte>)
    requires group < 128 && acc * 128 + group + 1 < TWO_TO_THE_64 + if more then 0 else 1
    ensures var b: Byte := group + if more then 128 else 0;
            DecodeFrom(acc, [b] + rest) ==
              if more then (DecodeFrom(acc * 128 + group + 1, rest).0, DecodeFrom(acc * 128 + group + 1, rest).1 + 1)
              else (acc * 128 + group, 1)
  {
    var b: Byte := group + if more then 128 else 0;
    assert ([b] + rest)[1..] == rest;
    assert b % 128 == group;
    FitsIn64(acc * 128 + group);
    if more {
      FitsIn64(acc * 128 + group + 1);
    }
  }

  lemma FitsIn64(v: nat)
    requires v < TWO_TO_THE_64
    ensures v % TWO_TO_THE_64 == v
  {
  }

  /** Reading continuation bytes leaves one more than the number they carry. */
  lemma {:induction false} DecodeContinuation(n: nat, rest: seq<Byte>)
    requires n + 1 < TWO_TO_THE_64
    ensures DecodeFrom(0, Continuation(n) + rest) ==
            (DecodeFrom(n + 1, rest).0, DecodeFrom(n + 1, rest).1 + |Continuation(n)|)
    decreases n
  {
    hide DecodeFrom;
    if n <= 127 {
      DecodeByte(0, n, true, rest);
    } else {
      var last: Byte := 128 + n % 128;
      assert Continuation(n) + rest == Continuation(n / 128 - 1) + ([last] + rest);
      DecodeContinuation(n / 128 - 1, [last] + rest);
      DecodeByte(n / 128, n % 128, true, rest);
    }
  }

  /** Decoding consumes exactly the bytes written and returns the number. */
  lemma VlqRoundTrip(n: nat, rest: seq<Byte>)
    requires n < TWO_TO_THE_64
    ensures DecodeVlq(Vlq(n) + rest) == (n, |Vlq(n)|)
  {
    hide DecodeFrom, Continuation;
    if n <= 127 {
      DecodeByte(0, n, false, rest);
    } else {
      var last: Byte := n % 128;
      assert Vlq(n) + rest == Continuation(n / 128 - 1) + ([last] + rest);
      DecodeContinuation(n / 128 - 1, [last] + rest);
      DecodeByte(n / 128, n % 128, false, rest);
    }
  }

  // ---------------------------------------------------------------------------
  // Amounts

  /** Divide by ten while possible, at most nine times in all. */
  function Strip(a: nat, e: nat): (r: (nat, nat))
    requires a > 0 && e <= 9
    ensures r.0 > 0 && e <= r.1 <= 9 && (r.1 < 9 ==> r.0 % 10 != 0)
    decreases 9 - e
  {
    if a % 10 == 0 && e < 9 then Strip(a / 10, e + 1) else (a, e)
  }

  /** The compressed amount before it is cut to 64 bits. */
  function Compressed(a: nat): nat
  {
    if a == 0 then 0
    else
      var (n, e) := Strip(a, 0);
      if e < 9 then 1 + 10 * (9 * (n / 10) + n % 10 - 1) + e else 10 + 10 * (n - 1)
  }

  function Scale(n: nat, e: nat): nat
    decreases e
  {
    if e == 0 then n else Scale(n * 10, e - 1)
  }

  function Decompressed(x: nat): nat
  {
    if x == 0 then 0
    else
      var e, q := (x - 1) % 10, (x - 1) / 10;
      Scale(if e < 9 then q / 9 * 10 + q % 9 + 1 else q + 1, e)
  }

  method CompressTxOutAmount(amount: nat) returns (r: nat)
    ensures r == Compressed(amount) % TWO_TO_THE_64
  {
    if amount == 0 {
      return 0;
    }
    var n, exponent := amount, 0;
    while n % 10 == 0 && exponent < 9
      invariant n > 0 && exponent <= 9 && Strip(amount, 0) == Strip(n, exponent)
      decreases 9 - exponent
    {
      n := n / 10;
      exponent := exponent + 1;
    }
    if exponent < 9 {
      var lastDigit := n % 10;
      n := n / 10;
      return (1 + 10 * (9 * n + lastDigit - 1) + exponent) % TWO_TO_THE_64;
    }
    r := (10 + 10 * (n - 1)) % TWO_TO_THE_64;
  }

  method DecompressTxOutAmount(amount: nat) returns (n: nat)
    ensures n == Decompressed(amount) % TWO_TO_THE_64
  {
    if amount == 0 {
      return 0;
    }
    var rest := amount - 1;
    var exponent := rest % 10;
    rest := rest / 10;
    if exponent < 9 {
      n := rest / 9 * 10 + (rest % 9 + 1);
    } else {
      n := rest + 1;
    }
    while exponent > 0
      invariant exponent >= 0 && Decompressed(amount) == Scale(n, exponent)
    {
      n := n * 10;
      exponent := exponent - 1;
    }
    n := n % TWO_TO_THE_64;
  }

  lemma {:induction false} StripScale(a: nat, e: nat)
    requires a > 0 && e <= 9
    ensures Scale(Strip(a, e).0, Strip(a, e).1 - e) == a
    ensures Strip(a, e).0 <= a
    decreases 9 - e
  {
    if a % 10 == 0 && e < 9 {
      StripScale(a / 10, e + 1);
      ScaleTen(Strip(a, e).0, Strip(a, e).1 - e - 1);
    }
  }

  lemma {:induction false} ScaleTen(n: nat, e: nat)
    ensures Scale(n, e + 1) == 10 * Scale(n, e)
    decreases e
  {
    if e > 0 {
      ScaleTen(n * 10, e - 1);
    }
  }

  /** The digit taken off can be put back. */
  lemma DigitBack(n: nat)
    requires n % 10 != 0
    ensures var q := 9 * (n / 10) + n % 10 - 1; q >= 0 && q / 9 * 10 + q % 9 + 1 == n && 10 * q + 10 <= 9 * n + 9
  {
    var q := 9 * (n / 10) + n % 10 - 1;
    assert q / 9 == n / 10;
  }

  /** Compression loses nothing, and makes no amount more than nine times larger. */
  lemma AmountRoundTrip(a: nat)
    ensures Decompressed(Compressed(a)) == a
    ensures Compressed(a) <= 9 * a
  {
    hide Strip, Scale;
    if a > 0 {
      StripScale(a, 0);
      var (n, e) := Strip(a, 0);
      if e > 0 { StripShrinks(a); }
      if e < 9 {
        DigitBack(n);
        var q := 9 * (n / 10) + n % 10 - 1;
        assert (10 * q + e) / 10 == q && (10 * q + e) % 10 == e;
      } else {
        assert (10 * (n - 1) + 9) / 10 == n - 1;
      }
    }
  }

  lemma StripShrinks(a: nat)
    requires a > 0 && Strip(a, 0).1 > 0
    ensures 10 * Strip(a, 0).0 <= a
  {
    StripScale(a / 10, 1);
  }

  // ---------------------------------------------------------------------------
  // Amounts whose compressed form does not fit in 64 bits

  lemma {:induction false} ScaleTimes(n: nat, e: nat)
    ensures Scale(n, e) == n * Scale(1, e)
    decreases e
  {
    if e > 0 {
      ScaleTimes(n, e - 1);
      ScaleTen(n, e - 1);
      ScaleTen(1, e - 1);
    }
  }

  /** An amount with a last digit is the only kind whose compressed form can pass 64 bits. */
  lemma TrailingZeroFits(a: nat)
    requires a < TWO_TO_THE_64
    ensures a % 10 == 0 ==> Compressed(a) < TWO_TO_THE_64
    ensures a % 10 != 0 ==> Compressed(a) == 9 * a + a % 10 - 9
  {
    if a % 10 == 0 && a > 0 {
      StripShrinks(a);
      StripScale(a, 0);
    } else if a > 0 {
      assert Strip(a, 0) == (a, 0);
    }
  }

  /** `k` whole wraps of the compressed form, seen from the decoder: the exponent, and `9 * tens + units` taken away. */
  ghost predicate Wraps(k: nat, e: nat, tens: nat, units: nat)
  {
    e < 9 && units < 9 && k * TWO_TO_THE_64 + e == 10 * (9 * tens + units)
  }

  /** What the decoder makes of an amount that wrapped `k` times. */
  lemma WrappedDecodes(a: nat, k: nat, e: nat, tens: nat, units: nat)
    requires a % 10 != 0 && k * TWO_TO_THE_64 < 9 * a + a % 10 - 9 && Wraps(k, e, tens, units)
    ensures var c := 10 * tens + units + if a % 10 > units then 0 else 1;
            c <= a && Decompressed(9 * a + a % 10 - 9 - k * TWO_TO_THE_64) == (a - c) * Scale(1, e)
  {
    var x := 9 * a + a % 10 - 9 - k * TWO_TO_THE_64;
    var q := 9 * (a / 10 - tens) + (a % 10 - 1 - units);
    assert x - 1 == 10 * q + e;
    assert (x - 1) % 10 == e && (x - 1) / 10 == q;
    var n := q / 9 * 10 + q % 9 + 1;
    if a % 10 > units {
      assert q / 9 == a / 10 - tens;
    } else {
      assert q / 9 == a / 10 - tens - 1;
    }
    ScaleTimes(n, e);
  }

  /** `a` solves `(a - c) * p == a` modulo 2^64 for one value only: `inverse` undoes `p - 1`. */
  lemma OnlySolution(a: nat, c: nat, p: nat, inverse: nat, u: nat, solution: nat, w: nat)
    requires a < TWO_TO_THE_64 && solution < TWO_TO_THE_64 && c <= a
    requires inverse * (p - 1) == 1 + u * TWO_TO_THE_64
    requires inverse * (c * p) == solution + w * TWO_TO_THE_64
    requires ((a - c) * p) % TWO_TO_THE_64 == a
    ensures a == solution
  {
    var j := ((a - c) * p) / TWO_TO_THE_64;
    assert a * (p - 1) == c * p + j * TWO_TO_THE_64 by {
      Spread(p, a, 0 - c);
      Spread(a, p, -1);
    }
    calc {
      a + (a * u) * TWO_TO_THE_64;
      { Spread(a, 1, u * TWO_TO_THE_64); Regroup(a, u, TWO_TO_THE_64); }
      a * (inverse * (p - 1));
      { Swap(a, inverse, p - 1); }
      inverse * (c * p + j * TWO_TO_THE_64);
      { Spread(inverse, c * p, j * TWO_TO_THE_64); Regroup(inverse, j, TWO_TO_THE_64); }
      solution + w * TWO_TO_THE_64 + (inverse * j) * TWO_TO_THE_64;
    }
    SameResidue(a, a * u, solution, w + inverse * j);
  }

  lemma Spread(x: int, y: int, z: int)
    ensures x * (y + z) == x * y + x * z
  {
  }

  lemma Regroup(x: int, y: int, z: int)
    ensures x * (y * z) == (x * y) * z
  {
  }

  lemma Swap(x: int, y: int, z: int)
    ensures x * (y * z) == y * (x * z)
  {
  }

  lemma SameResidue(a: nat, x: int, b: nat, y: int)
    requires a < TWO_TO_THE_64 && b < TWO_TO_THE_64 && a + x * TWO_TO_THE_64 == b + y * TWO_TO_THE_64
    ensures a == b
  {
  }

  /**
    No amount that wrapped `k` times is decoded to itself: the one candidate for each last digit does not
    wrap `k` times.
  */
  lemma NotBack(a: nat, k: nat, e: nat, tens: nat, units: nat, inverse: nat, u: nat,
                solution: nat, w: nat, solution': nat, w': nat)
    requires a < TWO_TO_THE_64 && a % 10 != 0 && Wraps(k, e, tens, units)
    requires k * TWO_TO_THE_64 < 9 * a + a % 10 - 9 < (k + 1) * TWO_TO_THE_64
    requires inverse * (Scale(1, e) - 1) == 1 + u * TWO_TO_THE_64
    requires solution < TWO_TO_THE_64 && solution' < TWO_TO_THE_64
    requires var c := 10 * tens + units;
             && inverse * (c * Scale(1, e)) == solution + w * TWO_TO_THE_64
             && inverse * ((c + 1) * Scale(1, e)) == solution' + w' * TWO_TO_THE_64
    requires !(k * TWO_TO_THE_64 < 9 * solution + solution % 10 - 9 < (k + 1) * TWO_TO_THE_64)
    requires !(k * TWO_TO_THE_64 < 9 * solution' + solution' % 10 - 9 < (k + 1) * TWO_TO_THE_64)
    ensures Decompressed(9 * a + a % 10 - 9 - k * TWO_TO_THE_64) % TWO_TO_THE_64 != a
  {
    hide Scale, Decompressed;
    WrappedDecodes(a, k, e, tens, units);
    if Decompressed(9 * a + a % 10 - 9 - k * TWO_TO_THE_64) % TWO_TO_THE_64 == a {
      if a % 10 > units {
        OnlySolution(a, 10 * tens + units, Scale(1, e), inverse, u, solution, w);
      } else {
        OnlySolution(a, 10 * tens + units + 1, Scale(1, e), inverse, u, solution', w');
      }
    }
  }

  lemma {:induction false} PowersOfTen()
    ensures Scale(1, 0) == 1 && Scale(1, 2) == 100 && Scale(1, 4) == 10_000 && Scale(1, 6) == 1_000_000
    ensures Scale(1, 8) == 100_000_000
  {
    forall e: nat { ScaleTen(1, e); }
    assert Scale(1, 1) == 10 && Scale(1, 3) == 1_000 && Scale(1, 5) == 100_000 && Scale(1, 7) == 10_000_000;
  }

  lemma NotBack1(a: nat)
    requires a < TWO_TO_THE_64 && a % 10 != 0
    requires 1 * TWO_TO_THE_64 < 9 * a + a % 10 - 9 < 2 * TWO_TO_THE_64
    ensures Decompressed(9 * a + a % 10 - 9 - 1 * TWO_TO_THE_64) % TWO_TO_THE_64 != a
  {
    hide Scale, Decompressed;
    PowersOfTen();
    NotBack(a, 1, 4, 204963823041217240, 2, 13458245626333751279, 7295,
            15288550632769423584, 14953606251481945867176, 10300052185393623248, 14953606251481945874472);
  }

  lemma NotBack2(a: nat)
    requires a < TWO_TO_THE_64 && a % 10 != 0
    requires 2 * TWO_TO_THE_64 < 9 * a + a % 10 - 9 < 3 * TWO_TO_THE_64
    ensures Decompressed(9 * a + a % 10 - 9 - 2 * TWO_TO_THE_64) % TWO_TO_THE_64 != a
  {
    hide Scale, Decompressed;
    PowersOfTen();
    NotBack(a, 2, 8, 409927646082434480, 4, 300153063250403071, 1627133,
            14480868974329830400, 6670068072231179356278725, 14781022037580233472, 6670068072231179357905858);
  }

  lemma NotBack3(a: nat)
    requires a < TWO_TO_THE_64 && a % 10 != 0
    requires 3 * TWO_TO_THE_64 < 9 * a + a % 10 - 9 < 4 * TWO_TO_THE_64
    ensures Decompressed(9 * a + a % 10 - 9 - 3 * TWO_TO_THE_64) % TWO_TO_THE_64 != a
  {
    hide Scale, Decompressed;
    PowersOfTen();
    NotBack(a, 3, 2, 614891469123651720, 5, 12670490878911611211, 68,
            1925417731599313468, 422349695963720373677, 14595908610510924680, 422349695963720373745);
  }

  lemma NotBack4(a: nat)
    requires a < TWO_TO_THE_64 && a % 10 != 0
    requires 4 * TWO_TO_THE_64 < 9 * a + a % 10 - 9 < 5 * TWO_TO_THE_64
    ensures Decompressed(9 * a + a % 10 - 9 - 4 * TWO_TO_THE_64) % TWO_TO_THE_64 != a
  {
    hide Scale, Decompressed;
    PowersOfTen();
    NotBack(a, 4, 6, 819855292164868960, 7, 1672254362768354751, 90653,
            14161661572577611840, 743224161230379889323260, 15833915935345966592, 743224161230379889413913);
  }

  lemma NotBack5(a: nat)
    requires a < TWO_TO_THE_64 && a % 10 != 0
    requires 5 * TWO_TO_THE_64 < 9 * a + a % 10 - 9 < 6 * TWO_TO_THE_64
    ensures Decompressed(9 * a + a % 10 - 9 - 5 * TWO_TO_THE_64) % TWO_TO_THE_64 != a
  {
    hide Scale, Decompressed;
    PowersOfTen();
    WrappedDecodes(a, 5, 0, 1024819115206086200, 8);
  }

  lemma NotBack6(a: nat)
    requires a < TWO_TO_THE_64 && a % 10 != 0
    requires 6 * TWO_TO_THE_64 < 9 * a + a % 10 - 9 < 7 * TWO_TO_THE_64
    ensures Decompressed(9 * a + a % 10 - 9 - 6 * TWO_TO_THE_64) % TWO_TO_THE_64 != a
  {
    hide Scale, Decompressed;
    PowersOfTen();
    NotBack(a, 6, 4, 1229782938247303441, 1, 13458245626333751279, 7295,
            4486081875444583760, 89721637508891675195765, 17944327501778335040, 89721637508891675203060);
  }

  lemma NotBack7(a: nat)
    requires a < TWO_TO_THE_64 && a % 10 != 0
    requires 7 * TWO_TO_THE_64 < 9 * a + a % 10 - 9 < 8 * TWO_TO_THE_64
    ensures Decompressed(9 * a + a % 10 - 9 - 7 * TWO_TO_THE_64) % TWO_TO_THE_64 != a
  {
    hide Scale, Decompressed;
    PowersOfTen();
    NotBack(a, 7, 8, 1434746761288520681, 3, 300153063250403071, 1627133,
            4266028162630124288, 23345238252809127745348407, 4566181225880527360, 23345238252809127746975540);
  }

  lemma NotBack8(a: nat)
    requires a < TWO_TO_THE_64 && a % 10 != 0
    requires 8 * TWO_TO_THE_64 < 9 * a + a % 10 - 9 < 9 * TWO_TO_THE_64
    ensures Decompressed(9 * a + a % 10 - 9 - 8 * TWO_TO_THE_64) % TWO_TO_THE_64 != a
  {
    hide Scale, Decompressed;
    PowersOfTen();
    NotBack(a, 8, 2, 1639710584329737921, 4, 12670490878911611211, 68,
            7432526512302726184, 1126265855903254329851, 1656273317504785780, 1126265855903254329920);
  }

  /** A 64-bit amount survives compression to 64 bits exactly when its compressed form fits in 64 bits. */
  lemma AmountRoundTripIff(a: nat)
    requires a < TWO_TO_THE_64
    ensures Decompressed(Compressed(a) % TWO_TO_THE_64) % TWO_TO_THE_64 == a <==> Compressed(a) < TWO_TO_THE_64
  {
    hide Strip, Scale, Compressed, Decompressed;
    AmountRoundTrip(a);
    TrailingZeroFits(a);
    var k := Compressed(a) / TWO_TO_THE_64;
    var x := Compressed(a) % TWO_TO_THE_64;
    if k > 0 {
      assert a % 10 != 0 && k <= 8;
      if x == 0 {
        ZeroBack();
      } else {
        match k
        case 1 => NotBack1(a);
        case 2 => NotBack2(a);
        case 3 => NotBack3(a);
        case 4 => NotBack4(a);
        case 5 => NotBack5(a);
        case 6 => NotBack6(a);
        case 7 => NotBack7(a);
        case _ => NotBack8(a);
      }
    }
  }

  lemma ZeroBack()
    ensures Decompressed(0) == 0
  {
  }
}
