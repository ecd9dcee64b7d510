/** Canonical UUID text and the version 7 layout (src/shared/id/value.ts; RFC 9562, section 5.7). */
module Ids {
  import opened Prelude

  type ID = string

  datatype IdFailure = InvalidId | TimeRange | Exhausted | EntropyUnavailable

  // ----- Hexadecimal digits -----

  predicate IsHexDigit(c: char) {
    '0' <= c <= '9' || 'a' <= c <= 'f' || 'A' <= c <= 'F'
  }

  predicate IsLowerHex(c: char) {
    '0' <= c <= '9' || 'a' <= c <= 'f'
  }

  ghost predicate AllLowerHex(s: string) {
    forall i | 0 <= i < |s| :: IsLowerHex(s[i])
  }

  function Digit(n: int): (c: char)
    requires 0 <= n < 16
    ensures IsLowerHex(c) && DigitValue(c) == n
  {
    if n < 10 then '0' + n as char else 'a' + (n - 10) as char
  }

  function DigitValue(c: char): (n: int)
    ensures IsHexDigit(c) ==> 0 <= n < 16
  {
    if 'a' <= c <= 'f' then c as int - 'a' as int + 10
    else if 'A' <= c <= 'F' then c as int - 'A' as int + 10
    else c as int - '0' as int
  }

  /** `Number.prototype.toString(16)` of a natural number: no leading zeros. */
  function ToString16(n: nat): (s: string)
    ensures |s| > 0 && AllLowerHex(s)
    decreases n
  {
    if n < 16 then [Digit(n)] else ToString16(n / 16) + [Digit(n % 16)]
  }

  /** `String.prototype.padStart(width, '0')`. */
  function PadStart(s: string, width: nat): string {
    seq(if |s| < width then width - |s| else 0, _ => '0') + s
  }

  /** `Number.parseInt(s, 16)` of a string of hexadecimal digits. */
  function ParseInt16(s: string): (n: int)
    decreases |s|
  {
    if |s| == 0 then 0 else ParseInt16(s[..|s| - 1]) * 16 + DigitValue(s[|s| - 1])
  }

  function Pow16(w: nat): (p: nat)
    ensures p > 0
  {
    if w == 0 then 1 else 16 * Pow16(w - 1)
  }

  lemma {:induction false} ParseZeros(k: nat, s: string)
    ensures ParseInt16(seq(k, _ => '0') + s) == ParseInt16(s)
    decreases |s|, k
  {
    var zeros := seq(k, _ => '0');
    if |s| > 0 {
      var short := s[..|s| - 1];
      ParseZeros(k, short);
      assert (zeros + s)[..k + |s| - 1] == zeros + short;
    } else if k > 0 {
      assert zeros + s == zeros;
      assert zeros[..k - 1] == seq(k - 1, _ => '0') + s;
      ParseZeros(k - 1, s);
    }
  }

  lemma {:induction false} ToString16Spec(n: nat, width: nat)
    requires n < Pow16(width) && width > 0
    ensures |ToString16(n)| <= width && ParseInt16(ToString16(n)) == n
    decreases n
  {
    var s := ToString16(n);
    if n < 16 {
      assert s[..0] == "";
      assert ParseInt16(s) == ParseInt16(s[..0]) * 16 + DigitValue(s[0]);
    } else {
      assert width > 1;
      ToString16Spec(n / 16, width - 1);
      assert s[..|s| - 1] == ToString16(n / 16);
    }
  }

  /** Padding to a width that holds the number gives exactly that width and the same number. */
  lemma FixedWidthHex(n: nat, width: nat)
    requires n < Pow16(width) && width > 0
    ensures var s := PadStart(ToString16(n), width);
      |s| == width && AllLowerHex(s) && ParseInt16(s) == n
  {
    ToString16Spec(n, width);
    ParseZeros(width - |ToString16(n)|, ToString16(n));
  }

  // ----- Ordinal string order -----

  /** The first difference between a and b is at k, and decides for a. */
  ghost predicate FirstDifference(a: string, b: string, k: nat) {
    k < |a| && k < |b| && a[..k] == b[..k] && a[k] < b[k]
  }

  lemma {:induction false} FirstDifferenceDecides(a: string, b: string, k: nat)
    requires FirstDifference(a, b, k)
    ensures StringLess(a, b)
    decreases k
  {
    if k > 0 {
      assert a[0] == a[..k][0] == b[..k][0] == b[0];
      assert a[1..][..k - 1] == a[..k][1..] && b[1..][..k - 1] == b[..k][1..];
      FirstDifferenceDecides(a[1..], b[1..], k - 1);
    }
  }

  lemma {:induction false} HexOrder(a: string, b: string) returns (k: nat)
    requires |a| == |b| && AllLowerHex(a) && AllLowerHex(b)
    requires ParseInt16(a) < ParseInt16(b)
    ensures FirstDifference(a, b, k)
    decreases |a|
  {
    var n := |a| - 1;
    var a', b' := a[..n], b[..n];
    if ParseInt16(a') < ParseInt16(b') {
      k := HexOrder(a', b');
      assert a[..k] == a'[..k] && b[..k] == b'[..k];
    } else if ParseInt16(b') < ParseInt16(a') {
      assert false;
    } else {
      HexInjective(a', b');
      k := n;
    }
  }

  lemma {:induction false} HexInjective(a: string, b: string)
    requires |a| == |b| && AllLowerHex(a) && AllLowerHex(b)
    requires ParseInt16(a) == ParseInt16(b)
    ensures a == b
    decreases |a|
  {
    if |a| > 0 {
      var n := |a| - 1;
      HexInjective(a[..n], b[..n]);
      assert a == a[..n] + [a[n]] && b == b[..n] + [b[n]];
    }
  }

  // ----- parse, version, unixMillis -----

  /** The `canonical` pattern: five dash-separated groups and the RFC variant digit. */
  predicate IsCanonicalShape(s: string) {
    && |s| == 36
    && forall i | 0 <= i < 36 ::
         if i in {8, 13, 18, 23} then s[i] == '-'
         else if i == 19 then s[i] in "89abAB"
         else IsHexDigit(s[i])
  }

  function LowerChar(c: char): char {
    if 'A' <= c <= 'Z' then c - 'A' + 'a' else c
  }

  function ToLowerCase(s: string): (r: string)
    ensures |r| == |s|
  {
    seq(|s|, i requires 0 <= i < |s| => LowerChar(s[i]))
  }

  function Parse(s: string): Result<ID, IdFailure> {
    if IsCanonicalShape(s) then Ok(ToLowerCase(s)) else Err(InvalidId)
  }

  /** A validated ID: `parse` accepts it and returns it unchanged. */
  predicate IsId(s: string) { Parse(s) == Ok(s) }

  lemma ParseIdempotent(s: string)
    requires Parse(s).Ok?
    ensures IsId(Parse(s).value)
  {
    var r := ToLowerCase(s);
    assert forall i | 0 <= i < 36 :: r[i] == LowerChar(s[i]);
    assert ToLowerCase(r) == r;
  }

  function Version(id: ID): int
    requires |id| == 36
  {
    DigitValue(id[14])
  }

  function UnixMillis(id: ID): Option<int>
    requires |id| == 36
  {
    if Version(id) == 7 then Some(ParseInt16(id[..8] + id[9..13])) else None
  }

  // ----- encodeV7 -----

  function ByteHex(b: Byte): string {
    PadStart(ToString16(b), 2)
  }

  /** The suffix bytes in hexadecimal, the first one carrying the two variant bits 10. */
  function TailHex(suffix: seq<Byte>): string
    requires |suffix| == 8
  {
    ByteHex(suffix[0] % 64 + 128) + ByteHex(suffix[1]) + ByteHex(suffix[2]) + ByteHex(suffix[3]) +
    ByteHex(suffix[4]) + ByteHex(suffix[5]) + ByteHex(suffix[6]) + ByteHex(suffix[7])
  }

  const MAX_MILLIS: int := 281474976710655

  /** `0x7000 | counter` is a sum, because the counter stays below 0x1000. */
  function EncodeV7(milliseconds: int, counter: int, suffix: seq<Byte>): string
    requires 0 <= milliseconds <= MAX_MILLIS && 0 <= counter < 4096 && |suffix| == 8
  {
    var stamp := PadStart(ToString16(milliseconds), 12);
    var sequence := ToString16(0x7000 + counter);
    var tail := TailHex(suffix);
    Pow16Values(); FixedWidthHex(milliseconds, 12); TailShape(suffix);
    Join(stamp, sequence, tail)
  }

  function Join(stamp: string, sequence: string, tail: string): string
    requires |stamp| == 12 && |tail| == 16
  {
    stamp[..8] + "-" + stamp[8..] + "-" + sequence + "-" + tail[..4] + "-" + tail[4..]
  }

  lemma JoinLayout(stamp: string, sequence: string, tail: string)
    requires |stamp| == 12 && |sequence| == 4 && |tail| == 16
    ensures var id := Join(stamp, sequence, tail);
      && |id| == 36
      && id[..8] + id[9..13] == stamp && id[14..18] == sequence && id[19..23] + id[24..] == tail
      && id[8] == id[13] == id[18] == id[23] == '-'
  {
    var id := Join(stamp, sequence, tail);
    assert id[..8] == stamp[..8] && id[9..13] == stamp[8..];
    assert id[14..18] == sequence;
    assert id[19..23] == tail[..4] && id[24..] == tail[4..];
  }

  lemma Pow16Values()
    ensures Pow16(2) == 256 && Pow16(4) == 65536 && Pow16(12) == 281474976710656
  {
    assert Pow16(1) == 16 && Pow16(3) == 4096 && Pow16(5) == 1048576 && Pow16(6) == 16777216;
    assert Pow16(8) == 4294967296 && Pow16(10) == 1099511627776;
  }

  /** The first of four digits is 7: every counter keeps the version nibble. */
  lemma SequenceHex(counter: int)
    requires 0 <= counter < 4096
    ensures var s := ToString16(0x7000 + counter);
      |s| == 4 && s[0] == '7' && AllLowerHex(s) && ParseInt16(s) == 0x7000 + counter
  {
    var n := 0x7000 + counter;
    Pow16Values();
    ToString16Spec(n, 4);
    var a, b, c := n / 16, n / 256, n / 4096;
    assert a / 16 == b && b / 16 == c && c == 7;
    assert ToString16(c) == ['7'];
    assert ToString16(b) == ToString16(c) + [Digit(b % 16)];
    assert ToString16(a) == ToString16(b) + [Digit(a % 16)];
    assert ToString16(n) == ToString16(a) + [Digit(n % 16)];
  }

  lemma ByteShape(b: Byte)
    ensures |ByteHex(b)| == 2 && AllLowerHex(ByteHex(b)) && ParseInt16(ByteHex(b)) == b
  {
    Pow16Values();
    FixedWidthHex(b, 2);
  }

  /** The variant bits make the first digit of the tail 8, 9, a or b. */
  lemma VariantDigit(b: Byte)
    requires 128 <= b < 192
    ensures |ByteHex(b)| == 2 && ByteHex(b)[0] in "89ab"
  {
    ByteShape(b);
    var first := ByteHex(b);
    assert first[..1] + [first[1]] == first;
    assert ParseInt16(first[..1]) == ParseInt16(first[..1][..0]) * 16 + DigitValue(first[0]);
    assert ParseInt16(first) == DigitValue(first[0]) * 16 + DigitValue(first[1]);
    assert 8 <= DigitValue(first[0]) < 12;
  }

  lemma TailShape(suffix: seq<Byte>)
    requires |suffix| == 8
    ensures var t := TailHex(suffix); |t| == 16 && AllLowerHex(t) && t[0] in "89ab"
  {
    forall b: Byte
      ensures |ByteHex(b)| == 2 && AllLowerHex(ByteHex(b))
    {
      ByteShape(b);
    }
    VariantDigit(suffix[0] % 64 + 128);
  }

  /** The stamp, sequence and tail of an encoded ID sit where `parse` and `unixMillis` look. */
  lemma EncodeV7Layout(milliseconds: int, counter: int, suffix: seq<Byte>)
    requires 0 <= milliseconds <= MAX_MILLIS && 0 <= counter < 4096 && |suffix| == 8
    ensures var id := EncodeV7(milliseconds, counter, suffix);
      && |id| == 36
      && id[..8] + id[9..13] == PadStart(ToString16(milliseconds), 12)
      && id[14..18] == ToString16(0x7000 + counter)
      && id[8] == id[13] == id[18] == id[23] == '-'
      && id[19..23] + id[24..] == TailHex(suffix)
  {
    Pow16Values();
    FixedWidthHex(milliseconds, 12);
    SequenceHex(counter);
    TailShape(suffix);
    JoinLayout(PadStart(ToString16(milliseconds), 12), ToString16(0x7000 + counter), TailHex(suffix));
  }

  /** An encoded ID parses to itself as version 7 and gives back its millisecond. */
  lemma EncodeV7Decodes(milliseconds: int, counter: int, suffix: seq<Byte>)
    requires 0 <= milliseconds <= MAX_MILLIS && 0 <= counter < 4096 && |suffix| == 8
    ensures var id := EncodeV7(milliseconds, counter, suffix);
      IsId(id) && Version(id) == 7 && UnixMillis(id) == Some(milliseconds)
  {
    var id := EncodeV7(milliseconds, counter, suffix);
    Pow16Values();
    FixedWidthHex(milliseconds, 12);
    SequenceHex(counter);
    TailShape(suffix);
    EncodeV7Layout(milliseconds, counter, suffix);
    var stamp := PadStart(ToString16(milliseconds), 12);
    var tail := TailHex(suffix);
    forall i | 0 <= i < 36
      ensures if i in {8, 13, 18, 23} then id[i] == '-'
              else if i == 19 then id[i] in "89ab"
              else IsLowerHex(id[i])
    {
      if i < 8 { assert id[i] == (id[..8] + id[9..13])[i]; }
      else if 8 < i < 13 { assert id[i] == (id[..8] + id[9..13])[i - 1]; }
      else if 13 < i < 18 { assert id[i] == id[14..18][i - 14]; }
      else if 18 < i < 23 { assert id[i] == (id[19..23] + id[24..])[i - 19]; }
      else if 23 < i { assert id[i] == (id[19..23] + id[24..])[i - 20]; }
    }
    assert id[14] == id[14..18][0];
    assert ToLowerCase(id) == id;
  }

  /** The lesser of two time stamps in front makes the lesser ID. */
  lemma StampDecides(a: string, b: string)
    requires |a| == |b| == 36 && a[8] == b[8]
    requires AllLowerHex(a[..8] + a[9..13]) && AllLowerHex(b[..8] + b[9..13])
    requires ParseInt16(a[..8] + a[9..13]) < ParseInt16(b[..8] + b[9..13])
    ensures StringLess(a, b)
  {
    var stamp1, stamp2 := a[..8] + a[9..13], b[..8] + b[9..13];
    var k := HexOrder(stamp1, stamp2);
    var at := if k < 8 then k else k + 1;
    forall i | 0 <= i < at
      ensures a[i] == b[i]
    {
      if i != 8 {
        var j := if i < 8 then i else i - 1;
        assert stamp1[..k][j] == stamp2[..k][j];
        assert a[i] == stamp1[j] && b[i] == stamp2[j];
      }
    }
    assert a[at] == stamp1[k] && b[at] == stamp2[k];
    FirstDifferenceDecides(a, b, at);
  }

  lemma LaterMillisecond(m1: int, c1: int, s1: seq<Byte>, m2: int, c2: int, s2: seq<Byte>)
    requires 0 <= m1 < m2 <= MAX_MILLIS && 0 <= c1 < 4096 && |s1| == 8 && 0 <= c2 < 4096 && |s2| == 8
    ensures StringLess(EncodeV7(m1, c1, s1), EncodeV7(m2, c2, s2))
  {
    EncodeV7Layout(m1, c1, s1);
    EncodeV7Layout(m2, c2, s2);
    Pow16Values();
    FixedWidthHex(m1, 12);
    FixedWidthHex(m2, 12);
    StampDecides(EncodeV7(m1, c1, s1), EncodeV7(m2, c2, s2));
  }

  lemma LaterCounter(m: int, c1: int, s1: seq<Byte>, c2: int, s2: seq<Byte>)
    requires 0 <= m <= MAX_MILLIS && 0 <= c1 < c2 < 4096 && |s1| == 8 && |s2| == 8
    ensures StringLess(EncodeV7(m, c1, s1), EncodeV7(m, c2, s2))
  {
    var a, b := EncodeV7(m, c1, s1), EncodeV7(m, c2, s2);
    EncodeV7Layout(m, c1, s1);
    EncodeV7Layout(m, c2, s2);
    var stamp1, stamp2 := a[..8] + a[9..13], b[..8] + b[9..13];
    SequenceHex(c1);
    SequenceHex(c2);
    var k := HexOrder(a[14..18], b[14..18]);
    forall i | 0 <= i < 14 + k
      ensures a[i] == b[i]
    {
      if i < 13 && i != 8 {
        var j := if i < 8 then i else i - 1;
        assert a[i] == stamp1[j] && b[i] == stamp2[j];
      } else if 14 <= i {
        assert a[i] == a[14..18][..k][i - 14] && b[i] == b[14..18][..k][i - 14];
      }
    }
    FirstDifferenceDecides(a, b, 14 + k);
  }

  /** A later (millisecond, counter) pair encodes to a greater string, whatever the suffixes are. */
  lemma EncodeV7Order(m1: int, c1: int, s1: seq<Byte>, m2: int, c2: int, s2: seq<Byte>)
    requires 0 <= m1 <= MAX_MILLIS && 0 <= c1 < 4096 && |s1| == 8
    requires 0 <= m2 <= MAX_MILLIS && 0 <= c2 < 4096 && |s2| == 8
    requires m1 < m2 || (m1 == m2 && c1 < c2)
    ensures StringLess(EncodeV7(m1, c1, s1), EncodeV7(m2, c2, s2))
  {
    if m1 < m2 {
      LaterMillisecond(m1, c1, s1, m2, c2, s2);
    } else {
      LaterCounter(m1, c1, s1, c2, s2);
    }
  }
}
