/** UTF-8 (RFC 3629) of JavaScript strings: sequences of UTF-16 code units in which surrogates come in pairs. */
module Utf8 {
  import opened Prelude

  /** Code units with no lone surrogate. */
  predicate IsWellFormed(s: Text)
    decreases |s|
  {
    s == [] ||
    (0 <= s[0] < 0x10000 &&
     if IsHigh(s[0]) then |s| > 1 && IsLow(s[1]) && IsWellFormed(s[2..])
     else !IsLow(s[0]) && IsWellFormed(s[1..]))
  }

  /** How many code units the first character takes. */
  function Width(s: Text): (w: nat)
    requires s != []
  {
    if IsHigh(s[0]) && |s| > 1 then 2 else 1
  }

  function PairPoint(high: int, low: int): int {
    0x10000 + (high - 0xD800) * 0x400 + (low - 0xDC00)
  }

  function Point(s: Text): int
    requires s != []
  {
    if IsHigh(s[0]) && |s| > 1 then PairPoint(s[0], s[1]) else s[0]
  }

  predicate IsPoint(p: int) { 0 <= p < 0x110000 && !(0xD800 <= p <= 0xDFFF) }

  function EncodePoint(p: int): (bytes: seq<Byte>)
    requires IsPoint(p)
    ensures 1 <= |bytes| <= 4
  {
    if p < 0x80 then [p]
    else if p < 0x800 then [0xC0 + p / 64, 0x80 + p % 64]
    else if p < 0x10000 then [0xE0 + p / 4096, 0x80 + p / 64 % 64, 0x80 + p % 64]
    else [0xF0 + p / 262144, 0x80 + p / 4096 % 64, 0x80 + p / 64 % 64, 0x80 + p % 64]
  }

  function Encode(s: Text): seq<Byte>
    requires IsWellFormed(s)
    decreases |s|
  {
    if s == [] then [] else EncodePoint(Point(s)) + Encode(s[Width(s)..])
  }

  predicate IsTail(b: Byte) { 0x80 <= b < 0xC0 }

  /** The first code point and the length of its bytes; None on bytes no code point encodes to. */
  function DecodePoint(b: seq<Byte>): Option<(int, nat)> {
    if b == [] then None
    else if b[0] < 0x80 then Some((b[0], 1))
    else if 0xC2 <= b[0] < 0xE0 && |b| >= 2 && IsTail(b[1]) then
      var p: int := (b[0] as int - 0xC0) * 64 + (b[1] as int - 0x80);
      Some((p, 2))
    else if 0xE0 <= b[0] < 0xF0 && |b| >= 3 && IsTail(b[1]) && IsTail(b[2]) then
      var p: int := (b[0] as int - 0xE0) * 4096 + (b[1] as int - 0x80) * 64 + (b[2] as int - 0x80);
      if p >= 0x800 && IsPoint(p) then Some((p, 3)) else None
    else if 0xF0 <= b[0] < 0xF5 && |b| >= 4 && IsTail(b[1]) && IsTail(b[2]) && IsTail(b[3]) then
      var p: int := (b[0] as int - 0xF0) * 262144 + (b[1] as int - 0x80) * 4096 + (b[2] as int - 0x80) * 64 + (b[3] as int - 0x80);
      if p >= 0x10000 && IsPoint(p) then Some((p, 4)) else None
    else None
  }

  function UnitsOf(p: int): Text {
    if p < 0x10000 then [p] else [0xD800 + (p - 0x10000) / 0x400, 0xDC00 + (p - 0x10000) % 0x400]
  }

  /** Fatal decoding: one malformed byte refuses everything. */
  function DecodeAll(b: seq<Byte>): Option<Text>
    decreases |b|
  {
    if b == [] then Some([])
    else
      match DecodePoint(b)
      case None => None
      case Some((p, n)) =>
        if n > |b| then None
        else
          match DecodeAll(b[n..])
          case None => None
          case Some(rest) => Some(UnitsOf(p) + rest)
  }

  /** `new TextDecoder('utf-8', { fatal: true })`, which also drops a leading byte order mark. */
  function Decode(b: seq<Byte>): Option<Text> {
    DecodeAll(if |b| >= 3 && b[0] == 0xEF && b[1] == 0xBB && b[2] == 0xBF then b[3..] else b)
  }

  lemma Digits(p: int)
    requires p >= 0
    ensures p == p / 64 * 64 + p % 64
    ensures p / 64 == p / 4096 * 64 + p / 64 % 64
    ensures p / 4096 == p / 262144 * 64 + p / 4096 % 64
  {
    assert p / 4096 == p / 64 / 64;
    assert p / 262144 == p / 4096 / 64;
  }

  lemma ShortDecodes(p: int, rest: seq<Byte>)
    requires 0 <= p < 0x800
    ensures DecodePoint(EncodePoint(p) + rest) == Some((p, |EncodePoint(p)|))
  {
    Digits(p);
    var b := EncodePoint(p) + rest;
    assert b[0] == EncodePoint(p)[0];
    if p >= 0x80 { assert b[1] == 0x80 + p % 64; }
  }

  lemma ThreeDecodes(p: int, rest: seq<Byte>)
    requires IsPoint(p) && 0x800 <= p < 0x10000
    ensures DecodePoint(EncodePoint(p) + rest) == Some((p, |EncodePoint(p)|))
  {
    Digits(p);
    var b := EncodePoint(p) + rest;
    assert b[0] == 0xE0 + p / 4096 && b[1] == 0x80 + p / 64 % 64 && b[2] == 0x80 + p % 64;
  }

  lemma FourDecodes(p: int, rest: seq<Byte>)
    requires IsPoint(p) && 0x10000 <= p
    ensures DecodePoint(EncodePoint(p) + rest) == Some((p, |EncodePoint(p)|))
  {
    Digits(p);
    var b := EncodePoint(p) + rest;
    assert b[0] == 0xF0 + p / 262144 && b[1] == 0x80 + p / 4096 % 64;
    assert b[2] == 0x80 + p / 64 % 64 && b[3] == 0x80 + p % 64;
  }

  lemma PointDecodes(p: int, rest: seq<Byte>)
    requires IsPoint(p)
    ensures DecodePoint(EncodePoint(p) + rest) == Some((p, |EncodePoint(p)|))
  {
    if p < 0x800 {
      ShortDecodes(p, rest);
    } else if p < 0x10000 {
      ThreeDecodes(p, rest);
    } else {
      FourDecodes(p, rest);
    }
  }

  lemma PairShape(high: int, low: int)
    requires IsHigh(high) && IsLow(low)
    ensures IsPoint(PairPoint(high, low)) && UnitsOf(PairPoint(high, low)) == [high, low]
  {
    var a, b := high - 0xD800, low - 0xDC00;
    assert (a * 0x400 + b) / 0x400 == a && (a * 0x400 + b) % 0x400 == b;
  }

  lemma FirstCharacter(s: Text)
    requires s != [] && IsWellFormed(s)
    ensures Width(s) <= |s| && IsPoint(Point(s)) && UnitsOf(Point(s)) == s[..Width(s)]
  {
    if IsHigh(s[0]) {
      PairShape(s[0], s[1]);
    }
  }

  lemma Rejoin(s: Text, n: nat)
    requires n <= |s|
    ensures s[..n] + s[n..] == s
  {
  }

  lemma PointShape(s: Text)
    requires s != [] && IsWellFormed(s)
    ensures IsPoint(Point(s)) && Width(s) <= |s| && IsWellFormed(s[Width(s)..])
    ensures UnitsOf(Point(s)) + s[Width(s)..] == s
  {
    FirstCharacter(s);
    Rejoin(s, Width(s));
  }

  lemma {:induction false} EncodeDecodes(s: Text)
    requires IsWellFormed(s)
    ensures DecodeAll(Encode(s)) == Some(s)
    decreases |s|
  {
    if s != [] {
      PointShape(s);
      var rest := Encode(s[Width(s)..]);
      EncodeDecodes(s[Width(s)..]);
      PointDecodes(Point(s), rest);
      assert Encode(s)[|EncodePoint(Point(s))|..] == rest;
    }
  }

  // ----- Decoding is strict -----

  lemma TailOf(b: Byte)
    requires IsTail(b)
    ensures 0 <= b - 0x80 < 64
  {
  }

  lemma TwoBack(b: seq<Byte>)
    requires |b| >= 2 && 0xC2 <= b[0] < 0xE0 && IsTail(b[1])
    ensures var p: int := (b[0] as int - 0xC0) * 64 + (b[1] as int - 0x80);
      IsPoint(p) && EncodePoint(p) == b[..2]
  {
  }

  lemma ThreeBack(b: seq<Byte>, p: int)
    requires |b| >= 3 && 0xE0 <= b[0] < 0xF0 && IsTail(b[1]) && IsTail(b[2])
    requires p == (b[0] as int - 0xE0) * 4096 + (b[1] as int - 0x80) * 64 + (b[2] as int - 0x80)
    requires p >= 0x800 && IsPoint(p)
    ensures EncodePoint(p) == b[..3]
  {
    var x, y, z := b[0] as int - 0xE0, b[1] as int - 0x80, b[2] as int - 0x80;
    assert p / 64 == x * 64 + y && p % 64 == z;
    assert p / 4096 == x && p / 64 % 64 == y;
  }

  lemma FourBack(b: seq<Byte>, p: int)
    requires |b| >= 4 && 0xF0 <= b[0] < 0xF5 && IsTail(b[1]) && IsTail(b[2]) && IsTail(b[3])
    requires p == (b[0] as int - 0xF0) * 262144 + (b[1] as int - 0x80) * 4096 + (b[2] as int - 0x80) * 64 + (b[3] as int - 0x80)
    requires p >= 0x10000 && IsPoint(p)
    ensures EncodePoint(p) == b[..4]
  {
    var x, y, z, w := b[0] as int - 0xF0, b[1] as int - 0x80, b[2] as int - 0x80, b[3] as int - 0x80;
    assert p / 64 == (x * 64 + y) * 64 + z && p % 64 == w;
    assert p / 4096 == x * 64 + y && p / 64 % 64 == z;
    assert p / 262144 == x && p / 4096 % 64 == y;
  }

  /** What is read as a code point is that code point's one encoding. */
  lemma PointBack(b: seq<Byte>)
    requires DecodePoint(b).Some?
    ensures var (p, n) := DecodePoint(b).value; IsPoint(p) && 1 <= n <= |b| && EncodePoint(p) == b[..n]
  {
    if b[0] < 0x80 {
    } else if b[0] < 0xE0 {
      TwoBack(b);
    } else if b[0] < 0xF0 {
      ThreeBack(b, DecodePoint(b).value.0);
    } else {
      FourBack(b, DecodePoint(b).value.0);
    }
  }

  /** The units of a code point, in front of a well-formed text. */
  lemma UnitsBack(p: int, rest: Text)
    requires IsPoint(p) && IsWellFormed(rest)
    ensures var s := UnitsOf(p) + rest; IsWellFormed(s) && Point(s) == p && s[Width(s)..] == rest
  {
    var s := UnitsOf(p) + rest;
    if p < 0x10000 {
      assert s[0] == p && s[1..] == rest;
    } else {
      var q := p - 0x10000;
      assert s[0] == 0xD800 + q / 0x400 && s[1] == 0xDC00 + q % 0x400 && s[2..] == rest;
      assert q == q / 0x400 * 0x400 + q % 0x400;
    }
  }

  lemma PointInFront(p: int, rest: Text)
    requires IsPoint(p) && IsWellFormed(rest)
    ensures IsWellFormed(UnitsOf(p) + rest) && Encode(UnitsOf(p) + rest) == EncodePoint(p) + Encode(rest)
  {
    UnitsBack(p, rest);
  }

  /** Nothing but the encoding of a text is decoded: no overlong form, no surrogate, nothing past U+10FFFF. */
  lemma {:induction false} DecodeEncodes(b: seq<Byte>)
    requires DecodeAll(b).Some?
    ensures IsWellFormed(DecodeAll(b).value) && Encode(DecodeAll(b).value) == b
    decreases |b|
  {
    if b != [] {
      PointBack(b);
      var (p, n) := DecodePoint(b).value;
      DecodeEncodes(b[n..]);
      PointInFront(p, DecodeAll(b[n..]).value);
      assert b == b[..n] + b[n..];
    }
  }

  /** One leading byte order mark is dropped; all else is decoded as it stands. */
  lemma MarkDropped(b: seq<Byte>)
    ensures Decode([0xEF, 0xBB, 0xBF] + b) == DecodeAll(b)
    ensures !([0xEF, 0xBB, 0xBF] <= b) ==> Decode(b) == DecodeAll(b)
  {
    assert ([0xEF, 0xBB, 0xBF] + b)[3..] == b;
    if |b| >= 3 && b[0] == 0xEF && b[1] == 0xBB && b[2] == 0xBF { assert [0xEF, 0xBB, 0xBF] == b[..3]; }
  }

  // ----- Sizes -----

  /** `Buffer.byteLength`: a lone surrogate counts as its three-byte replacement character. */
  function Size(s: Text): nat
    decreases |s|
  {
    if s == [] then 0
    else if s[0] < 0x80 then 1 + Size(s[1..])
    else if s[0] < 0x800 then 2 + Size(s[1..])
    else if IsHigh(s[0]) && |s| > 1 && IsLow(s[1]) then 4 + Size(s[2..])
    else 3 + Size(s[1..])
  }

  lemma {:induction false} EncodeSize(s: Text)
    requires IsWellFormed(s)
    ensures |Encode(s)| == Size(s)
    decreases |s|
  {
    if s != [] {
      PointShape(s);
      EncodeSize(s[Width(s)..]);
    }
  }

  lemma {:induction false} Join(a: Text, b: Text)
    requires IsWellFormed(a) && IsWellFormed(b)
    ensures IsWellFormed(a + b) && Size(a + b) == Size(a) + Size(b)
    decreases |a|
  {
    if a == [] {
      assert a + b == b;
    } else {
      var w := Width(a);
      assert (a + b)[w..] == a[w..] + b;
      Join(a[w..], b);
    }
  }
}
