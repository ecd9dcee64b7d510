/** Unpadded base64url, section 5 of RFC 4648, with the lenient decoding of `Buffer.from(wire, 'base64url')`. */
module Base64Url {
  import opened Prelude

  type Sextet = v: int | 0 <= v < 64

  predicate IsAlphabet(c: char) {
    'A' <= c <= 'Z' || 'a' <= c <= 'z' || '0' <= c <= '9' || c == '-' || c == '_'
  }

  function Letter(v: Sextet): (c: char)
    ensures IsAlphabet(c)
  {
    if v < 26 then 'A' + v as char
    else if v < 52 then 'a' + (v - 26) as char
    else if v < 62 then '0' + (v - 52) as char
    else if v == 62 then '-'
    else '_'
  }

  function Worth(c: char): Sextet {
    if 'A' <= c <= 'Z' then c as int - 'A' as int
    else if 'a' <= c <= 'z' then c as int - 'a' as int + 26
    else if '0' <= c <= '9' then c as int - '0' as int + 52
    else if c == '-' then 62
    else if c == '_' then 63
    else 0
  }

  lemma LetterWorth(v: Sextet)
    ensures Worth(Letter(v)) == v
  {
  }

  function Group(a: Byte, b: Byte, c: Byte): (letters: string)
    ensures |letters| == 4 && forall i | 0 <= i < 4 :: IsAlphabet(letters[i])
  {
    [Letter(a / 4), Letter(a % 4 * 16 + b / 16), Letter(b % 16 * 4 + c / 64), Letter(c % 64)]
  }

  /** Three bytes are four letters; a tail of one or two bytes is two or three letters. */
  function Encode(bytes: seq<Byte>): (wire: string)
    ensures forall i | 0 <= i < |wire| :: IsAlphabet(wire[i])
    ensures |wire| == |bytes| / 3 * 4 + (if |bytes| % 3 == 0 then 0 else |bytes| % 3 + 1)
    decreases |bytes|
  {
    if bytes == [] then ""
    else if |bytes| == 1 then Group(bytes[0], 0, 0)[..2]
    else if |bytes| == 2 then Group(bytes[0], bytes[1], 0)[..3]
    else
      Group(bytes[0], bytes[1], bytes[2]) + Encode(bytes[3..])
  }

  /** Left-over bits of the last letters, and a single last letter, are dropped. */
  function Decode(wire: string): seq<Byte>
    decreases |wire|
  {
    if |wire| < 2 then []
    else
      var first := Worth(wire[0]) * 4 + Worth(wire[1]) / 16;
      if |wire| == 2 then [first]
      else
        var second := Worth(wire[1]) % 16 * 16 + Worth(wire[2]) / 4;
        if |wire| == 3 then [first, second]
        else [first, second, Worth(wire[2]) % 4 * 64 + Worth(wire[3])] + Decode(wire[4..])
  }

  lemma GroupWorth(a: Byte, b: Byte, c: Byte)
    ensures
      var g := Group(a, b, c);
      && Worth(g[0]) * 4 + Worth(g[1]) / 16 == a
      && Worth(g[1]) % 16 * 16 + Worth(g[2]) / 4 == b
      && Worth(g[2]) % 4 * 64 + Worth(g[3]) == c
  {
    LetterWorth(a / 4);
    LetterWorth(a % 4 * 16 + b / 16);
    LetterWorth(b % 16 * 4 + c / 64);
    LetterWorth(c % 64);
  }

  lemma GroupDecodes(a: Byte, b: Byte, c: Byte, rest: string)
    ensures Decode(Group(a, b, c) + rest) == [a, b, c] + Decode(rest)
  {
    GroupWorth(a, b, c);
    var g := Group(a, b, c);
    var wire := g + rest;
    assert wire[..4] == g && wire[4..] == rest;
    assert wire[0] == g[0] && wire[1] == g[1] && wire[2] == g[2] && wire[3] == g[3];
  }

  lemma TailsDecode(a: Byte, b: Byte)
    ensures Decode(Group(a, 0, 0)[..2]) == [a] && Decode(Group(a, b, 0)[..3]) == [a, b]
  {
    GroupWorth(a, 0, 0);
    GroupWorth(a, b, 0);
  }

  lemma ShortDecodes(bytes: seq<Byte>)
    requires |bytes| < 3
    ensures Decode(Encode(bytes)) == bytes
  {
    if |bytes| == 1 {
      TailsDecode(bytes[0], 0);
      assert bytes == [bytes[0]];
    } else if |bytes| == 2 {
      TailsDecode(bytes[0], bytes[1]);
      assert bytes == [bytes[0], bytes[1]];
    }
  }

  lemma {:induction false} EncodeDecodes(bytes: seq<Byte>)
    ensures Decode(Encode(bytes)) == bytes
    decreases |bytes|
  {
    if |bytes| < 3 {
      ShortDecodes(bytes);
    } else {
      EncodeDecodes(bytes[3..]);
      GroupDecodes(bytes[0], bytes[1], bytes[2], Encode(bytes[3..]));
      assert bytes == [bytes[0], bytes[1], bytes[2]] + bytes[3..];
    }
  }
}
