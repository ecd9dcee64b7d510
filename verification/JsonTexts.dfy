/**
 * What the parser makes of spelled-out texts: escapes in both forms, white space, control characters, digits. The
 * spellings are code units written out here, not those of the grammar (src/shared/http/json.ts).
 */
module JsonTexts {
  import opened Prelude
  import opened JsonGrammar
  import opened JsonParser
  import opened JsonCompleteness

  /** `{"":"`, and what follows. */
  function Doc(rest: Text): Text { [0x7B, 0x22, 0x22, 0x3A, 0x22] + rest }

  function Single(text: Text): Value { Object([Member([], String(text))]) }

  lemma DocOpens(rest: Text, finite: Text -> bool)
    ensures
      ParseDocument(Doc(rest), finite)
      == match ParseFields([0x22, 0x22, 0x3A, 0x22] + rest, 1, [], finite)
         case Fail => None
         case Done(value, after) => if SkipSpace(after) == [] then Some(value) else None
  {
    var t := Doc(rest);
    assert t[1..] == [0x22, 0x22, 0x3A, 0x22] + rest;
    assert SkipSpace(t) == t && SkipSpace(t[1..]) == t[1..];
  }

  lemma DocKey(rest: Text)
    ensures ParseKey([0x22, 0x22, 0x3A, 0x22] + rest, []) == Done([], [0x22] + rest)
  {
    var t := [0x22, 0x22, 0x3A, 0x22] + rest;
    assert SkipSpace(t) == t && t[1..] == [0x22, 0x3A, 0x22] + rest;
    assert t[1..][1..] == [0x3A, 0x22] + rest;
    assert ParseString(t) == Done([], [0x3A, 0x22] + rest);
    assert ([0x3A, 0x22] + rest)[1..] == [0x22] + rest;
    assert SkipSpace([0x3A, 0x22] + rest) == [0x3A, 0x22] + rest;
  }

  lemma DocValue(rest: Text, finite: Text -> bool)
    ensures
      ParseValue([0x22] + rest, 2, finite)
      == match ParseChars(rest, [])
         case Fail => Fail
         case Done(text, after) => Done(String(text), after)
  {
    assert ([0x22] + rest)[1..] == rest;
    assert SkipSpace([0x22] + rest) == [0x22] + rest;
  }

  /** The document is as good as its string. */
  lemma DocReads(rest: Text, finite: Text -> bool)
    ensures ParseChars(rest, []).Fail? ==> ParseDocument(Doc(rest), finite) == None
    ensures ParseChars(rest, []).Done? && ParseChars(rest, []).rest == [0x7D] ==>
      ParseDocument(Doc(rest), finite) == Some(Single(ParseChars(rest, []).value))
  {
    DocOpens(rest, finite);
    DocKey(rest);
    DocValue(rest, finite);
    if ParseChars(rest, []).Done? && ParseChars(rest, []).rest == [0x7D] {
      assert SkipSpace([0x7D]) == [0x7D] && [0x7D][1..] == [];
      assert [] + [Member([], String(ParseChars(rest, []).value))] == [Member([], String(ParseChars(rest, []).value))];
    }
  }

  // ----- Spellings of one code unit -----

  /** A hexadecimal digit, in lower or upper case. */
  function Hex(n: int, upper: bool): int
    requires 0 <= n < 16
  {
    if upper then "0123456789ABCDEF"[n] as int else "0123456789abcdef"[n] as int
  }

  function Hex4(n: int, upper: seq<bool>): Text
    requires 0 <= n < 0x10000 && |upper| == 4
  {
    [Hex(n / 4096, upper[0]), Hex(n / 256 % 16, upper[1]), Hex(n / 16 % 16, upper[2]), Hex(n % 16, upper[3])]
  }

  lemma HexReads(n: int, upper: bool)
    requires 0 <= n < 16
    ensures IsHexUnit(Hex(n, upper)) && HexUnit(Hex(n, upper)) == n
  {
  }

  /** The four digits of a number in base sixteen. */
  lemma Nibbles(n: int)
    requires 0 <= n < 0x10000
    ensures 0 <= n / 4096 < 16 && 0 <= n / 256 % 16 < 16 && 0 <= n / 16 % 16 < 16 && 0 <= n % 16 < 16
    ensures n == n / 4096 * 0x1000 + n / 256 % 16 * 0x100 + n / 16 % 16 * 0x10 + n % 16
  {
    var p, q := n / 16, n / 256;
    assert p / 16 == q && q / 16 == n / 4096;
  }

  lemma UnitIs(s: Text, a: int, b: int, c: int, d: int)
    requires |s| == 4 && HexUnit(s[0]) == a && HexUnit(s[1]) == b && HexUnit(s[2]) == c && HexUnit(s[3]) == d
    ensures CodeUnit(s) == a * 0x1000 + b * 0x100 + c * 0x10 + d
  {
  }

  lemma Hex4Reads(n: int, upper: seq<bool>)
    requires 0 <= n < 0x10000 && |upper| == 4
    ensures IsHex4(Hex4(n, upper)) && CodeUnit(Hex4(n, upper)) == n
  {
    Nibbles(n);
    var a, b, c, d := n / 4096, n / 256 % 16, n / 16 % 16, n % 16;
    HexReads(a, upper[0]);
    HexReads(b, upper[1]);
    HexReads(c, upper[2]);
    HexReads(d, upper[3]);
    UnitIs(Hex4(n, upper), a, b, c, d);
  }

  /** How a string may spell a unit, or a surrogate pair, and what it spells. */
  datatype Spelling =
    | Itself(unit: int)
    | Letter(letter: int)
    | Digits4(unit: int, upper: seq<bool>)
    | Surrogates(high: int, low: int, upper: seq<bool>, lower: seq<bool>)
  {
    predicate Ok() {
      match this
      case Itself(unit) => unit >= 0x20 && unit != 0x22 && unit != 0x5C
      case Letter(letter) => letter in {0x22, 0x5C, 0x2F, 0x62, 0x66, 0x6E, 0x72, 0x74}
      case Digits4(unit, upper) => (0 <= unit < 0xD800 || 0xE000 <= unit < 0x10000) && |upper| == 4
      case Surrogates(high, low, upper, lower) =>
        0xD800 <= high < 0xDC00 && 0xDC00 <= low < 0xE000 && |upper| == 4 && |lower| == 4
    }

    function Written(): Text
      requires Ok()
    {
      match this
      case Itself(unit) => [unit]
      case Letter(letter) => [0x5C, letter]
      case Digits4(unit, upper) => [0x5C, 0x75] + Hex4(unit, upper)
      case Surrogates(high, low, upper, lower) => [0x5C, 0x75] + (Hex4(high, upper) + ([0x5C, 0x75] + Hex4(low, lower)))
    }

    /** The eight letters after a backslash: quote, backslash, slash, backspace, form feed, line feed, return, tab. */
    function Meant(): Text
      requires Ok()
    {
      match this
      case Itself(unit) => [unit]
      case Letter(letter) =>
        [if letter == 0x62 then 0x08 else if letter == 0x66 then 0x0C else if letter == 0x6E then 0x0A
         else if letter == 0x72 then 0x0D else if letter == 0x74 then 0x09 else letter]
      case Digits4(unit, _) => [unit]
      case Surrogates(high, low, _, _) => [high, low]
    }
  }

  predicate AllOk(spellings: seq<Spelling>) { forall i | 0 <= i < |spellings| :: spellings[i].Ok() }

  function WrittenAll(spellings: seq<Spelling>): Text
    requires AllOk(spellings)
  {
    if spellings == [] then [] else spellings[0].Written() + WrittenAll(spellings[1..])
  }

  function MeantAll(spellings: seq<Spelling>): Text
    requires AllOk(spellings)
  {
    if spellings == [] then [] else spellings[0].Meant() + MeantAll(spellings[1..])
  }

  lemma NumberPiece(unit: int, upper: seq<bool>) returns (piece: Piece)
    requires Digits4(unit, upper).Ok()
    ensures piece.WellFormed() && piece.Render() == Digits4(unit, upper).Written() && piece.Denotes() == [unit]
  {
    Hex4Reads(unit, upper);
    piece := JsonGrammar.Hex(Hex4(unit, upper));
  }

  lemma SurrogatesPiece(high: int, low: int, upper: seq<bool>, lower: seq<bool>) returns (piece: Piece)
    requires Surrogates(high, low, upper, lower).Ok()
    ensures piece.WellFormed() && piece.Render() == Surrogates(high, low, upper, lower).Written() && piece.Denotes() == [high, low]
  {
    Hex4Reads(high, upper);
    Hex4Reads(low, lower);
    piece := Pair(Hex4(high, upper), Hex4(low, lower));
    var h, l := Hex4(high, upper), Hex4(low, lower);
    assert [0x5C] + ([0x75] + (h + ([0x5C, 0x75] + l))) == [0x5C, 0x75] + (h + ([0x5C, 0x75] + l));
  }

  lemma SpellingReads(spelling: Spelling, s: Text, output: Text)
    requires spelling.Ok()
    ensures ParseChars(spelling.Written() + s, output) == ParseChars(s, output + spelling.Meant())
  {
    match spelling
    case Itself(unit) => PieceComplete(Raw(unit), s, output);
    case Letter(letter) => PieceComplete(Short(letter), s, output);
    case Digits4(unit, upper) =>
      var piece := NumberPiece(unit, upper);
      PieceComplete(piece, s, output);
    case Surrogates(high, low, upper, lower) =>
      var piece := SurrogatesPiece(high, low, upper, lower);
      PieceComplete(piece, s, output);
  }

  lemma {:induction false} SpellingsRead(spellings: seq<Spelling>, s: Text, output: Text)
    requires AllOk(spellings)
    ensures ParseChars(WrittenAll(spellings) + s, output) == ParseChars(s, output + MeantAll(spellings))
    decreases |spellings|
  {
    if spellings == [] {
      assert WrittenAll(spellings) + s == s && output + MeantAll(spellings) == output;
    } else {
      var first, rest := spellings[0], spellings[1..];
      assert WrittenAll(spellings) + s == first.Written() + (WrittenAll(rest) + s);
      SpellingReads(first, WrittenAll(rest) + s, output);
      SpellingsRead(rest, s, output + first.Meant());
      assert output + first.Meant() + MeantAll(rest) == output + MeantAll(spellings);
    }
  }

  /** However each character of a string is spelled, the document is read as the string meant. */
  lemma EverySpellingReads(spellings: seq<Spelling>, finite: Text -> bool)
    requires AllOk(spellings)
    ensures ParseDocument(Doc(WrittenAll(spellings) + [0x22, 0x7D]), finite) == Some(Single(MeantAll(spellings)))
  {
    var rest := WrittenAll(spellings) + [0x22, 0x7D];
    SpellingsRead(spellings, [0x22, 0x7D], []);
    assert [] + MeantAll(spellings) == MeantAll(spellings) && [0x22, 0x7D][1..] == [0x7D];
    DocReads(rest, finite);
  }

  // ----- What no string may hold -----

  lemma BadTail(spellings: seq<Spelling>, bad: Text, finite: Text -> bool)
    requires AllOk(spellings) && forall output :: ParseChars(bad, output).Fail?
    ensures ParseDocument(Doc(WrittenAll(spellings) + bad), finite) == None
  {
    SpellingsRead(spellings, bad, []);
    DocReads(WrittenAll(spellings) + bad, finite);
  }

  /** After a backslash nothing but the eight letters and `u` is let through. */
  lemma OtherEscapeRefused(spellings: seq<Spelling>, letter: int, tail: Text, finite: Text -> bool)
    requires AllOk(spellings) && letter !in {0x22, 0x5C, 0x2F, 0x62, 0x66, 0x6E, 0x72, 0x74, 0x75}
    ensures ParseDocument(Doc(WrittenAll(spellings) + ([0x5C, letter] + tail)), finite) == None
  {
    var bad := [0x5C, letter] + tail;
    assert bad[1..] == [letter] + tail;
    BadTail(spellings, bad, finite);
  }

  /** Control characters have to be escaped. */
  lemma ControlRefused(spellings: seq<Spelling>, unit: int, tail: Text, finite: Text -> bool)
    requires AllOk(spellings) && unit < 0x20
    ensures ParseDocument(Doc(WrittenAll(spellings) + ([unit] + tail)), finite) == None
  {
    BadTail(spellings, [unit] + tail, finite);
  }

  /** `\u` takes four hexadecimal digits. */
  lemma BadDigitsRefused(spellings: seq<Spelling>, digits: Text, i: nat, tail: Text, finite: Text -> bool)
    requires AllOk(spellings) && i < |digits| == 4
    requires forall n: int, upper: bool | 0 <= n < 16 :: digits[i] != Hex(n, upper)
    ensures ParseDocument(Doc(WrittenAll(spellings) + ([0x5C, 0x75] + (digits + tail))), finite) == None
  {
    var bad := [0x5C, 0x75] + (digits + tail);
    assert bad[1..] == [0x75] + (digits + tail) && bad[1..][1..] == digits + tail;
    assert (digits + tail)[..4] == digits;
    if IsHexUnit(digits[i]) { HexIs(digits[i]); }
    BadTail(spellings, bad, finite);
  }

  lemma HexIs(u: int)
    requires IsHexUnit(u)
    ensures exists n: int, upper: bool :: 0 <= n < 16 && u == Hex(n, upper)
  {
    var n := HexUnit(u);
    assert u == Hex(n, false) || u == Hex(n, true);
  }

  /** An escaped high surrogate without an escaped low one, and a low one by itself, are refused. */
  lemma LoneSurrogateRefused(spellings: seq<Spelling>, unit: int, upper: seq<bool>, tail: Text, finite: Text -> bool)
    requires AllOk(spellings) && 0xD800 <= unit < 0xE000 && |upper| == 4
    requires unit < 0xDC00 ==> forall low: int, lower: seq<bool> | 0xDC00 <= low < 0xE000 && |lower| == 4 ::
               !([0x5C, 0x75] + Hex4(low, lower) <= tail)
    ensures ParseDocument(Doc(WrittenAll(spellings) + ([0x5C, 0x75] + (Hex4(unit, upper) + tail))), finite) == None
  {
    var digits := Hex4(unit, upper);
    var bad := [0x5C, 0x75] + (digits + tail);
    Hex4Reads(unit, upper);
    assert bad[1..] == [0x75] + (digits + tail) && bad[1..][1..] == digits + tail;
    assert (digits + tail)[..4] == digits && (digits + tail)[4..] == tail;
    if unit < 0xDC00 && Starts(tail, BACKSLASH) && Starts(tail[1..], 'u' as int) && ParseUnit(tail[2..]).Done?
       && IsLow(ParseUnit(tail[2..]).value)
    {
      LowAhead(tail);
      assert false;
    }
    BadTail(spellings, bad, finite);
  }

  lemma LowAhead(tail: Text)
    requires |tail| >= 6 && tail[0] == 0x5C && tail[1] == 0x75 && IsHex4(tail[2..][..4]) && IsLow(CodeUnit(tail[2..][..4]))
    ensures exists low: int, lower: seq<bool> ::
      0xDC00 <= low < 0xE000 && |lower| == 4 && [0x5C, 0x75] + Hex4(low, lower) <= tail
  {
    var low, lower := Hex4Is(tail[2..][..4]);
    assert [0x5C, 0x75] + Hex4(low, lower) == tail[..6];
  }

  lemma DigitsOf(n: int, a: int, b: int, c: int, d: int)
    requires 0 <= a < 16 && 0 <= b < 16 && 0 <= c < 16 && 0 <= d < 16 && n == a * 0x1000 + b * 0x100 + c * 0x10 + d
    ensures 0 <= n < 0x10000 && n / 4096 == a && n / 256 % 16 == b && n / 16 % 16 == c && n % 16 == d
  {
    assert n / 16 == (a * 16 + b) * 16 + c && n / 256 == a * 16 + b;
  }

  lemma Hex4Is(s: Text) returns (n: int, upper: seq<bool>)
    requires IsHex4(s)
    ensures 0 <= n < 0x10000 && |upper| == 4 && n == CodeUnit(s) && s == Hex4(n, upper)
  {
    var a, b, c, d := HexUnit(s[0]), HexUnit(s[1]), HexUnit(s[2]), HexUnit(s[3]);
    UnitIs(s, a, b, c, d);
    n := CodeUnit(s);
    DigitsOf(n, a, b, c, d);
    HexCase(s[0]);
    HexCase(s[1]);
    HexCase(s[2]);
    HexCase(s[3]);
    upper := [s[0] == Hex(a, true), s[1] == Hex(b, true), s[2] == Hex(c, true), s[3] == Hex(d, true)];
    assert Hex4(n, upper) == [Hex(a, upper[0]), Hex(b, upper[1]), Hex(c, upper[2]), Hex(d, upper[3])];
    assert s == [s[0], s[1], s[2], s[3]];
  }

  lemma HexCase(u: int)
    requires IsHexUnit(u)
    ensures u == Hex(HexUnit(u), u == Hex(HexUnit(u), true))
  {
  }

  // ----- Around the tokens -----

  /** Space, tab, line feed and carriage return may come before the object; anything else is refused. */
  lemma LeadingUnit(u: int, text: Text, finite: Text -> bool)
    ensures u in {0x20, 0x09, 0x0A, 0x0D} ==> ParseDocument([u] + text, finite) == ParseDocument(text, finite)
    ensures u !in {0x20, 0x09, 0x0A, 0x0D, 0x7B} ==> ParseDocument([u] + text, finite) == None
  {
    assert ([u] + text)[1..] == text;
  }

  /** `{"":` and a value that starts with this unit. */
  function NumberDoc(u: int, tail: Text): Text { [0x7B, 0x22, 0x22, 0x3A] + ([u] + tail) }

  lemma NumberDocOpens(u: int, tail: Text, finite: Text -> bool)
    ensures
      ParseDocument(NumberDoc(u, tail), finite)
      == match ParseFields([0x22, 0x22, 0x3A] + ([u] + tail), 1, [], finite)
         case Fail => None
         case Done(value, after) => if SkipSpace(after) == [] then Some(value) else None
  {
    var t, v := NumberDoc(u, tail), [u] + tail;
    assert t[1..] == [0x22, 0x22, 0x3A] + v;
    assert SkipSpace(t) == t && SkipSpace(t[1..]) == t[1..];
  }

  lemma NumberDocReads(u: int, tail: Text, finite: Text -> bool)
    ensures ParseValue([u] + tail, 2, finite).Fail? ==> ParseDocument(NumberDoc(u, tail), finite) == None
    ensures ParseValue([u] + tail, 2, finite).Done? && ParseValue([u] + tail, 2, finite).rest == [0x7D] ==>
      ParseDocument(NumberDoc(u, tail), finite) == Some(Object([Member([], ParseValue([u] + tail, 2, finite).value)]))
  {
    NumberDocOpens(u, tail, finite);
    NumberKey([u] + tail);
    var value := ParseValue([u] + tail, 2, finite);
    if value.Done? && value.rest == [0x7D] {
      assert SkipSpace([0x7D]) == [0x7D] && [0x7D][1..] == [] && SkipSpace([]) == [];
      assert [] + [Member([], value.value)] == [Member([], value.value)];
    }
  }

  lemma NumberKey(v: Text)
    ensures ParseKey([0x22, 0x22, 0x3A] + v, []) == Done([], v)
  {
    var t := [0x22, 0x22, 0x3A] + v;
    assert SkipSpace(t) == t && t[1..] == [0x22, 0x3A] + v && t[1..][1..] == [0x3A] + v;
    assert ParseString(t) == Done([], [0x3A] + v);
    assert ([0x3A] + v)[1..] == v && SkipSpace([0x3A] + v) == [0x3A] + v;
  }

  /** A digit is a number by itself; a value starts with a digit, a minus, a quote, a bracket, a brace, or t, f, n. */
  lemma ValueStarts(u: int, tail: Text, finite: Text -> bool)
    requires u !in {0x20, 0x09, 0x0A, 0x0D}
    ensures 0x30 <= u <= 0x39 && finite([u]) ==>
      ParseDocument(NumberDoc(u, [0x7D]), finite) == Some(Object([Member([], JsonGrammar.Number([u]))]))
    ensures !(0x30 <= u <= 0x39) && u !in {0x2D, 0x22, 0x5B, 0x7B, 0x74, 0x66, 0x6E} ==>
      ParseDocument(NumberDoc(u, tail), finite) == None
  {
    NumberDocReads(u, tail, finite);
    NumberDocReads(u, [0x7D], finite);
    var s := [u] + [0x7D];
    assert s[1..] == [0x7D] && s[..1] == [u];
    assert ([u] + tail)[1..] == tail;
    assert SkipSpace(s) == s && SkipSpace([u] + tail) == [u] + tail;
    if 0x30 <= u <= 0x39 {
      assert DigitsEnd([0x7D]) == 0 && DigitsEnd(s) == 1 && WholeEnd(s) == 1;
      assert s[1..][0..] == [0x7D];
      assert NumberEnd(s) == 1;
    }
  }
}
