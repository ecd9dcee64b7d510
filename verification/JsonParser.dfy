/** The strict, bounded JSON parser of request bodies (src/shared/http/json.ts). */
module JsonParser {
  import opened Prelude
  import opened JsonGrammar

  const MAX_DEPTH := 8

  datatype Parsed<+T> = Fail | Done(value: T, rest: Text)

  // ----- What the parser computes, on the text that is still ahead of the cursor -----

  function SkipSpace(s: Text): (rest: Text)
    ensures |rest| <= |s|
  {
    if s != [] && IsSpace(s[0]) then SkipSpace(s[1..]) else s
  }

  predicate Starts(s: Text, unit: int) { s != [] && s[0] == unit }

  function DigitsEnd(s: Text): (n: nat)
    ensures n <= |s|
  {
    if s != [] && IsDigitUnit(s[0]) then 1 + DigitsEnd(s[1..]) else 0
  }

  /** The length of `(\.\d+)?`. */
  function FractionEnd(s: Text): (n: nat)
    ensures n <= |s|
  {
    if Starts(s, '.' as int) && DigitsEnd(s[1..]) > 0 then 1 + DigitsEnd(s[1..]) else 0
  }

  /** The length of `[+-]?\d+`; 0 when there is none. */
  function SignedEnd(s: Text): (n: nat)
    ensures n <= |s|
  {
    if !(Starts(s, '+' as int) || Starts(s, '-' as int)) then DigitsEnd(s)
    else if DigitsEnd(s[1..]) == 0 then 0
    else 1 + DigitsEnd(s[1..])
  }

  /** The length of `([eE][+-]?\d+)?`. */
  function ExponentEnd(s: Text): (n: nat)
    ensures n <= |s|
  {
    if (Starts(s, 'e' as int) || Starts(s, 'E' as int)) && SignedEnd(s[1..]) > 0 then 1 + SignedEnd(s[1..]) else 0
  }

  /** The length of `(0|[1-9]\d*)`; 0 when there is none. */
  function WholeEnd(s: Text): (n: nat)
    ensures n <= |s|
  {
    if Starts(s, '0' as int) then 1 else DigitsEnd(s)
  }

  function UnsignedEnd(s: Text): (n: nat)
    ensures n <= |s|
  {
    var whole := WholeEnd(s);
    if whole == 0 then 0
    else
      var fraction := FractionEnd(s[whole..]);
      whole + fraction + ExponentEnd(s[whole..][fraction..])
  }

  /** The length of the longest match of the number pattern at the start of s; 0 when there is none. */
  function NumberEnd(s: Text): (n: nat)
    ensures n <= |s|
  {
    if !Starts(s, '-' as int) then UnsignedEnd(s)
    else if UnsignedEnd(s[1..]) == 0 then 0
    else 1 + UnsignedEnd(s[1..])
  }

  function ParseNumber(s: Text, finite: Text -> bool): (r: Parsed<Value>)
    ensures r.Done? ==> |r.rest| < |s|
  {
    var n := NumberEnd(s);
    if n == 0 || !finite(s[..n]) then Fail else Done(Number(s[..n]), s[n..])
  }

  function ParseWord(s: Text, word: Value): (r: Parsed<Value>)
    ensures r.Done? ==> |r.rest| < |s|
  {
    var text := WordText(word);
    if |text| <= |s| && s[..|text|] == text then Done(word, s[|text|..]) else Fail
  }

  function ParseUnit(s: Text): (r: Parsed<int>)
    ensures r.Done? ==> |r.rest| < |s|
  {
    if |s| >= 4 && IsHex4(s[..4]) then Done(CodeUnit(s[..4]), s[4..]) else Fail
  }

  /** One escape, after its backslash. */
  function ParseEscape(s: Text): (r: Parsed<Text>)
    ensures r.Done? ==> |r.rest| < |s|
  {
    if s == [] then Fail
    else if ShortEscape(s[0]).Some? then Done([ShortEscape(s[0]).value], s[1..])
    else if s[0] != 'u' as int then Fail
    else
      match ParseUnit(s[1..])
      case Fail => Fail
      case Done(unit, rest) =>
        if IsHigh(unit) then
          if Starts(rest, BACKSLASH) && Starts(rest[1..], 'u' as int) then
            match ParseUnit(rest[2..])
            case Fail => Fail
            case Done(low, after) => if IsLow(low) then Done([unit, low], after) else Fail
          else Fail
        else if IsLow(unit) then Fail
        else Done([unit], rest)
  }

  /** The characters of a string and its closing quotation mark. */
  function ParseChars(s: Text, output: Text): (r: Parsed<Text>)
    ensures r.Done? ==> |r.rest| < |s|
    decreases |s|
  {
    if s == [] then Fail
    else if s[0] == QUOTE then Done(output, s[1..])
    else if s[0] < 0x20 then Fail
    else if s[0] != BACKSLASH then ParseChars(s[1..], output + [s[0]])
    else
      match ParseEscape(s[1..])
      case Fail => Fail
      case Done(units, rest) => ParseChars(rest, output + units)
  }

  function ParseString(s: Text): (r: Parsed<Text>)
    ensures r.Done? ==> |r.rest| < |s|
  {
    if Starts(s, QUOTE) then ParseChars(s[1..], []) else Fail
  }

  function ParseScalar(s: Text, finite: Text -> bool): (r: Parsed<Value>)
    ensures r.Done? ==> |r.rest| < |s|
  {
    if Starts(s, QUOTE) then
      match ParseString(s)
      case Fail => Fail
      case Done(text, rest) => Done(String(text), rest)
    else if Starts(s, 't' as int) then ParseWord(s, Bool(true))
    else if Starts(s, 'f' as int) then ParseWord(s, Bool(false))
    else if Starts(s, 'n' as int) then ParseWord(s, Null)
    else ParseNumber(s, finite)
  }

  function ParseValue(s: Text, depth: nat, finite: Text -> bool): (r: Parsed<Value>)
    ensures r.Done? ==> |r.rest| < |s|
    decreases |s|, 2
  {
    if depth > MAX_DEPTH then Fail
    else
      var t := SkipSpace(s);
      if Starts(t, OPEN_OBJECT) then ParseObject(t, depth, finite)
      else if Starts(t, OPEN_ARRAY) then ParseArray(t, depth, finite)
      else ParseScalar(t, finite)
  }

  function ParseArray(s: Text, depth: nat, finite: Text -> bool): (r: Parsed<Value>)
    ensures r.Done? ==> |r.rest| < |s|
    decreases |s|, 1
  {
    if !Starts(s, OPEN_ARRAY) then Fail
    else
      var t := SkipSpace(s[1..]);
      if Starts(t, CLOSE_ARRAY) then Done(Array([]), t[1..]) else ParseItems(t, depth, [], finite)
  }

  function ParseItems(s: Text, depth: nat, output: seq<Value>, finite: Text -> bool): (r: Parsed<Value>)
    ensures r.Done? ==> |r.rest| < |s|
    decreases |s|, 3
  {
    match ParseValue(s, depth + 1, finite)
    case Fail => Fail
    case Done(item, rest) =>
      var t := SkipSpace(rest);
      if Starts(t, COMMA) then ParseItems(t[1..], depth, output + [item], finite)
      else if Starts(t, CLOSE_ARRAY) then Done(Array(output + [item]), t[1..])
      else Fail
  }

  predicate HasKey(members: seq<Member>, key: Text) {
    exists i | 0 <= i < |members| :: members[i].key == key
  }

  function ParseObject(s: Text, depth: nat, finite: Text -> bool): (r: Parsed<Value>)
    ensures r.Done? ==> |r.rest| < |s|
    decreases |s|, 1
  {
    if depth > MAX_DEPTH || !Starts(s, OPEN_OBJECT) then Fail
    else
      var t := SkipSpace(s[1..]);
      if Starts(t, CLOSE_OBJECT) then Done(Object([]), t[1..]) else ParseFields(t, depth, [], finite)
  }

  /** The key of a member and the colon after it. */
  function ParseKey(s: Text, output: seq<Member>): (r: Parsed<Text>)
    ensures r.Done? ==> |r.rest| < |s|
  {
    match ParseString(SkipSpace(s))
    case Fail => Fail
    case Done(key, rest) =>
      var t := SkipSpace(rest);
      if HasKey(output, key) || !Starts(t, COLON) then Fail else Done(key, t[1..])
  }

  function ParseFields(s: Text, depth: nat, output: seq<Member>, finite: Text -> bool): (r: Parsed<Value>)
    ensures r.Done? ==> |r.rest| < |s|
    decreases |s|, 3
  {
    match ParseKey(s, output)
    case Fail => Fail
    case Done(key, afterKey) =>
      match ParseValue(afterKey, depth + 1, finite)
      case Fail => Fail
      case Done(value, rest) =>
        var t := SkipSpace(rest);
        if Starts(t, COMMA) then ParseFields(t[1..], depth, output + [Member(key, value)], finite)
        else if Starts(t, CLOSE_OBJECT) then Done(Object(output + [Member(key, value)]), t[1..])
        else Fail
  }

  function ParseDocument(text: Text, finite: Text -> bool): Option<Value> {
    var t := SkipSpace(text);
    if !Starts(t, OPEN_OBJECT) then None
    else
      match ParseObject(t, 1, finite)
      case Fail => None
      case Done(value, rest) => if SkipSpace(rest) == [] then Some(value) else None
  }
}
