/** The parser as the source runs it: one cursor over the text, loops that collect output (src/shared/http/json.ts). */
module JsonCursor {
  import opened Prelude
  import opened JsonGrammar
  import opened JsonParser
  import opened JsonCompleteness
  import opened JsonSoundness
  import Utf8

  const MAX_BYTES := 1048576

  /** A call that throws returns None; otherwise it returns the value and leaves the cursor at the rest. */
  ghost predicate Agrees<T(!new)>(parsed: Parsed<T>, r: Option<T>, rest: Text) {
    match parsed
    case Fail => r == None
    case Done(value, after) => r == Some(value) && rest == after
  }

  class Parser {
    const text: Text
    const finite: Text -> bool
    var i: nat

    constructor (text: Text, finite: Text -> bool)
      ensures this.text == text && this.finite == finite && i == 0
    {
      this.text, this.finite, this.i := text, finite, 0;
    }

    ghost function Ahead(): Text
      reads this
      requires i <= |text|
    {
      text[i..]
    }

    method Space()
      requires i <= |text|
      modifies this
      ensures i <= |text| && Ahead() == SkipSpace(old(Ahead()))
    {
      while i < |text| && IsSpace(text[i])
        invariant i <= |text| && SkipSpace(Ahead()) == SkipSpace(old(Ahead()))
      {
        assert Ahead()[1..] == text[i + 1..];
        i := i + 1;
      }
    }

    method Word(word: Value) returns (r: Option<Value>)
      requires i <= |text|
      modifies this
      ensures i <= |text| && Agrees(ParseWord(old(Ahead()), word), r, Ahead())
    {
      var spelling := WordText(word);
      if i + |spelling| <= |text| && text[i..i + |spelling|] == spelling {
        assert Ahead()[..|spelling|] == spelling && Ahead()[|spelling|..] == text[i + |spelling|..];
        i := i + |spelling|;
        return Some(word);
      }
      assert |spelling| <= |Ahead()| ==> Ahead()[..|spelling|] == text[i..i + |spelling|];
      r := None;
    }

    method Number() returns (r: Option<Value>)
      requires i <= |text|
      modifies this
      ensures i <= |text| && Agrees(ParseNumber(old(Ahead()), finite), r, Ahead())
    {
      var n := NumberEnd(text[i..]);
      if n == 0 {
        return None;
      }
      var lexeme := text[i..i + n];
      assert lexeme == Ahead()[..n] && text[i + n..] == Ahead()[n..];
      i := i + n;
      r := if finite(lexeme) then Some(Value.Number(lexeme)) else None;
    }

    method Unit() returns (r: Option<int>)
      requires i <= |text|
      modifies this
      ensures i <= |text| && Agrees(ParseUnit(old(Ahead())), r, Ahead())
    {
      if i + 4 <= |text| && IsHex4(text[i..i + 4]) {
        assert Ahead()[..4] == text[i..i + 4] && Ahead()[4..] == text[i + 4..];
        r := Some(CodeUnit(text[i..i + 4]));
        i := i + 4;
        return;
      }
      assert |Ahead()| >= 4 ==> Ahead()[..4] == text[i..i + 4];
      r := None;
    }

    method Escape() returns (r: Option<Text>)
      requires i <= |text|
      modifies this
      ensures i <= |text| && Agrees(ParseEscape(old(Ahead())), r, Ahead())
    {
      if i == |text| {
        return None;
      }
      var escaped := text[i];
      assert Ahead()[1..] == text[i + 1..];
      i := i + 1;
      if ShortEscape(escaped).Some? {
        return Some([ShortEscape(escaped).value]);
      }
      if escaped != 'u' as int {
        return None;
      }
      var unit := Unit();
      if unit.None? {
        return None;
      }
      if IsHigh(unit.value) {
        if !(i + 2 <= |text| && text[i] == BACKSLASH && text[i + 1] == 'u' as int) {
          return None;
        }
        assert Ahead()[1..][0] == text[i + 1] && Ahead()[2..] == text[i + 2..];
        i := i + 2;
        var low := Unit();
        if low.None? || !IsLow(low.value) {
          return None;
        }
        return Some([unit.value, low.value]);
      }
      r := if IsLow(unit.value) then None else Some([unit.value]);
    }

    method StringToken() returns (r: Option<Text>)
      requires i <= |text|
      modifies this
      ensures i <= |text| && Agrees(ParseString(old(Ahead())), r, Ahead())
    {
      if i == |text| || text[i] != QUOTE {
        return None;
      }
      assert Ahead()[1..] == text[i + 1..];
      i := i + 1;
      var output: Text := [];
      while true
        invariant i <= |text|
        invariant ParseString(old(Ahead())) == ParseChars(Ahead(), output)
        decreases |text| - i
      {
        if i >= |text| {
          return None;
        }
        var character := text[i];
        assert Ahead()[1..] == text[i + 1..];
        i := i + 1;
        if character == QUOTE {
          return Some(output);
        }
        if character < 0x20 {
          return None;
        }
        if character != BACKSLASH {
          output := output + [character];
        } else {
          var units := Escape();
          if units.None? {
            return None;
          }
          output := output + units.value;
        }
      }
    }

    method ValueToken(depth: nat) returns (r: Option<Value>)
      requires i <= |text|
      modifies this
      ensures i <= |text| && Agrees(ParseValue(old(Ahead()), depth, finite), r, Ahead())
      decreases |text| - i, 2
    {
      if depth > MAX_DEPTH {
        return None;
      }
      Space();
      if i < |text| && text[i] == OPEN_OBJECT {
        r := ObjectToken(depth);
      } else if i < |text| && text[i] == OPEN_ARRAY {
        r := ArrayToken(depth);
      } else {
        r := Scalar();
      }
    }

    method Scalar() returns (r: Option<Value>)
      requires i <= |text|
      modifies this
      ensures i <= |text| && Agrees(ParseScalar(old(Ahead()), finite), r, Ahead())
    {
      if i < |text| && text[i] == QUOTE {
        var token := StringToken();
        r := if token.Some? then Some(String(token.value)) else None;
      } else if i < |text| && text[i] == 't' as int {
        r := Word(Bool(true));
      } else if i < |text| && text[i] == 'f' as int {
        r := Word(Bool(false));
      } else if i < |text| && text[i] == 'n' as int {
        r := Word(Null);
      } else {
        r := Number();
      }
    }

    method ArrayToken(depth: nat) returns (r: Option<Value>)
      requires i <= |text|
      modifies this
      ensures i <= |text| && Agrees(ParseArray(old(Ahead()), depth, finite), r, Ahead())
      decreases |text| - i, 1
    {
      if i == |text| || text[i] != OPEN_ARRAY {
        return None;
      }
      assert Ahead()[1..] == text[i + 1..];
      i := i + 1;
      Space();
      if i < |text| && text[i] == CLOSE_ARRAY {
        assert Ahead()[1..] == text[i + 1..];
        i := i + 1;
        return Some(Array([]));
      }
      r := ItemTokens(depth);
    }

    /** Past an element or a member: true after a comma, false after the closing bracket. */
    method More(close: int) returns (more: Option<bool>)
      requires i <= |text| && close != COMMA
      modifies this
      ensures i <= |text|
      ensures
        var t := SkipSpace(old(Ahead()));
        && (more.None? <==> !Starts(t, COMMA) && !Starts(t, close))
        && (more.Some? ==> more.value == Starts(t, COMMA) && Ahead() == t[1..])
    {
      Space();
      if i < |text| && (text[i] == COMMA || text[i] == close) {
        more := Some(text[i] == COMMA);
        assert Ahead()[1..] == text[i + 1..];
        i := i + 1;
      } else {
        more := None;
      }
    }

    /** The elements of an array and its closing bracket. */
    method ItemTokens(depth: nat) returns (r: Option<Value>)
      requires i <= |text|
      modifies this
      ensures i <= |text| && Agrees(ParseItems(old(Ahead()), depth, [], finite), r, Ahead())
      decreases |text| - i, 3
    {
      var output: seq<Value> := [];
      while true
        invariant old(i) <= i <= |text|
        invariant ParseItems(old(Ahead()), depth, [], finite) == ParseItems(Ahead(), depth, output, finite)
        decreases |text| - i
      {
        var item := ValueToken(depth + 1);
        if item.None? {
          return None;
        }
        output := output + [item.value];
        var more := More(CLOSE_ARRAY);
        if more.None? {
          return None;
        }
        if !more.value {
          return Some(Array(output));
        }
      }
    }

    /** White space, the key of a member, white space, and the colon; a key already there is refused. */
    method KeyToken(output: seq<Member>) returns (r: Option<Text>)
      requires i <= |text|
      modifies this
      ensures i <= |text| && Agrees(ParseKey(old(Ahead()), output), r, Ahead())
    {
      Space();
      var key := StringToken();
      if key.None? {
        return None;
      }
      if HasKey(output, key.value) {
        return None;
      }
      Space();
      if i == |text| || text[i] != COLON {
        return None;
      }
      assert Ahead()[1..] == text[i + 1..];
      i := i + 1;
      r := key;
    }

    method ObjectToken(depth: nat) returns (r: Option<Value>)
      requires i <= |text|
      modifies this
      ensures i <= |text| && Agrees(ParseObject(old(Ahead()), depth, finite), r, Ahead())
      decreases |text| - i, 1
    {
      if depth > MAX_DEPTH || i == |text| || text[i] != OPEN_OBJECT {
        return None;
      }
      assert Ahead()[1..] == text[i + 1..];
      i := i + 1;
      Space();
      if i < |text| && text[i] == CLOSE_OBJECT {
        assert Ahead()[1..] == text[i + 1..];
        i := i + 1;
        return Some(Object([]));
      }
      r := FieldTokens(depth);
    }

    /** The members of an object and its closing brace. */
    method FieldTokens(depth: nat) returns (r: Option<Value>)
      requires i <= |text|
      modifies this
      ensures i <= |text| && Agrees(ParseFields(old(Ahead()), depth, [], finite), r, Ahead())
      decreases |text| - i, 3
    {
      var output: seq<Member> := [];
      while true
        invariant old(i) <= i <= |text|
        invariant ParseFields(old(Ahead()), depth, [], finite) == ParseFields(Ahead(), depth, output, finite)
        decreases |text| - i
      {
        var key := KeyToken(output);
        if key.None? {
          return None;
        }
        var value := ValueToken(depth + 1);
        if value.None? {
          return None;
        }
        output := output + [Member(key.value, value.value)];
        var more := More(CLOSE_OBJECT);
        if more.None? {
          return None;
        }
        if !more.value {
          return Some(Object(output));
        }
      }
    }

    method Document() returns (r: Option<Value>)
      requires i == 0
      modifies this
      ensures r == ParseDocument(text, finite)
    {
      assert Ahead() == text;
      Space();
      if i == |text| || text[i] != OPEN_OBJECT {
        return None;
      }
      r := ObjectToken(1);
      if r.Some? {
        Space();
        if i != |text| {
          r := None;
        }
      }
    }
  }

  /** A body is decoded exactly when it is at most 1 MiB of UTF-8 whose text spells an object of the grammar, nested
      at most eight deep and without a repeated member name; the result is that object. */
  method DecodeObject(bytes: seq<Byte>, finite: Text -> bool) returns (r: Option<Value>)
    ensures forall value: Value ::
              r == Some(value)
              <==> |bytes| <= 1048576 && Utf8.Decode(bytes).Some? && Denotes(Utf8.Decode(bytes).value, value, finite)
  {
    if |bytes| > MAX_BYTES {
      return None;
    }
    var decoded := Utf8.Decode(bytes);
    if decoded.None? {
      return None;
    }
    var text := decoded.value;
    var parser := new Parser(text, finite);
    r := parser.Document();
    forall value: Value ensures r == Some(value) <==> Denotes(text, value, finite) {
      AcceptsExactlyTheGrammar(text, value, finite);
    }
  }
}
