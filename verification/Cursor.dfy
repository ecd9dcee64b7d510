/** Opaque page cursors: base64url of the JSON text `[1,scope,position]` (src/shared/pagination/index.ts). */
module Cursor {
  import opened Prelude
  import opened JsonGrammar
  import opened JsonParser
  import opened JsonCompleteness
  import opened JsonSoundness
  import opened JsonPrinter
  import Utf8
  import Base64Url

  const MAX_SCOPE_BYTES := 128
  const MAX_POSITION_BYTES := 256

  /** ceil((2 * 128 + 2 * 256 + 9) * 4 / 3): escaping at most doubles a part, and `[1,"",""]` takes nine bytes. */
  const MAX_WIRE := ((2 * MAX_SCOPE_BYTES + 2 * MAX_POSITION_BYTES + 9) * 4 + 2) / 3

  /** A non-empty string of bounded UTF-8 size without lone surrogates and control characters. */
  predicate ValidPart(s: Text, maxBytes: nat) {
    && Utf8.IsWellFormed(s) && s != [] && Utf8.Size(s) <= maxBytes
    && forall i | 0 <= i < |s| :: s[i] >= 32 && s[i] != 127
  }

  function AnyNumber(lexeme: Text): bool { true }

  function Triple(scope: Text, position: Text): Value {
    Array([Number(Units("1")), String(scope), String(position)])
  }

  /** `JSON.stringify([1, scope, position])`: valid parts need no escape but `\"` and `\\`. */
  function Stringify(scope: Text, position: Text): Text { Print(Triple(scope, position)) }

  /** `JSON.parse`, as far as a cursor can tell: texts that nest deeper than eight, repeat a member name or escape a
      lone surrogate are refused here, and would not be a cursor anyway. */
  function ParseJson(text: Text): Option<Value> {
    match ParseValue(text, 1, AnyNumber)
    case Fail => None
    case Done(value, rest) => if SkipSpace(rest) == [] then Some(value) else None
  }

  function Encode(scope: Text, position: Text): Option<string>
  {
    if !ValidPart(scope, MAX_SCOPE_BYTES) || !ValidPart(position, MAX_POSITION_BYTES) then None
    else
      var text := Stringify(scope, position);
      if !Utf8.IsWellFormed(text) then None
      else
        var wire := Base64Url.Encode(Utf8.Encode(text));
        if |wire| <= MAX_WIRE then Some(wire) else None
  }

  /** `isOne` tells which number lexemes denote the number 1. */
  predicate IsCursor(value: Value, scope: Text, isOne: Text -> bool) {
    && value.Array? && |value.items| == 3
    && value.items[0].Number? && isOne(value.items[0].lexeme)
    && value.items[1] == String(scope)
    && value.items[2].String? && ValidPart(value.items[2].text, MAX_POSITION_BYTES)
  }

  function Decode(wire: string, scope: Text, isOne: Text -> bool): Option<Text> {
    if
      || wire == "" || |wire| > MAX_WIRE
      || (exists i | 0 <= i < |wire| :: !Base64Url.IsAlphabet(wire[i]))
      || !ValidPart(scope, MAX_SCOPE_BYTES)
    then None
    else
      var bytes := Base64Url.Decode(wire);
      if Base64Url.Encode(bytes) != wire then None
      else
        match Utf8.Decode(bytes)
        case None => None
        case Some(text) =>
          match ParseJson(text)
          case None => None
          case Some(value) => if IsCursor(value, scope, isOne) then Some(value.items[2].text) else None
  }

  // ----- Sizes -----

  /** Escaping keeps surrogate pairs together and at most doubles the size. */
  lemma OneEscaped(unit: int, tail: Text)
    requires 32 <= unit < 0x10000 && !IsHigh(unit) && !IsLow(unit) && Utf8.IsWellFormed(tail)
    ensures var t := PrintUnit(unit).Render() + tail;
      Utf8.IsWellFormed(t) && Utf8.Size(t) <= 2 * Utf8.Size([unit]) + Utf8.Size(tail)
  {
    assert [unit][1..] == [];
    assert Utf8.IsWellFormed([unit]);
    Utf8.Join([unit], tail);
    if unit == QUOTE || unit == BACKSLASH {
      assert [BACKSLASH][1..] == [];
      assert Utf8.IsWellFormed([BACKSLASH]);
      Utf8.Join([BACKSLASH], [unit] + tail);
      assert PrintUnit(unit).Render() + tail == [BACKSLASH] + ([unit] + tail);
    }
  }

  lemma PairEscaped(high: int, low: int, tail: Text)
    requires IsHigh(high) && IsLow(low) && Utf8.IsWellFormed(tail)
    ensures var t := PrintUnit(high).Render() + (PrintUnit(low).Render() + tail);
      Utf8.IsWellFormed(t) && Utf8.Size(t) == 4 + Utf8.Size(tail)
  {
    var t := PrintUnit(high).Render() + (PrintUnit(low).Render() + tail);
    assert t == [high, low] + tail;
    assert t[2..] == tail;
  }

  lemma RenderFirst(s: Text)
    requires s != []
    ensures RenderPieces(PrintUnits(s)) == PrintUnit(s[0]).Render() + RenderPieces(PrintUnits(s[1..]))
  {
    assert PrintUnits(s)[1..] == PrintUnits(s[1..]);
  }

  /** Escaping keeps surrogate pairs together and at most doubles the size. */
  lemma {:induction false} EscapedSize(s: Text)
    requires Utf8.IsWellFormed(s) && forall i | 0 <= i < |s| :: s[i] >= 32
    ensures var t := RenderPieces(PrintUnits(s)); Utf8.IsWellFormed(t) && Utf8.Size(t) <= 2 * Utf8.Size(s) + 1
    decreases |s|
  {
    if s == [] {
      assert [QUOTE][1..] == [];
    } else if IsHigh(s[0]) {
      EscapedSize(s[2..]);
      RenderFirst(s);
      RenderFirst(s[1..]);
      assert s[1..][1..] == s[2..];
      PairEscaped(s[0], s[1], RenderPieces(PrintUnits(s[2..])));
    } else {
      EscapedSize(s[1..]);
      RenderFirst(s);
      OneEscaped(s[0], RenderPieces(PrintUnits(s[1..])));
      assert [s[0]] + s[1..] == s;
      assert [s[0]][1..] == [];
      assert Utf8.IsWellFormed([s[0]]);
      Utf8.Join([s[0]], s[1..]);
    }
  }

  lemma ItemsUnroll(a: Value, b: Value, c: Value)
    ensures PrintItems([a, b, c]) == Print(a) + ([COMMA] + (Print(b) + ([COMMA] + (Print(c) + [CLOSE_ARRAY]))))
    ensures ItemsDepth([a, b, c]) == Max(Depth(a), Max(Depth(b), Depth(c)))
  {
    assert [a, b, c][1..] == [b, c] && [b, c][1..] == [c] && [c][1..] == [];
    assert PrintItems([c]) == Print(c) + [CLOSE_ARRAY];
    assert PrintItems([b, c]) == Print(b) + ([COMMA] + PrintItems([c]));
    assert PrintItems([a, b, c]) == Print(a) + ([COMMA] + PrintItems([b, c]));
    assert ItemsDepth([c]) == Depth(c) && ItemsDepth([b, c]) == Max(Depth(b), ItemsDepth([c]));
  }

  lemma StringifyIs(scope: Text, position: Text)
    ensures Stringify(scope, position)
         == [OPEN_ARRAY] + (Units("1") + ([COMMA] + (PrintString(scope) + ([COMMA] + (PrintString(position) + [CLOSE_ARRAY])))))
  {
    ItemsUnroll(Number(Units("1")), String(scope), String(position));
  }

  lemma {:induction false} AsciiSize(s: Text)
    requires forall i | 0 <= i < |s| :: 0 <= s[i] < 0x80
    ensures Utf8.IsWellFormed(s) && Utf8.Size(s) == |s|
    decreases |s|
  {
    if s != [] { AsciiSize(s[1..]); }
  }

  lemma QuotedSize(s: Text, maxBytes: nat)
    requires ValidPart(s, maxBytes)
    ensures Utf8.IsWellFormed(PrintString(s)) && Utf8.Size(PrintString(s)) <= 2 * maxBytes + 2
  {
    EscapedSize(s);
    AsciiSize([QUOTE]);
    Utf8.Join([QUOTE], RenderPieces(PrintUnits(s)));
  }

  lemma StringifySize(scope: Text, position: Text)
    requires ValidPart(scope, MAX_SCOPE_BYTES) && ValidPart(position, MAX_POSITION_BYTES)
    ensures Utf8.IsWellFormed(Stringify(scope, position)) && Utf8.Size(Stringify(scope, position)) <= 777
  {
    StringifyIs(scope, position);
    QuotedSize(scope, MAX_SCOPE_BYTES);
    QuotedSize(position, MAX_POSITION_BYTES);
    AsciiSize([OPEN_ARRAY]);
    AsciiSize(Units("1"));
    AsciiSize([COMMA]);
    AsciiSize([CLOSE_ARRAY]);
    var a := PrintString(position) + [CLOSE_ARRAY];
    var b := PrintString(scope) + ([COMMA] + a);
    Utf8.Join(PrintString(position), [CLOSE_ARRAY]);
    Utf8.Join([COMMA], a);
    Utf8.Join(PrintString(scope), [COMMA] + a);
    Utf8.Join([COMMA], b);
    Utf8.Join(Units("1"), [COMMA] + b);
    Utf8.Join([OPEN_ARRAY], Units("1") + ([COMMA] + b));
  }

  /** The bound fits: encode refuses nothing but invalid parts, and no cursor is longer than 1036 characters. */
  lemma EncodeRefusesOnlyInvalidParts(scope: Text, position: Text)
    ensures Encode(scope, position).Some? <==> ValidPart(scope, MAX_SCOPE_BYTES) && ValidPart(position, MAX_POSITION_BYTES)
    ensures Encode(scope, position).Some? ==> |Encode(scope, position).value| <= MAX_WIRE == 1036
  {
    if ValidPart(scope, MAX_SCOPE_BYTES) && ValidPart(position, MAX_POSITION_BYTES) {
      StringifySize(scope, position);
      Utf8.EncodeSize(Stringify(scope, position));
    }
  }

  // ----- Round trip -----

  lemma PrintedParses(value: Value)
    requires Printable(value, AnyNumber) && Depth(value) <= MAX_DEPTH
    ensures ParseJson(Print(value)) == Some(value)
  {
    var tree := ValuePrinted(value, AnyNumber);
    ValueComplete(tree, [], [], 1, AnyNumber);
    assert [] + (Render(tree) + []) == Print(value);
  }

  lemma OneIsANumber()
    ensures Printable(Number(Units("1")), AnyNumber)
  {
    assert DigitsEnd(Units("1")[1..]) == 0;
    assert NumberEnd(Units("1")) == 1;
  }

  lemma StringifyParses(scope: Text, position: Text)
    requires AreUnits(scope) && AreUnits(position)
    ensures ParseJson(Stringify(scope, position)) == Some(Triple(scope, position))
  {
    OneIsANumber();
    ItemsUnroll(Number(Units("1")), String(scope), String(position));
    PrintedParses(Triple(scope, position));
  }

  lemma TextComesBack(scope: Text, position: Text)
    requires Utf8.IsWellFormed(Stringify(scope, position))
    ensures Utf8.Decode(Utf8.Encode(Stringify(scope, position))) == Some(Stringify(scope, position))
  {
    var text := Stringify(scope, position);
    StringifyIs(scope, position);
    assert text[0] == OPEN_ARRAY;
    assert Utf8.Encode(text)[0] == OPEN_ARRAY;
    Utf8.EncodeDecodes(text);
  }

  /** What decode makes of the canonical wire of some bytes. */
  lemma DecodeReads(bytes: seq<Byte>, text: Text, value: Value, scope: Text, isOne: Text -> bool)
    requires bytes != [] && |Base64Url.Encode(bytes)| <= MAX_WIRE && ValidPart(scope, MAX_SCOPE_BYTES)
    requires Utf8.Decode(bytes) == Some(text) && ParseJson(text) == Some(value)
    ensures Decode(Base64Url.Encode(bytes), scope, isOne)
         == if IsCursor(value, scope, isOne) then Some(value.items[2].text) else None
  {
    Base64Url.EncodeDecodes(bytes);
  }

  lemma EncodedBytes(scope: Text, position: Text)
    requires Encode(scope, position).Some?
    ensures Utf8.IsWellFormed(Stringify(scope, position))
    ensures Utf8.Encode(Stringify(scope, position)) != []
    ensures Encode(scope, position).value == Base64Url.Encode(Utf8.Encode(Stringify(scope, position)))
  {
    StringifyIs(scope, position);
  }

  /** A cursor reads back as its position under its own scope, and under no other. */
  lemma DecodeInvertsEncode(scope: Text, position: Text, other: Text, isOne: Text -> bool)
    requires ValidPart(scope, MAX_SCOPE_BYTES) && ValidPart(position, MAX_POSITION_BYTES) && isOne(Units("1"))
    ensures Encode(scope, position).Some?
    ensures Decode(Encode(scope, position).value, other, isOne) == if other == scope then Some(position) else None
  {
    EncodeRefusesOnlyInvalidParts(scope, position);
    EncodedBytes(scope, position);
    TextComesBack(scope, position);
    StringifyParses(scope, position);
    if ValidPart(other, MAX_SCOPE_BYTES) {
      var text := Stringify(scope, position);
      DecodeReads(Utf8.Encode(text), text, Triple(scope, position), other, isOne);
    }
  }

  /** Every accepted wire is the one unpadded base64url form of its bytes. */
  lemma AcceptedWireIsCanonical(wire: string, other: string, scope: Text, isOne: Text -> bool)
    requires Decode(wire, scope, isOne).Some?
    ensures wire == Base64Url.Encode(Base64Url.Decode(wire))
    ensures Decode(other, scope, isOne).Some? && Base64Url.Decode(other) == Base64Url.Decode(wire) ==> other == wire
  {
  }

  /** The wire is the canonical form of bytes that spell, with white space around it, an array of one, the scope and the
      position. */
  ghost predicate Spells(wire: string, before: Text, tree: Tree, after: Text, scope: Text, position: Text, isOne: Text -> bool) {
    && wire == Base64Url.Encode(Base64Url.Decode(wire))
    && IsBlank(before) && IsBlank(after) && WellFormed(tree, AnyNumber)
    && Utf8.Decode(Base64Url.Decode(wire)) == Some(before + (Render(tree) + after))
    && var value := ValueOf(tree, AnyNumber);
    && value.Array? && |value.items| == 3
    && value.items[0].Number? && isOne(value.items[0].lexeme)
    && value.items[1] == String(scope) && value.items[2] == String(position)
  }

  lemma AcceptedWireMeans(wire: string, scope: Text, isOne: Text -> bool) returns (before: Text, tree: Tree, after: Text)
    requires Decode(wire, scope, isOne).Some?
    ensures Spells(wire, before, tree, after, scope, Decode(wire, scope, isOne).value, isOne)
    ensures ValidPart(scope, 128) && ValidPart(Decode(wire, scope, isOne).value, 256) && |wire| <= 1036
  {
    var text := Utf8.Decode(Base64Url.Decode(wire)).value;
    before, tree := ValueSound(text, 1, AnyNumber);
    var rest := ParseValue(text, 1, AnyNumber).rest;
    after := SpaceSound(rest);
    assert after == rest;
  }

  /** A flat array nests two deep. */
  lemma FlatArray(tree: Tree)
    requires WellFormed(tree, AnyNumber)
    requires ValueOf(tree, AnyNumber).Array? && |ValueOf(tree, AnyNumber).items| == 3
    requires forall i | 0 <= i < 3 :: Depth(ValueOf(tree, AnyNumber).items[i]) == 1
    ensures Height(tree) == 2
  {
    var items := ValueOf(tree, AnyNumber).items;
    assert items == [items[0], items[1], items[2]];
    ItemsUnroll(items[0], items[1], items[2]);
    TreePrintable(tree, AnyNumber);
  }

  lemma SpelledIsAccepted(wire: string, before: Text, tree: Tree, after: Text, scope: Text, position: Text, isOne: Text -> bool)
    requires Spells(wire, before, tree, after, scope, position, isOne)
    requires ValidPart(scope, 128) && ValidPart(position, 256) && |wire| <= 1036
    ensures Decode(wire, scope, isOne) == Some(position)
  {
    var text := before + (Render(tree) + after);
    var value := ValueOf(tree, AnyNumber);
    FlatArray(tree);
    ValueComplete(tree, before, after, 1, AnyNumber);
    SkipBlank(after, []);
    assert after + [] == after;
    DecodeReads(Base64Url.Decode(wire), text, value, scope, isOne);
  }

  /** What is read from a wire: exactly the positions it spells, for a valid scope, position and length. */
  lemma AcceptedIff(wire: string, scope: Text, position: Text, isOne: Text -> bool)
    ensures Decode(wire, scope, isOne) == Some(position) <==>
      && |wire| <= 1036 && ValidPart(scope, 128) && ValidPart(position, 256)
      && exists before, tree, after :: Spells(wire, before, tree, after, scope, position, isOne)
  {
    if Decode(wire, scope, isOne) == Some(position) {
      var before, tree, after := AcceptedWireMeans(wire, scope, isOne);
    }
    if before, tree, after :| Spells(wire, before, tree, after, scope, position, isOne) {
      if |wire| <= 1036 && ValidPart(scope, 128) && ValidPart(position, 256) {
        SpelledIsAccepted(wire, before, tree, after, scope, position, isOne);
      }
    }
  }
}
