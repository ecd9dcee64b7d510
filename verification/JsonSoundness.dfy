/** Every accepted text is a text of the grammar, and the parser's value is the one the grammar gives it. */
module JsonSoundness {
  import opened Prelude
  import opened JsonGrammar
  import opened JsonParser
  import opened JsonCompleteness

  lemma {:induction false} SpaceSound(s: Text) returns (pad: Text)
    ensures IsBlank(pad) && s == pad + SkipSpace(s)
    decreases |s|
  {
    if s != [] && IsSpace(s[0]) {
      var tail := SpaceSound(s[1..]);
      pad := [s[0]] + tail;
    } else {
      pad := [];
    }
  }

  // ----- Numbers -----

  lemma {:induction false} DigitsSound(s: Text)
    ensures forall i | 0 <= i < DigitsEnd(s) :: IsDigitUnit(s[i])
    decreases |s|
  {
    if s != [] && IsDigitUnit(s[0]) {
      DigitsSound(s[1..]);
      forall i | 0 <= i < DigitsEnd(s) ensures IsDigitUnit(s[i]) {
        if i > 0 { assert s[i] == s[1..][i - 1]; }
      }
    }
  }

  lemma FractionSound(s: Text) returns (fraction: Option<Text>)
    ensures fraction.Some? ==> AreDigits(fraction.value)
    ensures s[..FractionEnd(s)] == FractionText(fraction)
  {
    if FractionEnd(s) == 0 {
      fraction := None;
    } else {
      DigitsSound(s[1..]);
      fraction := Some(s[1..][..DigitsEnd(s[1..])]);
    }
  }

  lemma ExponentSound(s: Text) returns (exponent: Option<Exponent>)
    ensures exponent.Some? ==> exponent.value.WellFormed()
    ensures s[..ExponentEnd(s)] == ExponentText(exponent)
  {
    if ExponentEnd(s) == 0 {
      exponent := None;
    } else {
      var t, n := s[1..], SignedEnd(s[1..]);
      var e;
      if t[0] == '+' as int || t[0] == '-' as int {
        DigitsSound(t[1..]);
        e := JsonGrammar.Exponent(s[0], Some(t[0]), t[1..][..n - 1]);
      } else {
        DigitsSound(t);
        e := JsonGrammar.Exponent(s[0], None, t[..n]);
      }
      assert e.Signed() == t[..n];
      exponent := Some(e);
    }
  }

  lemma UnsignedSound(s: Text) returns (numeral: Numeral)
    requires UnsignedEnd(s) > 0
    ensures numeral.WellFormed() && !numeral.minus && numeral.Unsigned() == s[..UnsignedEnd(s)]
  {
    var w := WholeEnd(s);
    var t := s[w..];
    var f := FractionEnd(t);
    DigitsSound(s);
    var fraction := FractionSound(t);
    var exponent := ExponentSound(t[f..]);
    numeral := Numeral(false, s[..w], fraction, exponent);
    ThreeParts(s, w, f, ExponentEnd(t[f..]));
  }

  lemma ThreeParts(s: Text, a: nat, b: nat, c: nat)
    requires a + b + c <= |s|
    ensures s[..a + b + c] == s[..a] + (s[a..][..b] + s[a..][b..][..c])
  {
  }

  lemma TakeAfterFirst(s: Text, n: nat)
    requires s != [] && n < |s|
    ensures [s[0]] + s[1..][..n] == s[..1 + n]
  {
  }

  lemma NumberSound(s: Text) returns (numeral: Numeral)
    requires NumberEnd(s) > 0
    ensures numeral.WellFormed() && numeral.Render() == s[..NumberEnd(s)]
  {
    if Starts(s, '-' as int) {
      var unsigned := UnsignedSound(s[1..]);
      TakeAfterFirst(s, UnsignedEnd(s[1..]));
      numeral := Numeral(true, unsigned.whole, unsigned.fraction, unsigned.exponent);
      assert numeral.Unsigned() == unsigned.Unsigned();
    } else {
      numeral := UnsignedSound(s);
    }
  }

  // ----- Strings -----

  lemma UnitSound(s: Text)
    requires ParseUnit(s).Done?
    ensures IsHex4(s[..4]) && ParseUnit(s) == Done(CodeUnit(s[..4]), s[4..]) && s == s[..4] + s[4..]
  {
  }

  lemma PairSound(s: Text, high: Text, rest: Text) returns (low: Text)
    requires IsHex4(high) && IsHigh(CodeUnit(high)) && s == ['u' as int] + (high + rest)
    requires ParseUnit(s[1..]) == Done(CodeUnit(high), rest) && ParseEscape(s).Done?
    ensures Pair(high, low).WellFormed() && Pair(high, low).Denotes() == ParseEscape(s).value
    ensures rest == [BACKSLASH, 'u' as int] + (low + ParseEscape(s).rest)
  {
    UnitSound(rest[2..]);
    low := rest[2..][..4];
    assert rest[1..][0] == rest[1];
    assert rest == [rest[0], rest[1]] + rest[2..];
  }

  lemma EscapeSound(s: Text) returns (piece: Piece)
    requires ParseEscape(s).Done?
    ensures piece.WellFormed() && !piece.Raw? && piece.Denotes() == ParseEscape(s).value
    ensures s == piece.Escaped() + ParseEscape(s).rest
  {
    if ShortEscape(s[0]).Some? {
      piece := Short(s[0]);
    } else {
      UnitSound(s[1..]);
      var first, rest := s[1..][..4], s[1..][4..];
      assert s == ['u' as int] + (first + rest);
      if IsHigh(CodeUnit(first)) {
        var low := PairSound(s, first, rest);
        piece := Pair(first, low);
        var after, mark := ParseEscape(s).rest, [BACKSLASH, 'u' as int];
        assert ['u' as int] + (first + (mark + (low + after))) == (['u' as int] + (first + (mark + low))) + after;
      } else {
        piece := Hex(first);
      }
    }
  }

  lemma PieceSound(s: Text, output: Text) returns (piece: Piece, rest: Text)
    requires ParseChars(s, output).Done? && s[0] != QUOTE
    ensures piece.WellFormed() && s == piece.Render() + rest && |rest| < |s|
    ensures ParseChars(s, output) == ParseChars(rest, output + piece.Denotes())
  {
    if s[0] != BACKSLASH {
      piece, rest := Raw(s[0]), s[1..];
    } else {
      piece := EscapeSound(s[1..]);
      rest := ParseEscape(s[1..]).rest;
      assert s == [BACKSLASH] + s[1..];
      DropFirst(BACKSLASH, piece.Escaped(), rest);
    }
  }

  lemma {:induction false} CharsSound(s: Text, output: Text) returns (pieces: seq<Piece>)
    requires ParseChars(s, output).Done?
    ensures PiecesOk(pieces)
    ensures s == RenderPieces(pieces) + ParseChars(s, output).rest
    ensures ParseChars(s, output).value == output + TextOf(pieces)
    decreases |s|
  {
    if s[0] == QUOTE {
      pieces := [];
      assert RenderPieces(pieces) + s[1..] == s && output + TextOf(pieces) == output;
    } else {
      var piece, rest := PieceSound(s, output);
      var tail := CharsSound(rest, output + piece.Denotes());
      pieces := [piece] + tail;
      AddPiece(piece, tail, output, ParseChars(rest, output + piece.Denotes()).rest);
    }
  }

  lemma StringSound(s: Text) returns (pieces: seq<Piece>)
    requires ParseString(s).Done?
    ensures PiecesOk(pieces) && TextOf(pieces) == ParseString(s).value
    ensures s == [QUOTE] + (RenderPieces(pieces) + ParseString(s).rest)
  {
    pieces := CharsSound(s[1..], []);
    assert s == [QUOTE] + s[1..];
  }

  // ----- Values -----

  lemma WordSound(s: Text, word: Value)
    requires ParseWord(s, word).Done?
    ensures ParseWord(s, word).value == word && s == WordText(word) + ParseWord(s, word).rest
  {
  }

  lemma NumeralSound(s: Text, finite: Text -> bool) returns (numeral: Numeral)
    requires ParseNumber(s, finite).Done?
    ensures WellFormed(Num(numeral), finite) && ParseNumber(s, finite).value == Number(numeral.Render())
    ensures s == numeral.Render() + ParseNumber(s, finite).rest
  {
    numeral := NumberSound(s);
  }

  lemma ScalarSound(s: Text, finite: Text -> bool) returns (tree: Tree)
    requires ParseScalar(s, finite).Done?
    ensures IsScalar(tree) && WellFormed(tree, finite) && ValueOf(tree, finite) == ParseScalar(s, finite).value
    ensures s == Render(tree) + ParseScalar(s, finite).rest
  {
    if Starts(s, QUOTE) {
      var pieces := StringSound(s);
      tree := Str(pieces);
      DropFirst(QUOTE, RenderPieces(pieces), ParseString(s).rest);
    } else if Starts(s, 't' as int) {
      WordSound(s, Bool(true));
      tree := Word(Bool(true));
    } else if Starts(s, 'f' as int) {
      WordSound(s, Bool(false));
      tree := Word(Bool(false));
    } else if Starts(s, 'n' as int) {
      WordSound(s, Null);
      tree := Word(Null);
    } else {
      var numeral := NumeralSound(s, finite);
      tree := Num(numeral);
    }
  }

  lemma {:induction false} ValueSound(s: Text, depth: nat, finite: Text -> bool) returns (before: Text, tree: Tree)
    requires ParseValue(s, depth, finite).Done?
    ensures IsBlank(before) && WellFormed(tree, finite) && depth + Height(tree) <= MAX_DEPTH + 1
    ensures ValueOf(tree, finite) == ParseValue(s, depth, finite).value
    ensures s == before + (Render(tree) + ParseValue(s, depth, finite).rest)
    decreases |s|, 2
  {
    var t := SkipSpace(s);
    before := SpaceSound(s);
    if Starts(t, OPEN_OBJECT) {
      tree := ObjectSound(t, depth, finite);
    } else if Starts(t, OPEN_ARRAY) {
      tree := ArraySound(t, depth, finite);
    } else {
      tree := ScalarSound(t, finite);
    }
  }

  lemma Enclose(s: Text, pad: Text, t: Text)
    requires s != [] && t != [] && s[1..] == pad + t
    ensures s == ([s[0]] + (pad + [t[0]])) + t[1..]
  {
    assert t == [t[0]] + t[1..];
    assert pad + t == (pad + [t[0]]) + t[1..];
  }

  lemma EmptyArraySound(s: Text) returns (pad: Text)
    requires Starts(s, OPEN_ARRAY) && Starts(SkipSpace(s[1..]), CLOSE_ARRAY)
    ensures IsBlank(pad) && s == Render(EmptyArr(pad)) + SkipSpace(s[1..])[1..]
  {
    pad := SpaceSound(s[1..]);
    Enclose(s, pad, SkipSpace(s[1..]));
  }

  lemma ArrayUnfolds(s: Text, depth: nat, finite: Text -> bool)
    requires ParseArray(s, depth, finite).Done? && !Starts(SkipSpace(s[1..]), CLOSE_ARRAY)
    ensures ParseArray(s, depth, finite) == ParseItems(s[1..], depth, [], finite)
  {
    ItemsSkip(s[1..], depth, [], finite);
  }

  lemma {:induction false} ArraySound(s: Text, depth: nat, finite: Text -> bool) returns (tree: Tree)
    requires depth <= MAX_DEPTH && ParseArray(s, depth, finite).Done?
    ensures WellFormed(tree, finite) && depth + Height(tree) <= MAX_DEPTH + 1
    ensures ValueOf(tree, finite) == ParseArray(s, depth, finite).value
    ensures s == Render(tree) + ParseArray(s, depth, finite).rest
    decreases |s|, 1
  {
    if Starts(SkipSpace(s[1..]), CLOSE_ARRAY) {
      var pad := EmptyArraySound(s);
      tree := EmptyArr(pad);
    } else {
      ArrayUnfolds(s, depth, finite);
      var items := ItemsSound(s[1..], depth, [], finite);
      tree := Arr(items);
      FirstAndRest(s, RenderItems(items), ParseArray(s, depth, finite).rest);
    }
  }

  lemma FirstAndRest(s: Text, a: Text, b: Text)
    requires s != [] && s[1..] == a + b
    ensures s == ([s[0]] + a) + b
  {
  }

  lemma ItemsJoin(items: Items, t: Text, s: Text)
    requires t == AfterItem(items) + s
    ensures items.before + (Render(items.value) + (items.after + t)) == RenderItems(items) + s
  {
    ItemsSplit(items, s);
  }

  lemma {:induction false} ItemsSound(s: Text, depth: nat, output: seq<Value>, finite: Text -> bool) returns (items: Items)
    requires ParseItems(s, depth, output, finite).Done?
    ensures ItemsOk(items, finite) && depth + ItemsHeight(items) <= MAX_DEPTH
    ensures ParseItems(s, depth, output, finite).value == Array(output + ItemsValue(items, finite))
    ensures s == RenderItems(items) + ParseItems(s, depth, output, finite).rest
    decreases |s|, 3
  {
    var parsed := ParseValue(s, depth + 1, finite);
    var before, value := ValueSound(s, depth + 1, finite);
    var after := SpaceSound(parsed.rest);
    var t := SkipSpace(parsed.rest);
    ItemsNext(s, depth, output, finite, parsed.value, parsed.rest);
    if Starts(t, COMMA) {
      var rest := ItemsSound(t[1..], depth, output + [parsed.value], finite);
      items := MoreItems(before, value, after, rest);
    } else {
      items := LastItem(before, value, after);
    }
    ItemsValueNext(items, finite, output);
    ItemsJoin(items, t, ParseItems(s, depth, output, finite).rest);
  }

  lemma EmptyObjectSound(s: Text) returns (pad: Text)
    requires Starts(s, OPEN_OBJECT) && Starts(SkipSpace(s[1..]), CLOSE_OBJECT)
    ensures IsBlank(pad) && s == Render(EmptyObj(pad)) + SkipSpace(s[1..])[1..]
  {
    pad := SpaceSound(s[1..]);
    Enclose(s, pad, SkipSpace(s[1..]));
  }

  lemma ObjectUnfolds(s: Text, depth: nat, finite: Text -> bool)
    requires ParseObject(s, depth, finite).Done? && !Starts(SkipSpace(s[1..]), CLOSE_OBJECT)
    ensures ParseObject(s, depth, finite) == ParseFields(s[1..], depth, [], finite)
  {
    FieldsSkip(s[1..], depth, [], finite);
  }

  lemma {:induction false} ObjectSound(s: Text, depth: nat, finite: Text -> bool) returns (tree: Tree)
    requires ParseObject(s, depth, finite).Done?
    ensures (tree.EmptyObj? || tree.Obj?) && WellFormed(tree, finite) && depth + Height(tree) <= MAX_DEPTH + 1
    ensures ValueOf(tree, finite) == ParseObject(s, depth, finite).value
    ensures s == Render(tree) + ParseObject(s, depth, finite).rest
    decreases |s|, 1
  {
    if Starts(SkipSpace(s[1..]), CLOSE_OBJECT) {
      var pad := EmptyObjectSound(s);
      tree := EmptyObj(pad);
    } else {
      ObjectUnfolds(s, depth, finite);
      var fields := FieldsSound(s[1..], depth, [], finite);
      tree := Obj(fields);
      FirstAndRest(s, RenderFields(fields), ParseObject(s, depth, finite).rest);
    }
  }

  lemma KeySound(s: Text, output: seq<Member>) returns (pad: Text, key: seq<Piece>, gap: Text)
    requires ParseKey(s, output).Done?
    ensures IsBlank(pad) && PiecesOk(key) && IsBlank(gap)
    ensures TextOf(key) == ParseKey(s, output).value && !HasKey(output, TextOf(key))
    ensures s == pad + ([QUOTE] + (RenderPieces(key) + (gap + ([COLON] + ParseKey(s, output).rest))))
  {
    pad := SpaceSound(s);
    key := StringSound(SkipSpace(s));
    var rest := ParseString(SkipSpace(s)).rest;
    gap := SpaceSound(rest);
    assert SkipSpace(rest) == [COLON] + SkipSpace(rest)[1..];
  }

  lemma FieldsKeys(fields: Fields, finite: Text -> bool, output: seq<Member>)
    requires FieldsOk(fields, finite) && !HasKey(output, TextOf(fields.key))
    requires fields.MoreFields? ==> NewKeys(fields.rest, finite, output + [FirstMember(fields, finite)])
    ensures NewKeys(fields, finite, output)
  {
    var member := FirstMember(fields, finite);
    forall key | key in KeysOf(fields, finite) ensures !HasKey(output, key) {
      if key != member.key {
        assert !HasKey(output + [member], key);
        forall i | 0 <= i < |output| ensures output[i].key != key {
          assert (output + [member])[i] == output[i];
        }
      }
    }
  }

  lemma NewKey(fields: Fields, finite: Text -> bool, output: seq<Member>, member: Member)
    requires FieldsOk(fields, finite) && NewKeys(fields, finite, output + [member])
    ensures member.key !in KeysOf(fields, finite)
  {
    assert HasKey(output + [member], member.key) by { assert (output + [member])[|output|] == member; }
  }

  /** Everything about one member except its value. */
  lemma FieldSound(s: Text, depth: nat, output: seq<Member>, finite: Text -> bool)
    returns (pad: Text, key: seq<Piece>, gap: Text, afterKey: Text, value: Value, after: Text, t: Text)
    requires ParseFields(s, depth, output, finite).Done?
    ensures IsBlank(pad) && PiecesOk(key) && IsBlank(gap) && IsBlank(after) && |afterKey| < |s| && 0 < |t| < |s|
    ensures !HasKey(output, TextOf(key))
    ensures s == pad + ([QUOTE] + (RenderPieces(key) + (gap + ([COLON] + afterKey))))
    ensures ParseValue(afterKey, depth + 1, finite) == Done(value, after + t)
    ensures
      var member := Member(TextOf(key), value);
      if Starts(t, COMMA) then
        ParseFields(s, depth, output, finite) == ParseFields(t[1..], depth, output + [member], finite)
      else
        Starts(t, CLOSE_OBJECT) && ParseFields(s, depth, output, finite) == Done(Object(output + [member]), t[1..])
  {
    pad, key, gap := KeySound(s, output);
    afterKey := ParseKey(s, output).rest;
    var parsed := ParseValue(afterKey, depth + 1, finite);
    value := parsed.value;
    after := SpaceSound(parsed.rest);
    t := SkipSpace(parsed.rest);
    FieldsNext(s, depth, output, finite, TextOf(key), afterKey, value, parsed.rest);
  }

  lemma FieldsFinish(fields: Fields, output: seq<Member>, finite: Text -> bool, t: Text, rest: Text)
    requires IsBlank(fields.pad) && PiecesOk(fields.key) && IsBlank(fields.gap) && IsBlank(fields.before) && IsBlank(fields.after)
    requires WellFormed(fields.value, finite) && !HasKey(output, TextOf(fields.key))
    requires fields.MoreFields? ==>
      && FieldsOk(fields.rest, finite)
      && NewKeys(fields.rest, finite, output + [Member(TextOf(fields.key), ValueOf(fields.value, finite))])
    requires t == AfterField(fields) + rest
    ensures FieldsOk(fields, finite) && NewKeys(fields, finite, output)
    ensures output + FieldsValue(fields, finite)
         == if fields.LastField? then output + [FirstMember(fields, finite)]
            else output + [FirstMember(fields, finite)] + FieldsValue(fields.rest, finite)
    ensures fields.pad + ([QUOTE] + (RenderPieces(fields.key) + (fields.gap + ([COLON] +
              (fields.before + (Render(fields.value) + (fields.after + t)))))))
         == RenderFields(fields) + rest
  {
    if fields.MoreFields? {
      NewKey(fields.rest, finite, output, Member(TextOf(fields.key), ValueOf(fields.value, finite)));
    }
    FieldsKeys(fields, finite, output);
    FieldsValueNext(fields, finite, output);
    FieldsSplit(fields, rest);
  }

  lemma StartsIs(s: Text, unit: int)
    requires Starts(s, unit)
    ensures s == [unit] + s[1..]
  {
  }

  /** The height of the members is that of the first or of the rest. */
  lemma FieldsHeightIs(fields: Fields, depth: nat)
    requires depth + Height(fields.value) <= MAX_DEPTH && (fields.MoreFields? ==> depth + FieldsHeight(fields.rest) <= MAX_DEPTH)
    ensures depth + FieldsHeight(fields) <= MAX_DEPTH
  {
  }

  lemma {:induction false} FieldsSound(s: Text, depth: nat, output: seq<Member>, finite: Text -> bool) returns (fields: Fields)
    requires ParseFields(s, depth, output, finite).Done?
    ensures FieldsOk(fields, finite) && depth + FieldsHeight(fields) <= MAX_DEPTH
    ensures NewKeys(fields, finite, output)
    ensures ParseFields(s, depth, output, finite).value == Object(output + FieldsValue(fields, finite))
    ensures s == RenderFields(fields) + ParseFields(s, depth, output, finite).rest
    decreases |s|, 3
  {
    var pad, key, gap, afterKey, parsed, after, t := FieldSound(s, depth, output, finite);
    var before, value := ValueSound(afterKey, depth + 1, finite);
    if Starts(t, COMMA) {
      var rest := FieldsSound(t[1..], depth, output + [Member(TextOf(key), parsed)], finite);
      fields := MoreFields(pad, key, gap, before, value, after, rest);
      FirstAndRest(t, RenderFields(rest), ParseFields(s, depth, output, finite).rest);
    } else {
      fields := LastField(pad, key, gap, before, value, after);
      StartsIs(t, CLOSE_OBJECT);
    }
    FieldsHeightIs(fields, depth);
    FieldsFinish(fields, output, finite, t, ParseFields(s, depth, output, finite).rest);
  }

  /** The text spells this object, with white space around it, and the object is nested at most eight deep. */
  ghost predicate Spells(text: Text, before: Text, tree: Tree, after: Text, finite: Text -> bool) {
    && IsBlank(before) && IsBlank(after) && (tree.EmptyObj? || tree.Obj?)
    && WellFormed(tree, finite) && Height(tree) <= MAX_DEPTH
    && text == before + (Render(tree) + after)
  }

  ghost predicate Denotes(text: Text, value: Value, finite: Text -> bool) {
    exists before, tree, after :: Spells(text, before, tree, after, finite) && value == ValueOf(tree, finite)
  }

  lemma DocumentSound(text: Text, finite: Text -> bool) returns (before: Text, tree: Tree, after: Text)
    requires ParseDocument(text, finite).Some?
    ensures Spells(text, before, tree, after, finite) && ParseDocument(text, finite) == Some(ValueOf(tree, finite))
  {
    var t := SkipSpace(text);
    before := SpaceSound(text);
    tree := ObjectSound(t, 1, finite);
    var rest := ParseObject(t, 1, finite).rest;
    after := SpaceSound(rest);
    assert after == rest;
  }

  /** The parser accepts exactly the object texts of the grammar nested at most eight deep, with their values. */
  lemma AcceptsExactlyTheGrammar(text: Text, value: Value, finite: Text -> bool)
    ensures ParseDocument(text, finite) == Some(value) <==> Denotes(text, value, finite)
  {
    if ParseDocument(text, finite) == Some(value) {
      var before, tree, after := DocumentSound(text, finite);
    }
    if Denotes(text, value, finite) {
      var before, tree, after :| Spells(text, before, tree, after, finite) && value == ValueOf(tree, finite);
      DocumentComplete(tree, before, after, finite);
    }
  }

  /** The grammar is unambiguous as far as values go. */
  lemma OneValuePerText(text: Text, a: Value, b: Value, finite: Text -> bool)
    requires Denotes(text, a, finite) && Denotes(text, b, finite)
    ensures a == b
  {
    AcceptsExactlyTheGrammar(text, a, finite);
    AcceptsExactlyTheGrammar(text, b, finite);
  }
}
