/** Every text of the grammar is accepted, with the value the grammar gives it. */
module JsonCompleteness {
  import opened Prelude
  import opened JsonGrammar
  import opened JsonParser

  lemma {:induction false} SkipBlank(pad: Text, s: Text)
    requires IsBlank(pad)
    ensures SkipSpace(pad + s) == SkipSpace(s)
    decreases |pad|
  {
    if pad == [] {
      assert pad + s == s;
    } else {
      assert (pad + s)[1..] == pad[1..] + s;
      SkipBlank(pad[1..], s);
    }
  }

  lemma {:induction false} SkipTwice(s: Text)
    ensures SkipSpace(SkipSpace(s)) == SkipSpace(s)
    ensures SkipSpace(s) != [] ==> !IsSpace(SkipSpace(s)[0])
    decreases |s|
  {
    if s != [] && IsSpace(s[0]) { SkipTwice(s[1..]); }
  }

  /** What may come right after a value: nothing, white space, or a character that ends an element or a member. */
  predicate Ends(s: Text) {
    s == [] || IsSpace(s[0]) || s[0] == COMMA || s[0] == CLOSE_ARRAY || s[0] == CLOSE_OBJECT
  }

  lemma Split(a: Text, b: Text)
    ensures (a + b)[..|a|] == a && (a + b)[|a|..] == b
  {
  }

  lemma DropFirst(u: int, a: Text, b: Text)
    ensures ([u] + a) + b == [u] + (a + b)
    ensures ([u] + (a + b))[1..] == a + b
  {
  }

  lemma EndFacts(after: Text, end: Text)
    requires IsBlank(after) && end != [] && Ends(end) && !IsSpace(end[0])
    ensures Ends(after + end) && SkipSpace(after + end) == end
  {
    SkipBlank(after, end);
  }

  // ----- Numbers -----

  lemma {:induction false} DigitsComplete(digits: Text, s: Text)
    requires forall i | 0 <= i < |digits| :: IsDigitUnit(digits[i])
    requires s == [] || !IsDigitUnit(s[0])
    ensures DigitsEnd(digits + s) == |digits|
    decreases |digits|
  {
    if digits == [] {
      assert digits + s == s;
    } else {
      assert (digits + s)[1..] == digits[1..] + s;
      DigitsComplete(digits[1..], s);
    }
  }

  lemma SignedComplete(exponent: Exponent, s: Text)
    requires exponent.WellFormed() && Ends(s)
    ensures SignedEnd(exponent.Signed() + s) == |exponent.Signed()|
  {
    var t := exponent.Signed() + s;
    DigitsComplete(exponent.digits, s);
    if exponent.sign.Some? {
      assert t[1..] == exponent.digits + s;
    } else {
      assert t == exponent.digits + s;
    }
  }

  lemma ExponentComplete(exponent: Option<Exponent>, s: Text)
    requires exponent.Some? ==> exponent.value.WellFormed()
    requires Ends(s)
    ensures ExponentEnd(ExponentText(exponent) + s) == |ExponentText(exponent)|
    ensures var t := ExponentText(exponent) + s; t == [] || (!IsDigitUnit(t[0]) && t[0] != '.' as int)
  {
    if exponent.Some? {
      SignedComplete(exponent.value, s);
      DropFirst(exponent.value.letter, exponent.value.Signed(), s);
    } else {
      assert ExponentText(exponent) + s == s;
    }
  }

  lemma FractionComplete(fraction: Option<Text>, s: Text)
    requires fraction.Some? ==> AreDigits(fraction.value)
    requires s == [] || (!IsDigitUnit(s[0]) && s[0] != '.' as int)
    ensures FractionEnd(FractionText(fraction) + s) == |FractionText(fraction)|
    ensures var t := FractionText(fraction) + s; t == [] || !IsDigitUnit(t[0])
  {
    var t := FractionText(fraction) + s;
    if fraction.Some? {
      assert t[1..] == fraction.value + s;
      DigitsComplete(fraction.value, s);
    } else {
      assert t == s;
    }
  }

  lemma UnsignedComplete(numeral: Numeral, s: Text)
    requires numeral.WellFormed() && Ends(s)
    ensures UnsignedEnd(numeral.Unsigned() + s) == |numeral.Unsigned()|
  {
    var w, f, e := numeral.whole, FractionText(numeral.fraction), ExponentText(numeral.exponent);
    ExponentComplete(numeral.exponent, s);
    FractionComplete(numeral.fraction, e + s);
    DigitsComplete(w, f + (e + s));
    assert (w + (f + e)) + s == w + (f + (e + s));
    Split(w, f + (e + s));
    Split(f, e + s);
    assert WholeEnd(w + (f + (e + s))) == |w|;
  }

  lemma UnsignedStarts(numeral: Numeral)
    requires numeral.WellFormed()
    ensures |numeral.Unsigned()| > 0 && IsDigitUnit(numeral.Unsigned()[0])
  {
    assert numeral.Unsigned()[0] == numeral.whole[0];
  }

  lemma SignComplete(unsigned: Text, s: Text)
    requires |unsigned| > 0 && IsDigitUnit(unsigned[0]) && UnsignedEnd(unsigned + s) == |unsigned|
    ensures NumberEnd(unsigned + s) == |unsigned|
    ensures NumberEnd(['-' as int] + unsigned + s) == 1 + |unsigned|
  {
    assert (unsigned + s)[0] == unsigned[0];
    DropFirst('-' as int, unsigned, s);
  }

  lemma NumberComplete(numeral: Numeral, s: Text)
    requires numeral.WellFormed() && Ends(s)
    ensures NumberEnd(numeral.Render() + s) == |numeral.Render()| > 0
    ensures IsDigitUnit(numeral.Render()[0]) || numeral.Render()[0] == '-' as int
  {
    UnsignedComplete(numeral, s);
    UnsignedStarts(numeral);
    SignComplete(numeral.Unsigned(), s);
  }

  // ----- Strings -----

  lemma UnitComplete(digits: Text, s: Text)
    requires IsHex4(digits)
    ensures ParseUnit(digits + s) == Done(CodeUnit(digits), s)
  {
    Split(digits, s);
  }

  lemma HexComplete(digits: Text, s: Text)
    requires Hex(digits).WellFormed()
    ensures ParseEscape(['u' as int] + (digits + s)) == Done([CodeUnit(digits)], s)
  {
    UnitComplete(digits, s);
    DropFirst('u' as int, digits, s);
  }

  lemma PairComplete(high: Text, low: Text, s: Text)
    requires Pair(high, low).WellFormed()
    ensures ParseEscape(['u' as int] + (high + ([BACKSLASH, 'u' as int] + (low + s)))) == Done([CodeUnit(high), CodeUnit(low)], s)
  {
    var rest := [BACKSLASH, 'u' as int] + (low + s);
    UnitComplete(high, rest);
    UnitComplete(low, s);
    DropFirst('u' as int, high, rest);
    assert rest[1..][0] == 'u' as int && rest[2..] == low + s;
  }

  lemma EscapedComplete(piece: Piece, s: Text)
    requires piece.WellFormed() && !piece.Raw?
    ensures ParseEscape(piece.Escaped() + s) == Done(piece.Denotes(), s)
  {
    match piece
    case Short(letter) =>
      assert ([letter] + s)[1..] == s;
    case Hex(digits) =>
      HexComplete(digits, s);
      DropFirst('u' as int, digits, s);
    case Pair(high, low) =>
      PairComplete(high, low, s);
      var tail := [BACKSLASH, 'u' as int];
      assert (['u' as int] + (high + (tail + low))) + s == ['u' as int] + (high + (tail + (low + s)));
  }

  lemma EscapeComplete(piece: Piece, s: Text)
    requires piece.WellFormed() && !piece.Raw?
    ensures Starts(piece.Render(), BACKSLASH)
    ensures ParseEscape((piece.Render() + s)[1..]) == Done(piece.Denotes(), s)
  {
    EscapedComplete(piece, s);
    DropFirst(BACKSLASH, piece.Escaped(), s);
  }

  lemma PieceComplete(piece: Piece, s: Text, output: Text)
    requires piece.WellFormed()
    ensures ParseChars(piece.Render() + s, output) == ParseChars(s, output + piece.Denotes())
  {
    if piece.Raw? {
      assert (piece.Render() + s)[1..] == s;
    } else {
      EscapeComplete(piece, s);
    }
  }

  lemma AddPiece(piece: Piece, pieces: seq<Piece>, output: Text, rest: Text)
    requires piece.WellFormed() && PiecesOk(pieces)
    ensures PiecesOk([piece] + pieces)
    ensures output + piece.Denotes() + TextOf(pieces) == output + TextOf([piece] + pieces)
    ensures piece.Render() + (RenderPieces(pieces) + rest) == RenderPieces([piece] + pieces) + rest
  {
    var all := [piece] + pieces;
    assert all[0] == piece && all[1..] == pieces;
    assert RenderPieces(all) == piece.Render() + RenderPieces(pieces);
    assert TextOf(all) == piece.Denotes() + TextOf(pieces);
    Associative(output, piece.Denotes(), TextOf(pieces));
    Associative(piece.Render(), RenderPieces(pieces), rest);
  }

  lemma {:induction false} CharsComplete(pieces: seq<Piece>, s: Text, output: Text)
    requires PiecesOk(pieces)
    ensures ParseChars(RenderPieces(pieces) + s, output) == Done(output + TextOf(pieces), s)
    decreases |pieces|
  {
    if pieces == [] {
      assert ([QUOTE] + s)[1..] == s && output + TextOf(pieces) == output;
    } else {
      var head, tail := pieces[0], pieces[1..];
      CharsComplete(tail, s, output + head.Denotes());
      PieceComplete(head, RenderPieces(tail) + s, output);
      assert [head] + tail == pieces;
      AddPiece(head, tail, output, s);
    }
  }

  // ----- Values -----

  predicate IsScalar(tree: Tree) { tree.Word? || tree.Num? || tree.Str? }

  /** The first character of a value is never white space nor a closing bracket, and tells containers apart. */
  lemma TreeStart(tree: Tree, finite: Text -> bool)
    requires WellFormed(tree, finite)
    ensures Render(tree) != []
    ensures var u := Render(tree)[0];
      && !IsSpace(u) && u != CLOSE_ARRAY && u != CLOSE_OBJECT
      && (u == OPEN_ARRAY <==> tree.Arr? || tree.EmptyArr?)
      && (u == OPEN_OBJECT <==> tree.Obj? || tree.EmptyObj?)
  {
    if tree.Num? {
      NumberComplete(tree.numeral, []);
    }
  }

  lemma FirstIs(tree: Tree, finite: Text -> bool, before: Text, s: Text)
    requires WellFormed(tree, finite) && IsBlank(before)
    ensures Render(tree) != [] && SkipSpace(before + (Render(tree) + s)) == Render(tree) + s
  {
    TreeStart(tree, finite);
    SkipBlank(before, Render(tree) + s);
  }

  lemma ValueSkips(s: Text, depth: nat, finite: Text -> bool)
    ensures ParseValue(SkipSpace(s), depth, finite) == ParseValue(s, depth, finite)
  {
    SkipTwice(s);
  }

  lemma ItemsSkip(s: Text, depth: nat, output: seq<Value>, finite: Text -> bool)
    ensures ParseItems(SkipSpace(s), depth, output, finite) == ParseItems(s, depth, output, finite)
  {
    ValueSkips(s, depth + 1, finite);
  }

  lemma FieldsSkip(s: Text, depth: nat, output: seq<Member>, finite: Text -> bool)
    ensures ParseFields(SkipSpace(s), depth, output, finite) == ParseFields(s, depth, output, finite)
  {
    SkipTwice(s);
  }

  lemma StringComplete(pieces: seq<Piece>, s: Text)
    requires PiecesOk(pieces)
    ensures ParseString([QUOTE] + (RenderPieces(pieces) + s)) == Done(TextOf(pieces), s)
  {
    assert ([QUOTE] + (RenderPieces(pieces) + s))[1..] == RenderPieces(pieces) + s;
    CharsComplete(pieces, s, []);
    assert [] + TextOf(pieces) == TextOf(pieces);
  }

  lemma WordComplete(word: Value, s: Text, finite: Text -> bool)
    requires word == Null || word.Bool?
    ensures ParseScalar(WordText(word) + s, finite) == Done(word, s)
  {
    Split(WordText(word), s);
  }

  lemma NumeralComplete(numeral: Numeral, s: Text, finite: Text -> bool)
    requires WellFormed(Num(numeral), finite) && Ends(s)
    ensures ParseScalar(numeral.Render() + s, finite) == Done(Number(numeral.Render()), s)
  {
    var t := numeral.Render() + s;
    NumberComplete(numeral, s);
    Split(numeral.Render(), s);
    assert t[0] == numeral.Render()[0];
    assert ParseScalar(t, finite) == ParseNumber(t, finite);
  }

  lemma ScalarComplete(tree: Tree, s: Text, finite: Text -> bool)
    requires IsScalar(tree) && WellFormed(tree, finite) && Ends(s)
    ensures ParseScalar(Render(tree) + s, finite) == Done(ValueOf(tree, finite), s)
  {
    match tree
    case Word(word) => WordComplete(word, s, finite);
    case Num(numeral) => NumeralComplete(numeral, s, finite);
    case Str(pieces) =>
      StringComplete(pieces, s);
      assert Render(tree) + s == [QUOTE] + (RenderPieces(pieces) + s);
  }

  lemma {:induction false} ValueComplete(tree: Tree, before: Text, s: Text, depth: nat, finite: Text -> bool)
    requires WellFormed(tree, finite) && IsBlank(before) && Ends(s) && depth + Height(tree) <= MAX_DEPTH + 1
    ensures ParseValue(before + (Render(tree) + s), depth, finite) == Done(ValueOf(tree, finite), s)
    decreases tree, 1
  {
    var t := Render(tree) + s;
    FirstIs(tree, finite, before, s);
    TreeStart(tree, finite);
    if IsScalar(tree) {
      ScalarComplete(tree, s, finite);
      assert ParseValue(before + t, depth, finite) == ParseScalar(t, finite);
    } else if tree.Arr? || tree.EmptyArr? {
      ArrayComplete(tree, s, depth, finite);
      assert ParseValue(before + t, depth, finite) == ParseArray(t, depth, finite);
    } else {
      ObjectComplete(tree, s, depth, finite);
      assert ParseValue(before + t, depth, finite) == ParseObject(t, depth, finite);
    }
  }

  lemma {:induction false} ArrayComplete(tree: Tree, s: Text, depth: nat, finite: Text -> bool)
    requires (tree.EmptyArr? || tree.Arr?) && WellFormed(tree, finite) && depth + Height(tree) <= MAX_DEPTH + 1
    ensures ParseArray(Render(tree) + s, depth, finite) == Done(ValueOf(tree, finite), s)
    decreases tree, 0
  {
    var t := (Render(tree) + s)[1..];
    if tree.EmptyArr? {
      assert t == tree.pad + ([CLOSE_ARRAY] + s);
      SkipBlank(tree.pad, [CLOSE_ARRAY] + s);
      assert SkipSpace([CLOSE_ARRAY] + s) == [CLOSE_ARRAY] + s;
      Split([CLOSE_ARRAY], s);
    } else {
      var items := tree.items;
      assert t == RenderItems(items) + s;
      ItemsComplete(items, s, depth, [], finite);
      ItemsSkip(t, depth, [], finite);
      ItemsStart(items, s, finite);
      assert ParseArray(Render(tree) + s, depth, finite) == ParseItems(SkipSpace(t), depth, [], finite);
      assert [] + ItemsValue(items, finite) == ItemsValue(items, finite);
    }
  }

  /** What comes after the value of an item. */
  function AfterItem(items: Items): Text {
    if items.LastItem? then [CLOSE_ARRAY] else [COMMA] + RenderItems(items.rest)
  }

  lemma ItemsSplit(items: Items, s: Text)
    ensures RenderItems(items) + s == items.before + (Render(items.value) + (items.after + (AfterItem(items) + s)))
  {
    NestValue(items.before, Render(items.value), items.after, AfterItem(items), s);
  }

  lemma ItemsStart(items: Items, s: Text, finite: Text -> bool)
    requires ItemsOk(items, finite)
    ensures !Starts(SkipSpace(RenderItems(items) + s), CLOSE_ARRAY)
  {
    ItemsSplit(items, s);
    FirstIs(items.value, finite, items.before, items.after + (AfterItem(items) + s));
    TreeStart(items.value, finite);
  }

  lemma ItemsNext(s: Text, depth: nat, output: seq<Value>, finite: Text -> bool, item: Value, rest: Text)
    requires ParseValue(s, depth + 1, finite) == Done(item, rest)
    ensures Starts(SkipSpace(rest), COMMA) ==>
              ParseItems(s, depth, output, finite) == ParseItems(SkipSpace(rest)[1..], depth, output + [item], finite)
    ensures Starts(SkipSpace(rest), CLOSE_ARRAY) ==>
              ParseItems(s, depth, output, finite) == Done(Array(output + [item]), SkipSpace(rest)[1..])
  {
  }

  lemma AfterItemFacts(items: Items, s: Text)
    requires IsBlank(items.after)
    ensures var end := AfterItem(items) + s;
      && Ends(items.after + end) && SkipSpace(items.after + end) == end
      && (if items.LastItem? then Starts(end, CLOSE_ARRAY) && end[1..] == s
          else Starts(end, COMMA) && end[1..] == RenderItems(items.rest) + s)
  {
    EndFacts(items.after, AfterItem(items) + s);
    if items.MoreItems? { DropFirst(COMMA, RenderItems(items.rest), s); }
  }

  lemma ItemStep(items: Items, s: Text, depth: nat, output: seq<Value>, finite: Text -> bool, item: Value)
    requires IsBlank(items.after)
    requires ParseValue(RenderItems(items) + s, depth + 1, finite) == Done(item, items.after + (AfterItem(items) + s))
    ensures ParseItems(RenderItems(items) + s, depth, output, finite)
         == if items.LastItem? then Done(Array(output + [item]), s)
            else ParseItems(RenderItems(items.rest) + s, depth, output + [item], finite)
  {
    AfterItemFacts(items, s);
    ItemsNext(RenderItems(items) + s, depth, output, finite, item, items.after + (AfterItem(items) + s));
  }

  lemma ItemsValueNext(items: Items, finite: Text -> bool, output: seq<Value>)
    requires ItemsOk(items, finite)
    ensures output + ItemsValue(items, finite)
         == if items.LastItem? then output + [ValueOf(items.value, finite)]
            else output + [ValueOf(items.value, finite)] + ItemsValue(items.rest, finite)
  {
    var item := ValueOf(items.value, finite);
    if items.LastItem? {
      assert ItemsValue(items, finite) == [item];
    } else {
      assert ItemsValue(items, finite) == [item] + ItemsValue(items.rest, finite);
    }
  }

  lemma {:induction false} ItemsComplete(items: Items, s: Text, depth: nat, output: seq<Value>, finite: Text -> bool)
    requires ItemsOk(items, finite) && depth + ItemsHeight(items) <= MAX_DEPTH
    ensures ParseItems(RenderItems(items) + s, depth, output, finite) == Done(Array(output + ItemsValue(items, finite)), s)
    decreases items, 2
  {
    var item := ValueOf(items.value, finite);
    ItemsSplit(items, s);
    AfterItemFacts(items, s);
    ValueComplete(items.value, items.before, items.after + (AfterItem(items) + s), depth + 1, finite);
    ItemStep(items, s, depth, output, finite, item);
    ItemsValueNext(items, finite, output);
    if items.MoreItems? {
      ItemsComplete(items.rest, s, depth, output + [item], finite);
    }
  }

  lemma EmptyObjectComplete(pad: Text, s: Text, depth: nat, finite: Text -> bool)
    requires IsBlank(pad) && depth <= MAX_DEPTH
    ensures ParseObject(Render(EmptyObj(pad)) + s, depth, finite) == Done(Object([]), s)
  {
    var t := (Render(EmptyObj(pad)) + s)[1..];
    assert t == pad + ([CLOSE_OBJECT] + s);
    SkipBlank(pad, [CLOSE_OBJECT] + s);
    assert SkipSpace([CLOSE_OBJECT] + s) == [CLOSE_OBJECT] + s;
    Split([CLOSE_OBJECT], s);
  }

  lemma FieldsStart(fields: Fields, s: Text)
    requires IsBlank(fields.pad)
    ensures Starts(SkipSpace(RenderFields(fields) + s), QUOTE)
  {
    FieldsSplit(fields, s);
    SkipBlank(fields.pad, [QUOTE] + (RenderPieces(fields.key) + (fields.gap + ([COLON] + AfterKey(fields, s)))));
  }

  lemma {:induction false} ObjectComplete(tree: Tree, s: Text, depth: nat, finite: Text -> bool)
    requires (tree.EmptyObj? || tree.Obj?) && WellFormed(tree, finite) && depth + Height(tree) <= MAX_DEPTH + 1
    ensures ParseObject(Render(tree) + s, depth, finite) == Done(ValueOf(tree, finite), s)
    decreases tree, 0
  {
    if tree.EmptyObj? {
      EmptyObjectComplete(tree.pad, s, depth, finite);
    } else {
      var fields := tree.fields;
      var t := RenderFields(fields) + s;
      assert (Render(tree) + s)[1..] == t;
      FieldsStart(fields, s);
      assert ParseObject(Render(tree) + s, depth, finite) == ParseFields(SkipSpace(t), depth, [], finite);
      FieldsSkip(t, depth, [], finite);
      FieldsComplete(fields, s, depth, [], finite);
      assert [] + FieldsValue(fields, finite) == FieldsValue(fields, finite);
    }
  }

  function AfterField(fields: Fields): Text {
    if fields.LastField? then [CLOSE_OBJECT] else [COMMA] + RenderFields(fields.rest)
  }

  function AfterKey(fields: Fields, s: Text): Text {
    fields.before + (Render(fields.value) + (fields.after + (AfterField(fields) + s)))
  }

  lemma Nest(p: Text, k: Text, g: Text, v: Text, s: Text)
    ensures (p + ([QUOTE] + (k + (g + ([COLON] + v))))) + s == p + ([QUOTE] + (k + (g + ([COLON] + (v + s)))))
  {
    assert (g + ([COLON] + v)) + s == g + ([COLON] + (v + s));
    var t := g + ([COLON] + v);
    assert (p + ([QUOTE] + (k + t))) + s == p + ([QUOTE] + (k + (t + s)));
  }

  lemma NestValue(a: Text, b: Text, c: Text, d: Text, s: Text)
    ensures (a + (b + (c + d))) + s == a + (b + (c + (d + s)))
  {
    assert (c + d) + s == c + (d + s);
    var t := c + d;
    assert (a + (b + t)) + s == a + (b + (t + s));
  }

  lemma FieldsSplit(fields: Fields, s: Text)
    ensures RenderFields(fields) + s
         == fields.pad + ([QUOTE] + (RenderPieces(fields.key) + (fields.gap + ([COLON] + AfterKey(fields, s)))))
  {
    var a, b, c, d := fields.before, Render(fields.value), fields.after, AfterField(fields);
    NestValue(a, b, c, d, s);
    Nest(fields.pad, RenderPieces(fields.key), fields.gap, a + (b + (c + d)), s);
  }

  lemma KeyComplete(pad: Text, key: seq<Piece>, gap: Text, s: Text, output: seq<Member>)
    requires IsBlank(pad) && PiecesOk(key) && IsBlank(gap) && !HasKey(output, TextOf(key))
    ensures ParseKey(pad + ([QUOTE] + (RenderPieces(key) + (gap + ([COLON] + s)))), output) == Done(TextOf(key), s)
  {
    var afterKey := gap + ([COLON] + s);
    SkipBlank(pad, [QUOTE] + (RenderPieces(key) + afterKey));
    StringComplete(key, afterKey);
    SkipBlank(gap, [COLON] + s);
    assert ([COLON] + s)[1..] == s;
  }

  lemma FieldsNext(s: Text, depth: nat, output: seq<Member>, finite: Text -> bool, key: Text, afterKey: Text, value: Value, rest: Text)
    requires ParseKey(s, output) == Done(key, afterKey) && ParseValue(afterKey, depth + 1, finite) == Done(value, rest)
    ensures Starts(SkipSpace(rest), COMMA) ==>
              ParseFields(s, depth, output, finite)
              == ParseFields(SkipSpace(rest)[1..], depth, output + [Member(key, value)], finite)
    ensures Starts(SkipSpace(rest), CLOSE_OBJECT) ==>
              ParseFields(s, depth, output, finite) == Done(Object(output + [Member(key, value)]), SkipSpace(rest)[1..])
  {
  }

  lemma AfterFieldFacts(fields: Fields, s: Text)
    requires IsBlank(fields.after)
    ensures var end := AfterField(fields) + s;
      && Ends(fields.after + end) && SkipSpace(fields.after + end) == end
      && (if fields.LastField? then Starts(end, CLOSE_OBJECT) && end[1..] == s
          else Starts(end, COMMA) && end[1..] == RenderFields(fields.rest) + s)
  {
    EndFacts(fields.after, AfterField(fields) + s);
    if fields.MoreFields? { DropFirst(COMMA, RenderFields(fields.rest), s); }
  }

  predicate NewKeys(fields: Fields, finite: Text -> bool, output: seq<Member>)
    requires FieldsOk(fields, finite)
  {
    forall key | key in KeysOf(fields, finite) :: !HasKey(output, key)
  }

  function FirstMember(fields: Fields, finite: Text -> bool): Member
    requires FieldsOk(fields, finite)
  {
    Member(TextOf(fields.key), ValueOf(fields.value, finite))
  }

  lemma NewKeysNext(fields: Fields, finite: Text -> bool, output: seq<Member>)
    requires FieldsOk(fields, finite) && NewKeys(fields, finite, output)
    ensures !HasKey(output, TextOf(fields.key))
    ensures fields.MoreFields? ==> NewKeys(fields.rest, finite, output + [FirstMember(fields, finite)])
  {
    var member := FirstMember(fields, finite);
    assert member.key in KeysOf(fields, finite);
    if fields.MoreFields? {
      forall key | key in KeysOf(fields.rest, finite) ensures !HasKey(output + [member], key) {
        assert key in KeysOf(fields, finite);
      }
    }
  }

  lemma FieldsValueNext(fields: Fields, finite: Text -> bool, output: seq<Member>)
    requires FieldsOk(fields, finite)
    ensures output + FieldsValue(fields, finite)
         == if fields.LastField? then output + [FirstMember(fields, finite)]
            else output + [FirstMember(fields, finite)] + FieldsValue(fields.rest, finite)
  {
    if fields.LastField? {
      assert FieldsValue(fields, finite) == [FirstMember(fields, finite)];
    }
  }

  lemma FieldKey(fields: Fields, s: Text, output: seq<Member>, finite: Text -> bool)
    requires FieldsOk(fields, finite) && !HasKey(output, TextOf(fields.key))
    ensures ParseKey(RenderFields(fields) + s, output) == Done(TextOf(fields.key), AfterKey(fields, s))
  {
    FieldsSplit(fields, s);
    KeyComplete(fields.pad, fields.key, fields.gap, AfterKey(fields, s), output);
  }

  lemma FieldStep(fields: Fields, s: Text, depth: nat, output: seq<Member>, finite: Text -> bool, member: Member)
    requires FieldsOk(fields, finite) && member.key == TextOf(fields.key) && !HasKey(output, member.key)
    requires ParseValue(AfterKey(fields, s), depth + 1, finite)
          == Done(member.value, fields.after + (AfterField(fields) + s))
    ensures ParseFields(RenderFields(fields) + s, depth, output, finite)
         == if fields.LastField? then Done(Object(output + [member]), s)
            else ParseFields(RenderFields(fields.rest) + s, depth, output + [member], finite)
  {
    var rest := fields.after + (AfterField(fields) + s);
    FieldKey(fields, s, output, finite);
    AfterFieldFacts(fields, s);
    FieldsNext(RenderFields(fields) + s, depth, output, finite, member.key, AfterKey(fields, s), member.value, rest);
  }

  lemma {:induction false} FieldsComplete(fields: Fields, s: Text, depth: nat, output: seq<Member>, finite: Text -> bool)
    requires FieldsOk(fields, finite) && depth + FieldsHeight(fields) <= MAX_DEPTH
    requires NewKeys(fields, finite, output)
    ensures ParseFields(RenderFields(fields) + s, depth, output, finite) == Done(Object(output + FieldsValue(fields, finite)), s)
    decreases fields, 2
  {
    var member := FirstMember(fields, finite);
    NewKeysNext(fields, finite, output);
    FieldsValueNext(fields, finite, output);
    AfterFieldFacts(fields, s);
    ValueComplete(fields.value, fields.before, fields.after + (AfterField(fields) + s), depth + 1, finite);
    FieldStep(fields, s, depth, output, finite, member);
    if fields.MoreFields? {
      FieldsComplete(fields.rest, s, depth, output + [member], finite);
    }
  }

  /** An object text with white space around it, nested at most eight deep, is accepted with its value. */
  lemma DocumentComplete(tree: Tree, before: Text, after: Text, finite: Text -> bool)
    requires (tree.EmptyObj? || tree.Obj?) && WellFormed(tree, finite) && Height(tree) <= MAX_DEPTH
    requires IsBlank(before) && IsBlank(after)
    ensures ParseDocument(before + (Render(tree) + after), finite) == Some(ValueOf(tree, finite))
  {
    FirstIs(tree, finite, before, after);
    TreeStart(tree, finite);
    ObjectComplete(tree, after, 1, finite);
    SkipBlank(after, []);
    assert after + [] == after;
  }
}
