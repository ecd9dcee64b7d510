/** A compact printer, and the round trip through the parser. */
module JsonPrinter {
  import opened Prelude
  import opened JsonGrammar
  import opened JsonParser
  import opened JsonCompleteness
  import opened JsonSoundness

  /** A value some text of the grammar stands for: legal finite numbers, code units, no repeated member name. */
  predicate Printable(value: Value, finite: Text -> bool)
    decreases value
  {
    match value
    case Null => true
    case Bool(_) => true
    case Number(lexeme) => 0 < NumberEnd(lexeme) == |lexeme| && finite(lexeme)
    case String(text) => AreUnits(text)
    case Array(items) => forall i | 0 <= i < |items| :: Printable(items[i], finite)
    case Object(members) =>
      && (forall i | 0 <= i < |members| :: AreUnits(members[i].key) && Printable(members[i].value, finite))
      && (forall i, j | 0 <= i < j < |members| :: members[i].key != members[j].key)
  }

  predicate AreUnits(text: Text) { forall i | 0 <= i < |text| :: text[i] >= 0 }

  function Depth(value: Value): (d: nat)
    ensures d >= 1
    decreases value, 0
  {
    match value
    case Array(items) => 1 + ItemsDepth(items)
    case Object(members) => 1 + MembersDepth(members)
    case _ => 1
  }

  function ItemsDepth(items: seq<Value>): nat
    decreases items, 1
  {
    if items == [] then 0 else Max(Depth(items[0]), ItemsDepth(items[1..]))
  }

  function MembersDepth(members: seq<Member>): nat
    decreases members, 1
  {
    if members == [] then 0 else Max(Depth(members[0].value), MembersDepth(members[1..]))
  }

  function HexDigit(n: int): int {
    if n < 10 then '0' as int + n else 'a' as int + (n - 10)
  }

  function PrintUnit(unit: int): Piece {
    if unit == '"' as int || unit == '\\' as int then Short(unit)
    else if unit < 0x20 then Hex(['0' as int, '0' as int, HexDigit(unit / 16), HexDigit(unit % 16)])
    else Raw(unit)
  }

  function PrintUnits(text: Text): seq<Piece> {
    seq(|text|, i requires 0 <= i < |text| => PrintUnit(text[i]))
  }

  function PrintString(text: Text): Text { ['"' as int] + RenderPieces(PrintUnits(text)) }

  /** The printer spells words and punctuation by themselves. */
  function Print(value: Value): Text
    decreases value, 0
  {
    match value
    case Null => Units("null")
    case Bool(flag) => if flag then Units("true") else Units("false")
    case Number(lexeme) => lexeme
    case String(text) => PrintString(text)
    case Array(items) => if items == [] then Units("[]") else ['[' as int] + PrintItems(items)
    case Object(members) => if members == [] then Units("{}") else ['{' as int] + PrintMembers(members)
  }

  function PrintItems(items: seq<Value>): Text
    requires items != []
    decreases items, 1
  {
    Print(items[0]) + (if |items| == 1 then [']' as int] else [',' as int] + PrintItems(items[1..]))
  }

  function PrintMembers(members: seq<Member>): Text
    requires members != []
    decreases members, 1
  {
    PrintString(members[0].key) + ([':' as int] + (Print(members[0].value)
      + (if |members| == 1 then ['}' as int] else [',' as int] + PrintMembers(members[1..]))))
  }

  // ----- What is printed is a text of the grammar for the value -----

  lemma UnitPrinted(unit: int)
    requires unit >= 0
    ensures PrintUnit(unit).WellFormed() && PrintUnit(unit).Denotes() == [unit]
  {
  }

  lemma {:induction false} StringPrinted(text: Text)
    requires AreUnits(text)
    ensures PiecesOk(PrintUnits(text)) && TextOf(PrintUnits(text)) == text
    decreases |text|
  {
    forall i | 0 <= i < |text| ensures PrintUnit(text[i]).WellFormed() {
      UnitPrinted(text[i]);
    }
    if text != [] {
      UnitPrinted(text[0]);
      StringPrinted(text[1..]);
      assert PrintUnits(text)[1..] == PrintUnits(text[1..]);
    }
  }

  lemma {:induction false} ValuePrinted(value: Value, finite: Text -> bool) returns (tree: Tree)
    requires Printable(value, finite)
    ensures WellFormed(tree, finite) && ValueOf(tree, finite) == value && Height(tree) == Depth(value)
    ensures Render(tree) == Print(value)
    ensures value.Object? ==> tree.Obj? || tree.EmptyObj?
    decreases value, 0
  {
    match value
    case Number(lexeme) =>
      var numeral := NumberSound(lexeme);
      assert lexeme[..NumberEnd(lexeme)] == lexeme;
      tree := Num(numeral);
    case String(text) =>
      StringPrinted(text);
      tree := Str(PrintUnits(text));
    case Array(items) =>
      if items == [] {
        tree := EmptyArr([]);
        assert Units("[]") == [OPEN_ARRAY] + ([] + [CLOSE_ARRAY]);
      } else {
        var list := ItemsPrinted(items, finite);
        tree := Arr(list);
      }
    case Object(members) =>
      if members == [] {
        tree := EmptyObj([]);
        assert Units("{}") == [OPEN_OBJECT] + ([] + [CLOSE_OBJECT]);
      } else {
        var list := MembersPrinted(members, finite);
        tree := Obj(list);
      }
    case _ =>
      tree := Word(value);
  }

  lemma ItemText(value: Tree, rest: Items)
    ensures RenderItems(LastItem([], value, [])) == Render(value) + [CLOSE_ARRAY]
    ensures RenderItems(MoreItems([], value, [], rest)) == Render(value) + ([COMMA] + RenderItems(rest))
  {
  }

  lemma NoPadding(key: Text, value: Text, end: Text)
    ensures [] + ([QUOTE] + (key + ([] + ([COLON] + ([] + (value + ([] + end)))))))
         == ([QUOTE] + key) + ([COLON] + (value + end))
  {
    assert [] + (value + ([] + end)) == value + end;
    var t := [COLON] + (value + end);
    assert [] + ([QUOTE] + (key + ([] + t))) == ([QUOTE] + key) + t;
  }

  lemma FieldText(key: seq<Piece>, value: Tree, rest: Fields)
    ensures RenderFields(LastField([], key, [], [], value, []))
         == ([QUOTE] + RenderPieces(key)) + ([COLON] + (Render(value) + [CLOSE_OBJECT]))
    ensures RenderFields(MoreFields([], key, [], [], value, [], rest))
         == ([QUOTE] + RenderPieces(key)) + ([COLON] + (Render(value) + ([COMMA] + RenderFields(rest))))
  {
    NoPadding(RenderPieces(key), Render(value), [CLOSE_OBJECT]);
    NoPadding(RenderPieces(key), Render(value), [COMMA] + RenderFields(rest));
  }

  lemma {:induction false} ItemsPrinted(items: seq<Value>, finite: Text -> bool) returns (list: Items)
    requires items != [] && forall i | 0 <= i < |items| :: Printable(items[i], finite)
    ensures ItemsOk(list, finite) && ItemsValue(list, finite) == items && ItemsHeight(list) == ItemsDepth(items)
    ensures RenderItems(list) == PrintItems(items)
    decreases items, 1
  {
    var value := ValuePrinted(items[0], finite);
    if |items| == 1 {
      list := LastItem([], value, []);
      ItemText(value, list);
    } else {
      var rest := ItemsPrinted(items[1..], finite);
      list := MoreItems([], value, [], rest);
      ItemText(value, rest);
    }
  }

  lemma {:induction false} KeysAre(fields: Fields, finite: Text -> bool)
    requires FieldsOk(fields, finite)
    ensures |KeysOf(fields, finite)| == |FieldsValue(fields, finite)|
    ensures forall i | 0 <= i < |KeysOf(fields, finite)| :: KeysOf(fields, finite)[i] == FieldsValue(fields, finite)[i].key
  {
    if fields.MoreFields? { KeysAre(fields.rest, finite); }
  }

  lemma FieldPrinted(members: seq<Member>, finite: Text -> bool, value: Tree, rest: Fields) returns (list: Fields)
    requires |members| > 1 && Printable(Object(members), finite)
    requires WellFormed(value, finite) && ValueOf(value, finite) == members[0].value && Render(value) == Print(members[0].value)
    requires FieldsOk(rest, finite) && FieldsValue(rest, finite) == members[1..] && RenderFields(rest) == PrintMembers(members[1..])
    ensures list == MoreFields([], PrintUnits(members[0].key), [], [], value, [], rest)
    ensures FieldsOk(list, finite) && FieldsValue(list, finite) == members
    ensures RenderFields(list) == PrintMembers(members)
  {
    var key := PrintUnits(members[0].key);
    StringPrinted(members[0].key);
    KeysAre(rest, finite);
    list := MoreFields([], key, [], [], value, [], rest);
    FieldText(key, value, rest);
    assert members == [members[0]] + members[1..];
  }

  lemma {:induction false} MembersPrinted(members: seq<Member>, finite: Text -> bool) returns (list: Fields)
    requires members != [] && Printable(Object(members), finite)
    ensures FieldsOk(list, finite) && FieldsValue(list, finite) == members && FieldsHeight(list) == MembersDepth(members)
    ensures RenderFields(list) == PrintMembers(members)
    decreases members, 1
  {
    var value := ValuePrinted(members[0].value, finite);
    if |members| == 1 {
      StringPrinted(members[0].key);
      var key := PrintUnits(members[0].key);
      list := LastField([], key, [], [], value, []);
      FieldText(key, value, list);
    } else {
      var rest := MembersPrinted(members[1..], finite);
      list := FieldPrinted(members, finite, value, rest);
    }
  }

  /** Printing and parsing back: every printable object nested at most eight deep comes back unchanged. */
  lemma PrintParses(value: Value, finite: Text -> bool)
    requires value.Object? && Printable(value, finite) && Depth(value) <= 8
    ensures ParseDocument(Print(value), finite) == Some(value)
  {
    var tree := ValuePrinted(value, finite);
    DocumentComplete(tree, [], [], finite);
    assert [] + (Render(tree) + []) == Print(value);
  }

  // ----- What is parsed can be printed -----

  lemma {:induction false} PiecesPrintable(pieces: seq<Piece>)
    requires PiecesOk(pieces)
    ensures AreUnits(TextOf(pieces))
    decreases |pieces|
  {
    if pieces != [] { PiecesPrintable(pieces[1..]); }
  }

  lemma {:induction false} TreePrintable(tree: Tree, finite: Text -> bool)
    requires WellFormed(tree, finite)
    ensures Printable(ValueOf(tree, finite), finite) && Depth(ValueOf(tree, finite)) == Height(tree)
    decreases tree, 0
  {
    match tree
    case Num(numeral) =>
      NumberComplete(numeral, []);
      assert numeral.Render() + [] == numeral.Render();
    case Str(pieces) => PiecesPrintable(pieces);
    case Arr(items) => ItemsPrintable(items, finite);
    case Obj(fields) => FieldsPrintable(fields, finite);
    case _ =>
  }

  lemma {:induction false} ItemsPrintable(items: Items, finite: Text -> bool)
    requires ItemsOk(items, finite)
    ensures var values := ItemsValue(items, finite);
      && (forall i | 0 <= i < |values| :: Printable(values[i], finite))
      && ItemsDepth(values) == ItemsHeight(items)
    decreases items, 1
  {
    TreePrintable(items.value, finite);
    var values := ItemsValue(items, finite);
    if items.MoreItems? {
      ItemsPrintable(items.rest, finite);
      assert values[1..] == ItemsValue(items.rest, finite);
    }
  }

  lemma {:induction false} FieldsPrintable(fields: Fields, finite: Text -> bool)
    requires FieldsOk(fields, finite)
    ensures Printable(Object(FieldsValue(fields, finite)), finite)
    ensures MembersDepth(FieldsValue(fields, finite)) == FieldsHeight(fields)
    decreases fields, 1
  {
    TreePrintable(fields.value, finite);
    PiecesPrintable(fields.key);
    var members := FieldsValue(fields, finite);
    if fields.MoreFields? {
      FieldsPrintable(fields.rest, finite);
      KeysAre(fields.rest, finite);
      var rest := FieldsValue(fields.rest, finite);
      assert members[1..] == rest;
      forall i, j | 0 <= i < j < |members| ensures members[i].key != members[j].key {
        assert members[j] == rest[j - 1];
        if i > 0 { assert members[i] == rest[i - 1]; }
      }
    }
  }

  /** The values the parser returns are exactly the printable objects nested at most eight deep: each one is returned
      for its printed form, and nothing else is ever returned. */
  lemma ParsedIffPrintable(value: Value, finite: Text -> bool)
    ensures (exists text :: ParseDocument(text, finite) == Some(value))
       <==> value.Object? && Printable(value, finite) && Depth(value) <= 8
  {
    if text :| ParseDocument(text, finite) == Some(value) {
      var before, tree, after := DocumentSound(text, finite);
      TreePrintable(tree, finite);
    }
    if value.Object? && Printable(value, finite) && Depth(value) <= 8 {
      PrintParses(value, finite);
    }
  }
}
