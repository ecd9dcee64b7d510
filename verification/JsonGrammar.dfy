/**
 * JSON text as RFC 8259 defines it, sections 2 to 8: concrete syntax trees, the text each tree spells, and the
 * value it denotes. Text is a sequence of UTF-16 code units.
 */
module JsonGrammar {
  import opened Prelude

  /** A decoded value. Members keep the order of the text; a number keeps its lexeme. */
  datatype Value =
    | Null
    | Bool(flag: bool)
    | Number(lexeme: Text)
    | String(text: Text)
    | Array(items: seq<Value>)
    | Object(members: seq<Member>)

  datatype Member = Member(key: Text, value: Value)

  const QUOTE := '"' as int
  const BACKSLASH := '\\' as int
  const COMMA := ',' as int
  const COLON := ':' as int
  const OPEN_ARRAY := '[' as int
  const CLOSE_ARRAY := ']' as int
  const OPEN_OBJECT := '{' as int
  const CLOSE_OBJECT := '}' as int

  function Units(s: string): Text { seq(|s|, i requires 0 <= i < |s| => s[i] as int) }

  // ----- Section 2: insignificant white space -----

  predicate IsSpace(u: int) { u == 0x20 || u == 0x09 || u == 0x0D || u == 0x0A }

  predicate IsBlank(s: Text) { forall i | 0 <= i < |s| :: IsSpace(s[i]) }

  // ----- Section 6: numbers -----

  predicate IsDigitUnit(u: int) { '0' as int <= u <= '9' as int }

  predicate AreDigits(s: Text) { s != [] && forall i | 0 <= i < |s| :: IsDigitUnit(s[i]) }

  datatype Exponent = Exponent(letter: int, sign: Option<int>, digits: Text)
  {
    predicate WellFormed() {
      && (letter == 'e' as int || letter == 'E' as int)
      && (sign.Some? ==> sign.value == '+' as int || sign.value == '-' as int)
      && AreDigits(digits)
    }

    function Signed(): Text {
      (if sign.Some? then [sign.value] else []) + digits
    }

    function Render(): Text {
      [letter] + Signed()
    }
  }

  function FractionText(fraction: Option<Text>): Text {
    if fraction.Some? then ['.' as int] + fraction.value else []
  }

  function ExponentText(exponent: Option<Exponent>): Text {
    if exponent.Some? then exponent.value.Render() else []
  }

  datatype Numeral = Numeral(minus: bool, whole: Text, fraction: Option<Text>, exponent: Option<Exponent>)
  {
    predicate WellFormed() {
      && AreDigits(whole) && (whole[0] == '0' as int ==> |whole| == 1)
      && (fraction.Some? ==> AreDigits(fraction.value))
      && (exponent.Some? ==> exponent.value.WellFormed())
    }

    function Unsigned(): Text {
      whole + (FractionText(fraction) + ExponentText(exponent))
    }

    function Render(): Text {
      if minus then ['-' as int] + Unsigned() else Unsigned()
    }
  }

  // ----- Section 7: strings -----

  predicate IsHexUnit(u: int) {
    IsDigitUnit(u) || 'a' as int <= u <= 'f' as int || 'A' as int <= u <= 'F' as int
  }

  predicate IsHex4(s: Text) { |s| == 4 && forall i | 0 <= i < 4 :: IsHexUnit(s[i]) }

  function HexUnit(u: int): (digit: int)
    ensures IsHexUnit(u) ==> 0 <= digit < 16
  {
    if IsDigitUnit(u) then u - '0' as int
    else if 'a' as int <= u <= 'f' as int then u - 'a' as int + 10
    else if 'A' as int <= u <= 'F' as int then u - 'A' as int + 10
    else 0
  }

  function CodeUnit(s: Text): (unit: int)
    requires |s| == 4
    ensures IsHex4(s) ==> 0 <= unit < 0x10000
  {
    HexUnit(s[0]) * 0x1000 + HexUnit(s[1]) * 0x100 + HexUnit(s[2]) * 0x10 + HexUnit(s[3])
  }

  /** What a two-character escape denotes. */
  function ShortEscape(letter: int): Option<int> {
    if letter == QUOTE || letter == BACKSLASH || letter == '/' as int then Some(letter)
    else if letter == 'b' as int then Some(0x08)
    else if letter == 'f' as int then Some(0x0C)
    else if letter == 'n' as int then Some(0x0A)
    else if letter == 'r' as int then Some(0x0D)
    else if letter == 't' as int then Some(0x09)
    else None
  }

  /** One character of a string: itself, a short escape, a hex escape, or a surrogate pair of hex escapes. */
  datatype Piece =
    | Raw(unit: int)
    | Short(letter: int)
    | Hex(digits: Text)
    | Pair(high: Text, low: Text)
  {
    predicate WellFormed() {
      match this
      case Raw(unit) => unit >= 0x20 && unit != QUOTE && unit != BACKSLASH
      case Short(letter) => ShortEscape(letter).Some?
      case Hex(digits) => IsHex4(digits) && !IsHigh(CodeUnit(digits)) && !IsLow(CodeUnit(digits))
      case Pair(high, low) => IsHex4(high) && IsHex4(low) && IsHigh(CodeUnit(high)) && IsLow(CodeUnit(low))
    }

    /** What follows the backslash of an escape. */
    function Escaped(): Text
      requires !Raw?
    {
      match this
      case Short(letter) => [letter]
      case Hex(digits) => ['u' as int] + digits
      case Pair(high, low) => ['u' as int] + (high + ([BACKSLASH, 'u' as int] + low))
    }

    function Render(): Text {
      if Raw? then [unit] else [BACKSLASH] + Escaped()
    }

    function Denotes(): Text
      requires WellFormed()
    {
      match this
      case Raw(unit) => [unit]
      case Short(letter) => [ShortEscape(letter).value]
      case Hex(digits) => [CodeUnit(digits)]
      case Pair(high, low) => [CodeUnit(high), CodeUnit(low)]
    }
  }

  predicate PiecesOk(pieces: seq<Piece>) { forall i | 0 <= i < |pieces| :: pieces[i].WellFormed() }

  /** The pieces and the closing quotation mark. */
  function RenderPieces(pieces: seq<Piece>): Text {
    if pieces == [] then [QUOTE] else pieces[0].Render() + RenderPieces(pieces[1..])
  }

  function TextOf(pieces: seq<Piece>): Text
    requires PiecesOk(pieces)
  {
    if pieces == [] then [] else pieces[0].Denotes() + TextOf(pieces[1..])
  }

  // ----- Sections 3 to 5: values, objects, arrays -----

  datatype Tree =
    | Word(word: Value)
    | Num(numeral: Numeral)
    | Str(pieces: seq<Piece>)
    | EmptyArr(pad: Text)
    | Arr(items: Items)
    | EmptyObj(pad: Text)
    | Obj(fields: Fields)

  /** One or more array elements, each with the white space around it. */
  datatype Items =
    | LastItem(before: Text, value: Tree, after: Text)
    | MoreItems(before: Text, value: Tree, after: Text, rest: Items)

  /** One or more members: white space, key, white space, colon, white space, value, white space. */
  datatype Fields =
    | LastField(pad: Text, key: seq<Piece>, gap: Text, before: Text, value: Tree, after: Text)
    | MoreFields(pad: Text, key: seq<Piece>, gap: Text, before: Text, value: Tree, after: Text, rest: Fields)

  function WordText(word: Value): Text {
    if word == Bool(true) then Units("true") else if word == Bool(false) then Units("false") else Units("null")
  }

  function Render(tree: Tree): Text {
    match tree
    case Word(word) => WordText(word)
    case Num(numeral) => numeral.Render()
    case Str(pieces) => [QUOTE] + RenderPieces(pieces)
    case EmptyArr(pad) => [OPEN_ARRAY] + (pad + [CLOSE_ARRAY])
    case Arr(items) => [OPEN_ARRAY] + RenderItems(items)
    case EmptyObj(pad) => [OPEN_OBJECT] + (pad + [CLOSE_OBJECT])
    case Obj(fields) => [OPEN_OBJECT] + RenderFields(fields)
  }

  function RenderItems(items: Items): Text {
    items.before + (Render(items.value) + (items.after +
      (if items.LastItem? then [CLOSE_ARRAY] else [COMMA] + RenderItems(items.rest))))
  }

  function RenderFields(fields: Fields): Text {
    fields.pad + ([QUOTE] + (RenderPieces(fields.key) + (fields.gap + ([COLON] + (fields.before + (Render(fields.value) +
      (fields.after + (if fields.LastField? then [CLOSE_OBJECT] else [COMMA] + RenderFields(fields.rest)))))))))
  }

  /** The grammar's side conditions: blank padding, well-formed tokens, finite numbers, and unique member names. */
  predicate WellFormed(tree: Tree, finite: Text -> bool)
    decreases tree, 0
  {
    match tree
    case Word(word) => word == Null || word.Bool?
    case Num(numeral) => numeral.WellFormed() && finite(numeral.Render())
    case Str(pieces) => PiecesOk(pieces)
    case EmptyArr(pad) => IsBlank(pad)
    case Arr(items) => ItemsOk(items, finite)
    case EmptyObj(pad) => IsBlank(pad)
    case Obj(fields) => FieldsOk(fields, finite)
  }

  predicate ItemsOk(items: Items, finite: Text -> bool)
    decreases items, 0
  {
    && IsBlank(items.before) && IsBlank(items.after)
    && WellFormed(items.value, finite)
    && (items.MoreItems? ==> ItemsOk(items.rest, finite))
  }

  predicate FieldsOk(fields: Fields, finite: Text -> bool)
    decreases fields, 0
  {
    && IsBlank(fields.pad) && PiecesOk(fields.key) && IsBlank(fields.gap) && IsBlank(fields.before)
    && WellFormed(fields.value, finite)
    && IsBlank(fields.after)
    && (fields.MoreFields? ==> FieldsOk(fields.rest, finite) && TextOf(fields.key) !in KeysOf(fields.rest, finite))
  }

  function KeysOf(fields: Fields, finite: Text -> bool): seq<Text>
    requires FieldsOk(fields, finite)
    decreases fields, 1
  {
    [TextOf(fields.key)] + (if fields.LastField? then [] else KeysOf(fields.rest, finite))
  }

  function ValueOf(tree: Tree, finite: Text -> bool): Value
    requires WellFormed(tree, finite)
  {
    match tree
    case Word(word) => word
    case Num(numeral) => Number(numeral.Render())
    case Str(pieces) => String(TextOf(pieces))
    case EmptyArr(_) => Array([])
    case Arr(items) => Array(ItemsValue(items, finite))
    case EmptyObj(_) => Object([])
    case Obj(fields) => Object(FieldsValue(fields, finite))
  }

  function ItemsValue(items: Items, finite: Text -> bool): seq<Value>
    requires ItemsOk(items, finite)
  {
    [ValueOf(items.value, finite)] + (if items.LastItem? then [] else ItemsValue(items.rest, finite))
  }

  function FieldsValue(fields: Fields, finite: Text -> bool): seq<Member>
    requires FieldsOk(fields, finite)
  {
    [Member(TextOf(fields.key), ValueOf(fields.value, finite))]
    + (if fields.LastField? then [] else FieldsValue(fields.rest, finite))
  }

  /** Nesting: scalars and empty containers count 1. */
  function Height(tree: Tree): (h: nat)
    ensures h >= 1
  {
    match tree
    case Arr(items) => 1 + ItemsHeight(items)
    case Obj(fields) => 1 + FieldsHeight(fields)
    case _ => 1
  }

  function ItemsHeight(items: Items): nat {
    if items.LastItem? then Height(items.value) else Max(Height(items.value), ItemsHeight(items.rest))
  }

  function FieldsHeight(fields: Fields): nat {
    if fields.LastField? then Height(fields.value) else Max(Height(fields.value), FieldsHeight(fields.rest))
  }
}
