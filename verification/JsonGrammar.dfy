/**
 * JSON texts as RFC 8259 defines them: a syntax tree for every way to write a value, with its white space, its
 * choice of escapes and the order of its members, and the text and the value of such a tree.
 */
module JsonGrammar {
  import opened UnicodeText
  import opened CanonicalJson

  /** The white space of section 2: spaces, tabs, line feeds and carriage returns. */
  predicate IsBlank(t: Text) {
    forall i :: 0 <= i < |t| ==> t[i] == 0x20 || t[i] == 0x09 || t[i] == 0x0A || t[i] == 0x0D
  }

  // ----- strings, section 7 -----

  /** A hexadecimal digit in either case. */
  predicate IsHex(c: CodePoint, v: nat) {
    v < 16 && (c == HexDigit(v) || (v >= 10 && c == HexDigit(v) - 0x20))
  }

  /** Four hexadecimal digits and the code unit they write. */
  datatype Hex4 = Hex4(text: Text, value: CodePoint) {
    predicate IsWritten() {
      && |text| == 4 && value < 0x1_0000
      && IsHex(text[0], value / 0x1000)
      && IsHex(text[1], value / 0x100 % 0x10)
      && IsHex(text[2], value / 0x10 % 0x10)
      && IsHex(text[3], value % 0x10)
    }
  }

  /** One character of a string: itself, a two-character escape, a code unit, or a surrogate pair of units. */
  datatype Char =
    | Plain(c: CodePoint)
    | Short(letter: CodePoint, c: CodePoint)
    | Escaped(unit: Hex4)
    | EscapedPair(high: Hex4, low: Hex4, c: CodePoint)
  {
    predicate IsWritten() {
      match this
      case Plain(c) => c >= 0x20 && c != QUOTE && c != BACKSLASH
      case Short(letter, c) => IsShortEscape(letter, c)
      case Escaped(unit) => unit.IsWritten()
      case EscapedPair(high, low, c) => high.IsWritten() && low.IsWritten() && UnitsOf(c) == [high.value, low.value]
    }

    function Written(): Text {
      match this
      case Plain(c) => [c]
      case Short(letter, _) => [BACKSLASH, letter]
      case Escaped(unit) => [BACKSLASH, 0x75] + unit.text
      case EscapedPair(high, low, _) => [BACKSLASH, 0x75] + high.text + [BACKSLASH, 0x75] + low.text
    }

    function Value(): CodePoint {
      if Escaped? then unit.value else c
    }

    predicate IsHighUnit() {
      Escaped? && 0xD800 <= unit.value <= 0xDBFF
    }

    predicate IsLowUnit() {
      Escaped? && 0xDC00 <= unit.value <= 0xDFFF
    }
  }

  predicate IsShortEscape(letter: CodePoint, c: CodePoint) {
    || (letter == c && (c == QUOTE || c == BACKSLASH || c == 0x2F))
    || (letter == 0x62 && c == 0x08)
    || (letter == 0x66 && c == 0x0C)
    || (letter == 0x6E && c == 0x0A)
    || (letter == 0x72 && c == 0x0D)
    || (letter == 0x74 && c == 0x09)
  }

  /** What stands between two quotes; two escaped surrogates that fit together are always one pair. */
  predicate IsString(chars: seq<Char>) {
    && (forall i :: 0 <= i < |chars| ==> chars[i].IsWritten())
    && (forall i :: 0 <= i < |chars| - 1 ==> !(chars[i].IsHighUnit() && chars[i + 1].IsLowUnit()))
  }

  function CharsText(chars: seq<Char>): Text {
    if chars == [] then [] else chars[0].Written() + CharsText(chars[1..])
  }

  function CharsValue(chars: seq<Char>): (r: Text)
    ensures |r| == |chars|
  {
    seq(|chars|, i requires 0 <= i < |chars| => chars[i].Value())
  }

  // ----- numbers, section 6 -----

  predicate AreDigits(t: Text) {
    t != [] && forall i :: 0 <= i < |t| ==> 0x30 <= t[i] <= 0x39
  }

  /** A numeral without leading zeros, which is how a natural number is printed, with what may come after it. */
  datatype Number = Number(negative: bool, size: nat, fraction: Text, exponent: Text) {
    predicate IsWritten() {
      && (fraction == [] || (fraction[0] == 0x2E && AreDigits(fraction[1..])))
      && (exponent == [] ||
          ((exponent[0] == 0x65 || exponent[0] == 0x45) &&
           (AreDigits(exponent[1..]) ||
            (|exponent| > 1 && (exponent[1] == 0x2B || exponent[1] == MINUS) && AreDigits(exponent[2..])))))
    }

    function Written(): Text {
      (if negative then [MINUS] else []) + DumpNat(size) + fraction + exponent
    }

    function Value(): Json {
      if fraction == [] && exponent == [] then Int(if negative then -(size as int) else size) else Float
    }
  }

  // ----- values, sections 3 to 5 -----

  datatype Node =
    | WordNode(word: Json)
    | NumberNode(number: Number)
    | StringNode(chars: seq<Char>)
    | ArrayNode(blank: Text, slots: seq<Slot>)
    | ObjectNode(blank: Text, fields: seq<Field>)

  /** An item of an array, with the white space around it. */
  datatype Slot = Slot(before: Text, item: Node, after: Text)

  /** A member of an object, with the white space around its key and its value. */
  datatype Field = Field(before: Text, key: seq<Char>, middle: Text, gap: Text, value: Node, after: Text)

  predicate IsNode(node: Node) {
    match node
    case WordNode(word) => word.Null? || word.Bool?
    case NumberNode(number) => number.IsWritten()
    case StringNode(chars) => IsString(chars)
    case ArrayNode(blank, slots) =>
      && IsBlank(blank) && (slots != [] ==> blank == [])
      && forall i :: 0 <= i < |slots| ==> IsBlank(slots[i].before) && IsNode(slots[i].item) && IsBlank(slots[i].after)
    case ObjectNode(blank, fields) =>
      && IsBlank(blank) && (fields != [] ==> blank == [])
      && forall i :: 0 <= i < |fields| ==> IsFieldFrame(fields[i]) && IsNode(fields[i].value)
  }

  predicate IsFieldFrame(field: Field) {
    && IsBlank(field.before) && IsString(field.key) && IsBlank(field.middle) && IsBlank(field.gap)
    && IsBlank(field.after)
  }

  function WordText(word: Json): Text {
    if word.Bool? then (if word.value then [0x74, 0x72, 0x75, 0x65] else [0x66, 0x61, 0x6C, 0x73, 0x65])
    else [0x6E, 0x75, 0x6C, 0x6C]
  }

  function StringText(chars: seq<Char>): Text {
    [QUOTE] + CharsText(chars) + [QUOTE]
  }

  function NodeText(node: Node): Text
    decreases node, 0
  {
    match node
    case WordNode(word) => WordText(word)
    case NumberNode(number) => number.Written()
    case StringNode(chars) => StringText(chars)
    case ArrayNode(blank, slots) => [OPEN_BRACKET] + blank + SlotsText(slots) + [CLOSE_BRACKET]
    case ObjectNode(blank, fields) => [OPEN_BRACE] + blank + FieldsText(fields) + [CLOSE_BRACE]
  }

  function SlotText(slot: Slot): Text
    decreases slot, 1
  {
    slot.before + NodeText(slot.item) + slot.after
  }

  function SlotsText(slots: seq<Slot>): Text
    decreases slots, 2
  {
    if slots == [] then []
    else if |slots| == 1 then SlotText(slots[0])
    else SlotText(slots[0]) + [COMMA] + SlotsText(slots[1..])
  }

  function FieldText(field: Field): Text
    decreases field, 1
  {
    field.before + StringText(field.key) + field.middle + [COLON] + field.gap + NodeText(field.value) + field.after
  }

  function FieldsText(fields: seq<Field>): Text
    decreases fields, 2
  {
    if fields == [] then []
    else if |fields| == 1 then FieldText(fields[0])
    else FieldText(fields[0]) + [COMMA] + FieldsText(fields[1..])
  }

  function NodeValue(node: Node): Json
    decreases node, 0
  {
    match node
    case WordNode(word) => word
    case NumberNode(number) => number.Value()
    case StringNode(chars) => Str(CharsValue(chars))
    case ArrayNode(_, slots) => Arr(SlotsValue(slots))
    case ObjectNode(_, fields) => Obj(FieldsValue(fields))
  }

  function SlotsValue(slots: seq<Slot>): (r: seq<Json>)
    ensures |r| == |slots|
    ensures forall i :: 0 <= i < |r| ==> r[i] == NodeValue(slots[i].item)
    decreases slots, 1
  {
    seq(|slots|, i requires 0 <= i < |slots| => NodeValue(slots[i].item))
  }

  function FieldsValue(fields: seq<Field>): (r: seq<Member>)
    ensures |r| == |fields|
    ensures forall i :: 0 <= i < |r| ==> r[i] == Member(CharsValue(fields[i].key), NodeValue(fields[i].value))
    decreases fields, 1
  {
    seq(|fields|, i requires 0 <= i < |fields| => Member(CharsValue(fields[i].key), NodeValue(fields[i].value)))
  }

  ghost predicate HasDistinctNames(nfc: Nfc, fields: seq<Field>) {
    forall i, j :: 0 <= i < j < |fields| ==>
      && CharsValue(fields[i].key) != CharsValue(fields[j].key)
      && nfc(CharsValue(fields[i].key)) != nfc(CharsValue(fields[j].key))
  }

  /**
   * What the program's hooks let pass, at every depth: no floats, no negative zero, no unsafe integers, and no
   * two keys of an object that are equal, or equal once normalised.
   */
  ghost predicate PassesHooks(nfc: Nfc, node: Node) {
    match node
    case NumberNode(number) =>
      && number.fraction == [] && number.exponent == []
      && number.size <= SAFE_INTEGER_LIMIT && !(number.negative && number.size == 0)
    case ArrayNode(_, slots) => forall i :: 0 <= i < |slots| ==> PassesHooks(nfc, slots[i].item)
    case ObjectNode(_, fields) =>
      && HasDistinctNames(nfc, fields)
      && forall i :: 0 <= i < |fields| ==> PassesHooks(nfc, fields[i].value)
    case _ => true
  }

  /** A whole text: one value with white space around it. */
  datatype Document = Document(before: Text, node: Node, after: Text) {
    predicate IsWritten() {
      IsBlank(before) && IsNode(node) && IsBlank(after)
    }

    function Written(): Text {
      before + NodeText(node) + after
    }
  }

  /** The text writes the value, and the hooks let it pass. */
  ghost predicate Writes(nfc: Nfc, t: Text, v: Json) {
    exists d: Document :: d.IsWritten() && d.Written() == t && NodeValue(d.node) == v && PassesHooks(nfc, d.node)
  }
}
