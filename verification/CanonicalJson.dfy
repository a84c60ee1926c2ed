/**
 * The canonical encoding of `scripts/validate_governance_state.py`, and what it is equality of.
 *
 * A Python dictionary is the sequence of its members in insertion order. `nfc` is Unicode normalisation, about
 * which nothing is assumed.
 */
module CanonicalJson {
  import opened Wrappers
  import opened Ordering
  import opened UnicodeText

  const SAFE_INTEGER_LIMIT: int := 0x1F_FFFF_FFFF_FFFF

  type Nfc = Text -> Text

  datatype Json =
    | Null
    | Bool(value: bool)
    | Int(number: int)
    | Float
    | Str(text: Text)
    | Arr(items: seq<Json>)
    | Obj(members: seq<Member>)

  datatype Member = Member(key: Text, value: Json)

  predicate DistinctTexts(texts: seq<Text>) {
    forall i, j :: 0 <= i < j < |texts| ==> texts[i] != texts[j]
  }

  function Keys(members: seq<Member>): seq<Text> {
    seq(|members|, i requires 0 <= i < |members| => members[i].key)
  }

  /** Dictionaries have distinct keys, at every depth. */
  predicate IsProper(v: Json) {
    match v
    case Arr(items) => forall i :: 0 <= i < |items| ==> IsProper(items[i])
    case Obj(members) =>
      DistinctTexts(Keys(members)) && forall i :: 0 <= i < |members| ==> IsProper(members[i].value)
    case _ => true
  }

  predicate IsValidText(nfc: Nfc, t: Text) {
    nfc(t) == t && HasNoSurrogates(t)
  }

  /** `validate_scalar`. */
  predicate IsValidScalar(nfc: Nfc, v: Json) {
    match v
    case Null => true
    case Bool(_) => true
    case Int(number) => -SAFE_INTEGER_LIMIT <= number <= SAFE_INTEGER_LIMIT
    case Float => false
    case Str(text) => IsValidText(nfc, text)
    case _ => false
  }

  // ----- json.dumps of a scalar -----

  const QUOTE: CodePoint := 0x22
  const BACKSLASH: CodePoint := 0x5C
  const COMMA: CodePoint := 0x2C
  const COLON: CodePoint := 0x3A
  const MINUS: CodePoint := 0x2D
  const OPEN_BRACE: CodePoint := 0x7B
  const CLOSE_BRACE: CodePoint := 0x7D
  const OPEN_BRACKET: CodePoint := 0x5B
  const CLOSE_BRACKET: CodePoint := 0x5D

  function HexDigit(d: nat): CodePoint
    requires d < 16
  {
    if d < 10 then 0x30 + d else 0x57 + d
  }

  function Escape(c: CodePoint): Text {
    if c == QUOTE then [BACKSLASH, QUOTE]
    else if c == BACKSLASH then [BACKSLASH, BACKSLASH]
    else if c == 0x08 then [BACKSLASH, 0x62]
    else if c == 0x0C then [BACKSLASH, 0x66]
    else if c == 0x0A then [BACKSLASH, 0x6E]
    else if c == 0x0D then [BACKSLASH, 0x72]
    else if c == 0x09 then [BACKSLASH, 0x74]
    else if c < 0x20 then [BACKSLASH, 0x75, 0x30, 0x30, HexDigit(c / 16), HexDigit(c % 16)]
    else [c]
  }

  function EscapeAll(t: Text): Text {
    if t == [] then [] else Escape(t[0]) + EscapeAll(t[1..])
  }

  function DumpText(t: Text): Text {
    [QUOTE] + EscapeAll(t) + [QUOTE]
  }

  function DumpNat(n: nat): Text {
    if n < 10 then [0x30 + n] else DumpNat(n / 10) + [0x30 + n % 10]
  }

  function DumpInt(n: int): Text {
    if n < 0 then [MINUS] + DumpNat(-n) else DumpNat(n)
  }

  const NULL_TEXT: Text := [0x6E, 0x75, 0x6C, 0x6C]
  const TRUE_TEXT: Text := [0x74, 0x72, 0x75, 0x65]
  const FALSE_TEXT: Text := [0x66, 0x61, 0x6C, 0x73, 0x65]

  function DumpScalar(v: Json): Text {
    match v
    case Bool(value) => if value then TRUE_TEXT else FALSE_TEXT
    case Int(number) => DumpInt(number)
    case Str(text) => DumpText(text)
    case _ => NULL_TEXT
  }

  // ----- canonical_json_v1 -----

  datatype Part = Part(key: Text, bytes: seq<Byte>)

  function MemberKey(m: Member): seq<Byte> {
    Utf16(m.key)
  }

  function PartKey(p: Part): seq<Byte> {
    Utf16(p.key)
  }

  function PartBytes(p: Part): seq<Byte> {
    p.bytes
  }

  /** `b",".join(parts)`. */
  function JoinBytes(parts: seq<seq<Byte>>): seq<Byte> {
    if parts == [] then []
    else if |parts| == 1 then parts[0]
    else parts[0] + [COMMA] + JoinBytes(parts[1..])
  }

  /** `canonical_json_v1`, with `None` for a failed requirement. */
  function Canonical(nfc: Nfc, v: Json): Option<seq<Byte>>
    decreases v, 0
  {
    match v
    case Obj(members) =>
      var keys := Keys(members);
      if !DistinctTexts(Mapped(nfc, keys)) then
        None
      else if exists i :: 0 <= i < |keys| && !IsValidText(nfc, keys[i]) then
        None
      else
        (match CanonicalParts(nfc, members)
         case None => None
         case Some(parts) =>
           Some([OPEN_BRACE] + JoinBytes(Mapped(PartBytes, SortBy(PartKey, BytesLeq, parts))) + [CLOSE_BRACE]))
    case Arr(items) =>
      (match CanonicalItems(nfc, items)
       case None => None
       case Some(parts) => Some([OPEN_BRACKET] + JoinBytes(parts) + [CLOSE_BRACKET]))
    case _ =>
      if IsValidScalar(nfc, v) then Some(Utf8(DumpScalar(v))) else None
  }

  function CanonicalParts(nfc: Nfc, members: seq<Member>): Option<seq<Part>>
    decreases members, 1
  {
    if members == [] then
      Some([])
    else
      match (Canonical(nfc, members[0].value), CanonicalParts(nfc, members[1..]))
      case (Some(value), Some(parts)) =>
        Some([Part(members[0].key, Utf8(DumpText(members[0].key)) + [COLON] + value)] + parts)
      case _ => None
  }

  function CanonicalItems(nfc: Nfc, items: seq<Json>): Option<seq<seq<Byte>>>
    decreases items, 1
  {
    if items == [] then
      Some([])
    else
      match (Canonical(nfc, items[0]), CanonicalItems(nfc, items[1..]))
      case (Some(item), Some(parts)) => Some([item] + parts)
      case _ => None
  }

  // ----- what it accepts and what it writes -----

  /** Valid scalars and keys at every depth. */
  predicate IsAcceptable(nfc: Nfc, v: Json) {
    match v
    case Arr(items) => forall i :: 0 <= i < |items| ==> IsAcceptable(nfc, items[i])
    case Obj(members) =>
      forall i :: 0 <= i < |members| ==>
        IsValidText(nfc, members[i].key) && IsAcceptable(nfc, members[i].value)
    case _ => IsValidScalar(nfc, v)
  }

  /** A value as compact JSON text, with its members in the order they are in. */
  function Render(v: Json): Text
    decreases v, 0
  {
    match v
    case Obj(members) => [OPEN_BRACE] + RenderMembers(members) + [CLOSE_BRACE]
    case Arr(items) => [OPEN_BRACKET] + RenderItems(items) + [CLOSE_BRACKET]
    case _ => DumpScalar(v)
  }

  function RenderMember(m: Member): Text
    decreases m, 1
  {
    DumpText(m.key) + [COLON] + Render(m.value)
  }

  function RenderMembers(members: seq<Member>): Text
    decreases members, 2
  {
    if members == [] then []
    else if |members| == 1 then RenderMember(members[0])
    else RenderMember(members[0]) + [COMMA] + RenderMembers(members[1..])
  }

  function RenderItems(items: seq<Json>): Text
    decreases items, 2
  {
    if items == [] then []
    else if |items| == 1 then Render(items[0])
    else Render(items[0]) + [COMMA] + RenderItems(items[1..])
  }

  /** The value with the members of every object sorted by key. */
  function Normal(v: Json): Json
    decreases v, 0
  {
    match v
    case Obj(members) => Obj(SortBy(MemberKey, BytesLeq, NormalMembers(members)))
    case Arr(items) => Arr(NormalItems(items))
    case _ => v
  }

  function NormalMembers(members: seq<Member>): (r: seq<Member>)
    ensures |r| == |members|
    ensures forall i :: 0 <= i < |r| ==> r[i] == Member(members[i].key, Normal(members[i].value))
    decreases members, 1
  {
    if members == [] then []
    else [Member(members[0].key, Normal(members[0].value))] + NormalMembers(members[1..])
  }

  function NormalItems(items: seq<Json>): (r: seq<Json>)
    ensures |r| == |items|
    ensures forall i :: 0 <= i < |r| ==> r[i] == Normal(items[i])
    decreases items, 1
  {
    if items == [] then [] else [Normal(items[0])] + NormalItems(items[1..])
  }

  /** The same JSON value: objects are compared as maps, and nothing else is identified. */
  ghost predicate SameValue(a: Json, b: Json)
    decreases a
  {
    match (a, b)
    case (Arr(xs), Arr(ys)) => |xs| == |ys| && forall i | 0 <= i < |xs| :: SameValue(xs[i], ys[i])
    case (Obj(ms), Obj(ns)) =>
      |ms| == |ns| &&
      forall i | 0 <= i < |ms| ::
        exists j | 0 <= j < |ns| :: ms[i].key == ns[j].key && SameValue(ms[i].value, ns[j].value)
    case _ => a == b
  }
}
