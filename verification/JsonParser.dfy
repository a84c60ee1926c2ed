/**
 * `parse_json_strict` of `scripts/validate_governance_state.py`: the JSON grammar of RFC 8259, section 2, as
 * Python's decoder reads it, under the program's hooks for objects, integers and forbidden numbers.
 */
module JsonParser {
  import opened Wrappers
  import opened UnicodeText
  import opened CanonicalJson

  datatype Parsed<+T> = Failed | Parsed(value: T, rest: Text) {
    predicate IsFailure() {
      Failed?
    }

    function PropagateFailure<U>(): Parsed<U>
      requires Failed?
    {
      Failed
    }

    function Extract(): Parsed<T>
      requires Parsed?
    {
      this
    }
  }

  predicate IsSpace(c: CodePoint) {
    c == 0x20 || c == 0x09 || c == 0x0A || c == 0x0D
  }

  function SkipSpace(t: Text): (r: Text)
    ensures |r| <= |t|
    ensures r != [] ==> !IsSpace(r[0])
  {
    if t != [] && IsSpace(t[0]) then SkipSpace(t[1..]) else t
  }

  predicate StartsWith(t: Text, prefix: Text) {
    |prefix| <= |t| && t[..|prefix|] == prefix
  }

  /** Drops white space and then one given character. */
  function Expect(t: Text, c: CodePoint): (r: Parsed<()>)
    ensures r.Parsed? ==> |r.rest| < |t|
  {
    var u := SkipSpace(t);
    if u != [] && u[0] == c then Parsed((), u[1..]) else Failed
  }

  // ----- strings -----

  function HexValue(c: CodePoint): Option<nat> {
    if 0x30 <= c <= 0x39 then Some(c - 0x30)
    else if 0x61 <= c <= 0x66 then Some(c - 0x57)
    else if 0x41 <= c <= 0x46 then Some(c - 0x37)
    else None
  }

  /** Four hexadecimal digits. */
  function Unit(t: Text): (r: Option<CodePoint>)
    ensures r.Some? ==> |t| >= 4 && r.value < 0x1_0000
  {
    if |t| < 4 then
      None
    else
      match (HexValue(t[0]), HexValue(t[1]), HexValue(t[2]), HexValue(t[3]))
      case (Some(a), Some(b), Some(c), Some(d)) =>
        assert a < 16 && b < 16 && c < 16 && d < 16;
        Some(a * 0x1000 + b * 0x100 + c * 0x10 + d)
      case _ => None
  }

  function SimpleEscape(c: CodePoint): Option<CodePoint> {
    if c == QUOTE || c == BACKSLASH || c == 0x2F then Some(c)
    else if c == 0x62 then Some(0x08)
    else if c == 0x66 then Some(0x0C)
    else if c == 0x6E then Some(0x0A)
    else if c == 0x72 then Some(0x0D)
    else if c == 0x74 then Some(0x09)
    else None
  }

  /** One escape sequence, after its backslash; two surrogate escapes in a row make one character. */
  function ParseEscape(t: Text): (r: Parsed<CodePoint>)
    ensures r.Parsed? ==> |r.rest| < |t|
  {
    if t == [] then
      Failed
    else if t[0] == 0x75 then
      match Unit(t[1..])
      case None => Failed
      case Some(high) =>
        if 0xD800 <= high <= 0xDBFF && StartsWith(t[5..], [BACKSLASH, 0x75]) then
          match Unit(t[7..])
          case None => Failed
          case Some(low) =>
            if 0xDC00 <= low <= 0xDFFF then
              Parsed(0x1_0000 + (high - 0xD800) * 0x400 + (low - 0xDC00), t[11..])
            else
              Parsed(high, t[5..])
        else
          Parsed(high, t[5..])
    else
      match SimpleEscape(t[0])
      case None => Failed
      case Some(c) => Parsed(c, t[1..])
  }

  /** The rest of a string, up to and with its closing quote. */
  function ParseText(t: Text): (r: Parsed<Text>)
    ensures r.Parsed? ==> |r.rest| < |t|
    decreases |t|
  {
    if t == [] || t[0] < 0x20 then
      Failed
    else if t[0] == QUOTE then
      Parsed([], t[1..])
    else
      var first :- if t[0] == BACKSLASH then ParseEscape(t[1..]) else Parsed(t[0], t[1..]);
      var others :- ParseText(first.rest);
      Parsed([first.value] + others.value, others.rest)
  }

  // ----- numbers -----

  predicate IsDigit(c: CodePoint) {
    0x30 <= c <= 0x39
  }

  function DigitRun(t: Text): (n: nat)
    ensures n <= |t|
    ensures forall i :: 0 <= i < n ==> IsDigit(t[i])
    ensures n < |t| ==> !IsDigit(t[n])
  {
    if t == [] || !IsDigit(t[0]) then 0 else 1 + DigitRun(t[1..])
  }

  function DecimalValue(digits: Text): nat
    requires forall i :: 0 <= i < |digits| ==> IsDigit(digits[i])
  {
    if digits == [] then
      0
    else
      assert IsDigit(digits[|digits| - 1]);
      DecimalValue(digits[..|digits| - 1]) * 10 + (digits[|digits| - 1] as int - 0x30)
  }

  /** A fraction or an exponent follows, which makes the number a float. */
  predicate IsFloatTail(t: Text) {
    && |t| >= 2
    && if t[0] == 0x2E then IsDigit(t[1])
       else (t[0] == 0x65 || t[0] == 0x45)
            && (IsDigit(t[1]) || (|t| >= 3 && (t[1] == 0x2B || t[1] == MINUS) && IsDigit(t[2])))
  }

  const LIMIT_DIGITS: nat := 16

  /** `parse_json_integer` on a sign and its digits. */
  function ParseInteger(negative: bool, digits: Text): Option<int>
    requires forall i :: 0 <= i < |digits| ==> IsDigit(digits[i])
  {
    if negative && digits == [0x30] then
      None
    else if |digits| > LIMIT_DIGITS then
      None
    else
      var number: int := if negative then -(DecimalValue(digits) as int) else DecimalValue(digits);
      if -SAFE_INTEGER_LIMIT <= number <= SAFE_INTEGER_LIMIT then Some(number) else None
  }

  function ParseNumber(t: Text): (r: Parsed<Json>)
    ensures r.Parsed? ==> |r.rest| < |t|
  {
    if t != [] && t[0] == MINUS then ParseUnsigned(true, t[1..]) else ParseUnsigned(false, t)
  }

  /** A number after its sign. */
  function ParseUnsigned(negative: bool, body: Text): (r: Parsed<Json>)
    ensures r.Parsed? ==> |r.rest| < |body|
  {
    if body == [] || !IsDigit(body[0]) then
      Failed
    else
      var n := if body[0] == 0x30 then 1 else DigitRun(body);
      if IsFloatTail(body[n..]) then
        Failed
      else
        match ParseInteger(negative, body[..n])
        case None => Failed
        case Some(number) => Parsed(Int(number), body[n..])
  }

  // ----- values -----

  /** What `strict_object` makes of the members in the order they are written. */
  function StrictMembers(nfc: Nfc, members: seq<Member>): Option<seq<Member>> {
    if && DistinctTexts(Keys(members))
       && forall i, j :: 0 <= i < j < |members| ==> nfc(members[i].key) != nfc(members[j].key)
    then Some(members)
    else None
  }

  function ParseValue(nfc: Nfc, t: Text): (r: Parsed<Json>)
    ensures r.Parsed? ==> |r.rest| < |t|
    decreases |t|, 0
  {
    if t == [] then
      Failed
    else if t[0] == QUOTE then
      var text :- ParseText(t[1..]);
      Parsed(Str(text.value), text.rest)
    else if t[0] == OPEN_BRACE then
      var u := SkipSpace(t[1..]);
      if u != [] && u[0] == CLOSE_BRACE then
        Parsed(Obj([]), u[1..])
      else
        var members :- ParseMembers(nfc, u);
        match StrictMembers(nfc, members.value)
        case None => Failed
        case Some(checked) => Parsed(Obj(checked), members.rest)
    else if t[0] == OPEN_BRACKET then
      var u := SkipSpace(t[1..]);
      if u != [] && u[0] == CLOSE_BRACKET then
        Parsed(Arr([]), u[1..])
      else
        var items :- ParseItems(nfc, u);
        Parsed(Arr(items.value), items.rest)
    else if StartsWith(t, NULL_TEXT) then
      Parsed(Null, t[4..])
    else if StartsWith(t, TRUE_TEXT) then
      Parsed(Bool(true), t[4..])
    else if StartsWith(t, FALSE_TEXT) then
      Parsed(Bool(false), t[5..])
    else
      ParseNumber(t)
  }

  /** The members of an object from a quote on, up to and with its closing brace. */
  function ParseMembers(nfc: Nfc, t: Text): (r: Parsed<seq<Member>>)
    ensures r.Parsed? ==> |r.rest| < |t|
    decreases |t|, 1
  {
    if t == [] || t[0] != QUOTE then
      Failed
    else
      var key :- ParseText(t[1..]);
      var colon :- Expect(key.rest, COLON);
      var value :- ParseValue(nfc, SkipSpace(colon.rest));
      var u := SkipSpace(value.rest);
      var member := Member(key.value, value.value);
      if u != [] && u[0] == CLOSE_BRACE then
        Parsed([member], u[1..])
      else
        var comma :- Expect(u, COMMA);
        var others :- ParseMembers(nfc, SkipSpace(comma.rest));
        Parsed([member] + others.value, others.rest)
  }

  /** The items of an array, up to and with its closing bracket. */
  function ParseItems(nfc: Nfc, t: Text): (r: Parsed<seq<Json>>)
    ensures r.Parsed? ==> |r.rest| < |t|
    decreases |t|, 1
  {
    var item :- ParseValue(nfc, t);
    var u := SkipSpace(item.rest);
    if u != [] && u[0] == CLOSE_BRACKET then
      Parsed([item.value], u[1..])
    else
      var comma :- Expect(u, COMMA);
      var others :- ParseItems(nfc, SkipSpace(comma.rest));
      Parsed([item.value] + others.value, others.rest)
  }

  const BYTE_ORDER_MARK: CodePoint := 0xFEFF

  function ParseStrict(nfc: Nfc, source: Text): Option<Json> {
    if source != [] && source[0] == BYTE_ORDER_MARK then
      None
    else
      match ParseValue(nfc, SkipSpace(source))
      case Failed => None
      case Parsed(value, rest) => if SkipSpace(rest) == [] then Some(value) else None
  }

  /** `strict_object` as the loop it is. */
  method StrictObject(nfc: Nfc, pairs: seq<Member>) returns (r: Option<seq<Member>>)
    ensures r == StrictMembers(nfc, pairs)
  {
    var members: seq<Member> := [];
    var keys: set<Text> := {};
    var normalizedKeys: set<Text> := {};
    for i := 0 to |pairs|
      invariant members == pairs[..i]
      invariant keys == set j | 0 <= j < i :: pairs[j].key
      invariant normalizedKeys == set j | 0 <= j < i :: nfc(pairs[j].key)
      invariant forall j, k :: 0 <= j < k < i ==> pairs[j].key != pairs[k].key
      invariant forall j, k :: 0 <= j < k < i ==> nfc(pairs[j].key) != nfc(pairs[k].key)
    {
      var key := pairs[i].key;
      if key in keys {
        ghost var j :| 0 <= j < i && pairs[j].key == key;
        assert Keys(pairs)[j] == Keys(pairs)[i];
        return None;
      }
      var normalized := nfc(key);
      if normalized in normalizedKeys {
        return None;
      }
      normalizedKeys := normalizedKeys + {normalized};
      keys := keys + {key};
      members := members + [pairs[i]];
    }
    assert DistinctTexts(Keys(pairs)) && pairs[..|pairs|] == pairs;
    r := Some(members);
  }

  // ----- what is read -----

  /** No float, and no integer outside the safe range, at any depth. */
  predicate HasSafeNumbers(v: Json) {
    match v
    case Int(number) => -SAFE_INTEGER_LIMIT <= number <= SAFE_INTEGER_LIMIT
    case Float => false
    case Arr(items) => forall i :: 0 <= i < |items| ==> HasSafeNumbers(items[i])
    case Obj(members) => forall i :: 0 <= i < |members| ==> HasSafeNumbers(members[i].value)
    case _ => true
  }

  ghost predicate IsGood(v: Json) {
    IsProper(v) && HasSafeNumbers(v)
  }

  lemma {:induction false} ParsedValueIsGood(nfc: Nfc, t: Text)
    ensures var r := ParseValue(nfc, t);
      r.Parsed? ==> IsGood(r.value)
    decreases |t|, 0
  {
    if t != [] && t[0] == OPEN_BRACE {
      ParsedMembersAreGood(nfc, SkipSpace(t[1..]));
    } else if t != [] && t[0] == OPEN_BRACKET {
      ParsedItemsAreGood(nfc, SkipSpace(t[1..]));
    }
  }

  lemma {:induction false} ParsedMembersAreGood(nfc: Nfc, t: Text)
    ensures var r := ParseMembers(nfc, t);
      r.Parsed? ==> forall i :: 0 <= i < |r.value| ==> IsGood(r.value[i].value)
    decreases |t|, 1
  {
    if ParseMembers(nfc, t).Parsed? {
      var colon := Expect(ParseText(t[1..]).rest, COLON);
      var next := SkipSpace(colon.rest);
      ParsedValueIsGood(nfc, next);
      var u := SkipSpace(ParseValue(nfc, next).rest);
      if u[0] == CLOSE_BRACE {
        assert ParseMembers(nfc, t).value == [Member(ParseText(t[1..]).value, ParseValue(nfc, next).value)];
      } else {
        ParsedMembersAreGood(nfc, SkipSpace(Expect(u, COMMA).rest));
      }
    }
  }

  lemma {:induction false} ParsedItemsAreGood(nfc: Nfc, t: Text)
    ensures var r := ParseItems(nfc, t);
      r.Parsed? ==> forall i :: 0 <= i < |r.value| ==> IsGood(r.value[i])
    decreases |t|, 1
  {
    if ParseItems(nfc, t).Parsed? {
      ParsedValueIsGood(nfc, t);
      var u := SkipSpace(ParseValue(nfc, t).rest);
      if u[0] == CLOSE_BRACKET {
        assert ParseItems(nfc, t).value == [ParseValue(nfc, t).value];
      } else {
        ParsedItemsAreGood(nfc, SkipSpace(Expect(u, COMMA).rest));
      }
    }
  }

  /** Whatever text is read, its objects have distinct keys and all its numbers are safe integers. */
  lemma ReadIsGood(nfc: Nfc, source: Text)
    ensures var r := ParseStrict(nfc, source);
      r.Some? ==> IsProper(r.value) && HasSafeNumbers(r.value)
  {
    ParsedValueIsGood(nfc, SkipSpace(source));
  }
}
