/** The strict parser reads exactly what the JSON grammar writes, and the canonical form is the shortest way. */
module JsonReading {
  import opened Wrappers
  import opened UnicodeText
  import opened CanonicalJson
  import opened JsonParser
  import opened JsonGrammar
  import opened CanonicalRoundTrip

  // ----- white space -----

  lemma {:induction false} BlankIsSkipped(blank: Text, t: Text)
    requires IsBlank(blank) && (t == [] || !IsSpace(t[0]))
    ensures SkipSpace(blank + t) == t
  {
    if blank == [] {
      assert blank + t == t;
    } else {
      assert (blank + t)[1..] == blank[1..] + t;
      BlankIsSkipped(blank[1..], t);
    }
  }

  lemma Prepended<T>(first: T, a: seq<T>, b: seq<T>)
    ensures [first] + (a + b) == ([first] + a) + b
  {
  }

  lemma {:induction false} SkippedIsBlank(t: Text) returns (blank: Text)
    ensures IsBlank(blank) && t == blank + SkipSpace(t)
  {
    if t != [] && IsSpace(t[0]) {
      var rest := SkippedIsBlank(t[1..]);
      blank := [t[0]] + rest;
      Prepended(t[0], rest, SkipSpace(t[1..]));
      assert t == [t[0]] + (rest + SkipSpace(t[1..]));
    } else {
      blank := [];
    }
  }

  // ----- strings -----

  lemma HexIsExact(c: CodePoint, v: nat)
    ensures HexValue(c) == Some(v) <==> IsHex(c, v)
  {
  }

  lemma FourDigits(v: nat, a: nat, b: nat, c: nat, d: nat)
    requires a < 0x10 && b < 0x10 && c < 0x10 && d < 0x10 && v == a * 0x1000 + b * 0x100 + c * 0x10 + d
    ensures v < 0x1_0000
    ensures v / 0x1000 == a && v / 0x100 % 0x10 == b && v / 0x10 % 0x10 == c && v % 0x10 == d
  {
    assert v / 0x100 == a * 0x10 + b && v / 0x10 == a * 0x100 + b * 0x10 + c;
  }

  lemma DigitsOfUnit(v: nat) returns (a: nat, b: nat, c: nat, d: nat)
    requires v < 0x1_0000
    ensures a == v / 0x1000 && b == v / 0x100 % 0x10 && c == v / 0x10 % 0x10 && d == v % 0x10
    ensures a < 0x10 && v == a * 0x1000 + b * 0x100 + c * 0x10 + d
  {
    a, b, c, d := v / 0x1000, v / 0x100 % 0x10, v / 0x10 % 0x10, v % 0x10;
    assert v / 0x100 == a * 0x10 + b && v / 0x10 == v / 0x100 * 0x10 + c;
  }

  lemma UnitOfWritten(t: Text, v: CodePoint)
    requires |t| >= 4 && Hex4(t[..4], v).IsWritten()
    ensures Unit(t) == Some(v)
  {
    var a, b, c, d := DigitsOfUnit(v);
    HexIsExact(t[0], a);
    HexIsExact(t[1], b);
    HexIsExact(t[2], c);
    HexIsExact(t[3], d);
  }

  lemma WrittenOfUnit(t: Text)
    requires Unit(t).Some?
    ensures Hex4(t[..4], Unit(t).value).IsWritten()
  {
    var a, b, c, d := HexValue(t[0]).value, HexValue(t[1]).value, HexValue(t[2]).value, HexValue(t[3]).value;
    HexIsExact(t[0], a);
    HexIsExact(t[1], b);
    HexIsExact(t[2], c);
    HexIsExact(t[3], d);
    FourDigits(Unit(t).value, a, b, c, d);
  }

  lemma UnitParses(unit: Hex4, rest: Text)
    requires unit.IsWritten()
    ensures Unit(unit.text + rest) == Some(unit.value) && (unit.text + rest)[4..] == rest
  {
    assert (unit.text + rest)[..4] == unit.text;
    UnitOfWritten(unit.text + rest, unit.value);
  }

  lemma PairOfUnits(c: CodePoint, high: nat, low: nat)
    ensures UnitsOf(c) == [high, low] <==>
      && 0xD800 <= high <= 0xDBFF && 0xDC00 <= low <= 0xDFFF
      && c == 0x1_0000 + (high - 0xD800) * 0x400 + (low - 0xDC00)
  {
  }

  /** The text that follows does not begin with an escaped low surrogate. */
  predicate NoLowUnitIn(t: Text) {
    |t| >= 6 && t[0] == BACKSLASH && t[1] == 0x75 && Unit(t[2..]).Some? ==>
      !(0xDC00 <= Unit(t[2..]).value <= 0xDFFF)
  }

  predicate IsReadable(t: Text) {
    |t| >= 2 && t[0] == BACKSLASH && t[1] == 0x75 ==> Unit(t[2..]).Some?
  }

  /** The escape is read, and nothing of what follows it. */
  lemma EscapeIsRead(ch: Char, rest: Text)
    requires ch.IsWritten() && !ch.Plain? && IsReadable(rest) && (ch.IsHighUnit() ==> NoLowUnitIn(rest))
    ensures ch.Written()[0] == BACKSLASH
    ensures ParseEscape(ch.Written()[1..] + rest) == Parsed(ch.Value(), rest)
  {
    var t := ch.Written()[1..] + rest;
    match ch
    case Short(letter, c) => assert t == [letter] + rest && t[1..] == rest;
    case Escaped(unit) =>
      assert t[1..] == unit.text + rest && t[5..] == rest;
      UnitParses(unit, rest);
      assert StartsWith(rest, [BACKSLASH, 0x75]) ==> t[7..] == rest[2..];
    case EscapedPair(high, low, c) => PairIsRead(high, low, c, rest);
  }

  lemma PairIsRead(high: Hex4, low: Hex4, c: CodePoint, rest: Text)
    requires EscapedPair(high, low, c).IsWritten()
    ensures ParseEscape(EscapedPair(high, low, c).Written()[1..] + rest) == Parsed(c, rest)
  {
    var t, second := EscapedPair(high, low, c).Written()[1..] + rest, [BACKSLASH, 0x75] + (low.text + rest);
    assert t == [0x75] + (high.text + second);
    UnitParses(high, second);
    UnitParses(low, rest);
    PairOfUnits(c, high.value, low.value);
    assert t[1..] == high.text + second && t[5..] == second;
    assert second[..2] == [BACKSLASH, 0x75] && t[7..] == low.text + rest && t[11..] == rest;
  }

  /** A string whose first character has been read. */
  function TextFrom(first: Parsed<CodePoint>): Parsed<Text> {
    match first
    case Failed => Failed
    case Parsed(c, rest) =>
      match ParseText(rest)
      case Failed => Failed
      case Parsed(others, after) => Parsed([c] + others, after)
  }

  lemma TextByFirst(t: Text)
    requires t != [] && t[0] >= 0x20 && t[0] != QUOTE
    ensures ParseText(t) == TextFrom(if t[0] == BACKSLASH then ParseEscape(t[1..]) else Parsed(t[0], t[1..]))
  {
  }

  lemma CharParses(ch: Char, rest: Text)
    requires ch.IsWritten() && IsReadable(rest) && (ch.IsHighUnit() ==> NoLowUnitIn(rest))
    ensures ParseText(ch.Written() + rest) == TextFrom(Parsed(ch.Value(), rest))
  {
    TextByFirst(ch.Written() + rest);
    if ch.Plain? {
      assert (ch.Written() + rest)[1..] == rest;
    } else {
      EscapeIsRead(ch, rest);
      assert (ch.Written() + rest)[1..] == ch.Written()[1..] + rest;
    }
  }

  lemma TailIsString(chars: seq<Char>)
    requires chars != [] && IsString(chars)
    ensures IsString(chars[1..])
  {
    var tail := chars[1..];
    assert forall i :: 0 <= i < |tail| ==> tail[i] == chars[i + 1];
  }

  /** An escape begins with its first code unit. */
  lemma EscapeBegins(ch: Char, rest: Text)
    requires ch.IsWritten() && (ch.Escaped? || ch.EscapedPair?)
    ensures var t := ch.Written() + rest;
      |t| >= 6 && Unit(t[2..]) == Some(if ch.Escaped? then ch.unit.value else ch.high.value)
  {
    var t, unit := ch.Written() + rest, if ch.Escaped? then ch.unit else ch.high;
    assert t[2..] == unit.text + t[6..];
    UnitParses(unit, t[6..]);
  }

  /** How a character of a string begins. */
  lemma CharBegins(ch: Char, more: Text)
    requires ch.IsWritten()
    ensures IsReadable(ch.Written() + more)
    ensures !ch.IsLowUnit() ==> NoLowUnitIn(ch.Written() + more)
  {
    match ch
    case Plain(c) => assert (ch.Written() + more)[0] == c;
    case Short(letter, _) => assert (ch.Written() + more)[1] == letter;
    case Escaped(_) => EscapeBegins(ch, more);
    case EscapedPair(high, low, c) =>
      EscapeBegins(ch, more);
      PairOfUnits(c, high.value, low.value);
  }

  /** How the characters of a string and its closing quote begin. */
  lemma StringBegins(chars: seq<Char>, rest: Text)
    requires IsString(chars)
    ensures var t := CharsText(chars) + ([QUOTE] + rest);
      && IsReadable(t)
      && (chars == [] || !chars[0].IsLowUnit() ==> NoLowUnitIn(t))
  {
    if chars == [] {
      assert (CharsText(chars) + ([QUOTE] + rest))[0] == QUOTE;
    } else {
      CharBegins(chars[0], CharsText(chars[1..]) + ([QUOTE] + rest));
      assert chars == [chars[0]] + chars[1..];
      TextPrepends(chars[0], chars[1..], [QUOTE] + rest);
    }
  }

  lemma StringGrows(ch: Char, chars: seq<Char>, rest: Text)
    requires ch.IsWritten() && IsString(chars) && IsString([ch] + chars)
    requires ParseText(CharsText(chars) + ([QUOTE] + rest)) == Parsed(CharsValue(chars), rest)
    ensures ParseText(CharsText([ch] + chars) + ([QUOTE] + rest)) == Parsed(CharsValue([ch] + chars), rest)
  {
    CharIsFollowed(ch, chars, [QUOTE] + rest);
    StringBegins(chars, rest);
    assert chars != [] ==> ([ch] + chars)[1] == chars[0];
    CharParses(ch, CharsText(chars) + ([QUOTE] + rest));
  }

  lemma {:induction false} StringParses(chars: seq<Char>, rest: Text)
    requires IsString(chars)
    ensures ParseText(CharsText(chars) + ([QUOTE] + rest)) == Parsed(CharsValue(chars), rest)
  {
    if chars == [] {
      assert CharsText(chars) + ([QUOTE] + rest) == [QUOTE] + rest && ([QUOTE] + rest)[1..] == rest;
    } else {
      TailIsString(chars);
      StringParses(chars[1..], rest);
      assert chars == [chars[0]] + chars[1..];
      StringGrows(chars[0], chars[1..], rest);
    }
  }

  lemma TextPrepends(ch: Char, chars: seq<Char>, rest: Text)
    ensures CharsText([ch] + chars) + rest == ch.Written() + (CharsText(chars) + rest)
  {
    var all := [ch] + chars;
    assert all[0] == ch && all[1..] == chars;
    assert CharsText(all) == ch.Written() + CharsText(chars);
  }

  lemma ValuePrepends(ch: Char, chars: seq<Char>)
    ensures CharsValue([ch] + chars) == [ch.Value()] + CharsValue(chars)
  {
  }

  lemma CharIsFollowed(ch: Char, chars: seq<Char>, rest: Text)
    ensures CharsText([ch] + chars) + rest == ch.Written() + (CharsText(chars) + rest)
    ensures CharsValue([ch] + chars) == [ch.Value()] + CharsValue(chars)
  {
    TextPrepends(ch, chars, rest);
    ValuePrepends(ch, chars);
  }

  lemma UnitRead(t: Text) returns (unit: Hex4)
    requires Unit(t).Some?
    ensures unit.IsWritten() && unit.value == Unit(t).value && t == unit.text + t[4..]
  {
    unit := Hex4(t[..4], Unit(t).value);
    WrittenOfUnit(t);
  }

  lemma PairRead(t: Text) returns (ch: Char)
    requires |t| >= 12 && Unit(t[2..]).Some? && Unit(t[8..]).Some?
    requires t[0] == BACKSLASH == t[6] && t[1] == 0x75 == t[7]
    requires 0xD800 <= Unit(t[2..]).value <= 0xDBFF && 0xDC00 <= Unit(t[8..]).value <= 0xDFFF
    ensures ch.IsWritten() && ch.EscapedPair? && t == ch.Written() + t[12..]
    ensures ch.c == 0x1_0000 + (Unit(t[2..]).value - 0xD800) * 0x400 + (Unit(t[8..]).value - 0xDC00)
  {
    var high := UnitRead(t[2..]);
    var low := UnitRead(t[8..]);
    var c := 0x1_0000 + (high.value - 0xD800) * 0x400 + (low.value - 0xDC00);
    PairOfUnits(c, high.value, low.value);
    ch := EscapedPair(high, low, c);
    assert t[2..] == high.text + t[6..] && t[8..] == low.text + t[12..];
    assert t == [BACKSLASH, 0x75] + t[2..] && t[6..] == [BACKSLASH, 0x75] + t[8..];
  }

  lemma SingleRead(t: Text) returns (ch: Char)
    requires |t| >= 6 && t[0] == BACKSLASH && t[1] == 0x75 && Unit(t[2..]).Some?
    ensures ch.IsWritten() && ch.Escaped? && ch.unit.value == Unit(t[2..]).value && t == ch.Written() + t[6..]
  {
    var unit := UnitRead(t[2..]);
    ch := Escaped(unit);
    assert t[2..] == ch.unit.text + t[6..] && t == [BACKSLASH, 0x75] + t[2..];
  }

  lemma NextUnit(t: Text)
    requires |t| >= 6 && t[0] == BACKSLASH && t[1] == 0x75
    ensures StartsWith(t, [BACKSLASH, 0x75]) && t[2..][..4] == t[2..6]
  {
    assert t[..2] == [BACKSLASH, 0x75];
  }

  lemma EscapeRead(t: Text) returns (ch: Char)
    requires t != [] && t[0] == BACKSLASH && ParseEscape(t[1..]).Parsed?
    ensures var r := ParseEscape(t[1..]);
      && ch.IsWritten() && ch.Value() == r.value
      && t == ch.Written() + r.rest
      && (ch.IsHighUnit() ==> NoLowUnitIn(r.rest))
  {
    var r, e := ParseEscape(t[1..]), t[1..];
    if e[0] != 0x75 {
      ch := Short(e[0], r.value);
      assert t == [BACKSLASH, e[0]] + e[1..];
    } else {
      assert e[1..] == t[2..] && e[5..] == t[6..];
      var unit := Unit(t[2..]).value;
      if r.rest == t[6..] && r.value == unit {
        ch := SingleRead(t);
        if 0xD800 <= unit <= 0xDBFF && |t| >= 12 && t[6] == BACKSLASH && t[7] == 0x75 {
          NextUnit(t[6..]);
          assert e[7..] == t[8..] == t[6..][2..];
        }
      } else {
        assert e[7..] == t[8..] && e[11..] == t[12..];
        assert t[6..][..2] == [BACKSLASH, 0x75];
        assert t[6..][..2][0] == t[6] && t[6..][..2][1] == t[7];
        ch := PairRead(t);
      }
    }
  }

  lemma LowUnitIsSeen(ch: Char, rest: Text)
    requires ch.IsWritten() && ch.IsLowUnit()
    ensures !NoLowUnitIn(ch.Written() + rest)
  {
    UnitParses(ch.unit, rest);
    assert (ch.Written() + rest)[2..] == ch.unit.text + rest;
  }

  lemma StringPrepend(ch: Char, chars: seq<Char>, t: Text)
    requires ch.IsWritten() && IsString(chars)
    requires ch.IsHighUnit() ==> NoLowUnitIn(CharsText(chars) + t)
    ensures IsString([ch] + chars)
  {
    if chars != [] && chars[0].IsLowUnit() {
      assert CharsText(chars) + t == chars[0].Written() + (CharsText(chars[1..]) + t);
      LowUnitIsSeen(chars[0], CharsText(chars[1..]) + t);
    }
  }

  lemma FirstRead(t: Text) returns (ch: Char, rest: Text)
    requires ParseText(t).Parsed? && t[0] != QUOTE
    ensures |rest| < |t| && ParseText(rest).Parsed? && ParseText(rest).rest == ParseText(t).rest
    ensures ch.IsWritten() && t == ch.Written() + rest
    ensures ch.IsHighUnit() ==> NoLowUnitIn(rest)
    ensures ParseText(t).value == [ch.Value()] + ParseText(rest).value
  {
    if t[0] == BACKSLASH {
      ch := EscapeRead(t);
      rest := ParseEscape(t[1..]).rest;
    } else {
      ch, rest := Plain(t[0]), t[1..];
    }
  }

  lemma {:induction false} StringRead(t: Text) returns (chars: seq<Char>)
    requires ParseText(t).Parsed?
    ensures IsString(chars) && CharsValue(chars) == ParseText(t).value
    ensures t == CharsText(chars) + ([QUOTE] + ParseText(t).rest)
    decreases |t|
  {
    var after := [QUOTE] + ParseText(t).rest;
    if t[0] == QUOTE {
      chars := [];
      assert t == [QUOTE] + t[1..];
    } else {
      var ch, rest := FirstRead(t);
      var others := StringRead(rest);
      CharIsFollowed(ch, others, after);
      StringPrepend(ch, others, after);
      chars := [ch] + others;
    }
  }

  // ----- numbers -----

  lemma {:induction false} DigitsAreNumeral(digits: Text)
    requires digits != [] && forall i :: 0 <= i < |digits| ==> IsDigit(digits[i])
    requires digits[0] == 0x30 ==> digits == [0x30]
    ensures DumpNat(DecimalValue(digits)) == digits
    ensures digits[0] != 0x30 ==> DecimalValue(digits) > 0
    decreases |digits|
  {
    var init, last := digits[..|digits| - 1], digits[|digits| - 1];
    assert IsDigit(last);
    if init == [] {
      assert DecimalValue(init) == 0 && digits == [last];
    } else {
      DigitsAreNumeral(init);
      assert digits == init + [last];
    }
  }

  /** The numerals of natural numbers are the digit sequences without leading zeros. */
  lemma NumeralsAreDigits(t: Text)
    ensures (exists n :: DumpNat(n) == t) <==> AreDigits(t) && (t[0] == 0x30 ==> |t| == 1)
  {
    if n :| DumpNat(n) == t {
      DumpNatIsDecimal(n);
      assert DumpNat(0) == [0x30];
    }
    if AreDigits(t) && (t[0] == 0x30 ==> |t| == 1) {
      assert forall i :: 0 <= i < |t| ==> IsDigit(t[i]);
      assert t[0] == 0x30 ==> t == [0x30];
      DigitsAreNumeral(t);
    }
  }

  lemma NumeralRead(negative: bool, digits: Text) returns (number: Number)
    requires digits != [] && (forall i :: 0 <= i < |digits| ==> IsDigit(digits[i]))
    requires digits[0] == 0x30 ==> digits == [0x30]
    requires ParseInteger(negative, digits).Some?
    ensures number.IsWritten() && number.Value() == Int(ParseInteger(negative, digits).value)
    ensures forall nfc :: PassesHooks(nfc, NumberNode(number))
    ensures number.Written() == (if negative then [MINUS] else []) + digits
  {
    DigitsAreNumeral(digits);
    number := Number(negative, DecimalValue(digits), [], []);
  }

  lemma UnsignedSplits(negative: bool, body: Text) returns (digits: Text)
    requires ParseUnsigned(negative, body).Parsed?
    ensures digits != [] && (forall i :: 0 <= i < |digits| ==> IsDigit(digits[i]))
    ensures digits[0] == 0x30 ==> digits == [0x30]
    ensures ParseInteger(negative, digits).Some?
    ensures ParseUnsigned(negative, body).value == Int(ParseInteger(negative, digits).value)
    ensures body == digits + ParseUnsigned(negative, body).rest
  {
    digits := body[..if body[0] == 0x30 then 1 else DigitRun(body)];
  }

  ghost predicate IsNumberOf(number: Number, r: Parsed<Json>) {
    r.Parsed? && number.IsWritten() && number.Value() == r.value && forall nfc :: PassesHooks(nfc, NumberNode(number))
  }

  lemma UnsignedRead(negative: bool, body: Text) returns (number: Number)
    requires ParseUnsigned(negative, body).Parsed?
    ensures IsNumberOf(number, ParseUnsigned(negative, body))
    ensures (if negative then [MINUS] else []) + body == number.Written() + ParseUnsigned(negative, body).rest
  {
    var digits := UnsignedSplits(negative, body);
    number := NumeralRead(negative, digits);
  }

  lemma IntegerRead(t: Text) returns (number: Number)
    requires ParseNumber(t).Parsed?
    ensures IsNumberOf(number, ParseNumber(t)) && t == number.Written() + ParseNumber(t).rest
  {
    if t[0] == MINUS {
      number := UnsignedRead(true, t[1..]);
      assert [MINUS] + t[1..] == t;
    } else {
      number := UnsignedRead(false, t);
      assert [] + t == t;
    }
  }

  /** A number that the hooks let pass is read, and ends where the next delimiter begins. */
  lemma NumberIsRead(nfc: Nfc, number: Number, rest: Text)
    requires number.IsWritten() && PassesHooks(nfc, NumberNode(number)) && Ends(rest)
    ensures number.Written() == DumpInt(number.Value().number)
    ensures ParseValue(nfc, number.Written() + rest) == Parsed(number.Value(), rest)
  {
    IntegerIsParsed(nfc, number.Value().number, rest);
  }
}
