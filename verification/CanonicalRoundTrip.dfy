/** Reading back what the canonical encoding wrote, and the equality it decides. */
module CanonicalRoundTrip {
  import opened Wrappers
  import opened UnicodeText
  import opened CanonicalJson
  import opened JsonParser

  // ----- scalars -----

  lemma UnitOfControl(c: CodePoint, tail: Text)
    requires c < 0x20
    ensures Unit([0x30, 0x30, HexDigit(c / 16), HexDigit(c % 16)] + tail) == Some(c)
  {
  }

  lemma EscapeParses(c: CodePoint, tail: Text)
    ensures ParseText(Escape(c) + tail) ==
      match ParseText(tail)
      case Failed => Failed
      case Parsed(others, rest) => Parsed([c] + others, rest)
  {
    var t := Escape(c) + tail;
    if |Escape(c)| == 1 {
      assert t[1..] == tail;
    } else if |Escape(c)| == 2 {
      assert t[1..][1..] == tail;
    } else {
      UnitOfControl(c, tail);
      assert t[1..][1..] == [0x30, 0x30, HexDigit(c / 16), HexDigit(c % 16)] + tail;
      assert t[1..][5..] == tail;
    }
  }

  lemma {:induction false} TextParses(s: Text, rest: Text)
    ensures ParseText(EscapeAll(s) + [QUOTE] + rest) == Parsed(s, rest)
  {
    var t := EscapeAll(s) + [QUOTE] + rest;
    if s == [] {
      assert t == [QUOTE] + rest && t[1..] == rest;
    } else {
      var tail := EscapeAll(s[1..]) + [QUOTE] + rest;
      assert t == Escape(s[0]) + tail;
      EscapeParses(s[0], tail);
      TextParses(s[1..], rest);
      assert s == [s[0]] + s[1..];
    }
  }

  lemma {:induction false} DumpNatIsDecimal(n: nat)
    ensures DumpNat(n) != [] && (DumpNat(n)[0] == 0x30 <==> n == 0)
    ensures forall i :: 0 <= i < |DumpNat(n)| ==> IsDigit(DumpNat(n)[i])
    ensures DecimalValue(DumpNat(n)) == n
  {
    var digits := DumpNat(n);
    if n >= 10 {
      DumpNatIsDecimal(n / 10);
      assert digits[..|digits| - 1] == DumpNat(n / 10);
    } else {
      assert digits[..0] == [];
    }
  }

  function PowerOfTen(k: nat): nat {
    if k == 0 then 1 else 10 * PowerOfTen(k - 1)
  }

  lemma {:induction false} DumpNatLength(n: nat, k: nat)
    requires 1 <= k && n < PowerOfTen(k)
    ensures |DumpNat(n)| <= k
  {
    if n >= 10 {
      assert k > 1 by {
        assert PowerOfTen(1) == 10;
      }
      DumpNatLength(n / 10, k - 1);
    }
  }

  lemma {:induction false} DigitRunOf(digits: Text, rest: Text)
    requires forall i :: 0 <= i < |digits| ==> IsDigit(digits[i])
    requires rest == [] || !IsDigit(rest[0])
    ensures DigitRun(digits + rest) == |digits|
  {
    if digits == [] {
      assert digits + rest == rest;
    } else {
      DigitRunOf(digits[1..], rest);
      assert (digits + rest)[1..] == digits[1..] + rest;
    }
  }

  /** The next character ends any value. */
  predicate Ends(rest: Text) {
    || rest == []
    || IsSpace(rest[0])
    || rest[0] == COMMA || rest[0] == CLOSE_BRACE || rest[0] == CLOSE_BRACKET
  }

  lemma NumberParses(negative: bool, digits: Text, rest: Text)
    requires digits != [] && forall i :: 0 <= i < |digits| ==> IsDigit(digits[i])
    requires Ends(rest) && (digits[0] == 0x30 ==> digits == [0x30])
    ensures ParseNumber(if negative then [MINUS] + digits + rest else digits + rest) ==
      match ParseInteger(negative, digits)
      case None => Failed
      case Some(number) => Parsed(Int(number), rest)
  {
    var body := digits + rest;
    assert ([MINUS] + digits + rest)[1..] == body;
    DigitRunOf(digits, rest);
    assert body[..|digits|] == digits && body[|digits|..] == rest;
  }

  lemma DigitsParse(negative: bool, n: nat)
    requires n <= SAFE_INTEGER_LIMIT && (negative ==> n > 0)
    ensures forall i :: 0 <= i < |DumpNat(n)| ==> IsDigit(DumpNat(n)[i])
    ensures ParseInteger(negative, DumpNat(n)) == Some(if negative then -(n as int) else n)
  {
    DumpNatIsDecimal(n);
    assert PowerOfTen(4) == 10_000;
    assert PowerOfTen(8) == 10_000 * PowerOfTen(4);
    assert PowerOfTen(12) == 10_000 * PowerOfTen(8);
    assert PowerOfTen(16) == 10_000 * PowerOfTen(12);
    DumpNatLength(n, 16);
  }

  lemma IntegerParses(n: int, rest: Text)
    requires -SAFE_INTEGER_LIMIT <= n <= SAFE_INTEGER_LIMIT && Ends(rest)
    ensures ParseNumber(DumpInt(n) + rest) == Parsed(Int(n), rest)
  {
    var size: nat := if n < 0 then -n else n;
    DumpNatIsDecimal(size);
    DigitsParse(n < 0, size);
    assert DumpNat(0) == [0x30];
    NumberParses(n < 0, DumpNat(size), rest);
  }

  // ----- values -----

  predicate StartsValue(c: CodePoint) {
    !IsSpace(c) && c != CLOSE_BRACE && c != CLOSE_BRACKET && c != BYTE_ORDER_MARK
  }

  lemma RenderStarts(v: Json)
    ensures Render(v) != [] && StartsValue(Render(v)[0])
  {
    if v.Int? {
      DumpNatIsDecimal(if v.number < 0 then -v.number else v.number);
    }
  }

  lemma StrictKeepsAcceptable(nfc: Nfc, members: seq<Member>)
    requires IsProper(Obj(members)) && IsAcceptable(nfc, Obj(members))
    ensures StrictMembers(nfc, members) == Some(members)
  {
    assert forall i :: 0 <= i < |members| ==> Keys(members)[i] == members[i].key;
  }

  lemma OtherStart(t: Text, prefix: Text)
    requires t != [] && prefix != [] && t[0] != prefix[0]
    ensures !StartsWith(t, prefix)
  {
    if |prefix| <= |t| {
      assert t[..|prefix|][0] == t[0];
    }
  }

  lemma IntegerIsParsed(nfc: Nfc, n: int, rest: Text)
    requires -SAFE_INTEGER_LIMIT <= n <= SAFE_INTEGER_LIMIT && Ends(rest)
    ensures ParseValue(nfc, DumpInt(n) + rest) == Parsed(Int(n), rest)
  {
    IntegerParses(n, rest);
    DumpNatIsDecimal(if n < 0 then -n else n);
    var t := DumpInt(n) + rest;
    assert t[0] == MINUS || IsDigit(t[0]);
    OtherStart(t, NULL_TEXT);
    OtherStart(t, TRUE_TEXT);
    OtherStart(t, FALSE_TEXT);
  }

  lemma WordIsParsed(nfc: Nfc, v: Json, rest: Text)
    requires v.Null? || v.Bool?
    ensures ParseValue(nfc, DumpScalar(v) + rest) == Parsed(v, rest)
  {
    var t := DumpScalar(v) + rest;
    assert StartsWith(t, DumpScalar(v)) && t[|DumpScalar(v)|..] == rest;
    if v.Bool? {
      OtherStart(t, NULL_TEXT);
      if !v.value {
        OtherStart(t, TRUE_TEXT);
      }
    }
  }

  lemma StringIsParsed(nfc: Nfc, text: Text, rest: Text)
    ensures ParseValue(nfc, DumpText(text) + rest) == Parsed(Str(text), rest)
  {
    var body := EscapeAll(text) + [QUOTE] + rest;
    TextParses(text, rest);
    assert DumpText(text) + rest == [QUOTE] + body;
    assert ([QUOTE] + body)[1..] == body;
  }

  lemma ScalarParses(nfc: Nfc, v: Json, rest: Text)
    requires IsValidScalar(nfc, v) && Ends(rest)
    ensures ParseValue(nfc, DumpScalar(v) + rest) == Parsed(v, rest)
  {
    match v
    case Int(n) => IntegerIsParsed(nfc, n, rest);
    case Str(text) => StringIsParsed(nfc, text, rest);
    case _ => WordIsParsed(nfc, v, rest);
  }

  /** A member as the parser takes it apart, in front of whatever comes after it. */
  function MemberText(m: Member, after: Text): Text {
    [QUOTE] + (EscapeAll(m.key) + [QUOTE] + ([COLON] + (Render(m.value) + after)))
  }

  lemma Regroup5(a: Text, b: Text, c: Text, d: Text, e: Text)
    ensures a + b + c == a + (b + c)
    ensures a + b + c + d + e == a + (b + (c + d + e))
  {
  }

  lemma Regroup(quote: Text, key: Text, colon: Text, value: Text, after: Text)
    ensures quote + key + quote + colon + value + after == quote + (key + quote + (colon + (value + after)))
  {
  }

  lemma RenderedMembersStart(members: seq<Member>, rest: Text)
    requires members != []
    ensures RenderMembers(members) + [CLOSE_BRACE] + rest
         == MemberText(members[0], if |members| == 1 then [CLOSE_BRACE] + rest
                                   else [COMMA] + (RenderMembers(members[1..]) + [CLOSE_BRACE] + rest))
  {
    var first := RenderMember(members[0]);
    var after := if |members| == 1 then [CLOSE_BRACE] + rest
                 else [COMMA] + (RenderMembers(members[1..]) + [CLOSE_BRACE] + rest);
    if |members| == 1 {
      Regroup5(first, [CLOSE_BRACE], rest, [], []);
    } else {
      Regroup5(first, [COMMA], RenderMembers(members[1..]), [CLOSE_BRACE], rest);
    }
    Regroup([QUOTE], EscapeAll(members[0].key), [COLON], Render(members[0].value), after);
  }

  lemma ExpectFirst(c: CodePoint, next: Text)
    requires !IsSpace(c)
    ensures Expect([c] + next, c) == Parsed((), next) && SkipSpace([c] + next) == [c] + next
  {
    assert ([c] + next)[1..] == next;
  }

  lemma MemberHead(m: Member, after: Text)
    ensures var t, value := MemberText(m, after), Render(m.value) + after;
      && t[0] == QUOTE
      && ParseText(t[1..]) == Parsed(m.key, [COLON] + value)
      && Expect([COLON] + value, COLON) == Parsed((), value)
      && SkipSpace(value) == value
  {
    var t, value := MemberText(m, after), Render(m.value) + after;
    assert t[1..] == EscapeAll(m.key) + [QUOTE] + ([COLON] + value);
    TextParses(m.key, [COLON] + value);
    ExpectFirst(COLON, value);
    RenderStarts(m.value);
  }

  lemma LastMember(nfc: Nfc, m: Member, rest: Text)
    requires ParseValue(nfc, Render(m.value) + ([CLOSE_BRACE] + rest)) == Parsed(m.value, [CLOSE_BRACE] + rest)
    ensures ParseMembers(nfc, MemberText(m, [CLOSE_BRACE] + rest)) == Parsed([m], rest)
  {
    MemberHead(m, [CLOSE_BRACE] + rest);
    assert ([CLOSE_BRACE] + rest)[1..] == rest;
  }

  lemma NextMember(nfc: Nfc, m: Member, next: Text, others: seq<Member>, rest: Text)
    requires ParseValue(nfc, Render(m.value) + ([COMMA] + next)) == Parsed(m.value, [COMMA] + next)
    requires next != [] && !IsSpace(next[0]) && ParseMembers(nfc, next) == Parsed(others, rest)
    ensures ParseMembers(nfc, MemberText(m, [COMMA] + next)) == Parsed([m] + others, rest)
  {
    MemberHead(m, [COMMA] + next);
    ExpectFirst(COMMA, next);
    assert SkipSpace(next) == next;
    assert ([COMMA] + next)[0] != CLOSE_BRACE;
  }

  lemma RenderedMembersBegin(members: seq<Member>, rest: Text)
    requires members != []
    ensures var t := RenderMembers(members) + [CLOSE_BRACE] + rest;
      t != [] && t[0] == QUOTE
  {
    RenderedMembersStart(members, rest);
  }

  lemma {:induction false} MembersParse(nfc: Nfc, members: seq<Member>, rest: Text)
    requires members != [] && forall i :: 0 <= i < |members| ==>
      IsProper(members[i].value) && IsAcceptable(nfc, members[i].value)
    ensures ParseMembers(nfc, RenderMembers(members) + [CLOSE_BRACE] + rest) == Parsed(members, rest)
    decreases members, 1
  {
    var first, tail := members[0], members[1..];
    RenderedMembersStart(members, rest);
    if tail == [] {
      ValueParses(nfc, first.value, [CLOSE_BRACE] + rest);
      LastMember(nfc, first, rest);
      assert members == [first];
    } else {
      var next := RenderMembers(tail) + [CLOSE_BRACE] + rest;
      ValueParses(nfc, first.value, [COMMA] + next);
      MembersParse(nfc, tail, rest);
      RenderedMembersBegin(tail, rest);
      NextMember(nfc, first, next, tail, rest);
      assert members == [first] + tail;
    }
  }

  lemma RenderedItemsStart(items: seq<Json>, rest: Text)
    requires items != []
    ensures RenderItems(items) + [CLOSE_BRACKET] + rest
         == Render(items[0]) + if |items| == 1 then [CLOSE_BRACKET] + rest
                               else [COMMA] + (RenderItems(items[1..]) + [CLOSE_BRACKET] + rest)
  {
    if |items| == 1 {
      Regroup5(Render(items[0]), [CLOSE_BRACKET], rest, [], []);
    } else {
      Regroup5(Render(items[0]), [COMMA], RenderItems(items[1..]), [CLOSE_BRACKET], rest);
    }
  }

  lemma LastItem(nfc: Nfc, item: Json, rest: Text)
    requires ParseValue(nfc, Render(item) + ([CLOSE_BRACKET] + rest)) == Parsed(item, [CLOSE_BRACKET] + rest)
    ensures ParseItems(nfc, Render(item) + ([CLOSE_BRACKET] + rest)) == Parsed([item], rest)
  {
  }

  lemma NextItem(nfc: Nfc, item: Json, next: Text, others: seq<Json>, rest: Text)
    requires ParseValue(nfc, Render(item) + ([COMMA] + next)) == Parsed(item, [COMMA] + next)
    requires next != [] && !IsSpace(next[0]) && ParseItems(nfc, next) == Parsed(others, rest)
    ensures ParseItems(nfc, Render(item) + ([COMMA] + next)) == Parsed([item] + others, rest)
  {
    ExpectFirst(COMMA, next);
    assert ([COMMA] + next)[0] != CLOSE_BRACKET && SkipSpace(next) == next;
  }

  lemma {:induction false} ItemsParse(nfc: Nfc, items: seq<Json>, rest: Text)
    requires items != [] && forall i :: 0 <= i < |items| ==> IsProper(items[i]) && IsAcceptable(nfc, items[i])
    ensures ParseItems(nfc, RenderItems(items) + [CLOSE_BRACKET] + rest) == Parsed(items, rest)
    decreases items, 1
  {
    var tail := items[1..];
    RenderedItemsStart(items, rest);
    if tail == [] {
      ValueParses(nfc, items[0], [CLOSE_BRACKET] + rest);
      LastItem(nfc, items[0], rest);
      assert items == [items[0]];
    } else {
      var next := RenderItems(tail) + [CLOSE_BRACKET] + rest;
      RenderedItemsStart(tail, rest);
      RenderStarts(tail[0]);
      ValueParses(nfc, items[0], [COMMA] + next);
      ItemsParse(nfc, tail, rest);
      NextItem(nfc, items[0], next, tail, rest);
      assert items == [items[0]] + tail;
    }
  }

  lemma ObjectParses(nfc: Nfc, members: seq<Member>, rest: Text)
    requires StrictMembers(nfc, members) == Some(members)
    requires members == [] ||
      ParseMembers(nfc, RenderMembers(members) + [CLOSE_BRACE] + rest) == Parsed(members, rest)
    ensures ParseValue(nfc, Render(Obj(members)) + rest) == Parsed(Obj(members), rest)
  {
    var u := RenderMembers(members) + [CLOSE_BRACE] + rest;
    assert Render(Obj(members)) + rest == [OPEN_BRACE] + u && ([OPEN_BRACE] + u)[1..] == u;
    if members == [] {
      assert u == [CLOSE_BRACE] + rest && u[1..] == rest;
    } else {
      RenderedMembersStart(members, rest);
    }
  }

  lemma ArrayParses(nfc: Nfc, items: seq<Json>, rest: Text)
    requires items == [] || ParseItems(nfc, RenderItems(items) + [CLOSE_BRACKET] + rest) == Parsed(items, rest)
    ensures ParseValue(nfc, Render(Arr(items)) + rest) == Parsed(Arr(items), rest)
  {
    var u := RenderItems(items) + [CLOSE_BRACKET] + rest;
    assert Render(Arr(items)) + rest == [OPEN_BRACKET] + u && ([OPEN_BRACKET] + u)[1..] == u;
    if items == [] {
      assert u == [CLOSE_BRACKET] + rest && u[1..] == rest;
    } else {
      RenderedItemsStart(items, rest);
      RenderStarts(items[0]);
    }
  }

  /** Reading compact text gives the value back and stops at its end, whatever ending comes next. */
  lemma {:induction false} ValueParses(nfc: Nfc, v: Json, rest: Text)
    requires IsProper(v) && IsAcceptable(nfc, v) && Ends(rest)
    ensures ParseValue(nfc, Render(v) + rest) == Parsed(v, rest)
    decreases v, 0
  {
    match v
    case Obj(members) =>
      StrictKeepsAcceptable(nfc, members);
      if members != [] {
        MembersParse(nfc, members, rest);
      }
      ObjectParses(nfc, members, rest);
    case Arr(items) =>
      if items != [] {
        ItemsParse(nfc, items, rest);
      }
      ArrayParses(nfc, items, rest);
    case _ => ScalarParses(nfc, v, rest);
  }
}
