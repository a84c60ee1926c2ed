/**
 * Python strings as sequences of code points, surrogates included, with the two encodings that
 * `scripts/validate_governance_state.py` uses: UTF-8 for bytes and UTF-16BE for sort keys.
 */
module UnicodeText {
  import opened Wrappers
  import opened Ordering

  type CodePoint = c: nat | c < 0x11_0000

  type Text = seq<CodePoint>

  predicate IsSurrogate(c: CodePoint) {
    0xD800 <= c <= 0xDFFF
  }

  predicate HasNoSurrogates(t: Text) {
    forall i :: 0 <= i < |t| ==> !IsSurrogate(t[i])
  }

  // ----- UTF-8 -----

  /** The trailing byte for the low six bits of `v`. */
  function Tail(v: nat): Byte {
    0x80 + v % 0x40
  }

  function Utf8Of(c: CodePoint): seq<Byte> {
    if c < 0x80 then [c]
    else if c < 0x800 then [0xC0 + c as int / 0x40, Tail(c)]
    else if c < 0x1_0000 then [0xE0 + c as int / 0x40 / 0x40, Tail(c / 0x40), Tail(c)]
    else [0xF0 + c as int / 0x40 / 0x40 / 0x40, Tail(c / 0x40 / 0x40), Tail(c / 0x40), Tail(c)]
  }

  function Utf8(t: Text): seq<Byte> {
    if t == [] then [] else Utf8Of(t[0]) + Utf8(t[1..])
  }

  predicate IsTail(b: Byte) {
    0x80 <= b < 0xC0
  }

  function Join(v: nat, b: Byte): nat
    requires IsTail(b)
  {
    v * 0x40 + (b as int - 0x80)
  }

  lemma JoinTail(v: nat, b: Byte)
    requires IsTail(b)
    ensures Join(v, b) / 0x40 == v && Tail(Join(v, b)) == b
  {
  }

  lemma TailJoin(v: nat)
    ensures IsTail(Tail(v)) && Join(v / 0x40, Tail(v)) == v
  {
  }

  /** The first character and its length, if there is one and it is in its shortest form. */
  function DecodeOne(b: seq<Byte>): Option<(CodePoint, nat)> {
    if b == [] then
      None
    else if b[0] < 0x80 then
      Some((b[0], 1))
    else if 0xC2 <= b[0] < 0xE0 && |b| >= 2 && IsTail(b[1]) then
      Some((Join(b[0] as int - 0xC0, b[1]), 2))
    else if 0xE0 <= b[0] < 0xF0 && |b| >= 3 && IsTail(b[1]) && IsTail(b[2]) then
      var c := Join(Join(b[0] as int - 0xE0, b[1]), b[2]);
      if c < 0x800 || IsSurrogate(c) then None else Some((c, 3))
    else if 0xF0 <= b[0] < 0xF5 && |b| >= 4 && IsTail(b[1]) && IsTail(b[2]) && IsTail(b[3]) then
      var c := Join(Join(Join(b[0] as int - 0xF0, b[1]), b[2]), b[3]);
      if c < 0x1_0000 || c >= 0x11_0000 then None else Some((c, 4))
    else
      None
  }

  function DecodeUtf8(b: seq<Byte>): Option<Text>
    decreases |b|
  {
    if b == [] then
      Some([])
    else
      match DecodeOne(b)
      case None => None
      case Some((c, n)) =>
        assert 1 <= n <= |b|;
        match DecodeUtf8(b[n..])
        case None => None
        case Some(rest) => Some([c] + rest)
  }

  lemma TwoBytes(b: seq<Byte>)
    requires |b| >= 2 && 0xC2 <= b[0] < 0xE0 && IsTail(b[1])
    ensures var c := Join(b[0] as int - 0xC0, b[1]);
      0x80 <= c < 0x800 && Utf8Of(c) == [b[0], b[1]]
  {
    JoinTail(b[0] as int - 0xC0, b[1]);
  }

  lemma ThreeBytes(b: seq<Byte>)
    requires |b| >= 3 && 0xE0 <= b[0] < 0xF0 && IsTail(b[1]) && IsTail(b[2])
    ensures var c := Join(Join(b[0] as int - 0xE0, b[1]), b[2]);
      c < 0x1_0000 && (c >= 0x800 ==> Utf8Of(c) == [b[0], b[1], b[2]])
  {
    JoinTail(b[0] as int - 0xE0, b[1]);
    JoinTail(Join(b[0] as int - 0xE0, b[1]), b[2]);
  }

  lemma FourBytes(b: seq<Byte>)
    requires |b| >= 4 && 0xF0 <= b[0] < 0xF5 && IsTail(b[1]) && IsTail(b[2]) && IsTail(b[3])
    ensures var c := Join(Join(Join(b[0] as int - 0xF0, b[1]), b[2]), b[3]);
      0x1_0000 <= c < 0x11_0000 ==> Utf8Of(c) == [b[0], b[1], b[2], b[3]]
  {
    JoinTail(b[0] as int - 0xF0, b[1]);
    JoinTail(Join(b[0] as int - 0xF0, b[1]), b[2]);
    JoinTail(Join(Join(b[0] as int - 0xF0, b[1]), b[2]), b[3]);
  }

  lemma DecodeOneExact(b: seq<Byte>)
    requires DecodeOne(b).Some?
    ensures var (c, n) := DecodeOne(b).value;
      !IsSurrogate(c) && 1 <= n <= |b| && b[..n] == Utf8Of(c)
  {
    var (c, n) := DecodeOne(b).value;
    if n == 2 {
      TwoBytes(b);
      assert b[..2] == [b[0], b[1]];
    } else if n == 3 {
      ThreeBytes(b);
      assert b[..3] == [b[0], b[1], b[2]];
    } else if n == 4 {
      FourBytes(b);
      assert b[..4] == [b[0], b[1], b[2], b[3]];
    }
  }

  lemma DecodeOneOf(c: CodePoint, rest: seq<Byte>)
    requires !IsSurrogate(c)
    ensures DecodeOne(Utf8Of(c) + rest) == Some((c, |Utf8Of(c)|))
  {
    TailJoin(c);
    TailJoin(c / 0x40);
    TailJoin(c / 0x40 / 0x40);
  }

  lemma {:induction false} DecodeIsExact(b: seq<Byte>)
    requires DecodeUtf8(b).Some?
    ensures HasNoSurrogates(DecodeUtf8(b).value) && Utf8(DecodeUtf8(b).value) == b
    decreases |b|
  {
    if b != [] {
      DecodeOneExact(b);
      var (c, n) := DecodeOne(b).value;
      var t := DecodeUtf8(b).value;
      assert t[0] == c && t[1..] == DecodeUtf8(b[n..]).value && b == b[..n] + b[n..];
      DecodeIsExact(b[n..]);
    }
  }

  lemma {:induction false} DecodeUtf8Of(t: Text)
    requires HasNoSurrogates(t)
    ensures DecodeUtf8(Utf8(t)) == Some(t)
  {
    if t != [] {
      var b, n := Utf8(t), |Utf8Of(t[0])|;
      DecodeOneOf(t[0], Utf8(t[1..]));
      assert b[n..] == Utf8(t[1..]) && t == [t[0]] + t[1..];
      DecodeUtf8Of(t[1..]);
    }
  }

  /** Strict decoding accepts exactly the encodings of surrogate-free texts, each from one byte string. */
  lemma Utf8IsExact(b: seq<Byte>, t: Text)
    ensures DecodeUtf8(b) == Some(t) <==> HasNoSurrogates(t) && Utf8(t) == b
  {
    if DecodeUtf8(b).Some? {
      DecodeIsExact(b);
    }
    if HasNoSurrogates(t) {
      DecodeUtf8Of(t);
    }
  }

  lemma {:induction false} Utf8Concat(a: Text, b: Text)
    ensures Utf8(a + b) == Utf8(a) + Utf8(b)
  {
    if a == [] {
      assert a + b == b;
    } else {
      var whole := a + b;
      assert whole[0] == a[0] && whole[1..] == a[1..] + b;
      Utf8Concat(a[1..], b);
      assert Utf8(whole) == Utf8Of(a[0]) + (Utf8(a[1..]) + Utf8(b));
    }
  }

  // ----- UTF-16 -----

  function Word(v: nat): (bytes: seq<Byte>)
    requires v < 0x1_0000
    ensures |bytes| == 2 && v == bytes[0] as int * 0x100 + bytes[1] as int
  {
    [v / 0x100, v % 0x100]
  }

  /** The 16-bit code units of a character: itself, or a surrogate pair. */
  function UnitsOf(c: CodePoint): (units: seq<nat>)
    ensures forall i :: 0 <= i < |units| ==> units[i] < 0x1_0000
    ensures |units| == 1 || |units| == 2
    ensures |units| == 1 ==> units[0] == c
    ensures |units| == 2 ==>
      && 0xD800 <= units[0] <= 0xDBFF && 0xDC00 <= units[1] <= 0xDFFF
      && c == 0x1_0000 + (units[0] - 0xD800) * 0x400 + (units[1] - 0xDC00)
  {
    if c < 0x1_0000 then [c]
    else [0xD800 + (c - 0x1_0000) / 0x400, 0xDC00 + (c - 0x1_0000) % 0x400]
  }

  function Utf16Of(c: CodePoint): seq<Byte> {
    if c < 0x1_0000 then Word(UnitsOf(c)[0]) else Word(UnitsOf(c)[0]) + Word(UnitsOf(c)[1])
  }

  lemma CodeIsBigEndian(c: CodePoint)
    ensures Utf16Of(c) == BigEndian(UnitsOf(c))
  {
    var units := UnitsOf(c);
    assert BigEndian(units[1..]) == if |units| == 1 then [] else Word(units[1]) + BigEndian(units[1..][1..]);
  }

  function BigEndian(units: seq<nat>): seq<Byte>
    requires forall i :: 0 <= i < |units| ==> units[i] < 0x1_0000
  {
    if units == [] then [] else Word(units[0]) + BigEndian(units[1..])
  }

  /** `utf16_sort_key`; the program encodes surrogate-free texts only. */
  function Utf16(t: Text): seq<Byte> {
    if t == [] then [] else Utf16Of(t[0]) + Utf16(t[1..])
  }

  function Units(t: Text): (units: seq<nat>)
    ensures forall i :: 0 <= i < |units| ==> units[i] < 0x1_0000
  {
    if t == [] then [] else UnitsOf(t[0]) + Units(t[1..])
  }

  predicate UnitLeq(a: nat, b: nat) {
    a <= b
  }

  lemma {:induction false} BigEndianConcat(a: seq<nat>, b: seq<nat>)
    requires forall i :: 0 <= i < |a| ==> a[i] < 0x1_0000
    requires forall i :: 0 <= i < |b| ==> b[i] < 0x1_0000
    ensures BigEndian(a + b) == BigEndian(a) + BigEndian(b)
  {
    if a == [] {
      assert a + b == b;
    } else {
      BigEndianConcat(a[1..], b);
      var whole := a + b;
      assert whole[0] == a[0] && whole[1..] == a[1..] + b;
      assert BigEndian(whole) == Word(a[0]) + (BigEndian(a[1..]) + BigEndian(b));
    }
  }

  lemma {:induction false} KeyIsBigEndian(t: Text)
    ensures Utf16(t) == BigEndian(Units(t))
  {
    if t != [] {
      KeyIsBigEndian(t[1..]);
      CodeIsBigEndian(t[0]);
      BigEndianConcat(UnitsOf(t[0]), Units(t[1..]));
    }
  }

  lemma WordOrder(a: nat, b: nat, x: seq<Byte>, y: seq<Byte>)
    requires a < 0x1_0000 && b < 0x1_0000
    ensures BytesLeq(Word(a) + x, Word(b) + y) == if a == b then BytesLeq(x, y) else a < b
  {
    var s, t := Word(a) + x, Word(b) + y;
    assert s[0] == Word(a)[0] && t[0] == Word(b)[0];
    assert s[1..][0] == Word(a)[1] && t[1..][0] == Word(b)[1];
    assert s[1..][1..] == x && t[1..][1..] == y;
    assert LexLeq(ByteLeq, s[1..], t[1..])
        == if s[1..][0] == t[1..][0] then LexLeq(ByteLeq, x, y) else s[1..][0] <= t[1..][0];
  }

  lemma {:induction false} BigEndianOrder(a: seq<nat>, b: seq<nat>)
    requires forall i :: 0 <= i < |a| ==> a[i] < 0x1_0000
    requires forall i :: 0 <= i < |b| ==> b[i] < 0x1_0000
    ensures BytesLeq(BigEndian(a), BigEndian(b)) <==> LexLeq(UnitLeq, a, b)
  {
    if a != [] && b != [] {
      WordOrder(a[0], b[0], BigEndian(a[1..]), BigEndian(b[1..]));
      BigEndianOrder(a[1..], b[1..]);
    }
  }

  /**
   * Comparing sort keys byte by byte is comparing the texts by UTF-16 code units: the units of one begin those of
   * the other, or the first units that differ are in order.
   */
  lemma SortKeyOrder(a: Text, b: Text)
    ensures BytesLeq(Utf16(a), Utf16(b)) <==> InDictionaryOrder(UnitLeq, Units(a), Units(b))
  {
    KeyIsBigEndian(a);
    KeyIsBigEndian(b);
    BigEndianOrder(Units(a), Units(b));
    LexByFirstDifference(UnitLeq, Units(a), Units(b));
  }

  /** The first word tells how long the code is, and the code tells the character. */
  lemma Utf16OfIsInjective(a: CodePoint, b: CodePoint)
    requires !IsSurrogate(a) && !IsSurrogate(b) && Utf16Of(a)[..2] == Utf16Of(b)[..2]
    ensures |Utf16Of(a)| == |Utf16Of(b)|
    ensures Utf16Of(a) == Utf16Of(b) ==> a == b
  {
    var x, y := Utf16Of(a), Utf16Of(b);
    assert x[0] == x[..2][0] == y[0] && x[1] == x[..2][1] == y[1];
    if Utf16Of(a) == Utf16Of(b) && |x| == 4 {
      assert x[..2] + x[2..] == x && x[2] == y[2] && x[3] == y[3];
      assert (a as int - 0x1_0000) / 0x400 == (b as int - 0x1_0000) / 0x400;
      assert (a as int - 0x1_0000) % 0x400 == (b as int - 0x1_0000) % 0x400;
    }
  }

  lemma Utf16OfIsPrefixFree(a: CodePoint, b: CodePoint, x: seq<Byte>, y: seq<Byte>)
    requires !IsSurrogate(a) && !IsSurrogate(b) && Utf16Of(a) + x == Utf16Of(b) + y
    ensures a == b && x == y
  {
    var whole := Utf16Of(a) + x;
    assert whole[..2] == Utf16Of(a)[..2] == Utf16Of(b)[..2];
    Utf16OfIsInjective(a, b);
    assert whole[..|Utf16Of(a)|] == Utf16Of(a) == Utf16Of(b);
    assert whole[|Utf16Of(a)|..] == x == y;
  }

  lemma {:induction false} Utf16IsInjective(a: Text, b: Text)
    requires HasNoSurrogates(a) && HasNoSurrogates(b) && Utf16(a) == Utf16(b)
    ensures a == b
  {
    if a != [] && b != [] {
      Utf16OfIsPrefixFree(a[0], b[0], Utf16(a[1..]), Utf16(b[1..]));
      Utf16IsInjective(a[1..], b[1..]);
      assert a == [a[0]] + a[1..] && b == [b[0]] + b[1..];
    }
  }

  lemma BytesOrder()
    ensures IsTotalOrder(BytesLeq)
  {
    var leq := BytesLeq;
    forall a: seq<Byte>
      ensures leq(a, a)
    {
      LexIsReflexive(ByteLeq, a);
    }
    forall a: seq<Byte>, b: seq<Byte>
      ensures leq(a, b) || leq(b, a)
      ensures leq(a, b) && leq(b, a) ==> a == b
    {
      LexIsTotal(ByteLeq, a, b);
    }
    forall a: seq<Byte>, b: seq<Byte>, c: seq<Byte> | leq(a, b) && leq(b, c)
      ensures leq(a, c)
    {
      LexIsTransitive(ByteLeq, a, b, c);
    }
  }
}
