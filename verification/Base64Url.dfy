/** Unpadded base64url, section 5 of RFC 4648, as the ticket codec uses it. */
module Base64Url {
  import opened Wrappers

  type Sextet = n: nat | n < 64

  function Symbol(v: Sextet): char {
    if v < 26 then ('A' as int + v) as char
    else if v < 52 then ('a' as int + v - 26) as char
    else if v < 62 then ('0' as int + v - 52) as char
    else if v == 62 then '-'
    else '_'
  }

  function SextetOf(c: char): Option<Sextet> {
    if 'A' <= c <= 'Z' then Some(c as int - 'A' as int)
    else if 'a' <= c <= 'z' then Some(c as int - 'a' as int + 26)
    else if '0' <= c <= '9' then Some(c as int - '0' as int + 52)
    else if c == '-' then Some(62)
    else if c == '_' then Some(63)
    else None
  }

  function FirstSextet(x: Byte): Sextet {
    x / 4
  }

  function SecondSextet(x: Byte, y: Byte): Sextet {
    (x as int) % 4 * 16 + (y as int) / 16
  }

  function ThirdSextet(y: Byte, z: Byte): Sextet {
    (y as int) % 16 * 4 + (z as int) / 64
  }

  function FourthSextet(z: Byte): Sextet {
    z % 64
  }

  /** Three bytes per four sextets; one or two left-over bytes give two or three, padded with zero bits. */
  function Pack(bytes: seq<Byte>): seq<Sextet> {
    if bytes == [] then
      []
    else if |bytes| == 1 then
      [FirstSextet(bytes[0]), SecondSextet(bytes[0], 0)]
    else if |bytes| == 2 then
      [FirstSextet(bytes[0]), SecondSextet(bytes[0], bytes[1]), ThirdSextet(bytes[1], 0)]
    else
      [FirstSextet(bytes[0]), SecondSextet(bytes[0], bytes[1]), ThirdSextet(bytes[1], bytes[2]), FourthSextet(bytes[2])]
      + Pack(bytes[3..])
  }

  function Symbols(v: seq<Sextet>): string {
    seq(|v|, i requires 0 <= i < |v| => Symbol(v[i]))
  }

  function Encode(bytes: seq<Byte>): string {
    Symbols(Pack(bytes))
  }

  function Sextets(text: string): Option<seq<Sextet>> {
    if text == "" then
      Some([])
    else
      match (SextetOf(text[0]), Sextets(text[1..]))
      case (Some(v), Some(rest)) => Some([v] + rest)
      case _ => None
  }

  /** The three bytes spread over four sextets. */
  function FirstByte(a: Sextet, b: Sextet): Byte {
    (a as int) * 4 + (b as int) / 16
  }

  function SecondByte(b: Sextet, c: Sextet): Byte {
    (b as int) % 16 * 16 + (c as int) / 4
  }

  function ThirdByte(c: Sextet, d: Sextet): Byte {
    (c as int) % 4 * 64 + (d as int)
  }

  /**
   * The decoder. No text has a length of one over a multiple of four; `lenient` says whether left-over bits
   * that are not zero are ignored or refused.
   */
  function Unpack(v: seq<Sextet>, lenient: bool): Option<seq<Byte>> {
    if v == [] then
      Some([])
    else if |v| == 1 then
      None
    else if |v| == 2 then
      if lenient || v[1] % 16 == 0 then Some([FirstByte(v[0], v[1])]) else None
    else if |v| == 3 then
      if lenient || v[2] % 4 == 0 then Some([FirstByte(v[0], v[1]), SecondByte(v[1], v[2])]) else None
    else
      match Unpack(v[4..], lenient)
      case None => None
      case Some(rest) => Some([FirstByte(v[0], v[1]), SecondByte(v[1], v[2]), ThirdByte(v[2], v[3])] + rest)
  }

  function Decode(text: string, lenient: bool): Option<seq<Byte>> {
    match Sextets(text)
    case None => None
    case Some(v) => Unpack(v, lenient)
  }

  lemma SymbolRoundTrip(v: Sextet)
    ensures SextetOf(Symbol(v)) == Some(v)
  {
  }

  lemma SymbolOfSextet(c: char)
    requires SextetOf(c).Some?
    ensures Symbol(SextetOf(c).value) == c
  {
  }

  lemma {:induction false} SextetsOfSymbols(v: seq<Sextet>)
    ensures Sextets(Symbols(v)) == Some(v)
  {
    if v == [] {
      assert Symbols(v) == "";
    } else {
      assert Symbols(v)[1..] == Symbols(v[1..]);
      SymbolRoundTrip(v[0]);
      SextetsOfSymbols(v[1..]);
      assert v == [v[0]] + v[1..];
    }
  }

  lemma {:induction false} SymbolsOfSextets(text: string)
    requires Sextets(text).Some?
    ensures Symbols(Sextets(text).value) == text
  {
    if text != "" {
      SymbolOfSextet(text[0]);
      SymbolsOfSextets(text[1..]);
    }
  }

  lemma BytesOfSextets(x: Byte, y: Byte, z: Byte)
    ensures FirstByte(FirstSextet(x), SecondSextet(x, y)) == x
    ensures SecondByte(SecondSextet(x, y), ThirdSextet(y, z)) == y
    ensures ThirdByte(ThirdSextet(y, z), FourthSextet(z)) == z
  {
  }

  lemma SextetsOfBytes(a: Sextet, b: Sextet, c: Sextet, d: Sextet)
    ensures FirstSextet(FirstByte(a, b)) == a
    ensures SecondSextet(FirstByte(a, b), SecondByte(b, c)) == b
    ensures ThirdSextet(SecondByte(b, c), ThirdByte(c, d)) == c
    ensures FourthSextet(ThirdByte(c, d)) == d
  {
  }

  lemma UnpackQuad(a: Sextet, b: Sextet, c: Sextet, d: Sextet, more: seq<Sextet>, rest: seq<Byte>, lenient: bool)
    requires Unpack(more, lenient) == Some(rest)
    ensures Unpack([a, b, c, d] + more, lenient)
         == Some([FirstByte(a, b), SecondByte(b, c), ThirdByte(c, d)] + rest)
  {
    assert ([a, b, c, d] + more)[4..] == more;
  }

  lemma UnpackPair(a: Sextet, b: Sextet, lenient: bool)
    requires b % 16 == 0
    ensures Unpack([a, b], lenient) == Some([FirstByte(a, b)])
  {
  }

  lemma UnpackOne(x: Byte, lenient: bool)
    ensures Unpack([FirstSextet(x), SecondSextet(x, 0)], lenient) == Some([x])
  {
    var low: nat := x % 4;
    assert SecondSextet(x, 0) == low * 16;
    assert low * 16 % 16 == 0;
    UnpackPair(FirstSextet(x), SecondSextet(x, 0), lenient);
    BytesOfSextets(x, 0, 0);
  }

  lemma UnpackTwo(x: Byte, y: Byte, lenient: bool)
    ensures Unpack([FirstSextet(x), SecondSextet(x, y), ThirdSextet(y, 0)], lenient) == Some([x, y])
  {
    BytesOfSextets(x, y, 0);
    assert ThirdSextet(y, 0) % 4 == 0;
  }

  lemma UnpackTail(bytes: seq<Byte>, lenient: bool)
    requires |bytes| <= 2
    ensures Unpack(Pack(bytes), lenient) == Some(bytes)
  {
    if |bytes| == 1 {
      UnpackOne(bytes[0], lenient);
      assert bytes == [bytes[0]];
    } else if |bytes| == 2 {
      UnpackTwo(bytes[0], bytes[1], lenient);
      assert bytes == [bytes[0], bytes[1]];
    }
  }

  lemma PackQuad(bytes: seq<Byte>)
    requires |bytes| > 2
    ensures Pack(bytes) == [FirstSextet(bytes[0]), SecondSextet(bytes[0], bytes[1]),
                            ThirdSextet(bytes[1], bytes[2]), FourthSextet(bytes[2])] + Pack(bytes[3..])
  {
  }

  lemma {:induction false} UnpackPack(bytes: seq<Byte>, lenient: bool)
    ensures Unpack(Pack(bytes), lenient) == Some(bytes)
    decreases |bytes|
  {
    if |bytes| > 2 {
      UnpackPack(bytes[3..], lenient);
      UnpackTriple(bytes[0], bytes[1], bytes[2], bytes[3..], lenient);
      PackQuad(bytes);
      assert bytes == [bytes[0], bytes[1], bytes[2]] + bytes[3..];
    } else {
      UnpackTail(bytes, lenient);
    }
  }

  lemma UnpackTriple(x: Byte, y: Byte, z: Byte, rest: seq<Byte>, lenient: bool)
    requires Unpack(Pack(rest), lenient) == Some(rest)
    ensures Unpack([FirstSextet(x), SecondSextet(x, y), ThirdSextet(y, z), FourthSextet(z)] + Pack(rest), lenient)
         == Some([x, y, z] + rest)
  {
    UnpackQuad(FirstSextet(x), SecondSextet(x, y), ThirdSextet(y, z), FourthSextet(z), Pack(rest), rest, lenient);
    BytesOfSextets(x, y, z);
  }

  lemma {:induction false} PackUnpack(v: seq<Sextet>)
    requires Unpack(v, false).Some?
    ensures Pack(Unpack(v, false).value) == v
    decreases |v|
  {
    if |v| > 3 {
      PackUnpack(v[4..]);
      var bytes := Unpack(v, false).value;
      assert bytes[3..] == Unpack(v[4..], false).value;
      SextetsOfBytes(v[0], v[1], v[2], v[3]);
      assert v == [v[0], v[1], v[2], v[3]] + v[4..];
    } else if |v| == 3 {
      SextetsOfBytes(v[0], v[1], v[2], 0);
      assert v == [v[0], v[1], v[2]];
    } else if |v| == 2 {
      SextetsOfBytes(v[0], v[1], 0, 0);
      assert v == [v[0], v[1]];
    }
  }

  /** Decoding an encoding gives the bytes back, for every byte string and either decoder. */
  lemma DecodeEncode(bytes: seq<Byte>, lenient: bool)
    ensures Decode(Encode(bytes), lenient) == Some(bytes)
  {
    SextetsOfSymbols(Pack(bytes));
    UnpackPack(bytes, lenient);
  }

  /** The decoder that refuses left-over bits is an exact inverse: one text per byte string and no other. */
  lemma StrictDecodeIsExact(text: string, bytes: seq<Byte>)
    ensures Decode(text, false) == Some(bytes) <==> text == Encode(bytes)
  {
    DecodeEncode(bytes, false);
    if Decode(text, false) == Some(bytes) {
      SymbolsOfSextets(text);
      PackUnpack(Sextets(text).value);
    }
  }

  lemma EncodeIsInjective(a: seq<Byte>, b: seq<Byte>)
    requires Encode(a) == Encode(b)
    ensures a == b
  {
    DecodeEncode(a, false);
    DecodeEncode(b, false);
  }

  lemma {:induction false} EncodedLength(bytes: seq<Byte>)
    ensures |Encode(bytes)| == (|bytes| * 4 + 2) / 3
    decreases |bytes|
  {
    if |bytes| > 2 {
      EncodedLength(bytes[3..]);
    }
  }

  /**
   * A decoder that ignores left-over bits gives sixteen texts the same meaning, one of them canonical; only a
   * comparison with the canonical text tells them apart.
   */
  lemma LeftOverBitsDecideNothing(x: Byte, second: Sextet)
    requires second / 16 == x % 4
    ensures Decode(Symbols([FirstSextet(x), second]), true) == Some([x])
    ensures Decode(Symbols([FirstSextet(x), second]), false).Some? <==> second % 16 == 0
  {
    SextetsOfSymbols([FirstSextet(x), second]);
    assert FirstByte(FirstSextet(x), second) == x;
  }

  // ----- the definition -----

  /** Every three bytes are the same 24-bit number as their four symbols; left-over bytes get zero bits appended. */
  lemma GroupsAreNumbers(x: Byte, y: Byte, z: Byte)
    ensures var p := Pack([x, y, z]);
      && |p| == 4
      && p[0] as int * 0x4_0000 + p[1] as int * 0x1000 + p[2] as int * 0x40 + p[3]
         == x as int * 0x1_0000 + y as int * 0x100 + z
    ensures var p := Pack([x, y]);
      |p| == 3 && p[0] as int * 0x1000 + p[1] as int * 0x40 + p[2] == (x as int * 0x100 + y) * 4
    ensures var p := Pack([x]);
      |p| == 2 && p[0] as int * 0x40 + p[1] == x as int * 16
  {
    assert x as int == x as int / 4 * 4 + x as int % 4;
    assert y as int == y as int / 16 * 16 + y as int % 16;
    assert z as int == z as int / 64 * 64 + z as int % 64;
  }

  lemma GroupsComeInOrder(x: Byte, y: Byte, z: Byte, rest: seq<Byte>)
    ensures Encode([x, y, z] + rest) == Encode([x, y, z]) + Encode(rest)
  {
    var bytes := [x, y, z] + rest;
    assert bytes[3..] == rest;
    PackQuad(bytes);
    PackQuad([x, y, z]);
  }
}
