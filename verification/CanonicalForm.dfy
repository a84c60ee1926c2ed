/** What the canonical encoding writes: the UTF-8 text of the value with its members sorted. */
module CanonicalForm {
  import opened Wrappers
  import opened Ordering
  import opened UnicodeText
  import opened CanonicalJson

  function RenderedPart(m: Member): Part {
    Part(m.key, Utf8(RenderMember(m)))
  }

  ghost predicate AreAcceptable(nfc: Nfc, members: seq<Member>) {
    forall i :: 0 <= i < |members| ==> IsAcceptable(nfc, members[i].value)
  }

  lemma Utf8OfAscii(c: CodePoint)
    requires c < 0x80
    ensures Utf8([c]) == [c]
  {
    assert Utf8([c]) == Utf8Of(c) + Utf8([]);
  }

  lemma Utf8OfMember(m: Member)
    ensures Utf8(RenderMember(m)) == Utf8(DumpText(m.key)) + [COLON] + Utf8(Render(m.value))
  {
    Utf8Concat(DumpText(m.key) + [COLON], Render(m.value));
    Utf8Concat(DumpText(m.key), [COLON]);
    Utf8OfAscii(COLON);
  }

  lemma Utf8Bracketed(open: CodePoint, t: Text, close: CodePoint)
    requires open < 0x80 && close < 0x80
    ensures Utf8([open] + t + [close]) == [open] + Utf8(t) + [close]
  {
    Utf8Concat([open] + t, [close]);
    Utf8Concat([open], t);
    Utf8OfAscii(open);
    Utf8OfAscii(close);
  }

  lemma Utf8Joined(a: Text, b: Text)
    ensures Utf8(a + [COMMA] + b) == Utf8(a) + [COMMA] + Utf8(b)
  {
    Utf8Concat(a + [COMMA], b);
    Utf8Concat(a, [COMMA]);
    Utf8OfAscii(COMMA);
  }

  lemma {:induction false} JoinedMembers(members: seq<Member>)
    ensures JoinBytes(Mapped(PartBytes, Mapped(RenderedPart, members))) == Utf8(RenderMembers(members))
  {
    var parts := Mapped(PartBytes, Mapped(RenderedPart, members));
    if |members| > 1 {
      JoinedMembers(members[1..]);
      assert parts[1..] == Mapped(PartBytes, Mapped(RenderedPart, members[1..]));
      Utf8Joined(RenderMember(members[0]), RenderMembers(members[1..]));
    } else if |members| == 1 {
      assert Mapped(RenderedPart, members)[0] == RenderedPart(members[0]);
      assert parts[0] == PartBytes(RenderedPart(members[0]));
    }
  }

  lemma FirstOfParts(members: seq<Member>)
    requires members != []
    ensures var head := Member(members[0].key, Normal(members[0].value));
      Mapped(RenderedPart, NormalMembers(members))
      == [RenderedPart(head)] + Mapped(RenderedPart, NormalMembers(members[1..]))
  {
    var head := Member(members[0].key, Normal(members[0].value));
    var tail := NormalMembers(members[1..]);
    assert NormalMembers(members) == [head] + tail;
    MappedCons(RenderedPart, head, tail);
  }

  lemma FirstIsAcceptable(nfc: Nfc, members: seq<Member>)
    requires members != []
    ensures AreAcceptable(nfc, members) <==>
      IsAcceptable(nfc, members[0].value) && AreAcceptable(nfc, members[1..])
  {
    assert members == [members[0]] + members[1..];
  }

  ghost predicate AreProperMembers(members: seq<Member>) {
    forall i :: 0 <= i < |members| ==> IsProper(members[i].value)
  }

  lemma {:induction false} CanonicalOfParts(nfc: Nfc, members: seq<Member>)
    requires AreProperMembers(members)
    ensures CanonicalParts(nfc, members)
         == if AreAcceptable(nfc, members) then Some(Mapped(RenderedPart, NormalMembers(members))) else None
    decreases members, 1
  {
    if members == [] {
      assert Mapped(RenderedPart, NormalMembers(members)) == [];
    } else {
      CanonicalIsRendered(nfc, members[0].value);
      CanonicalOfParts(nfc, members[1..]);
      FirstIsAcceptable(nfc, members);
      FirstOfParts(members);
      Utf8OfMember(Member(members[0].key, Normal(members[0].value)));
    }
  }

  lemma {:induction false} CanonicalOfItems(nfc: Nfc, items: seq<Json>)
    requires forall i :: 0 <= i < |items| ==> IsProper(items[i])
    ensures var parts := CanonicalItems(nfc, items);
      if forall i :: 0 <= i < |items| ==> IsAcceptable(nfc, items[i]) then
        parts.Some? && |parts.value| == |items| && JoinBytes(parts.value) == Utf8(RenderItems(NormalItems(items)))
      else
        parts.None?
    decreases items, 1
  {
    if items != [] {
      var tail := items[1..];
      CanonicalIsRendered(nfc, items[0]);
      CanonicalOfItems(nfc, tail);
      assert forall i :: 0 <= i < |tail| ==> tail[i] == items[i + 1];
      assert forall i :: 0 < i < |items| ==> items[i] == tail[i - 1];
      if |items| > 1 {
        Utf8Joined(Render(Normal(items[0])), RenderItems(NormalItems(tail)));
        assert NormalItems(items)[1..] == NormalItems(tail);
      }
    }
  }

  lemma ValidKeysAreDistinct(nfc: Nfc, members: seq<Member>)
    requires DistinctTexts(Keys(members))
    requires forall i :: 0 <= i < |members| ==> IsValidText(nfc, members[i].key)
    ensures DistinctTexts(Mapped(nfc, Keys(members)))
  {
    assert Mapped(nfc, Keys(members)) == Keys(members);
  }

  lemma SortedParts(members: seq<Member>)
    ensures SortBy(PartKey, BytesLeq, Mapped(RenderedPart, members))
         == Mapped(RenderedPart, SortBy(MemberKey, BytesLeq, members))
  {
    SortMaps(MemberKey, PartKey, RenderedPart, BytesLeq, members);
  }

  lemma CanonicalOfObject(nfc: Nfc, members: seq<Member>)
    requires IsProper(Obj(members))
    requires CanonicalParts(nfc, members)
          == if AreAcceptable(nfc, members) then Some(Mapped(RenderedPart, NormalMembers(members))) else None
    ensures Canonical(nfc, Obj(members))
         == if IsAcceptable(nfc, Obj(members)) then Some(Utf8(Render(Normal(Obj(members))))) else None
  {
    if forall i :: 0 <= i < |members| ==> IsValidText(nfc, members[i].key) {
      ValidKeysAreDistinct(nfc, members);
      var normal := NormalMembers(members);
      SortedParts(normal);
      var sorted := SortBy(MemberKey, BytesLeq, normal);
      JoinedMembers(sorted);
      Utf8Bracketed(OPEN_BRACE, RenderMembers(sorted), CLOSE_BRACE);
      assert forall i :: 0 <= i < |members| ==> IsValidText(nfc, Keys(members)[i]);
    } else {
      var i :| 0 <= i < |members| && !IsValidText(nfc, members[i].key);
      assert !IsValidText(nfc, Keys(members)[i]);
    }
  }

  /**
   * The encoding succeeds exactly on the acceptable values, and writes the text of the value with the members
   * of every object sorted by the UTF-16 code units of their keys.
   */
  lemma {:induction false} CanonicalIsRendered(nfc: Nfc, v: Json)
    requires IsProper(v)
    ensures Canonical(nfc, v) == if IsAcceptable(nfc, v) then Some(Utf8(Render(Normal(v)))) else None
    decreases v, 0
  {
    match v
    case Obj(members) =>
      CanonicalOfParts(nfc, members);
      CanonicalOfObject(nfc, members);
    case Arr(items) =>
      CanonicalOfItems(nfc, items);
      Utf8Bracketed(OPEN_BRACKET, RenderItems(NormalItems(items)), CLOSE_BRACKET);
    case _ =>
  }
}
