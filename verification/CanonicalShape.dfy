/** The canonical text without its algorithm: sorted members, and the shortest way to write the value. */
module CanonicalShape {
  import opened Wrappers
  import opened Ordering
  import opened UnicodeText
  import opened CanonicalJson
  import opened CanonicalForm
  import opened CanonicalEquality
  import opened JsonParser
  import opened JsonGrammar
  import opened JsonReading
  import opened JsonExactness

  // ----- sorted members -----

  /** Different keys in order by their UTF-16 code units. */
  ghost predicate IsKeyBefore(a: Text, b: Text) {
    a != b && InDictionaryOrder(UnitLeq, Units(a), Units(b))
  }

  ghost predicate HasSortedKeys(members: seq<Member>) {
    forall i, j :: 0 <= i < j < |members| ==> IsKeyBefore(members[i].key, members[j].key)
  }

  /** The members of every object, at every depth, are sorted by key. */
  ghost predicate HasSortedMembers(v: Json) {
    match v
    case Arr(items) => forall i :: 0 <= i < |items| ==> HasSortedMembers(items[i])
    case Obj(members) =>
      HasSortedKeys(members) && forall i :: 0 <= i < |members| ==> HasSortedMembers(members[i].value)
    case _ => true
  }

  lemma SortedKeysByBytes(nfc: Nfc, members: seq<Member>)
    requires AreEncodable(nfc, members)
    ensures HasSortedKeys(members) <==> IsSorted(MemberKey, BytesLeq, members)
  {
    forall i, j | 0 <= i < j < |members|
      ensures IsKeyBefore(members[i].key, members[j].key) <==> BytesLeq(MemberKey(members[i]), MemberKey(members[j]))
    {
      SortKeyOrder(members[i].key, members[j].key);
    }
  }

  lemma SortedMembersOfNormal(nfc: Nfc, members: seq<Member>)
    requires AreEncodable(nfc, members) && forall i :: 0 <= i < |members| ==> HasSortedMembers(members[i].value)
    ensures HasSortedMembers(Obj(SortBy(MemberKey, BytesLeq, members)))
  {
    var sorted := SortBy(MemberKey, BytesLeq, members);
    SortedIsEncodable(nfc, members);
    BytesOrder();
    SortSorts(MemberKey, BytesLeq, members);
    SortedKeysByBytes(nfc, sorted);
    SortPermutes(MemberKey, BytesLeq, members);
    forall i | 0 <= i < |sorted|
      ensures HasSortedMembers(sorted[i].value)
    {
      assert sorted[i] in multiset(sorted);
      assert sorted[i] in members;
    }
  }

  lemma {:induction false} NormalIsSorted(nfc: Nfc, v: Json)
    requires IsEncodable(nfc, v)
    ensures HasSortedMembers(Normal(v))
    decreases v
  {
    match v
    case Obj(members) =>
      EncodableMembers(nfc, members);
      var normal := NormalMembers(members);
      forall i | 0 <= i < |members|
        ensures IsEncodable(nfc, normal[i].value) && HasSortedMembers(normal[i].value)
      {
        NormalIsEncodable(nfc, members[i].value);
        NormalIsSorted(nfc, members[i].value);
      }
      SortedMembersOfNormal(nfc, normal);
    case Arr(items) =>
      forall i | 0 <= i < |items|
        ensures HasSortedMembers(Normal(items[i]))
      {
        assert IsEncodable(nfc, items[i]);
        NormalIsSorted(nfc, items[i]);
      }
    case _ =>
  }

  /** A value whose members are sorted is its own normal form. */
  lemma {:induction false} SortedIsNormal(nfc: Nfc, v: Json)
    requires IsEncodable(nfc, v) && HasSortedMembers(v)
    ensures Normal(v) == v
    decreases v
  {
    match v
    case Obj(members) =>
      EncodableMembers(nfc, members);
      forall i | 0 <= i < |members|
        ensures NormalMembers(members)[i] == members[i]
      {
        SortedIsNormal(nfc, members[i].value);
      }
      assert NormalMembers(members) == members;
      SortedKeysByBytes(nfc, members);
      SortedIsFixed(MemberKey, BytesLeq, members);
    case Arr(items) =>
      forall i | 0 <= i < |items|
        ensures NormalItems(items)[i] == items[i]
      {
        assert IsEncodable(nfc, items[i]);
        SortedIsNormal(nfc, items[i]);
      }
      assert NormalItems(items) == items;
    case _ =>
  }

  /** The value `w` is `v` with sorted members and is written as `bytes`. */
  ghost predicate IsSortedForm(nfc: Nfc, w: Json, v: Json, bytes: seq<Byte>) {
    IsEncodable(nfc, w) && SameValue(w, v) && HasSortedMembers(w) && bytes == Utf8(Render(w))
  }

  /**
   * The canonical bytes are the compact text of the same value with its members sorted by UTF-16 code units at
   * every depth, and there is only one such value.
   */
  lemma CanonicalIsSortedText(nfc: Nfc, v: Json, bytes: seq<Byte>)
    requires IsProper(v)
    ensures Canonical(nfc, v) == Some(bytes) <==> IsAcceptable(nfc, v) && exists w :: IsSortedForm(nfc, w, v, bytes)
  {
    CanonicalIsRendered(nfc, v);
    if IsAcceptable(nfc, v) {
      NormalIsEncodable(nfc, v);
      NormalIsSorted(nfc, v);
      NormalTwice(v);
      SameNormalSameValue(Normal(v), v);
      assert IsSortedForm(nfc, Normal(v), v, Utf8(Render(Normal(v))));
      if w :| IsSortedForm(nfc, w, v, bytes) {
        SameValuesNormalize(nfc, w, v);
        SortedIsNormal(nfc, w);
      }
    }
  }

  // ----- what is read can be encoded -----

  /** All strings and keys, at every depth, are normalised and free of surrogates. */
  predicate HasValidTexts(nfc: Nfc, v: Json) {
    match v
    case Str(text) => IsValidText(nfc, text)
    case Arr(items) => forall i :: 0 <= i < |items| ==> HasValidTexts(nfc, items[i])
    case Obj(members) =>
      forall i :: 0 <= i < |members| ==>
        IsValidText(nfc, members[i].key) && HasValidTexts(nfc, members[i].value)
    case _ => true
  }

  lemma {:induction false} AcceptableBySafety(nfc: Nfc, v: Json)
    ensures IsAcceptable(nfc, v) <==> HasSafeNumbers(v) && HasValidTexts(nfc, v)
  {
    match v
    case Arr(items) =>
      forall i | 0 <= i < |items|
        ensures IsAcceptable(nfc, items[i]) <==> HasSafeNumbers(items[i]) && HasValidTexts(nfc, items[i])
      {
        AcceptableBySafety(nfc, items[i]);
      }
    case Obj(members) =>
      forall i | 0 <= i < |members|
        ensures IsAcceptable(nfc, members[i].value) <==>
          HasSafeNumbers(members[i].value) && HasValidTexts(nfc, members[i].value)
      {
        AcceptableBySafety(nfc, members[i].value);
      }
    case _ =>
  }

  /** Of what the strict parser reads, only texts can keep a value from being encoded. */
  lemma ReadIsEncodable(nfc: Nfc, t: Text)
    requires ParseStrict(nfc, t).Some?
    ensures Canonical(nfc, ParseStrict(nfc, t).value).Some? <==> HasValidTexts(nfc, ParseStrict(nfc, t).value)
  {
    var v := ParseStrict(nfc, t).value;
    ReadIsGood(nfc, t);
    CanonicalIsRendered(nfc, v);
    AcceptableBySafety(nfc, v);
  }

  // ----- the shortest text -----

  /**
   * No way to write a character is shorter than the canonical one, and one of the same length differs at most in
   * the case of hexadecimal digits, which the canonical one writes in lower case.
   */
  lemma CharIsShortest(ch: Char)
    requires ch.IsWritten()
    ensures var canonical := Escape(ch.Value());
      && |canonical| <= |ch.Written()|
      && (|canonical| == |ch.Written()| ==> ch.Written() == canonical || ch.Escaped?)
      && (|canonical| > 1 ==> forall c :: c in canonical ==> !(0x41 <= c <= 0x46))
  {
  }

  lemma {:induction false} StringIsShortest(chars: seq<Char>)
    requires IsString(chars)
    ensures |EscapeAll(CharsValue(chars))| <= |CharsText(chars)|
  {
    if chars != [] {
      TailIsString(chars);
      StringIsShortest(chars[1..]);
      CharIsShortest(chars[0]);
      assert CharsValue(chars)[1..] == CharsValue(chars[1..]);
    }
  }

  lemma {:induction false} SlotsAreShortest(nfc: Nfc, slots: seq<Slot>)
    requires AreReadable(nfc, slots)
    ensures |RenderItems(SlotsValue(slots))| <= |SlotsText(slots)|
    decreases slots, 1
  {
    if slots != [] {
      SlotsValueSplit(slots);
      NodeIsShortest(nfc, slots[0].item);
      SlotsAreShortest(nfc, slots[1..]);
    }
  }

  lemma {:induction false} FieldsAreShortest(nfc: Nfc, fields: seq<Field>)
    requires AreReadableFields(nfc, fields)
    ensures |RenderMembers(FieldsValue(fields))| <= |FieldsText(fields)|
    decreases fields, 1
  {
    if fields != [] {
      FieldsValueSplit(fields);
      StringIsShortest(fields[0].key);
      NodeIsShortest(nfc, fields[0].value);
      FieldsAreShortest(nfc, fields[1..]);
    }
  }

  lemma {:induction false} NodeIsShortest(nfc: Nfc, node: Node)
    requires IsNode(node) && PassesHooks(nfc, node)
    ensures |Render(NodeValue(node))| <= |NodeText(node)|
    decreases node, 0
  {
    match node
    case StringNode(chars) => StringIsShortest(chars);
    case ArrayNode(_, slots) => SlotsAreShortest(nfc, slots);
    case ObjectNode(_, fields) => FieldsAreShortest(nfc, fields);
    case _ =>
  }

  lemma {:induction false} InsertKeepsLength(m: Member, members: seq<Member>)
    ensures |RenderMembers(Insert(MemberKey, BytesLeq, m, members))| == |RenderMembers([m] + members)|
  {
    if members != [] && !BytesLeq(MemberKey(m), MemberKey(members[0])) {
      InsertKeepsLength(m, members[1..]);
      var rest := Insert(MemberKey, BytesLeq, m, members[1..]);
      assert ([members[0]] + rest)[1..] == rest;
      assert ([m] + members)[1..] == members && ([m] + members[1..])[1..] == members[1..];
    }
  }

  lemma {:induction false} SortKeepsLength(members: seq<Member>)
    ensures |RenderMembers(SortBy(MemberKey, BytesLeq, members))| == |RenderMembers(members)|
  {
    if members != [] {
      var sorted := SortBy(MemberKey, BytesLeq, members[1..]);
      SortKeepsLength(members[1..]);
      InsertKeepsLength(members[0], sorted);
      SortPermutes(MemberKey, BytesLeq, members[1..]);
      assert ([members[0]] + sorted)[1..] == sorted;
    }
  }

  lemma {:induction false} NormalMembersKeepLength(members: seq<Member>)
    ensures |RenderMembers(NormalMembers(members))| == |RenderMembers(members)|
    decreases members, 1
  {
    if members != [] {
      NormalKeepsLength(members[0].value);
      NormalMembersKeepLength(members[1..]);
      assert NormalMembers(members)[1..] == NormalMembers(members[1..]);
    }
  }

  lemma {:induction false} NormalItemsKeepLength(items: seq<Json>)
    ensures |RenderItems(NormalItems(items))| == |RenderItems(items)|
    decreases items, 1
  {
    if items != [] {
      NormalKeepsLength(items[0]);
      NormalItemsKeepLength(items[1..]);
      assert NormalItems(items)[1..] == NormalItems(items[1..]);
    }
  }

  lemma {:induction false} NormalKeepsLength(v: Json)
    ensures |Render(Normal(v))| == |Render(v)|
    decreases v, 0
  {
    match v
    case Obj(members) =>
      NormalMembersKeepLength(members);
      SortKeepsLength(NormalMembers(members));
    case Arr(items) => NormalItemsKeepLength(items);
    case _ =>
  }

  /**
   * Of all texts that the strict parser reads as a value with this canonical encoding, in whatever order of
   * members, none is shorter than the canonical one.
   */
  lemma CanonicalIsShortest(nfc: Nfc, v: Json, t: Text)
    requires IsProper(v) && Canonical(nfc, v).Some?
    requires ParseStrict(nfc, t).Some? && Canonical(nfc, ParseStrict(nfc, t).value) == Canonical(nfc, v)
    ensures DecodeUtf8(Canonical(nfc, v).value).Some? && |DecodeUtf8(Canonical(nfc, v).value).value| <= |t|
  {
    var w := ParseStrict(nfc, t).value;
    ReadIsGood(nfc, t);
    CanonicalDecidesEquality(nfc, w, v);
    CanonicalIsRendered(nfc, v);
    CanonicalIsRendered(nfc, w);
    SameValuesNormalize(nfc, w, v);
    CanonicalBytesReadBack(nfc, v);
    var d := DocumentRead(nfc, t);
    NodeIsShortest(nfc, d.node);
    NormalKeepsLength(w);
  }
}
