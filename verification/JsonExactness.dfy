/** `parse_json_strict` reads a text as a value exactly if the grammar writes the value that way. */
module JsonExactness {
  import opened Wrappers
  import opened UnicodeText
  import opened CanonicalJson
  import opened JsonParser
  import opened JsonGrammar
  import opened CanonicalRoundTrip
  import opened JsonReading

  // ----- what is written is read -----

  lemma NodeStarts(node: Node)
    requires IsNode(node)
    ensures NodeText(node) != [] && StartsValue(NodeText(node)[0])
  {
    if node.NumberNode? {
      DumpNatIsDecimal(node.number.size);
    }
  }

  /** A delimiter may be preceded by white space. */
  lemma BlankBeforeDelimiter(blank: Text, follow: Text)
    requires IsBlank(blank) && (follow == [] || (Ends(follow) && !IsSpace(follow[0])))
    ensures Ends(blank + follow) && SkipSpace(blank + follow) == follow
  {
    BlankIsSkipped(blank, follow);
  }

  function AfterSlot(slots: seq<Slot>, rest: Text): Text
    requires slots != []
  {
    if |slots| == 1 then [CLOSE_BRACKET] + rest else [COMMA] + (SlotsText(slots[1..]) + ([CLOSE_BRACKET] + rest))
  }

  lemma Regroup4(a: Text, b: Text, c: Text, d: Text)
    ensures a + b + c + d == a + (b + (c + d))
  {
  }

  lemma SlotsSplit(slots: seq<Slot>, rest: Text)
    requires slots != []
    ensures SlotsText(slots) + ([CLOSE_BRACKET] + rest)
         == slots[0].before + (NodeText(slots[0].item) + (slots[0].after + AfterSlot(slots, rest)))
  {
    if |slots| > 1 {
      Regroup4(SlotText(slots[0]), [COMMA], SlotsText(slots[1..]), [CLOSE_BRACKET] + rest);
    }
    Regroup4(slots[0].before, NodeText(slots[0].item), slots[0].after, AfterSlot(slots, rest));
  }

  lemma LastSlot(nfc: Nfc, item: Node, after: Text, rest: Text)
    requires IsBlank(after)
    requires ParseValue(nfc, NodeText(item) + (after + ([CLOSE_BRACKET] + rest)))
          == Parsed(NodeValue(item), after + ([CLOSE_BRACKET] + rest))
    ensures ParseItems(nfc, NodeText(item) + (after + ([CLOSE_BRACKET] + rest))) == Parsed([NodeValue(item)], rest)
  {
    var follow := [CLOSE_BRACKET] + rest;
    BlankIsSkipped(after, follow);
    assert follow[1..] == rest;
  }

  lemma NextSlot(nfc: Nfc, item: Node, after: Text, next: Text, others: seq<Json>, rest: Text)
    requires IsBlank(after)
    requires ParseValue(nfc, NodeText(item) + (after + ([COMMA] + next)))
          == Parsed(NodeValue(item), after + ([COMMA] + next))
    requires ParseItems(nfc, SkipSpace(next)) == Parsed(others, rest)
    ensures ParseItems(nfc, NodeText(item) + (after + ([COMMA] + next))) == Parsed([NodeValue(item)] + others, rest)
  {
    var follow := [COMMA] + next;
    BlankIsSkipped(after, follow);
    ExpectFirst(COMMA, next);
  }

  ghost predicate AreReadable(nfc: Nfc, slots: seq<Slot>) {
    forall i :: 0 <= i < |slots| ==>
      && IsBlank(slots[i].before) && IsNode(slots[i].item) && IsBlank(slots[i].after)
      && PassesHooks(nfc, slots[i].item)
  }

  lemma SlotsValueSplit(slots: seq<Slot>)
    requires slots != []
    ensures SlotsValue(slots) == [NodeValue(slots[0].item)] + SlotsValue(slots[1..])
  {
  }

  lemma {:induction false} SlotsAreRead(nfc: Nfc, slots: seq<Slot>, rest: Text)
    requires slots != [] && AreReadable(nfc, slots)
    ensures ParseItems(nfc, SkipSpace(SlotsText(slots) + ([CLOSE_BRACKET] + rest))) == Parsed(SlotsValue(slots), rest)
    decreases slots, 1
  {
    var item, after, follow := slots[0].item, slots[0].after, AfterSlot(slots, rest);
    SlotsSplit(slots, rest);
    SlotsValueSplit(slots);
    NodeStarts(item);
    BlankIsSkipped(slots[0].before, NodeText(item) + (after + follow));
    BlankBeforeDelimiter(after, follow);
    NodeIsRead(nfc, item, after + follow);
    if |slots| == 1 {
      assert SlotsValue(slots) == [NodeValue(item)];
      LastSlot(nfc, item, after, rest);
    } else {
      SlotsAreRead(nfc, slots[1..], rest);
      NextSlot(nfc, item, after, SlotsText(slots[1..]) + ([CLOSE_BRACKET] + rest), SlotsValue(slots[1..]), rest);
    }
  }

  function AfterField(fields: seq<Field>, rest: Text): Text
    requires fields != []
  {
    if |fields| == 1 then [CLOSE_BRACE] + rest else [COMMA] + (FieldsText(fields[1..]) + ([CLOSE_BRACE] + rest))
  }

  /** A member from its key on, as the parser takes it apart. */
  function FieldFrom(field: Field, follow: Text): Text {
    [QUOTE] + (CharsText(field.key) + ([QUOTE] + (field.middle + ([COLON] + ValueFrom(field, follow)))))
  }

  function ValueFrom(field: Field, follow: Text): Text {
    field.gap + (NodeText(field.value) + (field.after + follow))
  }

  lemma FieldRegroups(field: Field, follow: Text)
    ensures FieldText(field) + follow == field.before + FieldFrom(field, follow)
  {
    var name, value := StringText(field.key), NodeText(field.value);
    var tail := [COLON] + ValueFrom(field, follow);
    assert FieldText(field) + follow == field.before + (name + (field.middle + tail));
    assert name + (field.middle + tail) == FieldFrom(field, follow);
  }

  lemma FieldsSplit(fields: seq<Field>, rest: Text)
    requires fields != []
    ensures FieldsText(fields) + ([CLOSE_BRACE] + rest)
         == fields[0].before + FieldFrom(fields[0], AfterField(fields, rest))
  {
    if |fields| > 1 {
      Regroup4(FieldText(fields[0]), [COMMA], FieldsText(fields[1..]), [CLOSE_BRACE] + rest);
    }
    FieldRegroups(fields[0], AfterField(fields, rest));
  }

  /** The key, the colon and the value of a member, each up to the next token. */
  ghost predicate IsReadAs(nfc: Nfc, t: Text, key: Text, value: Json, follow: Text) {
    && t != [] && t[0] == QUOTE
    && var name := ParseText(t[1..]);
    && name.Parsed? && name.value == key
    && var colon := Expect(name.rest, COLON);
    && colon.Parsed?
    && var body := ParseValue(nfc, SkipSpace(colon.rest));
    && body.Parsed? && body.value == value && SkipSpace(body.rest) == follow
  }

  lemma FieldIsRead(nfc: Nfc, field: Field, follow: Text)
    requires IsFieldFrame(field) && follow != [] && Ends(follow) && !IsSpace(follow[0])
    requires NodeText(field.value) != [] && !IsSpace(NodeText(field.value)[0])
    requires ParseValue(nfc, NodeText(field.value) + (field.after + follow))
          == Parsed(NodeValue(field.value), field.after + follow)
    ensures IsReadAs(nfc, FieldFrom(field, follow), CharsValue(field.key), NodeValue(field.value), follow)
  {
    var tail := [COLON] + ValueFrom(field, follow);
    assert FieldFrom(field, follow)[1..] == CharsText(field.key) + ([QUOTE] + (field.middle + tail));
    StringParses(field.key, field.middle + tail);
    BlankIsSkipped(field.middle, tail);
    assert tail[1..] == ValueFrom(field, follow);
    BlankIsSkipped(field.gap, NodeText(field.value) + (field.after + follow));
    BlankIsSkipped(field.after, follow);
  }

  lemma LastField(nfc: Nfc, t: Text, key: Text, value: Json, rest: Text)
    requires IsReadAs(nfc, t, key, value, [CLOSE_BRACE] + rest)
    ensures ParseMembers(nfc, t) == Parsed([Member(key, value)], rest)
  {
    assert ([CLOSE_BRACE] + rest)[1..] == rest;
  }

  lemma NextField(nfc: Nfc, t: Text, key: Text, value: Json, next: Text, others: seq<Member>, rest: Text)
    requires IsReadAs(nfc, t, key, value, [COMMA] + next)
    requires ParseMembers(nfc, SkipSpace(next)) == Parsed(others, rest)
    ensures ParseMembers(nfc, t) == Parsed([Member(key, value)] + others, rest)
  {
    ExpectFirst(COMMA, next);
  }

  ghost predicate AreReadableFields(nfc: Nfc, fields: seq<Field>) {
    forall i :: 0 <= i < |fields| ==>
      IsFieldFrame(fields[i]) && IsNode(fields[i].value) && PassesHooks(nfc, fields[i].value)
  }

  lemma FieldsValueSplit(fields: seq<Field>)
    requires fields != []
    ensures FieldsValue(fields)
         == [Member(CharsValue(fields[0].key), NodeValue(fields[0].value))] + FieldsValue(fields[1..])
    ensures |fields| == 1 ==> FieldsValue(fields) == [Member(CharsValue(fields[0].key), NodeValue(fields[0].value))]
  {
    var all, tail := FieldsValue(fields), FieldsValue(fields[1..]);
    assert all[0] == Member(CharsValue(fields[0].key), NodeValue(fields[0].value));
    forall i | 0 <= i < |tail|
      ensures tail[i] == all[i + 1]
    {
      assert fields[1..][i] == fields[i + 1];
    }
  }

  lemma {:induction false} FieldsAreRead(nfc: Nfc, fields: seq<Field>, rest: Text)
    requires fields != [] && AreReadableFields(nfc, fields)
    ensures ParseMembers(nfc, SkipSpace(FieldsText(fields) + ([CLOSE_BRACE] + rest)))
         == Parsed(FieldsValue(fields), rest)
    decreases fields, 1
  {
    var field, follow := fields[0], AfterField(fields, rest);
    var t, key, value := FieldFrom(field, follow), CharsValue(field.key), NodeValue(field.value);
    FieldsSplit(fields, rest);
    FieldsValueSplit(fields);
    NodeStarts(field.value);
    BlankIsSkipped(field.before, t);
    BlankBeforeDelimiter(field.after, follow);
    NodeIsRead(nfc, field.value, field.after + follow);
    FieldIsRead(nfc, field, follow);
    if |fields| == 1 {
      LastField(nfc, t, key, value, rest);
    } else {
      FieldsAreRead(nfc, fields[1..], rest);
      NextField(
        nfc, t, key, value, FieldsText(fields[1..]) + ([CLOSE_BRACE] + rest), FieldsValue(fields[1..]), rest);
    }
  }

  lemma EmptyArrayIsRead(nfc: Nfc, blank: Text, rest: Text)
    requires IsBlank(blank)
    ensures ParseValue(nfc, NodeText(ArrayNode(blank, [])) + rest) == Parsed(Arr([]), rest)
  {
    var u := blank + ([CLOSE_BRACKET] + rest);
    assert NodeText(ArrayNode(blank, [])) + rest == [OPEN_BRACKET] + u && ([OPEN_BRACKET] + u)[1..] == u;
    BlankIsSkipped(blank, [CLOSE_BRACKET] + rest);
    assert ([CLOSE_BRACKET] + rest)[1..] == rest;
  }

  lemma ArrayFromItems(nfc: Nfc, u: Text, items: seq<Json>, rest: Text)
    requires SkipSpace(u) != [] && SkipSpace(u)[0] != CLOSE_BRACKET
    requires ParseItems(nfc, SkipSpace(u)) == Parsed(items, rest)
    ensures ParseValue(nfc, [OPEN_BRACKET] + u) == Parsed(Arr(items), rest)
  {
    assert ([OPEN_BRACKET] + u)[1..] == u;
  }

  lemma ArrayRegroups(slots: seq<Slot>, rest: Text)
    ensures NodeText(ArrayNode([], slots)) + rest == [OPEN_BRACKET] + (SlotsText(slots) + ([CLOSE_BRACKET] + rest))
  {
  }

  lemma ArrayIsRead(nfc: Nfc, slots: seq<Slot>, rest: Text)
    requires slots != [] && IsBlank(slots[0].before) && IsNode(slots[0].item)
    requires ParseItems(nfc, SkipSpace(SlotsText(slots) + ([CLOSE_BRACKET] + rest))) == Parsed(SlotsValue(slots), rest)
    ensures ParseValue(nfc, NodeText(ArrayNode([], slots)) + rest) == Parsed(Arr(SlotsValue(slots)), rest)
  {
    ArrayRegroups(slots, rest);
    SlotsSplit(slots, rest);
    NodeStarts(slots[0].item);
    BlankIsSkipped(slots[0].before, NodeText(slots[0].item) + (slots[0].after + AfterSlot(slots, rest)));
    ArrayFromItems(nfc, SlotsText(slots) + ([CLOSE_BRACKET] + rest), SlotsValue(slots), rest);
  }

  lemma DistinctNames(nfc: Nfc, fields: seq<Field>)
    ensures StrictMembers(nfc, FieldsValue(fields))
         == if HasDistinctNames(nfc, fields) then Some(FieldsValue(fields)) else None
  {
    var members := FieldsValue(fields);
    assert forall i :: 0 <= i < |members| ==> Keys(members)[i] == members[i].key == CharsValue(fields[i].key);
  }

  lemma EmptyObjectIsRead(nfc: Nfc, blank: Text, rest: Text)
    requires IsBlank(blank)
    ensures ParseValue(nfc, NodeText(ObjectNode(blank, [])) + rest) == Parsed(Obj([]), rest)
  {
    var u := blank + ([CLOSE_BRACE] + rest);
    assert NodeText(ObjectNode(blank, [])) + rest == [OPEN_BRACE] + u && ([OPEN_BRACE] + u)[1..] == u;
    BlankIsSkipped(blank, [CLOSE_BRACE] + rest);
    assert ([CLOSE_BRACE] + rest)[1..] == rest;
  }

  lemma ObjectFromMembers(nfc: Nfc, u: Text, members: seq<Member>, rest: Text)
    requires SkipSpace(u) != [] && SkipSpace(u)[0] != CLOSE_BRACE
    requires ParseMembers(nfc, SkipSpace(u)) == Parsed(members, rest)
    requires StrictMembers(nfc, members) == Some(members)
    ensures ParseValue(nfc, [OPEN_BRACE] + u) == Parsed(Obj(members), rest)
  {
    assert ([OPEN_BRACE] + u)[1..] == u;
  }

  lemma ObjectRegroups(fields: seq<Field>, rest: Text)
    ensures NodeText(ObjectNode([], fields)) + rest == [OPEN_BRACE] + (FieldsText(fields) + ([CLOSE_BRACE] + rest))
  {
  }

  lemma ObjectIsRead(nfc: Nfc, fields: seq<Field>, rest: Text)
    requires fields != [] && IsBlank(fields[0].before) && HasDistinctNames(nfc, fields)
    requires ParseMembers(nfc, SkipSpace(FieldsText(fields) + ([CLOSE_BRACE] + rest)))
          == Parsed(FieldsValue(fields), rest)
    ensures ParseValue(nfc, NodeText(ObjectNode([], fields)) + rest) == Parsed(Obj(FieldsValue(fields)), rest)
  {
    ObjectRegroups(fields, rest);
    FieldsSplit(fields, rest);
    BlankIsSkipped(fields[0].before, FieldFrom(fields[0], AfterField(fields, rest)));
    DistinctNames(nfc, fields);
    ObjectFromMembers(nfc, FieldsText(fields) + ([CLOSE_BRACE] + rest), FieldsValue(fields), rest);
  }

  lemma WordIsRead(nfc: Nfc, word: Json, rest: Text)
    requires word.Null? || word.Bool?
    ensures ParseValue(nfc, WordText(word) + rest) == Parsed(word, rest)
  {
    WordIsParsed(nfc, word, rest);
  }

  lemma StringIsRead(nfc: Nfc, chars: seq<Char>, rest: Text)
    requires IsString(chars)
    ensures ParseValue(nfc, StringText(chars) + rest) == Parsed(Str(CharsValue(chars)), rest)
  {
    var u := CharsText(chars) + ([QUOTE] + rest);
    StringParses(chars, rest);
    assert StringText(chars) + rest == [QUOTE] + u && ([QUOTE] + u)[1..] == u;
  }

  /** What the grammar writes is read, up to the delimiter that comes next. */
  lemma {:induction false} NodeIsRead(nfc: Nfc, node: Node, rest: Text)
    requires IsNode(node) && PassesHooks(nfc, node) && Ends(rest)
    ensures ParseValue(nfc, NodeText(node) + rest) == Parsed(NodeValue(node), rest)
    decreases node, 0
  {
    match node
    case WordNode(word) => WordIsRead(nfc, word, rest);
    case NumberNode(number) => NumberIsRead(nfc, number, rest);
    case StringNode(chars) => StringIsRead(nfc, chars, rest);
    case ArrayNode(blank, slots) =>
      if slots == [] {
        EmptyArrayIsRead(nfc, blank, rest);
        assert SlotsValue(slots) == [];
      } else {
        SlotsAreRead(nfc, slots, rest);
        ArrayIsRead(nfc, slots, rest);
      }
    case ObjectNode(blank, fields) =>
      if fields == [] {
        EmptyObjectIsRead(nfc, blank, rest);
        assert FieldsValue(fields) == [];
      } else {
        FieldsAreRead(nfc, fields, rest);
        ObjectIsRead(nfc, fields, rest);
      }
  }

  // ----- what is read is written -----

  /** The tree of a value that was read off the front of the text. */
  ghost predicate IsTreeOf(nfc: Nfc, t: Text, node: Node, v: Json, rest: Text) {
    IsNode(node) && PassesHooks(nfc, node) && NodeValue(node) == v && t == NodeText(node) + rest
  }

  ghost predicate AreSlotsOf(nfc: Nfc, t: Text, slots: seq<Slot>, items: seq<Json>, rest: Text) {
    && slots != [] && slots[0].before == [] && AreReadable(nfc, slots)
    && SlotsValue(slots) == items && t == SlotsText(slots) + ([CLOSE_BRACKET] + rest)
  }

  ghost predicate AreFieldsOf(nfc: Nfc, t: Text, fields: seq<Field>, members: seq<Member>, rest: Text) {
    && fields != [] && fields[0].before == [] && AreReadableFields(nfc, fields)
    && FieldsValue(fields) == members && t == FieldsText(fields) + ([CLOSE_BRACE] + rest)
  }

  lemma SlotsMoved(slots: seq<Slot>, blank: Text, rest: Text) returns (moved: seq<Slot>)
    requires slots != [] && slots[0].before == []
    ensures moved == [slots[0].(before := blank)] + slots[1..]
    ensures SlotsText(moved) + ([CLOSE_BRACKET] + rest) == blank + (SlotsText(slots) + ([CLOSE_BRACKET] + rest))
    ensures SlotsValue(moved) == SlotsValue(slots)
  {
    moved := [slots[0].(before := blank)] + slots[1..];
    assert moved[1..] == slots[1..];
    var tail := NodeText(slots[0].item) + (slots[0].after + AfterSlot(slots, rest));
    SlotsSplit(slots, rest);
    assert [] + tail == tail;
    SlotsSplit(moved, rest);
    SlotsValueSplit(slots);
    SlotsValueSplit(moved);
  }

  /** The white space in front of the first slot is as good as any. */
  lemma SlotsIndented(nfc: Nfc, t: Text, slots: seq<Slot>, items: seq<Json>, rest: Text, blank: Text)
    returns (moved: seq<Slot>)
    requires AreSlotsOf(nfc, t, slots, items, rest) && IsBlank(blank)
    ensures moved != [] && AreReadable(nfc, moved) && SlotsValue(moved) == items
    ensures blank + t == SlotsText(moved) + ([CLOSE_BRACKET] + rest)
  {
    moved := SlotsMoved(slots, blank, rest);
    assert forall i :: 1 <= i < |moved| ==> moved[i] == slots[i];
  }

  lemma SlotRead(
      nfc: Nfc, t: Text, item: Node, after: Text, v: Json, others: seq<Slot>, items: seq<Json>, next: Text, rest: Text)
    returns (slots: seq<Slot>)
    requires IsTreeOf(nfc, t, item, v, after + ([COMMA] + next)) && IsBlank(after)
    requires others != [] && AreReadable(nfc, others) && SlotsValue(others) == items
    requires next == SlotsText(others) + ([CLOSE_BRACKET] + rest)
    ensures AreSlotsOf(nfc, t, slots, [v] + items, rest)
  {
    slots := [Slot([], item, after)] + others;
    assert slots[1..] == others;
    SlotsSplit(slots, rest);
    SlotsValueSplit(slots);
  }

  lemma LastSlotRead(nfc: Nfc, t: Text, item: Node, after: Text, v: Json, rest: Text) returns (slots: seq<Slot>)
    requires IsTreeOf(nfc, t, item, v, after + ([CLOSE_BRACKET] + rest)) && IsBlank(after)
    ensures AreSlotsOf(nfc, t, slots, [v], rest)
  {
    slots := [Slot([], item, after)];
    SlotsSplit(slots, rest);
    SlotsValueSplit(slots);
    assert SlotsValue(slots[1..]) == [];
  }

  lemma ExpectedIs(t: Text, c: CodePoint) returns (blank: Text)
    requires Expect(t, c).Parsed?
    ensures IsBlank(blank) && t == blank + ([c] + Expect(t, c).rest)
  {
    blank := SkippedIsBlank(t);
    assert SkipSpace(t) == [c] + SkipSpace(t)[1..];
  }

  lemma {:induction false} ItemsHaveTrees(nfc: Nfc, t: Text) returns (slots: seq<Slot>)
    requires ParseItems(nfc, t).Parsed?
    ensures AreSlotsOf(nfc, t, slots, ParseItems(nfc, t).value, ParseItems(nfc, t).rest)
    decreases |t|, 1
  {
    var first := ParseValue(nfc, t);
    var item := ValueHasTree(nfc, t);
    var after := SkippedIsBlank(first.rest);
    var u, rest := SkipSpace(first.rest), ParseItems(nfc, t).rest;
    if u != [] && u[0] == CLOSE_BRACKET {
      assert u == [CLOSE_BRACKET] + rest;
      slots := LastSlotRead(nfc, t, item, after, first.value, rest);
    } else {
      var next := Expect(u, COMMA).rest;
      assert SkipSpace(u) == u == [COMMA] + next;
      var blank := SkippedIsBlank(next);
      var others := ItemsHaveTrees(nfc, SkipSpace(next));
      var items := ParseItems(nfc, SkipSpace(next)).value;
      others := SlotsIndented(nfc, SkipSpace(next), others, items, rest, blank);
      slots := SlotRead(nfc, t, item, after, first.value, others, items, next, rest);
    }
  }

  lemma FieldsMoved(fields: seq<Field>, blank: Text, rest: Text) returns (moved: seq<Field>)
    requires fields != [] && fields[0].before == []
    ensures moved == [fields[0].(before := blank)] + fields[1..]
    ensures FieldsText(moved) + ([CLOSE_BRACE] + rest) == blank + (FieldsText(fields) + ([CLOSE_BRACE] + rest))
    ensures FieldsValue(moved) == FieldsValue(fields)
  {
    moved := [fields[0].(before := blank)] + fields[1..];
    assert moved[1..] == fields[1..];
    var tail := FieldFrom(fields[0], AfterField(fields, rest));
    FieldsSplit(fields, rest);
    assert [] + tail == tail;
    FieldsSplit(moved, rest);
    FieldsValueSplit(fields);
    FieldsValueSplit(moved);
  }

  lemma FieldsIndented(nfc: Nfc, t: Text, fields: seq<Field>, members: seq<Member>, rest: Text, blank: Text)
    returns (moved: seq<Field>)
    requires AreFieldsOf(nfc, t, fields, members, rest) && IsBlank(blank)
    ensures moved != [] && AreReadableFields(nfc, moved) && FieldsValue(moved) == members
    ensures blank + t == FieldsText(moved) + ([CLOSE_BRACE] + rest)
  {
    moved := FieldsMoved(fields, blank, rest);
    assert forall i :: 1 <= i < |moved| ==> moved[i] == fields[i];
  }

  lemma FieldRead(
      nfc: Nfc, t: Text, field: Field, member: Member, others: seq<Field>, members: seq<Member>, next: Text, rest: Text)
    returns (fields: seq<Field>)
    requires IsFieldFrame(field) && IsNode(field.value) && PassesHooks(nfc, field.value) && field.before == []
    requires member == Member(CharsValue(field.key), NodeValue(field.value))
    requires t == FieldFrom(field, [COMMA] + next)
    requires others != [] && AreReadableFields(nfc, others) && FieldsValue(others) == members
    requires next == FieldsText(others) + ([CLOSE_BRACE] + rest)
    ensures AreFieldsOf(nfc, t, fields, [member] + members, rest)
  {
    fields := [field] + others;
    assert fields[1..] == others;
    FieldsSplit(fields, rest);
    FieldsValueSplit(fields);
  }

  lemma NextFieldRead(
      nfc: Nfc, t: Text, field: Field, member: Member, others: seq<Field>, members: seq<Member>, next: Text, rest: Text)
    returns (fields: seq<Field>)
    requires IsFieldFrame(field) && IsNode(field.value) && PassesHooks(nfc, field.value) && field.before == []
    requires member == Member(CharsValue(field.key), NodeValue(field.value))
    requires t == FieldFrom(field, [COMMA] + next)
    requires AreFieldsOf(nfc, SkipSpace(next), others, members, rest)
    ensures AreFieldsOf(nfc, t, fields, [member] + members, rest)
  {
    var blank := SkippedIsBlank(next);
    var moved := FieldsIndented(nfc, SkipSpace(next), others, members, rest, blank);
    fields := FieldRead(nfc, t, field, member, moved, members, next, rest);
  }

  lemma LastFieldRead(nfc: Nfc, t: Text, field: Field, member: Member, rest: Text) returns (fields: seq<Field>)
    requires IsFieldFrame(field) && IsNode(field.value) && PassesHooks(nfc, field.value) && field.before == []
    requires member == Member(CharsValue(field.key), NodeValue(field.value))
    requires t == FieldFrom(field, [CLOSE_BRACE] + rest)
    ensures AreFieldsOf(nfc, t, fields, [member], rest)
  {
    fields := [field];
    FieldsSplit(fields, rest);
    FieldsValueSplit(fields);
  }

  /** The key of a member and what stands between it and the value. */
  lemma KeyRead(t: Text) returns (key: seq<Char>, middle: Text, gap: Text, value: Text)
    requires t != [] && t[0] == QUOTE && ParseText(t[1..]).Parsed?
    requires Expect(ParseText(t[1..]).rest, COLON).Parsed?
    ensures IsString(key) && IsBlank(middle) && IsBlank(gap)
    ensures CharsValue(key) == ParseText(t[1..]).value
    ensures value == SkipSpace(Expect(ParseText(t[1..]).rest, COLON).rest) && |value| < |t|
    ensures t == [QUOTE] + (CharsText(key) + ([QUOTE] + (middle + ([COLON] + (gap + value)))))
  {
    var name := ParseText(t[1..]).rest;
    var colon := Expect(name, COLON).rest;
    key := StringRead(t[1..]);
    middle := ExpectedIs(name, COLON);
    gap := SkippedIsBlank(colon);
    value := SkipSpace(colon);
    assert t == [QUOTE] + t[1..];
  }

  /** A key and the value that was read after it are a field, up to the next token. */
  lemma FieldSeen(
      nfc: Nfc, t: Text, key: seq<Char>, middle: Text, gap: Text, text: Text, node: Node, v: Json, rest: Text)
    returns (field: Field)
    requires t == [QUOTE] + (CharsText(key) + ([QUOTE] + (middle + ([COLON] + (gap + text)))))
    requires IsString(key) && IsBlank(middle) && IsBlank(gap) && IsTreeOf(nfc, text, node, v, rest)
    ensures IsFieldFrame(field) && IsNode(field.value) && PassesHooks(nfc, field.value) && field.before == []
    ensures CharsValue(field.key) == CharsValue(key) && NodeValue(field.value) == v
    ensures t == FieldFrom(field, SkipSpace(rest))
  {
    var after := SkippedIsBlank(rest);
    field := Field([], key, middle, gap, node, after);
  }

  lemma {:induction false} MembersHaveTrees(nfc: Nfc, t: Text) returns (fields: seq<Field>)
    requires ParseMembers(nfc, t).Parsed?
    ensures AreFieldsOf(nfc, t, fields, ParseMembers(nfc, t).value, ParseMembers(nfc, t).rest)
    decreases |t|, 1
  {
    var key, middle, gap, text := KeyRead(t);
    var body := ParseValue(nfc, text);
    var node := ValueHasTree(nfc, text);
    var field := FieldSeen(nfc, t, key, middle, gap, text, node, body.value, body.rest);
    var u, rest := SkipSpace(body.rest), ParseMembers(nfc, t).rest;
    var member := Member(CharsValue(key), body.value);
    if u != [] && u[0] == CLOSE_BRACE {
      assert u == [CLOSE_BRACE] + rest;
      fields := LastFieldRead(nfc, t, field, member, rest);
    } else {
      assert SkipSpace(u) == u;
      var next := Expect(u, COMMA).rest;
      assert u == [COMMA] + next;
      var others := MembersHaveTrees(nfc, SkipSpace(next));
      fields := NextFieldRead(
        nfc, t, field, member, others, ParseMembers(nfc, SkipSpace(next)).value, next, rest);
    }
  }

  lemma EmptyArrayRead(nfc: Nfc, t: Text, blank: Text, rest: Text) returns (node: Node)
    requires IsBlank(blank) && t == [OPEN_BRACKET] + (blank + ([CLOSE_BRACKET] + rest))
    ensures IsTreeOf(nfc, t, node, Arr([]), rest)
  {
    node := ArrayNode(blank, []);
    assert SlotsValue([]) == [];
    assert NodeText(node) == [OPEN_BRACKET] + blank + [] + [CLOSE_BRACKET];
  }

  lemma EmptyObjectRead(nfc: Nfc, t: Text, blank: Text, rest: Text) returns (node: Node)
    requires IsBlank(blank) && t == [OPEN_BRACE] + (blank + ([CLOSE_BRACE] + rest))
    ensures IsTreeOf(nfc, t, node, Obj([]), rest)
  {
    node := ObjectNode(blank, []);
    assert FieldsValue([]) == [];
    assert NodeText(node) == [OPEN_BRACE] + blank + [] + [CLOSE_BRACE];
  }

  lemma ItemsRead(nfc: Nfc, t: Text, blank: Text, u: Text, slots: seq<Slot>, items: seq<Json>, rest: Text)
    returns (node: Node)
    requires t == [OPEN_BRACKET] + (blank + u) && IsBlank(blank) && AreSlotsOf(nfc, u, slots, items, rest)
    ensures IsTreeOf(nfc, t, node, Arr(items), rest)
  {
    var moved := SlotsIndented(nfc, u, slots, items, rest, blank);
    ArrayRegroups(moved, rest);
    node := ArrayNode([], moved);
  }

  lemma MembersRead(nfc: Nfc, t: Text, blank: Text, u: Text, fields: seq<Field>, members: seq<Member>, rest: Text)
    returns (node: Node)
    requires t == [OPEN_BRACE] + (blank + u) && IsBlank(blank) && AreFieldsOf(nfc, u, fields, members, rest)
    requires StrictMembers(nfc, members).Some?
    ensures IsTreeOf(nfc, t, node, Obj(members), rest)
  {
    var moved := FieldsIndented(nfc, u, fields, members, rest, blank);
    DistinctNames(nfc, moved);
    ObjectRegroups(moved, rest);
    node := ObjectNode([], moved);
  }

  lemma WordRead(nfc: Nfc, t: Text, word: Json) returns (node: Node)
    requires (word.Null? || word.Bool?) && StartsWith(t, WordText(word))
    ensures IsTreeOf(nfc, t, node, word, t[|WordText(word)|..])
  {
    node := WordNode(word);
  }

  lemma QuotedRead(nfc: Nfc, t: Text) returns (node: Node)
    requires t != [] && t[0] == QUOTE && ParseText(t[1..]).Parsed?
    ensures IsTreeOf(nfc, t, node, Str(ParseText(t[1..]).value), ParseText(t[1..]).rest)
  {
    var chars := StringRead(t[1..]);
    node := StringNode(chars);
    assert t == [QUOTE] + t[1..];
  }

  lemma ScalarRead(nfc: Nfc, t: Text) returns (node: Node)
    requires ParseValue(nfc, t).Parsed? && t[0] != OPEN_BRACE && t[0] != OPEN_BRACKET
    ensures IsTreeOf(nfc, t, node, ParseValue(nfc, t).value, ParseValue(nfc, t).rest)
  {
    if t[0] == QUOTE {
      node := QuotedRead(nfc, t);
    } else if StartsWith(t, NULL_TEXT) {
      node := WordRead(nfc, t, Null);
    } else if StartsWith(t, TRUE_TEXT) {
      node := WordRead(nfc, t, Bool(true));
    } else if StartsWith(t, FALSE_TEXT) {
      node := WordRead(nfc, t, Bool(false));
    } else {
      var number := IntegerRead(t);
      node := NumberNode(number);
    }
  }

  /** What is read off the front of a text is a value that the grammar writes there. */
  lemma {:induction false} ValueHasTree(nfc: Nfc, t: Text) returns (node: Node)
    requires ParseValue(nfc, t).Parsed?
    ensures IsTreeOf(nfc, t, node, ParseValue(nfc, t).value, ParseValue(nfc, t).rest)
    decreases |t|, 0
  {
    if t[0] == OPEN_BRACE {
      var blank := SkippedIsBlank(t[1..]);
      var u := SkipSpace(t[1..]);
      assert t == [OPEN_BRACE] + (blank + u);
      if u != [] && u[0] == CLOSE_BRACE {
        assert u == [CLOSE_BRACE] + u[1..];
        node := EmptyObjectRead(nfc, t, blank, u[1..]);
      } else {
        var fields := MembersHaveTrees(nfc, u);
        node := MembersRead(nfc, t, blank, u, fields, ParseMembers(nfc, u).value, ParseMembers(nfc, u).rest);
      }
    } else if t[0] == OPEN_BRACKET {
      var blank := SkippedIsBlank(t[1..]);
      var u := SkipSpace(t[1..]);
      assert t == [OPEN_BRACKET] + (blank + u);
      if u != [] && u[0] == CLOSE_BRACKET {
        assert u == [CLOSE_BRACKET] + u[1..];
        node := EmptyArrayRead(nfc, t, blank, u[1..]);
      } else {
        var slots := ItemsHaveTrees(nfc, u);
        node := ItemsRead(nfc, t, blank, u, slots, ParseItems(nfc, u).value, ParseItems(nfc, u).rest);
      }
    } else {
      node := ScalarRead(nfc, t);
    }
  }

  // ----- the whole text -----

  lemma DocumentIsRead(nfc: Nfc, d: Document)
    requires d.IsWritten() && PassesHooks(nfc, d.node)
    ensures ParseStrict(nfc, d.Written()) == Some(NodeValue(d.node))
  {
    var t := NodeText(d.node) + d.after;
    assert d.Written() == d.before + t;
    NodeStarts(d.node);
    BlankIsSkipped(d.before, t);
    NodeIsRead(nfc, d.node, d.after);
    BlankIsSkipped(d.after, []);
    assert d.after + [] == d.after;
  }

  lemma DocumentRead(nfc: Nfc, t: Text) returns (d: Document)
    requires ParseStrict(nfc, t).Some?
    ensures d.IsWritten() && d.Written() == t
    ensures PassesHooks(nfc, d.node) && Some(NodeValue(d.node)) == ParseStrict(nfc, t)
  {
    var before := SkippedIsBlank(t);
    var node := ValueHasTree(nfc, SkipSpace(t));
    var rest := ParseValue(nfc, SkipSpace(t)).rest;
    var after := SkippedIsBlank(rest);
    assert rest == after;
    assert before + (NodeText(node) + after) == before + NodeText(node) + after;
    d := Document(before, node, after);
  }

  /**
   * The parser returns a value exactly if the text is one of the ways to write that value, alone and with any
   * white space around every token, and the hooks for objects and numbers let it pass.
   */
  lemma ParseIsExact(nfc: Nfc, t: Text, v: Json)
    ensures ParseStrict(nfc, t) == Some(v) <==> Writes(nfc, t, v)
  {
    if d: Document :| d.IsWritten() && d.Written() == t && NodeValue(d.node) == v && PassesHooks(nfc, d.node) {
      DocumentIsRead(nfc, d);
    }
    if ParseStrict(nfc, t) == Some(v) {
      var d := DocumentRead(nfc, t);
    }
  }
}
