/**
 * Stable array views of `scripts/validate_governance_state.py`: arrays that providers return in any order are
 * sorted by a schema's key, with the canonical bytes of the whole item as the last tie-break.
 */
module StableOrder {
  import opened Wrappers
  import opened Ordering
  import opened UnicodeText
  import opened CanonicalJson

  /** A key component, in order of its tag: an integer, a UTF-16 code string, or a whole item's bytes. */
  datatype Component = Number(number: int) | Code(code: seq<Byte>) | Whole(bytes: seq<Byte>)

  type OrderKey = seq<Component>

  predicate ComponentLeq(a: Component, b: Component) {
    match (a, b)
    case (Number(x), Number(y)) => x <= y
    case (Code(x), Code(y)) => BytesLeq(x, y)
    case (Whole(x), Whole(y)) => BytesLeq(x, y)
    case (Number(_), _) => true
    case (Code(_), Whole(_)) => true
    case _ => false
  }

  /** The tag that the program pairs a component with. */
  function Tag(c: Component): nat {
    match c
    case Number(_) => 0
    case Code(_) => 1
    case Whole(_) => 2
  }

  /** Components compare as the program's pairs: by tag, then by number or in the dictionary order of bytes. */
  lemma ComponentsByTag(a: Component, b: Component)
    ensures ComponentLeq(a, b) <==>
      if Tag(a) != Tag(b) then Tag(a) < Tag(b)
      else if a.Number? then a.number <= b.number
      else if a.Code? then InDictionaryOrder(ByteLeq, a.code, b.code)
      else InDictionaryOrder(ByteLeq, a.bytes, b.bytes)
  {
    if a.Code? && b.Code? {
      LexByFirstDifference(ByteLeq, a.code, b.code);
    } else if a.Whole? && b.Whole? {
      LexByFirstDifference(ByteLeq, a.bytes, b.bytes);
    }
  }

  predicate KeyLeq(a: OrderKey, b: OrderKey) {
    LexLeq(ComponentLeq, a, b)
  }

  /** What a schema computes from an item, `None` for a failed requirement. */
  type KeyFunction = Json -> Option<OrderKey>

  function IntegerComponent(v: Json): Option<Component> {
    if v.Int? && -SAFE_INTEGER_LIMIT <= v.number <= SAFE_INTEGER_LIMIT then Some(Number(v.number)) else None
  }

  function StringComponent(nfc: Nfc, v: Json): Option<Component> {
    if v.Str? && v.text != [] && IsValidText(nfc, v.text) then Some(Code(Utf16(v.text))) else None
  }

  predicate IsKey(key: Option<OrderKey>) {
    key.Some? && key.value != []
  }

  /** The item has both keys and can be encoded. */
  predicate IsOrderable(nfc: Nfc, primary: KeyFunction, identity: KeyFunction, item: Json) {
    IsKey(primary(item)) && IsKey(identity(item)) && Canonical(nfc, item).Some?
  }

  function SortKey(nfc: Nfc, primary: KeyFunction, item: Json): OrderKey {
    match (primary(item), Canonical(nfc, item))
    case (Some(key), Some(bytes)) => key + [Whole(bytes)]
    case _ => []
  }

  function SortKeyFor(nfc: Nfc, primary: KeyFunction): Json -> OrderKey {
    item => SortKey(nfc, primary, item)
  }

  predicate IsAccepted(nfc: Nfc, primary: KeyFunction, identity: KeyFunction, items: seq<Json>) {
    && (forall i :: 0 <= i < |items| ==> IsOrderable(nfc, primary, identity, items[i]))
    && (forall i, j :: 0 <= i < j < |items| ==> identity(items[i]) != identity(items[j]))
  }

  /** What `derive_stable_array_view` returns; `identity` is the unique key, or the primary one if there is none. */
  function StableView(nfc: Nfc, primary: KeyFunction, identity: KeyFunction, items: seq<Json>): Option<seq<Json>> {
    if IsAccepted(nfc, primary, identity, items) then Some(SortBy(SortKeyFor(nfc, primary), KeyLeq, items)) else None
  }

  datatype Entry = Entry(key: OrderKey, item: Json)

  function EntryKey(entry: Entry): OrderKey {
    entry.key
  }

  function EntryItem(entry: Entry): Json {
    entry.item
  }

  function Decorated(nfc: Nfc, primary: KeyFunction): Json -> Entry {
    item => Entry(SortKey(nfc, primary, item), item)
  }

  lemma DecoratedSort(nfc: Nfc, primary: KeyFunction, items: seq<Json>)
    ensures Mapped(EntryItem, SortBy(EntryKey, KeyLeq, Mapped(Decorated(nfc, primary), items)))
         == SortBy(SortKeyFor(nfc, primary), KeyLeq, items)
  {
    var sorted := SortBy(SortKeyFor(nfc, primary), KeyLeq, items);
    SortMaps(SortKeyFor(nfc, primary), EntryKey, Decorated(nfc, primary), KeyLeq, items);
    assert Mapped(EntryItem, Mapped(Decorated(nfc, primary), sorted)) == sorted;
  }

  /** The identities of accepted items. */
  function Identities(identity: KeyFunction, items: seq<Json>): set<OrderKey> {
    set i | 0 <= i < |items| && identity(items[i]).Some? :: identity(items[i]).value
  }

  lemma AcceptedGrows(nfc: Nfc, primary: KeyFunction, identity: KeyFunction, items: seq<Json>, i: nat)
    requires i < |items| && IsAccepted(nfc, primary, identity, items[..i])
    ensures Identities(identity, items[..i + 1]) ==
      if identity(items[i]).Some? then Identities(identity, items[..i]) + {identity(items[i]).value}
      else Identities(identity, items[..i])
    ensures
      if IsOrderable(nfc, primary, identity, items[i])
         && identity(items[i]).value !in Identities(identity, items[..i])
      then IsAccepted(nfc, primary, identity, items[..i + 1])
      else !IsAccepted(nfc, primary, identity, items)
  {
    var before, grown := items[..i], items[..i + 1];
    assert grown == before + [items[i]];
    if IsOrderable(nfc, primary, identity, items[i]) {
      if identity(items[i]).value in Identities(identity, before) {
        var j :| 0 <= j < i && identity(before[j]) == identity(items[i]);
        assert identity(items[j]) == identity(items[i]);
      } else {
        forall j | 0 <= j < i
          ensures identity(before[j]) != identity(items[i])
        {
          assert IsOrderable(nfc, primary, identity, before[j]);
        }
      }
    }
  }

  method DeriveStableArrayView(nfc: Nfc, items: seq<Json>, primary: KeyFunction, unique: Option<KeyFunction>)
    returns (r: Option<seq<Json>>)
    ensures r == StableView(nfc, primary, if unique.Some? then unique.value else primary, items)
  {
    ghost var identity := if unique.Some? then unique.value else primary;
    var seen: set<OrderKey> := {};
    var decorated: seq<Entry> := [];
    for i := 0 to |items|
      invariant IsAccepted(nfc, primary, identity, items[..i])
      invariant seen == Identities(identity, items[..i])
      invariant decorated == Mapped(Decorated(nfc, primary), items[..i])
    {
      var item := items[i];
      AcceptedGrows(nfc, primary, identity, items, i);
      assert items[..i + 1] == items[..i] + [item];
      var key := primary(item);
      if key.None? || key.value == [] {
        return None;
      }
      var own := key;
      if unique.Some? {
        own := unique.value(item);
      }
      if own.None? || own.value == [] {
        return None;
      }
      if own.value in seen {
        return None;
      }
      seen := seen + {own.value};
      var bytes := Canonical(nfc, item);
      if bytes.None? {
        return None;
      }
      decorated := decorated + [Entry(key.value + [Whole(bytes.value)], item)];
    }
    assert items[..|items|] == items;
    DecoratedSort(nfc, primary, items);
    r := Some(Mapped(EntryItem, SortBy(EntryKey, KeyLeq, decorated)));
  }

  lemma ComponentOrder()
    ensures IsTotalOrder(ComponentLeq)
  {
    BytesOrder();
    var leq := BytesLeq;
    forall a, b, c | ComponentLeq(a, b) && ComponentLeq(b, c)
      ensures ComponentLeq(a, c)
    {
      if a.Code? && c.Code? {
        assert leq(a.code, b.code) && leq(b.code, c.code);
      } else if a.Whole? && c.Whole? {
        assert leq(a.bytes, b.bytes) && leq(b.bytes, c.bytes);
      }
    }
    forall a, b
      ensures ComponentLeq(a, a) && (ComponentLeq(a, b) || ComponentLeq(b, a))
      ensures ComponentLeq(a, b) && ComponentLeq(b, a) ==> a == b
    {
      if a.Code? && b.Code? {
        assert leq(a.code, b.code) || leq(b.code, a.code);
      } else if a.Whole? && b.Whole? {
        assert leq(a.bytes, b.bytes) || leq(b.bytes, a.bytes);
      }
    }
  }

  lemma KeyOrder()
    ensures IsTotalOrder(KeyLeq)
  {
    ComponentOrder();
    var leq := KeyLeq;
    forall a: OrderKey
      ensures leq(a, a)
    {
      LexIsReflexive(ComponentLeq, a);
    }
    forall a: OrderKey, b: OrderKey
      ensures leq(a, b) || leq(b, a)
      ensures leq(a, b) && leq(b, a) ==> a == b
    {
      LexIsTotal(ComponentLeq, a, b);
    }
    forall a: OrderKey, b: OrderKey, c: OrderKey | leq(a, b) && leq(b, c)
      ensures leq(a, c)
    {
      LexIsTransitive(ComponentLeq, a, b, c);
    }
  }
}
